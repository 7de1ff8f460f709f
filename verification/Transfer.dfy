/** One reading of a mount: its figures, the tier they rest on, and what they leave unsaid. */
module Transfers {
  import opened Base
  import S = Scan

  datatype Tier = T1 | T2 | T3 | T4

  datatype CacheMode = Off | Minimal | Writes | Full

  predicate AllWritesQueued(mode: Option<CacheMode>) { mode == Some(Writes) || mode == Some(Full) }

  // --- why an rc call failed ----------------------------------------------------------

  datatype RcError =
    | NotListening | InsecureSocket | Connect | Timeout | Transport
    | Failed(status: nat) | Decode | InvalidCommand | ResponseTooLarge
  {
    /** No usable rc here, as opposed to an rclone that answered badly. */
    predicate IsUnreachable() {
      NotListening? || InsecureSocket? || Connect? || Timeout? || Transport?
    }
  }

  /** What a reading falls short of, one constructor for each sentence the service writes. */
  datatype Reason =
    | NoQueueKey | QueueMissingNoCache | NeitherRegistered | CountsOnly
    | MinimalMode | ModeHidesWrites | ModeUnknown | QueueWithoutCache | NoVfsStats
    | ProbeRefused(e: RcError) | NoCommands | RcFault(e: RcError)
    | ScanTimedOut(e: RcError) | CacheGone(e: RcError) | ScanFailed(e: RcError) | ScanPanicked(e: RcError)
    | ReadFromDisk(e: RcError, files: nat, unreadable: nat, truncated: bool, floor: Floor)
    | NotServing | SocketUnknown | NoConfig | NotPolledYet

  datatype Floor = NoFloor | FloorForMode | FloorForUnknownMode

  // --- what rclone answers ------------------------------------------------------------

  /** One queued upload; a negative size is rclone's "unknown". */
  datatype QueueItem = QueueItem(name: string, size: int, tries: nat, uploading: bool)

  /** `None` is a reply without the key, which is no statement about a queue. */
  datatype VfsQueue = VfsQueue(queue: Option<seq<QueueItem>>)

  datatype DiskCache = DiskCache(path: string, pathMeta: string, uploadsInProgress: nat,
                                 uploadsQueued: nat, erroredFiles: nat, outOfSpace: bool)

  /** `opt.CacheMode` as rclone's ordinal, where it was there and a number. */
  datatype VfsStats = VfsStats(cacheModeOrdinal: Option<nat>, diskCache: Option<DiskCache>)

  function CacheModeOf(stats: VfsStats): Option<CacheMode> {
    match stats.cacheModeOrdinal
    case Some(0) => Some(Off)
    case Some(1) => Some(Minimal)
    case Some(2) => Some(Writes)
    case Some(3) => Some(Full)
    case _ => None
  }

  /** A transfer rclone reports as running; without a group its byte count means nothing. */
  datatype Transfer = Transfer(name: string, bytes: int, group: Option<string>, srcFs: Option<string>)

  datatype CoreStats = CoreStats(transferring: Option<seq<Transfer>>)

  // --- readings -----------------------------------------------------------------------

  datatype Pending = Pending(files: nat, knownBytes: nat, unknownSizeFiles: nat)

  datatype TransferFile = TransferFile(name: string, size: Option<nat>, inFlight: Option<bool>,
                                       tries: Option<nat>, bytesSent: Option<nat>)

  datatype TransferState = TransferState(
    mount: string,
    fidelity: Option<Tier>,
    outstandingKnown: bool,
    hasProgress: bool,
    pending: Pending,
    uploading: Option<nat>,
    erroredFiles: Option<nat>,
    outOfSpace: Option<bool>,
    rate: Option<nat>,
    files: seq<TransferFile>,
    degradedReason: Option<Reason>)
  {
    function WithCacheHealth(cache: DiskCache): TransferState {
      this.(erroredFiles := Some(cache.erroredFiles), outOfSpace := Some(cache.outOfSpace))
    }

    function PartiallyObserved(why: Reason): TransferState {
      this.(outstandingKnown := false, degradedReason := Some(why))
    }

    function Degraded(why: Reason): TransferState { this.(degradedReason := Some(why)) }

    predicate SafeToUnmount() { outstandingKnown && pending.files == 0 }

    predicate HasByteTotal() { fidelity.Some? && fidelity != Some(T3) }

    function RemainingBytes(): nat {
      SaturatingSub(pending.knownBytes, WrapU64(SentOfSized(files)))
    }
  }

  const EMPTY_PENDING := Pending(0, 0, 0)

  function Empty(mount: string, fidelity: Option<Tier>): TransferState {
    TransferState(mount, fidelity, true, false, EMPTY_PENDING, None, None, None, None, [], None)
  }

  function Unmonitored(mount: string, why: Reason): TransferState {
    Empty(mount, None).(outstandingKnown := false, degradedReason := Some(why))
  }

  function FromQueue(mount: string, queue: VfsQueue): TransferState {
    match queue.queue
    case None => Unmonitored(mount, NoQueueKey)
    case Some(items) =>
      Empty(mount, Some(T2)).(
        pending := PendingOf(items),
        uploading := Some(UploadingIn(items)),
        files := seq(|items|, i requires 0 <= i < |items| => FileOf(items[i])))
  }

  function FileOf(item: QueueItem): TransferFile {
    TransferFile(item.name, if item.size >= 0 then Some(item.size) else None,
                 Some(item.uploading), Some(item.tries), None)
  }

  /** Counts only. The two counts are added unchecked, so they wrap together at `2^64`. */
  function FromStats(mount: string, cache: DiskCache): TransferState {
    var files := WrapU64(cache.uploadsInProgress + cache.uploadsQueued);
    Empty(mount, Some(T3)).(
      uploading := Some(cache.uploadsInProgress),
      erroredFiles := Some(cache.erroredFiles),
      outOfSpace := Some(cache.outOfSpace),
      pending := Pending(files, 0, files))
  }

  function FromScan(mount: string, found: S.CacheScan): TransferState {
    Empty(mount, Some(T4)).(
      outstandingKnown := S.IsComplete(found) && found.rootPresent,
      pending := Pending(|found.files|, S.KnownBytes(found.files), Unmeasured(found.files)),
      files := seq(|found.files|, i requires 0 <= i < |found.files| =>
        TransferFile(S.NameOf(found.files[i].path), found.files[i].bytes, None, None, None)))
  }

  function Unmeasured(files: seq<S.DirtyFile>): nat {
    if files == [] then 0
    else Unmeasured(files[..|files| - 1]) + if files[|files| - 1].bytes.None? then 1 else 0
  }

  // --- the queue's own arithmetic -----------------------------------------------------

  function SumKnown(items: seq<QueueItem>): nat {
    if items == [] then 0
    else SumKnown(items[..|items| - 1]) + (if items[|items| - 1].size >= 0 then items[|items| - 1].size else 0)
  }

  function CountUnknown(items: seq<QueueItem>): nat {
    if items == [] then 0
    else CountUnknown(items[..|items| - 1]) + (if items[|items| - 1].size >= 0 then 0 else 1)
  }

  function UploadingIn(items: seq<QueueItem>): nat {
    if items == [] then 0
    else UploadingIn(items[..|items| - 1]) + (if items[|items| - 1].uploading then 1 else 0)
  }

  function PendingOf(items: seq<QueueItem>): Pending {
    Pending(|items|, WrapU64(SumKnown(items)), CountUnknown(items))
  }

  /** Each count is the number of those it is meant to count. */
  lemma {:induction false} UnknownSizesAreCounted(items: seq<QueueItem>)
    ensures CountUnknown(items) == |set i | 0 <= i < |items| && items[i].size < 0|
  {
    if items != [] {
      var k := |items| - 1;
      var before := items[..k];
      UnknownSizesAreCounted(before);
      assert (set i | 0 <= i < |items| && items[i].size < 0)
          == (set i | 0 <= i < k && before[i].size < 0) + (if items[k].size < 0 then {k} else {});
    }
  }

  lemma {:induction false} UploadsUnderWayAreCounted(items: seq<QueueItem>)
    ensures UploadingIn(items) == |set i | 0 <= i < |items| && items[i].uploading|
  {
    if items != [] {
      var k := |items| - 1;
      var before := items[..k];
      UploadsUnderWayAreCounted(before);
      assert (set i | 0 <= i < |items| && items[i].uploading)
          == (set i | 0 <= i < k && before[i].uploading) + (if items[k].uploading then {k} else {});
    }
  }

  lemma {:induction false} UnmeasuredFilesAreCounted(files: seq<S.DirtyFile>)
    ensures Unmeasured(files) == |set i | 0 <= i < |files| && files[i].bytes.None?|
  {
    if files != [] {
      var k := |files| - 1;
      var before := files[..k];
      UnmeasuredFilesAreCounted(before);
      assert (set i | 0 <= i < |files| && files[i].bytes.None?)
          == (set i | 0 <= i < k && before[i].bytes.None?) + (if files[k].bytes.None? then {k} else {});
    }
  }

  /** `VfsQueue::pending`: one pass, three counters, each addition unchecked. */
  method QueuePending(items: seq<QueueItem>) returns (p: Pending)
    ensures p == PendingOf(items)
  {
    p := EMPTY_PENDING;
    for i := 0 to |items|
      invariant p == PendingOf(items[..i])
    {
      assert items[..i + 1][..i] == items[..i];
      p := p.(files := p.files + 1);
      if items[i].size >= 0 {
        WrapAdds(SumKnown(items[..i]), items[i].size);
        p := p.(knownBytes := WrapU64(p.knownBytes + items[i].size));
      } else {
        p := p.(unknownSizeFiles := p.unknownSizeFiles + 1);
      }
    }
    assert items[..|items|] == items;
  }

  lemma WrapAdds(a: nat, b: nat)
    ensures WrapU64(WrapU64(a) + b) == WrapU64(a + b)
  {
    assert a == U64_MODULUS * (a / U64_MODULUS) + a % U64_MODULUS;
    ModuloIgnoresMultiples(a % U64_MODULUS + b, a / U64_MODULUS);
  }

  lemma {:induction false} ModuloIgnoresMultiples(n: nat, k: nat)
    ensures (n + U64_MODULUS * k) % U64_MODULUS == n % U64_MODULUS
  {
    if k > 0 {
      ModuloIgnoresMultiples(n, k - 1);
      assert n + U64_MODULUS * k == (n + U64_MODULUS * (k - 1)) + U64_MODULUS;
    }
  }

  // --- attributing core/stats transfers -----------------------------------------------

  const GLOBAL_STATS_GROUP := "global_stats"

  /** The first `}:` in a string, or its length. */
  function FindTagEnd(s: string): (i: nat)
    ensures i <= |s| && (i < |s| ==> i + 2 <= |s| && s[i..i + 2] == "}:")
  {
    if |s| < 2 then |s| else if s[0] == '}' && s[1] == ':' then 0
    else
      var i := FindTagEnd(s[1..]);
      assert i < |s[1..]| ==> s[1..][i..i + 2] == s[i + 1..i + 3];
      i + 1
  }

  function StripBackendTag(fs: string): string {
    if ":" <= fs then
      var rest := fs[1..];
      var i := FindTagEnd(rest);
      if i < |rest| then rest[i + 2..] else fs
    else fs
  }

  predicate IsWritebackUpload(t: Transfer, cachePath: string) {
    && t.group == Some(GLOBAL_STATS_GROUP)
    && cachePath != "" && t.srcFs.Some? && StripBackendTag(t.srcFs.value) == cachePath
  }

  function WritebackUploads(stats: CoreStats, cachePath: string): seq<Transfer> {
    if stats.transferring.None? then [] else Uploads(stats.transferring.value, cachePath)
  }

  function Uploads(ts: seq<Transfer>, cachePath: string): seq<Transfer> {
    if ts == [] then []
    else (if IsWritebackUpload(ts[0], cachePath) then [ts[0]] else []) + Uploads(ts[1..], cachePath)
  }

  lemma {:induction false} FindTagEndAfter(tag: string, path: string)
    requires '}' !in tag
    ensures FindTagEnd(tag + "}:" + path) == |tag|
  {
    var s := tag + "}:" + path;
    if tag != "" {
      assert s[1..] == tag[1..] + "}:" + path;
      FindTagEndAfter(tag[1..], path);
    } else {
      assert s[0] == '}' && s[1] == ':';
    }
  }

  /** rclone's tag comes off whole, and an absolute path without one is left alone. */
  lemma BackendTagComesOff(tag: string, path: string)
    ensures '}' !in tag ==> StripBackendTag(":" + tag + "}:" + path) == path
    ensures !(":" <= path) ==> StripBackendTag(path) == path
  {
    if '}' !in tag {
      FindTagEndAfter(tag, path);
      assert (":" + tag + "}:" + path)[1..] == tag + "}:" + path;
      assert (tag + "}:" + path)[|tag| + 2..] == path;
    }
  }

  lemma {:induction false} UploadsAreExact(ts: seq<Transfer>, cachePath: string, t: Transfer)
    ensures t in Uploads(ts, cachePath) <==> t in ts && IsWritebackUpload(t, cachePath)
  {
    if ts != [] {
      UploadsAreExact(ts[1..], cachePath, t);
      assert t in ts <==> t == ts[0] || t in ts[1..];
    }
  }

  /**
   * A transfer is attributed to a mount exactly when it is an ungrouped one out of that
   * mount's cache, so mounts with different cache paths never share one.
   */
  lemma AttributionIsDisjoint(stats: CoreStats, a: string, b: string, t: Transfer)
    requires a != b
    ensures t in WritebackUploads(stats, a) ==> t !in WritebackUploads(stats, b)
    ensures stats.transferring.Some? ==>
      (t in WritebackUploads(stats, a) <==>
         t in stats.transferring.value && t.group == Some(GLOBAL_STATS_GROUP)
         && a != "" && t.srcFs.Some? && StripBackendTag(t.srcFs.value) == a)
  {
    if stats.transferring.Some? {
      UploadsAreExact(stats.transferring.value, a, t);
      UploadsAreExact(stats.transferring.value, b, t);
    }
  }

  // --- progress -----------------------------------------------------------------------

  /** The first transfer of a file that has accounting attached. */
  function FindTransfer(ts: seq<Transfer>, name: string): (found: Option<Transfer>)
    ensures found.Some? ==> found.value in ts && found.value.name == name && found.value.group.Some?
    ensures found.None? ==> forall t <- ts :: t.name != name || t.group.None?
  {
    if ts == [] then None
    else if ts[0].name == name && ts[0].group.Some? then Some(ts[0])
    else FindTransfer(ts[1..], name)
  }

  function ProgressOf(f: TransferFile, ts: seq<Transfer>): TransferFile {
    match FindTransfer(ts, f.name)
    case Some(t) => f.(bytesSent := if t.bytes >= 0 then Some(t.bytes) else None)
    case None => f
  }

  /** The first of some transfers that is this file's own upload out of the cache. */
  predicate FirstUploadOf(ts: seq<Transfer>, cachePath: string, name: string, k: nat)
    requires k < |ts|
  {
    && IsWritebackUpload(ts[k], cachePath) && ts[k].name == name
    && forall j :: 0 <= j < k ==> !(IsWritebackUpload(ts[j], cachePath) && ts[j].name == name)
  }

  /** What a file has sent is what its first upload has, if that is a count; without one, nothing is known. */
  ghost predicate SentAsReported(f: TransferFile, ts: seq<Transfer>, cachePath: string) {
    && (forall k: nat :: k < |ts| && FirstUploadOf(ts, cachePath, f.name, k) ==>
          f.bytesSent == if ts[k].bytes >= 0 then Some(ts[k].bytes) else None)
    && ((forall t <- ts :: !(IsWritebackUpload(t, cachePath) && t.name == f.name)) ==> f.bytesSent.None?)
  }

  lemma {:induction false} FirstUploadIsFound(ts: seq<Transfer>, cachePath: string, name: string)
    ensures match FindTransfer(Uploads(ts, cachePath), name)
      case None => forall t <- ts :: !(IsWritebackUpload(t, cachePath) && t.name == name)
      case Some(t) => exists k: nat :: k < |ts| && FirstUploadOf(ts, cachePath, name, k) && ts[k] == t
  {
    if ts != [] {
      FirstUploadIsFound(ts[1..], cachePath, name);
      var mine := IsWritebackUpload(ts[0], cachePath) && ts[0].name == name;
      var rest := FindTransfer(Uploads(ts[1..], cachePath), name);
      if IsWritebackUpload(ts[0], cachePath) {
        assert Uploads(ts, cachePath)[1..] == Uploads(ts[1..], cachePath);
      } else {
        assert Uploads(ts, cachePath) == Uploads(ts[1..], cachePath);
      }
      if mine {
        assert FirstUploadOf(ts, cachePath, name, 0);
      } else if rest.Some? {
        var k: nat :| k < |ts[1..]| && FirstUploadOf(ts[1..], cachePath, name, k) && ts[1..][k] == rest.value;
        FirstOneLater(ts, cachePath, name, k);
      }
    }
  }

  lemma FirstOneLater(ts: seq<Transfer>, cachePath: string, name: string, k: nat)
    requires ts != [] && k < |ts[1..]| && FirstUploadOf(ts[1..], cachePath, name, k)
    requires !(IsWritebackUpload(ts[0], cachePath) && ts[0].name == name)
    ensures FirstUploadOf(ts, cachePath, name, k + 1)
  {
    forall j | 0 <= j < k + 1 ensures !(IsWritebackUpload(ts[j], cachePath) && ts[j].name == name) {
      if j > 0 { assert ts[j] == ts[1..][j - 1]; }
    }
  }

  lemma OnlyOneIsFirst(ts: seq<Transfer>, cachePath: string, name: string, i: nat, j: nat)
    requires i < |ts| && j < |ts| && FirstUploadOf(ts, cachePath, name, i) && FirstUploadOf(ts, cachePath, name, j)
    ensures i == j
  {}

  /** A queued file that is given progress is given that of its own upload. */
  lemma ProgressIsAsReported(f: TransferFile, ts: seq<Transfer>, cachePath: string)
    requires f.bytesSent.None?
    ensures SentAsReported(ProgressOf(f, Uploads(ts, cachePath)), ts, cachePath)
    ensures ProgressOf(f, Uploads(ts, cachePath)).(bytesSent := None) == f
  {
    FirstUploadIsFound(ts, cachePath, f.name);
    var found := FindTransfer(Uploads(ts, cachePath), f.name);
    if found.Some? {
      var k: nat :| k < |ts| && FirstUploadOf(ts, cachePath, f.name, k) && ts[k] == found.value;
      forall i: nat | i < |ts| && FirstUploadOf(ts, cachePath, f.name, i) ensures ts[i] == found.value {
        OnlyOneIsFirst(ts, cachePath, f.name, i, k);
      }
    }
  }

  predicate GainsProgress(f: TransferFile, ts: seq<Transfer>) {
    FindTransfer(ts, f.name).Some? && FindTransfer(ts, f.name).value.bytes >= 0
  }

  function WithProgress(s: TransferState, ts: seq<Transfer>): TransferState {
    if s.fidelity != Some(T2) then s
    else s.(
      files := seq(|s.files|, i requires 0 <= i < |s.files| => ProgressOf(s.files[i], ts)),
      hasProgress := exists i :: 0 <= i < |s.files| && GainsProgress(s.files[i], ts))
  }

  /** `with_progress`: files are updated one by one, and any progress is remembered. */
  method AddProgress(s: TransferState, ts: seq<Transfer>) returns (r: TransferState)
    ensures r == WithProgress(s, ts)
  {
    if s.fidelity != Some(T2) { return s; }
    var any := false;
    var files := s.files;
    for i := 0 to |files|
      invariant |files| == |s.files|
      invariant forall k :: 0 <= k < i ==> files[k] == ProgressOf(s.files[k], ts)
      invariant forall k :: i <= k < |files| ==> files[k] == s.files[k]
      invariant any <==> exists k :: 0 <= k < i && GainsProgress(s.files[k], ts)
    {
      var found := FindTransfer(ts, files[i].name);
      if found.Some? {
        var sent := if found.value.bytes >= 0 then Some(found.value.bytes) else None;
        files := files[i := files[i].(bytesSent := sent)];
        any := any || sent.Some?;
      }
    }
    r := s.(files := files, hasProgress := any);
    assert r.files == WithProgress(s, ts).files;
  }

  function SentOfSized(files: seq<TransferFile>): nat {
    if files == [] then 0
    else SentOfSized(files[..|files| - 1]) + SizedSent(files[|files| - 1])
  }

  function SizedSent(f: TransferFile): nat {
    if f.size.Some? && f.bytesSent.Some? then f.bytesSent.value else 0
  }

  function LeftToSend(files: seq<TransferFile>): int {
    if files == [] then 0
    else LeftToSend(files[..|files| - 1]) + Left(files[|files| - 1])
  }

  /** What one sized file still has to send; an unsized one has no figure. */
  function Left(f: TransferFile): int {
    if f.size.Some? then f.size.value - SizedSent(f) else 0
  }

  function SizeTotal(files: seq<TransferFile>): nat {
    if files == [] then 0
    else SizeTotal(files[..|files| - 1])
         + (if files[|files| - 1].size.Some? then files[|files| - 1].size.value else 0)
  }

  lemma {:induction false} LeftIsSizeLessSent(files: seq<TransferFile>)
    ensures LeftToSend(files) == SizeTotal(files) - SentOfSized(files)
  {
    if files != [] { LeftIsSizeLessSent(files[..|files| - 1]); }
  }

  lemma {:induction false} SentFits(files: seq<TransferFile>)
    requires forall f <- files :: f.size.Some? ==> SizedSent(f) <= f.size.value
    ensures SentOfSized(files) <= SizeTotal(files)
  {
    if files != [] {
      assert files[|files| - 1] in files;
      assert forall f <- files[..|files| - 1] :: f in files;
      SentFits(files[..|files| - 1]);
    }
  }

  lemma {:induction false} SizeTotalIsSumKnown(items: seq<QueueItem>, files: seq<TransferFile>)
    requires |files| == |items|
    requires forall i :: 0 <= i < |items| ==> files[i].size == FileOf(items[i]).size
    ensures SizeTotal(files) == SumKnown(items)
  {
    if items != [] { SizeTotalIsSumKnown(items[..|items| - 1], files[..|items| - 1]); }
  }

  /**
   * Progress adds to a reading and takes nothing from it. A file carries bytes exactly when an
   * accounted transfer of its name reports them, and `has_progress` says whether any does.
   */
  lemma ProgressKeepsTheQueue(mount: string, items: seq<QueueItem>, ts: seq<Transfer>)
    ensures
      var q := FromQueue(mount, VfsQueue(Some(items)));
      var s := WithProgress(q, ts);
      && s.pending == q.pending && s.fidelity == Some(T2) && s.outstandingKnown
      && s.uploading == q.uploading && |s.files| == |items|
      && (forall i :: 0 <= i < |items| ==>
            s.files[i].(bytesSent := None) == FileOf(items[i])
            && (s.files[i].bytesSent.Some? <==> GainsProgress(q.files[i], ts)))
      && (s.hasProgress <==> exists f <- s.files :: f.bytesSent.Some?)
  {
    var q := FromQueue(mount, VfsQueue(Some(items)));
    var s := WithProgress(q, ts);
    forall i | 0 <= i < |items|
      ensures s.files[i].(bytesSent := None) == FileOf(items[i])
      ensures s.files[i].bytesSent.Some? <==> GainsProgress(q.files[i], ts)
    {
      assert q.files[i] == FileOf(items[i]);
    }
    if s.hasProgress {
      var i :| 0 <= i < |q.files| && GainsProgress(q.files[i], ts);
      assert s.files[i].bytesSent.Some? && s.files[i] in s.files;
    }
    if f :| f in s.files && f.bytesSent.Some? {
      var i :| 0 <= i < |s.files| && s.files[i] == f;
      assert GainsProgress(q.files[i], ts);
    }
  }

  /**
   * Bytes on the wire are discounted exactly: while nothing is sent beyond its size and the
   * total fits 64 bits, what remains is the sum over sized files of size less sent.
   */
  lemma RemainingIsSizeLessSent(mount: string, items: seq<QueueItem>, ts: seq<Transfer>)
    requires SumKnown(items) <= U64_MAX
    requires forall f <- WithProgress(FromQueue(mount, VfsQueue(Some(items))), ts).files ::
      f.size.Some? ==> SizedSent(f) <= f.size.value
    ensures var s := WithProgress(FromQueue(mount, VfsQueue(Some(items))), ts);
      s.RemainingBytes() == LeftToSend(s.files)
  {
    var s := WithProgress(FromQueue(mount, VfsQueue(Some(items))), ts);
    ProgressKeepsTheQueue(mount, items, ts);
    forall i | 0 <= i < |items| ensures s.files[i].size == FileOf(items[i]).size {
      assert s.files[i].(bytesSent := None) == FileOf(items[i]);
    }
    SizeTotalIsSumKnown(items, s.files);
    SentFits(s.files);
    LeftIsSizeLessSent(s.files);
  }

  // --- the wire -----------------------------------------------------------------------

  /** A reading as it crosses D-Bus: `Pending` flattened, the tier spelled out. */
  datatype TransferView = TransferView(
    mount: string, fidelity: Option<string>, outstandingKnown: bool, hasProgress: bool,
    pendingFiles: nat, pendingKnownBytes: nat, pendingUnknownSizeFiles: nat,
    uploading: Option<nat>, erroredFiles: Option<nat>, outOfSpace: Option<bool>,
    rate: Option<nat>, files: seq<TransferFile>, degradedReason: Option<Reason>)

  function TierName(t: Tier): string {
    match t case T1 => "T1" case T2 => "T2" case T3 => "T3" case T4 => "T4"
  }

  function TierFromName(name: string): Option<Tier> {
    if name == "T1" then Some(T1) else if name == "T2" then Some(T2)
    else if name == "T3" then Some(T3) else if name == "T4" then Some(T4) else None
  }

  function ViewOf(s: TransferState): TransferView {
    TransferView(s.mount, match s.fidelity case Some(t) => Some(TierName(t)) case None => None,
                 s.outstandingKnown, s.hasProgress, s.pending.files, s.pending.knownBytes,
                 s.pending.unknownSizeFiles, s.uploading, s.erroredFiles, s.outOfSpace,
                 s.rate, s.files, s.degradedReason)
  }

  function StateOf(v: TransferView): TransferState {
    TransferState(v.mount, match v.fidelity case Some(n) => TierFromName(n) case None => None,
                  v.outstandingKnown, v.hasProgress,
                  Pending(v.pendingFiles, v.pendingKnownBytes, v.pendingUnknownSizeFiles),
                  v.uploading, v.erroredFiles, v.outOfSpace, v.rate, v.files, v.degradedReason)
  }

  /** A reading survives the wire, and a tier nobody knows reads as none rather than as one. */
  lemma ReadingsSurviveTheWire(s: TransferState, v: TransferView)
    ensures StateOf(ViewOf(s)) == s
    ensures ViewOf(StateOf(v)) == v <==>
      (v.fidelity.Some? ==> v.fidelity.value in {"T1", "T2", "T3", "T4"})
    ensures StateOf(v).fidelity.Some? ==>
      v.fidelity == Some(TierName(StateOf(v).fidelity.value))
    ensures StateOf(v).SafeToUnmount() <==> v.outstandingKnown && v.pendingFiles == 0
    ensures ViewOf(s).fidelity == (match s.fidelity
                                   case None => None
                                   case Some(T1) => Some("T1") case Some(T2) => Some("T2")
                                   case Some(T3) => Some("T3") case Some(T4) => Some("T4"))
  {}
}
