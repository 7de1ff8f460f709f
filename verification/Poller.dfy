/** Polling one mount: the capability ladder, what is latched between polls, and the fallback. */
module Poller {
  import opened Base
  import opened Transfers
  import R = Rate
  import S = Scan

  datatype Answer<+T> = Ok(value: T) | Err(error: RcError)

  /** How the walk of the cache on disk ended. */
  datatype DiskAnswer = Walked(result: S.ScanResult) | TookTooLong | Panicked

  datatype Capabilities = Capabilities(commands: set<string>, degraded: Option<RcError>)

  /** The cache as one poll knows it: unknown, known not to be there, or described. */
  datatype CacheProbe = NotAsked | Absent | Present(cache: DiskCache, mode: Option<CacheMode>)

  /** Every answer rclone, the disk and the clock would give to one poll. Most go unasked. */
  datatype Round = Round(
    probe: Answer<set<string>>,
    stats: Answer<VfsStats>,
    queue: Answer<VfsQueue>,
    core: Answer<CoreStats>,
    disk: (string, string) -> DiskAnswer,
    at: real)

  /** What a poller keeps between polls. */
  datatype Latch = Latch(caps: Capabilities, rate: R.Estimate, cachePath: Option<string>,
                         metaPath: Option<string>, mode: Option<CacheMode>)
  {
    predicate Has(command: string) { command in caps.commands }
  }

  const MISSING: RcError := Failed(404)

  function CapabilitiesFrom(probe: Answer<set<string>>): Capabilities {
    match probe
    case Ok(commands) => Capabilities(commands, None)
    case Err(e) => Capabilities({}, Some(e))
  }

  function Connected(probe: Answer<set<string>>): Latch {
    Latch(CapabilitiesFrom(probe), R.FRESH, None, None, None)
  }

  function TierOf(caps: Capabilities): Tier {
    if "core/stats" in caps.commands then T1
    else if "vfs/queue" in caps.commands then T2
    else if "vfs/stats" in caps.commands then T3 else T4
  }

  function ForgetRoots(l: Latch): Latch { l.(cachePath := None, metaPath := None) }

  function AfterStats(l: Latch, stats: VfsStats): Latch {
    var heard := l.(mode := CacheModeOf(stats));
    match stats.diskCache
    case None => ForgetRoots(heard)
    case Some(cache) =>
      if cache.path != "" && cache.pathMeta != "" then
        heard.(cachePath := Some(cache.path), metaPath := Some(cache.pathMeta))
      else ForgetRoots(heard)
  }

  function ProbeOf(stats: VfsStats): CacheProbe {
    match stats.diskCache case None => Absent case Some(cache) => Present(cache, CacheModeOf(stats))
  }

  /** `fetch_stats`: what it answers, and what it leaves latched. */
  function FetchStats(l: Latch, stats: Answer<VfsStats>): (Answer<CacheProbe>, Latch) {
    if !l.Has("vfs/stats") then (Ok(NotAsked), l)
    else match stats
      case Ok(s) => (Ok(ProbeOf(s)), AfterStats(l, s))
      case Err(Failed(404)) => (Ok(NotAsked), ForgetRoots(l).(mode := None))
      case Err(e) => (Err(e), l)
  }

  function FetchQueue(l: Latch, queue: Answer<VfsQueue>): Answer<VfsQueue> {
    if l.Has("vfs/queue") then queue else Err(MISSING)
  }

  /** rclone cannot be asked: read the cache it named while it could be. */
  function Unreachable(name: string, l: Latch, e: RcError,
                       disk: (string, string) -> DiskAnswer): TransferState {
    if l.metaPath.None? || l.cachePath.None? then Unmonitored(name, RcFault(e))
    else match disk(l.metaPath.value, l.cachePath.value)
      case TookTooLong => Unmonitored(name, ScanTimedOut(e))
      case Panicked => Unmonitored(name, ScanPanicked(e))
      case Walked(RootUnreadable) => Unmonitored(name, ScanFailed(e))
      case Walked(Scanned(found)) =>
        if !found.rootPresent then Unmonitored(name, CacheGone(e))
        else
          var floor := if AllWritesQueued(l.mode) then NoFloor
                       else if l.mode.Some? then FloorForMode else FloorForUnknownMode;
          var why := ReadFromDisk(e, |found.files|, found.unreadable, found.truncated, floor);
          var state := FromScan(name, found);
          if AllWritesQueued(l.mode) then state.Degraded(why) else state.PartiallyObserved(why)
  }

  /** Why a queue's entries are a floor in a given mode, unless they are not. */
  function Qualified(s: TransferState, cache: CacheProbe): TransferState {
    match cache
    case Present(c, mode) =>
      var healthy := s.WithCacheHealth(c);
      if AllWritesQueued(mode) then healthy
      else healthy.PartiallyObserved(if mode == Some(Minimal) then MinimalMode
                                     else if mode.Some? then ModeHidesWrites else ModeUnknown)
    case Absent => s.PartiallyObserved(QueueWithoutCache)
    case NotAsked => s.PartiallyObserved(NoVfsStats)
  }

  function Lifted(l: Latch, s: TransferState, core: Answer<CoreStats>): TransferState {
    if l.Has("core/stats") && s.fidelity == Some(T2) && l.cachePath.Some? && core.Ok? then
      WithProgress(s, WritebackUploads(core.value, l.cachePath.value))
    else s
  }

  function Rated(l: Latch, s: TransferState, at: real): (TransferState, Latch) {
    if s.pending.files == 0 || !s.HasByteTotal() then (s.(rate := None), l.(rate := R.FRESH))
    else
      var next := R.Take(l.rate, R.Sample(at, s.RemainingBytes()));
      (s.(rate := Shown(R.Answer(l.rate, next), s.uploading)), l.(rate := next))
  }

  /** Zero asserts "stalled", so it is shown only when nothing is in flight. */
  function Shown(rate: Option<nat>, uploading: Option<nat>): Option<nat> {
    if rate == Some(0) && uploading != Some(0) then None else rate
  }

  /** One poll as a function of what was latched and what was answered. */
  function PollStep(name: string, l0: Latch, r: Round): (TransferState, Latch) {
    var l := if l0.caps.commands == {} then l0.(caps := CapabilitiesFrom(r.probe)) else l0;
    if l.caps.commands == {} then
      (Unmonitored(name, if l.caps.degraded.Some? then ProbeRefused(l.caps.degraded.value) else NoCommands), l)
    else
      var (cache, l1) := FetchStats(l, r.stats);
      match cache
      case Err(e) =>
        var quiet := l1.(rate := R.FRESH);
        (if e.IsUnreachable() then Unreachable(name, quiet, e, r.disk) else Unmonitored(name, RcFault(e)), quiet)
      case Ok(probe) =>
        match FetchQueue(l1, r.queue)
        case Ok(queue) =>
          var s := FromQueue(name, queue);
          if s.outstandingKnown then Finish(l1, s, probe, r)
          else
            (if probe.Present? then FromStats(name, probe.cache).PartiallyObserved(CountsOnly) else s,
             l1.(rate := R.FRESH))
        case Err(Failed(404)) =>
          if probe.Present? then Finish(l1, FromStats(name, probe.cache), probe, r)
          else (Unmonitored(name, if probe.Absent? then QueueMissingNoCache else NeitherRegistered), l1)
        case Err(e) =>
          var quiet := l1.(rate := R.FRESH);
          (if e.IsUnreachable() then Unreachable(name, quiet, e, r.disk) else Unmonitored(name, RcFault(e)), quiet)
  }

  function Finish(l: Latch, s: TransferState, probe: CacheProbe, r: Round): (TransferState, Latch) {
    Rated(l, Lifted(l, Qualified(s, probe), r.core), r.at)
  }

  class MountPoller {
    const name: string
    var caps: Capabilities
    const rate: R.RateEstimator
    var cachePath: Option<string>
    var metaPath: Option<string>
    var mode: Option<CacheMode>

    function State(): Latch
      reads this, rate
    {
      Latch(caps, rate.State(), cachePath, metaPath, mode)
    }

    constructor (name: string, probe: Answer<set<string>>)
      ensures State() == Connected(probe) && this.name == name
      ensures fresh(rate)
    {
      this.name := name;
      caps := CapabilitiesFrom(probe);
      rate := new R.RateEstimator();
      cachePath, metaPath, mode := None, None, None;
    }

    method ForgetTheRoots()
      modifies this
      ensures State() == ForgetRoots(old(State()))
    {
      cachePath := None;
      metaPath := None;
    }

    method AskStats(stats: Answer<VfsStats>) returns (probe: Answer<CacheProbe>)
      modifies this
      ensures (probe, State()) == FetchStats(old(State()), stats)
    {
      if "vfs/stats" !in caps.commands { return Ok(NotAsked); }
      match stats {
        case Err(Failed(404)) =>
          ForgetTheRoots();
          mode := None;
          return Ok(NotAsked);
        case Err(e) =>
          return Err(e);
        case Ok(s) =>
          mode := CacheModeOf(s);
          if s.diskCache.None? {
            ForgetTheRoots();
            return Ok(Absent);
          }
          var cache := s.diskCache.value;
          if cache.path != "" && cache.pathMeta != "" {
            cachePath, metaPath := Some(cache.path), Some(cache.pathMeta);
          } else {
            ForgetTheRoots();
          }
          return Ok(Present(cache, mode));
      }
    }

    /** A poll cut short by an error: the rate starts over, and only an error of reach goes to the disk. */
    method Faulted(e: RcError, disk: (string, string) -> DiskAnswer) returns (s: TransferState)
      modifies rate
      ensures State() == old(State()).(rate := R.FRESH)
      ensures s == if e.IsUnreachable() then Unreachable(name, State(), e, disk)
                   else Unmonitored(name, RcFault(e))
    {
      rate.Reset();
      s := if e.IsUnreachable() then Unreachable(name, State(), e, disk) else Unmonitored(name, RcFault(e));
    }

    method Poll(r: Round) returns (state: TransferState)
      modifies this, rate
      ensures (state, State()) == PollStep(name, old(State()), r)
    {
      if caps.commands == {} { caps := CapabilitiesFrom(r.probe); }
      if caps.commands == {} {
        return Unmonitored(name, if caps.degraded.Some? then ProbeRefused(caps.degraded.value) else NoCommands);
      }
      var cache := AskStats(r.stats);
      if cache.Err? {
        state := Faulted(cache.error, r.disk);
        return;
      }
      var probe := cache.value;
      match FetchQueue(State(), r.queue) {
        case Ok(queue) =>
          state := FromQueue(name, queue);
        case Err(Failed(404)) =>
          match probe {
            case Present(c, _) => state := FromStats(name, c);
            case Absent => return Unmonitored(name, QueueMissingNoCache);
            case NotAsked => return Unmonitored(name, NeitherRegistered);
          }
        case Err(e) =>
          state := Faulted(e, r.disk);
          return;
      }
      if !state.outstandingKnown {
        rate.Reset();
        if probe.Present? { state := FromStats(name, probe.cache).PartiallyObserved(CountsOnly); }
        return;
      }
      state := Qualified(state, probe);
      if "core/stats" in caps.commands && state.fidelity == Some(T2) && cachePath.Some? && r.core.Ok? {
        state := AddProgress(state, WritebackUploads(r.core.value, cachePath.value));
      }
      if state.pending.files == 0 || !state.HasByteTotal() {
        rate.Reset();
        state := state.(rate := None);
      } else {
        var measured := rate.SampleAt(r.at, state.RemainingBytes());
        state := state.(rate := Shown(measured, state.uploading));
      }
    }
  }

  // --- when a reading may say "safe" --------------------------------------------------

  function Reading(name: string, l: Latch, r: Round): TransferState { PollStep(name, l, r).0 }

  lemma FinishIsOfItsMount(l: Latch, s: TransferState, probe: CacheProbe, r: Round)
    ensures Finish(l, s, probe, r).0.mount == s.mount
  {}

  lemma UnreachableIsOfItsMount(name: string, l: Latch, e: RcError, disk: (string, string) -> DiskAnswer)
    ensures Unreachable(name, l, e, disk).mount == name
  {}

  /** A poller only ever speaks of its own mount. */
  lemma ReadingIsOfItsMount(name: string, l0: Latch, r: Round)
    ensures Reading(name, l0, r).mount == name
  {
    var l := if l0.caps.commands == {} then l0.(caps := CapabilitiesFrom(r.probe)) else l0;
    var (cache, l1) := FetchStats(l, r.stats);
    if l.caps.commands == {} {
    } else if cache.Err? {
      UnreachableIsOfItsMount(name, l1.(rate := R.FRESH), cache.error, r.disk);
    } else {
      match FetchQueue(l1, r.queue) {
        case Ok(queue) => FinishIsOfItsMount(l1, FromQueue(name, queue), cache.value, r);
        case Err(e) =>
          UnreachableIsOfItsMount(name, l1.(rate := R.FRESH), e, r.disk);
          if cache.value.Present? { FinishIsOfItsMount(l1, FromStats(name, cache.value.cache), cache.value, r); }
      }
    }
  }

  /** The capability set a poll works from. */
  function CapsFor(l: Latch, r: Round): set<string> {
    if l.caps.commands == {} then CapabilitiesFrom(r.probe).commands else l.caps.commands
  }

  /** `vfs/stats` was asked and decoded, or answered 404; otherwise it said nothing. */
  datatype Word = Silent | Gone | Said(stats: VfsStats)

  function Heard(l: Latch, r: Round): Word {
    if "vfs/stats" !in CapsFor(l, r) then Silent
    else match r.stats
      case Ok(stats) => Said(stats)
      case Err(Failed(404)) => Gone
      case Err(_) => Silent
  }

  predicate QueueIs404(l: Latch, r: Round) {
    "vfs/queue" !in CapsFor(l, r) || r.queue == Err(MISSING)
  }

  /**
   * This poll's `vfs/stats` named a cache whose mode puts every write through the queue, and
   * the queue was reported empty -- or is not there to ask and the counts add up to nothing.
   */
  predicate SeenEmptyLive(l: Latch, r: Round) {
    && Heard(l, r).Said?
    && var stats := Heard(l, r).stats;
    && stats.diskCache.Some? && AllWritesQueued(CacheModeOf(stats))
    && (if QueueIs404(l, r) then
          WrapU64(stats.diskCache.value.uploadsInProgress + stats.diskCache.value.uploadsQueued) == 0
        else r.queue.Ok? && r.queue.value.queue == Some([]))
  }

  /** The error that sends this poll to the disk, if one does. */
  function SentToDisk(l: Latch, r: Round): Option<RcError> {
    if CapsFor(l, r) == {} then None
    else if "vfs/stats" in CapsFor(l, r) && r.stats.Err? && r.stats.error != MISSING then
      if r.stats.error.IsUnreachable() then Some(r.stats.error) else None
    else if "vfs/queue" in CapsFor(l, r) && r.queue.Err? && r.queue.error.IsUnreachable() then
      Some(r.queue.error)
    else None
  }

  /** What is latched once this poll has heard from `vfs/stats`. */
  function Rooted(l: Latch, r: Round): Latch {
    match Heard(l, r)
    case Silent => l
    case Gone => ForgetRoots(l).(mode := None)
    case Said(stats) => AfterStats(l, stats)
  }

  /** The walk of the latched roots that a poll sent to the disk makes. */
  function DiskFor(l: Latch, r: Round): Option<S.CacheScan> {
    var k := Rooted(l, r);
    if SentToDisk(l, r).None? || k.metaPath.None? || k.cachePath.None? then None
    else match r.disk(k.metaPath.value, k.cachePath.value)
      case Walked(Scanned(found)) => Some(found)
      case _ => None
  }

  /** The latched mode hides no write, and a complete walk of present roots found no dirty file. */
  predicate SeenEmptyOnDisk(l: Latch, r: Round) {
    && AllWritesQueued(Rooted(l, r).mode)
    && DiskFor(l, r).Some?
    && var found := DiskFor(l, r).value;
       found.rootPresent && S.IsComplete(found) && found.files == []
  }

  /** A reading taken over rc: only a cache in a mode that hides no write makes it whole. */
  lemma FinishReads(l: Latch, s: TransferState, probe: CacheProbe, r: Round)
    requires s.outstandingKnown && s.degradedReason.None?
    ensures var f := Finish(l, s, probe, r).0;
      && f.pending == s.pending && f.fidelity == s.fidelity
      && (f.outstandingKnown <==> probe.Present? && AllWritesQueued(probe.mode))
      && (!f.outstandingKnown ==> f.degradedReason.Some?)
  {}

  /** A reading taken off the disk. */
  lemma UnreachableReads(name: string, k: Latch, e: RcError, disk: (string, string) -> DiskAnswer)
    ensures
      var s := Unreachable(name, k, e, disk);
      var walked := k.metaPath.Some? && k.cachePath.Some?
        && disk(k.metaPath.value, k.cachePath.value).Walked?
        && disk(k.metaPath.value, k.cachePath.value).result.Scanned?;
      && s.degradedReason.Some? && (s.fidelity.None? ==> !s.outstandingKnown)
      && (s.fidelity == Some(T4) <==>
            walked && disk(k.metaPath.value, k.cachePath.value).result.scan.rootPresent)
      && (s.fidelity == Some(T4) || s.fidelity.None?)
      && (s.SafeToUnmount() <==>
            && walked && AllWritesQueued(k.mode)
            && var found := disk(k.metaPath.value, k.cachePath.value).result.scan;
               found.rootPresent && S.IsComplete(found) && found.files == [])
  {}

  /**
   * The three sources a poll can take its reading from, and the reading each gives. Every
   * other poll ends with no figures at all.
   */
  datatype Source = FromRc(base: TransferState, probe: CacheProbe) | FromDisk(e: RcError) | Nowhere

  function SourceOf(name: string, l: Latch, r: Round): Source {
    var said := Heard(l, r);
    var probe := if said.Said? then ProbeOf(said.stats) else NotAsked;
    if SentToDisk(l, r).Some? then FromDisk(SentToDisk(l, r).value)
    else if CapsFor(l, r) == {} || (said.Silent? && "vfs/stats" in CapsFor(l, r)) then Nowhere
    else if QueueIs404(l, r) then
      if probe.Present? then FromRc(FromStats(name, probe.cache), probe) else Nowhere
    else if r.queue.Ok? && r.queue.value.queue.Some? then FromRc(FromQueue(name, r.queue.value), probe)
    else Nowhere
  }

  /** A queue key gone missing under a cache that is there leaves its counts as a floor. */
  predicate CountsUnderMissingKey(l: Latch, r: Round) {
    && CapsFor(l, r) != {} && SentToDisk(l, r).None? && Heard(l, r).Said?
    && Heard(l, r).stats.diskCache.Some?
    && !QueueIs404(l, r) && r.queue.Ok? && r.queue.value.queue.None?
  }

  /** What is latched by the time the queue is asked. */
  function Asking(l: Latch, r: Round): Latch {
    FetchStats(if l.caps.commands == {} then l.(caps := CapabilitiesFrom(r.probe)) else l, r.stats).1
  }

  lemma AskingIsRooted(l: Latch, r: Round)
    ensures var k := Asking(l, r);
      && k.cachePath == Rooted(l, r).cachePath && k.metaPath == Rooted(l, r).metaPath
      && k.mode == Rooted(l, r).mode && k.caps.commands == CapsFor(l, r)
  {}

  lemma ReadFromRc(name: string, l: Latch, r: Round)
    requires SourceOf(name, l, r).FromRc?
    ensures var source := SourceOf(name, l, r);
      PollStep(name, l, r) == Finish(Asking(l, r), source.base, source.probe, r)
  {}

  lemma ReadOffDisk(name: string, l: Latch, r: Round)
    requires SourceOf(name, l, r).FromDisk?
    ensures PollStep(name, l, r).0
         == Unreachable(name, Asking(l, r).(rate := R.FRESH), SourceOf(name, l, r).e, r.disk)
    ensures PollStep(name, l, r).1 == Asking(l, r).(rate := R.FRESH)
  {}

  lemma ReadNowhere(name: string, l: Latch, r: Round)
    requires SourceOf(name, l, r).Nowhere?
    ensures var (s, k) := PollStep(name, l, r);
      && !s.outstandingKnown && s.degradedReason.Some?
      && s.fidelity == (if CountsUnderMissingKey(l, r) then Some(T3) else None)
      && k.cachePath == Asking(l, r).cachePath && k.metaPath == Asking(l, r).metaPath
      && k.mode == Asking(l, r).mode && k.caps == Asking(l, r).caps
  {}

  /** A reading says "safe to unmount" exactly when one of the two observations was made. */
  lemma SafeExactlyWhenSeenEmpty(name: string, l: Latch, r: Round)
    ensures Reading(name, l, r).SafeToUnmount() <==> SeenEmptyLive(l, r) || SeenEmptyOnDisk(l, r)
  {
    AskingIsRooted(l, r);
    match SourceOf(name, l, r) {
      case FromRc(base, probe) =>
        ReadFromRc(name, l, r);
        FinishReads(Asking(l, r), base, probe, r);
        assert !SeenEmptyOnDisk(l, r);
      case FromDisk(e) =>
        ReadOffDisk(name, l, r);
        UnreachableReads(name, Asking(l, r).(rate := R.FRESH), e, r.disk);
        assert !SeenEmptyLive(l, r);
      case Nowhere =>
        ReadNowhere(name, l, r);
        assert !SeenEmptyLive(l, r) && !SeenEmptyOnDisk(l, r);
    }
  }

  /**
   * Which source stands behind a reading, for every latch and every pattern of answers. No
   * reading is ever T1, and one with no source says so and why.
   */
  lemma FidelityNamesTheSource(name: string, l: Latch, r: Round)
    ensures
      var s, source := Reading(name, l, r), SourceOf(name, l, r);
      && s.fidelity != Some(T1)
      && (s.fidelity == Some(T2) <==> source.FromRc? && !QueueIs404(l, r))
      && (s.fidelity == Some(T3) <==> (source.FromRc? && QueueIs404(l, r)) || CountsUnderMissingKey(l, r))
      && (s.fidelity == Some(T4) <==> DiskFor(l, r).Some? && DiskFor(l, r).value.rootPresent)
      && (s.fidelity.None? ==> !s.outstandingKnown)
      && (!s.outstandingKnown ==> s.degradedReason.Some?)
  {
    AskingIsRooted(l, r);
    match SourceOf(name, l, r) {
      case FromRc(base, probe) =>
        ReadFromRc(name, l, r);
        FinishReads(Asking(l, r), base, probe, r);
      case FromDisk(e) =>
        ReadOffDisk(name, l, r);
        UnreachableReads(name, Asking(l, r).(rate := R.FRESH), e, r.disk);
      case Nowhere =>
        ReadNowhere(name, l, r);
    }
  }

  // --- what a reading shows -----------------------------------------------------------

  /** The transfers a poll can attribute: those of `core/stats`, where it may be asked and there is a root to match. */
  function Attributable(l: Latch, r: Round): seq<Transfer> {
    if "core/stats" in CapsFor(l, r) && Rooted(l, r).cachePath.Some? && r.core.Ok? && r.core.value.transferring.Some?
    then r.core.value.transferring.value else []
  }

  function AttributedTo(l: Latch, r: Round): string {
    if Rooted(l, r).cachePath.Some? then Rooted(l, r).cachePath.value else ""
  }

  lemma QualifiedShows(s: TransferState, probe: CacheProbe)
    ensures var q := Qualified(s, probe);
      && q.pending == s.pending && q.uploading == s.uploading && q.fidelity == s.fidelity && q.rate == s.rate
      && q.files == s.files && q.hasProgress == s.hasProgress
      && q.erroredFiles == (if probe.Present? then Some(probe.cache.erroredFiles) else s.erroredFiles)
      && q.outOfSpace == (if probe.Present? then Some(probe.cache.outOfSpace) else s.outOfSpace)
  {}

  lemma LiftedShows(k: Latch, s: TransferState, core: Answer<CoreStats>)
    ensures Lifted(k, s, core) == s.(files := Lifted(k, s, core).files, hasProgress := Lifted(k, s, core).hasProgress)
    ensures s.fidelity != Some(T2) ==> Lifted(k, s, core) == s
  {}

  lemma RatedShows(k: Latch, s: TransferState, at: real)
    ensures var (f, next) := Rated(k, s, at);
      && f.(rate := None) == s.(rate := None) && f.RemainingBytes() == s.RemainingBytes()
      && (s.pending.files == 0 || !s.HasByteTotal() ==> f.rate.None? && next.rate == R.FRESH)
      && (s.pending.files > 0 && s.HasByteTotal() ==>
            && next.rate == R.Take(k.rate, R.Sample(at, s.RemainingBytes()))
            && f.rate == Shown(R.Answer(k.rate, next.rate), s.uploading))
  {}

  lemma FinishShows(k: Latch, s: TransferState, probe: CacheProbe, r: Round)
    ensures var q := Qualified(s, probe); var f := Finish(k, s, probe, r).0;
      && f.pending == s.pending && f.uploading == s.uploading && f.fidelity == s.fidelity
      && f.erroredFiles == q.erroredFiles && f.outOfSpace == q.outOfSpace && f.degradedReason == q.degradedReason
      && f.files == Lifted(k, q, r.core).files && f.hasProgress == Lifted(k, q, r.core).hasProgress
  {
    QualifiedShows(s, probe);
    LiftedShows(k, Qualified(s, probe), r.core);
    RatedShows(k, Lifted(k, Qualified(s, probe), r.core), r.at);
  }

  lemma FinishKeepsFigures(k: Latch, s: TransferState, probe: CacheProbe, r: Round)
    ensures var f := Finish(k, s, probe, r).0;
      && f.pending == s.pending && f.uploading == s.uploading && f.fidelity == s.fidelity
      && f.erroredFiles == (if probe.Present? then Some(probe.cache.erroredFiles) else s.erroredFiles)
      && f.outOfSpace == (if probe.Present? then Some(probe.cache.outOfSpace) else s.outOfSpace)
      && (s.fidelity != Some(T2) ==> f.files == s.files && f.hasProgress == s.hasProgress)
  {
    FinishShows(k, s, probe, r);
    QualifiedShows(s, probe);
    LiftedShows(k, Qualified(s, probe), r.core);
  }

  lemma FinishRates(k: Latch, s: TransferState, probe: CacheProbe, r: Round)
    ensures var (f, next) := Finish(k, s, probe, r);
      if s.pending.files > 0 && s.fidelity.Some? && s.fidelity != Some(T3) then
        && next.rate == R.Take(k.rate, R.Sample(r.at, f.RemainingBytes()))
        && f.rate == Shown(R.Answer(k.rate, next.rate), f.uploading)
      else next.rate == R.FRESH && f.rate.None?
  {
    QualifiedShows(s, probe);
    LiftedShows(k, Qualified(s, probe), r.core);
    RatedShows(k, Lifted(k, Qualified(s, probe), r.core), r.at);
  }

  lemma LiftedFiles(k: Latch, items: seq<QueueItem>, s: TransferState, core: Answer<CoreStats>, ts: seq<Transfer>)
    requires s.fidelity == Some(T2) && s.files == seq(|items|, i requires 0 <= i < |items| => FileOf(items[i]))
    requires !s.hasProgress
    requires ts == (if k.Has("core/stats") && k.cachePath.Some? && core.Ok? && core.value.transferring.Some?
                    then core.value.transferring.value else [])
    ensures var f, path := Lifted(k, s, core), if k.cachePath.Some? then k.cachePath.value else "";
      && |f.files| == |items|
      && (forall i :: 0 <= i < |items| ==> f.files[i] == ProgressOf(FileOf(items[i]), Uploads(ts, path)))
      && (f.hasProgress <==> exists i :: 0 <= i < |f.files| && f.files[i].bytesSent.Some?)
  {
    var f, path := Lifted(k, s, core), if k.cachePath.Some? then k.cachePath.value else "";
    assert Uploads([], path) == [];
    forall i | 0 <= i < |items|
      ensures f.files[i] == ProgressOf(FileOf(items[i]), Uploads(ts, path))
      ensures f.files[i].bytesSent.Some? <==> GainsProgress(FileOf(items[i]), Uploads(ts, path))
    {}
  }

  /** The files of a queue reading, once whatever progress there is has been attributed. */
  lemma QueueFilesShown(name: string, l: Latch, r: Round, items: seq<QueueItem>, probe: CacheProbe)
    ensures var f := Lifted(Asking(l, r), Qualified(FromQueue(name, VfsQueue(Some(items))), probe), r.core);
      && |f.files| == |items|
      && (forall i :: 0 <= i < |items| ==>
            && f.files[i].(bytesSent := None) == FileOf(items[i])
            && SentAsReported(f.files[i], Attributable(l, r), AttributedTo(l, r)))
      && (f.hasProgress <==> exists i :: 0 <= i < |f.files| && f.files[i].bytesSent.Some?)
  {
    AskingIsRooted(l, r);
    var s, ts, path := Qualified(FromQueue(name, VfsQueue(Some(items))), probe), Attributable(l, r), AttributedTo(l, r);
    QualifiedShows(FromQueue(name, VfsQueue(Some(items))), probe);
    LiftedFiles(Asking(l, r), items, s, r.core, ts);
    forall i | 0 <= i < |items|
      ensures SentAsReported(ProgressOf(FileOf(items[i]), Uploads(ts, path)), ts, path)
      ensures ProgressOf(FileOf(items[i]), Uploads(ts, path)).(bytesSent := None) == FileOf(items[i])
    {
      ProgressIsAsReported(FileOf(items[i]), ts, path);
    }
  }

  /**
   * What a queue reading shows: the queue's own items, counted and summed, each with what its own
   * upload out of the latched cache has sent; the cache's errors and whether it is full, where this
   * round's `vfs/stats` described one.
   */
  lemma QueueReadingShows(name: string, l: Latch, r: Round)
    requires Reading(name, l, r).fidelity == Some(T2)
    ensures r.queue.Ok? && r.queue.value.queue.Some?
    ensures var s, items := Reading(name, l, r), r.queue.value.queue.value;
      && s.pending == Pending(|items|, WrapU64(SumKnown(items)), CountUnknown(items))
      && s.uploading == Some(UploadingIn(items)) && |s.files| == |items|
      && (forall i :: 0 <= i < |items| ==>
            && s.files[i].name == items[i].name
            && s.files[i].size == (if items[i].size >= 0 then Some(items[i].size) else None)
            && s.files[i].inFlight == Some(items[i].uploading) && s.files[i].tries == Some(items[i].tries)
            && SentAsReported(s.files[i], Attributable(l, r), AttributedTo(l, r)))
      && (s.hasProgress <==> exists i :: 0 <= i < |s.files| && s.files[i].bytesSent.Some?)
  {
    FidelityNamesTheSource(name, l, r);
    var items, source := r.queue.value.queue.value, SourceOf(name, l, r);
    ReadFromRc(name, l, r);
    FinishShows(Asking(l, r), source.base, source.probe, r);
    QueueFilesShown(name, l, r, items, source.probe);
    forall i | 0 <= i < |items| ensures Reading(name, l, r).files[i].(bytesSent := None) == FileOf(items[i]) {}
  }

  /** What a counts reading shows: the two counts added up, none of them sized, and no files. */
  lemma CountsReadingShows(name: string, l: Latch, r: Round)
    requires Reading(name, l, r).fidelity == Some(T3)
    ensures Heard(l, r).Said? && Heard(l, r).stats.diskCache.Some?
    ensures var s, cache := Reading(name, l, r), Heard(l, r).stats.diskCache.value;
      var n := WrapU64(cache.uploadsInProgress + cache.uploadsQueued);
      && s.pending == Pending(n, 0, n) && s.uploading == Some(cache.uploadsInProgress)
      && s.files == [] && !s.hasProgress && s.rate.None?
  {
    FidelityNamesTheSource(name, l, r);
    if CountsUnderMissingKey(l, r) {
      CountsOnlyShown(name, l, r);
    } else {
      var source := SourceOf(name, l, r);
      ReadFromRc(name, l, r);
      FinishKeepsFigures(Asking(l, r), source.base, source.probe, r);
    }
  }

  lemma CountsOnlyShown(name: string, l: Latch, r: Round)
    requires CountsUnderMissingKey(l, r)
    ensures Reading(name, l, r)
         == FromStats(name, Heard(l, r).stats.diskCache.value).PartiallyObserved(CountsOnly)
  {}

  /** What a disk reading shows: every dirty file the walk found, its size where it has one, and their total. */
  lemma DiskReadingShows(name: string, l: Latch, r: Round)
    requires Reading(name, l, r).fidelity == Some(T4)
    ensures DiskFor(l, r).Some?
    ensures var s, found := Reading(name, l, r), DiskFor(l, r).value;
      && s.pending.files == |found.files| == |s.files| && s.pending.knownBytes == S.KnownBytes(found.files)
      && s.pending.unknownSizeFiles == Unmeasured(found.files)
      && (forall i :: 0 <= i < |found.files| ==>
            s.files[i] == TransferFile(S.NameOf(found.files[i].path), found.files[i].bytes, None, None, None))
      && s.uploading.None? && !s.hasProgress && s.rate.None?
  {
    FidelityNamesTheSource(name, l, r);
    AskingIsRooted(l, r);
    ReadOffDisk(name, l, r);
  }

  /** A reading without a tier shows no figure at all. */
  lemma UnmonitoredShowsNothing(name: string, l: Latch, r: Round)
    requires Reading(name, l, r).fidelity.None?
    ensures var s := Reading(name, l, r);
      && s.pending == EMPTY_PENDING && s.files == [] && s.uploading.None? && !s.hasProgress && s.rate.None?
  {
    FidelityNamesTheSource(name, l, r);
    AskingIsRooted(l, r);
    match SourceOf(name, l, r) {
      case FromRc(_, _) => assert false;
      case FromDisk(e) => ReadOffDisk(name, l, r);
      case Nowhere => NothingShown(name, l, r);
    }
  }

  /**
   * The two flags are those of the cache this round's `vfs/stats` described, in every reading taken
   * over rc, and are said of no other reading: silence about them is never read as health.
   */
  lemma HealthIsOfThisRound(name: string, l: Latch, r: Round)
    ensures var s, said := Reading(name, l, r), Heard(l, r);
      var cache := if said.Said? then said.stats.diskCache else None;
      var overRc := s.fidelity == Some(T2) || s.fidelity == Some(T3);
      && s.erroredFiles == (if overRc && cache.Some? then Some(cache.value.erroredFiles) else None)
      && s.outOfSpace == (if overRc && cache.Some? then Some(cache.value.outOfSpace) else None)
  {
    FidelityNamesTheSource(name, l, r);
    AskingIsRooted(l, r);
    match SourceOf(name, l, r) {
      case FromRc(base, probe) =>
        ReadFromRc(name, l, r);
        FinishKeepsFigures(Asking(l, r), base, probe, r);
      case FromDisk(e) => ReadOffDisk(name, l, r);
      case Nowhere =>
        ReadNowhere(name, l, r);
        if CountsUnderMissingKey(l, r) { CountsOnlyShown(name, l, r); } else { NothingShown(name, l, r); }
    }
  }

  lemma NothingShown(name: string, l: Latch, r: Round)
    requires SourceOf(name, l, r).Nowhere? && !CountsUnderMissingKey(l, r)
    ensures var s := Reading(name, l, r); s.degradedReason.Some? && s == Unmonitored(name, s.degradedReason.value)
  {}

  /**
   * The rate follows the bytes that remain: a queue reading with files pending samples its own
   * remainder, and shows the estimate unless that is nought while something is being uploaded;
   * one with none, and any counts or disk reading, starts the estimate over and shows no rate.
   */
  lemma RateFollowsTheRemainder(name: string, l: Latch, r: Round)
    requires Reading(name, l, r).fidelity.Some?
    ensures var (s, k) := PollStep(name, l, r);
      var next := R.Take(l.rate, R.Sample(r.at, s.RemainingBytes()));
      if s.fidelity == Some(T2) && s.pending.files > 0 then
        && k.rate == next
        && s.rate == (if R.Answer(l.rate, next) == Some(0) && s.uploading != Some(0) then None
                      else R.Answer(l.rate, next))
      else k.rate == R.FRESH && s.rate.None?
  {
    FidelityNamesTheSource(name, l, r);
    AskingKeepsTheRate(l, r);
    match SourceOf(name, l, r) {
      case FromRc(base, probe) =>
        ReadFromRc(name, l, r);
        FinishKeepsFigures(Asking(l, r), base, probe, r);
        FinishRates(Asking(l, r), base, probe, r);
      case FromDisk(e) => ReadOffDisk(name, l, r);
      case Nowhere => CountsOnlyRate(name, l, r);
    }
  }

  lemma AskingKeepsTheRate(l: Latch, r: Round)
    ensures Asking(l, r).rate == l.rate
  {}

  lemma CountsOnlyRate(name: string, l: Latch, r: Round)
    requires CountsUnderMissingKey(l, r)
    ensures PollStep(name, l, r).1.rate == R.FRESH && PollStep(name, l, r).0.rate.None?
  {}

  /** Why a reading taken over rc falls short, if it does: what its mode hides, or whose word is missing. */
  lemma RcReadingSaysWhy(name: string, l: Latch, r: Round)
    requires Reading(name, l, r).fidelity == Some(T2) || Reading(name, l, r).fidelity == Some(T3)
    ensures var why, said := Reading(name, l, r).degradedReason, Heard(l, r);
      var mode := if said.Said? then CacheModeOf(said.stats) else None;
      && (why == Some(CountsOnly) <==> CountsUnderMissingKey(l, r))
      && (why == Some(NoVfsStats) <==> !said.Said?)
      && (why == Some(QueueWithoutCache) <==> said.Said? && said.stats.diskCache.None?)
      && (said.Said? && said.stats.diskCache.Some? && !CountsUnderMissingKey(l, r) ==>
            && (why.None? <==> mode == Some(Writes) || mode == Some(Full))
            && (why == Some(MinimalMode) <==> mode == Some(Minimal))
            && (why == Some(ModeHidesWrites) <==> mode == Some(Off))
            && (why == Some(ModeUnknown) <==> mode.None?))
  {
    FidelityNamesTheSource(name, l, r);
    if CountsUnderMissingKey(l, r) {
      CountsOnlyShown(name, l, r);
    } else {
      var source := SourceOf(name, l, r);
      ReadFromRc(name, l, r);
      FinishShows(Asking(l, r), source.base, source.probe, r);
    }
  }

  /** A disk reading says what drove it there, what it found, and whether its mode lets that stand. */
  lemma DiskReadingSaysWhy(name: string, l: Latch, r: Round)
    requires Reading(name, l, r).fidelity == Some(T4)
    ensures SentToDisk(l, r).Some? && DiskFor(l, r).Some?
    ensures var s, found, mode := Reading(name, l, r), DiskFor(l, r).value, Rooted(l, r).mode;
      && s.degradedReason.Some? && s.degradedReason.value.ReadFromDisk?
      && var why := s.degradedReason.value;
      && why.e == SentToDisk(l, r).value && why.files == |found.files|
      && why.unreadable == found.unreadable && why.truncated == found.truncated
      && (why.floor == NoFloor <==> mode == Some(Writes) || mode == Some(Full))
      && (why.floor == FloorForUnknownMode <==> mode.None?)
  {
    FidelityNamesTheSource(name, l, r);
    AskingIsRooted(l, r);
    ReadOffDisk(name, l, r);
  }

  /** What a walk that gave no figures came to, if there was anywhere to walk. */
  predicate WalkFailed(l: Latch, r: Round, e: RcError, why: Reason) {
    var k := Rooted(l, r);
    if k.metaPath.None? || k.cachePath.None? then why == RcFault(e)
    else
      var walk := r.disk(k.metaPath.value, k.cachePath.value);
      && (why == ScanTimedOut(e) <==> walk.TookTooLong?) && (why == ScanPanicked(e) <==> walk.Panicked?)
      && (why == ScanFailed(e) <==> walk == Walked(S.RootUnreadable))
      && (why == CacheGone(e) <==> walk.Walked? && walk.result.Scanned? && !walk.result.scan.rootPresent)
  }

  /** Why a reading without a tier has none: the first thing that was refused, missing or not there to ask. */
  lemma UnmonitoredSaysWhy(name: string, l: Latch, r: Round)
    requires Reading(name, l, r).fidelity.None?
    ensures Reading(name, l, r).degradedReason.Some?
    ensures var why, said := Reading(name, l, r).degradedReason.value, Heard(l, r);
      if CapsFor(l, r) == {} then
        && (r.probe.Err? ==> why == ProbeRefused(r.probe.error)) && (r.probe.Ok? ==> why == NoCommands)
      else if SentToDisk(l, r).Some? then WalkFailed(l, r, SentToDisk(l, r).value, why)
      else if "vfs/stats" in CapsFor(l, r) && r.stats.Err? && r.stats.error != MISSING then
        why == RcFault(r.stats.error)
      else if QueueIs404(l, r) then why == (if said.Said? then QueueMissingNoCache else NeitherRegistered)
      else if r.queue.Err? then why == RcFault(r.queue.error)
      else why == NoQueueKey
  {
    FidelityNamesTheSource(name, l, r);
    AskingIsRooted(l, r);
    match SourceOf(name, l, r) {
      case FromRc(_, _) => assert false;
      case FromDisk(e) => ReadOffDisk(name, l, r);
      case Nowhere => NowhereSaysWhy(name, l, r);
    }
  }

  lemma NowhereSaysWhy(name: string, l: Latch, r: Round)
    requires SourceOf(name, l, r).Nowhere? && !CountsUnderMissingKey(l, r)
    ensures Reading(name, l, r).degradedReason == Some(
      if CapsFor(l, r) == {} then (match r.probe case Err(e) => ProbeRefused(e) case Ok(_) => NoCommands)
      else if "vfs/stats" in CapsFor(l, r) && r.stats.Err? && r.stats.error != MISSING then RcFault(r.stats.error)
      else if QueueIs404(l, r) then (if Heard(l, r).Said? then QueueMissingNoCache else NeitherRegistered)
      else if r.queue.Err? then RcFault(r.queue.error)
      else NoQueueKey)
  {}

  /** Which errors send a poll to the disk: those that say nothing answered, and no answer, however bad. */
  lemma OnlySilenceGoesToDisk(l: Latch, r: Round)
    ensures match SentToDisk(l, r)
      case Some(e) => e == NotListening || e == InsecureSocket || e == Connect || e == Timeout || e == Transport
      case None => "vfs/stats" in CapsFor(l, r) && r.stats.Err? ==>
        r.stats.error == Decode || r.stats.error == InvalidCommand || r.stats.error == ResponseTooLarge
        || r.stats.error.Failed?
  {}

  /** The modes as rclone numbers them, and which of them let no write past the queue. */
  lemma ModesAreOrdinals(stats: VfsStats)
    ensures var mode, n := CacheModeOf(stats), stats.cacheModeOrdinal;
      && (AllWritesQueued(mode) <==> n == Some(2) || n == Some(3))
      && (mode == Some(Off) <==> n == Some(0)) && (mode == Some(Minimal) <==> n == Some(1))
      && (mode == Some(Writes) <==> n == Some(2)) && (mode == Some(Full) <==> n == Some(3))
      && (mode.None? <==> n.None? || n.value > 3)
  {}

  /** A build's tier is the best of what it registers, and no reading over rc claims more than it. */
  lemma BuildBoundsItsReadings(name: string, l: Latch, r: Round)
    ensures var tier, commands := TierOf(PollStep(name, l, r).1.caps), CapsFor(l, r);
      && (tier == T1 <==> "core/stats" in commands)
      && (tier == T4 <==> !("core/stats" in commands || "vfs/queue" in commands || "vfs/stats" in commands))
      && (tier == T2 ==> "vfs/queue" in commands) && (tier == T3 ==> "vfs/queue" !in commands)
      && (Reading(name, l, r).fidelity == Some(T2) ==> tier == T1 || tier == T2)
      && (Reading(name, l, r).fidelity == Some(T3) ==> tier != T4)
  {
    PollLatches(name, l, r);
    FidelityNamesTheSource(name, l, r);
  }

  // --- whole runs ---------------------------------------------------------------------

  /** What is latched after a connect and any number of polls. */
  function LatchAfter(name: string, probe: Answer<set<string>>, rounds: seq<Round>): Latch {
    if rounds == [] then Connected(probe)
    else PollStep(name, LatchAfter(name, probe, rounds[..|rounds| - 1]), rounds[|rounds| - 1]).1
  }

  /** The last thing `vfs/stats` said in a run; a silence leaves what was heard before. */
  function LastHeard(name: string, probe: Answer<set<string>>, rounds: seq<Round>): Word {
    if rounds == [] then Silent
    else
      var earlier := rounds[..|rounds| - 1];
      var now := Heard(LatchAfter(name, probe, earlier), rounds[|rounds| - 1]);
      if now.Silent? then LastHeard(name, probe, earlier) else now
  }

  predicate NamesBothRoots(w: Word) {
    w.Said? && w.stats.diskCache.Some?
    && w.stats.diskCache.value.path != "" && w.stats.diskCache.value.pathMeta != ""
  }

  /** What the last word justifies keeping. */
  predicate Justified(l: Latch, w: Word) {
    && (if NamesBothRoots(w) then
          l.cachePath == Some(w.stats.diskCache.value.path) && l.metaPath == Some(w.stats.diskCache.value.pathMeta)
        else l.cachePath == None && l.metaPath == None)
    && l.mode == (if w.Said? then CacheModeOf(w.stats) else None)
  }

  lemma PollLatches(name: string, l: Latch, r: Round)
    ensures var k := PollStep(name, l, r).1;
      && k.cachePath == Rooted(l, r).cachePath && k.metaPath == Rooted(l, r).metaPath
      && k.mode == Rooted(l, r).mode && k.caps.commands == CapsFor(l, r)
      && (l.caps.commands != {} ==> k.caps == l.caps)
  {
    AskingIsRooted(l, r);
    match SourceOf(name, l, r) {
      case FromRc(_, _) => ReadFromRc(name, l, r);
      case FromDisk(_) => ReadOffDisk(name, l, r);
      case Nowhere => ReadNowhere(name, l, r);
    }
  }

  /**
   * Over every run: the two roots and the mode are exactly what the latest `vfs/stats` that
   * answered said -- both roots or neither, nothing at all after a 404, and a mode that
   * outlives forgotten roots -- whatever silences and faults came since.
   */
  lemma {:induction false} LatchFollowsTheLastWord(name: string, probe: Answer<set<string>>, rounds: seq<Round>)
    ensures Justified(LatchAfter(name, probe, rounds), LastHeard(name, probe, rounds))
  {
    if rounds != [] {
      var n := |rounds| - 1;
      LatchFollowsTheLastWord(name, probe, rounds[..n]);
      PollLatches(name, LatchAfter(name, probe, rounds[..n]), rounds[n]);
    }
  }

  lemma CapabilitiesStand(name: string, probe: Answer<set<string>>, rounds: seq<Round>)
    requires rounds != []
    ensures var before := LatchAfter(name, probe, rounds[..|rounds| - 1]);
      before.caps.commands != {} ==> LatchAfter(name, probe, rounds).caps == before.caps
  {
    var n := |rounds| - 1;
    PollLatches(name, LatchAfter(name, probe, rounds[..n]), rounds[n]);
  }

  /** Once a capability set is known it is never asked for again. */
  lemma {:induction false} CapabilitiesAreLatched(name: string, probe: Answer<set<string>>, rounds: seq<Round>, k: nat)
    requires k <= |rounds| && LatchAfter(name, probe, rounds[..k]).caps.commands != {}
    ensures LatchAfter(name, probe, rounds).caps == LatchAfter(name, probe, rounds[..k]).caps
  {
    if k == |rounds| {
      assert rounds[..k] == rounds;
    } else {
      var n := |rounds| - 1;
      assert rounds[..n][..k] == rounds[..k];
      CapabilitiesAreLatched(name, probe, rounds[..n], k);
      CapabilitiesStand(name, probe, rounds);
    }
  }

  /** The reading a run of polls ends with. */
  function LastReading(name: string, probe: Answer<set<string>>, rounds: seq<Round>): TransferState
    requires rounds != []
  {
    Reading(name, LatchAfter(name, probe, rounds[..|rounds| - 1]), rounds[|rounds| - 1])
  }

  /**
   * The last reading of a run rests either on that poll's own `vfs/stats` and queue, or on a
   * complete walk, finding nothing, of the two roots the last `vfs/stats` to answer named, in a
   * mode it reported that hides no write.
   */
  predicate RestsOnEvidence(name: string, probe: Answer<set<string>>, rounds: seq<Round>)
    requires rounds != []
  {
    var n := |rounds| - 1;
    var w := LastHeard(name, probe, rounds);
    || SeenEmptyLive(LatchAfter(name, probe, rounds[..n]), rounds[n])
    || (&& NamesBothRoots(w) && AllWritesQueued(CacheModeOf(w.stats))
        && rounds[n].disk(w.stats.diskCache.value.pathMeta, w.stats.diskCache.value.path)
           == Walked(S.Scanned(S.CacheScan([], 0, false, true))))
  }

  /** The honesty rule over runs: a final reading that says "safe" rests on evidence. */
  lemma SafeReadingsAreEarned(name: string, probe: Answer<set<string>>, rounds: seq<Round>)
    requires rounds != [] && LastReading(name, probe, rounds).SafeToUnmount()
    ensures RestsOnEvidence(name, probe, rounds)
  {
    var n := |rounds| - 1;
    var l := LatchAfter(name, probe, rounds[..n]);
    SafeExactlyWhenSeenEmpty(name, l, rounds[n]);
    LatchFollowsTheLastWord(name, probe, rounds);
    PollLatches(name, l, rounds[n]);
  }

  /** One more round of a run: what it says, and what it leaves latched. */
  lemma OneMoreRound(name: string, probe: Answer<set<string>>, rounds: seq<Round>, r: Round)
    ensures LatchAfter(name, probe, rounds + [r]) == PollStep(name, LatchAfter(name, probe, rounds), r).1
    ensures LastReading(name, probe, rounds + [r]) == PollStep(name, LatchAfter(name, probe, rounds), r).0
    ensures LastReading(name, probe, rounds + [r]).mount == name
  {
    assert (rounds + [r])[..|rounds|] == rounds;
    ReadingIsOfItsMount(name, LatchAfter(name, probe, rounds), r);
  }

  /**
   * What an empty walk proves. If the disk below the latched roots held still as some tree while
   * it was walked, a reading that rests on the walk is safe only over a tree with no dirty file
   * and nothing in it that could not be read.
   */
  lemma SafeOffDiskMeansClean(l: Latch, r: Round, disk: S.Disk, max: nat, es: seq<S.TreeEntry>, f: S.DirtyFile)
    requires SeenEmptyOnDisk(l, r) && S.Mirrors(disk, [], S.Tree(es))
    requires S.Scanned(DiskFor(l, r).value) == S.Run(disk, max, S.START)
    ensures S.HoldsAll([], es, f).copies == 0 && S.HoldsAll([], es, f).bad == 0
    ensures S.HoldsAll([], es, f).entries <= max
  {
    S.ScanIsExact(disk, max, es, f);
  }

  // --- the two places the rules are weaker than they read -----------------------------

  /**
   * `from_stats` adds two unchecked `u64` counts. Each fits 64 bits, so the sum reads as
   * nothing outstanding in exactly two cases, and the second of them is wrong.
   */
  lemma CountsWrapToNothing(name: string, cache: DiskCache)
    requires cache.uploadsInProgress <= U64_MAX && cache.uploadsQueued <= U64_MAX
    ensures FromStats(name, cache).SafeToUnmount() <==>
      || (cache.uploadsInProgress == 0 && cache.uploadsQueued == 0)
      || cache.uploadsInProgress + cache.uploadsQueued == U64_MODULUS
  {
    var sum := cache.uploadsInProgress + cache.uploadsQueued;
    if sum >= U64_MODULUS {
      assert sum % U64_MODULUS == sum - U64_MODULUS;
    }
  }

  /** Which unmonitored readings leave the rate estimator as it was, and which reset it. */
  lemma UnmonitoredRate(name: string, l: Latch, r: Round)
    requires Reading(name, l, r).fidelity.None?
    ensures
      var early := CapsFor(l, r) == {}
        || (SentToDisk(l, r).None? && QueueIs404(l, r)
            && (Heard(l, r).Silent? ==> "vfs/stats" !in CapsFor(l, r)));
      PollStep(name, l, r).1.rate == if early then l.rate else R.FRESH
  {
    if SourceOf(name, l, r).FromRc? {
      var source := SourceOf(name, l, r);
      assert source.base.fidelity.Some?;
      ReadFromRc(name, l, r);
      FinishReads(Asking(l, r), source.base, source.probe, r);
    }
  }
}
