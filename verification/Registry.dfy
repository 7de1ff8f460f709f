/** The service's model of its mounts, the changes it publishes, and a client rebuilt from them. */
module Registries {
  import opened Base
  import opened Mounts
  import T = Transfers

  datatype Change =
    | MountChanged(view: MountView)
    | Removed(name: string)
    | TransferChanged(reading: T.TransferView)
    | CapabilityTier

  /** What the registry holds, as a value. */
  datatype Reg = Reg(mounts: map<string, MountView>, transfers: map<string, T.TransferView>,
                     tier: Option<T.Tier>)

  const NOTHING_KNOWN := Reg(map[], map[], None)

  function WhyNotPolled(mount: MountView): T.Reason {
    if mount.state == StateName(Foreign) then T.SocketUnknown
    else if mount.state == StateName(Orphaned) then T.NoConfig
    else if mount.state == StateName(Mounted) then T.NotPolledYet
    else T.NotServing
  }

  /** An empty reading that claims nothing. */
  function NothingToSay(mount: MountView): (v: T.TransferView)
    ensures v.mount == mount.name && !v.outstandingKnown && v.degradedReason.Some?
  {
    T.ViewOf(T.Unmonitored(mount.name, WhyNotPolled(mount)))
  }

  /** What is said of a mount that is not read: no figure, and which of the ordinary reasons. */
  lemma NothingToSaySaysWhy(m: DiscoveredMount, remote: Option<string>)
    ensures var v := NothingToSay(ViewOf(m, remote));
      && v.mount == m.name && v.fidelity.None? && v.pendingFiles == 0 && v.files == [] && v.rate.None?
      && v.erroredFiles.None? && v.outOfSpace.None? && v.uploading.None?
      && (v.degradedReason == Some(T.SocketUnknown) <==> m.state == Foreign)
      && (v.degradedReason == Some(T.NoConfig) <==> m.state == Orphaned)
      && (v.degradedReason == Some(T.NotPolledYet) <==> m.state == Mounted)
      && (v.degradedReason == Some(T.NotServing) <==> m.state !in {Foreign, Orphaned, Mounted})
  {
    ViewsTellStatesApart(m, remote);
  }

  function Get<V>(m: map<string, V>, k: string): Option<V> { if k in m then Some(m[k]) else None }

  // --- one sweep ----------------------------------------------------------------------

  /** The first loop of `observe_mounts`: what it has pushed, kept and seen so far. */
  datatype Sweeping = Sweeping(changes: seq<Change>, transfers: map<string, T.TransferView>,
                               seen: map<string, MountView>)

  function AddRow(held: map<string, MountView>, s: Sweeping, view: MountView): Sweeping {
    var drops := !Pollable(view) && view.name in s.transfers;
    Sweeping(s.changes
             + (if drops then [TransferChanged(NothingToSay(view))] else [])
             + (if Get(held, view.name) != Some(view) then [MountChanged(view)] else []),
             if drops then s.transfers - {view.name} else s.transfers,
             s.seen[view.name := view])
  }

  function AddRows(reg: Reg, found: seq<MountView>): Sweeping {
    if found == [] then Sweeping([], reg.transfers, map[])
    else AddRow(reg.mounts, AddRows(reg, found[..|found| - 1]), found[|found| - 1])
  }

  function Removals(gone: seq<string>): seq<Change> {
    if gone == [] then [] else Removals(gone[..|gone| - 1]) + [Removed(gone[|gone| - 1])]
  }

  /** `gone` names each mount the sweep no longer finds, once, in some order. */
  ghost predicate ListsGone(reg: Reg, found: seq<MountView>, gone: seq<string>) {
    && (forall n :: n in gone <==> n in reg.mounts && n !in AddRows(reg, found).seen)
    && forall i, j :: 0 <= i < j < |gone| ==> gone[i] != gone[j]
  }

  function SweepChanges(reg: Reg, found: seq<MountView>, gone: seq<string>): seq<Change> {
    AddRows(reg, found).changes + Removals(gone)
  }

  function AfterSweep(reg: Reg, found: seq<MountView>, gone: seq<string>): Reg {
    var s := AddRows(reg, found);
    reg.(mounts := s.seen, transfers := s.transfers - (set n <- gone))
  }

  class Registry {
    var mounts: map<string, MountView>
    var transfers: map<string, T.TransferView>
    var tier: Option<T.Tier>

    function State(): Reg
      reads this
    {
      Reg(mounts, transfers, tier)
    }

    constructor ()
      ensures State() == NOTHING_KNOWN
    {
      mounts, transfers, tier := map[], map[], None;
    }

    /** One sweep, as `AfterSweep` and `SweepChanges` give it; `gone` is the order removals came out in. */
    method ObserveMounts(found: seq<MountView>) returns (changes: seq<Change>, ghost gone: seq<string>)
      modifies this
      ensures ListsGone(old(State()), found, gone)
      ensures changes == SweepChanges(old(State()), found, gone)
      ensures State() == AfterSweep(old(State()), found, gone)
    {
      var seen, removals;
      changes, seen := ObserveRows(found);
      removals, gone := ForgetMissing(seen);
      changes := changes + removals;
      mounts := seen;
    }

    /** The first loop: every row is compared against what was held before the sweep. */
    method ObserveRows(found: seq<MountView>) returns (changes: seq<Change>, seen: map<string, MountView>)
      modifies this`transfers
      ensures Sweeping(changes, transfers, seen) == AddRows(old(State()), found)
    {
      ghost var before := State();
      changes, seen := [], map[];
      for i := 0 to |found|
        invariant Sweeping(changes, transfers, seen) == AddRows(before, found[..i])
      {
        OneMoreRow(before, found, i);
        changes, seen := ObserveRow(found[i], changes, seen);
      }
      assert found[..|found|] == found;
    }

    method ObserveRow(view: MountView, said: seq<Change>, before: map<string, MountView>)
      returns (changes: seq<Change>, seen: map<string, MountView>)
      modifies this`transfers
      ensures Sweeping(changes, transfers, seen) == AddRow(mounts, Sweeping(said, old(transfers), before), view)
    {
      changes := said;
      var changed := Get(mounts, view.name) != Some(view);
      if !Pollable(view) && view.name in transfers {
        transfers := transfers - {view.name};
        changes := changes + [TransferChanged(NothingToSay(view))];
      }
      if changed {
        changes := changes + [MountChanged(view)];
      }
      seen := before[view.name := view];
    }

    /** The second loop: whatever is held and was not seen goes, with its reading. */
    method ForgetMissing(seen: map<string, MountView>) returns (removals: seq<Change>, ghost gone: seq<string>)
      modifies this`transfers
      ensures forall n :: n in gone <==> n in mounts && n !in seen
      ensures forall i, j :: 0 <= i < j < |gone| ==> gone[i] != gone[j]
      ensures removals == Removals(gone)
      ensures transfers == old(transfers) - (set n <- gone)
    {
      removals, gone := [], [];
      var left := mounts.Keys;
      while left != {}
        invariant left <= mounts.Keys
        invariant forall n :: n in gone <==> n in mounts.Keys - left && n !in seen
        invariant forall i, j :: 0 <= i < j < |gone| ==> gone[i] != gone[j]
        invariant removals == Removals(gone)
        invariant transfers == old(transfers) - (set n <- gone)
        decreases left
      {
        var name :| name in left;
        left := left - {name};
        if name !in seen {
          OneMoreGone(old(transfers), gone, name);
          transfers := transfers - {name};
          removals := removals + [Removed(name)];
          gone := gone + [name];
        }
      }
    }

    /** Record a reading, and say whether it was new. */
    method ObserveTransfer(view: T.TransferView) returns (change: Option<Change>)
      modifies this
      ensures State() == AfterReading(old(State()), view)
      ensures (if change.Some? then [change.value] else []) == ReadingChanges(old(State()), view)
    {
      if Get(transfers, view.mount) == Some(view) { return None; }
      transfers := transfers[view.mount := view];
      return Some(TransferChanged(view));
    }

    method NoteTier(seen: T.Tier) returns (change: Option<Change>)
      modifies this
      ensures State() == AfterTier(old(State()), seen)
      ensures change == if State() == old(State()) then None else Some(CapabilityTier)
    {
      var best := if tier.Some? && Rank(tier.value) <= Rank(seen) then tier else Some(seen);
      if best == tier { return None; }
      tier := best;
      return Some(CapabilityTier);
    }
  }

  lemma OneMoreRow(reg: Reg, found: seq<MountView>, i: nat)
    requires i < |found|
    ensures AddRows(reg, found[..i + 1]) == AddRow(reg.mounts, AddRows(reg, found[..i]), found[i])
  {
    assert found[..i + 1][..i] == found[..i];
  }

  lemma OneMoreGone(held: map<string, T.TransferView>, gone: seq<string>, name: string)
    ensures held - (set n <- gone) - {name} == held - (set n <- gone + [name])
    ensures Removals(gone + [name]) == Removals(gone) + [Removed(name)]
  {
    assert (gone + [name])[..|gone|] == gone;
  }

  function AfterReading(reg: Reg, view: T.TransferView): Reg {
    if Get(reg.transfers, view.mount) == Some(view) then reg
    else reg.(transfers := reg.transfers[view.mount := view])
  }

  function ReadingChanges(reg: Reg, view: T.TransferView): seq<Change> {
    if Get(reg.transfers, view.mount) == Some(view) then [] else [TransferChanged(view)]
  }

  function Rank(t: T.Tier): nat { match t case T1 => 1 case T2 => 2 case T3 => 3 case T4 => 4 }

  function AfterTier(reg: Reg, seen: T.Tier): Reg {
    if reg.tier.Some? && Rank(reg.tier.value) <= Rank(seen) then reg else reg.(tier := Some(seen))
  }

  // --- a client -----------------------------------------------------------------------

  /** What a client keeps: rows and readings, upserted and removed one signal at a time. */
  datatype Client = Client(mounts: map<string, MountView>, transfers: map<string, T.TransferView>)

  function Apply(c: Client, change: Change): Client {
    match change
    case MountChanged(v) => c.(mounts := c.mounts[v.name := v])
    case Removed(n) => Client(c.mounts - {n}, c.transfers - {n})
    case TransferChanged(v) => c.(transfers := c.transfers[v.mount := v])
    case CapabilityTier => c
  }

  function ApplyAll(c: Client, changes: seq<Change>): Client {
    if changes == [] then c else Apply(ApplyAll(c, changes[..|changes| - 1]), changes[|changes| - 1])
  }

  /** The last thing a list of changes says about one name: nothing, a value, or "gone". */
  datatype Word<V> = Silent | Holds(value: V) | Dropped

  function RowWord(change: Change, n: string): Word<MountView> {
    match change
    case MountChanged(v) => if v.name == n then Holds(v) else Silent
    case Removed(m) => if m == n then Dropped else Silent
    case _ => Silent
  }

  function ReadingWord(change: Change, n: string): Word<T.TransferView> {
    match change
    case TransferChanged(v) => if v.mount == n then Holds(v) else Silent
    case Removed(m) => if m == n then Dropped else Silent
    case _ => Silent
  }

  function Later<V>(before: Word<V>, after: Word<V>): Word<V> { if after.Silent? then before else after }

  function SaidRow(changes: seq<Change>, n: string): Word<MountView> {
    if changes == [] then Silent
    else Later(SaidRow(changes[..|changes| - 1], n), RowWord(changes[|changes| - 1], n))
  }

  function SaidReading(changes: seq<Change>, n: string): Word<T.TransferView> {
    if changes == [] then Silent
    else Later(SaidReading(changes[..|changes| - 1], n), ReadingWord(changes[|changes| - 1], n))
  }

  /** What a word leaves of a value that was there before it. */
  function Heed<V>(before: Option<V>, word: Word<V>): Option<V> {
    match word case Silent => before case Holds(v) => Some(v) case Dropped => None
  }

  /** A stored reading after some changes: as last said, or gone when what was said claims nothing. */
  predicate Tracks(before: Option<T.TransferView>, word: Word<T.TransferView>, after: Option<T.TransferView>) {
    match word
    case Silent => after == before
    case Holds(v) => after == Some(v) || (after.None? && !v.outstandingKnown)
    case Dropped => after.None?
  }

  lemma {:induction false} ApplyAllHeedsTheLastWord(c: Client, changes: seq<Change>, n: string)
    ensures Get(ApplyAll(c, changes).mounts, n) == Heed(Get(c.mounts, n), SaidRow(changes, n))
    ensures Get(ApplyAll(c, changes).transfers, n) == Heed(Get(c.transfers, n), SaidReading(changes, n))
  {
    if changes != [] { ApplyAllHeedsTheLastWord(c, changes[..|changes| - 1], n); }
  }

  lemma {:induction false} SaidAppend(a: seq<Change>, b: seq<Change>, n: string)
    ensures SaidRow(a + b, n) == Later(SaidRow(a, n), SaidRow(b, n))
    ensures SaidReading(a + b, n) == Later(SaidReading(a, n), SaidReading(b, n))
  {
    if b == [] {
      assert a + b == a;
    } else {
      var k := |b| - 1;
      assert (a + b)[..|a + b| - 1] == a + b[..k];
      SaidAppend(a, b[..k], n);
    }
  }

  // --- what a sweep says about one name -----------------------------------------------

  function LastRow(found: seq<MountView>, n: string): Option<MountView> {
    if found == [] then None
    else if found[|found| - 1].name == n then Some(found[|found| - 1])
    else LastRow(found[..|found| - 1], n)
  }

  /** The last row for a name that differs from the one already held. */
  function LastNews(held: map<string, MountView>, found: seq<MountView>, n: string): Option<MountView> {
    if found == [] then None
    else
      var v := found[|found| - 1];
      if v.name == n && Get(held, n) != Some(v) then Some(v) else LastNews(held, found[..|found| - 1], n)
  }

  predicate HasUnpollableRow(found: seq<MountView>, n: string) {
    found != [] &&
    (HasUnpollableRow(found[..|found| - 1], n)
     || (found[|found| - 1].name == n && !Pollable(found[|found| - 1])))
  }

  lemma SaidOne(changes: seq<Change>, n: string)
    requires |changes| <= 1
    ensures SaidRow(changes, n) == (if changes == [] then Silent else RowWord(changes[0], n))
    ensures SaidReading(changes, n) == (if changes == [] then Silent else ReadingWord(changes[0], n))
  {
    if changes != [] { assert changes[..0] == []; }
  }

  /** One row of a sweep, as one name hears it. */
  lemma RowSays(held: map<string, MountView>, s: Sweeping, v: MountView, n: string)
    ensures
      var next := AddRow(held, s, v);
      && SaidRow(next.changes, n) == Later(SaidRow(s.changes, n),
           if v.name == n && Get(held, n) != Some(v) then Holds(v) else Silent)
      && SaidReading(next.changes, n) == Later(SaidReading(s.changes, n),
           if v.name == n && !Pollable(v) && n in s.transfers then Holds(NothingToSay(v)) else Silent)
      && Get(next.transfers, n) == (if v.name == n && !Pollable(v) then None else Get(s.transfers, n))
      && Get(next.seen, n) == (if v.name == n then Some(v) else Get(s.seen, n))
  {
    var drop := if !Pollable(v) && v.name in s.transfers then [TransferChanged(NothingToSay(v))] else [];
    var news := if Get(held, v.name) != Some(v) then [MountChanged(v)] else [];
    SaidAppend(s.changes + drop, news, n);
    SaidAppend(s.changes, drop, n);
    SaidOne(drop, n);
    SaidOne(news, n);
  }

  lemma {:induction false} RowsSay(reg: Reg, found: seq<MountView>, n: string)
    ensures var s := AddRows(reg, found);
      && Get(s.seen, n) == LastRow(found, n)
      && SaidRow(s.changes, n)
         == (match LastNews(reg.mounts, found, n) case Some(v) => Holds(v) case None => Silent)
      && Get(s.transfers, n) == (if HasUnpollableRow(found, n) then None else Get(reg.transfers, n))
      && Unclaimed(SaidReading(s.changes, n), Get(reg.transfers, n), Get(s.transfers, n))
  {
    if found != [] {
      var k := |found| - 1;
      RowsSay(reg, found[..k], n);
      RowSays(reg.mounts, AddRows(reg, found[..k]), found[k], n);
    }
  }

  /** Rows only ever retract a reading, and say so when there was one. */
  predicate Unclaimed(word: Word<T.TransferView>, before: Option<T.TransferView>, after: Option<T.TransferView>) {
    match word
    case Silent => after == before
    case Holds(v) => after.None? && !v.outstandingKnown
    case Dropped => false
  }

  lemma {:induction false} RemovalsSay(gone: seq<string>, n: string)
    ensures SaidRow(Removals(gone), n) == if n in gone then Dropped else Silent
    ensures SaidReading(Removals(gone), n) == if n in gone then Dropped else Silent
  {
    if gone != [] {
      var k := |gone| - 1;
      RemovalsSay(gone[..k], n);
      assert n in gone <==> n in gone[..k] || n == gone[k];
      var r := Removals(gone);
      assert r[..|r| - 1] == Removals(gone[..k]) && r[|r| - 1] == Removed(gone[k]);
    }
  }

  lemma SweepSays(reg: Reg, found: seq<MountView>, gone: seq<string>, n: string)
    requires ListsGone(reg, found, gone)
    ensures
      var said := SaidRow(SweepChanges(reg, found, gone), n);
      && Get(AfterSweep(reg, found, gone).mounts, n) == LastRow(found, n)
      && (match LastNews(reg.mounts, found, n)
          case Some(v) => said == Holds(v)
          case None => said == (if n in reg.mounts && LastRow(found, n).None? then Dropped else Silent))
    ensures
      var r := AfterSweep(reg, found, gone);
      Tracks(Get(reg.transfers, n), SaidReading(SweepChanges(reg, found, gone), n), Get(r.transfers, n))
  {
    RowsSay(reg, found, n);
    RemovalsSay(gone, n);
    SaidAppend(AddRows(reg, found).changes, Removals(gone), n);
    NewsHasARow(reg.mounts, found, n);
    UnpollableHasARow(found, n);
  }

  lemma {:induction false} NewsHasARow(held: map<string, MountView>, found: seq<MountView>, n: string)
    ensures LastRow(found, n).None? ==> LastNews(held, found, n).None?
    ensures LastRow(found, n).Some? && LastNews(held, found, n).None? ==> LastRow(found, n) == Get(held, n)
    ensures LastRow(found, n).Some? && LastRow(found, n) != Get(held, n) ==>
      LastNews(held, found, n) == LastRow(found, n)
  {
    if found != [] { NewsHasARow(held, found[..|found| - 1], n); }
  }

  lemma {:induction false} UnpollableHasARow(found: seq<MountView>, n: string)
    ensures HasUnpollableRow(found, n) ==> LastRow(found, n).Some?
    ensures !HasUnpollableRow(found, n) && LastRow(found, n).Some? ==> Pollable(LastRow(found, n).value)
  {
    if found != [] { UnpollableHasARow(found[..|found| - 1], n); }
  }

  // --- which sweeps a client can follow -----------------------------------------------

  /** No row repeats, last, what is already held after an earlier row of its name differed. */
  ghost predicate NoEcho(held: map<string, MountView>, found: seq<MountView>) {
    forall i :: 0 <= i < |found| ==>
      (LastRow(found, found[i].name) == Get(held, found[i].name) ==> Get(held, found[i].name) == Some(found[i]))
  }

  ghost predicate DistinctNames(found: seq<MountView>) {
    forall i, j :: 0 <= i < j < |found| ==> found[i].name != found[j].name
  }

  /** A list that never says two things of one name, though it may say one thing twice. */
  ghost predicate RowsAgree(found: seq<MountView>) {
    forall i, j :: 0 <= i < j < |found| && found[i].name == found[j].name ==> found[i] == found[j]
  }

  lemma {:induction false} LastRowOf(found: seq<MountView>, i: nat)
    requires i < |found| && RowsAgree(found)
    ensures LastRow(found, found[i].name) == Some(found[i])
  {
    var k := |found| - 1;
    if i < k && found[k].name != found[i].name {
      assert found[..k][i] == found[i];
      LastRowOf(found[..k], i);
    }
  }

  lemma AgreeingRowsHaveNoEcho(held: map<string, MountView>, found: seq<MountView>)
    requires RowsAgree(found)
    ensures NoEcho(held, found)
  {
    forall i | 0 <= i < |found| ensures LastRow(found, found[i].name) == Some(found[i]) {
      LastRowOf(found, i);
    }
  }

  lemma {:induction false} NewsComesFromARow(held: map<string, MountView>, found: seq<MountView>, n: string)
    returns (i: nat)
    requires LastNews(held, found, n).Some?
    ensures i < |found| && found[i].name == n && Some(found[i]) == LastNews(held, found, n)
    ensures Get(held, n) != Some(found[i])
  {
    var k := |found| - 1;
    if found[k].name == n && Get(held, n) != Some(found[k]) {
      i := k;
    } else {
      i := NewsComesFromARow(held, found[..k], n);
    }
  }

  lemma {:induction false} ARowIsNews(held: map<string, MountView>, found: seq<MountView>, i: nat)
    requires i < |found| && Get(held, found[i].name) != Some(found[i])
    ensures LastNews(held, found, found[i].name).Some?
    ensures LastNews(held, found, found[i].name) != Get(held, found[i].name)
  {
    var k := |found| - 1;
    var n := found[i].name;
    if !(found[k].name == n && Get(held, n) != Some(found[k])) {
      assert found[..k][i] == found[i];
      ARowIsNews(held, found[..k], i);
    }
  }

  /**
   * A client in step with the registry is still in step after a sweep exactly when the sweep
   * has no echo. Two different rows for one name break it when the second is the row already
   * held: the first is published, the second is not, and the registry keeps the second.
   */
  lemma SweepIsFollowedExactly(reg: Reg, found: seq<MountView>, gone: seq<string>,
                               readings: map<string, T.TransferView>)
    requires ListsGone(reg, found, gone)
    ensures ApplyAll(Client(reg.mounts, readings), SweepChanges(reg, found, gone)).mounts
              == AfterSweep(reg, found, gone).mounts
       <==> NoEcho(reg.mounts, found)
  {
    var c := Client(reg.mounts, readings);
    var after := ApplyAll(c, SweepChanges(reg, found, gone)).mounts;
    var kept := AfterSweep(reg, found, gone).mounts;
    if NoEcho(reg.mounts, found) {
      forall n ensures Get(after, n) == Get(kept, n) {
        ApplyAllHeedsTheLastWord(c, SweepChanges(reg, found, gone), n);
        SweepSays(reg, found, gone, n);
        NoEchoAgrees(reg.mounts, found, n);
      }
      SameLookups(after, kept);
    } else {
      var i :| 0 <= i < |found| && LastRow(found, found[i].name) == Get(reg.mounts, found[i].name)
        && Get(reg.mounts, found[i].name) != Some(found[i]);
      var n := found[i].name;
      ApplyAllHeedsTheLastWord(c, SweepChanges(reg, found, gone), n);
      SweepSays(reg, found, gone, n);
      ARowIsNews(reg.mounts, found, i);
      assert Get(after, n) != Get(kept, n);
    }
  }

  lemma SameLookups<V>(a: map<string, V>, b: map<string, V>)
    requires forall n :: Get(a, n) == Get(b, n)
    ensures a == b
  {
    forall n ensures n in a <==> n in b { assert Get(a, n) == Get(b, n); }
    forall n | n in a ensures a[n] == b[n] { assert Get(a, n) == Get(b, n); }
  }

  /** Without an echo, the last news for a name is its last row. */
  lemma NoEchoAgrees(held: map<string, MountView>, found: seq<MountView>, n: string)
    requires NoEcho(held, found)
    ensures LastRow(found, n) == match LastNews(held, found, n)
      case Some(v) => Some(v)
      case None => if LastRow(found, n).None? then None else Get(held, n)
  {
    NewsHasARow(held, found, n);
    if LastNews(held, found, n).Some? {
      var i := NewsComesFromARow(held, found, n);
    }
  }

  // --- runs ---------------------------------------------------------------------------

  datatype Event =
    | Sweep(found: seq<MountView>, gone: seq<string>)
    | SweepFailed
    | Read(view: T.TransferView)
    | TierSeen(tier: T.Tier)

  function Says(reg: Reg, e: Event): seq<Change> {
    match e
    case Sweep(found, gone) => SweepChanges(reg, found, gone)
    case SweepFailed => []
    case Read(view) => ReadingChanges(reg, view)
    case TierSeen(t) => if AfterTier(reg, t) == reg then [] else [CapabilityTier]
  }

  function Next(reg: Reg, e: Event): Reg {
    match e
    case Sweep(found, gone) => AfterSweep(reg, found, gone)
    case SweepFailed => reg
    case Read(view) => AfterReading(reg, view)
    case TierSeen(t) => AfterTier(reg, t)
  }

  /** What can happen to a registry: any sweep, and readings for pollable mounts only. */
  ghost predicate Possible(reg: Reg, e: Event) {
    match e
    case Sweep(found, gone) => ListsGone(reg, found, gone)
    case Read(view) => view.mount in reg.mounts && Pollable(reg.mounts[view.mount])
    case _ => true
  }

  /** Something possible that a client in step can follow. */
  ghost predicate Fed(reg: Reg, e: Event) {
    Possible(reg, e) && (e.Sweep? ==> NoEcho(reg.mounts, e.found))
  }

  /** Everything said from point `i` to point `k`, in order. */
  function Joined(said: seq<seq<Change>>, i: nat, k: nat): seq<Change>
    requires i <= k <= |said|
  {
    if i == k then [] else Joined(said, i, k - 1) + said[k - 1]
  }

  /** `states[t]` is the registry at point `t`; `said[t]` is what `events[t]` published there. */
  datatype Run = Run(states: seq<Reg>, events: seq<Event>, said: seq<seq<Change>>) {
    ghost predicate Recorded() {
      && |states| == |events| + 1 && |said| == |events| && states[0] == NOTHING_KNOWN
      && forall t :: 0 <= t < |events| ==> Takes(t)
    }

    ghost predicate Takes(t: nat)
      requires |states| == |events| + 1 && |said| == |events| && t < |events|
    {
      && Possible(states[t], events[t])
      && said[t] == Says(states[t], events[t])
      && states[t + 1] == Next(states[t], events[t])
    }

    /** A run whose sweeps have no echo. */
    ghost predicate Valid() {
      Recorded() && forall t :: 0 <= t < |events| && events[t].Sweep? ==> NoEcho(states[t].mounts, events[t].found)
    }

    function Last(): Reg
      requires |states| > 0
    {
      states[|states| - 1]
    }

    function Extend(e: Event): Run
      requires |states| > 0
    {
      Run(states + [Next(Last(), e)], events + [e], said + [Says(Last(), e)])
    }
  }

  const NEW_RUN := Run([NOTHING_KNOWN], [], [])

  lemma ExtendKeepsTheRecord(run: Run, e: Event)
    requires run.Recorded() && Possible(run.Last(), e)
    ensures run.Extend(e).Recorded() && run.Extend(e).Last() == Next(run.Last(), e)
  {
    var longer := run.Extend(e);
    forall t | 0 <= t < |longer.events| ensures longer.Takes(t) {
      if t < |run.events| { assert run.Takes(t); }
    }
  }

  /** Sweeps that never say two things of one name make a run every client can follow. */
  lemma AgreeingSweepsAreFollowed(run: Run)
    requires run.Recorded()
    requires forall t :: 0 <= t < |run.events| && run.events[t].Sweep? ==> RowsAgree(run.events[t].found)
    ensures run.Valid()
  {
    forall t | 0 <= t < |run.events| && run.events[t].Sweep?
      ensures NoEcho(run.states[t].mounts, run.events[t].found)
    {
      AgreeingRowsHaveNoEcho(run.states[t].mounts, run.events[t].found);
    }
  }

  /** Every stored reading is of a row that is held and pollable. */
  ghost predicate ReadingsBelong(reg: Reg) {
    forall n :: n in reg.transfers ==> n in reg.mounts && Pollable(reg.mounts[n])
  }

  lemma EventKeepsReadingsBelonging(reg: Reg, e: Event)
    requires Possible(reg, e) && ReadingsBelong(reg)
    ensures ReadingsBelong(Next(reg, e))
  {
    if e.Sweep? {
      var r := AfterSweep(reg, e.found, e.gone);
      forall n | n in r.transfers ensures n in r.mounts && Pollable(r.mounts[n]) {
        RowsSay(reg, e.found, n);
        assert Get(r.transfers, n).Some? && Get(reg.transfers, n).Some?;
        assert n !in e.gone;
        UnpollableHasARow(e.found, n);
      }
    }
  }

  /** Between two points of the registry, one name heard exactly what became of it. */
  ghost predicate Follows(a: Reg, said: seq<Change>, b: Reg, n: string) {
    && Get(b.mounts, n) == Heed(Get(a.mounts, n), SaidRow(said, n))
    && Tracks(Get(a.transfers, n), SaidReading(said, n), Get(b.transfers, n))
  }

  lemma FollowsCompose(a: Reg, first: seq<Change>, b: Reg, then_: seq<Change>, c: Reg, n: string)
    requires Follows(a, first, b, n) && Follows(b, then_, c, n)
    ensures Follows(a, first + then_, c, n)
  {
    SaidAppend(first, then_, n);
  }

  /** One event, as one name hears it. */
  lemma EventSays(reg: Reg, e: Event, n: string)
    requires Fed(reg, e)
    ensures Follows(reg, Says(reg, e), Next(reg, e), n)
  {
    if e.Sweep? {
      SweepSays(reg, e.found, e.gone, n);
      NoEchoAgrees(reg.mounts, e.found, n);
    } else {
      SaidOne(Says(reg, e), n);
    }
  }

  lemma {:induction false} RowsHeldSayNothing(reg: Reg, found: seq<MountView>)
    requires ReadingsBelong(reg) && forall i :: 0 <= i < |found| ==> Get(reg.mounts, found[i].name) == Some(found[i])
    ensures AddRows(reg, found).changes == [] && AddRows(reg, found).transfers == reg.transfers
  {
    if found != [] {
      var k := |found| - 1;
      RowsHeldSayNothing(reg, found[..k]);
      assert Get(reg.mounts, found[k].name) == Some(found[k]);
    }
  }

  lemma NothingIsNobody(gone: seq<string>)
    ensures gone != [] ==> gone[0] in gone
  {}

  lemma SweepOfTheSameSaysNothing(reg: Reg, found: seq<MountView>, gone: seq<string>)
    requires ListsGone(reg, found, gone) && NoEcho(reg.mounts, found) && ReadingsBelong(reg)
    requires AfterSweep(reg, found, gone) == reg
    ensures SweepChanges(reg, found, gone) == []
  {
    NothingIsNobody(gone);
    forall i | 0 <= i < |found| ensures Get(reg.mounts, found[i].name) == Some(found[i]) {
      RowsSay(reg, found, found[i].name);
    }
    RowsHeldSayNothing(reg, found);
  }

  /**
   * An event that changes nothing says nothing, and one that says nothing has changed nothing: no
   * change is published that is none, and none is missed.
   */
  lemma SilentExactlyWhenNothingChanges(reg: Reg, e: Event)
    requires Fed(reg, e) && ReadingsBelong(reg)
    ensures Says(reg, e) == [] <==> Next(reg, e) == reg
  {
    if Says(reg, e) == [] {
      forall n ensures Get(Next(reg, e).mounts, n) == Get(reg.mounts, n)
               ensures Get(Next(reg, e).transfers, n) == Get(reg.transfers, n) {
        EventSays(reg, e, n);
        assert SaidRow([], n).Silent? && SaidReading([], n).Silent?;
      }
      SameLookups(Next(reg, e).mounts, reg.mounts);
      SameLookups(Next(reg, e).transfers, reg.transfers);
    } else if Next(reg, e) == reg && e.Sweep? {
      SweepOfTheSameSaysNothing(reg, e.found, e.gone);
    }
  }

  lemma StepFollows(a: Reg, said: seq<Change>, b: Reg, e: Event, n: string)
    requires Fed(b, e) && Follows(a, said, b, n)
    ensures Follows(a, said + Says(b, e), Next(b, e), n)
  {
    EventSays(b, e, n);
    FollowsCompose(a, said, b, Says(b, e), Next(b, e), n);
  }

  lemma NothingSaidFollows(a: Reg, n: string)
    ensures Follows(a, [], a, n)
  {}

  lemma StepOfRun(run: Run, i: nat, t: nat, n: string)
    requires run.Valid() && i <= t < |run.events|
    requires Follows(run.states[i], Joined(run.said, i, t), run.states[t], n)
    ensures Follows(run.states[i], Joined(run.said, i, t + 1), run.states[t + 1], n)
  {
    assert run.Takes(t);
    StepFollows(run.states[i], Joined(run.said, i, t), run.states[t], run.events[t], n);
  }

  /** A stretch of a run, as one name hears it. */
  lemma {:induction false} StretchSays(run: Run, i: nat, k: nat, n: string)
    requires run.Valid() && i <= k <= |run.events|
    ensures Follows(run.states[i], Joined(run.said, i, k), run.states[k], n)
  {
    if i == k {
      NothingSaidFollows(run.states[i], n);
    } else {
      StretchSays(run, i, k - 1, n);
      StepOfRun(run, i, k - 1, n);
    }
  }

  lemma {:induction false} JoinedInTwo(said: seq<seq<Change>>, i: nat, j: nat, k: nat)
    requires i <= j <= k <= |said|
    ensures Joined(said, i, k) == Joined(said, i, j) + Joined(said, j, k)
  {
    if j < k {
      JoinedInTwo(said, i, j, k - 1);
      Reassociate(Joined(said, i, j), Joined(said, j, k - 1), said[k - 1]);
    }
  }

  /** What was said up to a point is not changed by what is said after it. */
  lemma {:induction false} JoinedAppend(said: seq<seq<Change>>, i: nat, k: nat, more: seq<Change>)
    requires i <= k <= |said|
    ensures Joined(said + [more], i, k) == Joined(said, i, k)
  {
    if i < k { JoinedAppend(said, i, k - 1, more); }
  }

  lemma Reassociate(a: seq<Change>, b: seq<Change>, c: seq<Change>)
    ensures (a + b) + c == a + (b + c)
  {}

  lemma {:induction false} ReadingsAlwaysBelong(run: Run, t: nat)
    requires run.Recorded() && t <= |run.events|
    ensures ReadingsBelong(run.states[t])
  {
    if t > 0 {
      ReadingsAlwaysBelong(run, t - 1);
      assert run.Takes(t - 1);
      EventKeepsReadingsBelonging(run.states[t - 1], run.events[t - 1]);
    }
  }

  /** A client's reading for a name, next to what the registry stores for it. */
  predicate ReadingAgrees(stored: Option<T.TransferView>, held: Option<T.TransferView>) {
    if stored.Some? then held == stored else held.Some? ==> !held.value.outstandingKnown
  }

  /**
   * What a joining client collects: the list as of point `j`, then one answer per listed
   * mount, each taken at its own later point.
   */
  ghost predicate Collected(run: Run, j: nat, k: nat, snapshot: Client, askedAt: map<string, nat>)
    requires run.Recorded() && j <= k <= |run.events|
  {
    && snapshot.mounts == run.states[j].mounts
    && snapshot.transfers.Keys <= snapshot.mounts.Keys
    && forall n :: n in snapshot.mounts ==>
         && n in askedAt && j <= askedAt[n] <= k
         && ReadingAgrees(Get(run.states[askedAt[n]].transfers, n), Get(snapshot.transfers, n))
  }

  /** What is left of the stream from a place before point `j`, split at `j`. */
  lemma StreamFrom(said: seq<seq<Change>>, j: nat, k: nat, m: nat)
    requires j <= k <= |said| && m <= |Joined(said, 0, j)|
    ensures m <= |Joined(said, 0, k)|
    ensures Joined(said, 0, j) == Joined(said, 0, j)[..m] + Joined(said, 0, j)[m..]
    ensures Joined(said, 0, k)[m..] == Joined(said, 0, j)[m..] + Joined(said, j, k)
    ensures Joined(said, 0, k) == Joined(said, 0, j)[..m] + Joined(said, 0, k)[m..]
  {
    JoinedInTwo(said, 0, j, k);
  }

  /** A row as of `j` is as of `k` once everything from any earlier place on has been heard. */
  lemma RowCatchesUp(run: Run, j: nat, k: nat, m: nat, n: string)
    requires run.Valid() && j <= k <= |run.events| && m <= |Joined(run.said, 0, j)|
    ensures m <= |Joined(run.said, 0, k)|
    ensures Heed(Get(run.states[j].mounts, n), SaidRow(Joined(run.said, 0, k)[m..], n)) == Get(run.states[k].mounts, n)
  {
    var said := run.said;
    StreamFrom(said, j, k, m);
    SaidAppend(Joined(said, 0, j)[..m], Joined(said, 0, j)[m..], n);
    SaidAppend(Joined(said, 0, j)[m..], Joined(said, j, k), n);
    StretchSays(run, 0, j, n);
    StretchSays(run, j, k, n);
  }

  /** Whatever was last said of a reading, from any place on, is what became of it. */
  lemma ReadingCatchesUp(run: Run, j: nat, k: nat, m: nat, n: string)
    requires run.Valid() && j <= k <= |run.events| && m <= |Joined(run.said, 0, j)|
    ensures m <= |Joined(run.said, 0, k)|
    ensures var word := SaidReading(Joined(run.said, 0, k)[m..], n);
      if word.Silent? then SaidReading(Joined(run.said, j, k), n).Silent?
      else ReadingAgrees(Get(run.states[k].transfers, n), Heed(None, word))
  {
    var said := run.said;
    StreamFrom(said, j, k, m);
    SaidAppend(Joined(said, 0, j)[m..], Joined(said, j, k), n);
    SaidAppend(Joined(said, 0, j)[..m], Joined(said, 0, k)[m..], n);
    StretchSays(run, 0, k, n);
  }

  /** With nothing said of a reading since the list, what was collected still stands. */
  lemma CollectedStands(run: Run, j: nat, k: nat, snapshot: Client, askedAt: map<string, nat>, n: string)
    requires run.Valid() && j <= k <= |run.events| && Collected(run, j, k, snapshot, askedAt)
    requires SaidReading(Joined(run.said, j, k), n).Silent?
    ensures ReadingAgrees(Get(run.states[k].transfers, n), Get(snapshot.transfers, n))
  {
    if n in snapshot.mounts {
      var q := askedAt[n];
      JoinedInTwo(run.said, j, q, k);
      SaidAppend(Joined(run.said, j, q), Joined(run.said, q, k), n);
      StretchSays(run, q, k, n);
    } else {
      ReadingsAlwaysBelong(run, j);
      StretchSays(run, j, k, n);
      assert Get(run.states[j].transfers, n).None? && Get(snapshot.transfers, n).None?;
    }
  }

  /**
   * Late joiners converge. Changes are published one at a time, as one stream. A client subscribes
   * at any place in it, in the middle of a sweep's changes too; lists at a later point `j`; asks
   * for readings at any points up to `k`; and then applies everything published since it
   * subscribed, most of it a second time. It then holds exactly the registry's rows at `k` and its
   * stored readings; where none is stored it holds none, or one that claims nothing.
   */
  lemma LateJoinerConverges(run: Run, m: nat, j: nat, k: nat, snapshot: Client, askedAt: map<string, nat>)
    requires run.Valid() && j <= k <= |run.events| && m <= |Joined(run.said, 0, j)|
    requires Collected(run, j, k, snapshot, askedAt)
    ensures m <= |Joined(run.said, 0, k)|
    ensures
      var c := ApplyAll(snapshot, Joined(run.said, 0, k)[m..]);
      && c.mounts == run.states[k].mounts
      && forall n :: ReadingAgrees(Get(run.states[k].transfers, n), Get(c.transfers, n))
  {
    StreamFrom(run.said, j, k, m);
    var heard := Joined(run.said, 0, k)[m..];
    var c := ApplyAll(snapshot, heard);
    forall n
      ensures Get(c.mounts, n) == Get(run.states[k].mounts, n)
      ensures ReadingAgrees(Get(run.states[k].transfers, n), Get(c.transfers, n))
    {
      ApplyAllHeedsTheLastWord(snapshot, heard, n);
      RowCatchesUp(run, j, k, m, n);
      ReadingCatchesUp(run, j, k, m, n);
      if SaidReading(heard, n).Silent? { CollectedStands(run, j, k, snapshot, askedAt, n); }
    }
    SameLookups(c.mounts, run.states[k].mounts);
  }

  /** Whatever is stored for a name was read at some earlier point, and is of that name. */
  lemma {:induction false} StoredWasRead(run: Run, t: nat, n: string)
    requires run.Recorded() && t <= |run.events| && n in run.states[t].transfers
    ensures run.states[t].transfers[n].mount == n
    ensures exists i :: 0 <= i < t && run.events[i] == Read(run.states[t].transfers[n])
  {
    assert run.Takes(t - 1);
    var before, e := run.states[t - 1], run.events[t - 1];
    if e.Sweep? {
      RowsSay(before, e.found, n);
      assert Get(run.states[t].transfers, n) == Get(before.transfers, n);
    }
    if !(e.Read? && e.view.mount == n) || Get(before.transfers, n) == Some(e.view) {
      StoredWasRead(run, t - 1, n);
    }
  }

  /** The tier of a registry is the richest it was ever told of, and none before the first. */
  lemma {:induction false} TierIsTheRichestSeen(run: Run, t: nat)
    requires run.Recorded() && t <= |run.events|
    ensures match run.states[t].tier
      case None => forall i :: 0 <= i < t ==> !run.events[i].TierSeen?
      case Some(best) =>
        && (exists i :: 0 <= i < t && run.events[i] == TierSeen(best))
        && forall i :: 0 <= i < t && run.events[i].TierSeen? ==> Rank(best) <= Rank(run.events[i].tier)
  {
    if t > 0 {
      TierIsTheRichestSeen(run, t - 1);
      assert run.Takes(t - 1);
    }
  }
}
