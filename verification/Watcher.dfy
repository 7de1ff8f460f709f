/** When sweeps and polls happen, which pollers are kept between them, and what a subscriber gets to hear. */
module Watching {
  import opened Base
  import opened Mounts
  import opened Registries
  import P = Poller
  import T = Transfers
  import O = Ownership
  import C = Configs

  /** Instants and durations are milliseconds. */
  const SWEEP_INTERVAL := 15_000
  const MIN_SWEEP_GAP := 1_000
  const MAX_POLL_SECS := 86_400

  /** The polling cadence, as a validated configuration bounds it. */
  datatype Cadence = Cadence(activeSecs: nat, idleSecs: nat) {
    predicate Valid() { 1 <= activeSecs <= MAX_POLL_SECS && 1 <= idleSecs <= MAX_POLL_SECS }

    /** How long until a mount that gave this reading is worth asking again. */
    function Interval(s: T.TransferState): (wait: int)
      requires Valid()
      ensures 1_000 <= wait <= 1_000 * MAX_POLL_SECS
      ensures CallsFor(T.ViewOf(s), wait)
    {
      1_000 * (if s.fidelity == Some(T.T4) then (if idleSecs < activeSecs then activeSecs else idleSecs)
               else if s.pending.files > 0 then activeSecs else idleSecs)
    }

    /** The wait a stored reading calls for. */
    function WaitFor(v: T.TransferView): (wait: int)
      ensures CallsFor(v, wait)
    {
      1_000 * (if v.fidelity == Some("T4") && activeSecs < idleSecs then idleSecs
               else if v.fidelity == Some("T4") || v.pendingFiles > 0 then activeSecs else idleSecs)
    }

    /**
     * What a stored reading calls for: one taken off the disk the longer of the two cadences,
     * whatever it found; any other the active one while it shows files pending, and the idle one
     * while it shows none.
     */
    predicate CallsFor(v: T.TransferView, wait: int) {
      && (v.fidelity == Some("T4") ==>
            && wait >= 1_000 * activeSecs && wait >= 1_000 * idleSecs
            && (wait == 1_000 * activeSecs || wait == 1_000 * idleSecs))
      && (v.fidelity != Some("T4") && v.pendingFiles > 0 ==> wait == 1_000 * activeSecs)
      && (v.fidelity != Some("T4") && v.pendingFiles == 0 ==> wait == 1_000 * idleSecs)
    }
  }

  class Clock {
    var now: int

    constructor (at: int)
      ensures now == at
    {
      now := at;
    }

    /** Time passes, by no amount anyone chose. */
    method Read() returns (t: int)
      modifies this
      ensures old(now) <= now == t
    {
      var step :| step >= 0;
      now := now + step;
      t := now;
    }

    method Sleep(wait: nat)
      modifies this
      ensures now >= old(now) + wait
    {
      var late :| late >= 0;
      now := now + wait + late;
    }
  }

  /** Shared with callers: a one-place wake-up, and the names acted on since the last tick. */
  class Nudge {
    var woken: bool
    var cycled: set<string>

    constructor ()
      ensures !woken && cycled == {}
    {
      woken, cycled := false, {};
    }

    method ActedOn(name: string)
      modifies this
      ensures woken && cycled == old(cycled) + {name}
    {
      woken, cycled := true, cycled + {name};
    }

    method TakeCycled() returns (taken: set<string>)
      modifies this`cycled
      ensures taken == old(cycled) && cycled == {}
    {
      taken, cycled := cycled, {};
    }
  }

  /** When one sweep began and ended. */
  datatype Span = Span(start: int, end: int)

  /** Each sweep starts at least the minimum gap after the one before it ended. */
  ghost predicate Spaced(sweeps: seq<Span>) {
    && (forall i :: 0 <= i < |sweeps| ==> sweeps[i].start <= sweeps[i].end)
    && forall i :: 0 < i < |sweeps| ==> sweeps[i - 1].end + MIN_SWEEP_GAP <= sweeps[i].start
  }

  lemma OneMoreSweep(sweeps: seq<Span>, span: Span)
    requires Spaced(sweeps) && span.start <= span.end
    requires sweeps != [] ==> sweeps[|sweeps| - 1].end + MIN_SWEEP_GAP <= span.start
    ensures Spaced(sweeps + [span])
  {}

  function Pollables(reg: Reg): set<string> { set n | n in reg.mounts && Pollable(reg.mounts[n]) }

  function Views(found: seq<DiscoveredMount>, remoteOf: string -> Option<string>): (views: seq<MountView>)
    ensures |views| == |found|
    ensures forall i :: 0 <= i < |found| ==> views[i] == ViewOf(found[i], remoteOf(found[i].name))
  {
    seq(|found|, i requires 0 <= i < |found| => ViewOf(found[i], remoteOf(found[i].name)))
  }

  /** The earliest of some deadlines. */
  ghost predicate Earliest(t: int, due: map<string, int>, sweepDue: int) {
    && t <= sweepDue && (forall n :: n in due ==> t <= due[n])
    && (t == sweepDue || exists n :: n in due && due[n] == t)
  }

  /** Whether a mount's deadline has come, or it has none. */
  predicate Late(n: string, due: map<string, int>, now: int) { n in due ==> due[n] <= now }

  method FirstDue(due: map<string, int>, sweepDue: int) returns (t: int)
    ensures Earliest(t, due, sweepDue)
  {
    t := sweepDue;
    var left := due.Keys;
    while left != {}
      invariant left <= due.Keys && t <= sweepDue
      invariant forall n :: n in due.Keys - left ==> t <= due[n]
      invariant t == sweepDue || exists n :: n in due && due[n] == t
      decreases left
    {
      var n :| n in left;
      left := left - {n};
      if due[n] < t { t := due[n]; }
    }
  }

  /**
   * Everything the world answers during one turn of the loop: what the sweep finds, what a new
   * poller's probe and every poller's round of questions would be answered, what is acted on
   * meanwhile, and whether the nudge or the timer ends the wait when both could.
   */
  datatype Turn = Turn(
    found: Option<seq<DiscoveredMount>>,
    probes: string -> P.Answer<set<string>>,
    rounds: string -> P.Round,
    acted: seq<string>,
    nudgeFirst: bool)

  /** What connecting a poller leaves latched, and what polling it says and leaves. */
  datatype Polling = Polling(connect: string -> P.Latch, poll: (string, P.Latch) -> (T.TransferState, P.Latch)) {
    /** A poller speaks only of its own mount. */
    ghost predicate Honest() { forall n, l :: poll(n, l).0.mount == n }
  }

  /** The polling of a turn: each poller takes the probe and the round of answers it would get. */
  function PollingOf(turn: Turn): (polling: Polling)
    ensures polling.Honest()
  {
    PollersAreHonest(turn.rounds);
    Polling(n => P.Connected(turn.probes(n)), (n, l) => P.PollStep(n, l, turn.rounds(n)))
  }

  lemma PollersAreHonest(rounds: string -> P.Round)
    ensures forall n, l :: P.PollStep(n, l, rounds(n)).0.mount == n
  {
    forall n, l ensures P.PollStep(n, l, rounds(n)).0.mount == n {
      P.ReadingIsOfItsMount(n, l, rounds(n));
    }
  }

  /** What a sweep of a system finds, seen whole at one moment. */
  ghost predicate SeenWhole(found: Option<seq<DiscoveredMount>>) {
    found.Some? ==> exists s: O.Snapshot :: s.Consistent() && O.Slashed(s) && found.value == O.Rows(s)
  }

  /** The views of such a sweep. */
  ghost predicate Reconciled(found: seq<MountView>, remoteOf: string -> Option<string>) {
    exists s: O.Snapshot :: s.Consistent() && O.Slashed(s) && found == Views(O.Rows(s), remoteOf)
  }

  /** What a sweep puts on record: its views, unless it failed. */
  function SweptBy(found: Option<seq<DiscoveredMount>>, remoteOf: string -> Option<string>): seq<seq<MountView>> {
    match found case Some(rows) => [Views(rows, remoteOf)] case None => []
  }

  lemma SweptByIsReconciled(found: Option<seq<DiscoveredMount>>, remoteOf: string -> Option<string>)
    ensures SeenWhole(found) ==> forall views <- SweptBy(found, remoteOf) :: Reconciled(views, remoteOf)
  {}

  function FoundIn(e: Event): seq<seq<MountView>> { match e case Sweep(found, _) => [found] case _ => [] }

  function ReadIn(e: Event): seq<T.TransferView> { match e case Read(view) => [view] case _ => [] }

  /** The sweeps among some events, in order. */
  function SweepsOf(events: seq<Event>): seq<seq<MountView>> {
    if events == [] then [] else SweepsOf(events[..|events| - 1]) + FoundIn(events[|events| - 1])
  }

  /** The readings among some events, in order. */
  function ReadsOf(events: seq<Event>): seq<T.TransferView> {
    if events == [] then [] else ReadsOf(events[..|events| - 1]) + ReadIn(events[|events| - 1])
  }

  lemma OneMoreEvent(events: seq<Event>, e: Event)
    ensures SweepsOf(events + [e]) == SweepsOf(events) + FoundIn(e)
    ensures ReadsOf(events + [e]) == ReadsOf(events) + ReadIn(e)
  {
    assert (events + [e])[..|events|] == events;
  }

  lemma {:induction false} SweepsOfHoldsThem(events: seq<Event>, t: nat)
    requires t < |events| && events[t].Sweep?
    ensures events[t].found in SweepsOf(events)
  {
    var k := |events| - 1;
    if t < k { SweepsOfHoldsThem(events[..k], t); }
  }

  lemma {:induction false} ReadsOfHoldsThem(events: seq<Event>, t: nat)
    requires t < |events| && events[t].Read?
    ensures events[t].view in ReadsOf(events)
  {
    var k := |events| - 1;
    if t < k { ReadsOfHoldsThem(events[..k], t); }
  }

  /** A poller as the watcher owns it: what it has latched, since when it has existed, and when it last answered. */
  datatype Held = Held(latch: P.Latch, since: int, last: int)

  /** What polling a mount says, and what is held for it afterwards. */
  function Outcome(name: string, held: Option<Held>, polling: Polling, since: int, last: int): (T.TransferView, Held) {
    var before := if held.Some? then held.value else Held(polling.connect(name), since, last);
    var (state, latch) := polling.poll(name, before.latch);
    (T.ViewOf(state), before.(latch := latch, last := last))
  }

  /** What the watcher holds for one name, and in which turns it was asked, by number. */
  datatype Row = Row(held: Option<Held>, due: Option<int>, said: Option<T.TransferView>, asked: seq<nat>)

  /** What the watcher holds for every name. */
  datatype Holding = Holding(pollers: map<string, Held>, due: map<string, int>,
                             said: map<string, T.TransferView>, asked: map<string, seq<nat>>)
  {
    function RowOf(n: string): Row { Row(Get(pollers, n), Get(due, n), Get(said, n), Numbers(asked, n)) }
  }

  /** Everything held for one name, and of everything else what there was. */
  function WithRow(h: Holding, n: string, row: Row): Holding
    requires row.held.Some? && row.due.Some? && row.said.Some?
  {
    Holding(h.pollers[n := row.held.value], h.due[n := row.due.value], h.said[n := row.said.value],
            h.asked[n := row.asked])
  }

  lemma WithRowIsOnlyThat(h: Holding, n: string, row: Row)
    requires row.held.Some? && row.due.Some? && row.said.Some?
    ensures WithRow(h, n, row).RowOf(n) == row
    ensures forall m :: m != n ==> WithRow(h, n, row).RowOf(m) == h.RowOf(m)
  {}

  function Numbers(asked: map<string, seq<nat>>, n: string): seq<nat> { if n in asked then asked[n] else [] }

  /** One tick's polling: through what, in which turn, at what cadence, and from when to when. */
  datatype Ticking = Ticking(polling: Polling, turn: nat, cadence: Cadence, from: int, to: int) {
    /** The same tick, seen a little later. */
    ghost predicate Goes(later: Ticking) { later == this.(to := later.to) && to <= later.to }

    /** It polls as the answers of this turn make it, the turns before being these. */
    ghost predicate Of(turns: seq<Turn>, answers: Turn) { polling == PollingOf(answers) && turn == |turns| }
  }

  /**
   * One mount's part of a tick: left exactly as it was while it is not due, and otherwise asked,
   * with the answer stored and a deadline as far ahead as the answer calls for.
   */
  ghost predicate Settles(n: string, before: Row, tick: Ticking, after: Row) {
    if before.due.Some? && tick.from < before.due.value then after == before
    else
      && Asked(n, before, tick, after) && after.due.Some?
      && Paced(tick, after.held.value.last, after.said.value, after.due.value)
  }

  /** The deadline counts from an instant of the tick after the answer, as far ahead as the reading calls for. */
  ghost predicate Paced(tick: Ticking, last: int, v: T.TransferView, due: int) {
    last <= due - tick.cadence.WaitFor(v) <= tick.to
  }

  /** A mount was asked, through the poller held for it or a new one, and its answer stored. */
  ghost predicate Asked(n: string, before: Row, tick: Ticking, after: Row) {
    && after.held.Some? && after.said.Some? && after.asked == before.asked + [tick.turn]
    && (before.held.None? ==> tick.from <= after.held.value.since) && tick.from <= after.held.value.last
    && (after.said.value, after.held.value)
       == Outcome(n, before.held, tick.polling, after.held.value.since, after.held.value.last)
  }

  /** What was said before does not matter to a mount that is asked, nor change for one that is not. */
  lemma SaidMakesNoDifference(n: string, before: Row, tick: Ticking, after: Row)
    ensures Settles(n, before, tick, after) ==>
      Settles(n, before.(said := after.said), tick, after)
    ensures Asked(n, before, tick, after) ==>
      Asked(n, before.(said := after.said), tick, after)
  {}

  /** What a tick starts a mount from: nothing at all if it was acted on. */
  function Fresh(cycled: bool, before: Row, said: Option<T.TransferView>): Row {
    if cycled then Row(None, None, said, []) else before.(said := said)
  }

  // --- what a poller was really asked -------------------------------------------------

  /** Some turns that were taken, in the order they were. */
  ghost predicate InOrder(asked: seq<nat>, taken: nat) {
    && asked != [] && (forall i :: 0 <= i < |asked| ==> asked[i] < taken)
    && forall i, j :: 0 <= i < j < |asked| ==> asked[i] < asked[j]
  }

  /** The rounds of answers one mount gave in those turns. */
  function RoundsOf(n: string, turns: seq<Turn>, asked: seq<nat>): seq<P.Round>
    requires forall i :: 0 <= i < |asked| ==> asked[i] < |turns|
  {
    seq(|asked|, i requires 0 <= i < |asked| => turns[asked[i]].rounds(n))
  }

  /** A poller is as the probe of its first turn, and the rounds of its turns, have left it. */
  ghost predicate LeftByTurns(n: string, turns: seq<Turn>, held: Option<Held>, asked: seq<nat>) {
    if held.None? then asked == []
    else
      && InOrder(asked, |turns|)
      && held.value.latch == P.LatchAfter(n, turns[asked[0]].probes(n), RoundsOf(n, turns, asked))
  }

  /** A reading is the one that polling through those turns ended with. */
  ghost predicate ReadInTurns(turns: seq<Turn>, view: T.TransferView, asked: seq<nat>) {
    && InOrder(asked, |turns|)
    && var n := view.mount;
       view == T.ViewOf(P.LastReading(n, turns[asked[0]].probes(n), RoundsOf(n, turns, asked)))
  }

  /** And the evidence behind it is what was answered in those turns. */
  ghost predicate EarnedInTurns(turns: seq<Turn>, view: T.TransferView, asked: seq<nat>) {
    && ReadInTurns(turns, view, asked)
    && var n := view.mount;
       P.RestsOnEvidence(n, turns[asked[0]].probes(n), RoundsOf(n, turns, asked))
  }

  lemma SafeInTurnsIsEarned(turns: seq<Turn>, view: T.TransferView, asked: seq<nat>)
    requires ReadInTurns(turns, view, asked) && view.outstandingKnown && view.pendingFiles == 0
    ensures EarnedInTurns(turns, view, asked)
  {
    P.SafeReadingsAreEarned(view.mount, turns[asked[0]].probes(view.mount), RoundsOf(view.mount, turns, asked));
  }

  lemma TurnsStand(n: string, turns: seq<Turn>, turn: Turn, held: Option<Held>, asked: seq<nat>)
    requires LeftByTurns(n, turns, held, asked)
    ensures LeftByTurns(n, turns + [turn], held, asked)
  {
    if held.Some? { assert RoundsOf(n, turns + [turn], asked) == RoundsOf(n, turns, asked); }
  }

  lemma ReadingStands(turns: seq<Turn>, turn: Turn, view: T.TransferView, asked: seq<nat>)
    requires ReadInTurns(turns, view, asked)
    ensures ReadInTurns(turns + [turn], view, asked)
  {
    assert RoundsOf(view.mount, turns + [turn], asked) == RoundsOf(view.mount, turns, asked);
  }

  lemma RoundsGrow(n: string, turns: seq<Turn>, turn: Turn, asked: seq<nat>)
    requires asked == [] || InOrder(asked, |turns|)
    ensures InOrder(asked + [|turns|], |turns + [turn]|)
    ensures RoundsOf(n, turns + [turn], asked + [|turns|]) == RoundsOf(n, turns, asked) + [turn.rounds(n)]
    ensures (turns + [turn])[(asked + [|turns|])[0]] == if asked == [] then turn else turns[asked[0]]
  {}

  /** What asking does to a poller's latch, and what it says, as one more poll of it. */
  lemma AskedIsPolled(n: string, turns: seq<Turn>, turn: Turn, tick: Ticking, before: Row, after: Row)
    requires tick.Of(turns, turn) && Asked(n, before, tick, after)
    ensures var l := if before.held.Some? then before.held.value.latch else P.Connected(turn.probes(n));
      (after.said.value, after.held.value.latch)
      == (T.ViewOf(P.PollStep(n, l, turn.rounds(n)).0), P.PollStep(n, l, turn.rounds(n)).1)
  {}

  lemma AskingAddsARound(n: string, turns: seq<Turn>, turn: Turn, tick: Ticking, before: Row, after: Row)
    requires LeftByTurns(n, turns, before.held, before.asked)
    requires tick.Of(turns, turn) && Asked(n, before, tick, after)
    ensures LeftByTurns(n, turns + [turn], after.held, after.asked)
    ensures ReadInTurns(turns + [turn], after.said.value, after.asked) && after.said.value.mount == n
  {
    var first := if before.asked == [] then turn else turns[before.asked[0]];
    RoundsGrow(n, turns, turn, before.asked);
    AskedIsPolled(n, turns, turn, tick, before, after);
    P.OneMoreRound(n, first.probes(n), RoundsOf(n, turns, before.asked), turn.rounds(n));
  }

  lemma SettlingAddsARound(n: string, turns: seq<Turn>, turn: Turn, tick: Ticking, before: Row, after: Row)
    requires LeftByTurns(n, turns, before.held, before.asked)
    requires tick.Of(turns, turn) && Settles(n, before, tick, after)
    ensures LeftByTurns(n, turns + [turn], after.held, after.asked)
  {
    if Asked(n, before, tick, after) {
      AskingAddsARound(n, turns, turn, tick, before, after);
    } else {
      TurnsStand(n, turns, turn, after.held, after.asked);
    }
  }

  /** A reading handed to the registry, with the turns its mount had been asked in and the tier told of its build. */
  datatype Told = Told(view: T.TransferView, asked: seq<nat>, tier: Option<T.Tier>)

  /** Every poller is as its turns have left it, and every reading given ended the turns noted with it. */
  ghost predicate AllInTurns(turns: seq<Turn>, h: Holding, told: seq<Told>) {
    && (forall n {:trigger LeftByTurns(n, turns, h.RowOf(n).held, h.RowOf(n).asked)} ::
          LeftByTurns(n, turns, h.RowOf(n).held, h.RowOf(n).asked))
    && forall v <- told :: ReadInTurns(turns, v.view, v.asked)
  }

  /** Some mounts are settled, and what is held of every other stays as it was. */
  ghost predicate PollsSome(before: Holding, tick: Ticking, names: set<string>,
                            after: Holding)
  {
    && (forall n {:trigger after.RowOf(n)} :: n in names ==>
          Settles(n, before.RowOf(n), tick, after.RowOf(n)))
    && forall n {:trigger after.RowOf(n)} :: n !in names ==> after.RowOf(n) == before.RowOf(n)
  }

  /** What is due is asked, nothing else that is pollable changes, and what is not pollable is dropped. */
  ghost predicate PollsDue(before: Holding, tick: Ticking, pollable: set<string>,
                           after: Holding)
  {
    && (forall n {:trigger after.RowOf(n)} :: n in pollable ==>
          Settles(n, before.RowOf(n), tick, after.RowOf(n)))
    && forall n {:trigger after.RowOf(n)} :: n !in pollable ==>
         after.RowOf(n) == Row(None, None, before.RowOf(n).said, [])
  }

  /** Nothing is held any more of what was acted on, and all that was held of anything else. */
  ghost predicate Forgets(before: Holding, cycled: set<string>, after: Holding) {
    forall n {:trigger after.RowOf(n)} :: after.RowOf(n) == Fresh(n in cycled, before.RowOf(n), after.RowOf(n).said)
  }

  lemma TakenIsForgotten(h: Holding, cycled: set<string>)
    ensures Forgets(h, cycled, Holding(h.pollers - cycled, h.due - cycled, h.said, h.asked - cycled))
  {}

  lemma StaysForgotten(h: Holding, cycled: set<string>, without: Holding, said: map<string, T.TransferView>)
    requires Forgets(h, cycled, without)
    ensures Forgets(h, cycled, without.(said := said))
  {
    forall n ensures without.(said := said).RowOf(n) == Fresh(n in cycled, h.RowOf(n), Get(said, n)) {
      assert without.RowOf(n) == Fresh(n in cycled, h.RowOf(n), without.RowOf(n).said);
    }
  }

  /** A tick settles every mount there is to poll, starting afresh with those acted on, and holds no other. */
  ghost predicate Ticks(before: Holding, cycled: set<string>, tick: Ticking,
                        pollable: set<string>, after: Holding)
  {
    && (forall n {:trigger after.RowOf(n)} :: n in pollable ==>
          Settles(n, Fresh(n in cycled, before.RowOf(n), after.RowOf(n).said), tick, after.RowOf(n)))
    && forall n {:trigger after.RowOf(n)} :: n !in pollable ==>
         after.RowOf(n) == Row(None, None, after.RowOf(n).said, [])
  }

  /** Every reading a tick gives is what its mount answered in it. */
  ghost predicate Tells(before: Holding, cycled: set<string>, tick: Ticking,
                        after: Holding, earlier: seq<Told>, told: seq<Told>)
  {
    forall v <- told ::
      v in earlier
      || (var n := v.view.mount;
          Answered(v, Fresh(n in cycled, before.RowOf(n), after.RowOf(n).said), tick, after.RowOf(n)))
  }

  lemma SameStart(n: string, before: Holding, cycled: set<string>, start: Holding, said: Option<T.TransferView>)
    requires Forgets(before, cycled, start)
    ensures start.RowOf(n).(said := said) == Fresh(n in cycled, before.RowOf(n), said)
  {
    assert start.RowOf(n) == Fresh(n in cycled, before.RowOf(n), start.RowOf(n).said);
  }

  lemma ForgettingThenPolling(before: Holding, cycled: set<string>, start: Holding, tick: Ticking,
                               pollable: set<string>, after: Holding)
    requires Forgets(before, cycled, start) && PollsDue(start, tick, pollable, after)
    ensures Ticks(before, cycled, tick, pollable, after)
  {
    forall n | n in pollable
      ensures Settles(n, Fresh(n in cycled, before.RowOf(n), after.RowOf(n).said), tick, after.RowOf(n))
    {
      SameStart(n, before, cycled, start, after.RowOf(n).said);
      SaidMakesNoDifference(n, start.RowOf(n), tick, after.RowOf(n));
    }
  }

  lemma ForgettingThenTelling(before: Holding, cycled: set<string>, start: Holding, tick: Ticking,
                               after: Holding, earlier: seq<Told>, told: seq<Told>)
    requires Forgets(before, cycled, start) && Tells(start, {}, tick, after, earlier, told)
    ensures Tells(before, cycled, tick, after, earlier, told)
  {
    forall v <- told | v !in earlier
      ensures var n := v.view.mount;
        Answered(v, Fresh(n in cycled, before.RowOf(n), after.RowOf(n).said), tick, after.RowOf(n))
    {
      SameStart(v.view.mount, before, cycled, start, after.RowOf(v.view.mount).said);
    }
  }

  /** Only a mount that was settled can have answered. */
  lemma AnsweredWasSettled(before: Holding, tick: Ticking, names: set<string>, after: Holding,
                           v: Told)
    requires PollsSome(before, tick, names, after)
    requires var n := v.view.mount;
      Answered(v, before.RowOf(n).(said := after.RowOf(n).said), tick, after.RowOf(n))
    ensures v.view.mount in names
  {
    var n := v.view.mount;
    assert |after.RowOf(n).asked| == |before.RowOf(n).asked| + 1;
  }

  lemma SettledIsSettledLater(n: string, before: Row, tick: Ticking, later: Ticking, after: Row)
    requires tick.Goes(later) && Settles(n, before, tick, after)
    ensures Settles(n, before, later, after)
  {}

  lemma PollingOneMore(before: Holding, tick: Ticking, names: set<string>, after: Holding,
                       n: string, later: Ticking, further: Holding)
    requires n !in names && PollsSome(before, tick, names, after)
    requires tick.Goes(later) && PollsSome(after, later, {n}, further)
    ensures PollsSome(before, later, names + {n}, further)
  {
    forall m ensures if m in names + {n} then Settles(m, before.RowOf(m), later, further.RowOf(m))
                     else further.RowOf(m) == before.RowOf(m) {
      assert m != n ==> further.RowOf(m) == after.RowOf(m);
      assert m !in names ==> after.RowOf(m) == before.RowOf(m);
      if m in names { SettledIsSettledLater(m, before.RowOf(m), tick, later, after.RowOf(m)); }
    }
  }

  lemma TellingOneMore(before: Holding, tick: Ticking, names: set<string>, after: Holding,
                       n: string, later: Ticking, further: Holding, earlier: seq<Told>, told: seq<Told>,
                       more: seq<Told>)
    requires n !in names && PollsSome(before, tick, names, after)
    requires tick.Goes(later) && PollsSome(after, later, {n}, further)
    requires Tells(before, {}, tick, after, earlier, told)
    requires Tells(after, {}, later, further, told, more)
    ensures Tells(before, {}, later, further, earlier, more)
  {
    forall v <- more | v !in earlier
      ensures var m := v.view.mount;
        Answered(v, Fresh(m in {}, before.RowOf(m), further.RowOf(m).said), later, further.RowOf(m))
    {
      var m := v.view.mount;
      if v in told {
        AnsweredWasSettled(before, tick, names, after, v);
        assert further.RowOf(m) == after.RowOf(m);
      } else {
        AnsweredWasSettled(after, later, {n}, further, v);
        assert after.RowOf(m) == before.RowOf(m);
      }
    }
  }

  lemma TickedIsTickedLater(before: Holding, cycled: set<string>, tick: Ticking, later: Ticking,
                            pollable: set<string>, after: Holding, earlier: seq<Told>, told: seq<Told>)
    requires tick.Goes(later) && Ticks(before, cycled, tick, pollable, after)
    requires Tells(before, cycled, tick, after, earlier, told)
    ensures Ticks(before, cycled, later, pollable, after) && Tells(before, cycled, later, after, earlier, told)
  {
    forall n | n in pollable
      ensures Settles(n, Fresh(n in cycled, before.RowOf(n), after.RowOf(n).said), later, after.RowOf(n))
    {
      SettledIsSettledLater(n, Fresh(n in cycled, before.RowOf(n), after.RowOf(n).said), tick, later, after.RowOf(n));
    }
  }

  lemma KeepingThenPolling(before: Holding, start: Holding, tick: Ticking,
                           pollable: set<string>, after: Holding, earlier: seq<Told>, told: seq<Told>)
    requires forall n :: n in pollable ==> start.RowOf(n) == before.RowOf(n)
    requires forall n :: n !in pollable ==> start.RowOf(n) == Row(None, None, before.RowOf(n).said, [])
    requires PollsSome(start, tick, pollable, after)
    requires Tells(start, {}, tick, after, earlier, told)
    ensures PollsDue(before, tick, pollable, after)
    ensures Tells(before, {}, tick, after, earlier, told)
  {
    forall v <- told | v !in earlier
      ensures var m := v.view.mount;
        Answered(v, Fresh(m in {}, before.RowOf(m), after.RowOf(m).said), tick, after.RowOf(m))
    {
      AnsweredWasSettled(start, tick, pollable, after, v);
    }
  }

  lemma SetsADeadline(tick: Ticking, last: int, v: T.TransferView, at: int, wait: int)
    requires last <= at <= tick.to && tick.cadence.CallsFor(v, wait)
    ensures Paced(tick, last, v, at + wait)
  {
    assert wait == tick.cadence.WaitFor(v);
  }

  lemma AskingIsPolling(h: Holding, tick: Ticking, n: string, answer: Row, due: int,
                        told: seq<Told>)
    requires Late(n, h.due, tick.from) && Asked(n, h.RowOf(n), tick, answer) && answer.said.value.mount == n
    requires Paced(tick, answer.held.value.last, answer.said.value, due)
    ensures var after := WithRow(h, n, answer.(due := Some(due)));
      && PollsSome(h, tick, {n}, after)
      && Tells(h, {}, tick, after, told,
               told + [Told(answer.said.value, answer.asked, BuildOf(answer.held.value.latch))])
  {
    var row := answer.(due := Some(due));
    WithRowIsOnlyThat(h, n, row);
    SaidMakesNoDifference(n, h.RowOf(n), tick, row);
  }

  lemma AskedIsAskedLater(n: string, before: Row, tick: Ticking, later: Ticking, after: Row)
    requires tick.Goes(later) && Asked(n, before, tick, after)
    ensures Asked(n, before, later, after)
  {}

  lemma NotLateIsSettled(h: Holding, tick: Ticking, n: string)
    requires !Late(n, h.due, tick.from)
    ensures PollsSome(h, tick, {n}, h)
  {}

  /** What a poller knows of its rclone's build: the tier of a command set it was given, and nothing of a refusal. */
  function BuildOf(l: P.Latch): Option<T.Tier> {
    if l.caps.degraded.None? then Some(P.TierOf(l.caps)) else None
  }

  /** A reading is what its mount was asked for, and stored; the tier is that of the poller's build. */
  ghost predicate Answered(v: Told, before: Row, tick: Ticking, after: Row) {
    && after.said == Some(v.view) && after.asked == v.asked && Asked(v.view.mount, before, tick, after)
    && v.tier == BuildOf(after.held.value.latch)
  }

  /** A tick with the polling of a turn adds that turn to what was really asked. */
  lemma TickAddsATurn(turns: seq<Turn>, turn: Turn, tick: Ticking, before: Holding, cycled: set<string>,
                      pollable: set<string>, after: Holding, earlier: seq<Told>, told: seq<Told>)
    requires AllInTurns(turns, before, earlier)
    requires tick.Of(turns, turn) && Ticks(before, cycled, tick, pollable, after)
    requires Tells(before, cycled, tick, after, earlier, told)
    ensures AllInTurns(turns + [turn], after, told)
  {
    forall n ensures LeftByTurns(n, turns + [turn], after.RowOf(n).held, after.RowOf(n).asked) {
      assert LeftByTurns(n, turns, before.RowOf(n).held, before.RowOf(n).asked);
      if n in pollable {
        var start := Fresh(n in cycled, before.RowOf(n), after.RowOf(n).said);
        SettlingAddsARound(n, turns, turn, tick, start, after.RowOf(n));
      }
    }
    forall v <- told ensures ReadInTurns(turns + [turn], v.view, v.asked) {
      var n := v.view.mount;
      assert LeftByTurns(n, turns, before.RowOf(n).held, before.RowOf(n).asked);
      if v in earlier {
        ReadingStands(turns, turn, v.view, v.asked);
      } else {
        var start := Fresh(n in cycled, before.RowOf(n), after.RowOf(n).said);
        AskingAddsARound(n, turns, turn, tick, start, after.RowOf(n));
      }
    }
  }

  /**
   * Whatever was acted on is asked again, through a poller no older than the tick that has been
   * polled in this turn only: nothing latched before the action stands behind the new reading.
   */
  lemma CycledIsAskedAfresh(n: string, before: Row, turn: Turn, tick: Ticking, after: Row)
    requires tick.polling == PollingOf(turn) && Settles(n, Fresh(true, before, after.said), tick, after)
    ensures after.held.Some? && tick.from <= after.held.value.since && after.asked == [tick.turn]
    ensures after.held.value.latch == P.LatchAfter(n, turn.probes(n), [turn.rounds(n)])
    ensures after.said == Some(T.ViewOf(P.LastReading(n, turn.probes(n), [turn.rounds(n)])))
  {
    P.OneMoreRound(n, turn.probes(n), [], turn.rounds(n));
    assert [] + [turn.rounds(n)] == [turn.rounds(n)];
  }

  function ViewsOf(told: seq<Told>): seq<T.TransferView> {
    seq(|told|, i requires 0 <= i < |told| => told[i].view)
  }

  /** The tier held is the richest told of any build, and none while none was. */
  ghost predicate Graded(told: seq<Told>, tier: Option<T.Tier>) {
    && (forall v <- told :: v.tier.Some? ==> tier.Some? && Rank(tier.value) <= Rank(v.tier.value))
    && (tier.Some? ==> exists v <- told :: v.tier == tier)
  }

  lemma GradedOneMore(told: seq<Told>, reg: Reg, v: Told, after: Option<T.Tier>)
    requires Graded(told, reg.tier)
    requires after == if v.tier.Some? then AfterTier(reg, v.tier.value).tier else reg.tier
    ensures Graded(told + [v], after)
  {
    var more := told + [v];
    assert more[|told|] == v;
    if reg.tier.Some? {
      var u :| u in told && u.tier == reg.tier;
      assert u in more;
    }
  }

  lemma ViewsOfAppend(a: seq<Told>, b: seq<Told>)
    ensures ViewsOf(a + b) == ViewsOf(a) + ViewsOf(b)
  {}

  class Watcher {
    const registry: Registry
    const clock: Clock
    const nudge: Nudge
    const cadence: Cadence
    const remoteOf: string -> Option<string>
    var pollers: map<string, Held>
    var due: map<string, int>
    var sweepDue: int
    var lastSweep: int
    /** Everything the registry has been through, and everything published about it. */
    ghost var run: Run
    ghost var published: seq<Change>
    ghost var swept: seq<seq<MountView>>
    /** Every turn taken, in which of them each poller held was asked, and every reading given with these. */
    ghost var turns: seq<Turn>
    ghost var asked: map<string, seq<nat>>
    ghost var told: seq<Told>
    ghost var sweeps: seq<Span>

    ghost predicate Valid()
      reads this`pollers, this`due, this`sweepDue, this`lastSweep, this`sweeps
      reads this`run, this`published, this`swept, this`told, registry, clock
    {
      && cadence.Valid() && pollers.Keys == due.Keys && Kept() && Scheduled()
      && (sweeps == [] ==> sweepDue <= clock.now)
    }

    /** A nudge may pull the next sweep in as far as the gap allows; nothing pushes it out. */
    ghost predicate Scheduled()
      reads this`sweeps, this`lastSweep, this`sweepDue
    {
      && Spaced(sweeps)
      && (sweeps != [] ==>
            && sweeps[|sweeps| - 1].end == lastSweep
            && (sweepDue == lastSweep + SWEEP_INTERVAL || sweepDue == lastSweep + MIN_SWEEP_GAP))
    }

    /** Every sweep on record was of a system seen whole. */
    ghost predicate AllWhole()
      reads this`swept
    {
      forall found <- swept :: Reconciled(found, remoteOf)
    }

    /** What is held and was given is what the turns taken so far come to. */
    ghost predicate AllPolled()
      reads this`pollers, this`due, this`asked, this`told, this`turns, registry`transfers
    {
      AllInTurns(turns, Now(), told)
    }

    /** A tick that started at some instant, as far as it has come. */
    ghost function During(polling: Polling, from: int): Ticking
      reads this`turns, clock
    {
      Ticking(polling, |turns|, cadence, from, clock.now)
    }

    ghost function Now(): Holding
      reads this`pollers, this`due, this`asked, registry`transfers
    {
      Holding(pollers, due, registry.transfers, asked)
    }

    /** The record is the registry's, and what was published is all that the record said. */
    ghost predicate Kept()
      reads this`run, this`published, this`swept, this`told, registry
    {
      Recorded() && run.Last() == registry.State() && Graded(told, registry.tier)
    }

    ghost predicate Noted()
      reads this`run, this`published, this`swept, this`told, registry
    {
      Recorded() && run.Last() == registry.State()
    }

    constructor (registry: Registry, clock: Clock, nudge: Nudge, cadence: Cadence,
                 remoteOf: string -> Option<string>)
      requires registry.State() == NOTHING_KNOWN && cadence.Valid()
      modifies clock
      ensures this.registry == registry && this.clock == clock && this.nudge == nudge
      ensures Valid() && sweeps == [] && pollers == map[] && published == []
      ensures turns == [] && told == [] && AllWhole() && AllPolled()
    {
      this.registry, this.clock, this.nudge := registry, clock, nudge;
      this.cadence, this.remoteOf := cadence, remoteOf;
      pollers, due := map[], map[];
      run, published, swept, sweeps := NEW_RUN, [], [], [];
      turns, asked, told := [], map[], [];
      var first := clock.Read();
      var second := clock.Read();
      sweepDue, lastSweep := first, second - MIN_SWEEP_GAP;
    }

    /** Add one event to the record, with what it said. */
    ghost method Note(e: Event, behind: seq<Told>)
      requires Recorded() && Possible(run.Last(), e) && ViewsOf(behind) == ReadIn(e)
      requires registry.State() == Next(run.Last(), e)
      modifies this`run, this`published, this`swept, this`told
      ensures Noted() && run == old(run).Extend(e)
      ensures published == old(published) + Says(old(run).Last(), e)
      ensures swept == old(swept) + FoundIn(e) && told == old(told) + behind
    {
      ExtendKeepsTheRecord(run, e);
      JoinedAppend(run.said, 0, |run.said|, Says(run.Last(), e));
      OneMoreEvent(run.events, e);
      published := published + Says(run.Last(), e);
      ViewsOfAppend(told, behind);
      swept, told := swept + FoundIn(e), told + behind;
      run := run.Extend(e);
    }

    ghost predicate Recorded()
      reads this`run, this`published, this`swept, this`told
    {
      && run.Recorded() && published == Joined(run.said, 0, |run.said|)
      && swept == SweepsOf(run.events) && ViewsOf(told) == ReadsOf(run.events)
    }

    /** Throw away the pollers of the mounts something has acted on. */
    method ForgetCycled() returns (taken: set<string>)
      modifies this`pollers, this`due, this`asked, nudge`cycled
      ensures taken == old(nudge.cycled) && nudge.cycled == {}
      ensures Forgets(old(Now()), taken, Now()) && old(pollers.Keys) - taken == pollers.Keys
      ensures old(due.Keys) - taken == due.Keys
    {
      taken := nudge.TakeCycled();
      var left := taken;
      while left != {}
        invariant left <= taken && nudge.cycled == {}
        invariant pollers == old(pollers) - (taken - left) && due == old(due) - (taken - left)
        invariant asked == old(asked) - (taken - left)
        decreases left
      {
        var name :| name in left;
        left := left - {name};
        pollers, due, asked := pollers - {name}, due - {name}, asked - {name};
      }
      TakenIsForgotten(old(Now()), taken);
    }

    /** Each poller has a deadline; these and no others are what is held. */
    ghost predicate Tends(names: set<string>)
      reads this`pollers, this`due
    {
      pollers.Keys == due.Keys == names
    }

    /** A sweep takes time. The registry takes the rows of one that worked, and none of one that did not. */
    method Sweep(found: Option<seq<DiscoveredMount>>) returns (changes: seq<Change>)
      requires Kept()
      modifies this`run, this`published, this`swept, this`told, registry, clock
      ensures Kept() && published == old(published) + changes
      ensures swept == old(swept) + SweptBy(found, remoteOf) && told == old(told)
      ensures found.None? ==> registry.State() == old(registry.State()) && changes == []
      ensures old(clock.now) <= clock.now
    {
      var _ := clock.Read();
      if found.None? {
        Note(SweepFailed, []);
        assert told == old(told);
        return [];
      }
      ghost var gone;
      changes, gone := registry.ObserveMounts(Views(found.value, remoteOf));
      Note(Registries.Sweep(Views(found.value, remoteOf), gone), []);
      assert told == old(told);
    }

    ghost predicate Polled(name: string)
      reads registry`mounts
    {
      name in registry.mounts && Pollable(registry.mounts[name])
    }

    /** Hand the registry the tier of a probe that answered. */
    method TellTier(tier: Option<T.Tier>) returns (changes: seq<Change>)
      requires Kept()
      modifies this`run, this`published, this`swept, this`told, registry
      ensures Noted() && published == old(published) + changes && swept == old(swept) && told == old(told)
      ensures registry.tier
           == if tier.Some? then AfterTier(old(registry.State()), tier.value).tier else old(registry.tier)
      ensures registry.mounts == old(registry.mounts) && registry.transfers == old(registry.transfers)
    {
      changes := [];
      if tier.Some? {
        var change := registry.NoteTier(tier.value);
        Note(TierSeen(tier.value), []);
        changes := if change.Some? then [change.value] else [];
      }
    }

    /** Hand one reading to the registry, and the tier of a probe that answered. */
    method Tell(view: T.TransferView, tier: Option<T.Tier>, ghost asked: seq<nat>) returns (changes: seq<Change>)
      requires Kept() && Polled(view.mount)
      modifies this`run, this`published, this`swept, this`told, registry
      ensures Kept() && published == old(published) + changes && swept == old(swept)
      ensures told == old(told) + [Told(view, asked, tier)]
      ensures registry.mounts == old(registry.mounts)
      ensures registry.transfers == old(registry.transfers)[view.mount := view]
    {
      changes := TellTier(tier);
      assert Possible(run.Last(), Read(view));
      var change := registry.ObserveTransfer(view);
      assert registry.transfers == old(registry.transfers)[view.mount := view];
      Note(Read(view), [Told(view, asked, tier)]);
      GradedOneMore(old(told), old(registry.State()), Told(view, asked, tier), registry.tier);
      var more := if change.Some? then [change.value] else [];
      Reassociate(old(published), changes, more);
      changes := changes + more;
    }

    /** Ask one mount, through the poller held for it or a new one. That takes time. */
    method Ask(name: string, ghost now: int, polling: Polling) returns (state: T.TransferState, latch: P.Latch)
      requires polling.Honest() && now <= clock.now
      modifies this`pollers, this`asked, clock
      ensures name in pollers && name in asked && pollers[name].latch == latch && state.mount == name
      ensures pollers == old(pollers)[name := pollers[name]] && asked == old(asked)[name := asked[name]]
      ensures old(clock.now) <= clock.now == pollers[name].last
      ensures Asked(name, old(Now()).RowOf(name), During(polling, now),
                    Row(Some(pollers[name]), None, Some(T.ViewOf(state)), asked[name]))
    {
      if name !in pollers {
        pollers := pollers[name := Held(polling.connect(name), clock.now, clock.now)];
      }
      state, latch := polling.poll(name, pollers[name].latch).0, polling.poll(name, pollers[name].latch).1;
      var answered := clock.Read();
      pollers := pollers[name := pollers[name].(latch := latch, last := answered)];
      asked := asked[name := Numbers(asked, name) + [|turns|]];
    }

    /** The next deadline of a mount that was asked counts from an instant read afterwards. */
    method SetDeadline(name: string, ghost from: int, ghost polling: Polling, state: T.TransferState)
      requires cadence.Valid() && name in pollers && pollers[name].last <= clock.now
      modifies this`due, clock
      ensures name in due && due == old(due)[name := due[name]] && old(clock.now) <= clock.now
      ensures Paced(During(polling, from), pollers[name].last, T.ViewOf(state), due[name])
    {
      var at := clock.Read();
      var wait := cadence.Interval(state);
      due := due[name := at + wait];
      SetsADeadline(During(polling, from), pollers[name].last, T.ViewOf(state), at, wait);
    }

    method PollOne(name: string, ghost now: int, polling: Polling) returns (changes: seq<Change>)
      requires cadence.Valid() && polling.Honest() && Kept() && Polled(name)
      requires now <= clock.now && Late(name, due, now)
      modifies this`pollers, this`due, this`asked, this`run, this`published, this`swept, this`told
      modifies registry, clock
      ensures Kept() && published == old(published) + changes && swept == old(swept)
      ensures registry.mounts == old(registry.mounts) && old(clock.now) <= clock.now
      ensures PollsSome(old(Now()), During(polling, now), {name}, Now())
      ensures Tells(old(Now()), {}, During(polling, now), Now(), old(told), told)
    {
      ghost var before, earlier := Now(), told;
      var state, latch := Ask(name, now, polling);
      ghost var answer := Row(Some(pollers[name]), None, Some(T.ViewOf(state)), asked[name]);
      ghost var asking := During(polling, now);
      var tier := if latch.caps.degraded.None? then Some(P.TierOf(latch.caps)) else None;
      assert tier == BuildOf(latch);
      SetDeadline(name, now, polling, state);
      changes := Tell(T.ViewOf(state), tier, asked[name]);
      assert told == earlier + [Told(answer.said.value, answer.asked, BuildOf(answer.held.value.latch))];
      assert Now() == WithRow(before, name, answer.(due := Some(due[name])));
      assert asking.Goes(During(polling, now));
      AskedIsAskedLater(name, before.RowOf(name), asking, During(polling, now), answer);
      AskingIsPolling(before, During(polling, now), name, answer, due[name], earlier);
    }

    /** Drop the poller and the deadline of every name outside the set. */
    method KeepOnly(names: set<string>)
      modifies this`pollers, this`due, this`asked
      ensures forall n :: n in names ==> Now().RowOf(n) == old(Now()).RowOf(n)
      ensures forall n :: n !in names ==> Now().RowOf(n) == Row(None, None, old(Now()).RowOf(n).said, [])
    {
      pollers := map n | n in pollers && n in names :: pollers[n];
      due := map n | n in due && n in names :: due[n];
      asked := map n | n in asked && n in names :: asked[n];
    }

    lemma AllSettled(names: set<string>)
      requires forall n :: n in names ==> Now().RowOf(n).held.Some? && Now().RowOf(n).due.Some?
      requires forall n :: n !in names ==> Now().RowOf(n).held.None? && Now().RowOf(n).due.None?
      ensures Tends(names)
    {
      forall n ensures n in pollers <==> n in names ensures n in due <==> n in names {
        assert Now().RowOf(n).held.Some? <==> n in names;
      }
    }

    /** Ask each of some pollable mounts whose deadline has come. */
    method PollEach(names: set<string>, now: int, polling: Polling) returns (changes: seq<Change>)
      requires cadence.Valid() && polling.Honest() && Kept() && now <= clock.now
      requires forall n <- names :: Polled(n)
      modifies this`pollers, this`due, this`asked, this`run, this`published, this`swept, this`told, registry, clock
      ensures Kept() && published == old(published) + changes && swept == old(swept)
      ensures registry.mounts == old(registry.mounts) && old(clock.now) <= clock.now
      ensures PollsSome(old(Now()), During(polling, now), names, Now())
      ensures Tells(old(Now()), {}, During(polling, now), Now(), old(told), told)
    {
      changes := [];
      var left := names;
      while left != {}
        invariant left <= names
        invariant Kept() && published == old(published) + changes && swept == old(swept)
        invariant registry.mounts == old(registry.mounts) && old(clock.now) <= clock.now
        invariant PollsSome(old(Now()), During(polling, now), names - left, Now())
        invariant Tells(old(Now()), {}, During(polling, now), Now(), old(told), told)
        decreases left
      {
        var name :| name in left;
        ghost var before, given, done, tick := Now(), told, names - left, During(polling, now);
        left := left - {name};
        assert names - left == done + {name};
        if Late(name, due, now) {
          var more := PollOne(name, now, polling);
          Reassociate(old(published), changes, more);
          changes := changes + more;
        } else {
          NotLateIsSettled(before, During(polling, now), name);
        }
        PollingOneMore(old(Now()), tick, done, before, name, During(polling, now), Now());
        TellingOneMore(old(Now()), tick, done, before, name, During(polling, now), Now(), old(told), given, told);
      }
    }

    /**
     * Ask every pollable mount whose deadline has come. What is not pollable keeps no poller
     * and no deadline.
     */
    method PollDue(now: int, polling: Polling) returns (changes: seq<Change>)
      requires cadence.Valid() && polling.Honest() && Kept() && now <= clock.now && pollers.Keys == due.Keys
      modifies this`pollers, this`due, this`asked, this`run, this`published, this`swept, this`told, registry, clock
      ensures Kept() && published == old(published) + changes && swept == old(swept)
      ensures registry.mounts == old(registry.mounts) && old(clock.now) <= clock.now
      ensures PollsDue(old(Now()), During(polling, now), Pollables(registry.State()), Now())
      ensures Tells(old(Now()), {}, During(polling, now), Now(), old(told), told)
      ensures Tends(Pollables(registry.State()))
    {
      var pollable := Pollables(registry.State());
      KeepOnly(pollable);
      ghost var start := Now();
      changes := PollEach(pollable, now, polling);
      assert pollable == Pollables(registry.State());
      KeepingThenPolling(old(Now()), start, During(polling, now), pollable, Now(), old(told), told);
      AllSettled(pollable);
    }

    /** A sweep happened exactly if one was due, and the next is measured from its end. */
    twostate predicate SweptWhenDue(now: int)
      reads this`sweeps, this`lastSweep, this`sweepDue, registry
    {
      if old(sweepDue) <= now then
        sweeps == old(sweeps) + [Span(now, lastSweep)] && sweepDue == lastSweep + SWEEP_INTERVAL
      else
        && sweeps == old(sweeps) && lastSweep == old(lastSweep) && sweepDue == old(sweepDue)
        && registry.mounts == old(registry.mounts)
    }

    /** The sweep of a tick, when it is due. */
    method SweepIfDue(now: int, found: Option<seq<DiscoveredMount>>) returns (changes: seq<Change>)
      requires Kept() && Scheduled() && clock.now == now && (sweeps == [] ==> sweepDue <= now)
      modifies this`run, this`published, this`swept, this`told, this`sweeps, this`lastSweep, this`sweepDue
      modifies registry, clock
      ensures Kept() && Scheduled() && published == old(published) + changes && now <= clock.now && sweeps != []
      ensures swept == if old(sweepDue) <= now then old(swept) + SweptBy(found, remoteOf) else old(swept)
      ensures told == old(told)
      ensures SweptWhenDue(now) && (old(sweepDue) <= now ==> lastSweep == clock.now)
    {
      changes := [];
      if sweepDue <= now {
        changes := Sweep(found);
        lastSweep := clock.Read();
        sweepDue := lastSweep + SWEEP_INTERVAL;
        OneMoreSweep(sweeps, Span(now, lastSweep));
        sweeps := sweeps + [Span(now, lastSweep)];
      }
    }

    /** A tick looks at the clock, and forgets what was acted on. */
    method Begin() returns (now: int, taken: set<string>)
      requires pollers.Keys == due.Keys
      modifies this`pollers, this`due, this`asked, clock, nudge`cycled
      ensures taken == old(nudge.cycled) && nudge.cycled == {}
      ensures old(clock.now) <= now == clock.now && pollers.Keys == due.Keys
      ensures Forgets(old(Now()), taken, Now())
    {
      now := clock.Read();
      taken := ForgetCycled();
    }

    /** The start of a tick: what was acted on is forgotten, and the sweep happens if it is due. */
    method Gather(found: Option<seq<DiscoveredMount>>)
      returns (changes: seq<Change>, now: int, ghost taken: set<string>)
      requires Valid()
      modifies this`pollers, this`due, this`asked, this`run, this`published, this`swept, this`told
      modifies this`sweeps, this`lastSweep, this`sweepDue, registry, clock, nudge`cycled
      ensures Kept() && Scheduled() && published == old(published) + changes && sweeps != []
      ensures swept == if old(sweepDue) <= now then old(swept) + SweptBy(found, remoteOf) else old(swept)
      ensures told == old(told)
      ensures taken == old(nudge.cycled) && nudge.cycled == {}
      ensures old(clock.now) <= now <= clock.now && pollers.Keys == due.Keys
      ensures SweptWhenDue(now)
      ensures Forgets(old(Now()), taken, Now())
    {
      var cycled;
      now, cycled := Begin();
      taken := cycled;
      ghost var without := Now();
      changes := SweepIfDue(now, found);
      StaysForgotten(old(Now()), taken, without, registry.transfers);
    }

    /** Everything a tick does but the waiting. */
    method Work(found: Option<seq<DiscoveredMount>>, polling: Polling) returns (changes: seq<Change>, ghost now: int)
      requires Valid() && polling.Honest()
      modifies this, registry, clock, nudge`cycled
      ensures Kept() && Scheduled() && published == old(published) + changes && sweeps != []
      ensures swept == if old(sweepDue) <= now then old(swept) + SweptBy(found, remoteOf) else old(swept)
      ensures turns == old(turns) && nudge.cycled == {} && old(clock.now) <= now <= clock.now
      ensures SweptWhenDue(now)
      ensures Tends(Pollables(registry.State()))
      ensures Ticks(old(Now()), old(nudge.cycled), During(polling, now), Pollables(registry.State()), Now())
      ensures Tells(old(Now()), old(nudge.cycled), During(polling, now), Now(), old(told), told)
    {
      var at, readings;
      ghost var taken;
      changes, at, taken := Gather(found);
      now := at;
      ghost var start := Now();
      readings := PollDue(at, polling);
      Reassociate(old(published), changes, readings);
      changes := changes + readings;
      ForgettingThenPolling(old(Now()), taken, start, During(polling, now), Pollables(registry.State()), Now());
      ForgettingThenTelling(old(Now()), taken, start, During(polling, now), Now(), old(told), told);
    }

    /** How long until the first deadline. */
    method UntilNext() returns (wait: nat, ghost next: int)
      modifies clock
      ensures old(clock.now) <= clock.now
      ensures Earliest(next, due, sweepDue) && wait == if clock.now < next then next - clock.now else 0
    {
      var first := FirstDue(due, sweepDue);
      var at := clock.Read();
      next := first;
      wait := if at < first then first - at else 0;
    }

    /**
     * One tick. It sweeps exactly when a sweep is due, leaves a poller and a deadline for each
     * mounted mount and no other, and none of them older than what was acted on; it waits
     * until the first deadline, so never past the next sweep.
     */
    method Tick(found: Option<seq<DiscoveredMount>>, polling: Polling)
      returns (changes: seq<Change>, wait: nat, ghost now: int, ghost next: int)
      requires Valid() && polling.Honest()
      modifies this, registry, clock, nudge`cycled
      ensures Valid() && published == old(published) + changes && sweeps != []
      ensures swept == if old(sweepDue) <= now then old(swept) + SweptBy(found, remoteOf) else old(swept)
      ensures turns == old(turns) && nudge.cycled == {} && old(clock.now) <= now <= clock.now
      ensures SweptWhenDue(now)
      ensures Tends(Pollables(registry.State()))
      ensures Ticks(old(Now()), old(nudge.cycled), During(polling, now), Pollables(registry.State()), Now())
      ensures Tells(old(Now()), old(nudge.cycled), During(polling, now), Now(), old(told), told)
      ensures Earliest(next, due, sweepDue) && wait == if clock.now < next then next - clock.now else 0
    {
      changes, now := Work(found, polling);
      ghost var tick := During(polling, now);
      wait, next := UntilNext();
      TickedIsTickedLater(old(Now()), old(nudge.cycled), tick, During(polling, now), Pollables(registry.State()), Now(),
                          old(told), told);
    }

    /** Consume the wake-up: the next sweep is due one gap after the last, no later than it was. */
    method Wake()
      requires Valid() && sweeps != []
      modifies this`sweepDue, nudge`woken
      ensures Valid() && sweepDue == lastSweep + MIN_SWEEP_GAP <= old(sweepDue) && !nudge.woken
    {
      nudge.woken := false;
      sweepDue := lastSweep + MIN_SWEEP_GAP;
    }

    /** Wait for the first deadline, or for an action that lands meanwhile. */
    method Await(turn: Turn, wait: nat)
      requires Valid() && sweeps != []
      modifies this`sweepDue, clock, nudge
      ensures Valid() && sweepDue <= old(sweepDue)
      ensures clock.now < old(clock.now) + wait ==> sweepDue == lastSweep + MIN_SWEEP_GAP
      ensures nudge.cycled == old(nudge.cycled) + (set n <- turn.acted)
      ensures if (old(nudge.woken) || turn.acted != []) && turn.nudgeFirst
              then !nudge.woken && sweepDue == lastSweep + MIN_SWEEP_GAP
              else nudge.woken == (old(nudge.woken) || turn.acted != []) && sweepDue == old(sweepDue)
                   && clock.now >= old(clock.now) + wait
    {
      for a := 0 to |turn.acted|
        invariant Valid() && sweepDue == old(sweepDue) && clock.now == old(clock.now)
        invariant nudge.cycled == old(nudge.cycled) + (set n <- turn.acted[..a])
        invariant nudge.woken == (old(nudge.woken) || a > 0)
      {
        assert turn.acted[..a + 1] == turn.acted[..a] + [turn.acted[a]];
        nudge.ActedOn(turn.acted[a]);
      }
      assert turn.acted[..|turn.acted|] == turn.acted;
      if nudge.woken && turn.nudgeFirst {
        Wake();
        var _ := clock.Read();
      } else {
        clock.Sleep(wait);
      }
    }

    /** The tick of a turn is over; the turn is one of those taken. */
    ghost method CountTurn(turn: Turn, tick: Ticking, before: Holding, cycled: set<string>, earlier: seq<Told>)
      requires AllInTurns(turns, before, earlier) && tick.Of(turns, turn)
      requires Ticks(before, cycled, tick, Pollables(registry.State()), Now())
      requires Tells(before, cycled, tick, Now(), earlier, told)
      modifies this`turns
      ensures AllPolled() && turns == old(turns) + [turn]
    {
      TickAddsATurn(turns, turn, tick, before, cycled, Pollables(registry.State()), Now(), earlier, told);
      turns := turns + [turn];
    }

    /** The tick of a turn, with the polling its answers make. */
    method TickOf(turn: Turn) returns (changes: seq<Change>, wait: nat)
      requires Valid() && AllPolled()
      modifies this, registry, clock, nudge`cycled
      ensures Valid() && AllPolled() && published == old(published) + changes && turns == old(turns) + [turn]
      ensures swept == old(swept) || swept == old(swept) + SweptBy(turn.found, remoteOf)
      ensures Tends(Pollables(registry.State())) && sweeps != [] && nudge.cycled == {}
    {
      ghost var now, next;
      changes, wait, now, next := Tick(turn.found, PollingOf(turn));
      CountTurn(turn, During(PollingOf(turn), now), old(Now()), old(nudge.cycled), old(told));
    }

    /** One turn of the loop: a tick, and the wait after it. */
    method Once(turn: Turn) returns (changes: seq<Change>)
      requires Valid() && AllPolled()
      modifies this, registry, clock, nudge
      ensures Valid() && AllPolled() && published == old(published) + changes && turns == old(turns) + [turn]
      ensures swept == old(swept) || swept == old(swept) + SweptBy(turn.found, remoteOf)
      ensures Tends(Pollables(registry.State()))
      ensures nudge.cycled == set n <- turn.acted
    {
      var wait;
      changes, wait := TickOf(turn);
      Await(turn, wait);
    }

    /**
     * Any number of turns of the loop, under any nudges: sweeps keep their distance, what is
     * published is all the registry said, in order, every poller is as the turns it was asked in
     * have left it, and every reading given is the one those turns ended with.
     */
    method Loop(more: seq<Turn>) returns (out: seq<Change>)
      requires Valid() && AllPolled()
      modifies this, registry, clock, nudge
      ensures Valid() && AllPolled() && published == old(published) + out && turns == old(turns) + more
      ensures old(AllWhole()) && (forall i :: 0 <= i < |more| ==> SeenWhole(more[i].found)) ==> AllWhole()
      ensures more != [] ==> Tends(Pollables(registry.State()))
    {
      out := [];
      for i := 0 to |more|
        invariant Valid() && AllPolled() && published == old(published) + out && turns == old(turns) + more[..i]
        invariant old(AllWhole()) && (forall k :: 0 <= k < i ==> SeenWhole(more[k].found)) ==> AllWhole()
        invariant i > 0 ==> Tends(Pollables(registry.State()))
      {
        SweptByIsReconciled(more[i].found, remoteOf);
        var changes := Once(more[i]);
        Reassociate(old(published), out, changes);
        assert more[..i + 1] == more[..i] + [more[i]];
        out := out + changes;
      }
      assert more[..|more|] == more;
    }
  }

  /** A reconciled sweep never says two things of one name, so no registry hears an echo in it. */
  lemma ReconciledSweepsHaveNoEcho(held: map<string, MountView>, found: seq<MountView>,
                                   remoteOf: string -> Option<string>)
    requires Reconciled(found, remoteOf)
    ensures RowsAgree(found) && NoEcho(held, found)
  {
    var s: O.Snapshot :| s.Consistent() && O.Slashed(s) && found == Views(O.Rows(s), remoteOf);
    var rows := O.Rows(s);
    forall i, j | 0 <= i < j < |found| && found[i].name == found[j].name ensures found[i] == found[j] {
      assert rows[i] in rows && rows[j] in rows;
      O.RowsOfOneNameAgree(s, rows[i], rows[j]);
    }
    AgreeingRowsHaveNoEcho(held, found);
  }

  lemma {:induction false} LastRowIsARow(found: seq<MountView>, n: string)
    requires LastRow(found, n).Some?
    ensures LastRow(found, n).value in found && LastRow(found, n).value.name == n
  {
    if found[|found| - 1].name != n { LastRowIsARow(found[..|found| - 1], n); }
  }

  /** An entry that serves its own point: up, listed there, answering, and not serving another. */
  ghost predicate Serves(s: O.Snapshot, m: C.ConfigMount) {
    && s.Live(s.At(m)) && !s.stale(s.At(m)) && !O.Displaced(s, m)
    && (s.StatusOf(m.UnitName()) == O.Active || s.StatusOf(m.UnitName()) == O.Activating)
  }

  /** The rows of a sweep in the state that is polled are the configured mounts that serve. */
  lemma MountedRowsServe(s: O.Snapshot, r: DiscoveredMount)
    requires s.Consistent()
    ensures r in O.Rows(s) && r.state == Mounted <==>
      exists m <- s.config :: r == DiscoveredMount(m.name, Mounted, Some(m.mountPoint)) && Serves(s, m)
  {
    var unclaimed := O.Unclaimed(s, s.live);
    O.ConfigRowsAreTheConfig(s, s.config, r);
    O.OrphanRowsAreTheUnnamed(s, s.Orphans(), r);
    O.ForeignRowsAreThePoints(unclaimed, r);
    forall m <- s.config ensures O.Resolve(s, m, s.Orphans()) == Mounted <==> Serves(s, m) {
      O.StatesExactly(s, m);
    }
  }

  /**
   * Who is polled. After a sweep of a system seen whole, whatever the registry held before, a
   * poller is kept for a name exactly when it names a configured mount that serves its own point.
   */
  lemma WhoIsPolled(reg: Reg, s: O.Snapshot, remoteOf: string -> Option<string>, gone: seq<string>, n: string)
    requires s.Consistent() && O.Slashed(s)
    ensures n in Pollables(AfterSweep(reg, Views(O.Rows(s), remoteOf), gone)) <==>
      exists m <- s.config :: m.name == n && Serves(s, m)
  {
    var rows, found := O.Rows(s), Views(O.Rows(s), remoteOf);
    ReconciledSweepsHaveNoEcho(reg.mounts, found, remoteOf);
    RowsSay(reg, found, n);
    if n in Pollables(AfterSweep(reg, found, gone)) {
      LastRowIsARow(found, n);
      var i :| 0 <= i < |found| && found[i] == LastRow(found, n).value;
      PollableMeansMounted(rows[i], remoteOf(rows[i].name));
      MountedRowsServe(s, rows[i]);
    }
    if m :| m in s.config && m.name == n && Serves(s, m) {
      var r := DiscoveredMount(n, Mounted, Some(m.mountPoint));
      MountedRowsServe(s, r);
      var i :| 0 <= i < |rows| && rows[i] == r;
      LastRowOf(found, i);
      PollableMeansMounted(r, remoteOf(n));
    }
  }

  /**
   * Whoever joins a watched service late converges, stacked mounts or not: the record a watcher
   * keeps of reconciled sweeps is a run every client can follow.
   */
  lemma WatchedStreamConverges(w: Watcher, m: nat, j: nat, k: nat, snapshot: Client, askedAt: map<string, nat>)
    requires w.Valid() && w.AllWhole() && j <= k <= |w.run.events| && m <= |Joined(w.run.said, 0, j)|
    requires Collected(w.run, j, k, snapshot, askedAt)
    ensures m <= |Joined(w.run.said, 0, k)|
    ensures
      var c := ApplyAll(snapshot, Joined(w.run.said, 0, k)[m..]);
      && c.mounts == w.run.states[k].mounts
      && forall n :: ReadingAgrees(Get(w.run.states[k].transfers, n), Get(c.transfers, n))
    ensures k == |w.run.events| ==> w.run.states[k] == w.registry.State()
    ensures w.published == Joined(w.run.said, 0, |w.run.events|)
  {
    forall t | 0 <= t < |w.run.events| && w.run.events[t].Sweep? ensures RowsAgree(w.run.events[t].found) {
      SweepsOfHoldsThem(w.run.events, t);
      ReconciledSweepsHaveNoEcho(map[], w.run.events[t].found, w.remoteOf);
    }
    AgreeingSweepsAreFollowed(w.run);
    LateJoinerConverges(w.run, m, j, k, snapshot, askedAt);
  }

  lemma StoredWasTold(w: Watcher, k: nat, n: string) returns (i: nat)
    requires w.Valid() && k <= |w.run.events| && n in w.run.states[k].transfers
    ensures i < |w.told| && w.told[i].view == w.run.states[k].transfers[n] && w.told[i].view.mount == n
  {
    StoredWasRead(w.run, k, n);
    var view := w.run.states[k].transfers[n];
    var t :| 0 <= t < k && w.run.events[t] == Read(view);
    ReadsOfHoldsThem(w.run.events, t);
    i :| 0 <= i < |w.told| && ViewsOf(w.told)[i] == view;
  }

  /**
   * No client of a watched service is misled. A reading it holds that claims to know what is
   * outstanding was given by the mount it names: the watcher recorded it with the turns the mount
   * was asked in, and it is what the answers of those turns come to. If it says nothing is
   * outstanding, those answers are the evidence for it.
   */
  lemma SafeReadingsReachClientsEarned(w: Watcher, m: nat, j: nat, k: nat, snapshot: Client,
                                       askedAt: map<string, nat>, n: string) returns (i: nat)
    requires w.Valid() && w.AllWhole() && w.AllPolled()
    requires j <= k <= |w.run.events| && m <= |Joined(w.run.said, 0, j)|
    requires Collected(w.run, j, k, snapshot, askedAt)
    ensures m <= |Joined(w.run.said, 0, k)|
    ensures
      var held := Get(ApplyAll(snapshot, Joined(w.run.said, 0, k)[m..]).transfers, n);
      held.Some? && held.value.outstandingKnown ==>
        && held.value.mount == n && i < |w.told| && w.told[i].view == held.value
        && ReadInTurns(w.turns, held.value, w.told[i].asked)
        && (held.value.pendingFiles == 0 ==> EarnedInTurns(w.turns, held.value, w.told[i].asked))
  {
    WatchedStreamConverges(w, m, j, k, snapshot, askedAt);
    var held := Get(ApplyAll(snapshot, Joined(w.run.said, 0, k)[m..]).transfers, n);
    i := 0;
    if held.Some? && held.value.outstandingKnown {
      var stored := Get(w.run.states[k].transfers, n);
      assert ReadingAgrees(stored, held) && stored == held;
      i := StoredWasTold(w, k, n);
      if held.value.pendingFiles == 0 { SafeInTurnsIsEarned(w.turns, held.value, w.told[i].asked); }
    }
  }

  /** The names of a consistent system's sweep are a key exactly when no foreign mounts are stacked. */
  lemma ReconciledSweepsAreDistinct(s: O.Snapshot, remoteOf: string -> Option<string>)
    requires s.Consistent() && O.Slashed(s)
    ensures DistinctNames(Views(O.Rows(s), remoteOf)) <==> O.Distinct(O.Unclaimed(s, s.live))
  {
    O.RowNamesAreAKeyExactly(s);
    var rows, views := O.Rows(s), Views(O.Rows(s), remoteOf);
    assert forall i :: 0 <= i < |rows| ==> views[i].name == rows[i].name;
  }
}
