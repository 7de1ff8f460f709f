/**
 * Mounting and unmounting one target, as a protocol: what is asked or done at each step, where each
 * answer leads, and what is guaranteed of every trace, whatever the kernel and systemd answer.
 */
module Protocol {
  import opened Base
  import C = Configs
  import O = Ownership

  datatype Outcome = Done | NotManaged | Busy | BadMountPoint | RcloneFailed | Supervision

  /** A question to a service that may fail to answer it. */
  datatype Reply<T> = NoReply | Reply(value: T)

  /** What `fusermount` made of a request; it may be refused, or not run at all. */
  datatype Release = Granted | Held | NotRun

  /** How a refused release is reported. */
  function Refused(answer: Release): Outcome { if answer.NotRun? then Supervision else Busy }

  /** One thing asked of the system, with its answer, or done to it, with whether that worked. */
  datatype Event =
    | SawMount(point: string, live: bool)
    | SawSource(point: string, source: Option<string>)
    | SawStale(point: string, stale: bool)
    | SawStatus(unit: string, status: Reply<O.UnitStatus>)
    | SawArgv(unit: string, argv: Reply<Option<string>>)
    | SawMoved(found: Reply<bool>)
    | SawOrphan(found: Reply<bool>)
    | SawSocket(unit: string, there: bool)
    | Slept
    | Prepared(pointMade: bool, runtimeMade: bool)
    | Refuse(point: string, answer: Release)
    | Detach(point: string, answer: Release)
    | Stop(unit: string, ok: bool)
    | Reset(unit: string, ok: bool)
    | Unlink(unit: string)
    | Start(unit: string, ok: bool)

  /** What an operation acts on: one unit, one point, and how hard to try. */
  datatype Job = Job(unit: string, point: string, fsSpec: string, force: bool, mounting: bool)

  // --- the protocol -------------------------------------------------------------------

  /** What a wait for the unit to leave its name leads to. */
  datatype Then = ThenClear | ThenPrepare | ThenSocket

  /** What comes next. */
  datatype Step =
    // unmounting
    | Looking
    | Asking(live: bool)
    | Identifying(status: O.UnitStatus)
    | ReadingArgv
    | Releasing(ours: bool)
    | LookingAgain(ours: bool, refusal: Release)
    | Stopping(live: bool)
    | WaitingGone
    | StillHeld
    | LookingOnce
    | ReleasingRest(ours: bool)
    | Detaching
    | WaitingReleased
    | StillListed
    | Clearing
    // both
    | WaitingFree(then_: Then)
    | StillBusy(then_: Then)
    // mounting
    | AskingMoved
    | SweepingMoved
    | LookingFirst
    | Probing
    | SweepingStale
    | ReleasingStale
    | AskingServing
    | SweepingPoint(status: O.UnitStatus)
    | Preparing
    | AskingUnit
    | CheckingSocket
    | Unlinking
    | ClearingFailure
    | Starting
    | WaitingReady
    | AskingReady
    | StillStarting
    | Ended(outcome: Outcome)

  /** Every event is about the job's own unit and point. */
  predicate Concerns(job: Job, e: Event) {
    match e
    case SawMount(p, _) => p == job.point
    case SawSource(p, _) => p == job.point
    case SawStale(p, _) => p == job.point
    case SawStatus(u, _) => u == job.unit
    case SawArgv(u, _) => u == job.unit
    case SawSocket(u, _) => u == job.unit
    case Refuse(p, _) => p == job.point
    case Detach(p, _) => p == job.point
    case Stop(u, _) => u == job.unit
    case Reset(u, _) => u == job.unit
    case Unlink(u) => u == job.unit
    case Start(u, _) => u == job.unit
    case _ => true
  }

  /** The one kind of event a step makes; where two are listed, the clock decides. */
  predicate Makes(step: Step, e: Event) {
    match step
    case Looking => e.SawMount?
    case Asking(_) => e.SawStatus?
    case Identifying(_) => e.SawSource?
    case ReadingArgv => e.SawArgv?
    case Releasing(_) => e.Refuse?
    case LookingAgain(_, _) => e.SawMount?
    case Stopping(_) => e.Stop?
    case WaitingGone => e.SawMount?
    case StillHeld => e.Slept? || e.SawMount?
    case LookingOnce => e.SawMount?
    case ReleasingRest(_) => e.Refuse?
    case Detaching => e.Detach?
    case WaitingReleased => e.SawMount?
    case StillListed => e.Slept?
    case Clearing => e.Reset?
    case WaitingFree(_) => e.SawStatus?
    case StillBusy(_) => e.Slept?
    case AskingMoved => e.SawStatus?
    case SweepingMoved => e.SawMoved?
    case LookingFirst => e.SawMount?
    case Probing => e.SawStale?
    case SweepingStale => e.SawOrphan?
    case ReleasingStale => e.Refuse?
    case AskingServing => e.SawStatus?
    case SweepingPoint(_) => e.SawOrphan?
    case Preparing => e.Prepared?
    case AskingUnit => e.SawStatus?
    case CheckingSocket => e.SawSocket?
    case Unlinking => e.Unlink?
    case ClearingFailure => e.Reset?
    case Starting => e.Start?
    case WaitingReady => e.SawMount?
    case AskingReady => e.SawStatus?
    case StillStarting => e.Slept?
    case Ended(_) => false
  }

  predicate Expected(job: Job, step: Step, e: Event) { Makes(step, e) && Concerns(job, e) }

  /** Released without a stop yet: stop what is ours, and look once more at what is not. */
  function Onward(ours: bool): Step { if ours then Stopping(true) else LookingOnce }

  /** The look after which nothing that was tried so far is left to wait for. */
  function AfterLookingOnce(ours: bool, live: bool): Step { if live then ReleasingRest(ours) else Ended(Done) }

  function AfterFree(then_: Then): Step {
    match then_ case ThenClear => Clearing case ThenPrepare => Preparing case ThenSocket => CheckingSocket
  }

  predicate AtRest(status: O.UnitStatus) { status == O.Inactive || status == O.Failed }

  function NextUnmounting(job: Job, step: Step, e: Event): Step
    requires Makes(step, e)
  {
    match step
    case Looking => Asking(e.live)
    case Asking(live) =>
      if e.status.NoReply? then Ended(Supervision)
      else if e.status.value != O.Inactive then
        if live then Identifying(e.status.value) else Stopping(false)
      else if !live then Ended(Done)
      else if job.force then Identifying(O.Inactive)
      else Ended(NotManaged)
    case Identifying(status) =>
      if e.source.None? || job.force || e.source.value == job.fsSpec then Releasing(status != O.Inactive)
      else if status.IsServing() then ReadingArgv else Ended(NotManaged)
    case ReadingArgv =>
      if e.argv.NoReply? then Ended(Supervision)
      else if e.argv.value == Some(job.point) then Releasing(true) else Ended(NotManaged)
    case Releasing(ours) => if e.answer.Granted? then Onward(ours) else LookingAgain(ours, e.answer)
    case LookingAgain(ours, refusal) =>
      if !e.live || (job.force && ours) then Onward(ours) else Ended(Refused(refusal))
    case Stopping(live) =>
      if !e.ok then Ended(Supervision) else if live then WaitingGone else WaitingFree(ThenClear)
    case WaitingGone => if e.live then StillHeld else WaitingFree(ThenClear)
    case StillHeld => if e.Slept? then WaitingGone else AfterLookingOnce(true, e.live)
    case LookingOnce => AfterLookingOnce(false, e.live)
    case ReleasingRest(ours) =>
      if e.answer.Granted? then WaitingReleased
      else if job.force && ours then Detaching else Ended(Refused(e.answer))
    case Detaching => if e.answer.Granted? then WaitingReleased else Ended(Refused(e.answer))
    case WaitingReleased => if e.live then StillListed else Clearing
    case StillListed => WaitingReleased
    case Clearing => Ended(if e.ok then Done else Supervision)
    case _ => step
  }

  function NextMounting(step: Step, e: Event): Step
    requires Makes(step, e)
  {
    match step
    case AskingMoved =>
      if e.status.NoReply? then Ended(Supervision)
      else if e.status.value == O.Deactivating then LookingFirst else SweepingMoved
    case SweepingMoved =>
      if e.found.NoReply? then Ended(Supervision) else if e.found.value then Ended(NotManaged) else LookingFirst
    case LookingFirst => if e.live then Probing else Preparing
    case Probing => if e.stale then SweepingStale else AskingServing
    case SweepingStale =>
      if e.found.NoReply? then Ended(Supervision) else if e.found.value then Ended(NotManaged) else ReleasingStale
    case ReleasingStale => if e.answer.Granted? then Preparing else Ended(Refused(e.answer))
    case AskingServing =>
      if e.status.NoReply? then Ended(Supervision)
      else if !e.status.value.IsServing() then SweepingPoint(e.status.value)
      else if e.status.value == O.Active then Ended(Done) else WaitingFree(ThenPrepare)
    case SweepingPoint(status) =>
      if e.found.NoReply? then Ended(Supervision) else if e.found.value then Ended(NotManaged)
      else if status == O.Activating then Ended(Done)
      else if status == O.Failed then Preparing else Ended(NotManaged)
    case Preparing =>
      if !e.pointMade then Ended(BadMountPoint) else if !e.runtimeMade then Ended(Supervision) else AskingUnit
    case AskingUnit =>
      if e.status.NoReply? then Ended(Supervision)
      else if e.status.value == O.Active || e.status.value == O.Activating then WaitingReady
      else if e.status.value == O.Deactivating then WaitingFree(ThenSocket) else CheckingSocket
    case CheckingSocket => if e.there then Unlinking else ClearingFailure
    case Unlinking => ClearingFailure
    case ClearingFailure => if e.ok then Starting else Ended(Supervision)
    case Starting => if e.ok then WaitingReady else Ended(Supervision)
    case WaitingReady => if e.live then Ended(Done) else AskingReady
    case AskingReady =>
      if e.status.NoReply? then Ended(Supervision)
      else if e.status.value == O.Failed then Ended(RcloneFailed) else StillStarting
    case StillStarting => WaitingReady
    case _ => step
  }

  /** Where an answer leads. */
  function Next(job: Job, step: Step, e: Event): Step
    requires Makes(step, e)
  {
    match step
    case WaitingFree(then_) =>
      if e.status.NoReply? then Ended(Supervision)
      else if AtRest(e.status.value) then AfterFree(then_) else StillBusy(then_)
    case StillBusy(then_) => WaitingFree(then_)
    case _ => if job.mounting then NextMounting(step, e) else NextUnmounting(job, step, e)
  }

  /** An operation ends where its last answer led, or where a wait runs out. */
  predicate Ends(step: Step, r: Outcome) {
    || step == Ended(r)
    || (step.StillBusy? && r == Supervision)
    || (step.StillListed? && r == Busy)
    || (step.StillStarting? && r == RcloneFailed)
  }

  // --- what has been learned and done -------------------------------------------------

  /** What looking at the mount table has shown. */
  datatype Table = Table(
    live: Option<bool>,           // the last look
    liveBefore: Option<bool>,     // the one before that
    seenGone: bool)               // some look did not list the point

  /** What has been learned of the unit. */
  datatype UnitFacts = UnitFacts(
    status: Option<O.UnitStatus>, // its last status, since it was stopped if it was
    up: bool,                     // some status had it running or starting
    ours: bool,                   // before any stop, it was seen to exist
    unmoved: bool,                // a sweep found it serving no point the entry had before
    spared: bool)                 // no such sweep was made: its first status had it stopping

  /** What has been learned of whatever is mounted at the point. */
  datatype Claim = Claim(
    sourceFits: bool,             // it is what the unit was given, or the unit's argv says so
    contested: bool,              // something suggested a unit of ours behind it, and no sweep since found none
    stale: bool,                  // it is listed and nothing serves it
    occupied: bool,               // it answered, under an inactive unit
    passed: bool)                 // it answered, under a failed unit or one that was stopping

  /** What has been done. */
  datatype Acts = Acts(asked: bool, askedAgain: bool, granted: bool, stopIssued: bool, stopped: bool,
                       detached: bool, reset: bool, unlinked: bool, started: bool)

  /** Where an operation is, and what its trace so far amounts to. */
  datatype Seen = Seen(step: Step, table: Table, unit: UnitFacts, claim: Claim, acts: Acts, last: Option<Event>)

  const NO_ACTS := Acts(false, false, false, false, false, false, false, false, false)

  function Begin(job: Job): Seen {
    Seen(if job.mounting then AskingMoved else Looking, Table(None, None, false),
         UnitFacts(None, false, false, false, false), Claim(false, false, false, false, false), NO_ACTS, None)
  }

  function NoteTable(t: Table, e: Event): Table {
    match e
    case SawMount(_, live) => Table(Some(live), t.live, t.seenGone || !live)
    case _ => t
  }

  function NoteUnit(s: Seen, e: Event): UnitFacts {
    var u := s.unit;
    match e
    case SawStatus(_, Reply(status)) =>
      UnitFacts(Some(status), u.up || status == O.Active || status == O.Activating,
                u.ours || (status != O.Inactive && !s.acts.stopIssued),
                u.unmoved, u.spared || (s.step.AskingMoved? && status == O.Deactivating))
    case SawMoved(Reply(found)) => u.(unmoved := u.unmoved || !found)
    case Stop(_, _) => u.(status := None)
    case _ => u
  }

  function NoteClaim(job: Job, s: Seen, e: Event): Claim {
    var c := s.claim;
    match e
    case SawSource(_, source) => c.(sourceFits := source.None? || source.value == job.fsSpec)
    case SawArgv(_, Reply(argv)) =>
      c.(sourceFits := c.sourceFits
                       || (argv == Some(job.point) && s.unit.status.Some? && s.unit.status.value.IsServing()))
    case SawStale(_, stale) => c.(stale := stale, contested := c.contested || stale)
    case SawStatus(_, Reply(status)) =>
      if !s.step.AskingServing? then c
      else c.(contested := c.contested || !status.IsServing(), occupied := c.occupied || status == O.Inactive,
              passed := c.passed || status == O.Failed || status == O.Deactivating)
    case SawOrphan(Reply(found)) => c.(contested := found)
    case _ => c
  }

  function NoteAct(a: Acts, e: Event): Acts {
    match e
    case Refuse(_, answer) =>
      a.(asked := true, askedAgain := a.askedAgain || a.stopIssued, granted := a.granted || answer.Granted?)
    case Detach(_, _) => a.(detached := true)
    case Stop(_, ok) => a.(stopIssued := true, stopped := a.stopped || ok)
    case Reset(_, _) => a.(reset := true)
    case Unlink(_) => a.(unlinked := true)
    case Start(_, _) => a.(started := true)
    case _ => a
  }

  function Note(job: Job, s: Seen, e: Event): Seen
    requires Makes(s.step, e)
  {
    Seen(Next(job, s.step, e), NoteTable(s.table, e), NoteUnit(s, e), NoteClaim(job, s, e),
         NoteAct(s.acts, e), Some(e))
  }

  /** A trace of the protocol, beside what it amounted to at each point. */
  ghost predicate Disciplined(job: Job, trace: seq<Event>, path: seq<Seen>) {
    && |path| == |trace| + 1 && path[0] == Begin(job)
    && forall k :: 0 <= k < |trace| ==> Allowed(job, trace, path, k)
  }

  ghost predicate Allowed(job: Job, trace: seq<Event>, path: seq<Seen>, k: nat)
    requires k < |trace| && |path| == |trace| + 1
  {
    Expected(job, path[k].step, trace[k]) && path[k + 1] == Note(job, path[k], trace[k])
  }

  lemma OneMoreEvent(job: Job, trace: seq<Event>, path: seq<Seen>, e: Event)
    requires Disciplined(job, trace, path) && Expected(job, path[|trace|].step, e)
    ensures Disciplined(job, trace + [e], path + [Note(job, path[|trace|], e)])
  {
    var longer, further := trace + [e], path + [Note(job, path[|trace|], e)];
    forall k: nat | k < |longer| ensures Allowed(job, longer, further, k) {
      if k < |trace| { assert Allowed(job, trace, path, k); }
    }
  }

  // --- the protocol leaves nothing to choose ------------------------------------------

  /** Two events that ask the same thing, or try the same thing, of the same unit and point. */
  predicate SameQuestion(e: Event, f: Event) {
    match e
    case SawMount(p, _) => f.SawMount? && f.point == p
    case SawSource(p, _) => f.SawSource? && f.point == p
    case SawStale(p, _) => f.SawStale? && f.point == p
    case SawStatus(u, _) => f.SawStatus? && f.unit == u
    case SawArgv(u, _) => f.SawArgv? && f.unit == u
    case SawMoved(_) => f.SawMoved?
    case SawOrphan(_) => f.SawOrphan?
    case SawSocket(u, _) => f.SawSocket? && f.unit == u
    case Slept => f.Slept?
    case Prepared(_, _) => f.Prepared?
    case Refuse(p, _) => f.Refuse? && f.point == p
    case Detach(p, _) => f.Detach? && f.point == p
    case Stop(u, _) => f.Stop? && f.unit == u
    case Reset(u, _) => f.Reset? && f.unit == u
    case Unlink(u) => f.Unlink? && f.unit == u
    case Start(u, _) => f.Start? && f.unit == u
  }

  lemma OneThingNext(job: Job, step: Step, e: Event, f: Event)
    requires Expected(job, step, e) && Expected(job, step, f)
    ensures SameQuestion(e, f) || (step == StillHeld && e.Slept? != f.Slept?)
  {}

  lemma {:induction false} SameTraceSamePath(job: Job, t: seq<Event>, p: seq<Seen>, u: seq<Event>, q: seq<Seen>, k: nat)
    requires Disciplined(job, t, p) && Disciplined(job, u, q)
    requires k <= |t| && k <= |u| && t[..k] == u[..k]
    ensures p[k] == q[k]
  {
    if k > 0 {
      assert t[k - 1] == t[..k][k - 1] && u[k - 1] == u[..k][k - 1];
      assert t[..k - 1] == t[..k][..k - 1] && u[..k - 1] == u[..k][..k - 1];
      SameTraceSamePath(job, t, p, u, q, k - 1);
      assert Allowed(job, t, p, k - 1) && Allowed(job, u, q, k - 1);
    }
  }

  /**
   * The protocol fixes everything but the answers and the clock. Where two of its traces part,
   * they part over an answer to one and the same question, or because one wait for a stopped
   * unit's point gave up while the other slept; and one that has ended goes no further, except
   * that a wait which ran out in one may go on sleeping in the other.
   */
  lemma OnlyAnswersDiffer(job: Job, t: seq<Event>, p: seq<Seen>, u: seq<Event>, q: seq<Seen>, k: nat)
    requires Disciplined(job, t, p) && Disciplined(job, u, q)
    requires k <= |t| && k < |u| && t[..k] == u[..k]
    ensures k < |t| ==> SameQuestion(t[k], u[k]) || (p[k].step == StillHeld && t[k].Slept? != u[k].Slept?)
    ensures forall r :: k == |t| && Ends(p[k].step, r) ==> u[k].Slept?
    ensures forall r, r' :: Ends(p[k].step, r) && Ends(p[k].step, r') ==> r == r'
  {
    SameTraceSamePath(job, t, p, u, q, k);
    assert Allowed(job, u, q, k);
    if k < |t| {
      assert Allowed(job, t, p, k);
      OneThingNext(job, p[k].step, t[k], u[k]);
    }
  }

  // --- what the protocol knows at each step -------------------------------------------

  /** The unit's name was freed last of all, with the point gone. */
  predicate Cleared(s: Seen) {
    s.table.live == Some(false) && s.last.Some? && s.last.value.Reset? && s.last.value.ok
  }

  /** The point was still held when the wait for it ran out, and gone at the very next look. */
  predicate WentBetween(s: Seen) {
    && s.table.live == Some(false) && s.table.liveBefore == Some(true)
    && s.last.Some? && s.last.value.SawMount?
  }

  /** Nothing was done to the unit or to the mount; at most the kernel was asked, and refused. */
  predicate Untouched(s: Seen) { s.acts == NO_ACTS.(asked := s.acts.asked) }

  /** What an unmount's result means. */
  predicate UnmountMeans(job: Job, s: Seen, r: Outcome) {
    && !s.acts.started && !s.acts.unlinked
    && (r == Done ==> s.table.live == Some(false))
    && (r == Done && s.unit.ours ==>
          s.acts.stopped && (s.acts.reset <==> Cleared(s)) && (s.acts.reset <==> !WentBetween(s)))
    && (r == NotManaged || (!job.force && !s.unit.ours) ==> Untouched(s))
    && (!s.unit.ours ==> !s.acts.stopIssued && !s.acts.detached)
    && (r != Done && !s.acts.stopIssued ==>
          (Untouched(s) <==> !s.acts.granted) && (s.acts.granted ==> job.force && !s.unit.ours))
  }

  /** A sweep found the unit serving no other point, unless it was read stopping to begin with. */
  predicate AskedWhetherMoved(s: Seen) { s.unit.unmoved <==> !s.unit.spared }

  /**
   * The last look lists the point, the unit was started or was up, a sweep found it serving no
   * other point unless its first status had it stopping, and every suspicion of a unit of ours
   * behind the point was swept for.
   */
  predicate Succeeded(s: Seen) {
    && s.table.live == Some(true) && (s.acts.started || s.unit.up)
    && AskedWhetherMoved(s) && !s.claim.contested && !s.claim.occupied
  }

  /** What a mount's result means. */
  predicate MountMeans(s: Seen, r: Outcome) {
    && !s.acts.stopIssued && !s.acts.detached
    && (r == Done ==> Succeeded(s))
    && (r == NotManaged ==> Untouched(s))
    && (s.claim.occupied ==> Untouched(s) && (r == NotManaged || r == Supervision))
  }

  /** What may be done, whatever the step: the rules the protocol is there to keep. */
  predicate UnmountMay(job: Job, s: Seen, e: Event) {
    match e
    case Refuse(_, _) => s.table.live == Some(true) && MayAsk(job, s)
    case Stop(_, _) =>
      && s.unit.ours && !s.acts.stopIssued && (s.acts.asked || s.table.seenGone)
      && (job.force || s.acts.granted || s.table.seenGone)
    case Detach(_, _) => job.force && s.unit.ours && s.acts.stopped && RefusedJustNow(job, s)
    case Reset(_, _) =>
      s.table.live == Some(false) && (s.acts.stopIssued && !s.acts.askedAgain ==> Rested(s))
    case Unlink(_) => false
    case Start(_, _) => false
    case _ => true
  }

  predicate MountMay(job: Job, s: Seen, e: Event) {
    match e
    case Refuse(_, _) =>
      s.table.live == Some(true) && s.claim.stale && AskedWhetherMoved(s) && !s.claim.contested && !s.acts.unlinked
    case Unlink(_) => ClearToStart(s)
    case Reset(_, _) => ClearToStart(s)
    case Start(_, _) => ClearToStart(s) && s.last == Some(Reset(job.unit, true))
    case Stop(_, _) => false
    case Detach(_, _) => false
    case _ => true
  }

  predicate May(job: Job, s: Seen, e: Event) {
    if job.mounting then MountMay(job, s, e) else UnmountMay(job, s, e)
  }

  predicate Rested(s: Seen) { s.unit.status.Some? && AtRest(s.unit.status.value) }

  predicate RefusedJustNow(job: Job, s: Seen) {
    s.last.Some? && s.last.value.Refuse? && s.last.value.point == job.point && !s.last.value.answer.Granted?
  }

  /** Under force, or of a unit that exists and a mount established to be its own. */
  predicate MayAsk(job: Job, s: Seen) { job.force || (s.claim.sourceFits && s.unit.ours) }

  predicate ClearToStart(s: Seen) { Rested(s) && InTheClear(s) && !s.acts.started }

  /** Nothing of ours is in the way, and nothing answered that is not accounted for. */
  predicate InTheClear(s: Seen) { AskedWhetherMoved(s) && !s.claim.contested && !s.claim.occupied }

  predicate OnlyAsked(s: Seen) { s.acts == NO_ACTS.(asked := s.acts.asked, granted := s.acts.granted) }

  predicate Foreign(job: Job, s: Seen) { !s.unit.ours && job.force && OnlyAsked(s) }

  predicate Stopped(s: Seen) {
    && s.unit.ours && s.acts.stopIssued && s.acts.stopped
    && !s.acts.reset && !s.acts.unlinked && !s.acts.started
  }

  predicate KnowsUnmounting(job: Job, s: Seen) {
    match s.step
    case Looking => s == Begin(job)
    case Asking(live) =>
      s.acts == NO_ACTS && s.table.live == Some(live) && (!live ==> s.table.seenGone) && !s.unit.ours
    case Identifying(status) =>
      && s.acts == NO_ACTS && s.table.live == Some(true)
      && s.unit.status == Some(status) && s.unit.ours == (status != O.Inactive) && (s.unit.ours || job.force)
    case ReadingArgv =>
      && s.acts == NO_ACTS && s.table.live == Some(true)
      && s.unit.status.Some? && s.unit.status.value.IsServing() && s.unit.ours
    case Releasing(ours) =>
      && s.acts == NO_ACTS && s.table.live == Some(true)
      && s.unit.ours == ours && MayAsk(job, s) && (ours || job.force)
    case LookingAgain(ours, refusal) =>
      && s.acts == NO_ACTS.(asked := true) && s.unit.ours == ours && MayAsk(job, s) && (ours || job.force)
    case Stopping(live) =>
      && OnlyAsked(s) && s.unit.ours && s.acts.asked == live && (s.acts.asked || s.table.seenGone)
      && (job.force || s.acts.granted || s.table.seenGone)
      && (if live then MayAsk(job, s) else s.table.live == Some(false))
    case WaitingGone => Stopped(s) && !s.acts.askedAgain && !s.acts.detached && MayAsk(job, s)
    case StillHeld =>
      Stopped(s) && !s.acts.askedAgain && !s.acts.detached && MayAsk(job, s) && s.table.live == Some(true)
    case LookingOnce => Foreign(job, s)
    case ReleasingRest(ours) =>
      && s.table.live == Some(true) && s.unit.ours == ours && MayAsk(job, s)
      && if ours then Stopped(s) && !s.acts.detached else Foreign(job, s)
    case Detaching => Stopped(s) && s.acts.askedAgain && job.force && RefusedJustNow(job, s)
    case WaitingReleased => if s.unit.ours then Stopped(s) && s.acts.askedAgain else Foreign(job, s) && s.acts.granted
    case StillListed =>
      && s.table.live == Some(true)
      && if s.unit.ours then Stopped(s) && s.acts.askedAgain else Foreign(job, s) && s.acts.granted
    case Clearing =>
      && s.table.live == Some(false)
      && if s.unit.ours then Stopped(s) && (!s.acts.askedAgain ==> Rested(s)) else Foreign(job, s) && s.acts.granted
    case WaitingFree(then_) => then_ == ThenClear && Stopped(s) && s.table.live == Some(false)
    case StillBusy(then_) => then_ == ThenClear && Stopped(s) && s.table.live == Some(false)
    case Ended(r) => UnmountMeans(job, s, r)
    case _ => false
  }

  /** The last look before a start listed the point exactly if something there was passed over. */
  predicate Accounted(s: Seen) { s.table.live == Some(true) <==> s.acts.granted || s.claim.passed }

  predicate KnowsMounting(job: Job, s: Seen) {
    match s.step
    case AskingMoved => s == Begin(job)
    case SweepingMoved =>
      && s.acts == NO_ACTS && s.claim == Begin(job).claim && s.table == Begin(job).table
      && !s.unit.unmoved && !s.unit.spared
    case LookingFirst =>
      s.acts == NO_ACTS && s.claim == Begin(job).claim && s.table == Begin(job).table && AskedWhetherMoved(s)
    case Probing =>
      s.acts == NO_ACTS && s.claim == Begin(job).claim && s.table.live == Some(true) && AskedWhetherMoved(s)
    case SweepingStale =>
      && s.acts == NO_ACTS && s.table.live == Some(true) && AskedWhetherMoved(s)
      && s.claim.stale && !s.claim.occupied && !s.claim.passed
    case ReleasingStale =>
      && s.acts == NO_ACTS && s.table.live == Some(true) && s.claim.stale && InTheClear(s) && !s.claim.passed
    case AskingServing =>
      && s.acts == NO_ACTS && s.table.live == Some(true) && InTheClear(s) && !s.claim.passed
    case SweepingPoint(status) =>
      && s.acts == NO_ACTS && s.table.live == Some(true) && AskedWhetherMoved(s)
      && s.claim.occupied == (status == O.Inactive) && s.claim.passed == (status == O.Failed)
      && (status == O.Activating ==> s.unit.up) && !status.IsServing()
    case Preparing => OnlyAsked(s) && InTheClear(s) && Accounted(s)
    case AskingUnit => OnlyAsked(s) && InTheClear(s) && Accounted(s)
    case WaitingFree(then_) => !then_.ThenClear? && OnlyAsked(s) && InTheClear(s) && Accounted(s)
    case StillBusy(then_) => !then_.ThenClear? && OnlyAsked(s) && InTheClear(s) && Accounted(s)
    case CheckingSocket => OnlyAsked(s) && ClearToStart(s) && Accounted(s)
    case Unlinking => OnlyAsked(s) && ClearToStart(s) && Accounted(s)
    case ClearingFailure => NothingStopped(s) && ClearToStart(s) && Accounted(s)
    case Starting =>
      NothingStopped(s) && ClearToStart(s) && Accounted(s) && s.last == Some(Reset(job.unit, true))
    case WaitingReady => NothingStopped(s) && InTheClear(s) && (s.acts.started || s.unit.up)
    case AskingReady => NothingStopped(s) && InTheClear(s) && (s.acts.started || s.unit.up)
    case StillStarting => NothingStopped(s) && InTheClear(s) && (s.acts.started || s.unit.up)
    case Ended(r) => MountMeans(s, r)
    case _ => false
  }

  predicate NothingStopped(s: Seen) { !s.acts.stopIssued && !s.acts.stopped && !s.acts.detached }

  predicate Knows(job: Job, s: Seen) {
    if job.mounting then KnowsMounting(job, s) else KnowsUnmounting(job, s)
  }

  /** Every event the protocol makes is one that may be made. */
  lemma UnmountingKeepsTheRules(job: Job, s: Seen, e: Event)
    requires !job.mounting && KnowsUnmounting(job, s) && Expected(job, s.step, e)
    ensures UnmountMay(job, s, e)
  {}

  lemma MountingKeepsTheRules(job: Job, s: Seen, e: Event)
    requires job.mounting && KnowsMounting(job, s) && Expected(job, s.step, e)
    ensures MountMay(job, s, e)
  {}

  /** Before anything is stopped or prepared. */
  predicate Early(step: Step) {
    || step.Looking? || step.Asking? || step.Identifying? || step.ReadingArgv?
    || step.Releasing? || step.LookingAgain?
    || step.AskingMoved? || step.SweepingMoved? || step.LookingFirst? || step.Probing?
  }

  /** A mount that found its point listed, before it prepares or gives up. */
  predicate Listed(step: Step) {
    step.SweepingStale? || step.ReleasingStale? || step.AskingServing? || step.SweepingPoint?
  }

  /** Stopping or preparing, and waiting for the unit. */
  predicate Middle(step: Step) {
    || step.Stopping? || step.WaitingGone? || step.StillHeld? || step.WaitingFree? || step.StillBusy?
    || step.Preparing? || step.AskingUnit? || step.CheckingSocket?
  }

  predicate Late(step: Step) { !Early(step) && !Listed(step) && !Middle(step) }

  lemma EarlyUnmountingKnows(job: Job, s: Seen, e: Event)
    requires !job.mounting && Early(s.step) && KnowsUnmounting(job, s) && Expected(job, s.step, e)
    ensures KnowsUnmounting(job, Note(job, s, e))
  {}

  lemma MiddleUnmountingKnows(job: Job, s: Seen, e: Event)
    requires !job.mounting && Middle(s.step) && KnowsUnmounting(job, s) && Expected(job, s.step, e)
    ensures KnowsUnmounting(job, Note(job, s, e))
  {}

  lemma LateUnmountingKnows(job: Job, s: Seen, e: Event)
    requires !job.mounting && Late(s.step) && KnowsUnmounting(job, s) && Expected(job, s.step, e)
    ensures KnowsUnmounting(job, Note(job, s, e))
  {}

  lemma EarlyMountingKnows(job: Job, s: Seen, e: Event)
    requires job.mounting && Early(s.step) && KnowsMounting(job, s) && Expected(job, s.step, e)
    ensures KnowsMounting(job, Note(job, s, e))
  {}

  lemma ListedMountingKnows(job: Job, s: Seen, e: Event)
    requires job.mounting && Listed(s.step) && KnowsMounting(job, s) && Expected(job, s.step, e)
    ensures KnowsMounting(job, Note(job, s, e))
  {}

  lemma MiddleMountingKnows(job: Job, s: Seen, e: Event)
    requires job.mounting && Middle(s.step) && KnowsMounting(job, s) && Expected(job, s.step, e)
    ensures KnowsMounting(job, Note(job, s, e))
  {}

  lemma LateMountingKnows(job: Job, s: Seen, e: Event)
    requires job.mounting && Late(s.step) && KnowsMounting(job, s) && Expected(job, s.step, e)
    ensures KnowsMounting(job, Note(job, s, e))
  {}

  /** What is known at a step is kept, or made good, by whatever comes next. */
  lemma StepsKeepWhatIsKnown(job: Job, s: Seen, e: Event)
    requires Knows(job, s) && Expected(job, s.step, e)
    ensures May(job, s, e) && Knows(job, Note(job, s, e))
  {
    if job.mounting {
      MountingKeepsTheRules(job, s, e);
      if Early(s.step) {
        EarlyMountingKnows(job, s, e);
      } else if Listed(s.step) {
        ListedMountingKnows(job, s, e);
      } else if Middle(s.step) {
        MiddleMountingKnows(job, s, e);
      } else {
        LateMountingKnows(job, s, e);
      }
    } else {
      UnmountingKeepsTheRules(job, s, e);
      if Early(s.step) {
        EarlyUnmountingKnows(job, s, e);
      } else if Middle(s.step) {
        MiddleUnmountingKnows(job, s, e);
      } else {
        LateUnmountingKnows(job, s, e);
      }
    }
  }

  lemma {:induction false} KnowsAlways(job: Job, trace: seq<Event>, path: seq<Seen>, k: nat)
    requires Disciplined(job, trace, path) && k <= |trace|
    ensures Knows(job, path[k])
  {
    if k > 0 {
      KnowsAlways(job, trace, path, k - 1);
      assert Allowed(job, trace, path, k - 1);
      StepsKeepWhatIsKnown(job, path[k - 1], trace[k - 1]);
    }
  }

  lemma UnmountEnds(job: Job, trace: seq<Event>, path: seq<Seen>, r: Outcome)
    requires Disciplined(job, trace, path) && !job.mounting && Ends(path[|trace|].step, r)
    ensures UnmountMeans(job, path[|trace|], r)
  {
    KnowsAlways(job, trace, path, |trace|);
  }

  lemma MountEnds(job: Job, trace: seq<Event>, path: seq<Seen>, r: Outcome)
    requires Disciplined(job, trace, path) && job.mounting && Ends(path[|trace|].step, r)
    ensures MountMeans(path[|trace|], r)
  {
    KnowsAlways(job, trace, path, |trace|);
  }

  // --- what the summary says of the trace ---------------------------------------------

  /** The last look before `k` answered this. */
  ghost predicate LastLook(job: Job, trace: seq<Event>, k: nat, live: bool)
    requires k <= |trace|
  {
    exists i :: 0 <= i < k && trace[i] == SawMount(job.point, live) && NoLookIn(trace, i + 1, k)
  }

  ghost predicate NoLookIn(trace: seq<Event>, from: nat, to: nat)
    requires to <= |trace|
  {
    forall m :: from <= m < to ==> !trace[m].SawMount?
  }

  /** The last status before `k` was this, and no stop came since. */
  ghost predicate LastStatus(job: Job, trace: seq<Event>, k: nat, status: O.UnitStatus)
    requires k <= |trace|
  {
    exists i :: 0 <= i < k && trace[i] == SawStatus(job.unit, Reply(status)) && NoStatusIn(trace, i + 1, k)
  }

  predicate TellsStatus(e: Event) { e.SawStatus? && e.status.Reply? }

  ghost predicate NoStatusIn(trace: seq<Event>, from: nat, to: nat)
    requires to <= |trace|
  {
    forall m :: from <= m < to ==> !TellsStatus(trace[m]) && !trace[m].Stop?
  }

  /** Some event before `k`. */
  ghost predicate Before(trace: seq<Event>, k: nat, e: Event)
    requires k <= |trace|
  {
    exists i :: 0 <= i < k && trace[i] == e
  }

  /** The kernel was asked for the point between two places, whatever it answered. */
  ghost predicate AskedIn(trace: seq<Event>, from: nat, to: nat)
    requires to <= |trace|
  {
    exists i :: from <= i < to && trace[i].Refuse?
  }

  ghost predicate AskedAfterAStop(trace: seq<Event>, k: nat)
    requires k <= |trace|
  {
    exists j :: 0 <= j < k && trace[j].Stop? && AskedIn(trace, j + 1, k)
  }

  /** The unit was seen to exist before `k`, and before any stop. */
  ghost predicate SeenOurs(job: Job, trace: seq<Event>, k: nat)
    requires k <= |trace|
  {
    exists i :: 0 <= i < k && OursAt(job, trace, i)
  }

  ghost predicate OursAt(job: Job, trace: seq<Event>, i: nat)
    requires i < |trace|
  {
    && TellsStatus(trace[i]) && trace[i].unit == job.unit && trace[i].status.value != O.Inactive
    && forall m :: 0 <= m < i ==> !trace[m].Stop?
  }

  /** The mount was seen to be what the unit was given, or the unit's argv to name the point. */
  ghost predicate SeenFitting(job: Job, trace: seq<Event>, k: nat)
    requires k <= |trace|
  {
    || Before(trace, k, SawSource(job.point, None)) || Before(trace, k, SawSource(job.point, Some(job.fsSpec)))
    || Before(trace, k, SawArgv(job.unit, Reply(Some(job.point))))
  }

  lemma {:induction false} LiveIsTheLastLook(job: Job, trace: seq<Event>, path: seq<Seen>, k: nat)
    requires Disciplined(job, trace, path) && k <= |trace|
    ensures match path[k].table.live
      case Some(live) => LastLook(job, trace, k, live)
      case None => NoLookIn(trace, 0, k)
  {
    if k > 0 {
      LiveIsTheLastLook(job, trace, path, k - 1);
      assert Allowed(job, trace, path, k - 1);
      if !trace[k - 1].SawMount? && path[k].table.live.Some? {
        LookStands(job, trace, k - 1, path[k].table.live.value);
      } else if trace[k - 1].SawMount? {
        assert NoLookIn(trace, k - 1 + 1, k);
      }
    }
  }

  lemma LookStands(job: Job, trace: seq<Event>, k: nat, live: bool)
    requires k < |trace| && LastLook(job, trace, k, live) && !trace[k].SawMount?
    ensures LastLook(job, trace, k + 1, live)
  {
    var i :| 0 <= i < k && trace[i] == SawMount(job.point, live) && NoLookIn(trace, i + 1, k);
    assert NoLookIn(trace, i + 1, k + 1);
  }

  /** The last look gave one answer, if there was one. */
  lemma LastLookIsOne(job: Job, trace: seq<Event>, k: nat, live: bool)
    requires k <= |trace| && LastLook(job, trace, k, live)
    ensures !LastLook(job, trace, k, !live)
  {
    var i :| 0 <= i < k && trace[i] == SawMount(job.point, live) && NoLookIn(trace, i + 1, k);
    forall j | 0 <= j < k && trace[j] == SawMount(job.point, !live) ensures !NoLookIn(trace, j + 1, k) {
      assert trace[i].SawMount?;
    }
  }

  lemma {:induction false} StatusIsTheLastRead(job: Job, trace: seq<Event>, path: seq<Seen>, k: nat)
    requires Disciplined(job, trace, path) && k <= |trace|
    ensures path[k].unit.status.Some? ==> LastStatus(job, trace, k, path[k].unit.status.value)
  {
    if k > 0 {
      StatusIsTheLastRead(job, trace, path, k - 1);
      assert Allowed(job, trace, path, k - 1);
      if TellsStatus(trace[k - 1]) {
        assert NoStatusIn(trace, k - 1 + 1, k);
      } else if path[k].unit.status.Some? {
        StatusStands(job, trace, k - 1, path[k].unit.status.value);
      }
    }
  }

  lemma StatusStands(job: Job, trace: seq<Event>, k: nat, status: O.UnitStatus)
    requires k < |trace| && LastStatus(job, trace, k, status) && !TellsStatus(trace[k]) && !trace[k].Stop?
    ensures LastStatus(job, trace, k + 1, status)
  {
    var i :| 0 <= i < k && trace[i] == SawStatus(job.unit, Reply(status)) && NoStatusIn(trace, i + 1, k);
    assert NoStatusIn(trace, i + 1, k + 1);
  }

  lemma {:induction false} AskingHappened(job: Job, trace: seq<Event>, path: seq<Seen>, k: nat)
    requires Disciplined(job, trace, path) && k <= |trace|
    ensures path[k].acts.asked <==> AskedIn(trace, 0, k)
    ensures path[k].acts.stopIssued ==> exists j :: 0 <= j < k && trace[j].Stop?
    ensures path[k].acts.askedAgain ==> AskedAfterAStop(trace, k)
  {
    if k > 0 {
      AskingHappened(job, trace, path, k - 1);
      assert Allowed(job, trace, path, k - 1);
      if path[k].acts.asked && path[k - 1].acts.asked {
        var i :| 0 <= i < k - 1 && trace[i].Refuse?;
        assert AskedIn(trace, 0, k);
      }
      if path[k - 1].acts.askedAgain {
        AskingStands(trace, k - 1);
      } else if path[k].acts.askedAgain {
        var j :| 0 <= j < k - 1 && trace[j].Stop?;
        AskedJustNow(trace, j, k - 1);
      }
    }
  }

  lemma AskingStands(trace: seq<Event>, k: nat)
    requires k < |trace| && AskedAfterAStop(trace, k)
    ensures AskedAfterAStop(trace, k + 1)
  {
    var j :| 0 <= j < k && trace[j].Stop? && AskedIn(trace, j + 1, k);
    var i :| j + 1 <= i < k && trace[i].Refuse?;
    assert AskedIn(trace, j + 1, k + 1);
  }

  lemma AskedJustNow(trace: seq<Event>, j: nat, k: nat)
    requires j < k < |trace| && trace[j].Stop? && trace[k].Refuse?
    ensures AskedAfterAStop(trace, k + 1)
  {
    assert AskedIn(trace, j + 1, k + 1);
  }

  lemma {:induction false} ActsHappened(job: Job, trace: seq<Event>, path: seq<Seen>, k: nat)
    requires Disciplined(job, trace, path) && k <= |trace|
    ensures path[k].acts.granted <==> Before(trace, k, Refuse(job.point, Granted))
    ensures path[k].acts.stopped ==> Before(trace, k, Stop(job.unit, true))
    ensures path[k].table.seenGone ==> Before(trace, k, SawMount(job.point, false))
  {
    if k > 0 {
      ActsHappened(job, trace, path, k - 1);
      assert Allowed(job, trace, path, k - 1);
    }
  }

  lemma {:induction false} FittingWasSeen(job: Job, trace: seq<Event>, path: seq<Seen>, k: nat)
    requires Disciplined(job, trace, path) && k <= |trace|
    ensures path[k].claim.sourceFits ==> SeenFitting(job, trace, k)
  {
    if k > 0 {
      FittingWasSeen(job, trace, path, k - 1);
      FittingJustNow(job, trace, path, k - 1);
    }
  }

  lemma FittingJustNow(job: Job, trace: seq<Event>, path: seq<Seen>, k: nat)
    requires Disciplined(job, trace, path) && k < |trace|
    ensures path[k + 1].claim.sourceFits ==>
      || path[k].claim.sourceFits
      || trace[k] == SawSource(job.point, None) || trace[k] == SawSource(job.point, Some(job.fsSpec))
      || trace[k] == SawArgv(job.unit, Reply(Some(job.point)))
  {
    assert Allowed(job, trace, path, k);
  }

  lemma {:induction false} OursWasSeenFirst(job: Job, trace: seq<Event>, path: seq<Seen>, k: nat)
    requires Disciplined(job, trace, path) && k <= |trace|
    ensures !path[k].acts.stopIssued ==> forall m :: 0 <= m < k ==> !trace[m].Stop?
    ensures path[k].unit.ours ==> SeenOurs(job, trace, k)
  {
    if k > 0 {
      OursWasSeenFirst(job, trace, path, k - 1);
      assert Allowed(job, trace, path, k - 1);
      if path[k].unit.ours && !path[k - 1].unit.ours { assert OursAt(job, trace, k - 1); }
    }
  }

  // --- what the protocol guarantees ---------------------------------------------------

  lemma MayBeMade(job: Job, trace: seq<Event>, path: seq<Seen>, k: nat)
    requires Disciplined(job, trace, path) && k < |trace|
    ensures May(job, path[k], trace[k]) && Concerns(job, trace[k])
  {
    KnowsAlways(job, trace, path, k);
    assert Allowed(job, trace, path, k);
    StepsKeepWhatIsKnown(job, path[k], trace[k]);
  }

  /**
   * A detach happens only under force, only right after the kernel refused, and only once the
   * unit, seen to exist before anything was stopped, has itself been stopped.
   */
  lemma DetachFollowsItsStop(job: Job, trace: seq<Event>, path: seq<Seen>, k: nat)
    requires Disciplined(job, trace, path) && k < |trace| && trace[k].Detach?
    ensures job.force && !job.mounting && trace[k].point == job.point
    ensures k > 0 && trace[k - 1].Refuse? && trace[k - 1].point == job.point && !trace[k - 1].answer.Granted?
    ensures Before(trace, k, Stop(job.unit, true)) && SeenOurs(job, trace, k)
  {
    MayBeMade(job, trace, path, k);
    ActsHappened(job, trace, path, k);
    OursWasSeenFirst(job, trace, path, k);
    if k > 0 { assert Allowed(job, trace, path, k - 1); }
  }

  /**
   * A unit is stopped at most once, only by an unmount that saw it exist, and only after the
   * kernel was asked for the point or the point was seen gone; without force, only after the
   * kernel gave it back or it was seen gone.
   */
  lemma StopHasTheKernelsLeave(job: Job, trace: seq<Event>, path: seq<Seen>, k: nat)
    requires Disciplined(job, trace, path) && k < |trace| && trace[k].Stop?
    ensures !job.mounting && trace[k].unit == job.unit && SeenOurs(job, trace, k)
    ensures forall m :: 0 <= m < k ==> !trace[m].Stop?
    ensures AskedIn(trace, 0, k) || Before(trace, k, SawMount(job.point, false))
    ensures job.force || Before(trace, k, Refuse(job.point, Granted)) || Before(trace, k, SawMount(job.point, false))
  {
    MayBeMade(job, trace, path, k);
    AskingHappened(job, trace, path, k);
    ActsHappened(job, trace, path, k);
    OursWasSeenFirst(job, trace, path, k);
  }

  /**
   * The kernel is asked for a point only when the last look listed it; by an unmount without
   * force, only for a unit that exists and a mount that is established to be its own.
   */
  lemma ReleaseIsOfOurOwn(job: Job, trace: seq<Event>, path: seq<Seen>, k: nat)
    requires Disciplined(job, trace, path) && k < |trace| && trace[k].Refuse?
    ensures trace[k].point == job.point && LastLook(job, trace, k, true)
    ensures !job.mounting && !job.force ==> SeenOurs(job, trace, k) && SeenFitting(job, trace, k)
  {
    MayBeMade(job, trace, path, k);
    LiveIsTheLastLook(job, trace, path, k);
    FittingWasSeen(job, trace, path, k);
    OursWasSeenFirst(job, trace, path, k);
  }

  /**
   * An unmount clears a unit's failure only when the last look found the point gone, and after a
   * stop only once the unit has been seen at rest since, or the point had to be asked for again.
   * A mount clears one only with the unit last read at rest.
   */
  lemma ResetFollowsTheRelease(job: Job, trace: seq<Event>, path: seq<Seen>, k: nat)
    requires Disciplined(job, trace, path) && k < |trace| && trace[k].Reset?
    ensures !job.mounting ==> LastLook(job, trace, k, false)
    ensures job.mounting || (exists j :: 0 <= j < k && trace[j].Stop?) ==>
      AskedAfterAStop(trace, k) || LastStatus(job, trace, k, O.Inactive) || LastStatus(job, trace, k, O.Failed)
  {
    MayBeMade(job, trace, path, k);
    LiveIsTheLastLook(job, trace, path, k);
    StatusIsTheLastRead(job, trace, path, k);
    OursWasSeenFirst(job, trace, path, k);
    AskingHappened(job, trace, path, k);
  }

  /** A start comes right after a reset that worked, with the unit last read at rest. */
  lemma StartFollowsAReset(job: Job, trace: seq<Event>, path: seq<Seen>, k: nat)
    requires Disciplined(job, trace, path) && k < |trace| && trace[k].Start?
    ensures job.mounting && trace[k].unit == job.unit && k > 0 && trace[k - 1] == Reset(job.unit, true)
    ensures LastStatus(job, trace, k, O.Inactive) || LastStatus(job, trace, k, O.Failed)
  {
    MayBeMade(job, trace, path, k);
    StatusIsTheLastRead(job, trace, path, k);
    if k > 0 { assert Allowed(job, trace, path, k - 1); }
  }

  /** The rc socket is removed only on the way to a start, with the unit last read at rest. */
  lemma UnlinkOnlyAtRest(job: Job, trace: seq<Event>, path: seq<Seen>, k: nat)
    requires Disciplined(job, trace, path) && k < |trace| && trace[k].Unlink?
    ensures job.mounting && (LastStatus(job, trace, k, O.Inactive) || LastStatus(job, trace, k, O.Failed))
  {
    MayBeMade(job, trace, path, k);
    StatusIsTheLastRead(job, trace, path, k);
  }

  /** Something of ours may be behind the point: it is stale, or answers under a unit not serving. */
  ghost predicate Suspect(job: Job, trace: seq<Event>, j: nat)
    requires j < |trace|
  {
    || trace[j] == SawStale(job.point, true)
    || (j > 0 && trace[j - 1] == SawStale(job.point, false)
        && TellsStatus(trace[j]) && !trace[j].status.value.IsServing())
  }

  lemma {:induction false} SuspicionsAreSwept(job: Job, trace: seq<Event>, path: seq<Seen>, j: nat, k: nat)
    requires Disciplined(job, trace, path) && j < k <= |trace| && Suspect(job, trace, j)
    ensures path[k].claim.contested || exists m :: j < m < k && trace[m] == SawOrphan(Reply(false))
  {
    assert Allowed(job, trace, path, k - 1);
    if j + 1 < k {
      SuspicionsAreSwept(job, trace, path, j, k - 1);
    } else if j > 0 {
      ProbedMeansAsking(job, trace, path, j - 1);
    }
  }

  /** Only a mount probes, and a point that answers makes it ask for the status next. */
  lemma ProbedMeansAsking(job: Job, trace: seq<Event>, path: seq<Seen>, j: nat)
    requires Disciplined(job, trace, path) && j < |trace|
    ensures trace[j] == SawStale(job.point, false) ==> job.mounting && path[j + 1].step == AskingServing
    ensures path[j + 1].step == AskingServing ==> trace[j] == SawStale(job.point, false)
  {
    KnowsAlways(job, trace, path, j);
    assert Allowed(job, trace, path, j);
  }

  predicate StoppingAtFirst(job: Job, trace: seq<Event>) {
    trace != [] && trace[0] == SawStatus(job.unit, Reply(O.Deactivating))
  }

  /** Only the first event can be the one that decides about that sweep. */
  lemma OnlyFirstIsItAsked(job: Job, trace: seq<Event>, path: seq<Seen>, k: nat)
    requires Disciplined(job, trace, path) && 0 < k <= |trace|
    ensures path[k].step != AskingMoved
  {
    KnowsAlways(job, trace, path, k);
    assert Allowed(job, trace, path, k - 1);
    assert path[k].last == Some(trace[k - 1]);
  }

  lemma {:induction false} SparedIsStoppingAtFirst(job: Job, trace: seq<Event>, path: seq<Seen>, k: nat)
    requires Disciplined(job, trace, path) && job.mounting && 0 < k <= |trace|
    ensures path[k].unit.spared <==> StoppingAtFirst(job, trace)
  {
    assert Allowed(job, trace, path, k - 1);
    if k > 1 {
      SparedIsStoppingAtFirst(job, trace, path, k - 1);
      OnlyFirstIsItAsked(job, trace, path, k - 1);
    }
  }

  lemma {:induction false} UnmovedWasSeen(job: Job, trace: seq<Event>, path: seq<Seen>, k: nat)
    requires Disciplined(job, trace, path) && k <= |trace|
    ensures path[k].unit.unmoved <==> Before(trace, k, SawMoved(Reply(false)))
  {
    if k > 0 {
      UnmovedWasSeen(job, trace, path, k - 1);
      assert Allowed(job, trace, path, k - 1);
    }
  }

  lemma SuspicionsAreAllSwept(job: Job, trace: seq<Event>, path: seq<Seen>, k: nat)
    requires Disciplined(job, trace, path) && k <= |trace| && !path[k].claim.contested
    ensures forall j: nat :: j < k && Suspect(job, trace, j) ==>
      exists m :: j < m < k && trace[m] == SawOrphan(Reply(false))
  {
    forall j: nat | j < k && Suspect(job, trace, j)
      ensures exists m :: j < m < k && trace[m] == SawOrphan(Reply(false))
    {
      SuspicionsAreSwept(job, trace, path, j, k);
    }
  }

  /**
   * What a mount has checked for by the time it starts its unit or gives a stale point back. That
   * the entry's own unit serves no other point: exactly when its first status did not have it
   * stopping. That no unit of ours is behind the point: each suspicion was followed by a sweep
   * that found none.
   */
  lemma MountChecksForOurOwn(job: Job, trace: seq<Event>, path: seq<Seen>, k: nat)
    requires Disciplined(job, trace, path) && k < |trace|
    requires trace[k].Start? || (job.mounting && trace[k].Refuse?)
    ensures Before(trace, k, SawMoved(Reply(false))) <==> !StoppingAtFirst(job, trace)
    ensures forall j: nat :: j < k && Suspect(job, trace, j) ==>
      exists m :: j < m < k && trace[m] == SawOrphan(Reply(false))
  {
    MayBeMade(job, trace, path, k);
    KnowsAlways(job, trace, path, k);
    assert Allowed(job, trace, path, k);
    UnmovedWasSeen(job, trace, path, k);
    if k > 0 { SparedIsStoppingAtFirst(job, trace, path, k); }
    SuspicionsAreAllSwept(job, trace, path, k);
  }

  /** A sweep found the unit serving no other point, or the unit was started for this one. */
  ghost predicate KnownToServeHere(job: Job, trace: seq<Event>) {
    Before(trace, |trace|, SawMoved(Reply(false))) || Before(trace, |trace|, Start(job.unit, true))
  }

  /**
   * And what by the time it succeeds: that its unit serves no other point, exactly when the unit's
   * first status did not have it stopping or the unit was started after all.
   */
  lemma SuccessIsSweptForExactly(job: Job, trace: seq<Event>, path: seq<Seen>)
    requires Disciplined(job, trace, path) && job.mounting && Ends(path[|trace|].step, Done)
    ensures Before(trace, |trace|, SawMoved(Reply(false))) <==> !StoppingAtFirst(job, trace)
    ensures KnownToServeHere(job, trace) <==>
      !StoppingAtFirst(job, trace) || Before(trace, |trace|, Start(job.unit, true))
    ensures forall j: nat :: j < |trace| && Suspect(job, trace, j) ==>
      exists m :: j < m < |trace| && trace[m] == SawOrphan(Reply(false))
  {
    MountEnds(job, trace, path, Done);
    UnmovedWasSeen(job, trace, path, |trace|);
    if trace != [] { SparedIsStoppingAtFirst(job, trace, path, |trace|); }
    SuspicionsAreAllSwept(job, trace, path, |trace|);
  }

  /** The point answered, and the unit was then read to be in one of these states. */
  ghost predicate AnsweredUnder(job: Job, trace: seq<Event>, k: nat, status: O.UnitStatus)
    requires k <= |trace|
  {
    exists j :: 0 <= j && j + 1 < k && trace[j] == SawStale(job.point, false)
                && trace[j + 1] == SawStatus(job.unit, Reply(status))
  }

  ghost predicate JustAnswered(job: Job, trace: seq<Event>, k: nat, status: O.UnitStatus)
    requires k < |trace|
  {
    k > 0 && trace[k - 1] == SawStale(job.point, false) && trace[k] == SawStatus(job.unit, Reply(status))
  }

  lemma AnswerIsNoted(job: Job, trace: seq<Event>, path: seq<Seen>, k: nat)
    requires Disciplined(job, trace, path) && k < |trace|
    ensures path[k + 1].claim.occupied <==> path[k].claim.occupied || JustAnswered(job, trace, k, O.Inactive)
    ensures path[k + 1].claim.passed <==>
      path[k].claim.passed || JustAnswered(job, trace, k, O.Failed) || JustAnswered(job, trace, k, O.Deactivating)
  {
    assert Allowed(job, trace, path, k);
    if k > 0 { ProbedMeansAsking(job, trace, path, k - 1); }
  }

  lemma {:induction false} AnswersAreNoted(job: Job, trace: seq<Event>, path: seq<Seen>, k: nat)
    requires Disciplined(job, trace, path) && k <= |trace|
    ensures path[k].claim.occupied <==> AnsweredUnder(job, trace, k, O.Inactive)
    ensures path[k].claim.passed <==>
      AnsweredUnder(job, trace, k, O.Failed) || AnsweredUnder(job, trace, k, O.Deactivating)
  {
    if k > 0 {
      AnswersAreNoted(job, trace, path, k - 1);
      AnswerIsNoted(job, trace, path, k - 1);
      AnsweredOneLater(job, trace, k - 1, O.Inactive);
      AnsweredOneLater(job, trace, k - 1, O.Failed);
      AnsweredOneLater(job, trace, k - 1, O.Deactivating);
    }
  }

  lemma AnsweredOneLater(job: Job, trace: seq<Event>, k: nat, status: O.UnitStatus)
    requires k < |trace|
    ensures AnsweredUnder(job, trace, k + 1, status) <==>
      AnsweredUnder(job, trace, k, status) || JustAnswered(job, trace, k, status)
  {
    if JustAnswered(job, trace, k, status) {
      var j := k - 1;
      assert trace[j] == SawStale(job.point, false) && trace[j + 1] == SawStatus(job.unit, Reply(status));
    }
  }

  /** Once a point answers under an inactive unit, nothing is reset, unlinked or started. */
  lemma NothingStartsOverAForeignMount(job: Job, trace: seq<Event>, path: seq<Seen>, k: nat)
    requires Disciplined(job, trace, path) && job.mounting && k < |trace|
    requires AnsweredUnder(job, trace, k, O.Inactive)
    ensures !trace[k].Start? && !trace[k].Reset? && !trace[k].Unlink?
  {
    AnswersAreNoted(job, trace, path, k);
    MayBeMade(job, trace, path, k);
  }

  /**
   * When, exactly, a start happens with the point still listed by the last look: when the kernel
   * gave a stale point back, or the point answered under a unit that had failed or was stopping.
   */
  lemma StartsOverAListedPointExactly(job: Job, trace: seq<Event>, path: seq<Seen>, k: nat)
    requires Disciplined(job, trace, path) && k < |trace| && trace[k].Start?
    ensures LastLook(job, trace, k, true) <==>
      || Before(trace, k, Refuse(job.point, Granted))
      || AnsweredUnder(job, trace, k, O.Failed) || AnsweredUnder(job, trace, k, O.Deactivating)
  {
    MayBeMade(job, trace, path, k);
    KnowsAlways(job, trace, path, k);
    assert Allowed(job, trace, path, k);
    LiveIsTheLastLook(job, trace, path, k);
    if path[k].table.live.Some? { LastLookIsOne(job, trace, k, path[k].table.live.value); }
    ActsHappened(job, trace, path, k);
    AnswersAreNoted(job, trace, path, k);
  }

  // --- asking for the point that is served --------------------------------------------

  /** What an unmount of this target is. */
  function JobOf(t: O.Target, force: bool): Job { Job(t.unit, t.point, t.fsSpec, force, false) }

  /** How the steps before a stop depend on the first look. */
  predicate FromFirstLook(step: Step, live: bool) {
    match step
    case Asking(l) => l == live
    case Identifying(_) => live
    case ReadingArgv => live
    case Releasing(_) => live
    case LookingAgain(_, _) => live
    case Stopping(l) => l == live
    case Looking => false
    case _ => true
  }

  lemma {:induction false} FirstLookDecides(job: Job, trace: seq<Event>, path: seq<Seen>, k: nat)
    requires Disciplined(job, trace, path) && !job.mounting && 0 < k <= |trace|
    ensures trace[0].SawMount? && trace[0].point == job.point && FromFirstLook(path[k].step, trace[0].live)
  {
    assert Allowed(job, trace, path, k - 1);
    KnowsAlways(job, trace, path, k - 1);
    if k > 1 { FirstLookDecides(job, trace, path, k - 1); }
  }

  /** A stop was preceded by a request for the point exactly when the first look listed it. */
  lemma StopsUnaskedExactly(job: Job, trace: seq<Event>, path: seq<Seen>, k: nat)
    requires Disciplined(job, trace, path) && k < |trace| && trace[k].Stop?
    ensures k > 0 && trace[0].SawMount? && trace[0].point == job.point
    ensures AskedIn(trace, 0, k) <==> trace[0].live
  {
    MayBeMade(job, trace, path, k);
    KnowsAlways(job, trace, path, k);
    assert Allowed(job, trace, path, k);
    AskingHappened(job, trace, path, k);
    if k > 0 { FirstLookDecides(job, trace, path, k); }
  }

  ghost predicate AskedFor(trace: seq<Event>, k: nat, point: string)
    requires k <= |trace|
  {
    exists i :: 0 <= i < k && trace[i].Refuse? && trace[i].point == point
  }

  lemma OnlyTheJobsPointIsAskedFor(job: Job, trace: seq<Event>, path: seq<Seen>, k: nat, point: string)
    requires Disciplined(job, trace, path) && k <= |trace|
    ensures AskedFor(trace, k, point) <==> point == job.point && AskedIn(trace, 0, k)
  {
    if i :| 0 <= i < k && trace[i].Refuse? {
      assert Allowed(job, trace, path, i);
      assert AskedIn(trace, 0, k);
    }
    forall i: nat | i < k && trace[i].Refuse? ensures trace[i].point == job.point {
      assert Allowed(job, trace, path, i);
    }
  }

  /**
   * When, exactly, the kernel was asked for the point a unit serves before the unit is stopped.
   * An entry's unit is serving a live point; its unmount looks first, and finds its target's point
   * as the system showed it. By the time it stops the unit it has asked for the served point if and
   * only if that is the entry's own, or no configured unit is taken to hold it.
   */
  lemma ServedPointIsAskedForExactly(s: O.Snapshot, m: C.ConfigMount, u: O.LoadedUnit, point: string,
                                     force: bool, trace: seq<Event>, path: seq<Seen>, k: nat)
    requires s.Consistent() && m in s.config && u.name == m.UnitName() && O.ServesLive(s, u, point)
    requires O.UnmountTarget(s, m.name).Some?
    requires var job := JobOf(O.UnmountTarget(s, m.name).value, force);
      && Disciplined(job, trace, path) && k < |trace| && trace[k].Stop?
      && trace[0] == SawMount(job.point, s.Live(job.point))
    ensures AskedFor(trace, k, point) <==> point == s.At(m) || !s.ConfiguredUnitHolds(point)
  {
    var job := JobOf(O.UnmountTarget(s, m.name).value, force);
    O.UnmountActsOnTheServedPointExactly(s, m, u, point);
    StopsUnaskedExactly(job, trace, path, k);
    OnlyTheJobsPointIsAskedFor(job, trace, path, k, point);
  }

  // --- the exceptions are real --------------------------------------------------------

  /** Some trace of the protocol leads here. */
  ghost predicate Reachable(job: Job, s: Seen) {
    exists trace, path :: Disciplined(job, trace, path) && path[|trace|] == s
  }

  lemma BeginIsReachable(job: Job)
    ensures Reachable(job, Begin(job))
  {
    assert Disciplined(job, [], [Begin(job)]);
  }

  lemma Reaches(job: Job, s: Seen, e: Event) returns (next: Seen)
    requires Reachable(job, s) && Expected(job, s.step, e)
    ensures next == Note(job, s, e) && Reachable(job, next)
  {
    var trace, path :| Disciplined(job, trace, path) && path[|trace|] == s;
    OneMoreEvent(job, trace, path, e);
    next := Note(job, s, e);
    assert (path + [next])[|trace + [e]|] == next;
  }

  /** Any unmount can succeed and leave the unit uncleared: the point goes between two looks. */
  lemma SuccessCanLeaveTheUnit(job: Job) returns (s: Seen)
    requires !job.mounting
    ensures Reachable(job, s) && Ends(s.step, Done) && s.unit.ours && s.acts.stopped && !s.acts.reset
  {
    BeginIsReachable(job);
    s := Reaches(job, Begin(job), SawMount(job.point, true));
    s := Reaches(job, s, SawStatus(job.unit, Reply(O.Active)));
    s := Reaches(job, s, SawSource(job.point, Some(job.fsSpec)));
    s := Reaches(job, s, Refuse(job.point, Granted));
    s := Reaches(job, s, Stop(job.unit, true));
    s := Reaches(job, s, SawMount(job.point, true));
    s := Reaches(job, s, SawMount(job.point, false));
  }

  /** For any forced unmount there is a run that fails, stops nothing, and has had the point given back. */
  lemma FailureCanFollowAGrant(job: Job) returns (s: Seen)
    requires !job.mounting && job.force
    ensures Reachable(job, s) && Ends(s.step, Busy) && !s.acts.stopIssued && s.acts.granted
  {
    BeginIsReachable(job);
    s := Reaches(job, Begin(job), SawMount(job.point, true));
    s := Reaches(job, s, SawStatus(job.unit, Reply(O.Inactive)));
    s := Reaches(job, s, SawSource(job.point, Some(job.fsSpec)));
    s := Reaches(job, s, Refuse(job.point, Granted));
    s := Reaches(job, s, SawMount(job.point, true));
    s := Reaches(job, s, Refuse(job.point, Held));
  }

  lemma PassesOverAFailedUnit(job: Job) returns (s: Seen)
    requires job.mounting
    ensures Reachable(job, s) && s.step == CheckingSocket && s.acts == NO_ACTS
    ensures s.table.live == Some(true) && !s.claim.stale
  {
    BeginIsReachable(job);
    s := Reaches(job, Begin(job), SawStatus(job.unit, Reply(O.Failed)));
    s := Reaches(job, s, SawMoved(Reply(false)));
    s := Reaches(job, s, SawMount(job.point, true));
    s := Reaches(job, s, SawStale(job.point, false));
    s := Reaches(job, s, SawStatus(job.unit, Reply(O.Failed)));
    s := Reaches(job, s, SawOrphan(Reply(false)));
    s := Reaches(job, s, Prepared(true, true));
    s := Reaches(job, s, SawStatus(job.unit, Reply(O.Failed)));
  }

  /** Any mount can start its unit with the point listed and answering, under a unit that failed. */
  lemma AMountCanStartOverAnother(job: Job) returns (s: Seen)
    requires job.mounting
    ensures Reachable(job, s) && s.acts.started && s.table.live == Some(true) && !s.claim.stale && !s.acts.granted
  {
    s := PassesOverAFailedUnit(job);
    s := Reaches(job, s, SawSocket(job.unit, false));
    s := Reaches(job, s, Reset(job.unit, true));
    s := Reaches(job, s, Start(job.unit, true));
  }

  lemma Follow(job: Job, trace: seq<Event>, path: seq<Seen>, e: Event) returns (further: seq<Seen>)
    requires Disciplined(job, trace, path) && Expected(job, path[|trace|].step, e)
    ensures further == path + [Note(job, path[|trace|], e)] && Disciplined(job, trace + [e], further)
  {
    OneMoreEvent(job, trace, path, e);
    further := path + [Note(job, path[|trace|], e)];
  }

  /** Any unmount can stop a unit that is up without having asked for any point. */
  lemma AStopCanGoUnasked(job: Job) returns (path: seq<Seen>)
    requires !job.mounting
    ensures Disciplined(job, [SawMount(job.point, false), SawStatus(job.unit, Reply(O.Active)), Stop(job.unit, true)],
                        path)
    ensures path[3].acts.stopped && !path[3].acts.asked
  {
    var a, b, c := SawMount(job.point, false), SawStatus(job.unit, Reply(O.Active)), Stop(job.unit, true);
    path := Follow(job, [], [Begin(job)], a);
    path := Follow(job, [a], path, b);
    path := Follow(job, [a, b], path, c);
    assert [] + [a] == [a] && [a] + [b] == [a, b] && [a, b] + [c] == [a, b, c];
  }

  /** What a system seen at one moment answers an unmount up to the stop, if nothing is at its target's point. */
  function StopsUnasked(w: O.Snapshot, t: O.Target): seq<Event> {
    [SawMount(t.point, w.Live(t.point)), SawStatus(t.unit, Reply(w.StatusOf(t.unit))), Stop(t.unit, true)]
  }

  /**
   * A unit is stopped unasked with every answer as a consistent system gives it: that of the moved
   * entry, while it serves `/p`, its target's point being one where nothing is mounted.
   */
  lemma AServingUnitIsStoppedUnasked(force: bool) returns (t: O.Target, path: seq<Seen>)
    ensures var w := O.MovedUnderAnother();
      && w.Consistent() && O.ServesLive(w, w.units[0], "/p")
      && O.UnmountTarget(w, "a") == Some(t) && t.unit == w.units[0].name
      && Disciplined(JobOf(t, force), StopsUnasked(w, t), path)
    ensures path[3].acts.stopped && !path[3].acts.asked
  {
    O.UnmountCanMissTheServedPoint();
    t := O.UnmountTarget(O.MovedUnderAnother(), "a").value;
    path := AStopCanGoUnasked(JobOf(t, force));
  }

  /** Any mount can succeed with nothing swept for and nothing started, its unit having been stopping at first. */
  lemma ASuccessCanGoUnswept(job: Job) returns (path: seq<Seen>)
    requires job.mounting
    ensures Disciplined(job, [SawStatus(job.unit, Reply(O.Deactivating)), SawMount(job.point, true),
                              SawStale(job.point, false), SawStatus(job.unit, Reply(O.Active))], path)
    ensures path[4].step == Ended(Done) && path[4].acts == NO_ACTS
  {
    var a, b := SawStatus(job.unit, Reply(O.Deactivating)), SawMount(job.point, true);
    var c, d := SawStale(job.point, false), SawStatus(job.unit, Reply(O.Active));
    path := Follow(job, [], [Begin(job)], a);
    path := Follow(job, [a], path, b);
    path := Follow(job, [a, b], path, c);
    path := Follow(job, [a, b, c], path, d);
    assert [] + [a] == [a] && [a] + [b] == [a, b] && [a, b] + [c] == [a, b, c] && [a, b, c] + [d] == [a, b, c, d];
  }

  /** What a mount of an entry is. */
  function MountOf(w: O.Snapshot, m: C.ConfigMount): Job { Job(m.UnitName(), w.At(m), m.FsSpec(), false, true) }

  /** A unit read stopping at first, and as a system seen at one moment shows it from then on. */
  function SucceedsUnswept(w: O.Snapshot, job: Job): seq<Event> {
    [SawStatus(job.unit, Reply(O.Deactivating)), SawMount(job.point, w.Live(job.point)),
     SawStale(job.point, w.stale(job.point)), SawStatus(job.unit, Reply(w.StatusOf(job.unit)))]
  }

  /**
   * So a mount can report success over somebody else's mount: its unit, stopping at the first
   * look and up again at the next, serves `/p`, and what answers at the entry's `/q` is foreign.
   */
  lemma AMountCanSucceedOverAnother() returns (job: Job, path: seq<Seen>)
    ensures var w := O.MovedOntoAForeignMount();
      && w.Consistent() && job == MountOf(w, w.config[0]) && job.unit == w.units[0].name && job.point == "/q"
      && w.IsOrphan(w.units[0]) && O.ServesLive(w, w.units[0], "/p") && !w.ConfiguredUnitHolds("/q")
      && Disciplined(job, SucceedsUnswept(w, job), path)
    ensures path[4].step == Ended(Done) && path[4].acts == NO_ACTS
  {
    var w := O.MovedOntoAForeignMount();
    O.MovedOntoAForeignMountIsConsistent();
    job := MountOf(w, w.config[0]);
    path := ASuccessCanGoUnswept(job);
  }

  // --- how long an operation can wait -------------------------------------------------

  function Naps(trace: seq<Event>): nat {
    if trace == [] then 0 else Naps(trace[..|trace| - 1]) + (if trace[|trace| - 1].Slept? then 1 else 0)
  }

  /** Some trace leads here with so many sleeps on the way. */
  ghost predicate ReachableAfter(job: Job, s: Seen, naps: nat) {
    exists trace, path :: LeadsTo(job, trace, path, s, naps)
  }

  ghost predicate LeadsTo(job: Job, trace: seq<Event>, path: seq<Seen>, s: Seen, naps: nat) {
    Disciplined(job, trace, path) && path[|trace|] == s && Naps(trace) == naps
  }

  lemma ReachesAfter(job: Job, s: Seen, naps: nat, e: Event) returns (next: Seen)
    requires ReachableAfter(job, s, naps) && Expected(job, s.step, e)
    ensures next.step == Next(job, s.step, e) && next.acts == NoteAct(s.acts, e)
    ensures ReachableAfter(job, next, naps + if e.Slept? then 1 else 0)
  {
    var trace, path :| LeadsTo(job, trace, path, s, naps);
    var further := Follow(job, trace, path, e);
    next := Note(job, s, e);
    assert (trace + [e])[..|trace|] == trace;
    assert LeadsTo(job, trace + [e], further, next, naps + if e.Slept? then 1 else 0);
  }

  /** A wait for the unit can sleep any number of times. */
  lemma {:induction false} WaitsForTheUnit(job: Job, s: Seen, naps: nat, more: nat) returns (next: Seen)
    requires ReachableAfter(job, s, naps) && s.step.WaitingFree?
    ensures ReachableAfter(job, next, naps + more) && next.step == s.step
    decreases more
  {
    next := s;
    if more > 0 {
      next := ReachesAfter(job, s, naps, SawStatus(job.unit, Reply(O.Deactivating)));
      next := ReachesAfter(job, next, naps, Slept);
      next := WaitsForTheUnit(job, next, naps + 1, more - 1);
    }
  }

  lemma {:induction false} WaitsForThePoint(job: Job, s: Seen, naps: nat, more: nat) returns (next: Seen)
    requires ReachableAfter(job, s, naps) && job.mounting && s.step == WaitingReady
    ensures ReachableAfter(job, next, naps + more) && next.step == WaitingReady && next.acts == s.acts
    decreases more
  {
    next := s;
    if more > 0 {
      next := ReachesAfter(job, s, naps, SawMount(job.point, false));
      next := ReachesAfter(job, next, naps, SawStatus(job.unit, Reply(O.Active)));
      next := ReachesAfter(job, next, naps, Slept);
      next := WaitsForThePoint(job, next, naps + 1, more - 1);
    }
  }

  lemma WaitsFirst(job: Job) returns (s: Seen)
    requires job.mounting
    ensures ReachableAfter(job, s, 0) && s.step == WaitingFree(ThenPrepare)
  {
    assert LeadsTo(job, [], [Begin(job)], Begin(job), 0);
    s := ReachesAfter(job, Begin(job), 0, SawStatus(job.unit, Reply(O.Deactivating)));
    s := ReachesAfter(job, s, 0, SawMount(job.point, true));
    s := ReachesAfter(job, s, 0, SawStale(job.point, false));
    s := ReachesAfter(job, s, 0, SawStatus(job.unit, Reply(O.Deactivating)));
  }

  lemma WaitsAgain(job: Job, s: Seen, naps: nat) returns (next: Seen)
    requires job.mounting && ReachableAfter(job, s, naps) && s.step == WaitingFree(ThenPrepare)
    ensures ReachableAfter(job, next, naps) && next.step == WaitingFree(ThenSocket)
  {
    next := ReachesAfter(job, s, naps, SawStatus(job.unit, Reply(O.Inactive)));
    next := ReachesAfter(job, next, naps, Prepared(true, true));
    next := ReachesAfter(job, next, naps, SawStatus(job.unit, Reply(O.Deactivating)));
  }

  lemma StartsAfterWaiting(job: Job, s: Seen, naps: nat) returns (next: Seen)
    requires job.mounting && ReachableAfter(job, s, naps) && s.step == CheckingSocket
    ensures ReachableAfter(job, next, naps) && next.step == WaitingReady && next.acts.started
  {
    next := ReachesAfter(job, s, naps, SawSocket(job.unit, false));
    next := ReachesAfter(job, next, naps, Reset(job.unit, true));
    next := ReachesAfter(job, next, naps, Start(job.unit, true));
  }

  lemma NameComesFree(job: Job, s: Seen, naps: nat) returns (next: Seen)
    requires job.mounting && ReachableAfter(job, s, naps) && s.step == WaitingFree(ThenSocket)
    ensures ReachableAfter(job, next, naps) && next.step == CheckingSocket
  {
    next := ReachesAfter(job, s, naps, SawStatus(job.unit, Reply(O.Inactive)));
  }

  /** A mount can sit through all three of its waits, sleeping any number of times in each, and succeed. */
  lemma AMountCanWaitThreeTimes(job: Job, a: nat, b: nat, c: nat) returns (s: Seen)
    requires job.mounting
    ensures ReachableAfter(job, s, a + b + c) && s.step == Ended(Done) && s.acts.started
  {
    s := WaitsFirst(job);
    s := WaitsForTheUnit(job, s, 0, a);
    s := WaitsAgain(job, s, a);
    s := WaitsForTheUnit(job, s, a, b);
    s := NameComesFree(job, s, a + b);
    s := StartsAfterWaiting(job, s, a + b);
    s := WaitsForThePoint(job, s, a + b, c);
    s := ReachesAfter(job, s, a + b + c, SawMount(job.point, true));
  }
}
