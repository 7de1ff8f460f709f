/**
 * How an operation goes on and how it ends, told from its trace alone: which event comes after
 * which, and what each way of ending is answered with.
 */
module Outcomes {
  import opened Base
  import opened Protocol
  import O = Ownership

  function Last(t: seq<Event>): Event
    requires t != []
  {
    t[|t| - 1]
  }

  /** How often the kernel was asked for the point. */
  function Requests(t: seq<Event>): nat {
    if t == [] then 0 else Requests(t[..|t| - 1]) + if Last(t).Refuse? then 1 else 0
  }

  predicate WasPrepared(t: seq<Event>) { exists e <- t :: e.Prepared? }

  lemma OneMore(t: seq<Event>, e: Event)
    ensures Requests(t + [e]) == Requests(t) + (if e.Refuse? then 1 else 0)
    ensures WasPrepared(t + [e]) <==> WasPrepared(t) || e.Prepared?
    ensures Last(t + [e]) == e && forall i :: 0 <= i < |t| ==> (t + [e])[i] == t[i]
  {
    assert (t + [e])[..|t|] == t;
    if WasPrepared(t) {
      var p :| p in t && p.Prepared?;
      assert p in t + [e];
    }
    assert e in t + [e];
  }

  predicate StatusIs(job: Job, e: Event, status: O.UnitStatus) { e == SawStatus(job.unit, Reply(status)) }

  predicate NotAtRest(job: Job, e: Event) { TellsStatus(e) && e.unit == job.unit && !AtRest(e.status.value) }

  predicate Unanswered(e: Event) {
    || (e.SawStatus? && e.status.NoReply?) || (e.SawArgv? && e.argv.NoReply?)
    || (e.SawMoved? && e.found.NoReply?) || (e.SawOrphan? && e.found.NoReply?)
  }

  predicate RefusedWith(e: Event, answer: Release) { (e.Refuse? || e.Detach?) && e.answer == answer }

  // --- unmounting ---------------------------------------------------------------------

  /** The unit existed when it was first asked about. */
  predicate OursAtFirst(t: seq<Event>) { |t| >= 2 && TellsStatus(t[1]) && t[1].status.value != O.Inactive }

  /** What a refusal is overridden for: force, on a mount of a unit of ours. */
  predicate Insists(job: Job, t: seq<Event>) { job.force && OursAtFirst(t) }

  predicate ListedAtFirst(job: Job, t: seq<Event>) { t != [] && t[0] == SawMount(job.point, true) }

  /** The source read is not what the entry was given. */
  predicate AnotherSource(job: Job, e: Event) { e.SawSource? && e.source.Some? && e.source.value != job.fsSpec }

  /**
   * Nothing of ours is there to unmount, and nobody insists: the point was listed, and the unit was
   * inactive, or what is mounted comes from another source and is not what a serving unit's own argv
   * puts there.
   */
  predicate NotOurs(job: Job, t: seq<Event>) {
    && !job.force && ListedAtFirst(job, t) && |t| >= 2 && TellsStatus(t[1])
    && (|| t[1].status.value == O.Inactive
        || (&& |t| >= 3 && AnotherSource(job, t[2])
            && (|| !t[1].status.value.IsServing()
                || (|t| >= 4 && t[3].SawArgv? && t[3].argv.Reply? && t[3].argv.value != Some(job.point)))))
  }

  predicate NothingThere(job: Job, t: seq<Event>) {
    t == [SawMount(job.point, false), SawStatus(job.unit, Reply(O.Inactive))]
  }

  /** The unit's name was freed, or the point was gone at a look that followed another or a granted request. */
  predicate ReleasedAndGone(job: Job, t: seq<Event>) {
    || (t != [] && Last(t) == Reset(job.unit, true))
    || (|t| >= 2 && Last(t) == SawMount(job.point, false)
        && (t[|t| - 2].SawMount? || t[|t| - 2] == Refuse(job.point, Granted)))
  }

  /** The point stayed listed through the wait after it was given back or detached. */
  predicate StaysListed(job: Job, t: seq<Event>) {
    && |t| >= 2 && Last(t) == SawMount(job.point, true)
    && (t[|t| - 2].Slept? || RefusedWith(t[|t| - 2], Granted))
  }

  /** The last word on the point was this refusal, nobody insisting: at once, or with the point listed after it. */
  predicate EndsRefused(job: Job, t: seq<Event>, answer: Release) {
    && t != []
    && (|| Last(t) == Detach(job.point, answer)
        || (Last(t) == Refuse(job.point, answer) && !Insists(job, t))
        || (|t| >= 2 && Last(t) == SawMount(job.point, true) && t[|t| - 2] == Refuse(job.point, answer)
            && !Insists(job, t)))
  }

  /** Something asked or done did not work, or the unit stayed in the way of its name for the whole wait. */
  predicate UnmountFaulted(job: Job, t: seq<Event>) {
    && t != []
    && (|| Unanswered(Last(t)) || Last(t) == Stop(job.unit, false) || Last(t) == Reset(job.unit, false)
        || (|t| >= 3 && NotAtRest(job, Last(t))) || EndsRefused(job, t, NotRun))
  }

  /** Which ending each answer of an unmount is given for, and it is given for no other. */
  predicate UnmountAnswers(job: Job, t: seq<Event>, r: Outcome) {
    && (r == NotManaged <==> NotOurs(job, t))
    && (r == Done <==> NothingThere(job, t) || ReleasedAndGone(job, t))
    && (r == Busy <==> StaysListed(job, t) || EndsRefused(job, t, Held))
    && (r == Supervision <==> UnmountFaulted(job, t))
    && r != BadMountPoint && r != RcloneFailed
  }

  /** Which event an unmount makes after those it has made. */
  predicate UnmountComesNext(job: Job, t: seq<Event>, e: Event) {
    var n := |t|;
    if n == 0 then e.SawMount?
    else if n == 1 then e.SawStatus?
    else match Last(t)
      case SawStatus(_, NoReply) => false
      case SawStatus(_, Reply(s)) =>
        if n > 2 then (if AtRest(s) then e.Reset? else e.Slept?)
        else if ListedAtFirst(job, t) then e.SawSource? && (s == O.Inactive ==> job.force)
        else e.Stop? && s != O.Inactive
      case SawSource(_, _) => if AnotherSource(job, Last(t)) && !job.force then e.SawArgv? else e.Refuse?
      case SawArgv(_, argv) => argv == Reply(Some(job.point)) && e.Refuse?
      case Refuse(_, answer) =>
        if Requests(t) == 1 then (if answer.Granted? && OursAtFirst(t) then e.Stop? else e.SawMount?)
        else if answer.Granted? then e.SawMount? else e.Detach? && Insists(job, t)
      case Detach(_, answer) => answer.Granted? && e.SawMount?
      case Stop(_, ok) => ok && if ListedAtFirst(job, t) then e.SawMount? else e.SawStatus?
      case Slept => if t[n - 2].SawMount? then e.SawMount? else e.SawStatus?
      case SawMount(_, live) =>
        if t[n - 2].Refuse? && !t[n - 2].answer.Granted? then
          (live ==> Insists(job, t)) && if OursAtFirst(t) then e.Stop? else e.SawMount?
        else if Requests(t) == 2 then (if live then e.Slept? else e.Reset?)
        else if !OursAtFirst(t) || t[n - 2].SawMount? then live && e.Refuse?
        else if live then e.Slept? || e.SawMount? else e.SawStatus?
      case _ => false
  }

  /** What the trace shows by the time an unmount gets to a step. */
  ghost predicate UnmountArrives(job: Job, t: seq<Event>, step: Step) {
    var n := |t|;
    match step
    case Looking => n == 0
    case Asking(live) => n == 1 && t[0] == SawMount(job.point, live)
    case Identifying(s) => n == 2 && ListedAtFirst(job, t) && StatusIs(job, t[1], s) && (s != O.Inactive || job.force)
                           && Requests(t) == 0
    case ReadingArgv => n == 3 && ListedAtFirst(job, t) && TellsStatus(t[1]) && t[1].status.value.IsServing()
                        && AnotherSource(job, t[2]) && !job.force && Requests(t) == 0
    case Releasing(ours) => n >= 3 && OursAtFirst(t) == ours && !NotOurs(job, t) && ListedAtFirst(job, t)
                            && TellsStatus(t[1]) && Requests(t) == 0 && (ours || job.force)
                            && n <= 4 && (n == 3 ==> t[2].SawSource? && (!AnotherSource(job, t[2]) || job.force))
                            && (n == 4 ==> Last(t) == SawArgv(job.unit, Reply(Some(job.point))))
    case LookingAgain(ours, answer) => Underway(job, t, ours) && Requests(t) == 1 && ListedAtFirst(job, t)
                                       && !answer.Granted? && Last(t) == Refuse(job.point, answer)
    case Stopping(live) => n >= 2 && !NotOurs(job, t) && OursAtFirst(t) && live == ListedAtFirst(job, t)
                           && (if live then n >= 4 else n == 2) && Requests(t) == (if live then 1 else 0)
                           && (live ==> Last(t) == Refuse(job.point, Granted)
                                        || (Last(t).SawMount? && t[n - 2].Refuse? && !t[n - 2].answer.Granted?
                                            && (Last(t).live ==> Insists(job, t))))
    case WaitingGone => Underway(job, t, true) && Requests(t) == 1 && (Last(t) == Stop(job.unit, true) || Naps(t))
    case StillHeld => Underway(job, t, true) && Requests(t) == 1 && Last(t) == SawMount(job.point, true)
                      && !t[n - 2].SawMount? && !t[n - 2].Refuse?
    case LookingOnce => Underway(job, t, false) && Requests(t) == 1
                        && (Last(t) == Refuse(job.point, Granted)
                            || (Last(t) == SawMount(job.point, false) && t[n - 2].Refuse? && !t[n - 2].answer.Granted?))
    case ReleasingRest(ours) => Underway(job, t, ours) && Requests(t) == 1 && Last(t) == SawMount(job.point, true)
                                && !(t[n - 2].Refuse? && !t[n - 2].answer.Granted?) && (ours ==> t[n - 2].SawMount?)
    case Detaching => Underway(job, t, true) && Requests(t) == 2 && job.force
                      && Last(t).Refuse? && !Last(t).answer.Granted?
    case WaitingReleased => n >= 4 && !NotOurs(job, t) && Requests(t) == 2
                            && (Naps(t) || RefusedWith(Last(t), Granted))
    case StillListed => n >= 4 && !NotOurs(job, t) && Requests(t) == 2 && StaysListed(job, t)
    case Clearing => n >= 3 && !NotOurs(job, t)
                     && ((Last(t) == SawMount(job.point, false) && Requests(t) == 2
                          && (t[n - 2].Slept? || RefusedWith(t[n - 2], Granted)))
                         || (TellsStatus(Last(t)) && AtRest(Last(t).status.value)))
    case WaitingFree(then_) => then_.ThenClear? && n >= 3 && !NotOurs(job, t) && OursAtFirst(t)
                           && ((Last(t) == Stop(job.unit, true) && !ListedAtFirst(job, t))
                               || (Last(t) == SawMount(job.point, false) && Requests(t) == 1
                                   && !t[n - 2].SawMount? && !t[n - 2].Refuse?)
                               || (Last(t).Slept? && t[n - 2].SawStatus?))
    case StillBusy(then_) => then_.ThenClear? && n >= 3 && !NotOurs(job, t) && OursAtFirst(t) && NotAtRest(job, Last(t))
    case Ended(r) => UnmountAnswers(job, t, r)
    case _ => false
  }

  /** A sleep between two looks. */
  predicate Naps(t: seq<Event>) { |t| >= 2 && Last(t).Slept? && t[|t| - 2].SawMount? }

  ghost predicate Underway(job: Job, t: seq<Event>, ours: bool) {
    |t| >= 4 && !NotOurs(job, t) && OursAtFirst(t) == ours && ListedAtFirst(job, t) && (ours || job.force)
  }

  lemma LooksAndAsks(job: Job, t: seq<Event>, step: Step, e: Event)
    requires !job.mounting && (step.Looking? || step.Asking?)
    requires UnmountArrives(job, t, step) && Expected(job, step, e)
    ensures UnmountArrives(job, t + [e], Next(job, step, e))
  {
    OneMore(t, e);
  }

  lemma FindsOut(job: Job, t: seq<Event>, step: Step, e: Event)
    requires !job.mounting && (step.Identifying? || step.ReadingArgv? || step.Releasing?)
    requires UnmountArrives(job, t, step) && Expected(job, step, e)
    ensures UnmountArrives(job, t + [e], Next(job, step, e))
  {
    OneMore(t, e);
  }

  lemma Decides(job: Job, t: seq<Event>, step: Step, e: Event)
    requires !job.mounting && (step.LookingAgain? || step.Stopping?)
    requires UnmountArrives(job, t, step) && Expected(job, step, e)
    ensures UnmountArrives(job, t + [e], Next(job, step, e))
  {
    OneMore(t, e);
  }

  lemma WaitsForThePoint(job: Job, t: seq<Event>, step: Step, e: Event)
    requires !job.mounting && (step.WaitingGone? || step.StillHeld?)
    requires UnmountArrives(job, t, step) && Expected(job, step, e)
    ensures UnmountArrives(job, t + [e], Next(job, step, e))
  {
    OneMore(t, e);
  }

  lemma WaitsForTheUnit(job: Job, t: seq<Event>, step: Step, e: Event)
    requires !job.mounting && (step.WaitingFree? || step.StillBusy?)
    requires UnmountArrives(job, t, step) && Expected(job, step, e)
    ensures UnmountArrives(job, t + [e], Next(job, step, e))
  {
    OneMore(t, e);
  }

  lemma AsksAgain(job: Job, t: seq<Event>, step: Step, e: Event)
    requires !job.mounting && (step.LookingOnce? || step.ReleasingRest?)
    requires UnmountArrives(job, t, step) && Expected(job, step, e)
    ensures UnmountArrives(job, t + [e], Next(job, step, e))
  {
    OneMore(t, e);
  }

  lemma LetsGo(job: Job, t: seq<Event>, step: Step, e: Event)
    requires !job.mounting && (step.Detaching? || step.WaitingReleased?)
    requires UnmountArrives(job, t, step) && Expected(job, step, e)
    ensures UnmountArrives(job, t + [e], Next(job, step, e))
  {
    OneMore(t, e);
  }

  lemma Finishes(job: Job, t: seq<Event>, step: Step, e: Event)
    requires !job.mounting && (step.StillListed? || step.Clearing?)
    requires UnmountArrives(job, t, step) && Expected(job, step, e)
    ensures UnmountArrives(job, t + [e], Next(job, step, e))
  {
    OneMore(t, e);
  }

  lemma UnmountArrivesNext(job: Job, t: seq<Event>, step: Step, e: Event)
    requires !job.mounting && UnmountArrives(job, t, step) && Expected(job, step, e)
    ensures UnmountArrives(job, t + [e], Next(job, step, e))
  {
    if step.Looking? || step.Asking? {
      LooksAndAsks(job, t, step, e);
    } else if step.Identifying? || step.ReadingArgv? || step.Releasing? {
      FindsOut(job, t, step, e);
    } else if step.LookingAgain? || step.Stopping? {
      Decides(job, t, step, e);
    } else if step.WaitingGone? || step.StillHeld? {
      WaitsForThePoint(job, t, step, e);
    } else if step.WaitingFree? || step.StillBusy? {
      WaitsForTheUnit(job, t, step, e);
    } else if step.LookingOnce? || step.ReleasingRest? {
      AsksAgain(job, t, step, e);
    } else if step.Detaching? || step.WaitingReleased? {
      LetsGo(job, t, step, e);
    } else if step.StillListed? || step.Clearing? {
      Finishes(job, t, step, e);
    }
  }

  lemma UnmountMakesNext(job: Job, t: seq<Event>, step: Step, e: Event)
    requires !job.mounting && UnmountArrives(job, t, step) && Expected(job, step, e)
    ensures UnmountComesNext(job, t, e)
  {}

  lemma {:induction false} UnmountArrivesAlways(job: Job, trace: seq<Event>, path: seq<Seen>, k: nat)
    requires Disciplined(job, trace, path) && !job.mounting && k <= |trace|
    ensures UnmountArrives(job, trace[..k], path[k].step)
  {
    if k > 0 {
      UnmountArrivesAlways(job, trace, path, k - 1);
      assert Allowed(job, trace, path, k - 1);
      assert trace[..k] == trace[..k - 1] + [trace[k - 1]];
      UnmountArrivesNext(job, trace[..k - 1], path[k - 1].step, trace[k - 1]);
    }
  }

  /** Each answer of an unmount is given for its own endings, and for no other: all of them told from the trace. */
  lemma UnmountEndsAsAnswered(job: Job, trace: seq<Event>, path: seq<Seen>, r: Outcome)
    requires Disciplined(job, trace, path) && !job.mounting && Ends(path[|trace|].step, r)
    ensures UnmountAnswers(job, trace, r)
  {
    UnmountArrivesAlways(job, trace, path, |trace|);
    assert trace[..|trace|] == trace;
  }

  /** And what it does at every point follows from what it has seen and done. */
  lemma UnmountGoesOn(job: Job, trace: seq<Event>, path: seq<Seen>, k: nat)
    requires Disciplined(job, trace, path) && !job.mounting && k < |trace|
    ensures UnmountComesNext(job, trace[..k], trace[k]) && Concerns(job, trace[k])
  {
    UnmountArrivesAlways(job, trace, path, k);
    assert Allowed(job, trace, path, k);
    UnmountMakesNext(job, trace[..k], path[k].step, trace[k]);
  }

  // --- mounting -----------------------------------------------------------------------

  predicate UpNow(e: Event) { TellsStatus(e) && (e.status.value == O.Active || e.status.value == O.Activating) }

  /** The first of the looks: nothing but the question whether the unit moved comes before it. */
  predicate LooksFirst(t: seq<Event>) { 2 <= |t| <= 3 && Last(t).SawMount? }

  /** The unit was read in this state right after the point answered. */
  predicate AnsweredThen(job: Job, t: seq<Event>, status: O.UnitStatus) {
    |t| >= 2 && t[|t| - 2] == SawStatus(job.unit, Reply(status))
  }

  /** The point is listed, after the unit was started or seen coming up; or answers under a unit that is up. */
  predicate Serving(job: Job, t: seq<Event>) {
    && |t| >= 3
    && (|| (Last(t) == SawMount(job.point, true) && !LooksFirst(t))
        || (StatusIs(job, Last(t), O.Active) && t[|t| - 2] == SawStale(job.point, false))
        || (Last(t) == SawOrphan(Reply(false)) && AnsweredThen(job, t, O.Activating)))
  }

  /** A unit of ours serves elsewhere, or another one here, or the point answers under an inactive unit of its own. */
  predicate TakenAlready(job: Job, t: seq<Event>) {
    && t != []
    && (|| Last(t) == SawMoved(Reply(true)) || Last(t) == SawOrphan(Reply(true))
        || (Last(t) == SawOrphan(Reply(false)) && AnsweredThen(job, t, O.Inactive)))
  }

  /** The last look of the wait for the point did not list it, and the unit failed or the wait ran out. */
  predicate NeverCameUp(job: Job, t: seq<Event>) {
    && |t| >= 5 && TellsStatus(Last(t)) && Last(t).unit == job.unit && t[|t| - 2] == SawMount(job.point, false)
  }

  /** The unit stayed in the way of its name: in the wait that starts when it is read stopping. */
  predicate StaysInTheWay(job: Job, t: seq<Event>) {
    && |t| >= 2 && NotAtRest(job, Last(t))
    && (t[|t| - 2].Slept? || StatusIs(job, t[|t| - 2], O.Deactivating))
  }

  predicate MountFaulted(job: Job, t: seq<Event>) {
    && t != []
    && (|| Unanswered(Last(t)) || Last(t) == Prepared(true, false) || Last(t) == Refuse(job.point, NotRun)
        || Last(t) == Reset(job.unit, false) || Last(t) == Start(job.unit, false) || StaysInTheWay(job, t))
  }

  /** Which ending each answer of a mount is given for, and it is given for no other. */
  predicate MountAnswers(job: Job, t: seq<Event>, r: Outcome) {
    && (r == Done <==> Serving(job, t))
    && (r == NotManaged <==> TakenAlready(job, t))
    && (r == BadMountPoint <==> t != [] && Last(t).Prepared? && !Last(t).pointMade)
    && (r == Busy <==> t != [] && Last(t) == Refuse(job.point, Held))
    && (r == RcloneFailed <==> NeverCameUp(job, t))
    && (r == Supervision <==> MountFaulted(job, t))
  }

  /** Which event a mount makes after those it has made. */
  predicate MountComesNext(t: seq<Event>, e: Event) {
    var n := |t|;
    if n == 0 then e.SawStatus?
    else match Last(t)
      case SawStatus(_, NoReply) => false
      case SawStatus(_, Reply(s)) =>
        if n == 1 then (if s == O.Deactivating then e.SawMount? else e.SawMoved?)
        else if t[n - 2].SawStale? then
          s != O.Active && if s == O.Deactivating then e.SawStatus? else e.SawOrphan?
        else if t[n - 2].Prepared? then
          if UpNow(Last(t)) then e.SawMount? else if s == O.Deactivating then e.SawStatus? else e.SawSocket?
        else if t[n - 2].SawMount? then s != O.Failed && e.Slept?
        else if !AtRest(s) then e.Slept?
        else if WasPrepared(t) then e.SawSocket? else e.Prepared?
      case SawMoved(found) => found == Reply(false) && e.SawMount?
      case SawMount(_, live) =>
        if LooksFirst(t) then (if live then e.SawStale? else e.Prepared?) else !live && e.SawStatus?
      case SawStale(_, stale) => if stale then e.SawOrphan? else e.SawStatus?
      case SawOrphan(found) =>
        && found == Reply(false) && n >= 2
        && if t[n - 2].SawStale? then e.Refuse?
           else e.Prepared? && TellsStatus(t[n - 2]) && t[n - 2].status.value == O.Failed
      case Refuse(_, answer) => answer.Granted? && e.Prepared?
      case Prepared(pointMade, runtimeMade) => pointMade && runtimeMade && e.SawStatus?
      case SawSocket(_, there) => if there then e.Unlink? else e.Reset?
      case Unlink(_) => e.Reset?
      case Reset(_, ok) => ok && e.Start?
      case Start(_, ok) => ok && e.SawMount?
      case Slept => if n >= 3 && t[n - 3].SawMount? then e.SawMount? else e.SawStatus?
      case _ => false
  }

  /** What the trace shows by the time a mount gets to a step. */
  ghost predicate MountArrives(job: Job, t: seq<Event>, step: Step) {
    var n := |t|;
    match step
    case AskingMoved => n == 0
    case SweepingMoved => n == 1 && TellsStatus(t[0]) && t[0].status.value != O.Deactivating
    case LookingFirst => !WasPrepared(t) && if n == 1 then StatusIs(job, t[0], O.Deactivating)
                         else n == 2 && Last(t) == SawMoved(Reply(false))
    case Probing => LooksFirst(t) && Last(t).live && !WasPrepared(t)
    case SweepingStale => n >= 3 && Last(t) == SawStale(job.point, true) && !WasPrepared(t)
    case ReleasingStale => n >= 3 && Last(t) == SawOrphan(Reply(false)) && t[n - 2].SawStale? && !WasPrepared(t)
    case AskingServing => n >= 3 && Last(t) == SawStale(job.point, false) && !WasPrepared(t)
    case SweepingPoint(s) => n >= 4 && StatusIs(job, Last(t), s) && t[n - 2].SawStale? && !s.IsServing()
                             && !WasPrepared(t)
    case Preparing => n >= 2 && !WasPrepared(t)
                      && ((LooksFirst(t) && !Last(t).live) || Last(t) == Refuse(job.point, Granted)
                          || (Last(t) == SawOrphan(Reply(false)) && AnsweredThen(job, t, O.Failed))
                          || (n >= 5 && TellsStatus(Last(t)) && AtRest(Last(t).status.value) && Waited(job, t)))
    case AskingUnit => n >= 3 && Last(t) == Prepared(true, true) && WasPrepared(t)
    case WaitingFree(then_) => n >= 4 && !then_.ThenClear? && (then_.ThenSocket? <==> WasPrepared(t))
                               && if Last(t).Slept? then t[n - 2].SawStatus? && !t[n - 3].SawMount?
                                  else StatusIs(job, Last(t), O.Deactivating)
                                       && if WasPrepared(t) then t[n - 2].Prepared? else t[n - 2].SawStale?
    case StillBusy(then_) => n >= 5 && !then_.ThenClear? && (then_.ThenSocket? <==> WasPrepared(t))
                             && StaysInTheWay(job, t)
    case CheckingSocket => n >= 4 && WasPrepared(t) && TellsStatus(Last(t)) && AtRest(Last(t).status.value)
                           && (t[n - 2].Prepared? || Waited(job, t))
    case Unlinking => n >= 5 && Last(t) == SawSocket(job.unit, true)
    case ClearingFailure => n >= 5 && (Last(t) == SawSocket(job.unit, false) || Last(t).Unlink?)
    case Starting => n >= 5 && Last(t) == Reset(job.unit, true)
    case WaitingReady => n >= 4 && (Last(t) == Start(job.unit, true) || (UpNow(Last(t)) && t[n - 2].Prepared?)
                                    || (Last(t).Slept? && t[n - 3].SawMount?))
    case AskingReady => n >= 4 && Last(t) == SawMount(job.point, false)
    case StillStarting => NeverCameUp(job, t) && Last(t).status.value != O.Failed
    case Ended(r) => MountAnswers(job, t, r)
    case _ => false
  }

  /** The status just read is one of a wait for the unit. */
  predicate Waited(job: Job, t: seq<Event>) {
    |t| >= 2 && (t[|t| - 2].Slept? || StatusIs(job, t[|t| - 2], O.Deactivating))
  }

  lemma SettlesWhoseItIs(job: Job, t: seq<Event>, step: Step, e: Event)
    requires job.mounting && (step.AskingMoved? || step.SweepingMoved? || step.LookingFirst? || step.Probing?)
    requires MountArrives(job, t, step) && Expected(job, step, e)
    ensures MountArrives(job, t + [e], Next(job, step, e))
  {
    OneMore(t, e);
  }

  lemma ClearsTheWay(job: Job, t: seq<Event>, step: Step, e: Event)
    requires job.mounting && (step.SweepingStale? || step.ReleasingStale? || step.AskingServing? || step.SweepingPoint?)
    requires MountArrives(job, t, step) && Expected(job, step, e)
    ensures MountArrives(job, t + [e], Next(job, step, e))
  {
    OneMore(t, e);
  }

  lemma Prepares(job: Job, t: seq<Event>, step: Step, e: Event)
    requires job.mounting && (step.Preparing? || step.AskingUnit?)
    requires MountArrives(job, t, step) && Expected(job, step, e)
    ensures MountArrives(job, t + [e], Next(job, step, e))
  {
    OneMore(t, e);
  }

  lemma WaitsForTheName(job: Job, t: seq<Event>, step: Step, e: Event)
    requires job.mounting && (step.WaitingFree? || step.StillBusy?)
    requires MountArrives(job, t, step) && Expected(job, step, e)
    ensures MountArrives(job, t + [e], Next(job, step, e))
  {
    OneMore(t, e);
  }

  lemma Launches(job: Job, t: seq<Event>, step: Step, e: Event)
    requires job.mounting && (step.CheckingSocket? || step.Unlinking? || step.ClearingFailure? || step.Starting?)
    requires MountArrives(job, t, step) && Expected(job, step, e)
    ensures MountArrives(job, t + [e], Next(job, step, e))
  {
    OneMore(t, e);
  }

  lemma LooksWhetherItServes(job: Job, t: seq<Event>, step: Step, e: Event)
    requires job.mounting && step.WaitingReady?
    requires MountArrives(job, t, step) && Expected(job, step, e)
    ensures MountArrives(job, t + [e], Next(job, step, e))
  {
    OneMore(t, e);
  }

  lemma WaitsToServe(job: Job, t: seq<Event>, step: Step, e: Event)
    requires job.mounting && (step.AskingReady? || step.StillStarting?)
    requires MountArrives(job, t, step) && Expected(job, step, e)
    ensures MountArrives(job, t + [e], Next(job, step, e))
  {
    OneMore(t, e);
  }

  lemma MountArrivesNext(job: Job, t: seq<Event>, step: Step, e: Event)
    requires job.mounting && MountArrives(job, t, step) && Expected(job, step, e)
    ensures MountArrives(job, t + [e], Next(job, step, e))
  {
    if step.AskingMoved? || step.SweepingMoved? || step.LookingFirst? || step.Probing? {
      SettlesWhoseItIs(job, t, step, e);
    } else if step.SweepingStale? || step.ReleasingStale? || step.AskingServing? || step.SweepingPoint? {
      ClearsTheWay(job, t, step, e);
    } else if step.Preparing? || step.AskingUnit? {
      Prepares(job, t, step, e);
    } else if step.WaitingFree? || step.StillBusy? {
      WaitsForTheName(job, t, step, e);
    } else if step.CheckingSocket? || step.Unlinking? || step.ClearingFailure? || step.Starting? {
      Launches(job, t, step, e);
    } else if step.WaitingReady? {
      LooksWhetherItServes(job, t, step, e);
    } else if step.AskingReady? || step.StillStarting? {
      WaitsToServe(job, t, step, e);
    }
  }

  lemma MountMakesNext(job: Job, t: seq<Event>, step: Step, e: Event)
    requires job.mounting && MountArrives(job, t, step) && Expected(job, step, e)
    ensures MountComesNext(t, e)
  {}

  lemma {:induction false} MountArrivesAlways(job: Job, trace: seq<Event>, path: seq<Seen>, k: nat)
    requires Disciplined(job, trace, path) && job.mounting && k <= |trace|
    ensures MountArrives(job, trace[..k], path[k].step)
  {
    if k > 0 {
      MountArrivesAlways(job, trace, path, k - 1);
      assert Allowed(job, trace, path, k - 1);
      assert trace[..k] == trace[..k - 1] + [trace[k - 1]];
      MountArrivesNext(job, trace[..k - 1], path[k - 1].step, trace[k - 1]);
    }
  }

  /** Each answer of a mount is given for its own endings, and for no other. */
  lemma MountEndsAsAnswered(job: Job, trace: seq<Event>, path: seq<Seen>, r: Outcome)
    requires Disciplined(job, trace, path) && job.mounting && Ends(path[|trace|].step, r)
    ensures MountAnswers(job, trace, r)
  {
    MountArrivesAlways(job, trace, path, |trace|);
    assert trace[..|trace|] == trace;
  }

  /** And what it does at every point follows from what it has seen and done. */
  lemma MountGoesOn(job: Job, trace: seq<Event>, path: seq<Seen>, k: nat)
    requires Disciplined(job, trace, path) && job.mounting && k < |trace|
    ensures MountComesNext(trace[..k], trace[k]) && Concerns(job, trace[k])
  {
    MountArrivesAlways(job, trace, path, k);
    assert Allowed(job, trace, path, k);
    MountMakesNext(job, trace[..k], path[k].step, trace[k]);
  }
}
