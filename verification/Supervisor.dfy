/** Mounting and unmounting, as the service runs them, against answers nobody chose. */
module Supervisor {
  import opened Base
  import opened Outcomes
  import opened Protocol
  import O = Ownership

  /** Milliseconds. */
  const POLL_INTERVAL := 250
  const READY_TIMEOUT := 45_000
  const GONE_TIMEOUT := 30_000
  const UNIT_GONE_TIMEOUT := 35_000
  const RELEASED_TIMEOUT := 10_000
  const REDIRECT_LOCK_WAIT := 300_000

  /** The longest an operation sleeps in all, with its locks held. */
  function LongestSleep(job: Job): nat {
    if job.mounting then 2 * UNIT_GONE_TIMEOUT + READY_TIMEOUT else GONE_TIMEOUT + UNIT_GONE_TIMEOUT
  }

  class Operation {
    const job: Job
    var now: int
    ghost var trace: seq<Event>
    ghost var path: seq<Seen>
    ghost var sofar: Seen
    ghost var sleeps: nat

    ghost predicate Valid()
      reads this
    {
      Disciplined(job, trace, path) && path[|trace|] == sofar
    }

    constructor (job: Job, now: int)
      ensures this.job == job && Valid() && trace == [] && sofar == Begin(job)
    {
      this.job, this.now := job, now;
      trace, path, sofar, sleeps := [], [Begin(job)], Begin(job), 0;
    }

    /** Whatever is made, it is what the protocol makes at this step; time passes. */
    method Make(e: Event)
      requires Valid() && Expected(job, sofar.step, e)
      modifies this
      ensures Valid() && sofar.step == Next(job, old(sofar).step, e)
      ensures now >= old(now) && sleeps == old(sleeps)
    {
      OneMoreEvent(job, trace, path, e);
      sofar := Note(job, sofar, e);
      trace, path := trace + [e], path + [sofar];
      var took :| took >= 0;
      now := now + took;
    }

    method Look() returns (live: bool)
      requires Valid() && Makes(sofar.step, SawMount(job.point, true))
      modifies this
      ensures Valid() && sofar.step == Next(job, old(sofar).step, SawMount(job.point, live))
      ensures now >= old(now) && sleeps == old(sleeps)
    {
      live := *;
      Make(SawMount(job.point, live));
    }

    method AskStatus() returns (status: Reply<O.UnitStatus>)
      requires Valid() && Makes(sofar.step, SawStatus(job.unit, NoReply))
      modifies this
      ensures Valid() && sofar.step == Next(job, old(sofar).step, SawStatus(job.unit, status))
      ensures now >= old(now) && sleeps == old(sleeps)
    {
      status := *;
      Make(SawStatus(job.unit, status));
    }

    method Sleep()
      requires Valid() && Makes(sofar.step, Slept)
      modifies this
      ensures Valid() && sofar.step == Next(job, old(sofar).step, Slept)
      ensures now >= old(now) + POLL_INTERVAL && sleeps == old(sleeps) + 1
    {
      Make(Slept);
      now, sleeps := now + POLL_INTERVAL, sleeps + 1;
    }

    /** Ask the kernel for the point back; it refuses while anything uses the mount. */
    method AskRelease() returns (answer: Release)
      requires Valid() && Makes(sofar.step, Refuse(job.point, Granted))
      modifies this
      ensures now >= old(now)
      ensures sleeps == old(sleeps)
      ensures Valid() && sofar.step == Next(job, old(sofar).step, Refuse(job.point, answer))
    {
      answer := *;
      Make(Refuse(job.point, answer));
    }

    method ResetUnit() returns (r: Outcome)
      requires Valid() && Makes(sofar.step, Reset(job.unit, true))
      modifies this
      ensures now >= old(now)
      ensures sleeps == old(sleeps)
      ensures Valid() && (r == Done || r == Supervision)
      ensures sofar.step == Next(job, old(sofar).step, Reset(job.unit, r == Done))
    {
      var ok: bool := *;
      Make(Reset(job.unit, ok));
      r := if ok then Done else Supervision;
    }

    /** What the mount table says is mounted; nothing, if it went meanwhile. */
    method ReadSource() returns (source: Option<string>)
      requires Valid() && Makes(sofar.step, SawSource(job.point, None))
      modifies this
      ensures now >= old(now)
      ensures sleeps == old(sleeps)
      ensures Valid() && sofar.step == Next(job, old(sofar).step, SawSource(job.point, source))
    {
      source := *;
      Make(SawSource(job.point, source));
    }

    method ReadArgv() returns (argv: Reply<Option<string>>)
      requires Valid() && Makes(sofar.step, SawArgv(job.unit, NoReply))
      modifies this
      ensures now >= old(now)
      ensures sleeps == old(sleeps)
      ensures Valid() && sofar.step == Next(job, old(sofar).step, SawArgv(job.unit, argv))
    {
      argv := *;
      Make(SawArgv(job.unit, argv));
    }

    /** Sweep for this entry's own unit serving elsewhere, or for any unit of ours at its point. */
    method Sweep(own: bool) returns (found: Reply<bool>)
      requires Valid() && Makes(sofar.step, if own then SawMoved(NoReply) else SawOrphan(NoReply))
      modifies this
      ensures now >= old(now)
      ensures sleeps == old(sleeps)
      ensures Valid()
      ensures sofar.step == Next(job, old(sofar).step, if own then SawMoved(found) else SawOrphan(found))
    {
      found := *;
      Make(if own then SawMoved(found) else SawOrphan(found));
    }

    // --- waiting --------------------------------------------------------------------

    /** No sleep starts past the deadline, so there are only so many. */
    twostate predicate WaitedAtMost(timeout: nat)
      reads this
    {
      sleeps >= old(sleeps) && (sleeps > old(sleeps) ==> POLL_INTERVAL * (sleeps - old(sleeps) - 1) < timeout)
    }

    /** Where a wait ran out, it took as long as that wait is. */
    twostate predicate GivesUpInTime()
      reads this
    {
      && (sofar.step.StillBusy? ==> now >= old(now) + UNIT_GONE_TIMEOUT)
      && (sofar.step == StillListed ==> now >= old(now) + RELEASED_TIMEOUT)
      && (sofar.step == StillStarting ==> now >= old(now) + READY_TIMEOUT)
    }

    /** What all the sleeps of some waits come to. */
    twostate predicate SleptAtMost(total: nat)
      reads this
    {
      sleeps >= old(sleeps) && POLL_INTERVAL * (sleeps - old(sleeps)) <= total
    }

    /** A wait on the mount table says `false` only past its deadline. */
    method AwaitGone(timeout: nat) returns (gone: bool)
      requires Valid() && !job.mounting && (sofar.step == WaitingGone || sofar.step == WaitingReleased)
      modifies this
      ensures now >= old(now)
      ensures Valid() && WaitedAtMost(timeout) && (gone || now >= old(now) + timeout)
      ensures sofar.step == if old(sofar).step == WaitingGone
                            then (if gone then WaitingFree(ThenClear) else StillHeld)
                            else (if gone then Clearing else StillListed)
    {
      var deadline := now + timeout;
      while true
        invariant Valid() && sofar.step == old(sofar).step
        invariant now >= deadline - timeout + POLL_INTERVAL * (sleeps - old(sleeps)) && sleeps >= old(sleeps)
        invariant WaitedAtMost(timeout)
        decreases deadline - now + POLL_INTERVAL
      {
        var live := Look();
        if !live { return true; }
        if now >= deadline { return false; }
        Sleep();
      }
    }

    /** Wait for the unit to leave its name; a unit still in the way is a fault, past the deadline. */
    method AwaitUnitGone(timeout: nat) returns (r: Outcome)
      requires Valid() && sofar.step.WaitingFree?
      modifies this
      ensures now >= old(now)
      ensures Valid() && WaitedAtMost(timeout) && (r == Done || r == Supervision)
      ensures r == Done ==> sofar.step == AfterFree(old(sofar).step.then_)
      ensures r == Supervision ==> sofar.step == Ended(Supervision)
                                   || (sofar.step.StillBusy? && now >= old(now) + timeout)
    {
      var deadline := now + timeout;
      while true
        invariant Valid() && sofar.step == old(sofar).step
        invariant now >= deadline - timeout + POLL_INTERVAL * (sleeps - old(sleeps)) && sleeps >= old(sleeps)
        invariant WaitedAtMost(timeout)
        decreases deadline - now + POLL_INTERVAL
      {
        var status := AskStatus();
        if status.NoReply? { return Supervision; }
        if status.value == O.Inactive || status.value == O.Failed { return Done; }
        if now >= deadline { return Supervision; }
        Sleep();
      }
    }

    /** Look until the point is listed, the unit fails, or the deadline passes. */
    method AwaitReady() returns (r: Outcome)
      requires Valid() && job.mounting && sofar.step == WaitingReady
      modifies this
      ensures now >= old(now) && !sofar.step.StillBusy? && sofar.step != StillListed
      ensures Valid() && WaitedAtMost(READY_TIMEOUT) && SleptAtMost(READY_TIMEOUT) && Ends(sofar.step, r)
      ensures sofar.step == StillStarting ==> now >= old(now) + READY_TIMEOUT
    {
      var deadline := now + READY_TIMEOUT;
      while true
        invariant Valid() && sofar.step == WaitingReady
        invariant now >= deadline - READY_TIMEOUT + POLL_INTERVAL * (sleeps - old(sleeps)) && sleeps >= old(sleeps)
        invariant WaitedAtMost(READY_TIMEOUT)
        decreases deadline - now + POLL_INTERVAL
      {
        var live := Look();
        if live { return Done; }
        var status := AskStatus();
        if status.NoReply? { return Supervision; }
        if status.value == O.Failed { return RcloneFailed; }
        if now >= deadline { return RcloneFailed; }
        Sleep();
      }
    }

    // --- unmounting -----------------------------------------------------------------

    /** Whether what is mounted may be acted on: its source, the unit's own argv, or force. */
    method CheckOwner(status: O.UnitStatus) returns (r: Outcome)
      requires Valid() && !job.mounting && sofar.step == Identifying(status)
      modifies this
      ensures now >= old(now)
      ensures sleeps == old(sleeps)
      ensures Valid() && sofar.step == if r == Done then Releasing(status != O.Inactive) else Ended(r)
    {
      var source := ReadSource();
      if source.None? || job.force || source.value == job.fsSpec { return Done; }
      if !status.IsServing() { return NotManaged; }
      var argv := ReadArgv();
      if argv.NoReply? { return Supervision; }
      return if argv.value == Some(job.point) then Done else NotManaged;
    }

    /** The kernel decides, before the unit is signalled. */
    method ReleaseFirst(ours: bool) returns (r: Outcome)
      requires Valid() && !job.mounting && sofar.step == Releasing(ours)
      modifies this
      ensures now >= old(now)
      ensures sleeps == old(sleeps)
      ensures Valid() && sofar.step == if r == Done then Onward(ours) else Ended(r)
    {
      var answer := AskRelease();
      if answer.Granted? { return Done; }
      var live := Look();
      if live && !(job.force && ours) { return Refused(answer); }
      return Done;
    }

    /** Wait for the name of a unit that has let go of its point, and clear its failure. */
    method ClearUnit() returns (r: Outcome)
      requires Valid() && !job.mounting && sofar.step == WaitingFree(ThenClear)
      modifies this
      ensures now >= old(now) && (sofar.step.StillBusy? ==> now >= old(now) + UNIT_GONE_TIMEOUT)
      ensures SleptAtMost(UNIT_GONE_TIMEOUT)
      ensures Valid() && Ends(sofar.step, r) && sofar.step != StillListed && sofar.step != StillStarting
    {
      r := AwaitUnitGone(UNIT_GONE_TIMEOUT);
      if r != Done { return; }
      r := ResetUnit();
    }

    /** Stop the unit, then wait for the point and for the name. `None` when the point is still held. */
    method StopAndClear(live: bool) returns (r: Option<Outcome>)
      requires Valid() && !job.mounting && sofar.step == Stopping(live)
      modifies this
      ensures now >= old(now) && (sofar.step.StillBusy? ==> now >= old(now) + UNIT_GONE_TIMEOUT)
      ensures sofar.step != StillListed && sofar.step != StillStarting
      ensures SleptAtMost(if r.None? then GONE_TIMEOUT else GONE_TIMEOUT + UNIT_GONE_TIMEOUT)
      ensures Valid() && match r case None => sofar.step == StillHeld case Some(o) => Ends(sofar.step, o)
      ensures r.None? ==> now >= old(now) + GONE_TIMEOUT
    {
      var ok: bool := *;
      Make(Stop(job.unit, ok));
      if !ok { return Some(Supervision); }
      if live {
        var gone := AwaitGone(GONE_TIMEOUT);
        assert SleptAtMost(GONE_TIMEOUT);
        if !gone { return None; }
      }
      var cleared := ClearUnit();
      return Some(cleared);
    }

    /** Wait for a point that was given back or detached to go, and clear the unit's failure. */
    method ClearReleased() returns (r: Outcome)
      requires Valid() && !job.mounting && sofar.step == WaitingReleased
      modifies this
      ensures now >= old(now) && (sofar.step == StillListed ==> now >= old(now) + RELEASED_TIMEOUT)
      ensures !sofar.step.StillBusy? && sofar.step != StillStarting && SleptAtMost(RELEASED_TIMEOUT)
      ensures Valid() && Ends(sofar.step, r)
    {
      var gone := AwaitGone(RELEASED_TIMEOUT);
      if !gone { return Busy; }
      r := ResetUnit();
    }

    /** Whatever stopping did not release: ask again, and detach only what may be detached. */
    method ReleaseRest(ours: bool) returns (r: Outcome)
      requires Valid() && !job.mounting && sofar.step == if ours then StillHeld else LookingOnce
      modifies this
      ensures now >= old(now) && (sofar.step == StillListed ==> now >= old(now) + RELEASED_TIMEOUT)
      ensures !sofar.step.StillBusy? && sofar.step != StillStarting
      ensures SleptAtMost(RELEASED_TIMEOUT)
      ensures Valid() && Ends(sofar.step, r)
    {
      var live := Look();
      if !live { return Done; }
      var answer := AskRelease();
      if !answer.Granted? {
        if !(job.force && ours) { return Refused(answer); }
        var detached: Release := *;
        Make(Detach(job.point, detached));
        if !detached.Granted? { return Refused(detached); }
      }
      r := ClearReleased();
    }

    /**
     * One unmount of the job's target, with its locks held. It follows the protocol to one of its
     * ends, and what its result then means is what the protocol makes it mean.
     */
    method Unmount() returns (r: Outcome)
      requires Valid() && sofar == Begin(job) && !job.mounting
      modifies this
      ensures now >= old(now) && GivesUpInTime()
      ensures SleptAtMost(LongestSleep(job))
      ensures Valid() && Ends(sofar.step, r) && UnmountMeans(job, sofar, r) && UnmountAnswers(job, trace, r)
    {
      var live := Look();
      var answer := AskStatus();
      if answer.NoReply? {
        r := Supervision;
      } else {
        var ours := answer.value != O.Inactive;
        if live && !ours && !job.force {
          r := NotManaged;
        } else if !live && !ours {
          r := Done;
        } else {
          r := UnmountOurs(live, answer.value);
        }
      }
      UnmountEnds(job, trace, path, r);
      UnmountEndsAsAnswered(job, trace, path, r);
    }

    /** There is something to unmount: ours, or what force says to. */
    method UnmountOurs(live: bool, status: O.UnitStatus) returns (r: Outcome)
      requires Valid() && !job.mounting && (live || status != O.Inactive)
      requires sofar.step == if live then Identifying(status) else Stopping(false)
      modifies this
      ensures now >= old(now) && GivesUpInTime()
      ensures SleptAtMost(LongestSleep(job))
      ensures Valid() && Ends(sofar.step, r)
      ensures sofar.step == StillListed && status != O.Inactive ==> now >= old(now) + GONE_TIMEOUT + RELEASED_TIMEOUT
    {
      var ours := status != O.Inactive;
      if live {
        r := CheckOwner(status);
        if r != Done { return; }
        r := ReleaseFirst(ours);
        if r != Done { return; }
      }
      if ours {
        var stopped := StopAndClear(live);
        if stopped.Some? { return stopped.value; }
      }
      r := ReleaseRest(ours);
    }

    // --- mounting -------------------------------------------------------------------

    /** Refuse while this entry's own unit still serves the point it had before. */
    method RefuseIfMoved() returns (r: Outcome)
      requires Valid() && job.mounting && sofar.step == AskingMoved
      modifies this
      ensures now >= old(now)
      ensures sleeps == old(sleeps)
      ensures Valid() && sofar.step == if r == Done then LookingFirst else Ended(r)
    {
      var status := AskStatus();
      if status.NoReply? { return Supervision; }
      if status.value == O.Deactivating { return Done; }
      var found := Sweep(true);
      if found.NoReply? { return Supervision; }
      return if found.value then NotManaged else Done;
    }

    /** One sweep for the point; finding any unit of ours at it ends the mount. */
    method RefuseToTakeOver() returns (r: Outcome)
      requires Valid() && job.mounting && (sofar.step == SweepingStale || sofar.step.SweepingPoint?)
      modifies this
      ensures now >= old(now)
      ensures sleeps == old(sleeps)
      ensures Valid() && (r == Done || r == NotManaged || r == Supervision)
      ensures r != Done ==> sofar.step == Ended(r)
      ensures r == Done ==> sofar.step == NextMounting(old(sofar).step, SawOrphan(Reply(false)))
    {
      var found := Sweep(false);
      if found.NoReply? { return Supervision; }
      return if found.value then NotManaged else Done;
    }

    /** What to do about a point already listed: `None` to go on and start. */
    method ClearTheWay() returns (r: Option<Outcome>)
      requires Valid() && job.mounting && sofar.step == Probing
      modifies this
      ensures now >= old(now) && (sofar.step.StillBusy? ==> now >= old(now) + UNIT_GONE_TIMEOUT)
      ensures sofar.step != StillListed && sofar.step != StillStarting
      ensures SleptAtMost(UNIT_GONE_TIMEOUT)
      ensures Valid() && match r case None => sofar.step == Preparing case Some(o) => Ends(sofar.step, o)
    {
      var stale: bool := *;
      Make(SawStale(job.point, stale));
      if stale {
        var clear := RefuseToTakeOver();
        if clear != Done { return Some(clear); }
        var answer := AskRelease();
        return if answer.Granted? then None else Some(Refused(answer));
      }
      r := YieldToServing();
    }

    method YieldToServing() returns (r: Option<Outcome>)
      requires Valid() && job.mounting && sofar.step == AskingServing
      modifies this
      ensures now >= old(now) && (sofar.step.StillBusy? ==> now >= old(now) + UNIT_GONE_TIMEOUT)
      ensures sofar.step != StillListed && sofar.step != StillStarting
      ensures SleptAtMost(UNIT_GONE_TIMEOUT)
      ensures Valid() && match r case None => sofar.step == Preparing case Some(o) => Ends(sofar.step, o)
    {
      var status := AskStatus();
      if status.NoReply? { return Some(Supervision); }
      if !status.value.IsServing() {
        var clear := RefuseToTakeOver();
        if clear != Done { return Some(clear); }
      }
      match status.value {
        case Active => return Some(Done);
        case Activating => return Some(Done);
        case Deactivating =>
          var gone := AwaitUnitGone(UNIT_GONE_TIMEOUT);
          return if gone == Done then None else Some(gone);
        case Failed => return None;
        case Inactive => return Some(NotManaged);
      }
    }

    /** Clear what a previous run left under this name, and start. */
    method StartUnit() returns (r: Outcome)
      requires Valid() && job.mounting && sofar.step == CheckingSocket
      modifies this
      ensures now >= old(now)
      ensures sleeps == old(sleeps)
      ensures Valid() && sofar.step == if r == Done then WaitingReady else Ended(r)
    {
      var there: bool := *;
      Make(SawSocket(job.unit, there));
      if there { Make(Unlink(job.unit)); }
      r := ResetUnit();
      if r != Done { return; }
      var ok: bool := *;
      Make(Start(job.unit, ok));
      r := if ok then Done else Supervision;
    }

    /** The unit's name is free, or somebody is already bringing the mount up. */
    method Launch() returns (r: Outcome)
      requires Valid() && job.mounting && sofar.step == AskingUnit
      modifies this
      ensures now >= old(now) && GivesUpInTime()
      ensures SleptAtMost(UNIT_GONE_TIMEOUT + READY_TIMEOUT)
      ensures Valid() && Ends(sofar.step, r)
    {
      var status := AskStatus();
      if status.NoReply? { return Supervision; }
      if status.value == O.Active || status.value == O.Activating {
        r := AwaitReady();
        return;
      }
      if status.value == O.Deactivating {
        r := AwaitUnitGone(UNIT_GONE_TIMEOUT);
        assert SleptAtMost(UNIT_GONE_TIMEOUT);
        if r != Done { return; }
      }
      r := StartUnit();
      if r == Done { r := AwaitReady(); }
    }

    /** One mount of a configured entry, with its lock held. It follows the protocol to one of its ends. */
    method Mount() returns (r: Outcome)
      requires Valid() && sofar == Begin(job) && job.mounting
      modifies this
      ensures now >= old(now) && GivesUpInTime()
      ensures SleptAtMost(LongestSleep(job))
      ensures Valid() && Ends(sofar.step, r) && MountMeans(sofar, r) && MountAnswers(job, trace, r)
    {
      r := MountSteps();
      MountEnds(job, trace, path, r);
      MountEndsAsAnswered(job, trace, path, r);
    }

    method MountSteps() returns (r: Outcome)
      requires Valid() && job.mounting && sofar.step == AskingMoved
      modifies this
      ensures now >= old(now) && GivesUpInTime()
      ensures SleptAtMost(LongestSleep(job))
      ensures Valid() && Ends(sofar.step, r)
    {
      r := RefuseIfMoved();
      if r != Done { return; }
      var live := Look();
      if live {
        var settled := ClearTheWay();
        if settled.Some? { return settled.value; }
      }
      var pointMade: bool, runtimeMade: bool := *, *;
      Make(Prepared(pointMade, runtimeMade));
      if !pointMade { return BadMountPoint; }
      if !runtimeMade { return Supervision; }
      r := Launch();
    }
  }

  /** What a queue of operations on one unit can sleep through before its last has its lock. */
  function LongestQueue(ahead: seq<Job>): nat {
    if ahead == [] then 0 else LongestSleep(ahead[0]) + LongestQueue(ahead[1..])
  }

  lemma {:induction false} QueueOfMounts(job: Job, n: nat)
    requires job.mounting
    ensures LongestQueue(seq(n, _ => job)) == n * LongestSleep(job)
  {
    if n > 0 {
      assert seq(n, _ => job)[1..] == seq((n - 1) as nat, _ => job);
      QueueOfMounts(job, n - 1);
    }
  }

  lemma {:induction false} QueueIsNoLongerThanMounts(ahead: seq<Job>)
    ensures LongestQueue(ahead) <= |ahead| * (2 * UNIT_GONE_TIMEOUT + READY_TIMEOUT)
  {
    if ahead != [] { QueueIsNoLongerThanMounts(ahead[1..]); }
  }

  /**
   * How many operations ahead of it on its target a redirected unmount is sure to outwait, as far
   * as their own waits go: two, whatever they are. Three mounts can sleep for longer than it waits.
   */
  lemma OutwaitsTheQueueExactly(n: nat)
    ensures (forall ahead: seq<Job> :: |ahead| == n ==> LongestQueue(ahead) <= REDIRECT_LOCK_WAIT) <==> n <= 2
  {
    if n <= 2 {
      forall ahead: seq<Job> | |ahead| == n ensures LongestQueue(ahead) <= REDIRECT_LOCK_WAIT {
        QueueIsNoLongerThanMounts(ahead);
      }
    } else {
      var mount := Job("", "", "", false, true);
      QueueOfMounts(mount, n);
      assert |seq(n, _ => mount)| == n;
    }
  }
}
