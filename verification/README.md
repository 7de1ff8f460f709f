# A verified model of the rclone VFS mount service

The service mounts rclone remotes as transient systemd units, watches them, and tells clients
over D-Bus which mounts exist and what still has to upload. This project models the parts whose
mistakes lose data or mislead a user, and proves what those parts promise.

- **Supervisor** (`Config`, `Names`, `MountInfo`, `Ownership`, `Locks`, `Protocol`, `Outcomes`,
  `Supervisor`):
  whose a mount is, one operation per unit at a time, and the order in which an operation asks the
  kernel, stops a unit, detaches, resets and starts.
- **Registry** (`Mounts`, `Registry`, `Watcher`): the service's model of its mounts, the changes it
  publishes, and a client that rebuilds the model from a snapshot and overlapping changes.
- **Poller** (`Transfer`, `Rate`, `Scan`, `Poller`): what must have been observed before any reading
  may say a mount is safe to unmount, over rc and off the disk.
- **Codecs and limits** (`Umask`, `RcRetry`, and parts of `Names`, `MountInfo`, `Transfer`).

Code that changes state is a class or a method with the fields and loops of the original, tied by
its `ensures` to a specification function; the theorems are lemmas about those functions, or about
traces and runs of them. What the world answers -- systemd, the kernel, rclone, the filesystem, the
clock, other callers -- is an argument or an arbitrary value, so every statement holds whatever it
answers. A run is a sequence of arbitrary length.

## How the pieces compose

`Ownership.Reconcile` produces the rows of a sweep. `Ownership.RowsOfOneNameAgree` shows that such a
list never says two things of one name, stacked mounts included, so
`Watching.ReconciledSweepsHaveNoEcho` holds of every sweep of a system seen whole.
`Watching.Watcher.Loop` keeps a record of everything its registry went through, with everything
published about it and where its sweeps came from, and `Watching.WatchedStreamConverges` turns that
record into convergence of any late joiner. `Ownership.TargetUnitIsItsName` shows that the name an
unmount locks and the unit it stops determine each other, which is what makes
`Locks.OneOperationPerUnit` an exclusion of effects and lets `Supervisor.Operation` be one
operation's undisturbed trace. Those operations are proved to follow `Protocol` to one of its ends.
`Protocol.OnlyAnswersDiffer` shows that the protocol fixes everything but the answers and the clock,
so the guarantees proved of its traces are about what the operations do, and the exceptions proved
reachable in it are exceptions of theirs. `Outcomes` says the same of the events alone: which event
comes after which, and which ending each answer is given for. `Poller.SafeOffDiskMeansClean` says what the empty walk in
`Poller.SafeReadingsAreEarned` proves about the tree on disk. A watcher numbers its turns and notes
in which of them it really asked each mount; `Watching.SafeReadingsReachClientsEarned` says that a
reading any client holds is the one the answers of those turns end with, and that a safe one rests
on them.

## Where the code does less than its documentation says

Each is proved with the exact condition under which it happens; the lemmas named second show it
happening.

- Two foreign mounts on one point give two rows one name (`Ownership.RowNamesAreAKeyExactly`,
  `Ownership.StackedMountsShareAName`). The rows are the same, so clients converge all the same.
- Configured points are compared as written, so two spellings of one directory pass validation, and
  a mount of ours then reads as somebody else's (`Ownership.OwnershipIsLostExactly`,
  `Ownership.SharedDirectoryLosesOwnership`).
- Parsing two mountinfo texts joined by a newline is the concatenation of parsing each, except
  after a carriage return that ends a source (`MountInfo.ParseOfJoinedIsConcatenation`,
  `MountInfo.AReturnIsDropped`).
- The retry doubling runs out of bits for budgets just under 100 ms * 2^32, and only with 34 or more
  attempts (`RcRetry.DoublingOverflowsExactly`).
- Two upload counts whose sum is exactly 2^64 read as nothing outstanding
  (`Poller.CountsWrapToNothing`).
- Some unmonitored readings leave the rate estimator alone (`Poller.UnmonitoredRate`).
- A sample at a repeated instant drops its bytes (`Rate.CountedBytesAreConserved`).
- An unmount of ours that succeeds has cleared its unit, unless the point was still held when the
  wait for it ran out and gone at the very next look (`Protocol.UnmountEnds`); that happens
  (`Protocol.SuccessCanLeaveTheUnit`).
- An unmount that fails before any stop has touched something exactly when the kernel gave the point
  back, which takes force on a mount that is not ours (`Protocol.UnmountEnds`); that happens
  (`Protocol.FailureCanFollowAGrant`).
- A mount starts its unit over a point still listed exactly when a stale point was given back, or
  the point answered under a unit that had failed or was stopping
  (`Protocol.StartsOverAListedPointExactly`); that happens (`Protocol.AMountCanStartOverAnother`).
- A release does not always act on the point that is held, nor is the kernel always asked for it
  before its unit is stopped. When an entry's unit serves another point, and a configured unit is
  taken to hold that point, an unmount acts on the entry's own, and asks the kernel at all only if
  that one is listed (`Ownership.UnmountActsOnTheServedPointExactly`,
  `Protocol.ServedPointIsAskedForExactly`, `Protocol.StopsUnaskedExactly`); a validated
  configuration and a consistent system in which it happens are
  `Ownership.UnmountCanMissTheServedPoint` and `Protocol.AServingUnitIsStoppedUnasked`. Such an
  entry reads as mounted while its own point is live (`Ownership.MountedExactly`).
- A mount makes sure that its unit serves no other point, by a sweep or by starting it, unless the
  unit's first status has it stopping and it is not started after all
  (`Protocol.SuccessIsSweptForExactly`); such a mount can report success while its unit, up again,
  serves another point and a foreign mount answers at its own (`Protocol.AMountCanSucceedOverAnother`).
- A redirected unmount gives up after 300 s, which is meant to be reached only when two redirects
  cross (`Locks.OnlyTheTimeoutUncrosses`). An operation sleeps for at most 65 s unmounting and 115 s
  mounting (`Supervisor.Operation.Unmount`, `Supervisor.Operation.Mount`), so two operations queued on
  the target are always outwaited and three need not be (`Supervisor.OutwaitsTheQueueExactly`,
  `Protocol.AMountCanWaitThreeTimes`).
- A table line that stops right after a source ending in a carriage return loses the return, and no
  other line loses anything (`MountInfo.TableRoundTrip`).
- The lock of an unknown name is dropped unless another operation refers to it
  (`Locks.EvictsExactly`), so its entry can outlive them all (`Locks.AnEntryCanBeLeft`).
- An unmount finds what it resolved unless it was redirected (`Locks.NobodyElseActsOnItsName`); a
  redirected one can be overtaken (`Locks.ARedirectCanBeOvertaken`).

Taken alone, `observe_mounts` compares rows against the map from before the sweep, so a list with
two different rows for one name can leave a client wrong (`Registries.SweepIsFollowedExactly` says
exactly which lists do). No list the service produces is one of those.

## Model

| member | source | states |
|---|---|---|
| Ownership.SweepOrphans | crates/service/src/supervisor.rs:332-403 | the lazy sweep lists exactly the loaded units that serve a live point the configuration does not put them at, in unit order |
| Ownership.FindHolder | crates/service/src/supervisor.rs:413-430 | true exactly when a configured mount at the point has a serving unit whose argv is unreadable or resolves to the point |
| Ownership.OrphansAreTheMisplacedUnits | crates/service/src/supervisor.rs:332-403 | a target is an orphan if and only if it is built from a loaded unit that meets every condition of the sweep |
| Ownership.UneditedUnitIsNoOrphan | crates/service/src/supervisor.rs:372-377 | a unit serving its entry's point as written is never an orphan, whatever else the system shows |
| Ownership.Reconcile | crates/service/src/supervisor.rs:1224-1268 | the loops list the configured rows, then unnamed orphans, then unclaimed live rclone mounts |
| Ownership.ForeignExactly | crates/service/src/supervisor.rs:574-646 | a point reads as foreign if and only if it is live, no orphan is there, and it is nobody's configured point or some idle entry's |
| Ownership.OwnershipIsLostExactly | crates/service/src/supervisor.rs:332-430 | a live point a unit of ours serves reads as foreign if and only if one configured entry there has its unit holding it and another, idle, resolves to it too |
| Ownership.OwnershipIsNeverLost | crates/service/src/supervisor.rs:306-331 | with distinct resolved points, no live point named by a serving unit's readable argv is ever reported foreign |
| Ownership.SharedDirectoryLosesOwnership | crates/core/src/config.rs:684-690 | a validated configuration with two spellings of one directory reports a mount of ours as foreign |
| Ownership.StatesExactly | crates/service/src/supervisor.rs:574-646 | a configured mount reads mounted, mounting, unmounting or unmounted if and only if the kernel, its unit and the sweep for orphans say so |
| Ownership.ComplaintsExactly | crates/service/src/supervisor.rs:574-646 | a configured mount reads moved, not responding, failed, still held or foreign if and only if the kernel, its unit and the orphans say so, each naming what it is about, and never as orphaned |
| Ownership.OrphansExactly | crates/service/src/supervisor.rs:332-403 | a target is an orphan if and only if some loaded unit of ours is up with a readable argv at a live point where it is not placed as written and no configured unit holds the point |
| Ownership.MountedExactly | crates/service/src/supervisor.rs:579-595 | an entry with an active serving unit, its own point live and answering, reads mounted if and only if a configured unit is taken to hold what its unit serves |
| Ownership.EveryLiveMountIsAnswered | crates/service/src/supervisor.rs:1240-1265 | every live rclone point is configured, an orphan's, or has its own foreign row, and exactly the unclaimed ones have that row |
| Ownership.EveryOrphanIsReported | crates/service/src/supervisor.rs:1246-1257 | each orphan is listed, under its entry's name as moved or in a row of its own, and unmounting that name acts on it |
| Ownership.TargetUnitIsItsName | crates/service/src/supervisor.rs:480-514 | whatever name is asked for, the target's unit is the unit name of the target's own name |
| Ownership.UnmountOfAnIdleEntry | crates/service/src/supervisor.rs:503-515 | unmounting an entry whose unit is not up acts on the first orphan serving its point, with that unit, name and argv spec, and on the entry itself if and only if there is none |
| Ownership.UnmountOfAServingEntry | crates/service/src/supervisor.rs:490-502 | unmounting an entry whose unit is up acts on what the unit serves if that makes it an orphan, and on the entry itself otherwise |
| Ownership.UnmountOfAnUnconfiguredName | crates/service/src/supervisor.rs:480-488 | a name no entry has is that of an orphan, or unknown |
| Ownership.WhatStillHoldsIsUnmounted | crates/service/src/supervisor.rs:503-515 | the unit a state says still holds the point is the one an unmount of that entry acts on |
| Ownership.UnmountActsOnTheServedPointExactly | crates/service/src/supervisor.rs:490-500 | unmounting a serving configured mount acts on its unit, and on the point that unit serves if and only if that is the entry's own or no configured unit is taken to hold it |
| Ownership.UnmountCanMissTheServedPoint | crates/service/src/supervisor.rs:490-500 | in a consistent system an unmount stops a unit serving one point on behalf of another, where nothing is mounted |
| Ownership.RowNamesAreAKeyExactly | crates/service/src/supervisor.rs:1395-1410 | row names are unique if and only if the unclaimed live rclone points are |
| Ownership.StackedMountsShareAName | crates/service/src/supervisor.rs:1257-1265 | a consistent system with two foreign mounts on one point lists one name twice |
| Ownership.RowsOfOneNameAgree | crates/service/src/supervisor.rs:1224-1268 | rows of one name, where there are several, are the same row |
| Ownership.StateAgreesWithTheRows | crates/service/src/supervisor.rs:1206-1222 | asking for one listed name gives the state its row shows, and a foreign name is unknown to state and unmount alike |
| Configs.Validate | crates/core/src/config.rs:607-691 | the identity checks pass exactly the lists with valid distinct names and distinct absolute points, and otherwise fault the first mount at fault |
| Configs.FaultsSayWhich | crates/core/src/config.rs:607-691 | each fault is given if and only if a mount breaks that rule and none of those checked before it |
| Configs.SpecIsRemoteAndPath | crates/core/src/config.rs:230-236 | rclone is given the remote and the path without the slashes it starts with |
| Configs.UnitsAreDistinct | crates/core/src/config.rs:243-256 | two mounts of a sound configuration never share a unit |
| Configs.ArgvReadsBack | crates/service/src/systemd.rs:251-260 | the argv composed for a mount reads back as serving that mount, whatever flags follow |
| Names.OrphanNameIsExact | crates/service/src/supervisor.rs:1404-1410 | a unit is read as ours under a name exactly when it is the prefix, that name and the suffix, and the name is not reserved |
| Names.OrphanNameInvertsUnitName | crates/core/src/config.rs:238-256 | for every valid name, the orphan name of a unit is that name if and only if the unit is that name's |
| Names.SocketFileNameIsInjective | crates/core/src/rc.rs:204-214 | two names share an rc socket file only if equal, the file has no separator, and a configured name is its own file stem |
| Locks.CountOfTwoMeansAlone | crates/service/src/supervisor.rs:1014-1023 | a reference count of two means no other operation has a clone of the lock |
| Locks.StepKeepsInv | crates/service/src/supervisor.rs:1002-1050 | every step of every operation, resolutions that fail included, keeps listed locks and exclusive holders |
| Locks.TheTableNamesTheLock | crates/service/src/supervisor.rs:1002-1027 | in every reachable state an operation with its lock has the lock the table names, until it has evicted it itself |
| Locks.OneOperationPerUnit | crates/service/src/supervisor.rs:1029-1050 | in every interleaving at most one operation acts on a given unit, redirects and evictions included |
| Locks.NobodyElseActsOnItsName | crates/service/src/supervisor.rs:1002-1057 | from the moment an operation resolves its name until it stops acting, nobody else acts on that name's unit, so what an operation that is not redirected resolved still stands |
| Locks.ARedirectCanBeOvertaken | crates/service/src/supervisor.rs:1031-1057 | a redirected unmount can resolve, see another operation act on its target and finish, and act on what it resolved before |
| Locks.EvictsExactly | crates/service/src/supervisor.rs:1009-1023 | an unknown name loses its lock's entry if and only if no other operation refers to that lock |
| Locks.AnEntryCanBeLeft | crates/service/src/supervisor.rs:1009-1023 | two unmounts of one unknown name can both finish with the entry still listed |
| Locks.SomebodyCanStep | crates/service/src/supervisor.rs:31-37 | from every unfinished state some operation can step |
| Locks.EveryRunEnds | crates/service/src/supervisor.rs:1038-1050 | a run has at most seven steps an operation, and one that cannot be extended has finished every operation |
| Locks.EveryOperationIsAccountedFor | crates/service/src/supervisor.rs:1002-1057 | in every finished run a mount has acted on its own name, and an unmount on what its name was found to mean unless the name could not be resolved or the bounded wait ran out |
| Locks.OnlyTheTimeoutUncrosses | crates/service/src/supervisor.rs:31-37 | two unmounts redirected onto each other is reachable, and only the bounded wait lets either of them move |
| Protocol.OnlyAnswersDiffer | crates/service/src/supervisor.rs:860-1203 | two traces of the protocol part only over an answer to the same question or over when a wait gives up, and its results are determined |
| Supervisor.Operation.Unmount | crates/service/src/supervisor.rs:1059-1203 | the code follows the protocol to one of its ends, sleeping for at most 65 s in all and giving up no wait early, with each answer given exactly for the endings `Outcomes.UnmountEndsAsAnswered` states: success means the point was last seen gone, with a unit of ours stopped, and cleared unless the point went between two looks; a failure before any stop touched something exactly when the kernel granted a forced release of a foreign mount |
| Supervisor.Operation.Mount | crates/service/src/supervisor.rs:860-992 | the code follows the protocol to one of its ends, sleeping for at most 115 s in all and giving up no wait early, with each answer given exactly for the endings `Outcomes.MountEndsAsAnswered` states: success means the point was last seen listed, with the unit started or running, found by a sweep to serve no other point unless it was first read stopping, and every suspicion of a unit of ours behind the point swept for; it never stops or detaches; over a point that answers under an inactive unit it refuses and touches nothing |
| Outcomes.UnmountEndsAsAnswered | crates/service/src/supervisor.rs:1059-1203 | over every trace, by its events alone: NotManaged if and only if the point was listed at first, unforced, and the unit was inactive or the source another and no serving unit's argv names the point; likewise when, exactly, Done, Busy and Supervision come |
| Outcomes.MountEndsAsAnswered | crates/service/src/supervisor.rs:860-992 | over every trace, by its events alone: when, exactly, each of Done, NotManaged, Busy, BadMountPoint, RcloneFailed and Supervision comes |
| Outcomes.UnmountGoesOn | crates/service/src/supervisor.rs:1059-1203 | over every trace, which event an unmount makes after those it has made |
| Outcomes.MountGoesOn | crates/service/src/supervisor.rs:860-992 | over every trace, which event a mount makes after those it has made: a unit found up is waited for, one found stopping is waited out, a socket found is removed |
| Protocol.UnmountEnds | crates/service/src/supervisor.rs:1059-1203 | every unmounting trace that ends means by its result what is stated of `Supervisor.Operation.Unmount` |
| Protocol.MountEnds | crates/service/src/supervisor.rs:860-992 | every mounting trace that ends means by its result what is stated of `Supervisor.Operation.Mount` |
| Protocol.SuccessIsSweptForExactly | crates/service/src/supervisor.rs:875-894 | a mount that succeeds has swept for its own unit serving elsewhere if and only if the unit's first status was not stopping, and has made sure of it if and only if that or the unit was started; each suspicion about the point was followed by a sweep that found nothing |
| Protocol.AMountCanSucceedOverAnother | crates/service/src/supervisor.rs:875-924 | in a consistent system, its unit having been stopping at the first look, a mount reports success over a foreign mount while its unit serves another point |
| Protocol.AMountCanWaitThreeTimes | crates/service/src/supervisor.rs:926-990 | a mount can sit through all three of its waits, sleeping any number of times in each, and succeed |
| Supervisor.OutwaitsTheQueueExactly | crates/service/src/supervisor.rs:31-37 | a redirected unmount is sure to outwait the sleeps of any n operations ahead of it if and only if n is at most two |
| Protocol.StepsKeepWhatIsKnown | crates/service/src/supervisor.rs:860-1203 | at every step, whatever the protocol does next is permitted by the rules on releasing, stopping, detaching, clearing and starting, and leaves what the next step relies on |
| Protocol.SuccessCanLeaveTheUnit | crates/service/src/supervisor.rs:1166-1170 | for every unmount there are answers under which it succeeds with its own unit stopped and not cleared |
| Protocol.FailureCanFollowAGrant | crates/service/src/supervisor.rs:1166-1181 | for every forced unmount there are answers under which it fails, before any stop, after the kernel gave the point back |
| Protocol.StartsOverAListedPointExactly | crates/service/src/supervisor.rs:880-924 | a start follows a look that listed the point if and only if a stale point was given back or the point answered under a failed or a stopping unit |
| Protocol.AMountCanStartOverAnother | crates/service/src/supervisor.rs:915-924 | for every mount there are answers under which it starts its unit while the point is listed and answering |
| Supervisor.Operation.AwaitGone | crates/service/src/supervisor.rs:827-838 | answers by the last look, gives up only past its deadline, and sleeps no more often than the timeout allows |
| Supervisor.Operation.AwaitUnitGone | crates/service/src/supervisor.rs:808-825 | succeeds only with the unit read inactive or failed, gives up only past its deadline, and sleeps no more often than the timeout allows |
| Supervisor.Operation.AwaitReady | crates/service/src/supervisor.rs:650-682 | succeeds only on a look that lists the point, gives up only past its deadline, and sleeps no more often than the timeout allows |
| Protocol.DetachFollowsItsStop | crates/service/src/supervisor.rs:45-53 | a detach comes only under force, right after a refusal, after the stop of a unit that had been seen to exist |
| Protocol.StopHasTheKernelsLeave | crates/service/src/supervisor.rs:1117-1146 | a unit is stopped at most once, after the kernel was asked for the point or it was seen gone, and without force only after the kernel gave it back or it was seen gone |
| Protocol.StopsUnaskedExactly | crates/service/src/supervisor.rs:1063-1146 | by the time an unmount stops its unit the kernel has been asked for the target's point if and only if the first look listed it |
| Protocol.ServedPointIsAskedForExactly | crates/service/src/supervisor.rs:490-500 | when an unmount stops a serving unit, the kernel has been asked for the point the unit serves if and only if that is the entry's own or no configured unit is taken to hold it |
| Protocol.AServingUnitIsStoppedUnasked | crates/service/src/supervisor.rs:1117-1146 | in a consistent system, forced or not, an unmount that gets every answer as the system stands stops a unit while it serves a live point, with no request to the kernel |
| Protocol.ReleaseIsOfOurOwn | crates/service/src/supervisor.rs:1079-1116 | the kernel is asked only for a point last seen listed, and without force only for an existing unit whose source or argv fits |
| Protocol.ResetFollowsTheRelease | crates/service/src/supervisor.rs:1155-1164 | an unmount clears a unit's failure only when the last look found the point gone, and after a stop only with the unit seen at rest since or the point asked for again; a mount only with the unit last read at rest |
| Protocol.StartFollowsAReset | crates/service/src/supervisor.rs:945-990 | a start comes right after a reset that worked, with the unit last read inactive or failed |
| Protocol.UnlinkOnlyAtRest | crates/service/src/supervisor.rs:945-951 | the rc socket is removed only by a mount whose unit was last read inactive or failed |
| Protocol.MountChecksForOurOwn | crates/service/src/supervisor.rs:863-906 | when a mount starts its unit or gives a stale point back, it has swept for the entry's own unit serving elsewhere if and only if the unit's first status was not stopping, and every suspicion of a unit of ours at the point was swept for |
| Protocol.NothingStartsOverAForeignMount | crates/service/src/supervisor.rs:916-924 | once a point answers under an inactive unit, nothing is reset, unlinked or started |
| Protocol.LiveIsTheLastLook | crates/service/src/supervisor.rs:553-567 | what an operation believes about the point is the answer of its last look at the mount table |
| MountInfo.RcloneMountsExactly | crates/core/src/mountinfo.rs:30-38 | a mount counts as rclone's if and only if it has rclone's own type, or is bare FUSE with a source that is a remote and a path |
| MountInfo.LineRoundTrip | crates/core/src/mountinfo.rs:91-110 | a line rendered by section 3.5 of the kernel's proc.rst, with any optional fields, parses back to its entry |
| MountInfo.TableRoundTrip | crates/core/src/mountinfo.rs:46-110 | a whole table reads back one entry a line, each as it was written if and only if its line does not stop right after a source ending in an unescaped carriage return |
| MountInfo.KernelEscapeInverts | crates/core/src/mountinfo.rs:113-138 | undoing octal escapes inverts the kernel's escaping, for any set of escaped characters it chooses |
| MountInfo.EscapedBytesExactly | crates/core/src/mountinfo.rs:113-138 | after a backslash, three characters stand for a byte if and only if they are its octal digits, or, below 64, a plus and the last two of them |
| MountInfo.UnescapeField | crates/core/src/mountinfo.rs:113-138 | the character loop computes the escape decoding |
| MountInfo.ParseOneLine | crates/core/src/mountinfo.rs:91-110 | the field loop computes the parse of a line |
| MountInfo.ParseOfJoinedIsConcatenation | crates/core/src/mountinfo.rs:46-52 | two joined texts parse to the concatenation of each if and only if the first does not end in a source with a carriage return |
| MountInfo.AReturnIsDropped | crates/core/src/mountinfo.rs:50-52 | a line ending in such a source parses differently once any text follows it |
| Registries.LateJoinerConverges | crates/core/src/ipc.rs:14-18 | subscribing anywhere in the stream, in the middle of a sweep's changes too, listing, asking and then applying everything said since gives the registry's rows and readings; where none is stored, none or one that claims nothing |
| Registries.EventSays | crates/service/src/registry.rs:48-105 | after any event, each name was told exactly what became of its row and its reading |
| Registries.SilentExactlyWhenNothingChanges | crates/service/src/registry.rs:48-105 | an event publishes nothing if and only if it leaves the registry as it was |
| Registries.NothingToSaySaysWhy | crates/service/src/registry.rs:129-168 | a mount that is not read has a reading without figures, with the one reason of its state |
| Mounts.ViewsTellStatesApart | crates/core/src/ipc.rs:123-157 | what a client is shown of each state, no two states shown alike |
| Registries.SweepIsFollowedExactly | crates/service/src/registry.rs:48-72 | a client in step stays in step over a sweep if and only if no row repeats, last, what was held after an earlier row differed |
| Registries.ReadingsAlwaysBelong | crates/service/src/registry.rs:54-60 | in every run a reading is stored only for a mount that is serving and ours |
| Registries.TierIsTheRichestSeen | crates/service/src/registry.rs:97-105 | in every run the tier held is the richest ever reported, and none before the first report |
| Registries.StoredWasRead | crates/service/src/registry.rs:75-82 | in every run whatever is stored for a name was read, earlier, of that name |
| Registries.Registry.ObserveMounts | crates/service/src/registry.rs:48-72 | a sweep publishes and keeps exactly what the specification of a sweep says, removals in some order |
| Registries.Registry.ObserveTransfer | crates/service/src/registry.rs:75-82 | a reading is stored, and published exactly when it is new |
| Registries.Registry.NoteTier | crates/service/src/registry.rs:97-105 | the best tier seen is kept, and said exactly when it changes |
| Watching.Watcher.Tick | crates/service/src/watch.rs:108-127 | a tick sweeps exactly when due, leaves pollers and deadlines for the mounted mounts only, none older than what was acted on, each mount asked with its deadline as far ahead of an instant in the tick as its reading calls for, the registry's tier the richest told of a build that answered, and waits to the first deadline and no further |
| Watching.Watcher.PollDue | crates/service/src/watch.rs:190-223 | every pollable mount is left as it was while not due and otherwise asked once, with its reading stored and its deadline set at an instant read afterwards plus the wait the reading calls for: the longer cadence off the disk, the active one with files pending, the idle one otherwise |
| Watching.Watcher.Wake | crates/service/src/watch.rs:145-150 | a nudge sets the sweep to one gap after the last and never postpones it |
| Watching.Watcher.Await | crates/service/src/watch.rs:139-152 | names acted on are kept for the next tick; a nudge that comes first pulls the sweep in and is used up, and otherwise the whole wait is slept |
| Watching.Watcher.Loop | crates/service/src/watch.rs:133-152 | over any turns and nudges, sweeps start a gap after the previous one ended, what is published is all the registry said, in order, a record of whole sweeps stays one, and every poller is as the answers of the turns it was asked in have left it, every reading given the one such answers end with |
| Watching.CycledIsAskedAfresh | crates/service/src/watch.rs:36-66 | a mount acted on is asked through a poller no older than the tick, and its poller and its reading come of this turn's probe and round alone |
| Watching.WatchedStreamConverges | crates/service/src/dbus.rs:123-139 | the record a watcher keeps of sweeps of systems seen whole makes every late joiner converge, from anywhere in the stream, stacked mounts or not |
| Watching.SafeReadingsReachClientsEarned | crates/core/src/transfer.rs:285-301 | a late joiner's reading that claims to know what is outstanding was given to the registry with the turns its mount was asked in, and is what the answers of those turns end with; one that says nothing is outstanding rests on evidence in those answers |
| Watching.WhoIsPolled | crates/service/src/watch.rs:190-205 | after a sweep of a system seen whole a name is polled if and only if it names a configured mount whose unit is up and serves its own live, answering point |
| Watching.ReconciledSweepsHaveNoEcho | crates/service/src/watch.rs:170-188 | the views of a sweep never say two things of one name, so no registry hears an echo in them |
| Watching.ReconciledSweepsAreDistinct | crates/service/src/watch.rs:170-188 | the views of a sweep list each name once if and only if no foreign mounts are stacked |
| Poller.SafeReadingsAreEarned | crates/service/src/poller.rs:308-404 | over every run a safe reading rests on this poll's own answers or on an empty complete walk of the roots last named |
| Poller.SafeExactlyWhenSeenEmpty | crates/service/src/poller.rs:125-404 | a reading is safe if and only if a fully queued cache was reported empty by this poll, or its roots were walked completely and held nothing |
| Poller.FidelityNamesTheSource | crates/service/src/poller.rs:125-289 | each tier is claimed exactly when its source answered; never T1; no tier means nothing known, and a reason |
| Poller.QueueReadingShows | crates/core/src/transfer.rs:112-144 | a queue reading shows the queue's own items, counted, summed and with their uploads, each file with what its own transfer out of the latched cache has sent |
| Poller.CountsReadingShows | crates/core/src/transfer.rs:146-161 | a counts reading shows the two counts added up, unsized, and no files, progress or rate |
| Poller.DiskReadingShows | crates/core/src/transfer.rs:163-197 | a disk reading shows every dirty file of the walk with its name and size, their number and their total, and no uploads, progress or rate |
| Poller.UnmonitoredShowsNothing | crates/core/src/transfer.rs:200-216 | a reading without a tier shows no figure |
| Poller.HealthIsOfThisRound | crates/service/src/poller.rs:207-209 | errors and fullness are those of the cache this poll's stats described, in every reading over rc, and are said of no other reading |
| Poller.RateFollowsTheRemainder | crates/service/src/poller.rs:272-288 | a queue reading with files pending samples its own remainder and shows the estimate unless it is zero with something uploading; every other reading with a tier starts over |
| Poller.RcReadingSaysWhy | crates/service/src/poller.rs:207-253 | a reading over rc gives the one reason its mode, or what was missing, calls for, and none if and only if the mode hides no write |
| Poller.DiskReadingSaysWhy | crates/service/src/poller.rs:339-388 | a disk reading names the error that led there, what it found, and what its mode leaves open |
| Poller.UnmonitoredSaysWhy | crates/service/src/poller.rs:125-404 | a reading without a tier names the first thing that was refused, missing or failed |
| Poller.OnlySilenceGoesToDisk | crates/core/src/rc.rs:104-113 | a poll goes to the disk only over an error that says nothing answered, never over a bad answer |
| Poller.ModesAreOrdinals | crates/core/src/models.rs:356-367 | the four modes are rclone's ordinals 0 to 3, two of which hide no write |
| Poller.BuildBoundsItsReadings | crates/core/src/capabilities.rs:142-152 | a build's tier is the best its commands allow, and no reading over rc claims a better one |
| Poller.LatchFollowsTheLastWord | crates/service/src/poller.rs:415-468 | over every run roots and mode are what the latest answered stats said: both roots or neither, nothing after a 404 |
| Poller.MountPoller.Poll | crates/service/src/poller.rs:125-289 | one poll answers and latches as the specification of a poll says, for every answer rclone, the disk and the clock may give; what that comes to is stated by the rows around this one |
| Poller.MountPoller.AskStats | crates/service/src/poller.rs:420-468 | what is asked, answered and latched about the cache, the 404 and the absent cache included |
| Poller.CapabilitiesAreLatched | crates/service/src/poller.rs:129-138 | over every run a capability set, once not empty, never changes |
| Poller.SafeOffDiskMeansClean | crates/core/src/scan.rs:86-94 | a safe reading that rests on a walk of a tree that held still is of a tree with no dirty file and nothing unreadable |
| Poller.CountsWrapToNothing | crates/core/src/transfer.rs:151-169 | two counts read as nothing outstanding if and only if both are zero or their sum is exactly 2^64 |
| Poller.UnmonitoredRate | crates/service/src/poller.rs:140-200 | which unmonitored readings reset the rate and which leave it |
| Transfers.QueuePending | crates/core/src/models.rs:231-241 | one pass counts the queue, sums its known sizes and counts the unsized |
| Transfers.UploadsUnderWayAreCounted | crates/core/src/transfer.rs:131 | the uploads shown are the number of queued items being uploaded |
| Transfers.UnknownSizesAreCounted | crates/core/src/models.rs:231-241 | the unsized count is the number of queued items without a size |
| Transfers.AddProgress | crates/core/src/transfer.rs:219-239 | the in-place loop computes the specification of progress |
| Transfers.ProgressKeepsTheQueue | crates/core/src/transfer.rs:219-239 | progress changes neither names, sizes, pending nor fidelity; a file carries bytes exactly when an accounted transfer reports them |
| Transfers.RemainingIsSizeLessSent | crates/core/src/transfer.rs:319-330 | what remains is the sum over sized files of size less sent, while nothing is sent beyond its size |
| Transfers.AttributionIsDisjoint | crates/core/src/models.rs:95-102 | mounts with different cache paths never share a transfer |
| Transfers.BackendTagComesOff | crates/core/src/models.rs:191-198 | the backend tag comes off whole, and an untagged path is left alone |
| Transfers.ReadingsSurviveTheWire | crates/core/src/ipc.rs:240-282 | a reading crosses the bus unchanged, its tier by name, and an unknown tier reads as none |
| Rate.RateStaysWithinIntervals | crates/core/src/transfer.rs:345-379 | over increasing instants the smoothed rate stays within the interval rates seen |
| Rate.AnswersStayWithinIntervals | crates/core/src/transfer.rs:363-379 | over increasing instants the first sample answers nothing and every later one a rate within a byte of the interval rates seen |
| Rate.GrowthOnlyDecays | crates/core/src/transfer.rs:363-379 | while the total only grows the rate decays by 0.7 a sample and is never negative |
| Rate.CountedBytesAreConserved | crates/core/src/transfer.rs:363-379 | the bytes behind the rates the estimator folded in, plus dropped, less growth, are first less last, and nothing is dropped at increasing instants |
| Rate.RateEstimator.SampleAt | crates/core/src/transfer.rs:363-379 | one sample updates and answers as the specification of the estimator says |
| Scan.ScanBounded | crates/core/src/scan.rs:114-183 | the explicit stack walk ends for any disk, changing or cyclic, and computes the specification of the walk |
| Scan.ScanIsExact | crates/core/src/scan.rs:114-183 | on a still tree the walk is cut short if and only if there are more entries than the cap, and otherwise reports each dirty file as often as the tree holds it |
| Scan.RootDecidesPresence | crates/core/src/scan.rs:122-133 | a missing, an unreadable and a listed root are told apart |
| Scan.DirtyOnce | crates/core/src/scan.rs:141-180 | where sibling names differ no dirty file is held twice |
| Scan.ScannedBytesAreTheTrees | crates/core/src/scan.rs:76-84 | on a still tree a walk that was not cut short totals the measured sizes of the tree's own dirty files, or u64::MAX |
| Scan.NamesTellFilesApart | crates/core/src/scan.rs:141-180 | reported paths of components without a separator are shown under one name only if they are the same path |
| Scan.KnownBytesIsTheSum | crates/core/src/scan.rs:76-84 | the byte total is the true sum of the measured sizes, or u64::MAX |
| Umask.CanonicalUmaskKeepsMeaning | crates/core/src/config.rs:348-355 | the canonical spelling starts with 0, parses to the same bits, is idempotent and never ambiguous |
| Umask.CanonicalUmaskIsAKey | crates/core/src/config.rs:338-355 | two accepted spellings are rewritten alike if and only if they mean the same mask |
| Umask.ReadingsAreUsableAdvice | crates/core/src/config.rs:357-371 | the two spellings offered for an ambiguous one are unambiguous, different, and the second is its meaning now |
| RcRetry.CallRaw | crates/core/src/rc.rs:350-390 | the retry loop computes the specification of a call |
| RcRetry.CallEndsExactly | crates/core/src/rc.rs:350-390 | a call ends with the first attempt that is not retried, by that attempt's own outcome if it ends in time and as timed out if and only if it does not |
| RcRetry.CallKeepsItsBudget | crates/core/src/rc.rs:350-390 | a call ends by its deadline, retries only transport faults, and makes no more attempts than allowed or than the backoffs leave room for |
| RcRetry.DoublingOverflowsExactly | crates/core/src/rc.rs:380-381 | some pattern overflows the doubling if and only if the budget exceeds 100 ms * (2^32 - 1) and 34 attempts are allowed |

## Left out

- Watching.WatchedStreamConverges: a sweep is of a system seen whole, as in the next line.
- Ownership.OwnershipIsNeverLost: one look at the system is one consistent snapshot; the original reads units, statuses and the mount table separately, and they can disagree.
- Ownership.Reconcile: a failed unit listing or status read ends the original's sweep with an error; here the reads all answer, and a failed sweep is the watcher's input.
- Configs.Validate: only the identity rules of names and points; remotes, extra arguments, sizes, durations and intervals are flat checks without state.
- Configs.ArgvReadsBack: the flags between the three leading arguments and the end are arbitrary.
- Registries.Registry.ObserveMounts: removals come out in an arbitrary order, where the original's map is sorted.
- Watching.Watcher.PollDue: mounts are asked in an arbitrary order, and the pollers a watcher owns are held as values, each poll taken through functions that `Watching.PollingOf` fills in, from the answers of a turn, with the poller's specification; updating a poller in place is modelled in `Poller.MountPoller`.
- Watching.Watcher.Loop: an action that lands during a tick is taken as landing right after it, which is where the original first looks for it.
- Locks.OneOperationPerUnit: the guards of a finished operation go in one step and its clones in the next, where the original drops each on its own.
- Supervisor.Operation.Mount: making the two directories is one step that may fail at either, and composing the unit and the warning about ambiguous umasks are no steps at all.
- Supervisor.OutwaitsTheQueueExactly: the time an operation spends in calls, and the waits of redirected unmounts for locks of their own, come on top of its sleeps.
- Supervisor.Operation.Unmount: the target and the locks are resolved before it starts; which targets those are is `Ownership.UnmountTarget`, and which locks is `Locks`.
- Rate.RateStaysWithinIntervals: rates are reals, so rounding is not modelled.
- RcRetry.CallRaw: an attempt that ends exactly with the budget counts as finished; the timer could decide either way.
- MountInfo.LineRoundTrip: text is characters below 256 after decoding; lossy UTF-8 decoding is not modelled.
- Paths are strings: component-wise path equality, such as a trailing slash, is not modelled, and resolving a path is an arbitrary function.
- Reasons shown to the user are constructors with their parameters, not prose.
- HTTP, UNIX sockets, D-Bus, systemd, `fusermount3`, `journalctl` and blocking filesystem calls appear only as their answers, including the answer a timed-out call falls back to.
- The pre-start hook, socket ownership and peer checks, and log redaction.
- TOML parsing, configuration load and save, rclone discovery, the command line, logging, and the tray's menu and icon.
