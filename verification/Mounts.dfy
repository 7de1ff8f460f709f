/** A mount's state, and how one is described to a client. */
module Mounts {
  import opened Base

  /** Why a mount reads as failed. */
  datatype FailReason =
    | Moved(unit: string, servedAt: string, configured: string)
    | NotResponding(point: string)
    | StillHeldBy(point: string, unit: string, name: string)
    | UnitFailed(unit: string)

  datatype MountState =
    | Unmounted | Mounting | Mounted | Unmounting | Failed(reason: FailReason) | Foreign | Orphaned
  {
    predicate IsLive() { Mounted? || Foreign? || Orphaned? }

    predicate IsManaged() { !Foreign? }
  }

  datatype DiscoveredMount = DiscoveredMount(name: string, state: MountState, mountPoint: Option<string>)

  datatype MountView = MountView(name: string, state: string, live: bool, managed: bool,
                                 reason: Option<FailReason>, mountPoint: Option<string>,
                                 remote: Option<string>)

  function StateName(state: MountState): string {
    match state
    case Unmounted => "unmounted"
    case Mounting => "mounting"
    case Mounted => "mounted"
    case Unmounting => "unmounting"
    case Failed(_) => "failed"
    case Foreign => "foreign"
    case Orphaned => "orphaned"
  }

  function ViewOf(m: DiscoveredMount, remote: Option<string>): MountView {
    MountView(m.name, StateName(m.state), m.state.IsLive(), m.state.IsManaged(),
              if m.state.Failed? then Some(m.state.reason) else None, m.mountPoint, remote)
  }

  /** What a client is shown of each state, and that no two states are shown alike. */
  lemma ViewsTellStatesApart(m: DiscoveredMount, remote: Option<string>)
    ensures var v := ViewOf(m, remote);
      && v.name == m.name && v.mountPoint == m.mountPoint && v.remote == remote
      && (v.live <==> m.state.Mounted? || m.state.Foreign? || m.state.Orphaned?)
      && (v.managed <==> m.state != Foreign)
      && (v.reason.Some? <==> m.state.Failed?) && (m.state.Failed? ==> v.reason == Some(m.state.reason))
      && (v.state == "unmounted" <==> m.state == Unmounted) && (v.state == "mounting" <==> m.state == Mounting)
      && (v.state == "mounted" <==> m.state == Mounted) && (v.state == "unmounting" <==> m.state == Unmounting)
      && (v.state == "failed" <==> m.state.Failed?) && (v.state == "foreign" <==> m.state == Foreign)
      && (v.state == "orphaned" <==> m.state == Orphaned)
  {}

  /** The rows a poller is kept for: those in the one state named `mounted`. */
  predicate Pollable(view: MountView) { view.state == StateName(Mounted) }

  /** Only a mount that is up and ours is polled: `"mounted"` is no other state's name. */
  lemma PollableMeansMounted(m: DiscoveredMount, remote: Option<string>)
    ensures Pollable(ViewOf(m, remote)) <==> m.state == Mounted
  {}
}
