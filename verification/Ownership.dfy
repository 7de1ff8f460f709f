/**
 * Whose mount is it? The sweep for units serving where the configuration no longer puts them,
 * the state of each configured mount, and the rows a sweep of the whole mount set reports.
 */
module Ownership {
  import opened Base
  import opened Configs
  import opened Mounts
  import N = Names
  import M = MountInfo

  datatype UnitStatus = Active | Activating | Deactivating | Failed | Inactive {
    /** The two states in which the unit's rclone may be up. */
    predicate IsServing() { Active? || Deactivating? }
  }

  datatype LoadedUnit = LoadedUnit(name: string, status: UnitStatus, serving: Option<Serving>)

  datatype Target = Target(name: string, unit: string, point: string, fsSpec: string)

  /** The last value a list of pairs gives each key, as collecting into a map keeps it. */
  function UnitPoints(config: seq<ConfigMount>): map<string, string> {
    if config == [] then map[]
    else
      var m := config[|config| - 1];
      UnitPoints(config[..|config| - 1])[m.UnitName() := m.mountPoint]
  }

  function PointOf(u: LoadedUnit): Option<string> {
    match u.serving case Some(s) => Some(s.mountPoint) case None => None
  }

  function ServingPoints(units: seq<LoadedUnit>): map<string, Option<string>> {
    if units == [] then map[]
    else
      var u := units[|units| - 1];
      var rest := ServingPoints(units[..|units| - 1]);
      if u.status.IsServing() then rest[u.name := PointOf(u)] else rest
  }

  /** Everything one look at the system sees: configuration, systemd, kernel and filesystem. */
  datatype Snapshot = Snapshot(config: seq<ConfigMount>, units: seq<LoadedUnit>, live: seq<M.MountEntry>,
                               canon: string -> string, stale: string -> bool)
  {
    /** The configuration was validated, and systemd keys its units by name. */
    ghost predicate Consistent() {
      && Sound(config)
      && forall i, j :: 0 <= i < j < |units| ==> units[i].name != units[j].name
    }

    /** `units.status`: a unit systemd does not know is inactive. */
    function StatusOf(unit: string): UnitStatus { StatusIn(units, unit) }

    predicate Live(point: string) { M.IsMountedAt(live, point) }

    /** Where a configured mount is, as the kernel would spell it. */
    function At(m: ConfigMount): string { canon(m.mountPoint) }

    predicate Holds(serving: map<string, Option<string>>, unit: string, point: string) {
      unit in serving && (serving[unit].None? || canon(serving[unit].value) == point)
    }

    /** An entry resolves to this point, and its unit is up with an argv that names it or cannot be read. */
    predicate ConfiguredUnitHolds(point: string) {
      exists m <- config :: At(m) == point && Holds(ServingPoints(units), m.UnitName(), point)
    }

    /** A unit of ours serving a live point the configuration does not put it at. */
    predicate IsOrphan(u: LoadedUnit) {
      && u.status.IsServing() && u.serving.Some? && N.OrphanName(u.name).Some?
      && !(u.name in UnitPoints(config) && UnitPoints(config)[u.name] == u.serving.value.mountPoint)
      && Live(canon(u.serving.value.mountPoint))
      && !ConfiguredUnitHolds(canon(u.serving.value.mountPoint))
    }

    function TargetFor(u: LoadedUnit): Target
      requires IsOrphan(u)
    {
      Target(N.OrphanName(u.name).value, u.name, canon(u.serving.value.mountPoint), u.serving.value.fsSpec)
    }

    function OrphansAmong(some: seq<LoadedUnit>): seq<Target> {
      if some == [] then []
      else
        var u := some[|some| - 1];
        var rest := OrphansAmong(some[..|some| - 1]);
        if IsOrphan(u) then rest + [TargetFor(u)] else rest
    }

    function Orphans(): seq<Target> { OrphansAmong(units) }

    predicate Named(unit: string) { exists m <- config :: m.UnitName() == unit }
  }

  function StatusIn(units: seq<LoadedUnit>, unit: string): UnitStatus {
    if units == [] then Inactive
    else if units[0].name == unit then units[0].status
    else StatusIn(units[1..], unit)
  }

  // --- the sweep for orphans ----------------------------------------------------------

  method FindHolder(s: Snapshot, configured: seq<(string, string)>, point: string,
                    serving: map<string, Option<string>>) returns (held: bool)
    ensures held <==> exists i :: 0 <= i < |configured| && configured[i].0 == point
                                  && s.Holds(serving, configured[i].1, point)
  {
    for i := 0 to |configured|
      invariant forall j :: 0 <= j < i && configured[j].0 == point ==> !s.Holds(serving, configured[j].1, point)
    {
      if configured[i].0 == point && configured[i].1 in serving {
        var argv := serving[configured[i].1];
        if argv.None? { return true; }
        if s.canon(argv.value) == point { return true; }
      }
    }
    return false;
  }

  function Resolved(s: Snapshot): seq<(string, string)> {
    seq(|s.config|, i requires 0 <= i < |s.config| => (s.At(s.config[i]), s.config[i].UnitName()))
  }

  /** The sweep as the service runs it: cheap tests first, configured points resolved at most once. */
  method SweepOrphans(s: Snapshot) returns (out: seq<Target>)
    ensures out == s.Orphans()
  {
    var ours := UnitPoints(s.config);
    var serving := ServingPoints(s.units);
    var resolved: Option<seq<(string, string)>> := None;
    out := [];
    for i := 0 to |s.units|
      invariant out == s.OrphansAmong(s.units[..i])
      invariant resolved.Some? ==> resolved.value == Resolved(s)
    {
      var u := s.units[i];
      assert s.units[..i + 1][..i] == s.units[..i];
      if !u.status.IsServing() { continue; }
      var name := N.OrphanName(u.name);
      if u.serving.None? || name.None? { continue; }
      var written := u.serving.value.mountPoint;
      if u.name in ours && ours[u.name] == written { continue; }
      var point := s.canon(written);
      if !s.Live(point) { continue; }
      if resolved.None? { resolved := Some(Resolved(s)); }
      var held := FindHolder(s, resolved.value, point, serving);
      ResolvedFindsHolders(s, point);
      if held { continue; }
      out := out + [Target(name.value, u.name, point, u.serving.value.fsSpec)];
    }
    assert s.units[..|s.units|] == s.units;
  }

  lemma ResolvedFindsHolders(s: Snapshot, point: string)
    ensures s.ConfiguredUnitHolds(point) <==>
      exists i :: 0 <= i < |Resolved(s)| && Resolved(s)[i].0 == point
                  && s.Holds(ServingPoints(s.units), Resolved(s)[i].1, point)
  {
    var r := Resolved(s);
    if s.ConfiguredUnitHolds(point) {
      var m :| m in s.config && s.At(m) == point && s.Holds(ServingPoints(s.units), m.UnitName(), point);
      var i :| 0 <= i < |s.config| && s.config[i] == m;
      assert r[i].0 == point && s.Holds(ServingPoints(s.units), r[i].1, point);
    }
    if i :| 0 <= i < |r| && r[i].0 == point && s.Holds(ServingPoints(s.units), r[i].1, point) {
      assert s.config[i] in s.config;
    }
  }

  // --- one mount ----------------------------------------------------------------------

  function OfUnit(orphans: seq<Target>, unit: string): Option<Target> {
    if orphans == [] then None
    else if orphans[0].unit == unit then Some(orphans[0]) else OfUnit(orphans[1..], unit)
  }

  function AtPoint(orphans: seq<Target>, point: string): Option<Target> {
    if orphans == [] then None
    else if orphans[0].point == point then Some(orphans[0]) else AtPoint(orphans[1..], point)
  }

  function OfName(orphans: seq<Target>, name: string): Option<Target> {
    if orphans == [] then None
    else if orphans[0].name == name then Some(orphans[0]) else OfName(orphans[1..], name)
  }

  /** The state reported for one entry, from the mount table, its unit's status and the sweep's findings. */
  function Resolve(s: Snapshot, m: ConfigMount, orphans: seq<Target>): MountState {
    var point := s.At(m);
    var unit := s.StatusOf(m.UnitName());
    if unit != Deactivating && OfUnit(orphans, m.UnitName()).Some? then
      MountState.Failed(Moved(m.UnitName(), OfUnit(orphans, m.UnitName()).value.point, point))
    else if s.Live(point) && s.stale(point) then MountState.Failed(NotResponding(point))
    else match (s.Live(point), unit)
      case (true, Active) => Mounted
      case (true, Activating) => Mounted
      case (true, Deactivating) => Unmounting
      case (true, Failed) => MountState.Failed(UnitFailed(m.UnitName()))
      case (true, Inactive) =>
        (match AtPoint(orphans, point)
         case Some(o) => MountState.Failed(StillHeldBy(point, o.unit, o.name))
         case None => Foreign)
      case (false, Active) => Mounting
      case (false, Activating) => Mounting
      case (false, Deactivating) => Unmounting
      case (false, Failed) => MountState.Failed(UnitFailed(m.UnitName()))
      case (false, Inactive) => Unmounted
  }

  function ConfigNamed(config: seq<ConfigMount>, name: string): Option<ConfigMount> {
    if config == [] then None
    else if config[0].name == name then Some(config[0]) else ConfigNamed(config[1..], name)
  }

  /** `state`: one mount by name, orphans included; `None` for a name nobody knows. */
  function State(s: Snapshot, name: string): Option<MountState> {
    match ConfigNamed(s.config, name)
    case Some(m) => Some(Resolve(s, m, s.Orphans()))
    case None => if OfName(s.Orphans(), name).Some? then Some(Orphaned) else None
  }

  /** Which unit an unmount acts on; `None` for a name nobody knows. */
  function UnmountTarget(s: Snapshot, name: string): Option<Target> {
    match ConfigNamed(s.config, name)
    case None => OfName(s.Orphans(), name)
    case Some(m) =>
      var target := Target(m.name, m.UnitName(), s.At(m), m.FsSpec());
      if s.StatusOf(target.unit).IsServing() then
        Some(match OfUnit(s.Orphans(), target.unit) case Some(o) => o case None => target)
      else
        Some(match AtPoint(s.Orphans(), target.point) case Some(o) => o case None => target)
  }

  // --- every mount --------------------------------------------------------------------

  function ConfigRows(s: Snapshot, config: seq<ConfigMount>): seq<DiscoveredMount> {
    if config == [] then []
    else
      var m := config[|config| - 1];
      ConfigRows(s, config[..|config| - 1]) + [DiscoveredMount(m.name, Resolve(s, m, s.Orphans()), Some(m.mountPoint))]
  }

  function OrphanRows(s: Snapshot, orphans: seq<Target>): seq<DiscoveredMount> {
    if orphans == [] then []
    else
      var o := orphans[|orphans| - 1];
      var rest := OrphanRows(s, orphans[..|orphans| - 1]);
      if s.Named(o.unit) then rest else rest + [DiscoveredMount(o.name, Orphaned, Some(o.point))]
  }

  /** A point some row already answers for. */
  predicate Claimed(s: Snapshot, point: string) {
    (exists m <- s.config :: s.At(m) == point) || exists o <- s.Orphans() :: o.point == point
  }

  /** The live rclone points nobody answers for, as the kernel lists them. */
  function Unclaimed(s: Snapshot, live: seq<M.MountEntry>): seq<string> {
    if live == [] then []
    else
      var e := live[|live| - 1];
      var rest := Unclaimed(s, live[..|live| - 1]);
      if M.IsRclone(e) && !Claimed(s, e.mountPoint) then rest + [e.mountPoint] else rest
  }

  function ForeignRow(point: string): DiscoveredMount { DiscoveredMount(point, Foreign, Some(point)) }

  function ForeignRows(points: seq<string>): seq<DiscoveredMount> {
    if points == [] then [] else ForeignRows(points[..|points| - 1]) + [ForeignRow(points[|points| - 1])]
  }

  function Rows(s: Snapshot): seq<DiscoveredMount> {
    ConfigRows(s, s.config) + OrphanRows(s, s.Orphans()) + ForeignRows(Unclaimed(s, s.live))
  }

  method ListConfigured(s: Snapshot, orphans: seq<Target>) returns (rows: seq<DiscoveredMount>)
    requires orphans == s.Orphans()
    ensures rows == ConfigRows(s, s.config)
  {
    rows := [];
    for i := 0 to |s.config|
      invariant rows == ConfigRows(s, s.config[..i])
    {
      var m := s.config[i];
      assert s.config[..i + 1][..i] == s.config[..i];
      rows := rows + [DiscoveredMount(m.name, Resolve(s, m, orphans), Some(m.mountPoint))];
    }
    assert s.config[..|s.config|] == s.config;
  }

  method ListOrphans(s: Snapshot, orphans: seq<Target>) returns (rows: seq<DiscoveredMount>, held: seq<string>)
    ensures rows == OrphanRows(s, orphans)
    ensures held == seq(|orphans|, j requires 0 <= j < |orphans| => orphans[j].point)
  {
    rows, held := [], [];
    for i := 0 to |orphans|
      invariant rows == OrphanRows(s, orphans[..i])
      invariant held == seq(i, j requires 0 <= j < i => orphans[j].point)
    {
      var o := orphans[i];
      assert orphans[..i + 1][..i] == orphans[..i];
      held := held + [o.point];
      if !s.Named(o.unit) { rows := rows + [DiscoveredMount(o.name, Orphaned, Some(o.point))]; }
    }
    assert orphans[..|orphans|] == orphans;
  }

  method ListForeign(s: Snapshot, claimed: seq<string>) returns (rows: seq<DiscoveredMount>)
    requires forall p :: p in claimed <==> Claimed(s, p)
    ensures rows == ForeignRows(Unclaimed(s, s.live))
  {
    rows := [];
    for i := 0 to |s.live|
      invariant rows == ForeignRows(Unclaimed(s, s.live[..i]))
    {
      var e := s.live[i];
      assert s.live[..i + 1][..i] == s.live[..i];
      if !M.IsRclone(e) || e.mountPoint in claimed { continue; }
      OneMoreForeignRow(Unclaimed(s, s.live[..i]), e.mountPoint);
      rows := rows + [ForeignRow(e.mountPoint)];
    }
    assert s.live[..|s.live|] == s.live;
  }

  /** The whole mount set: what is configured, what is ours but misplaced, and everybody else's. */
  method Reconcile(s: Snapshot) returns (out: seq<DiscoveredMount>)
    ensures out == Rows(s)
  {
    var orphans := SweepOrphans(s);
    out := ListConfigured(s, orphans);
    var claimed := seq(|s.config|, i requires 0 <= i < |s.config| => s.At(s.config[i]));
    var ours, held := ListOrphans(s, orphans);
    ClaimedIsListed(s, claimed + held);
    var theirs := ListForeign(s, claimed + held);
    out := out + ours + theirs;
  }

  lemma OneMoreForeignRow(points: seq<string>, point: string)
    ensures ForeignRows(points + [point]) == ForeignRows(points) + [ForeignRow(point)]
  {
    assert (points + [point])[..|points|] == points;
  }

  lemma ClaimedIsListed(s: Snapshot, claimed: seq<string>)
    requires claimed == seq(|s.config|, i requires 0 <= i < |s.config| => s.At(s.config[i]))
                        + seq(|s.Orphans()|, j requires 0 <= j < |s.Orphans()| => s.Orphans()[j].point)
    ensures forall p :: p in claimed <==> Claimed(s, p)
  {
    var n := |s.config|;
    forall p ensures p in claimed <==> Claimed(s, p) {
      if p in claimed {
        var i :| 0 <= i < |claimed| && claimed[i] == p;
        if i < n { assert s.config[i] in s.config; } else { assert s.Orphans()[i - n] in s.Orphans(); }
      }
      if m :| m in s.config && s.At(m) == p {
        var i :| 0 <= i < n && s.config[i] == m;
        assert claimed[i] == p;
      } else if o :| o in s.Orphans() && o.point == p {
        var i :| 0 <= i < |s.Orphans()| && s.Orphans()[i] == o;
        assert claimed[n + i] == p;
      }
    }
  }

  // --- what the lists hold ------------------------------------------------------------

  lemma {:induction false} OrphansAreTheMisplacedUnits(s: Snapshot, some: seq<LoadedUnit>, o: Target)
    ensures o in s.OrphansAmong(some) <==> exists u <- some :: s.IsOrphan(u) && s.TargetFor(u) == o
  {
    if some != [] {
      var k := |some| - 1;
      OrphansAreTheMisplacedUnits(s, some[..k], o);
      assert some == some[..k] + [some[k]];
    }
  }

  /**
   * What an orphan is: a unit named as ours are, up, whose argv can be read, at a live point that it is
   * not placed at as written and that no entry resolving there has a unit holding.
   */
  lemma OrphansExactly(s: Snapshot, o: Target)
    ensures o in s.Orphans() <==> exists u <- s.units ::
      && (u.status == Active || u.status == Deactivating) && u.serving.Some?
      && o.unit == u.name && N.OrphanName(u.name) == Some(o.name)
      && o.point == s.canon(u.serving.value.mountPoint) && o.fsSpec == u.serving.value.fsSpec && s.Live(o.point)
      && !(u.name in UnitPoints(s.config) && UnitPoints(s.config)[u.name] == u.serving.value.mountPoint)
      && forall m <- s.config :: s.canon(m.mountPoint) == o.point ==>
           !(m.UnitName() in ServingPoints(s.units)
             && (ServingPoints(s.units)[m.UnitName()].None?
                 || s.canon(ServingPoints(s.units)[m.UnitName()].value) == o.point))
  {
    OrphansAreTheMisplacedUnits(s, s.units, o);
  }

  lemma {:induction false} ConfigRowsAreTheConfig(s: Snapshot, config: seq<ConfigMount>, r: DiscoveredMount)
    ensures r in ConfigRows(s, config) <==>
      exists m <- config :: r == DiscoveredMount(m.name, Resolve(s, m, s.Orphans()), Some(m.mountPoint))
  {
    if config != [] {
      var k := |config| - 1;
      ConfigRowsAreTheConfig(s, config[..k], r);
      assert config == config[..k] + [config[k]];
    }
  }

  lemma {:induction false} OrphanRowsAreTheUnnamed(s: Snapshot, orphans: seq<Target>, r: DiscoveredMount)
    ensures r in OrphanRows(s, orphans) <==>
      exists o <- orphans :: !s.Named(o.unit) && r == DiscoveredMount(o.name, Orphaned, Some(o.point))
  {
    if orphans != [] {
      var k := |orphans| - 1;
      OrphanRowsAreTheUnnamed(s, orphans[..k], r);
      assert orphans == orphans[..k] + [orphans[k]];
    }
  }

  lemma {:induction false} UnclaimedAreLive(s: Snapshot, live: seq<M.MountEntry>, point: string)
    ensures point in Unclaimed(s, live) <==> M.IsMountedAt(live, point) && !Claimed(s, point)
  {
    if live != [] {
      var k := |live| - 1;
      UnclaimedAreLive(s, live[..k], point);
      assert live == live[..k] + [live[k]];
      assert M.IsMountedAt(live, point)
        <==> M.IsMountedAt(live[..k], point) || (M.IsRclone(live[k]) && live[k].mountPoint == point);
    }
  }

  lemma {:induction false} ForeignRowsAreThePoints(points: seq<string>, r: DiscoveredMount)
    ensures r in ForeignRows(points) <==> exists p <- points :: r == DiscoveredMount(p, Foreign, Some(p))
  {
    if points != [] {
      var k := |points| - 1;
      ForeignRowsAreThePoints(points[..k], r);
      assert points == points[..k] + [points[k]];
    }
  }

  lemma {:induction false} StatusOfALoadedUnit(units: seq<LoadedUnit>, u: LoadedUnit)
    requires u in units && forall i, j :: 0 <= i < j < |units| ==> units[i].name != units[j].name
    ensures StatusIn(units, u.name) == u.status
  {
    if units[0] != u {
      assert u in units[1..];
      StatusOfALoadedUnit(units[1..], u);
      var j :| 0 < j < |units| && units[j] == u;
    }
  }

  lemma {:induction false} ServingPointsAreRead(units: seq<LoadedUnit>, u: LoadedUnit)
    requires u in units && u.status.IsServing()
    requires forall i, j :: 0 <= i < j < |units| ==> units[i].name != units[j].name
    ensures u.name in ServingPoints(units) && ServingPoints(units)[u.name] == PointOf(u)
  {
    var k := |units| - 1;
    if units[k] != u {
      var i :| 0 <= i < |units| && units[i] == u;
      assert units[..k][i] == u && units[i].name != units[k].name;
      ServingPointsAreRead(units[..k], u);
    }
  }

  lemma {:induction false} ServingPointsComeFromUnits(units: seq<LoadedUnit>, name: string)
    requires name in ServingPoints(units)
    ensures exists u <- units :: u.name == name && u.status.IsServing()
  {
    var k := |units| - 1;
    if !(units[k].name == name && units[k].status.IsServing()) {
      ServingPointsComeFromUnits(units[..k], name);
      var u :| u in units[..k] && u.name == name && u.status.IsServing();
      assert u in units;
    }
  }

  lemma {:induction false} UnitPointsComeFromTheConfig(config: seq<ConfigMount>, unit: string)
    requires unit in UnitPoints(config)
    ensures exists m <- config :: m.UnitName() == unit && m.mountPoint == UnitPoints(config)[unit]
  {
    var k := |config| - 1;
    if config[k].UnitName() != unit {
      UnitPointsComeFromTheConfig(config[..k], unit);
      var m :| m in config[..k] && m.UnitName() == unit && m.mountPoint == UnitPoints(config[..k])[unit];
      assert m in config;
    }
  }

  lemma {:induction false} FirstMatchesAreMembers(orphans: seq<Target>, key: string)
    ensures match OfUnit(orphans, key)
      case Some(o) => o in orphans && o.unit == key
      case None => forall o <- orphans :: o.unit != key
    ensures match AtPoint(orphans, key)
      case Some(o) => o in orphans && o.point == key
      case None => forall o <- orphans :: o.point != key
    ensures match OfName(orphans, key)
      case Some(o) => o in orphans && o.name == key
      case None => forall o <- orphans :: o.name != key
  {
    if orphans != [] {
      FirstMatchesAreMembers(orphans[1..], key);
      assert orphans == [orphans[0]] + orphans[1..];
    }
  }

  /** An orphan's unit is loaded, serving, and carries its name. */
  lemma OrphanIsServing(s: Snapshot, o: Target) returns (u: LoadedUnit)
    requires s.Consistent() && o in s.Orphans()
    ensures u in s.units && s.IsOrphan(u) && s.TargetFor(u) == o
    ensures s.StatusOf(o.unit) == u.status && u.status.IsServing()
    ensures o.unit == N.UNIT_PREFIX + o.name + N.UNIT_SUFFIX
  {
    OrphansAreTheMisplacedUnits(s, s.units, o);
    u :| u in s.units && s.IsOrphan(u) && s.TargetFor(u) == o;
    StatusOfALoadedUnit(s.units, u);
    N.OrphanNameIsExact(u.name, o.name);
  }

  // --- ownership ----------------------------------------------------------------------

  /** Something at this point is reported as somebody else's. */
  ghost predicate ReadsForeign(s: Snapshot, point: string) {
    || (exists m <- s.config :: s.At(m) == point && Resolve(s, m, s.Orphans()) == Foreign)
    || ForeignRow(point) in ForeignRows(Unclaimed(s, s.live))
  }

  /** A configured mount here whose own unit is not running at all. */
  ghost predicate IdleEntryAt(s: Snapshot, point: string) {
    !s.stale(point) && exists m <- s.config :: s.At(m) == point && s.StatusOf(m.UnitName()) == Inactive
  }

  /** When, exactly, a point reads as foreign. */
  lemma ForeignExactly(s: Snapshot, point: string)
    requires s.Consistent()
    ensures ReadsForeign(s, point) <==>
      && s.Live(point) && (forall o <- s.Orphans() :: o.point != point)
      && ((forall m <- s.config :: s.At(m) != point) || IdleEntryAt(s, point))
  {
    ForeignRowsAreThePoints(Unclaimed(s, s.live), ForeignRow(point));
    UnclaimedAreLive(s, s.live, point);
    FirstMatchesAreMembers(s.Orphans(), point);
    forall m | m in s.config && s.At(m) == point
      ensures Resolve(s, m, s.Orphans()) == Foreign <==>
        && s.Live(point) && !s.stale(point) && s.StatusOf(m.UnitName()) == Inactive
        && forall o <- s.Orphans() :: o.point != point
    {
      FirstMatchesAreMembers(s.Orphans(), m.UnitName());
      if OfUnit(s.Orphans(), m.UnitName()).Some? {
        var u := OrphanIsServing(s, OfUnit(s.Orphans(), m.UnitName()).value);
      }
    }
  }

  /** A unit of ours that is serving a live point its argv names, in a name we could have given it. */
  ghost predicate ServesLive(s: Snapshot, u: LoadedUnit, point: string) {
    && u in s.units && u.status.IsServing() && N.OrphanName(u.name).Some?
    && u.serving.Some? && s.canon(u.serving.value.mountPoint) == point && s.Live(point)
  }

  /** A configured unit held to be at a point is serving. */
  lemma HolderIsServing(s: Snapshot, point: string)
    requires s.Consistent() && s.ConfiguredUnitHolds(point)
    ensures exists m <- s.config :: s.At(m) == point && s.StatusOf(m.UnitName()).IsServing()
  {
    var m :| m in s.config && s.At(m) == point && s.Holds(ServingPoints(s.units), m.UnitName(), point);
    ServingPointsComeFromUnits(s.units, m.UnitName());
    var holder :| holder in s.units && holder.name == m.UnitName() && holder.status.IsServing();
    StatusOfALoadedUnit(s.units, holder);
  }

  /**
   * When, exactly, ownership is lost: a point a unit of ours serves reads as foreign if and only
   * if one configured entry there has its unit holding it and another is not running.
   */
  lemma OwnershipIsLostExactly(s: Snapshot, u: LoadedUnit, point: string)
    requires s.Consistent() && ServesLive(s, u, point)
    ensures ReadsForeign(s, point) <==> IdleEntryAt(s, point) && s.ConfiguredUnitHolds(point)
  {
    ForeignExactly(s, point);
    HeldOrOrphaned(s, u, point);
    if s.ConfiguredUnitHolds(point) {
      HolderIsServing(s, point);
      forall o | o in s.Orphans() ensures o.point != point {
        var v := OrphanIsServing(s, o);
      }
    }
  }

  /** What a unit of ours serves is an orphan's point, or held by a configured unit. */
  lemma HeldOrOrphaned(s: Snapshot, u: LoadedUnit, point: string)
    requires s.Consistent() && ServesLive(s, u, point)
    ensures s.ConfiguredUnitHolds(point) || exists o <- s.Orphans() :: o.point == point
  {
    if s.IsOrphan(u) {
      OrphansAreTheMisplacedUnits(s, s.units, s.TargetFor(u));
      assert s.TargetFor(u) in s.Orphans();
    } else if !s.ConfiguredUnitHolds(point) {
      UnitPointsComeFromTheConfig(s.config, u.name);
      var m :| m in s.config && m.UnitName() == u.name && m.mountPoint == UnitPoints(s.config)[u.name];
      ServingPointsAreRead(s.units, u);
      assert s.Holds(ServingPoints(s.units), m.UnitName(), point);
    }
  }

  ghost predicate DistinctPoints(s: Snapshot) {
    forall a, b :: a in s.config && b in s.config && s.At(a) == s.At(b) ==> a == b
  }

  /** Whatever was renamed, moved, swapped or unreadable: no point of ours is called somebody else's. */
  lemma OwnershipIsNeverLost(s: Snapshot, u: LoadedUnit, point: string)
    requires s.Consistent() && DistinctPoints(s) && ServesLive(s, u, point)
    ensures !ReadsForeign(s, point)
  {
    OwnershipIsLostExactly(s, u, point);
    if s.ConfiguredUnitHolds(point) { HolderIsServing(s, point); }
  }

  /** Two entries for one directory, one of them under a link, and only the first one mounted. */
  function TwoSpellings(): Snapshot {
    var a := ConfigMount("a", "r", "", "/m");
    var b := ConfigMount("b", "r", "", "/l");
    Snapshot([a, b], [LoadedUnit(a.UnitName(), Active, Some(Serving("r:", "/m")))],
             [M.MountEntry("/m", "r:", "fuse.rclone")], p => "/m", p => false)
  }

  lemma TwoSpellingsIsConsistent()
    ensures TwoSpellings().Consistent()
    ensures N.OrphanName(TwoSpellings().units[0].name) == Some("a")
    ensures TwoSpellings().StatusOf(N.UnitName("b")) == Inactive
  {
    N.OrphanNameInvertsUnitName("a", N.UnitName("a"));
    if N.UnitName("a") == N.UnitName("b") { N.UnitNamesOfValidNamesDiffer("a", "b"); }
  }

  /** Validation compares points as written, so it accepts a configuration that loses a mount. */
  lemma SharedDirectoryLosesOwnership()
    ensures var s := TwoSpellings();
      s.Consistent() && ServesLive(s, s.units[0], "/m") && ReadsForeign(s, "/m")
  {
    var s := TwoSpellings();
    TwoSpellingsIsConsistent();
    assert s.live[0] in s.live;
    OwnershipIsLostExactly(s, s.units[0], "/m");
    ServingPointsAreRead(s.units, s.units[0]);
    assert s.config[0] in s.config && s.Holds(ServingPoints(s.units), s.config[0].UnitName(), "/m");
    assert s.config[1] in s.config && s.At(s.config[1]) == "/m";
  }

  lemma {:induction false} UnitPointsAreRead(config: seq<ConfigMount>, m: ConfigMount)
    requires Sound(config) && m in config
    ensures m.UnitName() in UnitPoints(config) && UnitPoints(config)[m.UnitName()] == m.mountPoint
  {
    var k := |config| - 1;
    if config[k].UnitName() == m.UnitName() {
      UnitsAreDistinct(config, config[k], m);
    } else {
      assert m in config[..k];
      UnitPointsAreRead(config[..k], m);
    }
  }

  /** A unit serving its entry's point as written is left alone, whatever else is mounted there. */
  lemma UneditedUnitIsNoOrphan(s: Snapshot, m: ConfigMount, u: LoadedUnit)
    requires s.Consistent() && m in s.config && u.name == m.UnitName() && PointOf(u) == Some(m.mountPoint)
    ensures !s.IsOrphan(u)
  {
    UnitPointsAreRead(s.config, m);
  }

  /** Every live rclone mount has an answer: a configured mount, a unit of ours, or its own foreign row. */
  lemma EveryLiveMountIsAnswered(s: Snapshot, point: string)
    ensures DiscoveredMount(point, Foreign, Some(point)) in ForeignRows(Unclaimed(s, s.live))
       <==> s.Live(point) && !Claimed(s, point)
    ensures s.Live(point) ==> Claimed(s, point) || DiscoveredMount(point, Foreign, Some(point)) in Rows(s)
  {
    ForeignRowsAreThePoints(Unclaimed(s, s.live), ForeignRow(point));
    UnclaimedAreLive(s, s.live, point);
  }

  /**
   * Every orphan is on the list and can be stopped from it. One the configuration still names
   * shows under that name as moved, unless it is already stopping; any other has its own row.
   */
  lemma EveryOrphanIsReported(s: Snapshot, o: Target)
    requires s.Consistent() && o in s.Orphans()
    ensures UnmountTarget(s, o.name) == Some(o)
    ensures if s.Named(o.unit) then
        exists m <- s.config :: m.name == o.name && m.UnitName() == o.unit
          && (s.StatusOf(o.unit) != Deactivating ==>
                Resolve(s, m, s.Orphans()) == MountState.Failed(Moved(o.unit, o.point, s.At(m))))
      else DiscoveredMount(o.name, Orphaned, Some(o.point)) in Rows(s) && State(s, o.name) == Some(Orphaned)
  {
    var u := OrphanIsServing(s, o);
    OnlyOneOrphanPerUnit(s, o);
    ConfigNamedIs(s.config, o.name);
    FirstMatchesAreMembers(s.Orphans(), o.name);
    if s.Named(o.unit) {
      var m :| m in s.config && m.UnitName() == o.unit;
      N.OrphanNameInvertsUnitName(m.name, o.unit);
      assert ConfigNamed(s.config, o.name) == Some(m);
    } else {
      UnnamedUnitHasNoEntry(s, o.name, o.unit);
      OrphanRowsAreTheUnnamed(s, s.Orphans(), DiscoveredMount(o.name, Orphaned, Some(o.point)));
    }
  }

  lemma UnnamedUnitHasNoEntry(s: Snapshot, name: string, unit: string)
    requires s.Consistent() && !s.Named(unit) && unit == N.UNIT_PREFIX + name + N.UNIT_SUFFIX
    ensures ConfigNamed(s.config, name).None?
  {
    ConfigNamedIs(s.config, name);
    forall m | m in s.config ensures m.name != name { N.UnitNameKeepsValidNames(m.name); }
  }

  lemma OnlyOneOrphanPerUnit(s: Snapshot, o: Target)
    requires s.Consistent() && o in s.Orphans()
    ensures forall other <- s.Orphans() :: other.unit == o.unit || other.name == o.name ==> other == o
    ensures OfUnit(s.Orphans(), o.unit) == Some(o) && OfName(s.Orphans(), o.name) == Some(o)
  {
    var u := OrphanIsServing(s, o);
    forall other | other in s.Orphans() && (other.unit == o.unit || other.name == o.name) ensures other == o {
      var v := OrphanIsServing(s, other);
      assert u.name == v.name;
    }
    FirstMatchesAreMembers(s.Orphans(), o.unit);
    FirstMatchesAreMembers(s.Orphans(), o.name);
  }

  lemma {:induction false} ConfigNamedIs(config: seq<ConfigMount>, name: string)
    ensures match ConfigNamed(config, name)
      case Some(m) => m in config && m.name == name
      case None => forall m <- config :: m.name != name
    ensures Sound(config) ==> forall m <- config :: m.name == name ==> ConfigNamed(config, name) == Some(m)
  {
    if config != [] {
      ConfigNamedIs(config[1..], name);
      assert config == [config[0]] + config[1..];
    }
  }

  // --- the states of a configured mount -----------------------------------------------

  /** The entry's own unit is serving a point the entry no longer names. */
  ghost predicate Displaced(s: Snapshot, m: ConfigMount) { exists o <- s.Orphans() :: o.unit == m.UnitName() }

  /** When, exactly, a configured mount reads as each of the states that are not a complaint. */
  lemma StatesExactly(s: Snapshot, m: ConfigMount)
    requires s.Consistent() && m in s.config
    ensures var r, unit, live := Resolve(s, m, s.Orphans()), s.StatusOf(m.UnitName()), s.Live(s.At(m));
      var up := unit == Active || unit == Activating;
      && (r == Mounted <==> live && !s.stale(s.At(m)) && up && !Displaced(s, m))
      && (r == Mounting <==> !live && up && !Displaced(s, m))
      && (r == Unmounting <==> unit == Deactivating && !(live && s.stale(s.At(m))))
      && (r == Unmounted <==> !live && unit == Inactive)
  {
    FirstMatchesAreMembers(s.Orphans(), m.UnitName());
    if OfUnit(s.Orphans(), m.UnitName()).Some? {
      var u := OrphanIsServing(s, OfUnit(s.Orphans(), m.UnitName()).value);
    }
  }

  /**
   * When, exactly, it reads as each of the complaints, and what each one names. A unit serving a
   * point the entry no longer names comes before everything but its own stopping, and a point that
   * does not answer before the rest; it never reads as orphaned.
   */
  lemma ComplaintsExactly(s: Snapshot, m: ConfigMount)
    requires s.Consistent() && m in s.config
    ensures var r, unit, point := Resolve(s, m, s.Orphans()), s.StatusOf(m.UnitName()), s.At(m);
      var moved := unit != Deactivating && Displaced(s, m);
      var idle := s.Live(point) && !s.stale(point) && unit == Inactive;
      && (r.Failed? && r.reason.Moved? <==> moved)
      && (r.Failed? && r.reason.Moved? ==>
            && r.reason.configured == point && r.reason.unit == m.UnitName()
            && exists o <- s.Orphans() :: o.unit == m.UnitName() && r.reason.servedAt == o.point)
      && (r == MountState.Failed(NotResponding(point)) <==> !moved && s.Live(point) && s.stale(point))
      && (r == MountState.Failed(UnitFailed(m.UnitName())) <==> unit.Failed? && !(s.Live(point) && s.stale(point)))
      && (r == Foreign <==> idle && !exists u <- s.units :: OrphanAt(s, u, point))
      && (r.Failed? && r.reason.StillHeldBy? <==> idle && exists u <- s.units :: OrphanAt(s, u, point))
      && (r.Failed? && r.reason.NotResponding? ==> r.reason.point == point)
      && (r.Failed? && r.reason.UnitFailed? ==> r.reason.unit == m.UnitName())
      && r != Orphaned
  {
    StatesExactly(s, m);
    FirstMatchesAreMembers(s.Orphans(), m.UnitName());
    if OfUnit(s.Orphans(), m.UnitName()).Some? {
      var u := OrphanIsServing(s, OfUnit(s.Orphans(), m.UnitName()).value);
    }
    FirstOrphanAtIsFound(s, s.units, s.At(m));
  }

  /** A loaded unit is an orphan, and this is the point it serves. */
  ghost predicate OrphanAt(s: Snapshot, u: LoadedUnit, point: string) {
    s.IsOrphan(u) && s.canon(u.serving.value.mountPoint) == point
  }

  /** Of the orphans at a point, the first in unit order is the one that is found. */
  lemma {:induction false} FirstOrphanAtIsFound(s: Snapshot, some: seq<LoadedUnit>, point: string)
    ensures match AtPoint(s.OrphansAmong(some), point)
      case None => forall u <- some :: !OrphanAt(s, u, point)
      case Some(t) => exists i :: 0 <= i < |some| && OrphanAt(s, some[i], point) && t == s.TargetFor(some[i])
                                  && forall j :: 0 <= j < i ==> !OrphanAt(s, some[j], point)
  {
    if some != [] {
      var k := |some| - 1;
      FirstOrphanAtIsFound(s, some[..k], point);
      if s.IsOrphan(some[k]) { AtPointOfOneMore(s.OrphansAmong(some[..k]), s.TargetFor(some[k]), point); }
      if AtPoint(s.OrphansAmong(some[..k]), point).Some? {
        var i :| 0 <= i < k && OrphanAt(s, some[..k][i], point)
          && AtPoint(s.OrphansAmong(some[..k]), point).value == s.TargetFor(some[..k][i])
          && forall j :: 0 <= j < i ==> !OrphanAt(s, some[..k][j], point);
        assert forall j :: 0 <= j <= i ==> some[..k][j] == some[j];
      } else {
        assert forall j :: 0 <= j < k ==> some[j] in some[..k];
      }
    }
  }

  lemma {:induction false} AtPointOfOneMore(orphans: seq<Target>, o: Target, point: string)
    ensures AtPoint(orphans + [o], point)
         == if AtPoint(orphans, point).Some? then AtPoint(orphans, point)
            else if o.point == point then Some(o) else None
  {
    if orphans == [] {
      assert (orphans + [o])[1..] == [];
    } else {
      assert (orphans + [o])[1..] == orphans[1..] + [o];
      AtPointOfOneMore(orphans[1..], o, point);
    }
  }

  lemma OrphanDisplacesItsEntry(s: Snapshot, m: ConfigMount, u: LoadedUnit)
    requires u in s.units && u.name == m.UnitName()
    ensures s.IsOrphan(u) ==> Displaced(s, m)
  {
    if s.IsOrphan(u) {
      OrphansAreTheMisplacedUnits(s, s.units, s.TargetFor(u));
      assert s.TargetFor(u) in s.Orphans();
    }
  }

  /**
   * When, exactly, an entry whose unit is up, and whose own point is live and answering, reads as
   * mounted: when what its unit serves is held by a configured unit. That is its own unit at its
   * own point -- or another entry's, taken on trust because its argv cannot be read.
   */
  lemma MountedExactly(s: Snapshot, m: ConfigMount, u: LoadedUnit, point: string)
    requires s.Consistent() && m in s.config && u.name == m.UnitName() && ServesLive(s, u, point)
    requires u.status == Active && s.Live(s.At(m)) && !s.stale(s.At(m))
    ensures Resolve(s, m, s.Orphans()) == Mounted <==> s.ConfiguredUnitHolds(point)
    ensures point == s.At(m) ==> s.ConfiguredUnitHolds(point)
  {
    StatesExactly(s, m);
    StatusOfALoadedUnit(s.units, u);
    DisplacedExactly(s, m, u, point);
  }

  /** An entry's serving unit is an orphan unless a configured unit holds what it serves. */
  lemma DisplacedExactly(s: Snapshot, m: ConfigMount, u: LoadedUnit, point: string)
    requires s.Consistent() && m in s.config && u.name == m.UnitName() && ServesLive(s, u, point)
    ensures Displaced(s, m) <==> s.IsOrphan(u)
    ensures s.IsOrphan(u) <==> !s.ConfiguredUnitHolds(point)
    ensures point == s.At(m) ==> s.ConfiguredUnitHolds(point)
  {
    OrphanDisplacesItsEntry(s, m, u);
    OwnPointIsHeld(s, m, u, point);
    if o :| o in s.Orphans() && o.unit == m.UnitName() {
      var v := OrphanIsServing(s, o);
      SameNameSameUnit(s.units, u, v);
    }
  }

  lemma SameNameSameUnit(units: seq<LoadedUnit>, u: LoadedUnit, v: LoadedUnit)
    requires forall i, j :: 0 <= i < j < |units| ==> units[i].name != units[j].name
    requires u in units && v in units && u.name == v.name
    ensures u == v
  {
    var i :| 0 <= i < |units| && units[i] == u;
    var j :| 0 <= j < |units| && units[j] == v;
    assert !(i < j) && !(j < i);
  }

  /** Serving its entry's point, in the entry's spelling or another, is holding it. */
  lemma OwnPointIsHeld(s: Snapshot, m: ConfigMount, u: LoadedUnit, point: string)
    requires s.Consistent() && m in s.config && u.name == m.UnitName() && ServesLive(s, u, point)
    ensures point == s.At(m) ==> s.ConfiguredUnitHolds(point)
    ensures PointOf(u) == Some(m.mountPoint) ==> point == s.At(m)
    ensures s.IsOrphan(u) ==> !s.ConfiguredUnitHolds(point)
    ensures !s.IsOrphan(u) ==> s.ConfiguredUnitHolds(point)
  {
    ServingPointsAreRead(s.units, u);
    UnitPointsAreRead(s.config, m);
    if point == s.At(m) { assert s.Holds(ServingPoints(s.units), m.UnitName(), point); }
  }

  // --- what an unmount acts on --------------------------------------------------------

  /**
   * The lock an unmount takes is the lock of the unit it stops: whatever was asked for, the
   * target's name and its unit determine each other.
   */
  lemma TargetUnitIsItsName(s: Snapshot, asked: string)
    requires s.Consistent() && UnmountTarget(s, asked).Some?
    ensures var t := UnmountTarget(s, asked).value; t.unit == N.UNIT_PREFIX + t.name + N.UNIT_SUFFIX
  {
    ConfigNamedIs(s.config, asked);
    FirstMatchesAreMembers(s.Orphans(), asked);
    match ConfigNamed(s.config, asked) {
      case None =>
        var u := OrphanIsServing(s, OfName(s.Orphans(), asked).value);
      case Some(m) =>
        N.UnitNameKeepsValidNames(m.name);
        FirstMatchesAreMembers(s.Orphans(), m.UnitName());
        FirstMatchesAreMembers(s.Orphans(), s.At(m));
        var t := UnmountTarget(s, asked).value;
        if t in s.Orphans() { var u := OrphanIsServing(s, t); }
    }
  }

  /**
   * What an unmount of an entry with a serving unit acts on: that unit, always, and the point the
   * unit serves exactly when that is the entry's own point or no configured unit is taken to hold
   * it. Otherwise it acts on the entry's point, which the unit has nothing to do with.
   */
  lemma UnmountActsOnTheServedPointExactly(s: Snapshot, m: ConfigMount, u: LoadedUnit, point: string)
    requires s.Consistent() && m in s.config && u.name == m.UnitName() && ServesLive(s, u, point)
    ensures UnmountTarget(s, m.name).Some?
    ensures var t := UnmountTarget(s, m.name).value;
      && t.unit == u.name
      && t.point == (if s.ConfiguredUnitHolds(point) then s.At(m) else point)
      && (t.point == point <==> point == s.At(m) || !s.ConfiguredUnitHolds(point))
  {
    ConfigNamedIs(s.config, m.name);
    StatusOfALoadedUnit(s.units, u);
    DisplacedExactly(s, m, u, point);
    if s.IsOrphan(u) {
      OrphansAreTheMisplacedUnits(s, s.units, s.TargetFor(u));
      OnlyOneOrphanPerUnit(s, s.TargetFor(u));
    } else {
      FirstMatchesAreMembers(s.Orphans(), u.name);
    }
  }

  /**
   * What an unmount of an entry acts on when its own unit is up: what the unit is serving, if the
   * configuration does not place it there, and the entry itself otherwise.
   */
  lemma UnmountOfAServingEntry(s: Snapshot, m: ConfigMount, u: LoadedUnit)
    requires s.Consistent() && m in s.config && u in s.units && u.name == m.UnitName() && u.status.IsServing()
    ensures UnmountTarget(s, m.name)
         == Some(if s.IsOrphan(u) then s.TargetFor(u) else Target(m.name, m.UnitName(), s.At(m), m.FsSpec()))
  {
    ConfigNamedIs(s.config, m.name);
    StatusOfALoadedUnit(s.units, u);
    FirstMatchesAreMembers(s.Orphans(), u.name);
    if s.IsOrphan(u) {
      OrphansAreTheMisplacedUnits(s, s.units, s.TargetFor(u));
      OnlyOneOrphanPerUnit(s, s.TargetFor(u));
    } else if o :| o in s.Orphans() && o.unit == u.name {
      var v := OrphanIsServing(s, o);
      SameNameSameUnit(s.units, u, v);
    }
  }

  /**
   * And when it is not: the first unit of ours that serves the entry's point on somebody else's
   * behalf, under its own name and with its own spec -- as after a rename -- and otherwise the entry.
   */
  lemma UnmountOfAnIdleEntry(s: Snapshot, m: ConfigMount)
    requires s.Consistent() && m in s.config && !s.StatusOf(m.UnitName()).IsServing()
    ensures UnmountTarget(s, m.name).Some?
    ensures var t, point := UnmountTarget(s, m.name).value, s.At(m);
      if exists u <- s.units :: OrphanAt(s, u, point) then
        exists i :: 0 <= i < |s.units| && OrphanAt(s, s.units[i], point)
          && (forall j :: 0 <= j < i ==> !OrphanAt(s, s.units[j], point))
          && t == Target(N.OrphanName(s.units[i].name).value, s.units[i].name, point, s.units[i].serving.value.fsSpec)
      else t == Target(m.name, m.UnitName(), point, m.FsSpec())
  {
    ConfigNamedIs(s.config, m.name);
    FirstOrphanAtIsFound(s, s.units, s.At(m));
  }

  /** A name no entry has is that of an orphan, or nobody's. */
  lemma UnmountOfAnUnconfiguredName(s: Snapshot, name: string)
    requires s.Consistent() && forall m <- s.config :: m.name != name
    ensures UnmountTarget(s, name).None? <==> forall o <- s.Orphans() :: o.name != name
    ensures UnmountTarget(s, name).Some? ==>
      UnmountTarget(s, name).value in s.Orphans() && UnmountTarget(s, name).value.name == name
  {
    ConfigNamedIs(s.config, name);
    FirstMatchesAreMembers(s.Orphans(), name);
  }

  /** The unit a state says still holds the point is the one an unmount of that entry acts on. */
  lemma WhatStillHoldsIsUnmounted(s: Snapshot, m: ConfigMount)
    requires s.Consistent() && m in s.config
    requires var r := Resolve(s, m, s.Orphans()); r.Failed? && r.reason.StillHeldBy?
    ensures UnmountTarget(s, m.name).Some?
    ensures var t, held := UnmountTarget(s, m.name).value, Resolve(s, m, s.Orphans()).reason;
      t.unit == held.unit && t.name == held.name && t.point == held.point
  {
    ComplaintsExactly(s, m);
    ConfigNamedIs(s.config, m.name);
    FirstMatchesAreMembers(s.Orphans(), s.At(m));
  }

  /**
   * An entry moved to `/q` while its unit serves `/p`, where another entry has since been placed
   * whose unit is up with an argv that cannot be read.
   */
  function MovedUnderAnother(): Snapshot {
    var a := ConfigMount("a", "r", "", "/q");
    var b := ConfigMount("b", "r", "", "/p");
    Snapshot([a, b],
             [LoadedUnit(a.UnitName(), Active, Some(Serving("r:", "/p"))), LoadedUnit(b.UnitName(), Active, None)],
             [M.MountEntry("/p", "r:", "fuse.rclone")], p => p, p => false)
  }

  lemma MovedUnderAnotherIsConsistent()
    ensures MovedUnderAnother().Consistent()
    ensures N.OrphanName(N.UnitName("a")) == Some("a")
  {
    N.OrphanNameInvertsUnitName("a", N.UnitName("a"));
    if N.UnitName("a") == N.UnitName("b") { N.UnitNamesOfValidNamesDiffer("a", "b"); }
  }

  /** Unmounting that entry stops the unit serving `/p` on behalf of `/q`, where nothing is mounted. */
  lemma UnmountCanMissTheServedPoint()
    ensures var s := MovedUnderAnother();
      && s.Consistent() && ServesLive(s, s.units[0], "/p") && !s.Live("/q")
      && s.config[0].UnitName() == s.units[0].name
      && UnmountTarget(s, "a").Some? && UnmountTarget(s, "a").value.point == "/q"
      && UnmountTarget(s, "a").value.unit == s.units[0].name
  {
    var s := MovedUnderAnother();
    var a, b := s.config[0], s.config[1];
    MovedUnderAnotherIsConsistent();
    assert s.live[0] in s.live;
    ServingPointsAreRead(s.units, s.units[1]);
    assert b in s.config && s.Holds(ServingPoints(s.units), b.UnitName(), "/p");
    UnmountActsOnTheServedPointExactly(s, a, s.units[0], "/p");
  }

  /** An entry moved to `/q`, where a foreign mount is, while its unit goes on serving `/p`. */
  function MovedOntoAForeignMount(): Snapshot {
    var a := ConfigMount("a", "r", "", "/q");
    Snapshot([a], [LoadedUnit(a.UnitName(), Active, Some(Serving("r:", "/p")))],
             [M.MountEntry("/p", "r:", "fuse.rclone"), M.MountEntry("/q", "x:", "fuse.rclone")], p => p, p => false)
  }

  lemma MovedOntoAForeignMountIsConsistent()
    ensures var s := MovedOntoAForeignMount();
      && s.Consistent() && s.IsOrphan(s.units[0]) && ServesLive(s, s.units[0], "/p")
      && s.config[0].UnitName() == s.units[0].name && s.StatusOf(s.units[0].name) == Active
      && s.Live("/q") && !s.ConfiguredUnitHolds("/q")
  {
    var s := MovedOntoAForeignMount();
    var a, u := s.config[0], s.units[0];
    N.OrphanNameInvertsUnitName("a", u.name);
    assert s.live[0] in s.live && s.live[1] in s.live;
    StatusOfALoadedUnit(s.units, u);
    ServingPointsAreRead(s.units, u);
    UnitPointsAreRead(s.config, a);
    assert forall m <- s.config :: m == a;
  }

  // --- rows as keys -------------------------------------------------------------------

  ghost predicate UniqueNames(rows: seq<DiscoveredMount>) {
    forall i, j :: 0 <= i < j < |rows| ==> rows[i].name != rows[j].name
  }

  ghost predicate Distinct(points: seq<string>) {
    forall i, j :: 0 <= i < j < |points| ==> points[i] != points[j]
  }

  ghost predicate DistinctTargets(targets: seq<Target>) {
    forall i, j :: 0 <= i < j < |targets| ==> targets[i].name != targets[j].name
  }

  /** The kernel's points are absolute, and systemd unit names hold no slash. */
  ghost predicate Slashed(s: Snapshot) {
    && (forall e <- s.live :: '/' in e.mountPoint)
    && (forall u <- s.units :: '/' !in u.name)
  }

  lemma UniqueAppend(a: seq<DiscoveredMount>, b: seq<DiscoveredMount>)
    ensures UniqueNames(a + b) <==>
      UniqueNames(a) && UniqueNames(b) && forall x, y :: x in a && y in b ==> x.name != y.name
  {
    var c := a + b;
    if UniqueNames(c) {
      forall i, j | 0 <= i < j < |a| ensures a[i].name != a[j].name { assert c[i] == a[i] && c[j] == a[j]; }
      forall i, j | 0 <= i < j < |b| ensures b[i].name != b[j].name {
        assert c[|a| + i] == b[i] && c[|a| + j] == b[j];
      }
      forall x, y | x in a && y in b ensures x.name != y.name {
        var i :| 0 <= i < |a| && a[i] == x;
        var j :| 0 <= j < |b| && b[j] == y;
        assert c[i] == x && c[|a| + j] == y;
      }
    }
  }

  lemma UniqueOne(r: DiscoveredMount)
    ensures UniqueNames([r])
  {}

  lemma {:induction false} ConfigRowsAreUnique(s: Snapshot, config: seq<ConfigMount>)
    requires Sound(config)
    ensures UniqueNames(ConfigRows(s, config))
  {
    if config != [] {
      var k := |config| - 1;
      ConfigRowsAreUnique(s, config[..k]);
      var row := DiscoveredMount(config[k].name, Resolve(s, config[k], s.Orphans()), Some(config[k].mountPoint));
      UniqueOne(row);
      UniqueAppend(ConfigRows(s, config[..k]), [row]);
      forall x | x in ConfigRows(s, config[..k]) ensures x.name != row.name {
        ConfigRowsAreTheConfig(s, config[..k], x);
      }
    }
  }

  lemma {:induction false} OrphanRowsAreUnique(s: Snapshot, orphans: seq<Target>)
    requires DistinctTargets(orphans)
    ensures UniqueNames(OrphanRows(s, orphans))
  {
    if orphans != [] {
      var k := |orphans| - 1;
      OrphanRowsAreUnique(s, orphans[..k]);
      var row := DiscoveredMount(orphans[k].name, Orphaned, Some(orphans[k].point));
      UniqueOne(row);
      UniqueAppend(OrphanRows(s, orphans[..k]), [row]);
      forall x | x in OrphanRows(s, orphans[..k]) ensures x.name != row.name {
        OrphanRowsAreTheUnnamed(s, orphans[..k], x);
      }
    }
  }

  /** Orphans keep the order of their units, so distinct units make distinct names. */
  lemma {:induction false} OrphanNamesAreDistinct(s: Snapshot, some: seq<LoadedUnit>)
    requires forall i, j :: 0 <= i < j < |some| ==> some[i].name != some[j].name
    ensures DistinctTargets(s.OrphansAmong(some))
  {
    if some != [] {
      var k := |some| - 1;
      OrphanNamesAreDistinct(s, some[..k]);
      if s.IsOrphan(some[k]) {
        forall o | o in s.OrphansAmong(some[..k]) ensures o.name != s.TargetFor(some[k]).name {
          OrphansAreTheMisplacedUnits(s, some[..k], o);
          var u :| u in some[..k] && s.IsOrphan(u) && s.TargetFor(u) == o;
          N.OrphanNameIsExact(u.name, o.name);
          N.OrphanNameIsExact(some[k].name, o.name);
        }
        var rest := s.OrphansAmong(some[..k]);
        assert forall i :: 0 <= i < |rest| ==> rest[i] in rest;
      }
    }
  }

  lemma {:induction false} ForeignRowsAreUnique(points: seq<string>)
    ensures UniqueNames(ForeignRows(points)) <==> Distinct(points)
    ensures |ForeignRows(points)| == |points|
    ensures forall i :: 0 <= i < |points| ==> ForeignRows(points)[i] == ForeignRow(points[i])
  {
    if points != [] { ForeignRowsAreUnique(points[..|points| - 1]); }
  }

  /** Names of ours hold no slash and a foreign name always does; ours differ as their units do. */
  lemma KindsOfRowDoNotCollide(s: Snapshot, x: DiscoveredMount, y: DiscoveredMount)
    requires s.Consistent() && Slashed(s)
    requires (x in ConfigRows(s, s.config)
              && (y in OrphanRows(s, s.Orphans()) || y in ForeignRows(Unclaimed(s, s.live))))
          || (x in OrphanRows(s, s.Orphans()) && y in ForeignRows(Unclaimed(s, s.live)))
    ensures x.name != y.name
  {
    if x in ConfigRows(s, s.config) {
      ConfigRowsAreTheConfig(s, s.config, x);
      var m :| m in s.config && x.name == m.name;
      if y in OrphanRows(s, s.Orphans()) {
        OrphanRowIsUnnamed(s, y);
        ConfigNamedIs(s.config, y.name);
      } else {
        ForeignRowHasASlash(s, y);
        assert '/' !in m.name;
      }
    } else {
      OrphanRowIsUnnamed(s, x);
      ForeignRowHasASlash(s, y);
    }
  }

  lemma OrphanRowIsUnnamed(s: Snapshot, r: DiscoveredMount)
    requires s.Consistent() && Slashed(s) && r in OrphanRows(s, s.Orphans())
    ensures ConfigNamed(s.config, r.name).None? && '/' !in r.name
    ensures State(s, r.name) == Some(Orphaned) && r.state == Orphaned
  {
    OrphanRowsAreTheUnnamed(s, s.Orphans(), r);
    var o :| o in s.Orphans() && !s.Named(o.unit) && r == DiscoveredMount(o.name, Orphaned, Some(o.point));
    var u := OrphanIsServing(s, o);
    UnnamedUnitHasNoEntry(s, o.name, o.unit);
    FirstMatchesAreMembers(s.Orphans(), o.name);
    assert forall c <- o.name :: c in u.name;
  }

  lemma ForeignRowHasASlash(s: Snapshot, r: DiscoveredMount)
    requires Slashed(s) && r in ForeignRows(Unclaimed(s, s.live))
    ensures '/' in r.name && r.state == Foreign
  {
    ForeignRowsAreThePoints(Unclaimed(s, s.live), r);
    UnclaimedAreLive(s, s.live, r.name);
  }

  /**
   * Row names are a key exactly when no two foreign mounts are stacked on one point.
   */
  lemma RowNamesAreAKeyExactly(s: Snapshot)
    requires s.Consistent() && Slashed(s)
    ensures UniqueNames(Rows(s)) <==> Distinct(Unclaimed(s, s.live))
  {
    var c, o, f := ConfigRows(s, s.config), OrphanRows(s, s.Orphans()), ForeignRows(Unclaimed(s, s.live));
    ConfigRowsAreUnique(s, s.config);
    OrphanNamesAreDistinct(s, s.units);
    OrphanRowsAreUnique(s, s.Orphans());
    ForeignRowsAreUnique(Unclaimed(s, s.live));
    UniqueAppend(c, o);
    UniqueAppend(c + o, f);
    forall x, y | (x in c && (y in o || y in f)) || (x in o && y in f) ensures x.name != y.name {
      KindsOfRowDoNotCollide(s, x, y);
    }
  }

  /** Two rclone mounts stacked on one point, and nothing configured. */
  function Stacked(): Snapshot {
    Snapshot([], [], [M.MountEntry("/x", "r:", "fuse.rclone"), M.MountEntry("/x", "q:", "fuse.rclone")],
             p => p, p => false)
  }

  lemma OneMoreUnclaimed(s: Snapshot, live: seq<M.MountEntry>, e: M.MountEntry)
    requires M.IsRclone(e) && !Claimed(s, e.mountPoint)
    ensures Unclaimed(s, live + [e]) == Unclaimed(s, live) + [e.mountPoint]
  {
    assert (live + [e])[..|live|] == live;
  }

  lemma SamePointTwiceIsNotDistinct(p: string)
    ensures !Distinct([p, p])
  {
    assert [p, p][0] == [p, p][1];
  }

  lemma StackedIsConsistent()
    ensures Stacked().Consistent() && Slashed(Stacked())
  {
    assert "/x"[0] == '/';
  }

  lemma StackedIsUnclaimedTwice()
    ensures Unclaimed(Stacked(), Stacked().live) == ["/x", "/x"]
  {
    var s := Stacked();
    var a, b := s.live[0], s.live[1];
    assert !Claimed(s, "/x");
    OneMoreUnclaimed(s, [], a);
    OneMoreUnclaimed(s, [a], b);
    assert [] + [a] == [a] && [a] + [b] == s.live;
  }

  /** Nothing rules stacking out, and stacked mounts share a name. */
  lemma StackedMountsShareAName()
    ensures Stacked().Consistent() && Slashed(Stacked()) && !UniqueNames(Rows(Stacked()))
  {
    StackedIsConsistent();
    StackedIsUnclaimedTwice();
    SamePointTwiceIsNotDistinct("/x");
    RowNamesAreAKeyExactly(Stacked());
  }

  /** Where names do repeat, the rows are the same: no list says two things of one name. */
  lemma RowsOfOneNameAgree(s: Snapshot, x: DiscoveredMount, y: DiscoveredMount)
    requires s.Consistent() && Slashed(s) && x in Rows(s) && y in Rows(s) && x.name == y.name
    ensures x == y
  {
    var c, o, f := ConfigRows(s, s.config), OrphanRows(s, s.Orphans()), ForeignRows(Unclaimed(s, s.live));
    if (x in c && y in o + f) || (x in o && y in f) {
      KindsOfRowDoNotCollide(s, x, y);
    } else if (y in c && x in o + f) || (y in o && x in f) {
      KindsOfRowDoNotCollide(s, y, x);
    } else if x in c {
      ConfigRowsAreUnique(s, s.config);
    } else if x in o {
      OrphanNamesAreDistinct(s, s.units);
      OrphanRowsAreUnique(s, s.Orphans());
    } else {
      ForeignRowsAreThePoints(Unclaimed(s, s.live), x);
      ForeignRowsAreThePoints(Unclaimed(s, s.live), y);
    }
  }

  /** Asking about one listed name answers what the list said; a foreign name is not known. */
  lemma StateAgreesWithTheRows(s: Snapshot, r: DiscoveredMount)
    requires s.Consistent() && Slashed(s) && r in Rows(s)
    ensures State(s, r.name) == if '/' in r.name then None else Some(r.state)
    ensures '/' in r.name ==> r.state == Foreign && UnmountTarget(s, r.name).None?
  {
    ConfigNamedIs(s.config, r.name);
    if r in ConfigRows(s, s.config) {
      ConfigRowsAreTheConfig(s, s.config, r);
      var m :| m in s.config && r == DiscoveredMount(m.name, Resolve(s, m, s.Orphans()), Some(m.mountPoint));
      assert '/' !in m.name;
    } else if r in OrphanRows(s, s.Orphans()) {
      OrphanRowIsUnnamed(s, r);
    } else {
      ForeignRowHasASlash(s, r);
      NoSlashedNameIsOurs(s, r.name);
    }
  }

  lemma NoSlashedNameIsOurs(s: Snapshot, name: string)
    requires s.Consistent() && Slashed(s) && '/' in name
    ensures ConfigNamed(s.config, name).None? && OfName(s.Orphans(), name).None?
  {
    ConfigNamedIs(s.config, name);
    FirstMatchesAreMembers(s.Orphans(), name);
    forall o | o in s.Orphans() ensures o.name != name {
      var u := OrphanIsServing(s, o);
      assert forall c <- o.name :: c in u.name;
    }
  }
}
