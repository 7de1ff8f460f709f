/** What a validated configuration promises about the identity of its mounts. */
module Configs {
  import opened Base
  import N = Names

  datatype ConfigMount = ConfigMount(name: string, remote: string, path: string, mountPoint: string) {
    function UnitName(): string { N.UnitName(name) }

    function FsSpec(): string { remote + ":" + TrimSlashes(path) }
  }

  function TrimSlashes(path: string): string {
    if path != "" && path[0] == '/' then TrimSlashes(path[1..]) else path
  }

  /** What rclone is given: the remote, and the path below it without the slashes it starts with. */
  lemma SpecIsRemoteAndPath(m: ConfigMount)
    ensures exists n: nat :: n <= |m.path| && (forall c <- m.path[..n] :: c == '/') && !("/" <= m.path[n..])
                             && m.FsSpec() == m.remote + ":" + m.path[n..]
  {
    var n := SlashesComeOff(m.path);
  }

  lemma {:induction false} SlashesComeOff(path: string) returns (n: nat)
    ensures n <= |path| && (forall c <- path[..n] :: c == '/') && !("/" <= path[n..]) && TrimSlashes(path) == path[n..]
  {
    n := 0;
    if "/" <= path {
      n := SlashesComeOff(path[1..]);
      assert path[1..][..n] == path[1..n + 1] && path[1..][n..] == path[n + 1..];
      n := n + 1;
      assert path[..n] == ['/'] + path[1..n];
    }
  }

  datatype Fault = EmptyName | ReservedName | BadCharacter | DuplicateName | RelativePoint | SharedPoint

  /** The first identity rule a mount breaks, given the mounts before it. */
  function FaultOf(names: set<string>, points: set<string>, m: ConfigMount): Option<Fault> {
    if m.name == "" then Some(EmptyName)
    else if m.name == "." || m.name == ".." then Some(ReservedName)
    else if !N.ValidName(m.name) then Some(BadCharacter)
    else if m.name in names then Some(DuplicateName)
    else if !("/" <= m.mountPoint) then Some(RelativePoint)
    else if m.mountPoint in points then Some(SharedPoint)
    else None
  }

  /** Which rule each fault is for: a mount breaks it and none of those before it. */
  lemma FaultsSayWhich(names: set<string>, points: set<string>, m: ConfigMount)
    ensures var fault, named := FaultOf(names, points, m), N.ValidName(m.name) && m.name !in names;
      && (fault == Some(EmptyName) <==> m.name == "")
      && (fault == Some(ReservedName) <==> m.name == "." || m.name == "..")
      && (fault == Some(BadCharacter) <==>
            m.name !in {"", ".", ".."} && exists c <- m.name :: !N.AsciiAlphanumeric(c) && c !in {'-', '_', '.'})
      && (fault == Some(DuplicateName) <==> N.ValidName(m.name) && m.name in names)
      && (fault == Some(RelativePoint) <==> named && !("/" <= m.mountPoint))
      && (fault == Some(SharedPoint) <==> named && "/" <= m.mountPoint && m.mountPoint in points)
  {}

  /** What the rest of the service relies on: names are identifiers and keys, points are paths and keys. */
  ghost predicate Sound(mounts: seq<ConfigMount>) {
    && (forall i :: 0 <= i < |mounts| ==> N.ValidName(mounts[i].name) && "/" <= mounts[i].mountPoint)
    && (forall i, j :: 0 <= i < j < |mounts| ==> mounts[i].name != mounts[j].name)
    && (forall i, j :: 0 <= i < j < |mounts| ==> mounts[i].mountPoint != mounts[j].mountPoint)
  }

  function NamesOf(mounts: seq<ConfigMount>): set<string> { set m <- mounts :: m.name }

  function PointsOf(mounts: seq<ConfigMount>): set<string> { set m <- mounts :: m.mountPoint }

  /** The identity rules of `validate`: it passes exactly the sound lists, and faults the first mount at fault. */
  method Validate(mounts: seq<ConfigMount>) returns (fault: Option<(nat, Fault)>)
    ensures fault.None? <==> Sound(mounts)
    ensures fault.Some? ==>
      && var (at, why) := fault.value;
      && at < |mounts| && Sound(mounts[..at])
      && FaultOf(NamesOf(mounts[..at]), PointsOf(mounts[..at]), mounts[at]) == Some(why)
  {
    var names: set<string> := {};
    var points: set<string> := {};
    for i := 0 to |mounts|
      invariant Sound(mounts[..i])
      invariant names == NamesOf(mounts[..i]) && points == PointsOf(mounts[..i])
    {
      var m := mounts[i];
      OneMoreMount(mounts, i);
      if m.name == "" { return Some((i, EmptyName)); }
      if m.name == "." || m.name == ".." { return Some((i, ReservedName)); }
      if !N.ValidName(m.name) { return Some((i, BadCharacter)); }
      if m.name in names { return Some((i, DuplicateName)); }
      names := names + {m.name};
      if !("/" <= m.mountPoint) { return Some((i, RelativePoint)); }
      if m.mountPoint in points { return Some((i, SharedPoint)); }
      points := points + {m.mountPoint};
    }
    assert mounts[..|mounts|] == mounts;
    return None;
  }

  lemma OneMoreMount(mounts: seq<ConfigMount>, i: nat)
    requires i < |mounts| && Sound(mounts[..i])
    ensures NamesOf(mounts[..i + 1]) == NamesOf(mounts[..i]) + {mounts[i].name}
    ensures PointsOf(mounts[..i + 1]) == PointsOf(mounts[..i]) + {mounts[i].mountPoint}
    ensures FaultOf(NamesOf(mounts[..i]), PointsOf(mounts[..i]), mounts[i]).None? <==> Sound(mounts[..i + 1])
    ensures Sound(mounts) ==> Sound(mounts[..i + 1])
  {
    assert mounts[..i + 1] == mounts[..i] + [mounts[i]];
    SoundGrows(mounts[..i], mounts[i]);
  }

  lemma SoundGrows(before: seq<ConfigMount>, m: ConfigMount)
    requires Sound(before)
    ensures FaultOf(NamesOf(before), PointsOf(before), m).None? <==> Sound(before + [m])
  {
    var after := before + [m];
    if Sound(after) {
      forall b | b in before ensures b.name != m.name && b.mountPoint != m.mountPoint {
        var i :| 0 <= i < |before| && before[i] == b;
        assert after[i] == b && after[|before|] == m;
      }
      assert after[|before|] == m;
    }
    if FaultOf(NamesOf(before), PointsOf(before), m).None? {
      forall i | 0 <= i < |before|
        ensures before[i].name != m.name && before[i].mountPoint != m.mountPoint
      {
        assert before[i].name in NamesOf(before) && before[i].mountPoint in PointsOf(before);
      }
    }
  }

  /** Two mounts of a sound configuration never share a unit. */
  lemma UnitsAreDistinct(mounts: seq<ConfigMount>, a: ConfigMount, b: ConfigMount)
    requires Sound(mounts) && a in mounts && b in mounts && a.UnitName() == b.UnitName()
    ensures a == b
  {
    N.UnitNamesOfValidNamesDiffer(a.name, b.name);
  }

  // --- argv ---------------------------------------------------------------------------

  /** The two arguments of a unit's command line that identify its mount. */
  datatype Serving = Serving(fsSpec: string, mountPoint: string)

  function MountArgs(m: ConfigMount, flags: seq<string>): seq<string> {
    ["mount", m.FsSpec(), m.mountPoint] + flags
  }

  function ServingOf(argv: seq<string>): Option<Serving> {
    if |argv| < 2 || argv[1] != "mount" || |argv| < 4 then None else Some(Serving(argv[2], argv[3]))
  }

  /** Whatever flags follow, a unit started for a mount reads back as serving that mount. */
  lemma ArgvReadsBack(binary: string, m: ConfigMount, flags: seq<string>)
    ensures ServingOf([binary] + MountArgs(m, flags)) == Some(Serving(m.FsSpec(), m.mountPoint))
    ensures MountArgs(m, flags) == ["mount", m.FsSpec(), m.mountPoint] + flags
  {
    var argv := [binary] + MountArgs(m, flags);
    assert argv[1] == "mount" && argv[2] == m.FsSpec() && argv[3] == m.mountPoint;
  }
}
