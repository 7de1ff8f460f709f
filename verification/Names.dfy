/** The strings that carry identity: mount names, unit names and rc socket files. */
module Names {
  import opened Base

  const UNIT_PREFIX := "rvt-mount-"
  const UNIT_SUFFIX := ".service"

  predicate AsciiAlphanumeric(c: char) {
    '0' <= c <= '9' || 'a' <= c <= 'z' || 'A' <= c <= 'Z'
  }

  predicate Reserved(name: string) { name in {"", ".", ".."} }

  /** What `Config::validate` accepts as a mount name. */
  predicate ValidName(name: string) {
    !Reserved(name) && forall c <- name :: AsciiAlphanumeric(c) || c in {'-', '_', '.'}
  }

  function Slug(c: char): char {
    if AsciiAlphanumeric(c) || c == '_' || c == '.' then c else '-'
  }

  function UnitName(name: string): string {
    UNIT_PREFIX + seq(|name|, i requires 0 <= i < |name| => Slug(name[i])) + UNIT_SUFFIX
  }

  /** A unit's name less our prefix and suffix; `None` if it lacks either, or what is left is reserved. */
  function OrphanName(unit: string): Option<string> {
    if !(UNIT_PREFIX <= unit) then None
    else
      var rest := unit[|UNIT_PREFIX|..];
      if |rest| < |UNIT_SUFFIX| || rest[|rest| - |UNIT_SUFFIX|..] != UNIT_SUFFIX then None
      else
        var name := rest[..|rest| - |UNIT_SUFFIX|];
        if Reserved(name) then None else Some(name)
  }

  lemma UnitNameKeepsValidNames(name: string)
    requires ValidName(name)
    ensures UnitName(name) == UNIT_PREFIX + name + UNIT_SUFFIX
  {
    assert seq(|name|, i requires 0 <= i < |name| => Slug(name[i])) == name;
  }

  /** `OrphanName` reads a unit as ours exactly when it has the one shape we give units. */
  lemma OrphanNameIsExact(unit: string, name: string)
    ensures OrphanName(unit) == Some(name)
       <==> unit == UNIT_PREFIX + name + UNIT_SUFFIX && !Reserved(name)
  {
    if unit == UNIT_PREFIX + name + UNIT_SUFFIX {
      assert unit[..|UNIT_PREFIX|] == UNIT_PREFIX;
      var rest := unit[|UNIT_PREFIX|..];
      assert rest == name + UNIT_SUFFIX;
      assert rest[..|rest| - |UNIT_SUFFIX|] == name;
    }
    if OrphanName(unit) == Some(name) {
      var rest := unit[|UNIT_PREFIX|..];
      assert unit == UNIT_PREFIX + rest;
      assert rest == name + UNIT_SUFFIX;
    }
  }

  /** A unit and the name it is locked under determine each other. */
  lemma OrphanNameInvertsUnitName(name: string, unit: string)
    requires ValidName(name)
    ensures OrphanName(unit) == Some(name) <==> unit == UnitName(name)
  {
    UnitNameKeepsValidNames(name);
    OrphanNameIsExact(unit, name);
  }

  lemma UnitNamesOfValidNamesDiffer(a: string, b: string)
    requires ValidName(a) && ValidName(b) && UnitName(a) == UnitName(b)
    ensures a == b
  {
    OrphanNameInvertsUnitName(a, UnitName(a));
    OrphanNameInvertsUnitName(b, UnitName(b));
  }

  // --- rc sockets ---------------------------------------------------------------------

  function EscapeChar(c: char): string {
    if c == '/' then "%2F" else if c == '%' then "%25" else [c]
  }

  function Escape(name: string): string {
    if name == "" then "" else EscapeChar(name[0]) + Escape(name[1..])
  }

  function SocketFileName(name: string): string { Escape(name) + ".sock" }

  lemma {:induction false} EscapeIsInjective(a: string, b: string)
    requires Escape(a) == Escape(b)
    ensures a == b
  {
    if a != "" && b != "" {
      var ea, eb := EscapeChar(a[0]), EscapeChar(b[0]);
      assert Escape(a)[0] == ea[0] && Escape(b)[0] == eb[0];
      assert |ea| == 3 ==> Escape(a)[2] == ea[2];
      assert |eb| == 3 ==> Escape(b)[2] == eb[2];
      assert ea == eb && a[0] == b[0];
      assert Escape(a)[|ea|..] == Escape(a[1..]) && Escape(b)[|eb|..] == Escape(b[1..]);
      EscapeIsInjective(a[1..], b[1..]);
      assert a == [a[0]] + a[1..] && b == [b[0]] + b[1..];
    }
  }

  lemma {:induction false} EscapeHasNoSlash(name: string)
    ensures '/' !in Escape(name)
  {
    if name != "" { EscapeHasNoSlash(name[1..]); }
  }

  lemma {:induction false} EscapeKeepsPlainNames(name: string)
    requires '/' !in name && '%' !in name
    ensures Escape(name) == name
  {
    if name != "" {
      EscapeKeepsPlainNames(name[1..]);
      assert name == [name[0]] + name[1..];
    }
  }

  /**
   * One socket per mount: two names never share a socket file, the file never leaves the
   * runtime directory, and a configured mount's socket is its plain name.
   */
  lemma SocketFileNameIsInjective(a: string, b: string)
    ensures SocketFileName(a) == SocketFileName(b) <==> a == b
    ensures '/' !in SocketFileName(a)
    ensures ValidName(a) ==> SocketFileName(a) == a + ".sock"
  {
    if SocketFileName(a) == SocketFileName(b) {
      var ea, eb := SocketFileName(a), SocketFileName(b);
      assert ea[..|ea| - 5] == Escape(a) && eb[..|eb| - 5] == Escape(b);
      EscapeIsInjective(a, b);
    }
    EscapeHasNoSlash(a);
    if ValidName(a) { EscapeKeepsPlainNames(a); }
  }
}
