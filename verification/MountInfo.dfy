/** `/proc/self/mountinfo`: which mounts are live, as the kernel writes them. */
module MountInfo {
  import opened Base

  datatype MountEntry = MountEntry(mountPoint: string, source: string, fstype: string)

  predicate RemoteShaped(source: string) { ':' in source && !("/" <= source) }

  predicate IsRclone(e: MountEntry) {
    e.fstype == "fuse.rclone" || (e.fstype == "fuse" && RemoteShaped(e.source))
  }

  /**
   * What is taken for an rclone mount: anything of rclone's own type; anything of bare FUSE whose
   * source is a remote and a path, the remote not itself a path; and nothing of any other type.
   */
  lemma RcloneMountsExactly(e: MountEntry)
    ensures e.fstype == "fuse.rclone" ==> IsRclone(e)
    ensures e.fstype == "fuse" ==>
      (IsRclone(e) <==> exists remote, path :: e.source == remote + ":" + path && !("/" <= remote))
    ensures IsRclone(e) ==> e.fstype == "fuse.rclone" || e.fstype == "fuse"
  {
    forall remote: string, path: string | e.source == remote + ":" + path
      ensures ':' in e.source && ("/" <= remote <==> "/" <= e.source)
    {
      assert e.source[|remote|] == ':' && (remote != "" ==> e.source[0] == remote[0]);
    }
    if RemoteShaped(e.source) {
      var i :| 0 <= i < |e.source| && e.source[i] == ':';
      assert e.source == e.source[..i] + ":" + e.source[i + 1..];
    }
  }

  predicate IsMountedAt(entries: seq<MountEntry>, path: string) {
    exists e <- entries :: IsRclone(e) && e.mountPoint == path
  }

  // --- splitting ----------------------------------------------------------------------

  /** `str::split(' ')`: always at least one field. */
  function Split(s: string): (fields: seq<string>)
    ensures |fields| >= 1
  {
    if s == "" then [""]
    else
      var rest := Split(s[1..]);
      if s[0] == ' ' then [""] + rest else [[s[0]] + rest[0]] + rest[1..]
  }

  function Join(fields: seq<string>): string
    requires |fields| >= 1
  {
    if |fields| == 1 then fields[0] else fields[0] + " " + Join(fields[1..])
  }

  function FindNewline(s: string): (i: nat)
    ensures i <= |s| && '\n' !in s[..i] && (i < |s| ==> s[i] == '\n')
  {
    if s == "" || s[0] == '\n' then 0 else 1 + FindNewline(s[1..])
  }

  /** `str::lines` drops one carriage return, and only in front of a newline. */
  function StripCr(line: string): string {
    if line != "" && line[|line| - 1] == '\r' then line[..|line| - 1] else line
  }

  function Lines(s: string): seq<string>
    decreases |s|
  {
    if s == "" then []
    else
      var i := FindNewline(s);
      if i == |s| then [s] else [StripCr(s[..i])] + Lines(s[i + 1..])
  }

  // --- escapes ------------------------------------------------------------------------

  predicate OctalDigit(c: char) { '0' <= c <= '7' }

  function DigitOf(c: char): nat
    requires OctalDigit(c)
  {
    c as int - '0' as int
  }

  /**
   * `u8::from_str_radix(_, 8)` over the next three characters. A leading `+` is a sign to
   * it, so `\+12` is taken for an escape as well.
   */
  function EscapedByte(s: string): Option<nat> {
    if |s| < 3 || !OctalDigit(s[1]) || !OctalDigit(s[2]) then None
    else if s[0] == '+' then Some(DigitOf(s[1]) * 8 + DigitOf(s[2]))
    else if OctalDigit(s[0]) && DigitOf(s[0]) < 4 then
      Some(DigitOf(s[0]) * 64 + DigitOf(s[1]) * 8 + DigitOf(s[2]))
    else None
  }

  /**
   * Which three characters stand for a byte: its three octal digits, and, for one below 64, a plus
   * and the last two of them.
   */
  lemma EscapedBytesExactly(s: string, b: nat)
    requires |s| >= 3 && b < 256
    ensures EscapedByte(s) == Some(b) <==>
      s[..3] == Octal3(b) || (b < 64 && s[0] == '+' && s[1..3] == Octal3(b)[1..])
    ensures EscapedByte(s).Some? ==> EscapedByte(s).value < 256
  {
    var o := Octal3(b);
    assert s[..3] == o <==> s[0] == o[0] && s[1] == o[1] && s[2] == o[2];
    assert s[1..3] == o[1..] <==> s[1] == o[1] && s[2] == o[2];
  }

  function Unescape(s: string): string {
    if s == "" then ""
    else if s[0] != '\\' then [s[0]] + Unescape(s[1..])
    else match EscapedByte(s[1..])
      case Some(byte) => [byte as char] + Unescape(s[4..])
      case None => "\\" + Unescape(s[1..])
  }

  method UnescapeField(s: string) returns (out: string)
    ensures out == Unescape(s)
  {
    if '\\' !in s {
      UnescapePlain(s);
      return s;
    }
    out := "";
    var i := 0;
    while i < |s|
      invariant 0 <= i <= |s|
      invariant Unescape(s) == out + Unescape(s[i..])
    {
      var c := s[i];
      UnescapeStep(s, i, out);
      i := i + 1;
      if c != '\\' {
        out := out + [c];
      } else {
        var escaped := EscapedByte(s[i..]);
        match escaped {
          case Some(byte) =>
            out := out + [byte as char];
            i := i + 3;
          case None =>
            out := out + "\\";
        }
      }
    }
    assert s[i..] == "";
  }

  lemma UnescapeStep(s: string, i: nat, out: string)
    requires i < |s|
    ensures
      var next := EscapedByte(s[i + 1..]);
      if s[i] != '\\' then out + Unescape(s[i..]) == (out + [s[i]]) + Unescape(s[i + 1..])
      else if next.None? then out + Unescape(s[i..]) == (out + "\\") + Unescape(s[i + 1..])
      else i + 4 <= |s|
           && out + Unescape(s[i..]) == (out + [next.value as char]) + Unescape(s[i + 4..])
  {
    var rest := s[i..];
    assert rest[0] == s[i] && rest[1..] == s[i + 1..];
    if s[i] == '\\' && EscapedByte(s[i + 1..]).Some? {
      assert rest[4..] == s[i + 4..];
    }
  }

  lemma {:induction false} UnescapePlain(s: string)
    requires '\\' !in s
    ensures Unescape(s) == s
  {
    if s != "" { UnescapePlain(s[1..]); }
  }

  // --- parsing ------------------------------------------------------------------------

  /** The first lone `-` at or after `from`, or the field count when there is none. */
  function Separator(fields: seq<string>, from: nat): (k: nat)
    requires from <= |fields|
    ensures from <= k <= |fields|
    ensures k < |fields| ==> fields[k] == "-"
    ensures forall i :: from <= i < k ==> fields[i] != "-"
    decreases |fields| - from
  {
    if from == |fields| || fields[from] == "-" then from else Separator(fields, from + 1)
  }

  function ParseFields(fields: seq<string>): Option<MountEntry> {
    if |fields| < 5 then None
    else
      var k := Separator(fields, 5);
      if k + 2 >= |fields| || fields[4] == "" || fields[k + 1] == "" then None
      else Some(MountEntry(Unescape(fields[4]), Unescape(fields[k + 2]), Unescape(fields[k + 1])))
  }

  function ParseLine(line: string): Option<MountEntry> { ParseFields(Split(line)) }

  /** The parse as the service steps through it: five fields, the separator, the tail. */
  method ParseOneLine(line: string) returns (entry: Option<MountEntry>)
    ensures entry == ParseLine(line)
  {
    var fields := Split(line);
    if |fields| < 5 { return None; }
    var k := 5;
    while k < |fields| && fields[k] != "-"
      invariant 5 <= k <= |fields|
      invariant Separator(fields, 5) == Separator(fields, k)
    {
      k := k + 1;
    }
    if k + 2 >= |fields| || fields[4] == "" || fields[k + 1] == "" { return None; }
    var point := UnescapeField(fields[4]);
    var source := UnescapeField(fields[k + 2]);
    var fstype := UnescapeField(fields[k + 1]);
    return Some(MountEntry(point, source, fstype));
  }

  function ParseLines(lines: seq<string>): seq<MountEntry> {
    if lines == [] then []
    else
      match ParseLine(lines[0])
      case Some(e) => [e] + ParseLines(lines[1..])
      case None => ParseLines(lines[1..])
  }

  function Parse(contents: string): seq<MountEntry> { ParseLines(Lines(contents)) }

  // --- the kernel's side --------------------------------------------------------------

  function Octal3(n: nat): (s: string)
    requires n < 256
    ensures |s| == 3 && EscapedByte(s) == Some(n) && forall c <- s :: OctalDigit(c)
  {
    [('0' as int + n / 64) as char, ('0' as int + n / 8 % 8) as char, ('0' as int + n % 8) as char]
  }

  /** Characters the kernel must escape for a field to survive, and any others it chooses to. */
  predicate EscapeSet(escaped: set<char>) {
    {' ', '\t', '\n', '\\'} <= escaped && forall c <- escaped :: c as int < 256
  }

  function KernelEscape(s: string, escaped: set<char>): string
    requires EscapeSet(escaped)
  {
    if s == "" then ""
    else (if s[0] in escaped then "\\" + Octal3(s[0] as int) else [s[0]])
         + KernelEscape(s[1..], escaped)
  }

  predicate Field(s: string) { ' ' !in s && '\n' !in s }

  lemma {:induction false} KernelEscapeInverts(s: string, escaped: set<char>)
    requires EscapeSet(escaped)
    ensures Unescape(KernelEscape(s, escaped)) == s
    ensures Field(KernelEscape(s, escaped))
    ensures KernelEscape(s, escaped) == "" <==> s == ""
  {
    if s != "" {
      var tail := KernelEscape(s[1..], escaped);
      var r := KernelEscape(s, escaped);
      KernelEscapeInverts(s[1..], escaped);
      if s[0] in escaped {
        var octal := Octal3(s[0] as int);
        assert r == "\\" + octal + tail;
        assert r[1..][..3] == octal && r[4..] == tail;
        assert EscapedByte(r[1..]) == EscapedByte(octal);
      } else {
        assert r[1..] == tail;
      }
    }
  }

  /** One mountinfo line, per section 3.5 of the kernel's Documentation/filesystems/proc.rst. */
  datatype Rendered = Rendered(head: seq<string>, options: string, optional: seq<string>, rest: seq<string>) {
    predicate WellFormed() {
      && |head| == 4
      && (forall f <- head + [options] + optional + rest :: Field(f))
      && options != "-" && "-" !in optional
    }

    function Fields(e: MountEntry, escaped: set<char>): seq<string>
      requires EscapeSet(escaped)
    {
      head + [KernelEscape(e.mountPoint, escaped), options] + optional
      + ["-", KernelEscape(e.fstype, escaped), KernelEscape(e.source, escaped)] + rest
    }

    function Line(e: MountEntry, escaped: set<char>): string
      requires EscapeSet(escaped)
    {
      Join(Fields(e, escaped))
    }
  }

  lemma {:induction false} SplitField(s: string)
    requires ' ' !in s
    ensures Split(s) == [s]
  {
    if s != "" {
      SplitField(s[1..]);
      assert [s[0]] + s[1..] == s;
    }
  }

  lemma {:induction false} SplitAtSpace(s: string, t: string)
    requires ' ' !in s
    ensures Split(s + " " + t) == [s] + Split(t)
  {
    var whole := s + " " + t;
    if s == "" {
      assert whole[1..] == t;
    } else {
      assert whole[1..] == s[1..] + " " + t;
      SplitAtSpace(s[1..], t);
      assert ([s[1..]] + Split(t))[1..] == Split(t);
      assert [s[0]] + s[1..] == s;
    }
  }

  lemma {:induction false} SplitInvertsJoin(fields: seq<string>)
    requires |fields| >= 1 && forall f <- fields :: Field(f)
    ensures Split(Join(fields)) == fields && '\n' !in Join(fields)
  {
    assert fields[0] in fields;
    if |fields| == 1 {
      SplitField(fields[0]);
    } else {
      assert forall f <- fields[1..] :: f in fields;
      SplitInvertsJoin(fields[1..]);
      SplitAtSpace(fields[0], Join(fields[1..]));
    }
  }

  lemma RenderedFieldsAreFields(e: MountEntry, r: Rendered, escaped: set<char>)
    requires EscapeSet(escaped) && r.WellFormed()
    ensures forall f <- r.Fields(e, escaped) :: Field(f)
  {
    KernelEscapeInverts(e.mountPoint, escaped);
    KernelEscapeInverts(e.source, escaped);
    KernelEscapeInverts(e.fstype, escaped);
    forall f <- r.Fields(e, escaped) ensures Field(f) {
      if f !in r.head + [r.options] + r.optional + r.rest {
        assert f in ["-", KernelEscape(e.fstype, escaped), KernelEscape(e.source, escaped),
                     KernelEscape(e.mountPoint, escaped)];
      }
    }
  }

  lemma RenderedFieldsParse(e: MountEntry, r: Rendered, escaped: set<char>)
    requires EscapeSet(escaped) && r.WellFormed()
    requires e.mountPoint != "" && e.fstype != ""
    ensures ParseFields(r.Fields(e, escaped)) == Some(e)
  {
    KernelEscapeInverts(e.mountPoint, escaped);
    KernelEscapeInverts(e.source, escaped);
    KernelEscapeInverts(e.fstype, escaped);
    var fields := r.Fields(e, escaped);
    var dash := 6 + |r.optional|;
    assert fields[4] == KernelEscape(e.mountPoint, escaped) && fields[5] == r.options;
    assert fields[dash] == "-";
    assert forall i :: 6 <= i < dash ==> fields[i] == r.optional[i - 6];
    assert fields[dash + 1] == KernelEscape(e.fstype, escaped);
    assert fields[dash + 2] == KernelEscape(e.source, escaped);
  }

  lemma OneLineAlone(line: string)
    requires '\n' !in line && line != ""
    ensures Lines(line) == [line]
  {
    assert FindNewline(line) == |line|;
  }

  /** The kernel writes it, the service reads it back: no entry is lost, mangled or invented. */
  lemma LineRoundTrip(e: MountEntry, r: Rendered, escaped: set<char>)
    requires EscapeSet(escaped) && r.WellFormed()
    requires e.mountPoint != "" && e.fstype != ""
    ensures ParseLine(r.Line(e, escaped)) == Some(e)
    ensures Parse(r.Line(e, escaped)) == [e]
  {
    RenderedFieldsAreFields(e, r, escaped);
    RenderedFieldsParse(e, r, escaped);
    SplitInvertsJoin(r.Fields(e, escaped));
    var line := r.Line(e, escaped);
    OneLineAlone(line);
    assert ParseLines([line][1..]) == [];
  }

  // --- several lines ------------------------------------------------------------------

  /** Everything after the last newline. */
  function LastLine(s: string): string
    decreases |s|
  {
    var i := FindNewline(s);
    if i == |s| then s else LastLine(s[i + 1..])
  }

  /** The complete lines in front of `LastLine`. */
  function LinesBefore(s: string): seq<string>
    decreases |s|
  {
    var i := FindNewline(s);
    if i == |s| then [] else [StripCr(s[..i])] + LinesBefore(s[i + 1..])
  }

  lemma {:induction false} FindNewlineIn(s: string, t: string)
    ensures FindNewline(s) == |s| ==> FindNewline(s + "\n" + t) == |s|
  {
    if s != "" {
      assert (s + "\n" + t)[1..] == s[1..] + "\n" + t;
      FindNewlineIn(s[1..], t);
    }
  }

  lemma {:induction false} LinesSplitAtLast(s: string)
    ensures Lines(s) == LinesBefore(s) + (if LastLine(s) == "" then [] else [LastLine(s)])
    decreases |s|
  {
    var i := FindNewline(s);
    if i < |s| { LinesSplitAtLast(s[i + 1..]); }
  }

  lemma FirstLineOf(line: string, rest: string)
    requires '\n' !in line
    ensures
      var s := line + "\n" + rest;
      && Lines(s) == [StripCr(line)] + Lines(rest)
      && LinesBefore(s) == [StripCr(line)] + LinesBefore(rest)
      && LastLine(s) == LastLine(rest)
  {
    var s := line + "\n" + rest;
    NoNewlineToFind(line);
    FindNewlineIn(line, rest);
    assert s[..|line|] == line && s[|line| + 1..] == rest;
  }

  lemma {:induction false} NoNewlineToFind(s: string)
    requires '\n' !in s
    ensures FindNewline(s) == |s|
  {}

  lemma JoinIsAssociative(line: string, rest: string, b: string)
    ensures (line + "\n" + rest) + "\n" + b == line + "\n" + (rest + "\n" + b)
  {}

  /** A newline after `a` ends its last line and nothing else. */
  ghost predicate JoinsAtNewline(a: string, b: string) {
    Lines(a + "\n" + b) == LinesBefore(a) + [StripCr(LastLine(a))] + Lines(b)
  }

  lemma JoinsStep(line: string, rest: string, b: string)
    requires '\n' !in line && JoinsAtNewline(rest, b)
    ensures JoinsAtNewline(line + "\n" + rest, b)
  {
    JoinIsAssociative(line, rest, b);
    FirstLineOf(line, rest);
    FirstLineOf(line, rest + "\n" + b);
  }

  lemma CutAtNewline(a: string, i: nat)
    requires i < |a| && a[i] == '\n'
    ensures a == a[..i] + "\n" + a[i + 1..]
  {}

  lemma {:induction false} LinesOfJoined(a: string, b: string)
    ensures JoinsAtNewline(a, b)
    decreases |a|
  {
    var i := FindNewline(a);
    if i < |a| {
      CutAtNewline(a, i);
      LinesOfJoined(a[i + 1..], b);
      JoinsStep(a[..i], a[i + 1..], b);
    } else {
      FirstLineOf(a, b);
      assert LinesBefore(a) == [] && LastLine(a) == a;
    }
  }

  lemma {:induction false} ParseLinesAppend(a: seq<string>, b: seq<string>)
    ensures ParseLines(a + b) == ParseLines(a) + ParseLines(b)
  {
    if a == [] {
      assert a + b == b;
    } else {
      assert (a + b)[1..] == a[1..] + b;
      ParseLinesAppend(a[1..], b);
    }
  }

  function OfLine(line: string): seq<MountEntry> {
    match ParseLine(line) case Some(e) => [e] case None => []
  }

  lemma ParseOfJoined(a: string, b: string)
    ensures Parse(a) == ParseLines(LinesBefore(a)) + OfLine(LastLine(a))
    ensures Parse(a + "\n" + b)
         == ParseLines(LinesBefore(a)) + OfLine(StripCr(LastLine(a))) + Parse(b)
  {
    LinesSplitAtLast(a);
    LinesOfJoined(a, b);
    var before, last, shorn := LinesBefore(a), LastLine(a), StripCr(LastLine(a));
    assert ParseLines([last][1..]) == [] && ParseLines([shorn][1..]) == [];
    assert OfLine("") == [];
    if last != "" { ParseLinesAppend(before, [last]); } else { assert before + [] == before; }
    assert ParseLines([shorn]) == OfLine(shorn);
    ParseLinesAppend(before, [shorn]);
    ParseLinesAppend(before + [shorn], Lines(b));
  }

  /** The fields with one more character on the last. */
  function Grown(f: seq<string>, c: char): (g: seq<string>)
    requires |f| >= 1
    ensures |g| == |f| && g[|g| - 1] == f[|f| - 1] + [c] && g[..|g| - 1] == f[..|f| - 1]
    ensures forall i :: 0 <= i < |f| - 1 ==> g[i] == f[i]
  {
    f[|f| - 1 := f[|f| - 1] + [c]]
  }

  lemma GrownUnderHead(head: char, f: seq<string>, c: char)
    requires |f| >= 1
    ensures [""] + Grown(f, c) == Grown([""] + f, c)
    ensures [[head] + Grown(f, c)[0]] + Grown(f, c)[1..] == Grown([[head] + f[0]] + f[1..], c)
  {
    var grown := Grown(f, c);
    assert |f| == 1 ==> [head] + grown[0] == ([head] + f[0]) + [c];
  }

  lemma {:induction false} SplitSnoc(s: string, c: char)
    requires c != ' '
    ensures Split(s + [c]) == Grown(Split(s), c)
  {
    var t := s + [c];
    if s == "" {
      SplitField(t);
      assert Split(s) == [s];
    } else {
      assert t[1..] == s[1..] + [c] && t[0] == s[0];
      SplitSnoc(s[1..], c);
      GrownUnderHead(s[0], Split(s[1..]), c);
    }
  }

  lemma {:induction false} UnescapeSnocCr(s: string)
    ensures Unescape(s + "\r") == Unescape(s) + "\r"
    decreases |s|
  {
    var t := s + "\r";
    if s == "" {
      assert t[1..] == "";
    } else {
      assert t[0] == s[0] && t[1..] == s[1..] + "\r";
      UnescapeSnocCr(s[1..]);
      if s[0] == '\\' && EscapedByte(s[1..]).Some? {
        assert t[4..] == s[4..] + "\r";
        UnescapeSnocCr(s[4..]);
      }
    }
  }

  /** A line that names a mount and stops right after its source, which ends in a return. */
  predicate SourceEndsInCr(line: string) {
    && line != "" && line[|line| - 1] == '\r'
    && var f := Split(line);
    && |f| > 5 && f[4] != ""
    && var k := Separator(f, 5);
    && k + 3 == |f| && f[k + 1] != ""
  }

  lemma {:induction false} SeparatorOfPrefix(f: seq<string>, g: seq<string>, from: nat)
    requires from < |f| == |g| && f[..|f| - 1] == g[..|g| - 1]
    ensures Separator(f, from) < |f| - 1 ==> Separator(g, from) == Separator(f, from)
    decreases |f| - from
  {
    if from < |f| - 1 {
      assert f[from] == f[..|f| - 1][from] && g[from] == g[..|g| - 1][from];
      if f[from] != "-" { SeparatorOfPrefix(f, g, from + 1); }
    }
  }

  /** A return on the last field changes the parse exactly when that field is a source. */
  lemma ReturnOnTheLastField(f: seq<string>, g: seq<string>)
    requires |f| == |g| && |f| >= 1 && f[..|f| - 1] == g[..|g| - 1] && f[|f| - 1] == g[|g| - 1] + "\r"
    ensures ParseFields(f) != ParseFields(g) <==>
      |f| > 5 && f[4] != "" && Separator(f, 5) + 3 == |f| && f[Separator(f, 5) + 1] != ""
  {
    var n := |f|;
    assert forall i :: 0 <= i < n - 1 ==> f[i] == f[..n - 1][i] && g[i] == g[..n - 1][i];
    if n > 5 {
      SeparatorOfPrefix(f, g, 5);
      SeparatorOfPrefix(g, f, 5);
      if Separator(f, 5) + 3 == n { UnescapeSnocCr(g[n - 1]); }
    }
  }

  lemma StrippedCrMatters(line: string)
    ensures ParseLine(StripCr(line)) != ParseLine(line) <==> SourceEndsInCr(line)
  {
    if line != "" && line[|line| - 1] == '\r' {
      assert line == StripCr(line) + ['\r'];
      SplitSnoc(StripCr(line), '\r');
      ReturnOnTheLastField(Split(line), Split(StripCr(line)));
    }
  }

  /**
   * Two texts read together give what each gives alone, so one malformed line never hides
   * another -- except when the first ends in a carriage return that `lines` keeps at the end
   * of a text, drops in front of a newline, and that is the last byte of a source.
   */
  lemma ParseOfJoinedIsConcatenation(a: string, b: string)
    ensures Parse(a + "\n" + b) == Parse(a) + Parse(b) <==> !SourceEndsInCr(LastLine(a))
  {
    ParseOfJoined(a, b);
    StrippedCrMatters(LastLine(a));
    var p, x, y := ParseLines(LinesBefore(a)), OfLine(StripCr(LastLine(a))), OfLine(LastLine(a));
    if SourceEndsInCr(LastLine(a)) {
      CrKeepsTheLineParsable(LastLine(a));
      OneInTheMiddleDiffers(p, x[0], y[0], Parse(b));
    } else {
      assert x == y;
    }
  }

  lemma OneInTheMiddleDiffers(before: seq<MountEntry>, x: MountEntry, y: MountEntry, after: seq<MountEntry>)
    requires x != y
    ensures before + [x] + after != before + [y] + after
  {
    assert (before + [x] + after)[|before|] == x && (before + [y] + after)[|before|] == y;
  }

  lemma CrKeepsTheLineParsable(line: string)
    requires SourceEndsInCr(line)
    ensures ParseLine(line).Some? && ParseLine(StripCr(line)).Some?
  {
    var shorn := StripCr(line);
    assert line == shorn + ['\r'];
    SplitSnoc(shorn, '\r');
    SeparatorOfPrefix(Split(line), Split(shorn), 5);
    var f, g := Split(line), Split(shorn);
    assert forall i :: 0 <= i < |f| - 1 ==> f[i] == f[..|f| - 1][i] && g[i] == g[..|g| - 1][i];
  }

  lemma {:induction false} JoinEndsAsItsLastField(fields: seq<string>)
    requires |fields| >= 1 && fields[|fields| - 1] != ""
    ensures var line, f := Join(fields), fields[|fields| - 1];
      line != "" && line[|line| - 1] == f[|f| - 1]
  {
    if |fields| > 1 { JoinEndsAsItsLastField(fields[1..]); }
  }

  /** A line that ends right after a source, with a carriage return for its last byte. */
  const ODD_FIELDS := ["1", "2", "3", "/", "/m", "rw", "-", "t", "s\r"]

  lemma OddFieldsEndInASource()
    ensures Separator(ODD_FIELDS, 5) == 6 && forall f <- ODD_FIELDS :: Field(f)
  {
    assert ODD_FIELDS[5] == "rw" && "rw"[0] == 'r' && "-"[0] == '-';
    assert ODD_FIELDS[6] == "-";
    assert Separator(ODD_FIELDS, 6) == 6;
  }

  lemma OddLineIsOdd()
    ensures var line := Join(ODD_FIELDS); SourceEndsInCr(line) && '\n' !in line
  {
    OddFieldsEndInASource();
    SplitInvertsJoin(ODD_FIELDS);
    JoinEndsAsItsLastField(ODD_FIELDS);
  }

  /** Whatever text follows it, joining that line to the text changes its source. */
  lemma AReturnIsDropped(b: string)
    ensures Parse(Join(ODD_FIELDS) + "\n" + b) != Parse(Join(ODD_FIELDS)) + Parse(b)
  {
    var line := Join(ODD_FIELDS);
    OddLineIsOdd();
    NoNewlineToFind(line);
    assert LastLine(line) == line;
    ParseOfJoinedIsConcatenation(line, b);
  }

  // --- a whole table ------------------------------------------------------------------

  /** One line of the table: what it says, and everything else the kernel writes on it. */
  datatype Row = Row(entry: MountEntry, rest: Rendered) {
    predicate WellFormed() { rest.WellFormed() && entry.mountPoint != "" && entry.fstype != "" }

    function Line(escaped: set<char>): string
      requires EscapeSet(escaped)
    {
      rest.Line(entry, escaped)
    }
  }

  /** The table as the kernel writes it: each line ended by a newline. */
  function Table(rows: seq<Row>, escaped: set<char>): string
    requires EscapeSet(escaped)
  {
    if rows == [] then "" else rows[0].Line(escaped) + "\n" + Table(rows[1..], escaped)
  }

  /** The line stops right after a source that ends in a return the kernel did not escape. */
  predicate EndsInReturn(row: Row, escaped: set<char>) {
    var s := row.entry.source;
    row.rest.rest == [] && s != "" && s[|s| - 1] == '\r' && '\r' !in escaped
  }

  lemma {:induction false} EscapedEndsAsWritten(s: string, escaped: set<char>)
    requires EscapeSet(escaped) && s != ""
    ensures var t, c := KernelEscape(s, escaped), s[|s| - 1];
      t != "" && (t[|t| - 1] == '\r' <==> c == '\r' && '\r' !in escaped)
  {
    var tail := KernelEscape(s[1..], escaped);
    if |s| == 1 {
      assert tail == "";
      if s[0] in escaped { assert OctalDigit(Octal3(s[0] as int)[2]); }
    } else {
      EscapedEndsAsWritten(s[1..], escaped);
    }
  }

  lemma {:induction false} JoinOfEmptyLast(fields: seq<string>)
    requires |fields| > 1 && fields[|fields| - 1] == ""
    ensures var line := Join(fields); line != "" && line[|line| - 1] == ' '
  {
    if |fields| == 2 {
      assert Join(fields[1..]) == "";
    } else {
      JoinOfEmptyLast(fields[1..]);
    }
  }

  /** Where the separator of a rendered line is. */
  lemma SeparatorOfRendered(e: MountEntry, r: Rendered, escaped: set<char>)
    requires EscapeSet(escaped) && r.WellFormed()
    ensures Separator(r.Fields(e, escaped), 5) == 6 + |r.optional|
    ensures |r.Fields(e, escaped)| == 9 + |r.optional| + |r.rest|
  {
    var fields := r.Fields(e, escaped);
    var dash := 6 + |r.optional|;
    assert fields[5] == r.options && fields[dash] == "-";
    assert forall i :: 6 <= i < dash ==> fields[i] == r.optional[i - 6];
  }

  lemma LastFieldDecides(row: Row, escaped: set<char>)
    requires EscapeSet(escaped) && row.WellFormed() && row.rest.rest == []
    ensures var line := row.Line(escaped);
      line != "" && (line[|line| - 1] == '\r' <==> EndsInReturn(row, escaped))
  {
    var fields, source := row.rest.Fields(row.entry, escaped), row.entry.source;
    assert fields[|fields| - 1] == KernelEscape(source, escaped);
    if source == "" {
      JoinOfEmptyLast(fields);
    } else {
      EscapedEndsAsWritten(source, escaped);
      JoinEndsAsItsLastField(fields);
    }
  }

  lemma OddExactly(row: Row, escaped: set<char>)
    requires EscapeSet(escaped) && row.WellFormed()
    ensures SourceEndsInCr(row.Line(escaped)) <==> EndsInReturn(row, escaped)
  {
    var e, r := row.entry, row.rest;
    RenderedFieldsAreFields(e, r, escaped);
    SplitInvertsJoin(r.Fields(e, escaped));
    SeparatorOfRendered(e, r, escaped);
    if r.rest == [] {
      LastFieldDecides(row, escaped);
      KernelEscapeInverts(e.mountPoint, escaped);
      KernelEscapeInverts(e.fstype, escaped);
      assert r.Fields(e, escaped)[4] == KernelEscape(e.mountPoint, escaped);
      assert r.Fields(e, escaped)[7 + |r.optional|] == KernelEscape(e.fstype, escaped);
    }
  }

  lemma ParseOfFirstRow(row: Row, escaped: set<char>, below: string)
    requires EscapeSet(escaped) && row.WellFormed()
    ensures ParseLine(StripCr(row.Line(escaped))).Some?
    ensures Parse(row.Line(escaped) + "\n" + below)
         == [ParseLine(StripCr(row.Line(escaped))).value] + Parse(below)
    ensures ParseLine(StripCr(row.Line(escaped))) == Some(row.entry) <==> !EndsInReturn(row, escaped)
  {
    var line := row.Line(escaped);
    LineRoundTrip(row.entry, row.rest, escaped);
    RenderedFieldsAreFields(row.entry, row.rest, escaped);
    SplitInvertsJoin(row.rest.Fields(row.entry, escaped));
    FirstLineOf(line, below);
    StrippedCrMatters(line);
    OddExactly(row, escaped);
    if SourceEndsInCr(line) { CrKeepsTheLineParsable(line); }
    var lines := [StripCr(line)] + Lines(below);
    assert lines[0] == StripCr(line) && lines[1..] == Lines(below);
  }

  /**
   * The whole table reads back, one entry a line and in order, and each entry is what was written
   * unless its line stops right after a source that ends in a carriage return, which is lost.
   */
  lemma {:induction false} TableRoundTrip(rows: seq<Row>, escaped: set<char>)
    requires EscapeSet(escaped) && forall row <- rows :: row.WellFormed()
    ensures var entries := Parse(Table(rows, escaped));
      && |entries| == |rows|
      && forall i :: 0 <= i < |rows| ==> (entries[i] == rows[i].entry <==> !EndsInReturn(rows[i], escaped))
  {
    if rows != [] {
      TableRoundTrip(rows[1..], escaped);
      ParseOfFirstRow(rows[0], escaped, Table(rows[1..], escaped));
      assert forall i :: 1 <= i < |rows| ==> rows[i] == rows[1..][i - 1];
    }
  }
}
