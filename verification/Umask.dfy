/** Octal umask spellings: how one is read, and the one spelling it is written back as. */
module Umask {
  import opened Base

  const U128_MODULUS: nat := 0x1_0000_0000_0000_0000_0000_0000_0000_0000

  /** `i32::MAX`, the largest mask rclone takes. */
  const MAX_UMASK: nat := 0x7fff_ffff

  datatype Parsed = Number(n: nat) | Overflow | Malformed

  function Digit(c: char, radix: nat): Option<nat>
    requires 2 <= radix <= 10
  {
    if '0' <= c <= '9' && (c as int - '0' as int) < radix then Some(c as int - '0' as int)
    else None
  }

  /** The digit loop of `u128::from_str_radix`: the first bad digit or overflow decides. */
  function Digits(s: string, radix: nat, acc: nat): Parsed
    requires 2 <= radix <= 10
  {
    if s == "" then Number(acc)
    else match Digit(s[0], radix)
      case None => Malformed
      case Some(d) =>
        if acc * radix + d >= U128_MODULUS then Overflow
        else Digits(s[1..], radix, acc * radix + d)
  }

  /** `u128::from_str_radix`: one leading `+` is allowed, an empty number is not. */
  function FromStrRadix(s: string, radix: nat): Parsed
    requires 2 <= radix <= 10
  {
    var digits := if |s| > 1 && s[0] == '+' then s[1..] else s;
    if digits == "" then Malformed else Digits(digits, radix, 0)
  }

  /** `trim_start_matches("0o")`: every leading `0o`, not only the first. */
  function TrimOctalPrefix(s: string): string {
    if "0o" <= s then TrimOctalPrefix(s[2..]) else s
  }

  function UmaskBits(s: string): Option<nat> {
    match FromStrRadix(TrimOctalPrefix(s), 8)
    case Number(n) => Some(n)
    case Overflow => Some(U128_MODULUS - 1)
    case Malformed => None
  }

  /** `{:o}`. */
  function Octal(n: nat): string {
    if n < 8 then [('0' as int + n) as char]
    else Octal(n / 8) + [('0' as int + n % 8) as char]
  }

  function CanonicalUmask(s: string): string {
    match UmaskBits(s)
    case Some(bits) => if bits <= MAX_UMASK then "0" + Octal(bits) else s
    case None => s
  }

  /** A spelling's old and new reading, each written so that every rclone agrees on it; `None` if they are equal. */
  function UmaskReadings(s: string): Option<(string, string)> {
    match UmaskBits(s)
    case None => None
    case Some(bits) =>
      var now := bits % 512;
      var unsigned := if |s| > 0 && s[0] == '+' then s[1..] else s;
      if |unsigned| > 0 && unsigned[0] == '0' then None
      else match FromStrRadix(unsigned, 10)
        case Number(n) =>
          if n % 512 == now then None else Some(("0" + Octal(n % 512), "0" + Octal(now)))
        case _ => None
  }

  lemma {:induction false} DigitsExtend(s: string, c: char, acc: nat)
    requires Digits(s, 8, acc).Number? && Digit(c, 8).Some?
    requires Digits(s, 8, acc).n * 8 + Digit(c, 8).value < U128_MODULUS
    ensures Digits(s + [c], 8, acc) == Number(Digits(s, 8, acc).n * 8 + Digit(c, 8).value)
  {
    if s == "" {
      assert Digits("", 8, acc * 8 + Digit(c, 8).value).Number?;
      assert (s + [c])[1..] == "";
    } else {
      assert (s + [c])[0] == s[0] && (s + [c])[1..] == s[1..] + [c];
      DigitsExtend(s[1..], c, acc * 8 + Digit(s[0], 8).value);
    }
  }

  lemma {:induction false} OctalReadsBack(n: nat)
    requires n < U128_MODULUS
    ensures Digits(Octal(n), 8, 0) == Number(n)
    ensures |Octal(n)| > 0 && forall c <- Octal(n) :: '0' <= c <= '7'
  {
    if n < 8 {
      assert Octal(n)[1..] == "";
    } else {
      OctalReadsBack(n / 8);
      DigitsExtend(Octal(n / 8), ('0' as int + n % 8) as char, 0);
    }
  }

  /** A leading-zero octal print parses to what was printed, and no rclone reads it otherwise. */
  lemma LeadingZeroReadsBack(n: nat)
    requires n < U128_MODULUS
    ensures UmaskBits("0" + Octal(n)) == Some(n)
    ensures UmaskReadings("0" + Octal(n)) == None
  {
    OctalReadsBack(n);
    var s := "0" + Octal(n);
    assert s[1] == Octal(n)[0] && s[1..] == Octal(n);
    assert TrimOctalPrefix(s) == s;
    assert Digits(s, 8, 0) == Digits(s[1..], 8, 0);
  }

  /**
   * The spelling handed to rclone starts with `0`, parses to the same bits, is its own
   * canonical form, and is never one the two rclone generations read differently.
   */
  lemma CanonicalUmaskKeepsMeaning(s: string)
    requires UmaskBits(s).Some? && UmaskBits(s).value <= MAX_UMASK
    ensures CanonicalUmask(s)[..1] == "0"
    ensures UmaskBits(CanonicalUmask(s)) == UmaskBits(s)
    ensures CanonicalUmask(CanonicalUmask(s)) == CanonicalUmask(s)
    ensures UmaskReadings(CanonicalUmask(s)) == None
  {
    LeadingZeroReadsBack(UmaskBits(s).value);
  }

  /** Two accepted spellings are rewritten alike exactly when they mean the same mask. */
  lemma CanonicalUmaskIsAKey(s: string, t: string)
    requires UmaskBits(s).Some? && UmaskBits(s).value <= MAX_UMASK
    requires UmaskBits(t).Some? && UmaskBits(t).value <= MAX_UMASK
    ensures CanonicalUmask(s) == CanonicalUmask(t) <==> UmaskBits(s) == UmaskBits(t)
  {
    CanonicalUmaskKeepsMeaning(s);
    CanonicalUmaskKeepsMeaning(t);
  }

  /**
   * Both alternatives offered for an ambiguous spelling are fit to be offered: each is
   * read the same by every rclone, they are different masks, and the second is what the
   * ambiguous spelling means now.
   */
  lemma ReadingsAreUsableAdvice(s: string)
    requires UmaskReadings(s).Some?
    ensures
      var (before, now) := UmaskReadings(s).value;
      && UmaskReadings(before) == None && UmaskReadings(now) == None
      && UmaskBits(before).Some? && UmaskBits(now).Some?
      && UmaskBits(before) != UmaskBits(now)
      && UmaskBits(now).value == UmaskBits(s).value % 512
      && CanonicalUmask(before) == before && CanonicalUmask(now) == now
  {
    var unsigned := if |s| > 0 && s[0] == '+' then s[1..] else s;
    LeadingZeroReadsBack(FromStrRadix(unsigned, 10).n % 512);
    LeadingZeroReadsBack(UmaskBits(s).value % 512);
  }
}
