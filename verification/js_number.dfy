/**
 * `parseInt` without a radix, as section 19.2.5 of ECMA-262 defines it:
 * leading white space is skipped, one sign is read, a "0x" or "0X" prefix
 * switches to base 16, and the longest run of digits that follows is the
 * value. A string with no such digit gives NaN, written None here.
 */
module JsNumber {

  import opened Common
  import opened Text

  /**
   * WhiteSpace (section 12.2) and LineTerminator (section 12.3) of ECMA-262,
   * the characters `parseInt` trims first; the space separators are those of
   * Unicode's Zs category.
   */
  predicate IsJsSpace(c: char) {
    c == '\t' || c == '\U{000B}' || c == '\U{000C}' || c == ' ' || c == '\U{00A0}' || c == '\U{FEFF}'
    || c == '\n' || c == '\r' || c == '\U{2028}' || c == '\U{2029}'
    || c == '\U{1680}' || ('\U{2000}' <= c <= '\U{200A}') || c == '\U{202F}' || c == '\U{205F}' || c == '\U{3000}'
  }

  /** The string without its leading white space. */
  function TrimStart(s: string): (t: string)
    ensures |t| <= |s| && t == s[|s| - |t|..]
    ensures |t| == 0 || !IsJsSpace(t[0])
    decreases |s|
  {
    if |s| > 0 && IsJsSpace(s[0]) then TrimStart(s[1..]) else s
  }

  /** The value of a digit in base 10 or 16, letters in either case; None for any other character. */
  function DigitOf(c: char, radix: nat): (r: Option<nat>)
    requires radix == 10 || radix == 16
    ensures r.Some? ==> r.value < radix
    ensures IsDigit(c) ==> r == Some(DigitValue(c))
    ensures radix == 10 ==> (r.Some? <==> IsDigit(c))
    ensures radix == 16 ==> (r.Some? <==> IsDigit(c) || 'a' <= c <= 'f' || 'A' <= c <= 'F')
  {
    if '0' <= c <= '9' then Some(c as int - '0' as int)
    else if radix == 16 && 'a' <= c <= 'f' then Some(c as int - 'a' as int + 10)
    else if radix == 16 && 'A' <= c <= 'F' then Some(c as int - 'A' as int + 10)
    else None
  }

  predicate AllDigitsIn(s: string, radix: nat)
    requires radix == 10 || radix == 16
  {
    forall i :: 0 <= i < |s| ==> DigitOf(s[i], radix).Some?
  }

  /** The length of the longest run of digits the string starts with. */
  function DigitRun(s: string, radix: nat): (n: nat)
    requires radix == 10 || radix == 16
    ensures n <= |s| && AllDigitsIn(s[..n], radix)
    ensures n == |s| || DigitOf(s[n], radix).None?
    decreases |s|
  {
    if |s| > 0 && DigitOf(s[0], radix).Some? then
      var n := 1 + DigitRun(s[1..], radix);
      assert forall i :: 1 <= i < n ==> s[..n][i] == s[1..][..n - 1][i - 1];
      n
    else 0
  }

  /** The number a run of digits denotes, most significant digit first. */
  function RadixValue(s: string, radix: nat): nat
    requires radix == 10 || radix == 16
    requires AllDigitsIn(s, radix)
    decreases |s|
  {
    if |s| == 0 then 0
    else RadixValue(s[..|s| - 1], radix) * radix + DigitOf(s[|s| - 1], radix).value
  }

  /** What `parseInt` reads after the sign: a "0x" or "0X" prefix selects base 16, then the digit run. */
  function ParseUnsigned(u: string): (r: Option<nat>)
    ensures |u| == 0 ==> r.None?
  {
    var hex := |u| >= 2 && u[0] == '0' && (u[1] == 'x' || u[1] == 'X');
    var radix := if hex then 16 else 10;
    var body := if hex then u[2..] else u;
    var n := DigitRun(body, radix);
    if n == 0 then None else Some(RadixValue(body[..n], radix))
  }

  /** `parseInt(s)`: white space, then one optional sign; `-0` is read as 0. */
  function ParseInt(s: string): (r: Option<int>)
    ensures |TrimStart(s)| == 0 ==> r.None?
    ensures r.Some? && r.value < 0 ==> TrimStart(s)[0] == '-'
    ensures r.Some? && |TrimStart(s)| > 0 && TrimStart(s)[0] != '-' ==> r.value >= 0
  {
    var t := TrimStart(s);
    if |t| == 0 then None
    else if t[0] == '-' then (match ParseUnsigned(t[1..]) case None => None case Some(v) => Some(-(v as int)))
    else if t[0] == '+' then (match ParseUnsigned(t[1..]) case None => None case Some(v) => Some(v))
    else (match ParseUnsigned(t) case None => None case Some(v) => Some(v))
  }

  /** In base 10 the digit run's value is the decimal value `ParseDigits` gives. */
  lemma {:induction false} DecimalValue(s: string)
    requires AllDigits(s)
    ensures AllDigitsIn(s, 10) && RadixValue(s, 10) == ParseDigits(s)
    decreases |s|
  {
    if |s| > 0 {
      DecimalValue(s[..|s| - 1]);
    }
  }

  /** Leading white space does not change what `parseInt` reads. */
  lemma SkipsSpace(c: char, s: string)
    requires IsJsSpace(c)
    ensures ParseInt([c] + s) == ParseInt(s)
  {
    assert ([c] + s)[1..] == s;
  }

  /**
   * Decimal digits followed by anything that is not a digit (and, after a
   * lone "0", not an "x") read as their decimal value: "2025abc" gives 2025.
   */
  lemma DecimalPrefix(d: string, rest: string)
    requires |d| > 0 && AllDigits(d)
    requires |rest| == 0 || !IsDigit(rest[0])
    requires |d| == 1 && d[0] == '0' ==> |rest| == 0 || (rest[0] != 'x' && rest[0] != 'X')
    ensures ParseInt(d + rest) == Some(ParseDigits(d))
  {
    var s := d + rest;
    assert s[0] == d[0];
    UnsignedDecimal(d, rest);
    Unsigned(s);
  }

  /** Text that starts with neither white space nor a sign is read as unsigned. */
  lemma Unsigned(s: string)
    requires |s| > 0 && !IsJsSpace(s[0]) && s[0] != '-' && s[0] != '+'
    ensures ParseUnsigned(s).None? ==> ParseInt(s).None?
    ensures ParseUnsigned(s).Some? ==> ParseInt(s) == Some(ParseUnsigned(s).value as int)
  {
    TrimStartAtText(s);
  }

  /** Text that starts with a minus sign is the negated unsigned reading of the rest. */
  lemma Negated(s: string, u: string)
    requires |s| > 0 && s[0] == '-' && s[1..] == u
    ensures ParseUnsigned(u).None? ==> ParseInt(s).None?
    ensures ParseUnsigned(u).Some? ==> ParseInt(s) == Some(-(ParseUnsigned(u).value as int))
  {
    TrimStartAtText(s);
  }

  /** A string that starts with neither white space nor nothing is its own trim. */
  lemma TrimStartAtText(s: string)
    requires |s| > 0 && !IsJsSpace(s[0])
    ensures TrimStart(s) == s
  {
  }

  /** The unsigned part of `DecimalPrefix`. */
  lemma UnsignedDecimal(d: string, rest: string)
    requires |d| > 0 && AllDigits(d)
    requires |rest| == 0 || !IsDigit(rest[0])
    requires |d| == 1 && d[0] == '0' ==> |rest| == 0 || (rest[0] != 'x' && rest[0] != 'X')
    ensures ParseUnsigned(d + rest) == Some(ParseDigits(d))
  {
    var s := d + rest;
    assert !(|s| >= 2 && s[0] == '0' && (s[1] == 'x' || s[1] == 'X'));
    DecimalRun(d, rest);
    assert s[..|d|] == d;
    DecimalValue(d);
  }

  /** The same after a minus sign: "-12" gives -12. */
  lemma NegativeDecimalPrefix(d: string, rest: string)
    requires |d| > 0 && AllDigits(d)
    requires |rest| == 0 || !IsDigit(rest[0])
    requires |d| == 1 && d[0] == '0' ==> |rest| == 0 || (rest[0] != 'x' && rest[0] != 'X')
    ensures ParseInt("-" + d + rest) == Some(-(ParseDigits(d) as int))
  {
    var u := d + rest;
    var s := "-" + u;
    assert s == "-" + d + rest;
    assert s[1..] == u;
    UnsignedDecimal(d, rest);
    Negated(s, u);
  }

  /** The decimal digit run of `d + rest` is exactly `d`. */
  lemma {:induction false} DecimalRun(d: string, rest: string)
    requires AllDigits(d)
    requires |rest| == 0 || !IsDigit(rest[0])
    ensures DigitRun(d + rest, 10) == |d|
    decreases |d|
  {
    if |d| > 0 {
      assert (d + rest)[1..] == d[1..] + rest;
      DecimalRun(d[1..], rest);
    } else {
      assert d + rest == rest;
    }
  }

  /** `parseInt` reads back what `toString` writes. */
  lemma ParseNatText(n: nat)
    ensures ParseInt(NatToString(n)) == Some(n)
  {
    var s := NatToString(n);
    assert s + "" == s;
    DecimalPrefix(s, "");
    ParseNatToString(n);
  }

  /** "0x" with no hexadecimal digit after it is NaN, as is text that starts with a letter. */
  lemma NoDigits()
    ensures ParseInt("0x").None? && ParseInt("0xg").None? && ParseInt("mei").None? && ParseInt("-").None?
  {
    assert "0x"[2..] == [];
    assert ParseUnsigned("0x").None?;
    Unsigned("0x");
    assert "0xg"[2..] == "g";
    assert ParseUnsigned("0xg").None?;
    Unsigned("0xg");
    assert ParseUnsigned("mei").None?;
    Unsigned("mei");
    assert "-"[1..] == [];
    assert ParseUnsigned([]).None?;
    Negated("-", []);
  }

  /** A hexadecimal year: "0x7E9" is 2025. */
  lemma HexExample()
    ensures ParseInt("0x7E9") == Some(2025)
  {
    var s := "0x7E9";
    TrimStartAtText(s);
    assert s[2..] == "7E9";
    assert DigitRun("7E9", 16) == 3;
    assert "7E9"[..3] == "7E9";
    assert "7E9"[..2] == "7E" && "7E"[..1] == "7" && "7"[..0] == [];
  }
}
