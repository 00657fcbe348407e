/**
 * The string operations the dashboard relies on, with JavaScript's semantics:
 * `split`/`join` on one separator character, `includes`, ASCII case mapping,
 * decimal rendering and `padStart(2, '0')`, `replace` of the first match, and
 * the default code-unit ordering used by `Array.prototype.sort`.
 */
module Text {

  // ---------------------------------------------------------------------------
  // Case mapping (ASCII letters only)
  // ---------------------------------------------------------------------------

  function LowerChar(c: char): char {
    if 'A' <= c <= 'Z' then (c as int + 32) as char else c
  }

  function UpperChar(c: char): char {
    if 'a' <= c <= 'z' then (c as int - 32) as char else c
  }

  /** `s.toLowerCase()` restricted to ASCII letters. */
  function Lower(s: string): (r: string)
    ensures |r| == |s|
    ensures forall i :: 0 <= i < |s| ==> r[i] == LowerChar(s[i])
  {
    if |s| == 0 then "" else [LowerChar(s[0])] + Lower(s[1..])
  }

  /** `s.toUpperCase()` restricted to ASCII letters. */
  function Upper(s: string): (r: string)
    ensures |r| == |s|
    ensures forall i :: 0 <= i < |s| ==> r[i] == UpperChar(s[i])
  {
    if |s| == 0 then "" else [UpperChar(s[0])] + Upper(s[1..])
  }

  /** A string without upper-case letters is its own lower-case form. */
  lemma LowerIdentity(s: string)
    requires forall i :: 0 <= i < |s| ==> !('A' <= s[i] <= 'Z')
    ensures Lower(s) == s
  {
  }

  /** Lower-casing twice is lower-casing once. */
  lemma LowerIdempotent(s: string)
    ensures Lower(Lower(s)) == Lower(s)
  {
    assert forall i :: 0 <= i < |s| ==> LowerChar(LowerChar(s[i])) == LowerChar(s[i]);
  }

  // ---------------------------------------------------------------------------
  // Substring search: `s.includes(sub)`
  // ---------------------------------------------------------------------------

  predicate IsPrefix(p: string, s: string) {
    |p| <= |s| && s[..|p|] == p
  }

  /** `s.includes(sub)`: `sub` occurs in `s` at some offset. */
  predicate Contains(s: string, sub: string)
    decreases |s|
  {
    IsPrefix(sub, s) || (|s| > 0 && Contains(s[1..], sub))
  }

  /** `sub` occurs in `s` starting at offset `k`. */
  predicate OccursAt(s: string, sub: string, k: int) {
    0 <= k && k + |sub| <= |s| && s[k..k + |sub|] == sub
  }

  /** The offset-based reading of `Contains`. */
  lemma {:induction false} ContainsAt(s: string, sub: string)
    ensures Contains(s, sub) <==> exists k :: OccursAt(s, sub, k)
    decreases |s|
  {
    if |s| > 0 {
      ContainsAt(s[1..], sub);
      if Contains(s[1..], sub) {
        var k :| OccursAt(s[1..], sub, k);
        assert s[k + 1..k + 1 + |sub|] == s[1..][k..k + |sub|];
        assert OccursAt(s, sub, k + 1);
      }
      if exists k :: OccursAt(s, sub, k) {
        var k :| OccursAt(s, sub, k);
        if k > 0 {
          assert s[1..][k - 1..k - 1 + |sub|] == s[k..k + |sub|];
          assert OccursAt(s[1..], sub, k - 1);
        } else {
          assert IsPrefix(sub, s);
        }
      }
      if IsPrefix(sub, s) {
        assert OccursAt(s, sub, 0);
      }
    } else {
      if Contains(s, sub) {
        assert OccursAt(s, sub, 0);
      }
      if exists k :: OccursAt(s, sub, k) {
        var k :| OccursAt(s, sub, k);
        assert k == 0 && |sub| == 0;
        assert s[..0] == sub;
      }
    }
  }

  /** Every string includes the empty string. */
  lemma ContainsEmpty(s: string)
    ensures Contains(s, "")
  {
    assert IsPrefix("", s);
  }

  // ---------------------------------------------------------------------------
  // `split` and `join` on a single separator character
  // ---------------------------------------------------------------------------

  /** `s.split(c)`: never empty, and no part contains the separator. */
  function Split(s: string, c: char): (parts: seq<string>)
    ensures |parts| >= 1
    ensures forall i :: 0 <= i < |parts| ==> c !in parts[i]
    decreases |s|
  {
    if |s| == 0 then [""]
    else
      var rest := Split(s[1..], c);
      if s[0] == c then [""] + rest
      else [[s[0]] + rest[0]] + rest[1..]
  }

  /** `parts.join(c)`. */
  function Join(parts: seq<string>, c: char): string
    decreases |parts|
  {
    if |parts| == 0 then ""
    else if |parts| == 1 then parts[0]
    else parts[0] + [c] + Join(parts[1..], c)
  }

  /** Three parts joined by the separator. */
  lemma JoinThree(a: string, b: string, d: string, c: char)
    ensures Join([a, b, d], c) == a + [c] + b + [c] + d
  {
    assert [a, b, d][1..] == [b, d];
    assert [b, d][1..] == [d];
    assert Join([b, d], c) == b + [c] + d;
    assert Join([a, b, d], c) == a + [c] + (b + [c] + d);
  }

  /** Joining the parts of a split gives back the original string. */
  lemma {:induction false} JoinSplit(s: string, c: char)
    ensures Join(Split(s, c), c) == s
    decreases |s|
  {
    if |s| > 0 {
      var rest := Split(s[1..], c);
      JoinSplit(s[1..], c);
      if s[0] == c {
        assert Split(s, c) == [""] + rest;
        assert ([""] + rest)[1..] == rest;
        assert s == [c] + s[1..];
      } else {
        var parts := [[s[0]] + rest[0]] + rest[1..];
        assert Split(s, c) == parts;
        if |rest| == 1 {
          assert Join(parts, c) == [s[0]] + rest[0];
        } else {
          assert parts[1..] == rest[1..];
          assert Join(rest, c) == rest[0] + [c] + Join(rest[1..], c);
        }
        assert s == [s[0]] + s[1..];
      }
    }
  }

  /** A string free of the separator splits into itself alone. */
  lemma {:induction false} SplitNoSeparator(p: string, c: char)
    requires c !in p
    ensures Split(p, c) == [p]
    decreases |p|
  {
    if |p| > 0 {
      assert c !in p[1..];
      SplitNoSeparator(p[1..], c);
      assert [p[0]] + p[1..] == p;
    }
  }

  /** Splitting `p + c + t` yields `p` followed by the parts of `t`. */
  lemma {:induction false} SplitConcat(p: string, t: string, c: char)
    requires c !in p
    ensures Split(p + [c] + t, c) == [p] + Split(t, c)
    decreases |p|
  {
    var s := p + [c] + t;
    if |p| == 0 {
      assert s[1..] == t;
    } else {
      assert s[1..] == p[1..] + [c] + t;
      assert c !in p[1..];
      SplitConcat(p[1..], t, c);
      assert [p[0]] + p[1..] == p;
    }
  }

  /** Splitting a join of separator-free parts gives back the parts. */
  lemma {:induction false} SplitJoin(parts: seq<string>, c: char)
    requires |parts| >= 1
    requires forall i :: 0 <= i < |parts| ==> c !in parts[i]
    ensures Split(Join(parts, c), c) == parts
    decreases |parts|
  {
    if |parts| == 1 {
      SplitNoSeparator(parts[0], c);
    } else {
      SplitJoin(parts[1..], c);
      SplitConcat(parts[0], Join(parts[1..], c), c);
      assert [parts[0]] + parts[1..] == parts;
    }
  }

  // ---------------------------------------------------------------------------
  // Sequence reversal (`Array.prototype.reverse`)
  // ---------------------------------------------------------------------------

  function Reverse<T>(xs: seq<T>): (r: seq<T>)
    ensures |r| == |xs|
    ensures forall i :: 0 <= i < |xs| ==> r[i] == xs[|xs| - 1 - i]
  {
    if |xs| == 0 then [] else Reverse(xs[1..]) + [xs[0]]
  }

  /** Reversing twice is the identity. */
  lemma ReverseReverse<T>(xs: seq<T>)
    ensures Reverse(Reverse(xs)) == xs
  {
  }

  // ---------------------------------------------------------------------------
  // Decimal numbers: `n.toString()`, `padStart(2, '0')`, `parseInt`
  // ---------------------------------------------------------------------------

  predicate IsDigit(c: char) {
    '0' <= c <= '9'
  }

  predicate AllDigits(s: string) {
    forall i :: 0 <= i < |s| ==> IsDigit(s[i])
  }

  function DigitChar(d: nat): (c: char)
    requires d < 10
    ensures IsDigit(c)
  {
    ('0' as int + d) as char
  }

  function DigitValue(c: char): nat
    requires IsDigit(c)
  {
    c as int - '0' as int
  }

  /** `n.toString()` for a non-negative integer: shortest decimal form. */
  function NatToString(n: nat): (s: string)
    ensures 1 <= |s|
    ensures AllDigits(s)
    ensures n < 10 <==> |s| == 1
    ensures |s| > 1 ==> s[0] != '0'
    decreases n
  {
    if n < 10 then [DigitChar(n)] else NatToString(n / 10) + [DigitChar(n % 10)]
  }

  /** `parseInt(s)` for a string of decimal digits (leading zeros allowed). */
  function ParseDigits(s: string): nat
    requires AllDigits(s)
    decreases |s|
  {
    if |s| == 0 then 0 else ParseDigits(s[..|s| - 1]) * 10 + DigitValue(s[|s| - 1])
  }

  /** `parseInt` reads back what `toString` wrote. */
  lemma {:induction false} ParseNatToString(n: nat)
    ensures ParseDigits(NatToString(n)) == n
    decreases n
  {
    if n >= 10 {
      ParseNatToString(n / 10);
      var s := NatToString(n);
      assert s[..|s| - 1] == NatToString(n / 10);
    }
  }

  /** A leading zero does not change the parsed value. */
  lemma {:induction false} ParseLeadingZero(s: string)
    requires AllDigits(s)
    ensures AllDigits("0" + s) && ParseDigits("0" + s) == ParseDigits(s)
    decreases |s|
  {
    if |s| > 0 {
      ParseLeadingZero(s[..|s| - 1]);
      assert ("0" + s)[..|s|] == "0" + s[..|s| - 1];
    }
  }

  /** `s.padStart(2, '0')`. */
  function PadStart2(s: string): (r: string)
    ensures |s| >= 2 ==> r == s
    ensures |s| < 2 ==> |r| == 2 && r[2 - |s|..] == s && forall i :: 0 <= i < 2 - |s| ==> r[i] == '0'
  {
    if |s| == 0 then "00" else if |s| == 1 then "0" + s else s
  }

  /** `n.toString().padStart(2, '0')`: the two-digit form used for months and days. */
  function TwoDigits(n: nat): (s: string)
    ensures AllDigits(s)
    ensures n < 100 ==> |s| == 2
    ensures ParseDigits(s) == n
  {
    ParseNatToString(n);
    if n < 10 then ParseLeadingZero(NatToString(n)); PadStart2(NatToString(n))
    else PadStart2(NatToString(n))
  }

  /** Below 100, the two-digit form is the tens digit followed by the units digit. */
  lemma TwoDigitsChars(n: nat)
    requires n < 100
    ensures TwoDigits(n) == [DigitChar(n / 10), DigitChar(n % 10)]
  {
    if n >= 10 {
      assert NatToString(n / 10) == [DigitChar(n / 10)];
    }
  }

  /** A two-character digit string is the two-digit form of the number it parses to. */
  lemma TwoDigitKey(key: string)
    requires |key| == 2 && AllDigits(key)
    ensures ParseDigits(key) < 100 && TwoDigits(ParseDigits(key)) == key
  {
    var v := ParseDigits(key);
    assert key[..1][..0] == [];
    assert ParseDigits(key[..1]) == DigitValue(key[0]);
    assert v == DigitValue(key[0]) * 10 + DigitValue(key[1]);
    TwoDigitsChars(v);
    assert DigitChar(v / 10) == key[0];
    assert DigitChar(v % 10) == key[1];
  }

  /** Digit characters are ordered as their values. */
  lemma DigitCharOrder(a: nat, b: nat)
    requires a < 10 && b < 10
    ensures DigitChar(a) < DigitChar(b) <==> a < b
    ensures DigitChar(a) == DigitChar(b) <==> a == b
  {
  }

  /** Distinct numbers below 100 have distinct two-digit forms. */
  lemma TwoDigitsInjective(a: nat, b: nat)
    requires TwoDigits(a) == TwoDigits(b)
    ensures a == b
  {
  }

  // ---------------------------------------------------------------------------
  // `s.replace(a, b)` with a one-character pattern: only the first match
  // ---------------------------------------------------------------------------

  function ReplaceFirst(s: string, a: char, b: char): (r: string)
    ensures |r| == |s|
    decreases |s|
  {
    if |s| == 0 then ""
    else if s[0] == a then [b] + s[1..]
    else [s[0]] + ReplaceFirst(s[1..], a, b)
  }

  function CountChar(s: string, a: char): nat
    decreases |s|
  {
    if |s| == 0 then 0 else (if s[0] == a then 1 else 0) + CountChar(s[1..], a)
  }

  /**
   * Replacing the first `a` by a different `b` removes exactly one `a` when
   * there is one, touches nothing before it, and leaves the string unchanged
   * when there is none.
   */
  lemma {:induction false} ReplaceFirstEffect(s: string, a: char, b: char)
    requires a != b
    ensures a !in s ==> ReplaceFirst(s, a, b) == s
    ensures a in s ==> CountChar(ReplaceFirst(s, a, b), a) == CountChar(s, a) - 1
    ensures a in s ==> CountChar(ReplaceFirst(s, a, b), b) == CountChar(s, b) + 1
    decreases |s|
  {
    if |s| > 0 {
      ReplaceFirstEffect(s[1..], a, b);
      if s[0] == a {
        var r := [b] + s[1..];
        assert r[1..] == s[1..];
      } else {
        assert a in s ==> a in s[1..];
        var r := [s[0]] + ReplaceFirst(s[1..], a, b);
        assert r[1..] == ReplaceFirst(s[1..], a, b);
        if a !in s {
          assert s == [s[0]] + s[1..];
        }
      }
    }
  }

  /** Replacing the first `a` in `p + [a] + q`, where `p` has none, touches only that one. */
  lemma {:induction false} ReplaceFirstAt(p: string, q: string, a: char, b: char)
    requires a !in p
    ensures ReplaceFirst(p + [a] + q, a, b) == p + [b] + q
    decreases |p|
  {
    if |p| == 0 {
      assert p + [a] + q == [a] + q;
    } else {
      assert (p + [a] + q)[1..] == p[1..] + [a] + q;
      ReplaceFirstAt(p[1..], q, a, b);
      assert p + [b] + q == [p[0]] + (p[1..] + [b] + q);
    }
  }

  // ---------------------------------------------------------------------------
  // Default sort order of strings (code-unit lexicographic)
  // ---------------------------------------------------------------------------

  /** `a <= b` under JavaScript's default string comparison. */
  predicate StrLe(a: string, b: string)
    decreases |a|
  {
    |a| == 0 || (|b| > 0 && (a[0] < b[0] || (a[0] == b[0] && StrLe(a[1..], b[1..]))))
  }

  /** Any two strings are comparable. */
  lemma {:induction false} StrLeTotal(a: string, b: string)
    ensures StrLe(a, b) || StrLe(b, a)
    decreases |a|
  {
    if |a| > 0 && |b| > 0 && a[0] == b[0] {
      StrLeTotal(a[1..], b[1..]);
    }
  }

  /** The order is transitive. */
  lemma {:induction false} StrLeTrans(a: string, b: string, c: string)
    requires StrLe(a, b) && StrLe(b, c)
    ensures StrLe(a, c)
    decreases |a|
  {
    if |a| > 0 && a[0] == b[0] && b[0] == c[0] {
      StrLeTrans(a[1..], b[1..], c[1..]);
    }
  }

  /** A shared prefix does not affect the comparison. */
  lemma {:induction false} StrLeCommonPrefix(p: string, s: string, t: string)
    ensures StrLe(p + s, p + t) <==> StrLe(s, t)
    decreases |p|
  {
    if |p| == 0 {
      assert p + s == s && p + t == t;
    } else {
      assert (p + s)[1..] == p[1..] + s;
      assert (p + t)[1..] == p[1..] + t;
      StrLeCommonPrefix(p[1..], s, t);
    }
  }

  /** Two different prefixes of the same length decide the comparison on their own. */
  lemma {:induction false} StrLeFirstDifference(p: string, q: string, s: string, t: string)
    requires |p| == |q| && p != q
    ensures StrLe(p + s, q + t) <==> StrLe(p, q)
    decreases |p|
  {
    assert (p + s)[0] == p[0] && (q + t)[0] == q[0];
    if p[0] == q[0] {
      assert p == [p[0]] + p[1..] && q == [q[0]] + q[1..];
      assert (p + s)[1..] == p[1..] + s;
      assert (q + t)[1..] == q[1..] + t;
      StrLeFirstDifference(p[1..], q[1..], s, t);
    }
  }

  /** Only equal strings are ordered both ways. */
  lemma {:induction false} StrLeAntisym(a: string, b: string)
    requires StrLe(a, b) && StrLe(b, a)
    ensures a == b
    decreases |a|
  {
    if |a| > 0 {
      StrLeAntisym(a[1..], b[1..]);
      assert a == [a[0]] + a[1..];
      assert b == [b[0]] + b[1..];
    }
  }
}
