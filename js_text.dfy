// The small slice of JavaScript string and number semantics that the
// validators of the client view rely on: ASCII digit strings, parseInt,
// Number.prototype.toString, String.prototype.split and the relational
// comparison of two strings. Join is not used by the view; it is here only
// to state that Split loses nothing.

module JsText {

  datatype Option<T> = None | Some(value: T)

  predicate IsDigit(c: char) { '0' <= c <= '9' }

  predicate AllDigits(s: string) { forall i :: 0 <= i < |s| ==> IsDigit(s[i]) }

  function DigitValue(c: char): (d: nat)
    requires IsDigit(c)
    ensures d < 10
  {
    c as int - '0' as int
  }

  function DigitChar(d: nat): (c: char)
    requires d < 10
    ensures IsDigit(c) && DigitValue(c) == d
  {
    ('0' as int + d) as char
  }

  /** The decimal value of a string of ASCII digits (leading zeros allowed, "" is 0). */
  function DigitsValue(s: string): nat
    requires AllDigits(s)
  {
    if s == [] then 0 else DigitsValue(s[..|s| - 1]) * 10 + DigitValue(s[|s| - 1])
  }

  /** Number.prototype.toString for a non-negative integer. */
  function NatToString(n: nat): string
  {
    if n < 10 then [DigitChar(n)] else NatToString(n / 10) + [DigitChar(n % 10)]
  }

  /** Number.prototype.toString for an integer. */
  function IntToString(n: int): string
  {
    if n < 0 then "-" + NatToString(-n) else NatToString(n)
  }

  /** A canonical decimal numeral: digits only, and no leading zero unless it is "0". */
  predicate Canonical(s: string)
  {
    |s| > 0 && AllDigits(s) && (s[0] == '0' ==> |s| == 1)
  }

  /** The longest prefix of s made of ASCII digits. */
  function DigitPrefix(s: string): (p: string)
    ensures |p| <= |s| && p == s[..|p|] && AllDigits(p)
    ensures |p| < |s| ==> !IsDigit(s[|p|])
  {
    if s == [] || !IsDigit(s[0]) then [] else [s[0]] + DigitPrefix(s[1..])
  }

  /**
   * parseInt(s) with no radix: an optional sign, then the longest run of
   * digits; None stands for NaN.
   */
  function ParseInt(s: string): (r: Option<int>)
    ensures r.Some? <==> (|s| > 0 && IsDigit(s[0]))
                         || (|s| > 1 && (s[0] == '-' || s[0] == '+') && IsDigit(s[1]))
    ensures Canonical(s) ==> r == Some(DigitsValue(s))
  {
    var signed := |s| > 0 && (s[0] == '-' || s[0] == '+');
    var digits := DigitPrefix(if signed then s[1..] else s);
    var magnitude: int := DigitsValue(digits);
    assert Canonical(s) ==> digits == s by {
      if Canonical(s) {
        assert !signed && |digits| == |s|;
      }
    }
    if digits == [] then None
    else if signed && s[0] == '-' then Some(-magnitude)
    else Some(magnitude)
  }

  /** String.prototype.split with a one-character separator. */
  function Split(s: string, sep: char): (parts: seq<string>)
    ensures |parts| > 0
    ensures forall k :: 0 <= k < |parts| ==> sep !in parts[k]
  {
    if s == [] then [[]]
    else
      var rest := Split(s[1..], sep);
      if s[0] == sep then [[]] + rest else [[s[0]] + rest[0]] + rest[1..]
  }

  /** Array.prototype.join with a one-character separator; the inverse of Split. */
  function Join(parts: seq<string>, sep: char): string
    requires |parts| > 0
  {
    if |parts| == 1 then parts[0] else parts[0] + [sep] + Join(parts[1..], sep)
  }

  /**
   * The relational comparison a < b of two JavaScript strings: code unit by
   * code unit, a proper prefix being the smaller.
   */
  predicate LexLess(a: string, b: string)
  {
    if a == [] then b != []
    else if b == [] then false
    else if a[0] != b[0] then a[0] < b[0]
    else LexLess(a[1..], b[1..])
  }

  function Pow10(k: nat): (p: nat)
    ensures p >= 1
  {
    if k == 0 then 1 else 10 * Pow10(k - 1)
  }

  // ---------------------------------------------------------------------
  // Lemmas

  /** Splitting and joining again gives back the original string. */
  lemma {:induction false} JoinSplit(s: string, sep: char)
    ensures Join(Split(s, sep), sep) == s
  {
    if s != [] {
      var rest := Split(s[1..], sep);
      JoinSplit(s[1..], sep);
      if s[0] == sep {
        assert Split(s, sep) == [[]] + rest;
      } else {
        var parts := Split(s, sep);
        assert parts == [[s[0]] + rest[0]] + rest[1..];
        if |rest| == 1 {
          assert Join(parts, sep) == [s[0]] + rest[0];
        } else {
          assert parts[1..] == rest[1..];
          assert Join(rest, sep) == rest[0] + [sep] + Join(rest[1..], sep);
        }
      }
    }
  }

  lemma DigitsValueAppend(a: string, c: char)
    requires AllDigits(a) && IsDigit(c)
    ensures AllDigits(a + [c])
    ensures DigitsValue(a + [c]) == DigitsValue(a) * 10 + DigitValue(c)
  {
    assert (a + [c])[..|a + [c]| - 1] == a;
  }

  /** toString of a natural number is a canonical numeral whose value is that number. */
  lemma {:induction false} NatToStringCanonical(n: nat)
    ensures Canonical(NatToString(n))
    ensures AllDigits(NatToString(n)) && DigitsValue(NatToString(n)) == n
    ensures NatToString(n)[0] == '0' <==> n == 0
  {
    if n >= 10 {
      NatToStringCanonical(n / 10);
      var a := NatToString(n / 10);
      DigitsValueAppend(a, DigitChar(n % 10));
      assert NatToString(n) == a + [DigitChar(n % 10)];
      assert NatToString(n)[0] == a[0];
    }
  }

  lemma {:induction false} DigitsValuePositive(s: string)
    requires AllDigits(s) && |s| > 0 && s[0] != '0'
    ensures DigitsValue(s) > 0
  {
    if |s| > 1 {
      var a := s[..|s| - 1];
      DigitsValuePositive(a);
    }
  }

  /** A canonical numeral is the toString of its own value. */
  lemma {:induction false} CanonicalRoundTrip(s: string)
    requires Canonical(s)
    ensures NatToString(DigitsValue(s)) == s
  {
    if |s| > 1 {
      var a := s[..|s| - 1];
      var c := s[|s| - 1];
      assert a[0] == s[0];
      DigitsValuePositive(a);
      CanonicalRoundTrip(a);
      var v := DigitsValue(s);
      assert v == DigitsValue(a) * 10 + DigitValue(c);
      assert v / 10 == DigitsValue(a) && v % 10 == DigitValue(c);
      assert s == a + [c];
    }
  }

  /** A string of digits is worth less than 10 to the power of its length. */
  lemma {:induction false} DigitsValueBound(s: string)
    requires AllDigits(s)
    ensures DigitsValue(s) < Pow10(|s|)
  {
    if s != [] {
      var a := s[..|s| - 1];
      DigitsValueBound(a);
      assert Pow10(|s|) == 10 * Pow10(|a|);
    }
  }

  /** The value of a digit string read from its first digit. */
  lemma {:induction false} DigitsValueHead(s: string)
    requires AllDigits(s) && |s| > 0
    ensures DigitsValue(s) == DigitValue(s[0]) * Pow10(|s| - 1) + DigitsValue(s[1..])
  {
    if |s| > 1 {
      var a := s[..|s| - 1];
      DigitsValueHead(a);
      assert a[1..] == s[1..][..|s[1..]| - 1];
      assert a[0] == s[0];
      assert Pow10(|s| - 1) == Pow10(|a| - 1) * 10;
      assert DigitsValue(s[1..]) == DigitsValue(a[1..]) * 10 + DigitValue(s[|s| - 1]);
      ShiftDigit(DigitValue(s[0]), Pow10(|a| - 1), DigitsValue(a[1..]), DigitValue(s[|s| - 1]));
    }
  }

  /** Appending a digit on the right multiplies every place by ten. */
  lemma ShiftDigit(x: int, p: int, rest: int, last: int)
    ensures (x * p + rest) * 10 + last == x * (p * 10) + (rest * 10 + last)
  {
  }

  /** A smaller leading digit makes a smaller number, whatever follows it. */
  lemma LeadingDigitDecides(x: nat, y: nat, p: nat, u: nat, v: nat)
    requires x < y && u < p && v < p
    ensures x * p + u < y * p + v
  {
    assert (x + 1) * p <= y * p;
  }

  /**
   * On digit strings of the same length the string order of JavaScript is
   * the numeric order; it is only for lengths that differ that the two part.
   */
  lemma {:induction false} LexLessSameLength(a: string, b: string)
    requires AllDigits(a) && AllDigits(b) && |a| == |b|
    ensures LexLess(a, b) <==> DigitsValue(a) < DigitsValue(b)
  {
    if a != [] {
      var p := Pow10(|a| - 1);
      DigitsValueHead(a);
      DigitsValueHead(b);
      DigitsValueBound(a[1..]);
      DigitsValueBound(b[1..]);
      var x, y := DigitValue(a[0]), DigitValue(b[0]);
      if a[0] == b[0] {
        LexLessSameLength(a[1..], b[1..]);
      } else if a[0] < b[0] {
        LeadingDigitDecides(x, y, p, DigitsValue(a[1..]), DigitsValue(b[1..]));
      } else {
        LeadingDigitDecides(y, x, p, DigitsValue(b[1..]), DigitsValue(a[1..]));
      }
    }
  }
}
