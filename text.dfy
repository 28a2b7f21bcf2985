/**
 * Decimal rendering and reading of integers as JavaScript does it
 * (`Number.prototype.toString`, `parseInt` on a digit run, `padStart(2, '0')`),
 * and the whitespace class `\s` of JavaScript regular expressions.
 */
module Text {

  predicate IsDigit(c: char) {
    '0' <= c <= '9'
  }

  predicate AllDigits(s: string) {
    forall i :: 0 <= i < |s| ==> IsDigit(s[i])
  }

  function DigitChar(d: nat): (c: char)
    requires d < 10
    ensures IsDigit(c)
    ensures c as int - '0' as int == d
  {
    ['0', '1', '2', '3', '4', '5', '6', '7', '8', '9'][d]
  }

  /** The decimal rendering of a non-negative integer, without leading zeros. */
  function NatStr(n: nat): (s: string)
    ensures |s| >= 1 && AllDigits(s)
  {
    if n < 10 then [DigitChar(n)] else NatStr(n / 10) + [DigitChar(n % 10)]
  }

  /** One digit exactly for the numbers below ten, and no leading zero otherwise. */
  lemma {:induction false} NatStrShape(n: nat)
    ensures n < 10 <==> |NatStr(n)| == 1
    ensures |NatStr(n)| > 1 ==> NatStr(n)[0] != '0'
  {
    if n >= 10 {
      NatStrShape(n / 10);
    }
  }

  /** The rendering of any integer: a minus sign before the magnitude of a negative one. */
  function IntStr(i: int): (s: string)
    ensures i >= 0 ==> s == NatStr(i)
    ensures i < 0 ==> s == "-" + NatStr(-i)
  {
    if i < 0 then "-" + NatStr(-i) else NatStr(i)
  }

  /** The value of a run of decimal digits, as `parseInt` reads it. */
  function DigitsValue(s: string): nat
    requires AllDigits(s)
  {
    if s == [] then 0 else DigitsValue(s[..|s| - 1]) * 10 + (s[|s| - 1] as int - '0' as int)
  }

  /** Reading back the rendering of `n` gives `n`. */
  lemma {:induction false} DigitsValueOfNatStr(n: nat)
    ensures DigitsValue(NatStr(n)) == n
  {
    if n >= 10 {
      var s := NatStr(n);
      assert s[..|s| - 1] == NatStr(n / 10);
      DigitsValueOfNatStr(n / 10);
    }
  }

  /** Distinct numbers have distinct renderings. */
  lemma NatStrInjective(m: nat, n: nat)
    requires NatStr(m) == NatStr(n)
    ensures m == n
  {
    DigitsValueOfNatStr(m);
    DigitsValueOfNatStr(n);
  }

  /** A leading zero does not change the value of a digit run. */
  lemma {:induction false} DigitsValueLeadingZero(s: string)
    requires AllDigits(s)
    ensures AllDigits("0" + s) && DigitsValue("0" + s) == DigitsValue(s)
  {
    var t := "0" + s;
    assert AllDigits(t);
    if s != [] {
      assert t[..|t| - 1] == "0" + s[..|s| - 1];
      DigitsValueLeadingZero(s[..|s| - 1]);
    }
  }

  function Pow10(k: nat): nat {
    if k == 0 then 1 else 10 * Pow10(k - 1)
  }

  /** A number below 10^k has at most k digits. */
  lemma {:induction false} NatStrDigits(n: nat, k: nat)
    requires 1 <= k && n < Pow10(k)
    ensures |NatStr(n)| <= k
  {
    if n >= 10 {
      assert k >= 2;
      NatStrDigits(n / 10, k - 1);
    }
  }

  /** `s.padStart(2, '0')`. */
  function PadStart2(s: string): (r: string)
    ensures |r| == if |s| >= 2 then |s| else 2
  {
    if |s| >= 2 then s else if |s| == 1 then "0" + s else "00"
  }

  /** Padding adds only zeros: the padded string ends with `s` and starts with `'0'`s. */
  lemma PadStart2Shape(s: string)
    ensures var r := PadStart2(s);
      r[|r| - |s|..] == s && forall i :: 0 <= i < |r| - |s| ==> r[i] == '0'
  {
  }

  /** Every character of the padded string is a `'0'` or a character of `s`. */
  lemma PadStart2Chars(s: string)
    ensures forall c :: c in PadStart2(s) ==> c == '0' || c in s
  {
    var r := PadStart2(s);
    PadStart2Shape(s);
    forall c | c in r ensures c == '0' || c in s {
      var i :| 0 <= i < |r| && r[i] == c;
      if i >= |r| - |s| {
        assert r[|r| - |s|..][i - (|r| - |s|)] == c;
      }
    }
  }

  /** Padding a digit run keeps its value. */
  lemma DigitsValuePadStart2(s: string)
    requires AllDigits(s)
    ensures AllDigits(PadStart2(s)) && DigitsValue(PadStart2(s)) == DigitsValue(s)
  {
    if |s| == 1 {
      DigitsValueLeadingZero(s);
    } else if |s| == 0 {
      DigitsValueLeadingZero("0");
    }
  }

  /** The characters matched by `\s` in a JavaScript regular expression. */
  predicate IsJsWhitespace(c: char) {
    c == ' ' || c == '\t' || c == '\n' || c == '\r' || c == '\U{000B}' || c == '\U{000C}'
    || c == '\U{00A0}' || c == '\U{1680}' || '\U{2000}' <= c <= '\U{200A}'
    || c == '\U{2028}' || c == '\U{2029}' || c == '\U{202F}' || c == '\U{205F}'
    || c == '\U{3000}' || c == '\U{FEFF}'
  }

  /** `s.replace(/\s+/g, '')`: the string with every whitespace character removed. */
  function StripWhitespace(s: string): (r: string)
    ensures forall i :: 0 <= i < |r| ==> !IsJsWhitespace(r[i])
    ensures |r| <= |s|
    ensures (forall i :: 0 <= i < |s| ==> !IsJsWhitespace(s[i])) ==> r == s
    ensures multiset(r) <= multiset(s)
  {
    if s == [] then []
    else
      assert s == [s[0]] + s[1..];
      if IsJsWhitespace(s[0]) then StripWhitespace(s[1..]) else [s[0]] + StripWhitespace(s[1..])
  }

  /**
   * Stripping works piece by piece: the kept characters of a concatenation are those of
   * each part, in order.
   */
  lemma {:induction false} StripWhitespaceAppend(a: string, b: string)
    ensures StripWhitespace(a + b) == StripWhitespace(a) + StripWhitespace(b)
  {
    if a != [] {
      var s := a + b;
      assert s[1..] == a[1..] + b && s[0] == a[0];
      StripWhitespaceAppend(a[1..], b);
      var rest := StripWhitespace(a[1..]);
      if IsJsWhitespace(a[0]) {
        assert StripWhitespace(a) == rest;
        assert StripWhitespace(s) == StripWhitespace(s[1..]);
      } else {
        assert StripWhitespace(a) == [a[0]] + rest;
        assert StripWhitespace(s) == [a[0]] + StripWhitespace(s[1..]);
      }
    } else {
      assert a + b == b;
    }
  }

  /** Every character that is not whitespace survives, as often as it occurs in `s`. */
  lemma {:induction false} StripWhitespaceKeeps(s: string)
    ensures forall c :: !IsJsWhitespace(c) ==> multiset(StripWhitespace(s))[c] == multiset(s)[c]
  {
    if s != [] {
      StripWhitespaceKeeps(s[1..]);
      assert s == [s[0]] + s[1..];
      assert multiset(s) == multiset{s[0]} + multiset(s[1..]);
    }
  }

  /** No character of `s` is JavaScript whitespace. */
  predicate NoWhitespace(s: string) {
    forall i :: 0 <= i < |s| ==> !IsJsWhitespace(s[i])
  }

  lemma NoWhitespaceAppend(a: string, b: string)
    requires NoWhitespace(a) && NoWhitespace(b)
    ensures NoWhitespace(a + b)
  {
    forall i | 0 <= i < |a + b| ensures !IsJsWhitespace((a + b)[i]) {
      if i >= |a| {
        assert (a + b)[i] == b[i - |a|];
      }
    }
  }

  /** The position of the first occurrence of `c` in `s`, or -1 (`s.indexOf(c)`). */
  function IndexOfChar(s: string, c: char): (i: int)
    ensures -1 <= i < |s|
    ensures i >= 0 ==> s[i] == c
    ensures forall j :: 0 <= j < |s| && (i < 0 || j < i) ==> s[j] != c
  {
    if s == [] then -1
    else if s[0] == c then 0
    else
      var k := IndexOfChar(s[1..], c);
      if k < 0 then -1 else k + 1
  }

  /** The first `c` after a run of digits is the one right after the run. */
  lemma IndexOfCharAfterDigits(a: string, c: char, t: string)
    requires AllDigits(a) && !IsDigit(c)
    ensures IndexOfChar(a + [c] + t, c) == |a|
  {
    IndexOfCharAfter(a, c, t);
  }

  /** The first `c` after a run without `c` is the one right after the run. */
  lemma IndexOfCharAfter(a: string, c: char, t: string)
    requires c !in a
    ensures IndexOfChar(a + [c] + t, c) == |a|
  {
    var s := a + [c] + t;
    assert s[|a|] == c;
    assert forall j :: 0 <= j < |a| ==> s[j] == a[j];
  }

  /** Cutting `a + [c] + t` at its first `c` gives back `a` and `t`. */
  lemma CutAt(a: string, c: char, t: string)
    requires c !in a
    ensures var s := a + [c] + t;
      IndexOfChar(s, c) == |a| && s[..|a|] == a && s[|a| + 1..] == t
  {
    IndexOfCharAfter(a, c, t);
    var s := a + [c] + t;
    assert s[..|a|] == a;
    assert s[|a| + 1..] == t;
  }
}
