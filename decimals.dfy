/**
 * `Number.prototype.toFixed(2)` on exactly represented numbers and `parseFloat` on the
 * strings it produces: the text the dashboard shows for hours and money, and the number
 * it reads back from that text.
 */
module Decimals {
  import opened JsValues
  import opened Text

  /** The digits of a count of hundredths: whole part, a point, exactly two decimals. */
  function HundredthsText(n: nat): string {
    NatStr(n / 100) + "." + PadStart2(NatStr(n % 100))
  }

  /** `x.toFixed(2)`: a negative number keeps its sign even when it rounds to zero. */
  function Fixed2(x: real): (s: string)
    ensures x >= 0.0 ==> s == HundredthsText(Hundredths(x))
    ensures x < 0.0 ==> s == "-" + HundredthsText(-Hundredths(x))
  {
    if x < 0.0 then "-" + HundredthsText(-Hundredths(x)) else HundredthsText(Hundredths(x))
  }

  /**
   * The digits of a string of the form digits, point, two digits, read as a count of
   * hundredths; `None` for any other form.
   */
  function ParseHundredths(s: string): (r: Option<nat>)
    ensures r.Some? ==> |s| >= 4 && s[|s| - 3] == '.'
  {
    if |s| < 4 then None
    else
      var k := |s| - 3;
      if s[k] == '.' && AllDigits(s[..k]) && AllDigits(s[k + 1..]) then
        Some(DigitsValue(s[..k]) * 100 + DigitsValue(s[k + 1..]))
      else
        None
  }

  /**
   * `parseFloat` on a string of the form digits, point, two digits; `None` for any
   * other form (the only strings read back here are such renderings).
   */
  function ParseFixed2(s: string): (r: Option<real>)
    ensures r.Some? ==> r.value >= 0.0
    ensures r.Some? <==> ParseHundredths(s).Some?
  {
    match ParseHundredths(s)
    case Some(h) => Some(h as real / 100.0)
    case None => None
  }

  /** A string of the parsed form reads back as its two digit runs. */
  lemma ParseHundredthsForm(s: string)
    requires |s| >= 4 && s[|s| - 3] == '.' && AllDigits(s[..|s| - 3]) && AllDigits(s[|s| - 2..])
    ensures ParseHundredths(s) == Some(DigitsValue(s[..|s| - 3]) * 100 + DigitsValue(s[|s| - 2..]))
  {
  }

  /** A whole part, a point and two decimals read back as their count of hundredths. */
  lemma ParseHundredthsParts(w: string, f: string)
    requires |w| >= 1 && AllDigits(w) && |f| == 2 && AllDigits(f)
    ensures ParseHundredths(w + "." + f) == Some(DigitsValue(w) * 100 + DigitsValue(f))
  {
    var s := w + "." + f;
    var k := |s| - 3;
    assert k == |w| && s[k] == '.';
    assert s[..k] == w && s[k + 1..] == f;
    ParseHundredthsForm(s);
  }

  /** The two digit runs of the rendering of a count of hundredths, and their values. */
  lemma HundredthsTextDigits(n: nat)
    ensures var w, f := NatStr(n / 100), PadStart2(NatStr(n % 100));
      |w| >= 1 && AllDigits(w) && |f| == 2 && AllDigits(f) && DigitsValue(w) * 100 + DigitsValue(f) == n
  {
    var f := PadStart2(NatStr(n % 100));
    assert |f| == 2 && AllDigits(f) && DigitsValue(f) == n % 100 by {
      NatStrDigits(n % 100, 2);
      DigitsValuePadStart2(NatStr(n % 100));
      DigitsValueOfNatStr(n % 100);
    }
    DigitsValueOfNatStr(n / 100);
  }

  /** The rendering of a count of hundredths reads back as that count. */
  lemma ParseHundredthsText(n: nat)
    ensures ParseHundredths(HundredthsText(n)) == Some(n)
  {
    HundredthsTextDigits(n);
    ParseHundredthsParts(NatStr(n / 100), PadStart2(NatStr(n % 100)));
  }

  /**
   * Reading back the two-decimal rendering of a non-negative number gives that number
   * rounded to hundredths: `parseFloat(x.toFixed(2))` is `Round2(x)`.
   */
  lemma ParseFixed2OfFixed2(x: real)
    requires x >= 0.0
    ensures ParseFixed2(Fixed2(x)) == Some(Round2(x))
  {
    var n: nat := Hundredths(x);
    assert Fixed2(x) == HundredthsText(n);
    ParseHundredthsText(n);
  }
}
