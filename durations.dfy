/**
 * Duration handling of the time-tracking service (src/services/timeTrackingService.js):
 * `parseDuration`, which reads the `PT#H#M#S` subset of ISO 8601 durations with the
 * unanchored regular expression /PT(?:(\d+)H)?(?:(\d+)M)?(?:(\d+)S)?/, and
 * `formatDuration`, which renders milliseconds as "{h}h {m}m".
 */
module Durations {
  import opened JsValues
  import opened Text

  const MsPerHour: int := 3600000
  const MsPerMinute: int := 60000

  /** The position of the first "PT" in `s`, where the unanchored regular expression matches. */
  function FirstPT(s: string): (i: int)
    ensures -1 <= i && i + 1 < |s| + (if i < 0 then 2 else 0)
    ensures i >= 0 ==> s[i] == 'P' && s[i + 1] == 'T'
    ensures forall j :: 0 <= j < |s| - 1 && (i < 0 || j < i) ==> !(s[j] == 'P' && s[j + 1] == 'T')
  {
    if |s| < 2 then -1
    else if s[0] == 'P' && s[1] == 'T' then 0
    else
      var k := FirstPT(s[1..]);
      if k < 0 then -1 else k + 1
  }

  /** The length of the longest run of digits at the front of `s` (what `\d+` grabs). */
  function LeadingDigits(s: string): (n: nat)
    ensures n <= |s|
    ensures AllDigits(s[..n])
    ensures n < |s| ==> !IsDigit(s[n])
  {
    if s == [] || !IsDigit(s[0]) then 0 else 1 + LeadingDigits(s[1..])
  }

  /**
   * The optional group `(?:(\d+)L)?` tried at the front of `s`: when a digit run is
   * followed by `letter` the group matches, giving the run's value and the text after
   * the letter; otherwise the group is skipped and contributes 0.
   */
  function Component(s: string, letter: char): (r: (nat, string))
    requires !IsDigit(letter)
    ensures |r.1| <= |s|
    ensures r.1 == s ==> r.0 == 0
  {
    var n := LeadingDigits(s);
    if 0 < n < |s| && s[n] == letter then (DigitsValue(s[..n]), s[n + 1..]) else (0, s)
  }

  /** The hour, minute and second groups read from the text right after "PT". */
  function Groups(rest: string): (hms: (nat, nat, nat))
  {
    var (h, r1) := Component(rest, 'H');
    var (m, r2) := Component(r1, 'M');
    var (sec, _) := Component(r2, 'S');
    (h, m, sec)
  }

  /** `parseDuration(duration)` in milliseconds; the empty string stands for any falsy value. */
  function ParseDuration(duration: string): (ms: nat)
    ensures FirstPT(duration) < 0 ==> ms == 0
    ensures ms % 1000 == 0
  {
    if duration == "" then 0
    else
      var i := FirstPT(duration);
      if i < 0 then 0
      else
        var (h, m, sec) := Groups(duration[i + 2..]);
        var seconds := h * 3600 + m * 60 + sec;
        WholeSeconds(seconds);
        seconds * 1000
  }

  lemma WholeSeconds(seconds: nat)
    ensures (seconds * 1000) % 1000 == 0
  {
  }

  /** Only the text after the first "PT" matters. */
  lemma ParseAfterFirstPT(duration: string)
    requires FirstPT(duration) >= 0
    ensures ParseDuration(duration) == ParseDuration("PT" + duration[FirstPT(duration) + 2..])
  {
    var i := FirstPT(duration);
    var rest := duration[i + 2..];
    ParseLeadingPT(rest);
    var g := Groups(rest);
    assert ParseDuration(duration) == (g.0 * 3600 + g.1 * 60 + g.2) * 1000;
  }

  /** The optional text "{n}L" of an ISO 8601 duration component. */
  function ComponentText(n: Option<nat>, letter: char): string {
    if n.Some? then NatStr(n.value) + [letter] else ""
  }

  /** "PT" followed by whichever of the hour, minute and second components are present. */
  function IsoDuration(h: Option<nat>, m: Option<nat>, s: Option<nat>): string {
    "PT" + ComponentText(h, 'H') + ComponentText(m, 'M') + ComponentText(s, 'S')
  }

  function ValueOr0(n: Option<nat>): nat {
    if n.Some? then n.value else 0
  }

  /** The group for `letter` does not match at the front of `t`. */
  predicate Skips(t: string, letter: char) {
    var n := LeadingDigits(t);
    !(0 < n < |t| && t[n] == letter)
  }

  lemma {:induction false} LeadingDigitsOf(d: string, t: string)
    requires AllDigits(d)
    requires t == [] || !IsDigit(t[0])
    ensures LeadingDigits(d + t) == |d|
  {
    if d != [] {
      assert (d + t)[1..] == d[1..] + t;
      LeadingDigitsOf(d[1..], t);
    }
  }

  /** A present component is read back; an absent one is skipped and leaves the text alone. */
  lemma ComponentReads(n: Option<nat>, letter: char, t: string)
    requires !IsDigit(letter)
    requires n.None? ==> Skips(t, letter)
    ensures Component(ComponentText(n, letter) + t, letter) == (ValueOr0(n), t)
  {
    if n.Some? {
      ComponentOfDigits(NatStr(n.value), letter, t);
      DigitsValueOfNatStr(n.value);
    } else {
      assert ComponentText(n, letter) + t == t;
    }
  }

  /** A digit run followed by the letter is the group: its value, and the text after the letter. */
  lemma ComponentOfDigits(d: string, letter: char, t: string)
    requires |d| >= 1 && AllDigits(d) && !IsDigit(letter)
    ensures Component(d + [letter] + t, letter) == (DigitsValue(d), t)
  {
    var s := d + [letter] + t;
    LeadingDigitsOf(d, [letter] + t);
    assert s == d + ([letter] + t);
    assert s[|d|] == letter;
    assert s[..|d|] == d;
    assert s[|d| + 1..] == t;
  }

  /** Text starting with a later component (or nothing) is skipped by an earlier group. */
  lemma SkipsLater(n: Option<nat>, later: char, t: string, letter: char)
    requires !IsDigit(later) && later != letter
    requires n.None? ==> Skips(t, letter)
    ensures Skips(ComponentText(n, later) + t, letter)
  {
    if n.Some? {
      var d := NatStr(n.value);
      assert ComponentText(n, later) + t == d + ([later] + t);
      LeadingDigitsOf(d, [later] + t);
      assert (d + ([later] + t))[|d|] == later;
    } else {
      assert ComponentText(n, later) + t == t;
    }
  }

  lemma GroupsOfIso(h: Option<nat>, m: Option<nat>, s: Option<nat>)
    ensures Groups(ComponentText(h, 'H') + ComponentText(m, 'M') + ComponentText(s, 'S'))
      == (ValueOr0(h), ValueOr0(m), ValueOr0(s))
  {
    var cs := ComponentText(s, 'S');
    var cms := ComponentText(m, 'M') + cs;
    assert ComponentText(h, 'H') + ComponentText(m, 'M') + cs == ComponentText(h, 'H') + cms;
    IsoSkips(m, s);
    ComponentReads(h, 'H', cms);
    LaterGroups(m, s);
    GroupsOfComponents(ComponentText(h, 'H') + cms, cms, cs, (ValueOr0(h), ValueOr0(m), ValueOr0(s)));
  }

  /** The minute and second groups of the text after the hours. */
  lemma LaterGroups(m: Option<nat>, s: Option<nat>)
    ensures var cs := ComponentText(s, 'S');
      && Component(ComponentText(m, 'M') + cs, 'M') == (ValueOr0(m), cs)
      && Component(cs, 'S').0 == ValueOr0(s)
  {
    var cs := ComponentText(s, 'S');
    IsoSkips(m, s);
    assert cs + "" == cs;
    ComponentReads(m, 'M', cs);
    ComponentReads(s, 'S', "");
  }

  /** An absent component leaves a text that the earlier groups skip. */
  lemma IsoSkips(m: Option<nat>, s: Option<nat>)
    ensures var cs := ComponentText(s, 'S');
      && (m.None? ==> Skips(ComponentText(m, 'M') + cs, 'H'))
      && (s.None? ==> Skips(cs, 'M'))
      && Skips("", 'S')
  {
    var cs := ComponentText(s, 'S');
    assert Skips("", 'S') && Skips("", 'M') && Skips("", 'H');
    SkipsLater(s, 'S', "", 'M');
    SkipsLater(s, 'S', "", 'H');
    assert cs + "" == cs;
    SkipsLater(m, 'M', cs, 'H');
  }

  /** The three groups read one after the other, each from the text the previous one left. */
  lemma GroupsOfComponents(rest: string, r1: string, r2: string, hms: (nat, nat, nat))
    requires Component(rest, 'H') == (hms.0, r1)
    requires Component(r1, 'M') == (hms.1, r2)
    requires Component(r2, 'S').0 == hms.2
    ensures Groups(rest) == hms
  {
  }

  /** A string starting with "PT" is read from its third character on. */
  lemma ParseLeadingPT(body: string)
    ensures var g := Groups(body);
      ParseDuration("PT" + body) == (g.0 * 3600 + g.1 * 60 + g.2) * 1000
  {
    var text := "PT" + body;
    assert text[0] == 'P' && text[1] == 'T';
    assert FirstPT(text) == 0;
    assert text[2..] == body;
  }

  /**
   * Round trip: a well-formed `PT#H#M#S` string parses to its value in milliseconds,
   * absent components counting as 0.
   */
  lemma ParseIsoDuration(h: Option<nat>, m: Option<nat>, s: Option<nat>)
    ensures ParseDuration(IsoDuration(h, m, s))
      == (ValueOr0(h) * 3600 + ValueOr0(m) * 60 + ValueOr0(s)) * 1000
  {
    var body := ComponentText(h, 'H') + ComponentText(m, 'M') + ComponentText(s, 'S');
    assert IsoDuration(h, m, s) == "PT" + body;
    ParseLeadingPT(body);
    GroupsOfIso(h, m, s);
  }

  /** Hours may be omitted: "PT5M" is five minutes. */
  lemma ParseMinutesOnly()
    ensures ParseDuration("PT5M") == 300000
  {
    assert NatStr(5) == "5";
    assert IsoDuration(None, Some(5), None) == "PT5M";
    ParseIsoDuration(None, Some(5), None);
  }

  /** A digit run not followed by its letter is skipped: fractional seconds count as 0. */
  lemma ParseFractionIgnored()
    ensures ParseDuration("PT1.5S") == 0
  {
    ParseLeadingPT("1.5S");
    assert "PT1.5S" == "PT" + "1.5S";
    assert LeadingDigits("1.5S") == 1;
    assert Groups("1.5S") == (0, 0, 0);
  }

  /** A duration with a day part has no "PT" substring and parses to 0. */
  lemma ParseDayDurationIgnored()
    ensures ParseDuration("P1DT2H") == 0
  {
    var s := "P1DT2H";
    assert FirstPT(s[5..]) == -1;
    assert FirstPT(s[4..]) == -1;
    assert FirstPT(s[3..]) == -1;
    assert FirstPT(s[2..]) == -1;
    assert FirstPT(s[1..]) == -1;
  }

  /**
   * `formatDuration(ms)`: `Math.floor(ms / 3600000)` hours and
   * `Math.floor((ms % 3600000) / 60000)` minutes, with JavaScript's truncating `%`.
   */
  function FormatDuration(ms: int): (r: string)
    ensures ms >= 0 ==> r == NatStr(ms / MsPerHour) + "h " + NatStr((ms % MsPerHour) / MsPerMinute) + "m"
  {
    IntStr(ms / MsPerHour) + "h " + IntStr(JsRem(ms, MsPerHour) / MsPerMinute) + "m"
  }

  /** Reads "{h}h {m}m" back into its two numbers; `None` for any other shape. */
  function ReadHoursMinutes(s: string): Option<(nat, nat)> {
    var i := IndexOfChar(s, 'h');
    if i < 1 || i + 2 >= |s| || s[i + 1] != ' ' || s[|s| - 1] != 'm' then None
    else
      var a, b := s[..i], s[i + 2..|s| - 1];
      if AllDigits(a) && AllDigits(b) then Some((DigitsValue(a), DigitsValue(b))) else None
  }

  lemma ReadHoursMinutesOf(h: nat, m: nat)
    ensures ReadHoursMinutes(NatStr(h) + "h " + NatStr(m) + "m") == Some((h, m))
  {
    ReadDigitRuns(NatStr(h), NatStr(m));
    DigitsValueOfNatStr(h);
    DigitsValueOfNatStr(m);
  }

  /** Two digit runs around "h " and "m" read back as their values. */
  lemma ReadDigitRuns(a: string, b: string)
    requires |a| >= 1 && AllDigits(a) && AllDigits(b)
    ensures ReadHoursMinutes(a + "h " + b + "m") == Some((DigitsValue(a), DigitsValue(b)))
  {
    var t := [' '] + b + ['m'];
    var s := a + ['h'] + t;
    assert a + "h " + b + "m" == s;
    CutAt(a, 'h', t);
    assert s[|a| + 2..|s| - 1] == t[1..|t| - 1];
    assert t[1..|t| - 1] == b;
  }

  /**
   * For a non-negative duration the rendering shows it truncated to whole minutes:
   * the minutes are below 60 and hours and minutes together are the whole minutes of `ms`.
   */
  lemma FormatDurationWholeMinutes(ms: int)
    requires ms >= 0
    ensures var hm := ReadHoursMinutes(FormatDuration(ms));
      && hm.Some?
      && hm.value.1 < 60
      && (hm.value.0 * 60 + hm.value.1) * MsPerMinute <= ms < (hm.value.0 * 60 + hm.value.1 + 1) * MsPerMinute
  {
    var h, r := ms / MsPerHour, ms % MsPerHour;
    var m := r / MsPerMinute;
    ReadHoursMinutesOf(h, m);
    assert ms == h * MsPerHour + r;
    assert r == m * MsPerMinute + r % MsPerMinute;
  }

  /** Round trip: formatting a parsed "PT{h}H{m}M" with m < 60 prints "{h}h {m}m". */
  lemma FormatParsedHoursMinutes(h: nat, m: nat)
    requires m < 60
    ensures FormatDuration(ParseDuration(IsoDuration(Some(h), Some(m), None)))
      == NatStr(h) + "h " + NatStr(m) + "m"
  {
    var ms := ParseDuration(IsoDuration(Some(h), Some(m), None));
    assert ms == (h * 3600 + m * 60) * 1000 by {
      ParseIsoDuration(Some(h), Some(m), None);
    }
    HoursMinutesOf(h, m);
    assert FormatDuration(ms) == NatStr(ms / MsPerHour) + "h " + NatStr((ms % MsPerHour) / MsPerMinute) + "m";
  }

  /** Milliseconds made of whole hours and fewer than 60 minutes split back into them. */
  lemma HoursMinutesOf(h: nat, m: nat)
    requires m < 60
    ensures var ms := (h * 3600 + m * 60) * 1000;
      ms / MsPerHour == h && (ms % MsPerHour) / MsPerMinute == m
  {
    var ms := (h * 3600 + m * 60) * 1000;
    assert ms == h * MsPerHour + m * MsPerMinute;
    DivModOf(h, m * MsPerMinute, MsPerHour);
    DivModOf(m, 0, MsPerMinute);
  }

  lemma DivModOf(q: int, r: int, d: int)
    requires d == MsPerHour || d == MsPerMinute
    requires 0 <= r < d
    ensures (q * d + r) / d == q && (q * d + r) % d == r
  {
    if d == MsPerHour {
      assert (q * MsPerHour + r) / MsPerHour == q;
    } else {
      assert (q * MsPerMinute + r) / MsPerMinute == q;
    }
  }

  /** A negative duration is rendered with both parts negative: -1.5 h shows as "-2h -30m". */
  lemma FormatNegativeExample()
    ensures FormatDuration(-5400000) == "-2h -30m"
  {
    assert -5400000 / MsPerHour == -2;
    assert JsRem(-5400000, MsPerHour) == -1800000;
    assert -1800000 / MsPerMinute == -30;
    assert NatStr(2) == "2";
    assert NatStr(30) == NatStr(3) + "0";
  }
}
