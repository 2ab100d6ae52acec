/** `format_duration` of back/youtube_service.py: the rendering of an ISO 8601
    duration of the `PTnHnMnS` form (section 4.4.3 of ISO 8601:2004) as
    "M:SS" or "H:MM:SS". */
module Durations {
  import opened Common
  import opened Strings

  /** Python's `f"{h}:{m:02d}:{s:02d}"` and `f"{m}:{s:02d}"`, with the hours
      folded out of the minute total when it reaches 60; Python's `//` and `%`
      agree with Dafny's here because the total is then positive. Seconds are
      printed as read, never carried into minutes. */
  function Render(minutes: int, seconds: int): string
  {
    if minutes >= 60 then IntToString(minutes / 60) + ":" + Pad2(minutes % 60) + ":" + Pad2(seconds)
    else IntToString(minutes) + ":" + Pad2(seconds)
  }

  /** The hours step of `format_duration` on a duration with "PT" removed: the
      minutes the hours stand for and the text after "H"; `None` stands for the
      `ValueError` of `int()`. */
  function AfterHours(d: string): Option<(int, string)>
  {
    if Contains(d, "H") then
      SplitFields(d, "H");
      var f := Split(d, "H");
      match ParseInt(f[0])
      case None => None
      case Some(h) => Some((h * 60, f[1]))
    else Some((0, d))
  }

  /** The minutes step: the minute total and the text after "M". */
  function AfterMinutes(base: int, rest: string): Option<(int, string)>
  {
    if Contains(rest, "M") then
      SplitFields(rest, "M");
      var f := Split(rest, "M");
      match ParseInt(f[0])
      case None => None
      case Some(m) => Some((base + m, f[1]))
    else Some((base, rest))
  }

  /** The seconds step: every "S" is removed before `int()`. */
  function SecondsOf(tail: string): Option<int>
  {
    if Contains(tail, "S") then ParseInt(RemoveAll(tail, "S")) else Some(0)
  }

  /** The minute total and the seconds read from a duration with "PT" removed. */
  function DurationParts(d: string): Option<(int, int)>
  {
    match AfterHours(d)
    case None => None
    case Some((base, rest)) => MinutesAndSeconds(base, rest)
  }

  /** The minutes and seconds steps after the hours step. */
  function MinutesAndSeconds(base: int, rest: string): Option<(int, int)>
  {
    match AfterMinutes(base, rest)
    case None => None
    case Some((minutes, tail)) =>
      match SecondsOf(tail)
      case None => None
      case Some(s) => Some((minutes, s))
  }

  /** `format_duration`: "0:00" whenever a component is not a number. */
  function FormatDuration(duration: string): string
  {
    match DurationParts(RemoveAll(duration, "PT"))
    case None => "0:00"
    case Some((minutes, seconds)) => Render(minutes, seconds)
  }

  predicate Lacks(s: string, c: char) {
    forall k :: 0 <= k < |s| ==> s[k] != c
  }

  lemma LacksAppend(a: string, b: string, c: char)
    ensures Lacks(a + b, c) <==> Lacks(a, c) && Lacks(b, c)
  {
    if Lacks(a, c) && Lacks(b, c) {
      forall k | 0 <= k < |a + b| ensures (a + b)[k] != c {
        if k >= |a| {
          assert (a + b)[k] == b[k - |a|];
        }
      }
    }
    if Lacks(a + b, c) {
      forall k | 0 <= k < |a| ensures a[k] != c {
        assert (a + b)[k] == a[k];
      }
      forall k | 0 <= k < |b| ensures b[k] != c {
        assert (a + b)[|a| + k] == b[k];
      }
    }
  }

  /** `t` is a number `int()` reads as `n`, with none of the duration letters. */
  predicate Numeral(t: string, n: int) {
    ParseInt(t) == Some(n) && Lacks(t, 'P') && Lacks(t, 'H') && Lacks(t, 'M') && Lacks(t, 'S')
  }

  /** `str(n)` is such a numeral. */
  lemma NumeralOfNat(n: nat)
    ensures Numeral(NatToString(n), n)
  {
    ParseNatToString(n);
  }

  lemma RemovePT(d: string)
    requires Lacks(d, 'P')
    ensures RemoveAll("PT" + d, "PT") == d
  {
    RemoveLeading("PT", d);
  }

  lemma AfterHoursAbsent(d: string)
    requires Lacks(d, 'H')
    ensures AfterHours(d) == Some((0, d))
  {
    NotContainsWithoutChar(d, "H");
  }

  lemma AfterHoursNumber(t: string, h: int, rest: string)
    requires Numeral(t, h) && Lacks(rest, 'H')
    ensures AfterHours(t + "H" + rest) == Some((h * 60, rest))
  {
    SplitAtChar(t, 'H', rest);
    NotContainsWithoutChar(rest, "H");
    assert Split(rest, "H") == [rest];
  }

  lemma AfterMinutesAbsent(base: int, rest: string)
    requires Lacks(rest, 'M')
    ensures AfterMinutes(base, rest) == Some((base, rest))
  {
    NotContainsWithoutChar(rest, "M");
  }

  lemma AfterMinutesNumber(base: int, t: string, m: int, tail: string)
    requires Numeral(t, m) && Lacks(tail, 'M')
    ensures AfterMinutes(base, t + "M" + tail) == Some((base + m, tail))
  {
    SplitAtChar(t, 'M', tail);
    NotContainsWithoutChar(tail, "M");
    assert Split(tail, "M") == [tail];
  }

  lemma SecondsNumber(t: string, s: int)
    requires Numeral(t, s)
    ensures SecondsOf(t + "S") == Some(s)
  {
    RemoveTrailingChar(t, 'S');
  }

  /** The minutes and seconds steps compose. */
  lemma StagesAfterHours(base: int, rest: string, minutes: int, tail: string, seconds: int)
    requires AfterMinutes(base, rest) == Some((minutes, tail))
    requires SecondsOf(tail) == Some(seconds)
    ensures MinutesAndSeconds(base, rest) == Some((minutes, seconds))
  {
  }

  /** The hours step and the rest compose into the parts. */
  lemma PartsOf(d: string, base: int, rest: string, minutes: int, seconds: int)
    requires AfterHours(d) == Some((base, rest))
    requires MinutesAndSeconds(base, rest) == Some((minutes, seconds))
    ensures DurationParts(d) == Some((minutes, seconds))
  {
  }

  /** "<m>M<s>S" after any hours. */
  lemma MinutesSecondsNumbers(base: int, tm: string, m: int, ts: string, s: int)
    requires Numeral(tm, m) && Numeral(ts, s) && Lacks(ts + "S", 'M')
    ensures MinutesAndSeconds(base, tm + "M" + (ts + "S")) == Some((base + m, s))
  {
    AfterMinutesNumber(base, tm, m, ts + "S");
    SecondsNumber(ts, s);
    StagesAfterHours(base, tm + "M" + (ts + "S"), base + m, ts + "S", s);
  }

  /** The rendering is decided by the parts read from the text after "PT". */
  lemma FormatFromParts(d: string, minutes: int, seconds: int)
    requires Lacks(d, 'P') && DurationParts(d) == Some((minutes, seconds))
    ensures FormatDuration("PT" + d) == Render(minutes, seconds)
  {
    RemovePT(d);
  }

  lemma Regroup(a: string, b: string, c: string, d: string, e: string, f: string, g: string)
    ensures a + b + c + d + e + f + g == a + (b + c + (d + e + (f + g)))
  {
  }

  /** The letters that the numerals lack, their concatenations lack too. */
  lemma LacksSeconds(ts: string, s: int)
    requires Numeral(ts, s)
    ensures Lacks(ts + "S", 'M') && Lacks(ts + "S", 'H') && Lacks(ts + "S", 'P')
  {
    LacksAppend(ts, "S", 'M');
    LacksAppend(ts, "S", 'H');
    LacksAppend(ts, "S", 'P');
  }

  lemma LacksMinutesSeconds(tm: string, m: int, ts: string, s: int)
    requires Numeral(tm, m) && Numeral(ts, s)
    ensures Lacks(ts + "S", 'M') && Lacks(ts + "S", 'H') && Lacks(ts + "S", 'P')
    ensures Lacks(tm + "M" + (ts + "S"), 'H') && Lacks(tm + "M" + (ts + "S"), 'P')
  {
    LacksSeconds(ts, s);
    LacksAppend(tm, "M", 'H');
    LacksAppend(tm, "M", 'P');
    LacksAppend(tm + "M", ts + "S", 'H');
    LacksAppend(tm + "M", ts + "S", 'P');
  }

  lemma LacksHours(th: string, h: int, rest: string)
    requires Numeral(th, h) && Lacks(rest, 'P')
    ensures Lacks(th + "H" + rest, 'P')
  {
    LacksAppend(th, "H", 'P');
    LacksAppend(th + "H", rest, 'P');
  }

  /** Without "H", the parts are what the minutes and seconds steps read. */
  lemma PartsWithoutHours(rest: string, minutes: int, seconds: int)
    requires Lacks(rest, 'H') && MinutesAndSeconds(0, rest) == Some((minutes, seconds))
    ensures DurationParts(rest) == Some((minutes, seconds))
  {
    AfterHoursAbsent(rest);
    PartsOf(rest, 0, rest, minutes, seconds);
  }

  /** A leading "<h>H" adds its minutes before the rest is read. */
  lemma PartsWithHours(th: string, h: int, rest: string, minutes: int, seconds: int)
    requires Numeral(th, h) && Lacks(rest, 'H')
    requires MinutesAndSeconds(h * 60, rest) == Some((minutes, seconds))
    ensures DurationParts(th + "H" + rest) == Some((minutes, seconds))
  {
    AfterHoursNumber(th, h, rest);
    PartsOf(th + "H" + rest, h * 60, rest, minutes, seconds);
  }

  /** "PT<s>S": no minutes. */
  lemma PartsSecondsOnly(ts: string, s: int)
    requires Numeral(ts, s)
    requires Lacks(ts + "S", 'M') && Lacks(ts + "S", 'H')
    ensures DurationParts(ts + "S") == Some((0, s))
  {
    AfterHoursAbsent(ts + "S");
    AfterMinutesAbsent(0, ts + "S");
    SecondsNumber(ts, s);
    StagesAfterHours(0, ts + "S", 0, ts + "S", s);
    PartsOf(ts + "S", 0, ts + "S", 0, s);
  }

  /** "PT<h>H": no minutes and no seconds. */
  lemma PartsHoursOnly(th: string, h: int)
    requires Numeral(th, h)
    ensures DurationParts(th + "H") == Some((h * 60, 0))
  {
    assert th + "H" == th + "H" + "";
    AfterHoursNumber(th, h, "");
    AfterMinutesAbsent(h * 60, "");
    assert SecondsOf("") == Some(0);
    StagesAfterHours(h * 60, "", h * 60, "", 0);
    PartsOf(th + "H", h * 60, "", h * 60, 0);
  }

  lemma RenderUnderHour(m: int, s: int)
    requires m < 60
    ensures Render(m, s) == IntToString(m) + ":" + Pad2(s)
  {
  }

  lemma RenderHours(total: int, s: int)
    requires total >= 60
    ensures Render(total, s) == IntToString(total / 60) + ":" + Pad2(total % 60) + ":" + Pad2(s)
  {
  }

  /** Under an hour: "PT<m>M<s>S" renders as "<m>:<ss>". */
  lemma FormatMinutesSeconds(tm: string, m: int, ts: string, s: int)
    requires Numeral(tm, m) && Numeral(ts, s) && m < 60
    ensures FormatDuration("PT" + tm + "M" + ts + "S") == IntToString(m) + ":" + Pad2(s)
  {
    assert "PT" + tm + "M" + ts + "S" == "PT" + (tm + "M" + (ts + "S"));
    MinutesSecondsRest(0, tm, m, ts, s);
    FormatWithoutHours(tm + "M" + (ts + "S"), m, s);
    RenderUnderHour(m, s);
  }

  /** "PT" followed by minutes and seconds without "H". */
  lemma FormatWithoutHours(rest: string, minutes: int, seconds: int)
    requires Lacks(rest, 'H') && Lacks(rest, 'P')
    requires MinutesAndSeconds(0, rest) == Some((minutes, seconds))
    ensures FormatDuration("PT" + rest) == Render(minutes, seconds)
  {
    PartsWithoutHours(rest, minutes, seconds);
    FormatFromParts(rest, minutes, seconds);
  }

  /** Only seconds: "PT<s>S" renders as "0:<ss>", even past 59 seconds. */
  lemma FormatSecondsOnly(ts: string, s: int)
    requires Numeral(ts, s)
    ensures FormatDuration("PT" + ts + "S") == "0:" + Pad2(s)
  {
    assert "PT" + ts + "S" == "PT" + (ts + "S");
    LacksSeconds(ts, s);
    PartsSecondsOnly(ts, s);
    FormatFromParts(ts + "S", 0, s);
    RenderUnderHour(0, s);
    assert IntToString(0) == "0";
  }

  /** Hours fold into minutes: "PT<h>H<m>M<s>S" with a total of an hour or more
      renders as "<total div 60>:<total mod 60>:<ss>". */
  lemma FormatHoursMinutesSeconds(th: string, h: int, tm: string, m: int, ts: string, s: int)
    requires Numeral(th, h) && Numeral(tm, m) && Numeral(ts, s) && h * 60 + m >= 60
    ensures var total := h * 60 + m;
      FormatDuration("PT" + th + "H" + tm + "M" + ts + "S")
      == IntToString(total / 60) + ":" + Pad2(total % 60) + ":" + Pad2(s)
  {
    Regroup("PT", th, "H", tm, "M", ts, "S");
    RenderedHoursMinutesSeconds(th, h, tm, m, ts, s);
    RenderHours(h * 60 + m, s);
  }

  lemma RenderedHoursMinutesSeconds(th: string, h: int, tm: string, m: int, ts: string, s: int)
    requires Numeral(th, h) && Numeral(tm, m) && Numeral(ts, s)
    ensures FormatDuration("PT" + (th + "H" + (tm + "M" + (ts + "S")))) == Render(h * 60 + m, s)
  {
    MinutesSecondsRest(h * 60, tm, m, ts, s);
    FormatWithHours(th, h, tm + "M" + (ts + "S"), h * 60 + m, s);
  }

  /** "<m>M<s>S" lacks the letters before it and reads as its numbers. */
  lemma MinutesSecondsRest(base: int, tm: string, m: int, ts: string, s: int)
    requires Numeral(tm, m) && Numeral(ts, s)
    ensures var rest := tm + "M" + (ts + "S");
      Lacks(rest, 'H') && Lacks(rest, 'P') && MinutesAndSeconds(base, rest) == Some((base + m, s))
  {
    LacksMinutesSeconds(tm, m, ts, s);
    MinutesSecondsNumbers(base, tm, m, ts, s);
  }

  /** "PT<h>H" followed by any minutes and seconds the rest reads as. */
  lemma FormatWithHours(th: string, h: int, rest: string, minutes: int, seconds: int)
    requires Numeral(th, h) && Lacks(rest, 'H') && Lacks(rest, 'P')
    requires MinutesAndSeconds(h * 60, rest) == Some((minutes, seconds))
    ensures FormatDuration("PT" + (th + "H" + rest)) == Render(minutes, seconds)
  {
    LacksHours(th, h, rest);
    PartsWithHours(th, h, rest, minutes, seconds);
    FormatFromParts(th + "H" + rest, minutes, seconds);
  }

  /** A whole number of hours renders with zero minutes and seconds. */
  lemma RenderWholeHours(h: int)
    requires h >= 1
    ensures Render(h * 60, 0) == IntToString(h) + ":00:00"
  {
    assert (h * 60) / 60 == h && (h * 60) % 60 == 0;
    assert Pad2(0) == "00";
  }

  /** Only hours: "PT<h>H" renders as "<h>:00:00" for a positive count. */
  lemma FormatHoursOnly(th: string, h: int)
    requires Numeral(th, h) && h >= 1
    ensures FormatDuration("PT" + th + "H") == IntToString(h) + ":00:00"
  {
    assert "PT" + th + "H" == "PT" + (th + "H");
    LacksHours(th, h, "");
    assert th + "H" == th + "H" + "";
    PartsHoursOnly(th, h);
    FormatFromParts(th + "H", h * 60, 0);
    RenderWholeHours(h);
  }

  /** "<m>M" lacks the letters before it and reads as its minutes with no seconds. */
  lemma MinutesRest(base: int, tm: string, m: int)
    requires Numeral(tm, m)
    ensures Lacks(tm + "M", 'H') && Lacks(tm + "M", 'P')
    ensures MinutesAndSeconds(base, tm + "M") == Some((base + m, 0))
  {
    LacksAppend(tm, "M", 'H');
    LacksAppend(tm, "M", 'P');
    assert tm + "M" == tm + "M" + "";
    AfterMinutesNumber(base, tm, m, "");
    assert SecondsOf("") == Some(0);
    StagesAfterHours(base, tm + "M", base + m, "", 0);
  }

  /** Only minutes: "PT<m>M" renders as "<m>:00", the missing seconds counting as 0. */
  lemma FormatMinutesOnly(tm: string, m: int)
    requires Numeral(tm, m) && m < 60
    ensures FormatDuration("PT" + tm + "M") == IntToString(m) + ":00"
  {
    assert "PT" + tm + "M" == "PT" + (tm + "M");
    RenderedMinutes(tm, m);
    RenderMinutesNoSeconds(m);
  }

  lemma RenderedMinutes(tm: string, m: int)
    requires Numeral(tm, m)
    ensures FormatDuration("PT" + (tm + "M")) == Render(m, 0)
  {
    MinutesRest(0, tm, m);
    FormatWithoutHours(tm + "M", m, 0);
  }

  /** Under an hour, zero seconds render as ":00". */
  lemma RenderMinutesNoSeconds(m: int)
    requires m < 60
    ensures Render(m, 0) == IntToString(m) + ":00"
  {
    RenderUnderHour(m, 0);
    assert Pad2(0) == "00";
  }

  /** Hours and minutes: "PT<h>H<m>M" with a total of an hour or more renders as
      "<total div 60>:<total mod 60>:00". */
  lemma FormatHoursMinutes(th: string, h: int, tm: string, m: int)
    requires Numeral(th, h) && Numeral(tm, m) && h * 60 + m >= 60
    ensures var total := h * 60 + m;
      FormatDuration("PT" + th + "H" + tm + "M")
      == IntToString(total / 60) + ":" + Pad2(total % 60) + ":00"
  {
    assert "PT" + th + "H" + tm + "M" == "PT" + (th + "H" + (tm + "M"));
    RenderedHoursMinutes(th, h, tm, m);
    RenderHours(h * 60 + m, 0);
    assert Pad2(0) == "00";
  }

  lemma RenderedHoursMinutes(th: string, h: int, tm: string, m: int)
    requires Numeral(th, h) && Numeral(tm, m)
    ensures FormatDuration("PT" + (th + "H" + (tm + "M"))) == Render(h * 60 + m, 0)
  {
    MinutesRest(h * 60, tm, m);
    FormatWithHours(th, h, tm + "M", h * 60 + m, 0);
  }

  /** Hours and seconds: "PT<h>H<s>S" renders as "<h>:00:<ss>" for a positive count. */
  lemma FormatHoursSeconds(th: string, h: int, ts: string, s: int)
    requires Numeral(th, h) && Numeral(ts, s) && h >= 1
    ensures FormatDuration("PT" + th + "H" + ts + "S") == IntToString(h) + ":00:" + Pad2(s)
  {
    assert "PT" + th + "H" + ts + "S" == "PT" + (th + "H" + (ts + "S"));
    RenderedHoursSeconds(th, h, ts, s);
    RenderHoursNoMinutes(h, s);
  }

  lemma RenderedHoursSeconds(th: string, h: int, ts: string, s: int)
    requires Numeral(th, h) && Numeral(ts, s)
    ensures FormatDuration("PT" + (th + "H" + (ts + "S"))) == Render(h * 60, s)
  {
    LacksSeconds(ts, s);
    AfterMinutesAbsent(h * 60, ts + "S");
    SecondsNumber(ts, s);
    StagesAfterHours(h * 60, ts + "S", h * 60, ts + "S", s);
    FormatWithHours(th, h, ts + "S", h * 60, s);
  }

  /** A whole number of hours renders with zero minutes. */
  lemma RenderHoursNoMinutes(h: int, s: int)
    requires h >= 1
    ensures Render(h * 60, s) == IntToString(h) + ":00:" + Pad2(s)
  {
    assert (h * 60) / 60 == h && (h * 60) % 60 == 0;
    assert Pad2(0) == "00";
  }

  /** A minute count that is not a number turns the whole rendering into "0:00". */
  lemma FormatNonNumericMinutes(x: string, rest: string)
    requires ParseInt(x) == None
    requires Lacks(x, 'P') && Lacks(x, 'H') && Lacks(x, 'M')
    requires Lacks(rest, 'P') && Lacks(rest, 'H')
    ensures FormatDuration("PT" + x + "M" + rest) == "0:00"
  {
    assert "PT" + x + "M" + rest == "PT" + (x + "M" + rest);
    NonNumericMinutesParts(x, rest);
    FormatWithoutParts(x + "M" + rest);
  }

  lemma NonNumericMinutesParts(x: string, rest: string)
    requires ParseInt(x) == None
    requires Lacks(x, 'P') && Lacks(x, 'H') && Lacks(x, 'M')
    requires Lacks(rest, 'P') && Lacks(rest, 'H')
    ensures Lacks(x + "M" + rest, 'P') && DurationParts(x + "M" + rest) == None
  {
    LacksAppend(x, "M", 'P');
    LacksAppend(x, "M", 'H');
    LacksAppend(x + "M", rest, 'P');
    LacksAppend(x + "M", rest, 'H');
    AfterHoursAbsent(x + "M" + rest);
    SplitAtChar(x, 'M', rest);
  }

  /** Without parts, the rendering falls back to "0:00". */
  lemma FormatWithoutParts(d: string)
    requires Lacks(d, 'P') && DurationParts(d) == None
    ensures FormatDuration("PT" + d) == "0:00"
  {
    RemovePT(d);
  }
}
