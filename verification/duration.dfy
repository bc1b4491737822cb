/** `format_duration`: renders a duration in seconds as a clock string. */
module Duration {
  import opened Wrappers
  import opened Text

  /**
   * Hours, minutes and seconds as Python's `//` and `%` compute them. With a positive
   * divisor both round towards negative infinity, which is what Dafny's `/` and `%` do.
   */
  function Decompose(n: int): (hms: (int, nat, nat))
    ensures hms.0 * 3600 + hms.1 * 60 + hms.2 == n
    ensures hms.1 < 60 && hms.2 < 60
  {
    var h, rem := n / 3600, n % 3600;
    var m, s := rem / 60, rem % 60;
    assert n % 60 == s by {
      assert n == (h * 60 + m) * 60 + s;
    }
    (h, m, n % 60)
  }

  /**
   * `format_duration`; `None` stands for every input that is not a number.
   * The hour group appears exactly when the duration is at least one hour.
   */
  function FormatDuration(seconds: Option<int>): (r: string)
    ensures seconds.None? <==> r == "N/A"
    ensures seconds.Some? ==> forall i :: 0 <= i < |r| ==> IsDigit(r[i]) || r[i] == ':'
    ensures seconds.Some? ==> (|r| == 5 <==> seconds.value < 3600)
  {
    match seconds
    case None => "N/A"
    case Some(n) =>
      var (h, m, s) := Decompose(n);
      if h > 0 then Pad2(h) + ":" + Pad2(m) + ":" + Pad2(s)
      else
        assert n < 3600;
        Pad2(m) + ":" + Pad2(s)
  }

  /** A minutes or seconds field as `:02d` prints a value below 60: exactly two digits. */
  predicate IsClockField(f: string) {
    |f| == 2 && AllDigits(f) && DigitsValue(f) < 60
  }

  /** An hour field as `:02d` prints a positive value: two digits, or more without a leading zero. */
  predicate IsHourField(f: string) {
    IsNumeral(f) && |f| >= 2 && (|f| > 2 ==> f[0] != '0') && DigitsValue(f) > 0
  }

  /**
   * Reads back `"MM:SS"` or `"HH:MM:SS"` as seconds. Only the strings `format_duration`
   * can print are accepted: two-digit minutes and seconds below 60, and a positive hour
   * field zero-filled to width two.
   */
  function ParseClock(t: string): Option<int> {
    if |t| < 5 || t[|t| - 3] != ':' then None
    else
      var mm, ss := t[|t| - 5..|t| - 3], t[|t| - 2..];
      if !IsClockField(mm) || !IsClockField(ss) then None
      else if |t| == 5 then Some(DigitsValue(mm) * 60 + DigitsValue(ss))
      else if t[|t| - 6] == ':' && IsHourField(t[..|t| - 6]) then
        Some(DigitsValue(t[..|t| - 6]) * 3600 + DigitsValue(mm) * 60 + DigitsValue(ss))
      else None
  }

  lemma ParseMinutesSeconds(mm: string, ss: string)
    requires IsClockField(mm) && IsClockField(ss)
    ensures ParseClock(mm + ":" + ss).Some?
    ensures ParseClock(mm + ":" + ss).value == DigitsValue(mm) * 60 + DigitsValue(ss)
  {
    var t := mm + ":" + ss;
    assert t[|t| - 5..|t| - 3] == mm && t[|t| - 2..] == ss;
  }

  lemma ParseHoursMinutesSeconds(hh: string, mm: string, ss: string)
    requires IsHourField(hh) && IsClockField(mm) && IsClockField(ss)
    ensures ParseClock(hh + ":" + mm + ":" + ss).Some?
    ensures ParseClock(hh + ":" + mm + ":" + ss).value == DigitsValue(hh) * 3600 + DigitsValue(mm) * 60 + DigitsValue(ss)
  {
    var t := hh + ":" + mm + ":" + ss;
    HoursClockLayout(hh, mm, ss);
    ParseClockWithHours(t);
  }

  /** Where the fields and separators of `"HH:MM:SS"` sit, counted from the end. */
  lemma HoursClockLayout(hh: string, mm: string, ss: string)
    requires |mm| == 2 && |ss| == 2
    ensures var t := hh + ":" + mm + ":" + ss;
      && |t| > 5 && t[|t| - 6] == ':' && t[|t| - 3] == ':'
      && t[..|t| - 6] == hh && t[|t| - 5..|t| - 3] == mm && t[|t| - 2..] == ss
  {
    var t := hh + ":" + mm + ":" + ss;
    var n := |hh|;
    assert t == hh + (":" + mm + ":" + ss);
    var rest := t[n..];
    assert rest == ":" + mm + ":" + ss;
    assert rest == [':', mm[0], mm[1], ':', ss[0], ss[1]];
    assert t[|t| - 5..|t| - 3] == rest[1..3];
    assert t[|t| - 2..] == rest[4..];
  }

  /** `ParseClock` on a string whose separators and fields are in the places of `"HH:MM:SS"`. */
  lemma ParseClockWithHours(t: string)
    requires |t| > 5 && t[|t| - 6] == ':' && t[|t| - 3] == ':'
    requires IsHourField(t[..|t| - 6]) && IsClockField(t[|t| - 5..|t| - 3]) && IsClockField(t[|t| - 2..])
    ensures ParseClock(t).Some?
    ensures ParseClock(t).value
         == DigitsValue(t[..|t| - 6]) * 3600 + DigitsValue(t[|t| - 5..|t| - 3]) * 60 + DigitsValue(t[|t| - 2..])
  {
  }

  /** Hours, minutes and seconds below 60 are determined by the number of seconds they add up to. */
  lemma ClockArithmetic(h1: int, m1: int, s1: int, h2: int, m2: int, s2: int)
    requires 0 <= m1 < 60 && 0 <= s1 < 60 && 0 <= m2 < 60 && 0 <= s2 < 60
    requires h1 * 3600 + m1 * 60 + s1 == h2 * 3600 + m2 * 60 + s2
    ensures h1 == h2 && m1 == m2 && s1 == s2
  {
    assert -3600 < (m2 - m1) * 60 + (s2 - s1) < 3600;
    assert h1 == h2;
    assert -60 < s2 - s1 < 60;
  }

  /** Two hour fields with the same value are the same string. */
  lemma HourFieldInjective(a: string, b: string)
    requires IsHourField(a) && IsHourField(b) && DigitsValue(a) == DigitsValue(b)
    ensures a == b
  {
    if |a| < |b| {
      ShorterHourFieldSmaller(a, b);
      assert false;
    } else if |b| < |a| {
      ShorterHourFieldSmaller(b, a);
      assert false;
    }
    DigitsValueInjective(a, b);
  }

  /** A shorter hour field holds a smaller value, since only the two-digit one may start with `0`. */
  lemma ShorterHourFieldSmaller(s: string, l: string)
    requires IsHourField(s) && IsHourField(l) && |s| < |l|
    ensures DigitsValue(s) < DigitsValue(l)
  {
    DigitsValueBelow(s);
    DigitsValueLeading(l);
    Pow10Monotone(|s|, |l| - 1);
  }

  lemma {:induction false} Pow10Monotone(i: nat, j: nat)
    requires i <= j
    ensures Pow10(i) <= Pow10(j)
    decreases j
  {
    if i < j {
      Pow10Monotone(i, j - 1);
    }
  }

  /** A clock string is its optional hour part, its minutes, a colon and its seconds. */
  lemma ClockParts(t: string)
    requires |t| >= 5
    ensures t == t[..|t| - 5] + t[|t| - 5..|t| - 3] + [t[|t| - 3]] + t[|t| - 2..]
  {
  }

  /** Seconds past 59 are rejected: `"00:61"` is no clock string. */
  lemma ParseClockRejectsOverflow()
    ensures ParseClock("00:61").None?
  {
    var t := "00:61";
    var ss := t[|t| - 2..];
    assert ss == "61";
    var p := ss[..1];
    assert p[..0] == [] && p[0] == '6' && ss[1] == '1';
    assert DigitsValue(p) == 6;
    assert DigitsValue(ss) == 61;
  }

  /** Every accepted clock string has the hour group exactly when it reads as an hour or more. */
  lemma ClockShape(t: string)
    requires ParseClock(t).Some?
    ensures 0 <= ParseClock(t).value
    ensures |t| == 5 <==> ParseClock(t).value < 3600
  {
  }

  /** Distinct accepted clock strings read as distinct numbers of seconds. */
  lemma ParseClockInjective(a: string, b: string)
    requires ParseClock(a).Some? && ParseClock(a) == ParseClock(b)
    ensures a == b
  {
    ClockShape(a);
    ClockShape(b);
    var ma, sa, mb, sb := a[|a| - 5..|a| - 3], a[|a| - 2..], b[|b| - 5..|b| - 3], b[|b| - 2..];
    if |a| == 5 {
      ClockArithmetic(0, DigitsValue(ma), DigitsValue(sa), 0, DigitsValue(mb), DigitsValue(sb));
      assert a[..0] == b[..0];
    } else {
      var ha, hb := a[..|a| - 6], b[..|b| - 6];
      ClockArithmetic(DigitsValue(ha), DigitsValue(ma), DigitsValue(sa), DigitsValue(hb), DigitsValue(mb), DigitsValue(sb));
      HourFieldInjective(ha, hb);
      assert a[..|a| - 5] == ha + [':'];
      assert b[..|b| - 5] == hb + [':'];
    }
    DigitsValueInjective(ma, mb);
    DigitsValueInjective(sa, sb);
    ClockParts(a);
    ClockParts(b);
  }

  /**
   * The clock string reads back as the duration itself from one hour up; below one hour
   * (negative durations included) it reads back as the duration modulo one hour.
   */
  lemma FormatDurationRoundTrip(n: int)
    ensures ParseClock(FormatDuration(Some(n))).Some?
    ensures ParseClock(FormatDuration(Some(n))).value == if n >= 3600 then n else n % 3600
  {
    if n >= 3600 {
      RoundTripWithHours(n);
    } else {
      RoundTripWithoutHours(n);
    }
  }

  /**
   * The printed clock string is the only accepted one that reads back as it does, so
   * the round trip pins every character `format_duration` prints.
   */
  lemma FormatDurationCanonical(n: int, t: string)
    requires ParseClock(t) == ParseClock(FormatDuration(Some(n)))
    ensures t == FormatDuration(Some(n))
  {
    FormatDurationRoundTrip(n);
    ParseClockInjective(FormatDuration(Some(n)), t);
  }

  lemma RoundTripWithHours(n: int)
    requires n >= 3600
    ensures ParseClock(FormatDuration(Some(n))).Some?
    ensures ParseClock(FormatDuration(Some(n))).value == n
  {
    var (h, m, s) := Decompose(n);
    var ph, pm, ps := Pad2(h), Pad2(m), Pad2(s);
    assert FormatDuration(Some(n)) == ph + ":" + pm + ":" + ps;
    assert IsHourField(ph) && IsClockField(pm) && IsClockField(ps);
    ParseHoursMinutesSeconds(ph, pm, ps);
  }

  lemma RoundTripWithoutHours(n: int)
    requires n < 3600
    ensures ParseClock(FormatDuration(Some(n))).Some?
    ensures ParseClock(FormatDuration(Some(n))).value == n % 3600
  {
    var (h, m, s) := Decompose(n);
    var pm, ps := Pad2(m), Pad2(s);
    assert FormatDuration(Some(n)) == pm + ":" + ps;
    assert IsClockField(pm) && IsClockField(ps);
    ParseMinutesSeconds(pm, ps);
    assert n % 3600 == m * 60 + s;
  }

  lemma FormatDurationExamples()
    ensures FormatDuration(Some(3661)) == "01:01:01"
    ensures FormatDuration(Some(59)) == "00:59"
    ensures FormatDuration(Some(-1)) == "59:59"
    ensures FormatDuration(None) == "N/A"
  {
    assert Pad2(1) == "01";
    assert Decompose(3661) == (1, 1, 1);
    assert Pad2(0) == "00" && Pad2(59) == "59";
    assert Decompose(59) == (0, 0, 59);
    assert Decompose(-1) == (-1, 59, 59);
  }
}
