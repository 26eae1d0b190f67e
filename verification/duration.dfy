/** The duration shown on preview cards and audio captions: whole seconds
    rendered as `Unknown`, `M:SS` or `H:MM:SS`. */
module Duration {
  import opened Outcomes
  import opened Numerals
  import opened Text

  const UnknownDuration := "Unknown"

  /** Renders a duration in seconds. Hours and minutes come from two
      successive divisions by 60 (Python's `divmod`; every operand is
      positive here, so flooring and Euclidean division agree). */
  function FmtDuration(seconds: int): (r: string)
    ensures seconds <= 0 <==> r == UnknownDuration
    ensures seconds > 0 ==> forall i :: 0 <= i < |r| ==> IsDigit(r[i]) || r[i] == ':'
  {
    if seconds <= 0 then UnknownDuration
    else
      var m, s := seconds / 60, seconds % 60;
      var h, m' := m / 60, m % 60;
      var r := if h != 0 then Dec(h) + ":" + Pad2(m') + ":" + Pad2(s)
               else Dec(m) + ":" + Pad2(s);
      assert r[0] != UnknownDuration[0];
      r
  }

  /** Successive division by 60 splits a duration into hours, minutes under
      60 and seconds under 60 that reassemble to it. */
  lemma ClockArithmetic(d: nat)
    ensures d % 60 < 60 && d / 60 % 60 < 60
    ensures d == d / 60 / 60 * 3600 + d / 60 % 60 * 60 + d % 60
    ensures d / 60 / 60 != 0 <==> d >= 3600
  {
    var q, s := d / 60, d % 60;
    assert d == 60 * q + s;
    var h, m := q / 60, q % 60;
    assert q == 60 * h + m;
    assert d == 3600 * h + 60 * m + s;
  }

  /** Two digits denoting a value below 60: a minutes or seconds field. */
  predicate IsSexagesimal(f: string) {
    |f| == 2 && AllDigits(f) && DecValue(f) < 60
  }

  predicate IsNumeral(f: string) {
    |f| >= 1 && AllDigits(f)
  }

  /** Reads a rendered duration back into seconds: `M:SS` or `H:MM:SS`;
      anything else, `Unknown` included, has no value. */
  function ParseDuration(s: string): Option<nat> {
    var f := SplitOn(s, ':');
    if |f| == 2 && IsNumeral(f[0]) && IsSexagesimal(f[1]) then
      Some(DecValue(f[0]) * 60 + DecValue(f[1]))
    else if |f| == 3 && IsNumeral(f[0]) && IsSexagesimal(f[1]) && IsSexagesimal(f[2]) then
      Some(DecValue(f[0]) * 3600 + DecValue(f[1]) * 60 + DecValue(f[2]))
    else None
  }

  /** The fields of a positive duration: under an hour, minutes = d div 60
      and two-digit seconds = d mod 60; from an hour on, a non-zero hour count
      and two-digit minutes and seconds. */
  lemma FmtDurationFields(d: int)
    requires d > 0
    ensures var f := SplitOn(FmtDuration(d), ':');
      && (d < 3600 ==>
            |f| == 2 && f[0] == Dec(d / 60) && IsSexagesimal(f[1]) && DecValue(f[1]) == d % 60)
      && (d >= 3600 ==>
            && |f| == 3 && f[0] == Dec(d / 60 / 60) && d / 60 / 60 >= 1
            && IsSexagesimal(f[1]) && DecValue(f[1]) == d / 60 % 60
            && IsSexagesimal(f[2]) && DecValue(f[2]) == d % 60)
  {
    var m, s := d / 60, d % 60;
    var h, m' := m / 60, m % 60;
    ClockArithmetic(d);
    DigitsHaveNoSeparator(Dec(h), ':');
    DigitsHaveNoSeparator(Dec(m), ':');
    DigitsHaveNoSeparator(Pad2(m'), ':');
    DigitsHaveNoSeparator(Pad2(s), ':');
    SplitOnPlain(Pad2(s), ':');
    if h != 0 {
      assert FmtDuration(d) == Dec(h) + [':'] + (Pad2(m') + [':'] + Pad2(s));
      SplitOnJoin(Dec(h), ':', Pad2(m') + [':'] + Pad2(s));
      SplitOnJoin(Pad2(m'), ':', Pad2(s));
    } else {
      assert FmtDuration(d) == Dec(m) + [':'] + Pad2(s);
      SplitOnJoin(Dec(m), ':', Pad2(s));
    }
  }

  /** Round trip: the rendered fields reassemble to the duration itself,
      and a non-positive duration renders as the value-less `Unknown`. */
  lemma FmtDurationRoundTrip(d: int)
    ensures ParseDuration(FmtDuration(d)) == if d > 0 then Some(d) else None
  {
    if d >= 3600 {
      RoundTripFromAnHour(d);
    } else if d > 0 {
      RoundTripUnderAnHour(d);
    } else {
      var u := UnknownDuration;
      assert ':' !in u;
      SplitOnPlain(u, ':');
    }
  }

  lemma RoundTripUnderAnHour(d: int)
    requires 0 < d < 3600
    ensures ParseDuration(FmtDuration(d)) == Some(d)
  {
    FmtDurationFields(d);
    ClockArithmetic(d);
    var f := SplitOn(FmtDuration(d), ':');
    assert DecValue(f[0]) == d / 60 == d / 60 % 60;
    assert DecValue(f[0]) * 60 + DecValue(f[1]) == d;
  }

  lemma RoundTripFromAnHour(d: int)
    requires d >= 3600
    ensures ParseDuration(FmtDuration(d)) == Some(d)
  {
    FmtDurationFields(d);
    ClockArithmetic(d);
    var f := SplitOn(FmtDuration(d), ':');
    var h, m, sec := DecValue(f[0]), DecValue(f[1]), DecValue(f[2]);
    assert h == d / 60 / 60 && m == d / 60 % 60 && sec == d % 60;
    assert h * 3600 + m * 60 + sec == d;
  }

  /** Worked values: nothing known, one minute five, one hour one minute one. */
  lemma FmtDurationExamples()
    ensures FmtDuration(0) == "Unknown"
    ensures FmtDuration(65) == "1:05"
    ensures FmtDuration(3661) == "1:01:01"
  {
    MinutesExample();
    HoursExample();
  }

  lemma MinutesExample()
    ensures FmtDuration(65) == "1:05"
  {
    assert Pad2(5) == "05";
  }

  lemma HoursExample()
    ensures FmtDuration(3661) == "1:01:01"
  {
    assert Pad2(1) == "01";
  }
}
