/** `parseDuration` of the analysis page: a playlist duration in seconds (a
    JavaScript number, taken as a finite real) shown as hours and minutes. */
module DurationText {
  import opened Text

  /** JavaScript `a % b` for a positive `b`: the remainder of the division
      truncated toward zero, so it takes the sign of `a`. */
  function JsRem(a: int, b: int): (r: int)
    requires b > 0
    ensures a >= 0 ==> 0 <= r < b
    ensures a < 0 ==> -b < r <= 0
  {
    if a >= 0 then a % b else -((-a) % b)
  }

  /** `Math.floor(duration / 60) % 60` */
  function Minutes(d: real): int {
    JsRem((d / 60.0).Floor, 60)
  }

  /** `Math.floor(duration / 3600)` */
  function Hours(d: real): int {
    (d / 3600.0).Floor
  }

  /** `${hours}h ${minutes}m` */
  function ParseDuration(d: real): string {
    IntToDecimal(Hours(d)) + "h " + IntToDecimal(Minutes(d)) + "m"
  }

  /** The minutes lie in 0..59 for a non-negative duration, and in -59..0 for
      a negative one. */
  lemma MinutesRange(d: real)
    ensures d >= 0.0 ==> 0 <= Minutes(d) < 60
    ensures d < 0.0 ==> -60 < Minutes(d) <= 0
  {
    var m := (d / 60.0).Floor;
    if d >= 0.0 {
      assert m >= 0;
    } else {
      assert (m as real) <= d / 60.0 < 0.0;
    }
  }

  /** For a non-negative duration the hours and minutes together are the
      whole minutes of the duration. */
  lemma HoursAndMinutes(d: real)
    requires d >= 0.0
    ensures Hours(d) * 60 + Minutes(d) == (d / 60.0).Floor
  {
    var m := (d / 60.0).Floor;
    assert m >= 0;
    var q := m / 60;
    assert m == q * 60 + m % 60;
    assert (q as real) * 60.0 <= m as real <= d / 60.0;
    assert d / 60.0 < (m + 1) as real <= ((q + 1) * 60) as real;
    assert (q as real) <= d / 3600.0 < (q + 1) as real;
    assert Hours(d) == q;
  }

  /** For a non-negative duration the text is the decimal hours, "h ", one or
      two decimal digits of minutes and "m" (each reads back as its number by
      `NatToDecimalReadsBack`). */
  lemma ParseDurationText(d: real)
    requires d >= 0.0
    ensures Hours(d) >= 0 && 0 <= Minutes(d) < 60
    ensures ParseDuration(d) == NatToDecimal(Hours(d)) + "h " + NatToDecimal(Minutes(d)) + "m"
    ensures 1 <= |NatToDecimal(Minutes(d))| <= 2
  {
    MinutesRange(d);
    assert Hours(d) >= 0 by {
      assert d / 3600.0 >= 0.0;
    }
    NatToDecimalReadsBack(Hours(d));
    NatToDecimalReadsBack(Minutes(d));
    var m := Minutes(d);
    if m >= 10 {
      assert NatToDecimal(m) == NatToDecimal(m / 10) + [DigitChar(m % 10)];
      assert m / 10 < 10;
    }
  }
}
