/** The dashboard's duration formatters (dashboard/web_utils.py). */
module WebUtils {
  import opened Wrappers
  import opened Text
  import opened Numerals

  datatype Clock = Clock(hours: nat, minutes: nat, seconds: nat)

  predicate IsSplitOf(c: Clock, total: int) {
    c.minutes < 60 && c.seconds < 60 && c.hours * 3600 + c.minutes * 60 + c.seconds == total
  }

  /** Whole hours, the minutes left over, the seconds left over. */
  function Breakdown(total: nat): (c: Clock)
    ensures IsSplitOf(c, total)
  {
    Clock(total / 3600, (total % 3600) / 60, total % 60)
  }

  /** There is exactly one such split of a duration. */
  lemma BreakdownUnique(total: nat, c: Clock)
    requires IsSplitOf(c, total)
    ensures c == Breakdown(total)
  {
    assert 0 <= c.minutes * 60 + c.seconds < 3600;
    assert c.hours == total / 3600;
    assert c.minutes == (total % 3600) / 60;
  }

  /** `f"{n:02}"`: at least two digits, zero-filled on the left. */
  function Pad2(n: nat): (r: string)
    ensures |r| >= 2 && AllDigits(r) && DigitsValue(r) == n
    ensures n >= 10 ==> r == NatToDecimal(n)
  {
    if n < 10 then
      LeadingZero(NatToDecimal(n));
      "0" + NatToDecimal(n)
    else NatToDecimal(n)
  }

  /** `convert_seconds_to_human_readable`: `HH:MM:SS`, and `00:00:00` below zero. */
  function ToClock(seconds: int): string
  {
    if seconds < 0 then "00:00:00"
    else
      var hours := seconds / 3600;
      var minutes := (seconds % 3600) / 60;
      var rest := seconds % 60;
      Pad2(hours) + ":" + Pad2(minutes) + ":" + Pad2(rest)
  }

  /** The clock text spells out the split of the duration, field by field. */
  lemma ClockFields(seconds: int, c: Clock)
    requires seconds >= 0 && IsSplitOf(c, seconds)
    ensures ToClock(seconds) == Pad2(c.hours) + ":" + Pad2(c.minutes) + ":" + Pad2(c.seconds)
  {
    BreakdownUnique(seconds, c);
  }

  /** `convert_seconds_to_human_readable_extended`: unpadded words, `00:00:00` up to zero. */
  function ToWords(seconds: int): string
  {
    if seconds <= 0 then "00:00:00"
    else
      var hours := seconds / 3600;
      var minutes := (seconds % 3600) / 60;
      var rest := seconds % 60;
      NatToDecimal(hours) + " hours, " + NatToDecimal(minutes) + " minutes, "
        + NatToDecimal(rest) + " seconds"
  }

  /** The worded form names the split's fields with no zero padding. */
  lemma WordsFields(seconds: int, c: Clock)
    requires seconds > 0 && IsSplitOf(c, seconds)
    ensures ToWords(seconds) == NatToDecimal(c.hours) + " hours, " + NatToDecimal(c.minutes)
      + " minutes, " + NatToDecimal(c.seconds) + " seconds"
    ensures ToWords(seconds) != ToClock(seconds)
  {
    BreakdownUnique(seconds, c);
    var w := ToWords(seconds);
    var a := NatToDecimal(c.hours);
    assert w[|a|] == ' ';
    ClockFields(seconds, c);
    var p := Pad2(c.hours);
    var t := ToClock(seconds);
    assert t[|a|] == (if |a| < |p| then p[|a|] else ':');
    assert w[|a|] != t[|a|];
  }

  /**
   * Reads a clock text back: three colon-separated digit fields, recombined
   * as hours, minutes and seconds.
   */
  function ParseClock(t: string): Option<int>
  {
    ParseFields(Split(t, ":"))
  }

  function ParseFields(parts: seq<string>): Option<int>
  {
    if |parts| == 3 && parts[0] != [] && parts[1] != [] && parts[2] != []
       && AllDigits(parts[0]) && AllDigits(parts[1]) && AllDigits(parts[2])
    then Some(DigitsValue(parts[0]) * 3600 + DigitsValue(parts[1]) * 60 + DigitsValue(parts[2]))
    else None
  }

  lemma ParseDigitFields(h: string, m: string, s: string)
    requires h != [] && m != [] && s != [] && AllDigits(h) && AllDigits(m) && AllDigits(s)
    ensures ParseFields([h, m, s]) == Some(DigitsValue(h) * 3600 + DigitsValue(m) * 60 + DigitsValue(s))
  {
    var parts := [h, m, s];
    assert parts[0] == h && parts[1] == m && parts[2] == s;
  }

  lemma NoColonInDigits(s: string)
    requires AllDigits(s)
    ensures ':' !in s
  {
    forall i | 0 <= i < |s| ensures s[i] != ':' {
      assert IsDigit(s[i]);
    }
  }

  lemma FieldsRoundTrip(c: Clock)
    ensures ParseClock(Pad2(c.hours) + ":" + Pad2(c.minutes) + ":" + Pad2(c.seconds))
      == Some(c.hours * 3600 + c.minutes * 60 + c.seconds)
  {
    var h, m, s := Pad2(c.hours), Pad2(c.minutes), Pad2(c.seconds);
    NoColonInDigits(h);
    NoColonInDigits(m);
    NoColonInDigits(s);
    SplitThree(h, m, s);
    ParseDigitFields(h, m, s);
  }

  lemma SplitThree(h: string, m: string, s: string)
    requires ':' !in h && ':' !in m && ':' !in s
    ensures Split(h + ":" + m + ":" + s, ":") == [h, m, s]
  {
    var t := h + ":" + m + ":" + s;
    assert t == h + [':'] + (m + [':'] + s);
    SplitFirst(h, ':', m + [':'] + s);
    SplitFirst(m, ':', s);
    SplitAbsent(s, ':');
  }

  /** Splitting the clock text on `:` and recombining the fields gives the duration back. */
  lemma ClockRoundTrip(seconds: int)
    requires seconds >= 0
    ensures ParseClock(ToClock(seconds)) == Some(seconds)
  {
    var c := Breakdown(seconds);
    ClockFields(seconds, c);
    FieldsRoundTrip(c);
  }

  /** The zero clock is printed for exactly the durations up to zero. */
  lemma ClockZeroExactly(seconds: int)
    ensures ToClock(seconds) == "00:00:00" <==> seconds <= 0
  {
    assert NatToDecimal(0) == "0";
    assert Pad2(0) == "00";
    assert ToClock(0) == "00:00:00";
    if seconds > 0 {
      ClockRoundTrip(seconds);
      ClockRoundTrip(0);
      assert ToClock(seconds) != ToClock(0);
    }
  }

  /** The worded form also prints the zero clock for exactly the durations up to zero. */
  lemma WordsZeroExactly(seconds: int)
    ensures ToWords(seconds) == "00:00:00" <==> seconds <= 0
  {
    if seconds > 0 {
      assert |ToWords(seconds)| >= 29;
    }
  }
}
