/** `Format::ElapsedTime`: a count of seconds as "HH:MM:SS", each field
    written by `std::setw(2)` with '0' as the fill character. */
module Format {
  import opened Results
  import opened Text
  import opened CppInt

  /** `std::setw(2) << std::setfill('0') << n`: the decimal form of `n`,
      left-padded with '0' to at least two characters. The width is a
      minimum, so nothing is ever cut off. */
  function Pad2(n: int): (s: string)
    ensures |s| >= 2
    ensures n >= 0 ==> AllDigits(s) && DigitsValue(s) == n
    ensures 0 <= n < 100 ==> |s| == 2
    ensures n >= 100 ==> s == NatToString(n) && |s| >= 3
  {
    NatToStringLength(if n < 0 then -n else n);
    var d := IntToString(n);
    if |d| < 2 then
      DigitsValueLeadingZero(d);
      "0" + d
    else d
  }

  /** The display of three fields: each padded to two characters, then
      joined by ':'. */
  function Clock(h: int, m: int, s: int): (t: string) {
    Pad2(h) + ":" + Pad2(m) + ":" + Pad2(s)
  }

  /** Hours of two or more digits, then minutes and seconds of two digits
      each and below 60, separated by ':'. Every display `ElapsedTime` gives
      a non-negative count has this shape; the shape also admits hours with
      extra leading zeros (`000:00:00`), which `ElapsedTime` never prints. */
  predicate ElapsedForm(t: string) {
    |t| >= 8 && t[|t| - 3] == ':' && t[|t| - 6] == ':' &&
    AllDigits(t[..|t| - 6]) && AllDigits(t[|t| - 5..|t| - 3]) && AllDigits(t[|t| - 2..]) &&
    DigitsValue(t[|t| - 5..|t| - 3]) < 60 && DigitsValue(t[|t| - 2..]) < 60
  }

  /** Fields in range are displayed in `ElapsedForm` and can be read back
      from it; the display is 8 characters exactly when the hours fit in two
      digits. */
  lemma ClockFields(h: nat, m: nat, s: nat)
    requires m < 60 && s < 60
    ensures var t := Clock(h, m, s);
            ElapsedForm(t) &&
            DigitsValue(t[..|t| - 6]) == h && DigitsValue(t[|t| - 5..|t| - 3]) == m && DigitsValue(t[|t| - 2..]) == s
    ensures |Clock(h, m, s)| == 8 <==> h < 100
    ensures ParseElapsed(Clock(h, m, s)) == Some(h * 3600 + m * 60 + s)
  {
    JoinedFields(Pad2(h), Pad2(m), Pad2(s));
    ParseOfFields(Clock(h, m, s), h, m, s);
  }

  /** Three fields joined by ':' are found again at their places. */
  lemma JoinedFields(a: string, b: string, c: string)
    requires |a| >= 2 && |b| == 2 && |c| == 2
    ensures var t := a + ":" + b + ":" + c;
            |t| == |a| + 6 && t[|t| - 6] == ':' && t[|t| - 3] == ':' &&
            t[..|t| - 6] == a && t[|t| - 5..|t| - 3] == b && t[|t| - 2..] == c
  {
  }

  /** The source's `Format::ElapsedTime`, with C++ `/` and `%` on `long`. */
  function ElapsedTime(seconds: int): (t: string)
    ensures seconds >= 0 ==> (|t| == 8 <==> seconds < 360000)
  {
    var hours := Quot(seconds, 3600);
    var minutes := Quot(Rem(seconds, 3600), 60);
    var secs := Rem(seconds, 60);
    if seconds >= 0 then
      SecondsSplit(seconds);
      ClockFields(hours, minutes, secs);
      Clock(hours, minutes, secs)
    else Clock(hours, minutes, secs)
  }

  /** On a non-negative count the C++ operators give the whole hours, the
      whole minutes left over and the seconds left over. */
  lemma SecondsSplit(seconds: nat)
    ensures Quot(seconds, 3600) == seconds / 3600
    ensures Quot(Rem(seconds, 3600), 60) == (seconds % 3600) / 60 < 60
    ensures Rem(seconds, 60) == seconds % 60
    ensures seconds == (seconds / 3600) * 3600 + ((seconds % 3600) / 60) * 60 + seconds % 60
  {
    QuotRemOfNatural(seconds, 3600);
    var r := seconds % 3600;
    QuotRemOfNatural(r, 60);
    QuotRemOfNatural(seconds, 60);
    var h, m := seconds / 3600, r / 60;
    assert r == m * 60 + r % 60;
    DivisionUnique(seconds, 60, h * 60 + m, r % 60);
  }

  /** Reads a display back into a count of seconds; `None` for anything not
      of the form `ElapsedForm` describes. */
  function ParseElapsed(t: string): (r: Option<nat>)
    ensures r.Some? <==> ElapsedForm(t)
  {
    if !ElapsedForm(t) then None
    else Some(DigitsValue(t[..|t| - 6]) * 3600 + DigitsValue(t[|t| - 5..|t| - 3]) * 60 + DigitsValue(t[|t| - 2..]))
  }

  /** A parsed count has the display's fields as its whole hours, minutes left
      over and seconds left over. */
  lemma ParseElapsedFields(t: string)
    requires ElapsedForm(t)
    ensures var v := ParseElapsed(t).value;
            v / 3600 == DigitsValue(t[..|t| - 6]) &&
            (v % 3600) / 60 == DigitsValue(t[|t| - 5..|t| - 3]) &&
            v % 60 == DigitsValue(t[|t| - 2..])
  {
    var h, m, s := DigitsValue(t[..|t| - 6]), DigitsValue(t[|t| - 5..|t| - 3]), DigitsValue(t[|t| - 2..]);
    SplitSeconds(h * 3600 + m * 60 + s, h, m, s);
  }

  /** Hours, minutes below 60 and seconds below 60 are recovered from their
      total by Euclidean division. */
  lemma SplitSeconds(v: nat, h: nat, m: nat, s: nat)
    requires m < 60 && s < 60 && v == h * 3600 + m * 60 + s
    ensures v / 3600 == h && (v % 3600) / 60 == m && v % 60 == s
  {
    DivisionUnique(v, 3600, h, m * 60 + s);
    DivisionUnique(m * 60 + s, 60, m, s);
    DivisionUnique(v, 60, h * 60 + m, s);
  }

  /** The display of a count, given its three fields by C++ division. */
  lemma ElapsedTimeOfSplit(seconds: int, h: int, m: int, s: int)
    requires Quot(seconds, 3600) == h && Quot(Rem(seconds, 3600), 60) == m && Rem(seconds, 60) == s
    ensures ElapsedTime(seconds) == Clock(h, m, s)
  {
  }

  /** The three fields of a non-negative count are the whole hours,
      unbounded, and the minutes and seconds left over, each below 60. */
  lemma ElapsedTimeFields(seconds: nat, h: nat, m: nat, s: nat)
    requires m < 60 && s < 60 && seconds == h * 3600 + m * 60 + s
    ensures ElapsedTime(seconds) == Clock(h, m, s)
  {
    SplitSeconds(seconds, h, m, s);
    SecondsSplit(seconds);
    ElapsedTimeOfSplit(seconds, h, m, s);
  }

  lemma ParseOfFields(t: string, h: nat, m: nat, s: nat)
    requires ElapsedForm(t)
    requires DigitsValue(t[..|t| - 6]) == h && DigitsValue(t[|t| - 5..|t| - 3]) == m && DigitsValue(t[|t| - 2..]) == s
    ensures ParseElapsed(t) == Some(h * 3600 + m * 60 + s)
  {
  }

  /** Parsing the display of a non-negative count gives back the count. */
  lemma ParseElapsedTime(seconds: nat)
    ensures ParseElapsed(ElapsedTime(seconds)) == Some(seconds)
  {
    SecondsSplit(seconds);
    var h, m, s := seconds / 3600, (seconds % 3600) / 60, seconds % 60;
    ElapsedTimeFields(seconds, h, m, s);
    ClockFields(h, m, s);
  }

  /** Two non-negative counts with the same display are the same count. */
  lemma ElapsedTimeInjective(a: nat, b: nat)
    ensures a != b ==> ElapsedTime(a) != ElapsedTime(b)
  {
    ParseElapsedTime(a);
    ParseElapsedTime(b);
  }

  /** The one- and two-digit values the examples below display. */
  lemma SmallNumerals()
    ensures Pad2(0) == "00" && Pad2(1) == "01" && Pad2(25) == "25" && Pad2(-1) == "-1"
  {
    assert Digit(0) == '0' && Digit(1) == '1' && Digit(2) == '2' && Digit(5) == '5';
    assert NatToString(0) == "0" && NatToString(1) == "1" && NatToString(2) == "2";
    assert NatToString(25) == NatToString(2) + [Digit(5)];
    assert IntToString(-1) == "-" + NatToString(1);
  }

  /** The displays of the fields of the examples below. */
  lemma SmallClocks()
    ensures Clock(0, 0, 0) == "00:00:00" && Clock(1, 1, 1) == "01:01:01"
    ensures Clock(25, 0, 0) == "25:00:00" && Clock(0, -1, -1) == "00:-1:-1"
  {
    SmallNumerals();
  }

  /** The fields of the examples below, by C++ division. */
  lemma SmallSplits()
    ensures ElapsedTime(0) == Clock(0, 0, 0)
    ensures ElapsedTime(3661) == Clock(1, 1, 1)
    ensures ElapsedTime(90000) == Clock(25, 0, 0)
    ensures ElapsedTime(-61) == Clock(0, -1, -1)
  {
    ZeroSplit();
    HourMinuteSecondSplit();
    DayAndHourSplit();
    NegativeSplit();
  }

  lemma ZeroSplit()
    ensures ElapsedTime(0) == Clock(0, 0, 0)
  {
    QuotOfZero(3600);
    QuotOfZero(60);
    ElapsedTimeOfSplit(0, 0, 0, 0);
  }

  lemma HourMinuteSecondSplit()
    ensures ElapsedTime(3661) == Clock(1, 1, 1)
  {
    QuotOfMultiple(1, 61, 3600);
    QuotOfMultiple(1, 1, 60);
    QuotOfMultiple(61, 1, 60);
    ElapsedTimeOfSplit(3661, 1, 1, 1);
  }

  lemma DayAndHourSplit()
    ensures ElapsedTime(90000) == Clock(25, 0, 0)
  {
    QuotOfMultiple(25, 0, 3600);
    QuotOfZero(60);
    QuotOfMultiple(1500, 0, 60);
    ElapsedTimeOfSplit(90000, 25, 0, 0);
  }

  lemma NegativeSplit()
    ensures ElapsedTime(-61) == Clock(0, -1, -1)
  {
    assert Quot(-61, 3600) == 0 && Rem(-61, 3600) == -61;
    assert Quot(-61, 60) == -1 && Rem(-61, 60) == -1;
    ElapsedTimeOfSplit(-61, 0, -1, -1);
  }

  /** No time yet; an hour, a minute and a second; and a day and an hour, so
      hours are not wrapped at 24. */
  lemma ElapsedTimeExamples()
    ensures ElapsedTime(0) == "00:00:00"
    ensures ElapsedTime(3661) == "01:01:01"
    ensures ElapsedTime(90000) == "25:00:00"
  {
    SmallSplits();
    SmallClocks();
  }

  /** A negative count, which `long` admits: C++ truncation gives every field
      the sign of the count, so the display is not a time of day. */
  lemma ElapsedTimeOfNegative()
    ensures ElapsedTime(-61) == "00:-1:-1"
  {
    SmallSplits();
    SmallClocks();
  }
}
