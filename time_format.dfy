/** The countdown text logNextNBuses writes in place of timeToStation:
    `${Math.floor(t / 60)} min: ${Math.floor(t % 60)}s`. */
module TimeFormat {
  import opened Options
  import opened Text
  import opened Decimal

  const SecondsPerMinute := 60

  const MinSeparator := " min: "

  /** `Math.floor(t / 60)`: the whole minutes in `t` seconds, rounded down
      also for a negative `t`. */
  function Minutes(t: int): (m: int)
    ensures m * SecondsPerMinute <= t < m * SecondsPerMinute + SecondsPerMinute
  {
    t / SecondsPerMinute
  }

  /** `Math.floor(t % 60)`. JavaScript's `%` truncates the quotient toward
      zero, so the remainder takes the sign of `t`; it is already an integer.
      The range, the sign and `t - r` being a multiple of 60 fix it. */
  function Seconds(t: int): (r: int)
    ensures -SecondsPerMinute < r < SecondsPerMinute
    ensures t >= 0 ==> r >= 0
    ensures t < 0 ==> r <= 0
    ensures (t - r) % SecondsPerMinute == 0
  {
    if t >= 0 then t % SecondsPerMinute
    else
      var q := (-t) / SecondsPerMinute;
      assert -t == SecondsPerMinute * q + (-t) % SecondsPerMinute;
      -((-t) % SecondsPerMinute)
  }

  /** The text written for a countdown of `t` seconds. */
  function FormatTime(t: int): string
  {
    IntToString(Minutes(t)) + (MinSeparator + (IntToString(Seconds(t)) + "s"))
  }

  /** For a countdown that has not passed, minutes and seconds split it exactly. */
  lemma MinutesSecondsSplit(t: int)
    requires t >= 0
    ensures Minutes(t) >= 0 && 0 <= Seconds(t) < SecondsPerMinute
    ensures Minutes(t) * SecondsPerMinute + Seconds(t) == t
  {
  }

  /** Reads back a countdown text: canonical minutes, " min: ", canonical
      seconds below 60, "s". */
  function ParseTime(s: string): Option<int>
  {
    ParseAfterMinutes(Span(s, IsDigit))
  }

  /** The countdown in minutes text `minsSplit.0` followed by `minsSplit.1`. */
  function ParseAfterMinutes(minsSplit: (string, string)): Option<int>
  {
    match StripPrefix(minsSplit.1, MinSeparator)
    case None => None
    case Some(secsText) => ParseMinutesSeconds(minsSplit.0, Span(secsText, IsDigit))
  }

  /** The countdown in minutes text `mins`, seconds text `secsSplit.0` and
      trailer `secsSplit.1`, if they are well formed. */
  function ParseMinutesSeconds(mins: string, secsSplit: (string, string)): Option<int>
  {
    var secs := secsSplit.0;
    if Canonical(mins) && Canonical(secs) && secsSplit.1 == "s" && DigitsValue(secs) < SecondsPerMinute then
      Some(DigitsValue(mins) * SecondsPerMinute + DigitsValue(secs))
    else None
  }

  /** For a countdown that has not passed both parts are written without sign. */
  lemma NonNegativeParts(t: int)
    requires t >= 0
    ensures IntToString(Minutes(t)) == NatToString(Minutes(t))
    ensures IntToString(Seconds(t)) == NatToString(Seconds(t))
  {
  }

  /** Minutes and seconds below 60 recombine to a countdown that splits back into them. */
  lemma SplitOfMinutesSeconds(m: nat, sec: nat)
    requires sec < SecondsPerMinute
    ensures Minutes(m * SecondsPerMinute + sec) == m && Seconds(m * SecondsPerMinute + sec) == sec
  {
  }

  /** ParseTime, step by step: the digits, the separator, the digits, "s". */
  lemma ParseTimeOfSplits(s: string, mins: string, rest: string, secsText: string, secs: string)
    requires Span(s, IsDigit) == (mins, rest)
    requires StripPrefix(rest, MinSeparator) == Some(secsText)
    requires Span(secsText, IsDigit) == (secs, "s")
    requires Canonical(mins) && Canonical(secs) && DigitsValue(secs) < SecondsPerMinute
    ensures ParseTime(s) == Some(DigitsValue(mins) * SecondsPerMinute + DigitsValue(secs))
  {
  }

  /** What ParseTime reads from canonical minutes and seconds texts. */
  lemma ParseTimeOfParts(mins: string, secs: string)
    requires Canonical(mins) && Canonical(secs) && DigitsValue(secs) < SecondsPerMinute
    ensures ParseTime(mins + (MinSeparator + (secs + "s")))
         == Some(DigitsValue(mins) * SecondsPerMinute + DigitsValue(secs))
  {
    var secsText := secs + "s";
    var rest := MinSeparator + secsText;
    assert rest[0] == ' ';
    SpanOf(mins, rest, IsDigit);
    StripPrefixIff(rest, MinSeparator, secsText);
    SpanOf(secs, "s", IsDigit);
    ParseTimeOfSplits(mins + rest, mins, rest, secsText, secs);
  }

  /** Every countdown that has not passed is read back from its text. */
  lemma ParseFormatTime(t: int)
    requires t >= 0
    ensures ParseTime(FormatTime(t)) == Some(t)
  {
    MinutesSecondsSplit(t);
    NonNegativeParts(t);
    NatToStringDenotes(Minutes(t));
    NatToStringDenotes(Seconds(t));
    ParseTimeOfParts(NatToString(Minutes(t)), NatToString(Seconds(t)));
  }

  /** A text ParseTime accepts is made of canonical minutes, the separator,
      canonical seconds below 60 and "s", and reads as their total. */
  lemma PartsOfParsedTime(s: string, t: int) returns (mins: string, secs: string)
    requires ParseTime(s) == Some(t)
    ensures Canonical(mins) && Canonical(secs) && DigitsValue(secs) < SecondsPerMinute
    ensures s == mins + (MinSeparator + (secs + "s"))
    ensures t == DigitsValue(mins) * SecondsPerMinute + DigitsValue(secs)
  {
    var rest;
    mins, rest := Span(s, IsDigit).0, Span(s, IsDigit).1;
    var secsText := StripPrefix(rest, MinSeparator).value;
    StripPrefixIff(rest, MinSeparator, secsText);
    secs := Span(secsText, IsDigit).0;
  }

  /** Every text ParseTime accepts is the text of the countdown it reads, so
      the format is unambiguous. */
  lemma FormatParsedTime(s: string, t: int)
    requires ParseTime(s) == Some(t)
    ensures t >= 0 && FormatTime(t) == s
  {
    var mins, secs := PartsOfParsedTime(s, t);
    var m, sec := DigitsValue(mins), DigitsValue(secs);
    SplitOfMinutesSeconds(m, sec);
    assert Minutes(t) == m && Seconds(t) == sec;
    NatToStringOfValue(mins);
    NatToStringOfValue(secs);
    NonNegativeParts(t);
  }

  /** The worked example: 125 seconds reads "2 min: 5s". */
  lemma FormatTimeExample()
    ensures FormatTime(125) == "2 min: 5s"
  {
  }

  /** A bus that is due now reads "0 min: 0s". */
  lemma FormatZeroTimeExample()
    ensures FormatTime(0) == "0 min: 0s"
  {
  }

  /** A negative countdown keeps JavaScript's mixed rounding: minutes round
      down, seconds keep the sign, so -5 reads "-1 min: -5s". */
  lemma FormatNegativeTimeExample()
    ensures FormatTime(-5) == "-1 min: -5s"
  {
  }
}
