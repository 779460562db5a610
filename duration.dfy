/**
 * The "D days HH:MM" text that a seconds column becomes in `convert_units`
 * (src/strava_dash/utils.py:223-228): the seconds are read as a pandas
 * Timedelta and printed from its days, hours and minutes components.
 * Timedelta components follow floor division, which is what Dafny's `/` and
 * `%` do for a positive divisor, so negative durations are covered as well.
 */
module Duration {
  import opened Wrappers

  const SecondsPerDay := 86400
  const SecondsPerHour := 3600
  const SecondsPerMinute := 60

  /** The days, hours and minutes components of a duration of `s` seconds. */
  datatype Parts = Parts(days: int, hours: int, minutes: int)

  function Components(s: int): (p: Parts)
    ensures 0 <= p.hours < 24 && 0 <= p.minutes < 60
    ensures p.days * SecondsPerDay + p.hours * SecondsPerHour + p.minutes * SecondsPerMinute == s - s % SecondsPerMinute
    ensures s >= 0 ==> p.days >= 0
  {
    var days := s / SecondsPerDay;
    var inDay := s % SecondsPerDay;
    var hours := inDay / SecondsPerHour;
    var inHour := s % SecondsPerHour;
    ComponentsSplit(s, days, inDay, hours, inHour);
    Parts(days, hours, inHour / SecondsPerMinute)
  }

  /** The arithmetic behind `Components`, one division at a time. */
  lemma {:induction false} ComponentsSplit(s: int, days: int, inDay: int, hours: int, inHour: int)
    requires days == s / 86400 && inDay == s % 86400
    requires hours == inDay / 3600 && inHour == s % 3600
    ensures 0 <= hours < 24 && 0 <= inHour < 3600
    ensures days * 86400 + hours * 3600 + (inHour / 60) * 60 == s - s % 60
  {
    var h := days * 24 + hours;
    assert s == days * 86400 + inDay;
    assert inDay == hours * 3600 + inDay % 3600;
    assert s == h * 3600 + inDay % 3600;
    SplitBy3600(s, h, inDay % 3600);
    var m := h * 60 + inHour / 60;
    assert inHour == (inHour / 60) * 60 + inHour % 60;
    assert s == m * 60 + inHour % 60;
    SplitBy60(s, m, inHour % 60);
  }

  lemma {:induction false} SplitBy3600(s: int, q: int, r: int)
    requires 0 <= r < 3600 && s == q * 3600 + r
    ensures s % 3600 == r
  {
  }

  lemma {:induction false} SplitBy60(s: int, q: int, r: int)
    requires 0 <= r < 60 && s == q * 60 + r
    ensures s % 60 == r
  {
  }

  function DigitChar(d: int): char
    requires 0 <= d < 10
  {
    ('0' as int + d) as char
  }

  predicate IsDigit(c: char) { '0' <= c <= '9' }

  predicate AllDigits(s: string) { forall i :: 0 <= i < |s| ==> IsDigit(s[i]) }

  /** Decimal text of a natural number, without leading zeros. */
  function Digits(n: nat): (s: string)
    decreases n
  {
    if n < 10 then [DigitChar(n)] else Digits(n / 10) + [DigitChar(n % 10)]
  }

  /** Python's `f"{n}"` for an integer. */
  function IntText(n: int): string
  {
    if n < 0 then "-" + Digits(-n) else Digits(n)
  }

  /** Python's `f"{n:02}"` for 0 <= n < 100. */
  function Pad2(n: int): (s: string)
    requires 0 <= n < 100
    ensures |s| == 2 && AllDigits(s)
  {
    [DigitChar(n / 10), DigitChar(n % 10)]
  }

  /** `f"{days} days {hours:02}:{minutes:02}"` of the components of `s` seconds. */
  function Format(s: int): (t: string)
  {
    var p := Components(s);
    IntText(p.days) + " days " + Pad2(p.hours) + ":" + Pad2(p.minutes)
  }

  // ---------------------------------------------------------------------
  // Reading the text back: the partner of Format.

  /** The value of a decimal digit string, read from the right. */
  function DigitsValue(s: string): nat
    requires AllDigits(s)
  {
    if s == [] then 0 else DigitsValue(s[..|s| - 1]) * 10 + (s[|s| - 1] as int - '0' as int)
  }

  function ParseNat(s: string): Option<nat>
  {
    if s != [] && AllDigits(s) then Some(DigitsValue(s)) else None
  }

  function ParseInt(s: string): Option<int>
  {
    if s != [] && s[0] == '-' then
      match ParseNat(s[1..])
      case Some(n) => Some(-(n as int))
      case None => None
    else ParseNat(s)
  }

  /** Reads "D days HH:MM" back as a number of seconds. */
  function Parse(t: string): Option<int>
  {
    if |t| < 11 then None
    else
      var n := |t|;
      if t[n - 11..n - 5] != " days " || t[n - 3] != ':' then None
      else
        match (ParseInt(t[..n - 11]), ParseNat(t[n - 5..n - 3]), ParseNat(t[n - 2..]))
        case (Some(d), Some(h), Some(m)) =>
          Some(d * SecondsPerDay + h * SecondsPerHour + m * SecondsPerMinute)
        case _ => None
  }

  /** The decimal text reads back as the number, and only zero is written with a leading '0'. */
  lemma {:induction false} DigitsRoundTrip(n: nat)
    ensures Digits(n) != [] && AllDigits(Digits(n))
    ensures DigitsValue(Digits(n)) == n
    ensures Digits(n)[0] == '0' ==> n == 0
    decreases n
  {
    if n >= 10 {
      DigitsRoundTrip(n / 10);
      var s := Digits(n);
      assert s[..|s| - 1] == Digits(n / 10);
      assert s[0] == Digits(n / 10)[0];
    }
  }

  lemma {:induction false} IntTextRoundTrip(n: int)
    ensures ParseInt(IntText(n)) == Some(n)
  {
    if n < 0 {
      DigitsRoundTrip(-n);
      assert IntText(n)[1..] == Digits(-n);
    } else {
      DigitsRoundTrip(n);
      assert Digits(n)[0] != '-';
    }
  }

  lemma {:induction false} Pad2RoundTrip(n: int)
    requires 0 <= n < 100
    ensures ParseNat(Pad2(n)) == Some(n)
  {
    var s := Pad2(n);
    assert s[..1] == [DigitChar(n / 10)];
    assert s[..1][..0] == [];
    assert DigitsValue(s[..1]) == n / 10;
    assert DigitsValue(s) == (n / 10) * 10 + n % 10;
  }

  /**
   * Formatting keeps the days, hours and minutes and drops only the
   * leftover seconds: reading the text back gives `s` rounded down to a
   * whole minute.
   */
  lemma {:induction false} FormatRoundTrip(s: int)
    ensures Parse(Format(s)) == Some(s - s % SecondsPerMinute)
  {
    var p := Components(s);
    var d := IntText(p.days);
    var t := Format(s);
    var n := |t|;
    assert t == d + " days " + Pad2(p.hours) + ":" + Pad2(p.minutes);
    assert n == |d| + 11;
    assert t[..n - 11] == d;
    assert t[n - 11..n - 5] == " days ";
    assert t[n - 5..n - 3] == Pad2(p.hours);
    assert t[n - 2..] == Pad2(p.minutes);
    IntTextRoundTrip(p.days);
    Pad2RoundTrip(p.hours);
    Pad2RoundTrip(p.minutes);
  }

  /**
   * The hour and minute fields are always two digits wide; the days field
   * is the plain, unpadded text of the day count.
   */
  lemma {:induction false} FormatShape(s: int)
    ensures |Format(s)| >= 12
    ensures var t := Format(s); t[..|t| - 11] == IntText(Components(s).days)
    ensures Format(s)[|Format(s)| - 3] == ':'
    ensures AllDigits(Format(s)[|Format(s)| - 5..|Format(s)| - 3]) && AllDigits(Format(s)[|Format(s)| - 2..])
  {
    var p := Components(s);
    DigitsRoundTrip(if p.days < 0 then -p.days else p.days);
    var t := Format(s);
    var n := |t|;
    assert t[..n - 11] == IntText(p.days);
    assert t[n - 5..n - 3] == Pad2(p.hours);
    assert t[n - 2..] == Pad2(p.minutes);
  }
}
