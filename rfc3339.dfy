/**
 * Timestamps as the store writes and reads them: the `date-time` form of
 * section 5.6 of RFC 3339 (`2024-05-01T12:34:56.789+00:00`), read back into
 * nanoseconds since 1970-01-01T00:00:00Z on the proleptic Gregorian
 * calendar, and written the way `to_rfc3339` writes an instant in UTC.
 */
module Rfc3339 {
  import opened Wrappers
  import Floats

  /** Why a timestamp did not parse, named after the parser's error kinds. */
  datatype ParseError = OutOfRange | Invalid | TooShort | TooLong

  function ErrorMessage(e: ParseError): string
  {
    match e
    case OutOfRange => "input is out of range"
    case Invalid => "input contains invalid characters"
    case TooShort => "premature end of input"
    case TooLong => "trailing input"
  }

  const NANOS_PER_SECOND: nat := 1_000_000_000

  predicate IsDigit(c: char)
  {
    '0' <= c <= '9'
  }

  function DigitValue(c: char): nat
    requires IsDigit(c)
  {
    (c as int - '0' as int) as nat
  }

  /** The value of a run of decimal digits, most significant first. */
  function DigitsValue(d: string): (v: nat)
    requires forall i :: 0 <= i < |d| ==> IsDigit(d[i])
    ensures v < Floats.Pow10(|d|)
  {
    if d == [] then 0
    else 10 * DigitsValue(d[..|d| - 1]) + DigitValue(d[|d| - 1])
  }

  /** The first problem among the `n` characters from `i`: one missing, or one that is not a digit. */
  function ScanDigits(s: string, i: nat, n: nat): (r: Option<ParseError>)
    requires i <= |s|
    ensures r.None? <==> i + n <= |s| && forall k :: i <= k < i + n ==> IsDigit(s[k])
    decreases n
  {
    if n == 0 then None
    else if i >= |s| then Some(TooShort)
    else if !IsDigit(s[i]) then Some(Invalid)
    else ScanDigits(s, i + 1, n - 1)
  }

  /** Exactly `n` digits at `i`. */
  function Fixed(s: string, i: nat, n: nat): (r: Result<nat, ParseError>)
    requires i <= |s|
    ensures r.Ok? <==> i + n <= |s| && forall k :: i <= k < i + n ==> IsDigit(s[k])
    ensures r.Ok? ==> r.value < Floats.Pow10(n)
  {
    match ScanDigits(s, i, n)
    case Some(e) => Err(e)
    case None => Ok(DigitsValue(s[i..i + n]))
  }

  /** One of `allowed` at `i`. */
  function Expect(s: string, i: nat, allowed: set<char>): (r: Result<char, ParseError>)
    ensures r.Ok? <==> i < |s| && s[i] in allowed
    ensures r.Ok? ==> r.value == s[i]
  {
    if i >= |s| then Err(TooShort)
    else if s[i] in allowed then Ok(s[i])
    else Err(Invalid)
  }

  /** A value that must lie in `[lo, hi]`. */
  function InRange(v: nat, lo: nat, hi: nat): (r: Result<nat, ParseError>)
    ensures r.Ok? <==> lo <= v <= hi
    ensures r.Ok? ==> r.value == v
  {
    if lo <= v <= hi then Ok(v) else Err(OutOfRange)
  }

  /** Number of digits starting at `i`. */
  function DigitRun(s: string, i: nat): (n: nat)
    ensures i + n <= |s| || n == 0
    ensures forall k :: i <= k < i + n ==> IsDigit(s[k])
    ensures i + n < |s| ==> !IsDigit(s[i + n])
    decreases |s| - i
  {
    if i < |s| && IsDigit(s[i]) then 1 + DigitRun(s, i + 1) else 0
  }

  /** A fraction of a second, read to nanoseconds: digits past the ninth are dropped. */
  function FractionNanos(d: string): (ns: nat)
    requires forall i :: 0 <= i < |d| ==> IsDigit(d[i])
    ensures ns < NANOS_PER_SECOND
  {
    var kept := if |d| < 9 then |d| else 9;
    FractionBound(DigitsValue(d[..kept]), kept);
    DigitsValue(d[..kept]) * Floats.Pow10(9 - kept)
  }

  lemma {:induction false} FractionBound(v: nat, kept: nat)
    requires kept <= 9 && v < Floats.Pow10(kept)
    ensures v * Floats.Pow10(9 - kept) < NANOS_PER_SECOND
  {
    PowAdd(kept, 9 - kept);
    var scale := Floats.Pow10(9 - kept);
    MulMonotone(v + 1, Floats.Pow10(kept), scale);
    assert (v + 1) * scale == v * scale + scale;
  }

  lemma {:induction false} MulMonotone(a: nat, b: nat, c: nat)
    requires a <= b
    ensures a * c <= b * c
  {
  }

  lemma {:induction false} PowAdd(a: nat, b: nat)
    ensures Floats.Pow10(a) * Floats.Pow10(b) == Floats.Pow10(a + b)
  {
    if a > 0 {
      PowAdd(a - 1, b);
    }
  }

  /** The fields of a `date-time`, with the offset in seconds east of UTC. */
  datatype DateTime = DateTime(year: nat, month: nat, day: nat, hour: nat, minute: nat, second: nat,
                               nanos: nat, offsetSeconds: int)

  predicate IsLeapYear(y: int)
  {
    y % 4 == 0 && (y % 100 != 0 || y % 400 == 0)
  }

  function DaysInYear(y: int): nat
  {
    if IsLeapYear(y) then 366 else 365
  }

  function DaysInMonth(y: int, m: nat): (n: nat)
    ensures 28 <= n <= 31
  {
    if m == 2 then (if IsLeapYear(y) then 29 else 28)
    else if m == 4 || m == 6 || m == 9 || m == 11 then 30
    else 31
  }

  /** Days of the months before month `m` of year `y`. */
  function DaysBeforeMonth(y: int, m: nat): (n: nat)
    requires 1 <= m <= 13
    decreases m
  {
    if m == 1 then 0 else DaysBeforeMonth(y, m - 1) + DaysInMonth(y, m - 1)
  }

  /** Days from 1970-01-01 to January 1st of `y`, negative before 1970. */
  function DaysToYear(y: int): int
    decreases if y < 1970 then 1970 - y else y - 1970
  {
    if y == 1970 then 0
    else if y > 1970 then DaysToYear(y - 1) + DaysInYear(y - 1)
    else DaysToYear(y + 1) - DaysInYear(y)
  }

  /** Days from 1970-01-01 to the given date. */
  function EpochDay(y: int, m: nat, d: nat): int
    requires 1 <= m <= 12
  {
    DaysToYear(y) + DaysBeforeMonth(y, m) + d - 1
  }

  predicate ValidDate(y: int, m: nat, d: nat)
  {
    1 <= m <= 12 && 1 <= d <= DaysInMonth(y, m)
  }

  /** A date-time whose fields are all within the ranges the parser admits. */
  predicate Valid(t: DateTime)
  {
    t.year <= 9999 && ValidDate(t.year, t.month, t.day) && t.hour <= 23 && t.minute <= 59 && t.second <= 59
    && t.nanos < NANOS_PER_SECOND && -86400 < t.offsetSeconds < 86400
  }

  /** The instant a valid date-time denotes, in nanoseconds since the epoch. */
  function Instant(t: DateTime): int
    requires Valid(t)
  {
    var seconds := EpochDay(t.year, t.month, t.day) * 86400 + t.hour * 3600 + t.minute * 60 + t.second
                   - t.offsetSeconds;
    seconds * NANOS_PER_SECOND + t.nanos
  }

  /** The optional fraction at `i`: its nanoseconds and the position after it. */
  function Fraction(s: string, i: nat): (r: Result<(nat, nat), ParseError>)
    ensures r.Ok? ==> i <= r.value.1 <= |s| || r.value.1 == i
    ensures r.Ok? ==> r.value.0 < NANOS_PER_SECOND
  {
    if i < |s| && s[i] == '.' then
      var n := DigitRun(s, i + 1);
      if n == 0 then (if i + 1 >= |s| then Err(TooShort) else Err(Invalid))
      else Ok((FractionNanos(s[i + 1..i + 1 + n]), i + 1 + n))
    else Ok((0, i))
  }

  /** The offset at `i`: `Z` or `z`, or a sign, two-digit hours, `:` and two-digit minutes. */
  function Offset(s: string, i: nat): (r: Result<(int, nat), ParseError>)
    ensures r.Ok? ==> -86400 < r.value.0 < 86400 && r.value.1 <= |s|
  {
    var sign :- Expect(s, i, {'Z', 'z', '+', '-'});
    if sign == 'Z' || sign == 'z' then Ok((0, i + 1))
    else
      var hh :- Fixed(s, i + 1, 2);
      var hours :- InRange(hh, 0, 23);
      var _ :- Expect(s, i + 3, {':'});
      var mm :- Fixed(s, i + 4, 2);
      var minutes :- InRange(mm, 0, 59);
      var magnitude := hours * 3600 + minutes * 60;
      Ok((if sign == '-' then -magnitude else magnitude, i + 6))
  }

  /** `full-date`: `YYYY-MM-DD`, with month and day range-checked as they are read. */
  function ParseDate(s: string): (r: Result<(nat, nat, nat), ParseError>)
    ensures r.Ok? ==> 10 <= |s| && r.value.0 <= 9999 && 1 <= r.value.1 <= 12 && 1 <= r.value.2 <= 31
  {
    var year :- Fixed(s, 0, 4);
    var _ :- Expect(s, 4, {'-'});
    var mo :- Fixed(s, 5, 2);
    var month :- InRange(mo, 1, 12);
    var _ :- Expect(s, 7, {'-'});
    var dd :- Fixed(s, 8, 2);
    var day :- InRange(dd, 1, 31);
    Ok((year, month, day))
  }

  /** `partial-time` without the fraction: `hh:mm:ss` from position 11. */
  function ParseTime(s: string): (r: Result<(nat, nat, nat), ParseError>)
    requires 11 <= |s|
    ensures r.Ok? ==> 19 <= |s| && r.value.0 <= 23 && r.value.1 <= 59 && r.value.2 <= 59
  {
    var hh :- Fixed(s, 11, 2);
    var hour :- InRange(hh, 0, 23);
    var _ :- Expect(s, 13, {':'});
    var mi :- Fixed(s, 14, 2);
    var minute :- InRange(mi, 0, 59);
    var _ :- Expect(s, 16, {':'});
    var ss :- Fixed(s, 17, 2);
    var second :- InRange(ss, 0, 59);
    Ok((hour, minute, second))
  }

  /** The fields of a `date-time`, checking each one as it is read. */
  function ParseFields(s: string): (r: Result<DateTime, ParseError>)
    ensures r.Ok? ==> FieldsInRange(r.value)
  {
    var date :- ParseDate(s);
    var _ :- Expect(s, 10, {'T', 't'});
    var time :- ParseTime(s);
    var fraction :- Fraction(s, 19);
    var offset :- Offset(s, fraction.1);
    if offset.1 < |s| then Err(TooLong)
    else Ok(DateTime(date.0, date.1, date.2, time.0, time.1, time.2, fraction.0, offset.0))
  }

  predicate FieldsInRange(t: DateTime)
  {
    t.year <= 9999 && 1 <= t.month <= 12 && 1 <= t.day <= 31 && t.hour <= 23 && t.minute <= 59
    && t.second <= 59 && t.nanos < NANOS_PER_SECOND && -86400 < t.offsetSeconds < 86400
  }

  /**
   * `s.parse::<DateTime<Utc>>()`: the instant `s` denotes, or why it is not
   * a `date-time`; a day past the end of its month is out of range.
   */
  function Parse(s: string): (r: Result<int, ParseError>)
    ensures r.Ok? <==> ParseFields(s).Ok? && Valid(ParseFields(s).value)
    ensures r.Ok? ==> r.value == Instant(ParseFields(s).value)
  {
    var t :- ParseFields(s);
    if t.day > DaysInMonth(t.year, t.month) then Err(OutOfRange)
    else Ok(Instant(t))
  }

  /** `x` in exactly `n` decimal digits, with leading zeros. */
  function Pad(x: nat, n: nat): (r: string)
    requires x < Floats.Pow10(n)
    ensures |r| == n
    ensures forall i :: 0 <= i < |r| ==> IsDigit(r[i])
  {
    if n == 0 then ""
    else Pad(x / 10, n - 1) + [('0' as int + x % 10) as char]
  }

  lemma {:induction false} PadValue(x: nat, n: nat)
    requires x < Floats.Pow10(n)
    ensures DigitsValue(Pad(x, n)) == x
  {
    if n > 0 {
      PadValue(x / 10, n - 1);
      var r := Pad(x, n);
      assert r[..|r| - 1] == Pad(x / 10, n - 1);
    }
  }

  /** How `to_rfc3339` writes the fraction: none, or 3, 6 or 9 digits, whichever is exact. */
  function FractionText(nanos: nat): string
    requires nanos < NANOS_PER_SECOND
  {
    if nanos == 0 then ""
    else if nanos % 1_000_000 == 0 then "." + Pad(nanos / 1_000_000, 3)
    else if nanos % 1000 == 0 then "." + Pad(nanos / 1000, 6)
    else "." + Pad(nanos, 9)
  }

  /** `to_rfc3339` of an instant in UTC, given its fields. */
  function Format(t: DateTime): string
    requires Valid(t)
  {
    DateText(t) + "T" + TimeText(t) + FractionText(t.nanos) + "+00:00"
  }

  /** `YYYY-MM-DD`. */
  function DateText(t: DateTime): string
    requires Valid(t)
  {
    Pad(t.year, 4) + "-" + Pad(t.month, 2) + "-" + Pad(t.day, 2)
  }

  /** `hh:mm:ss`. */
  function TimeText(t: DateTime): string
    requires Valid(t)
  {
    Pad(t.hour, 2) + ":" + Pad(t.minute, 2) + ":" + Pad(t.second, 2)
  }

  /** Reading back `n` digits written by `Pad`. */
  lemma {:induction false} FixedOfPad(s: string, i: nat, x: nat, n: nat)
    requires x < Floats.Pow10(n) && i + n <= |s| && s[i..i + n] == Pad(x, n)
    ensures Fixed(s, i, n) == Ok(x)
  {
    forall k | i <= k < i + n ensures IsDigit(s[k]) {
      assert s[k] == Pad(x, n)[k - i];
    }
    PadValue(x, n);
  }

  /** The digit run after the point stops where the written digits stop. */
  lemma {:induction false} RunOfPad(s: string, i: nat, x: nat, n: nat)
    requires x < Floats.Pow10(n) && i + n < |s| && s[i..i + n] == Pad(x, n) && !IsDigit(s[i + n])
    ensures DigitRun(s, i) == n
  {
  }

  /** A point followed by `n` written digits reads back as `x` scaled to nanoseconds. */
  lemma {:induction false} FractionOfDigits(s: string, x: nat, n: nat)
    requires 1 <= n <= 9 && x < Floats.Pow10(n)
    requires 20 + n < |s| && s[19] == '.' && s[20..20 + n] == Pad(x, n) && !IsDigit(s[20 + n])
    ensures Fraction(s, 19) == Ok((x * Floats.Pow10(9 - n), 20 + n))
  {
    RunOfPad(s, 20, x, n);
    PadValue(x, n);
    assert s[20..20 + n][..n] == Pad(x, n);
  }

  lemma {:induction false} FractionOfText(s: string, nanos: nat)
    requires nanos < NANOS_PER_SECOND
    requires 19 + |FractionText(nanos)| < |s| && s[19..19 + |FractionText(nanos)|] == FractionText(nanos)
    requires s[19 + |FractionText(nanos)|] == '+'
    ensures Fraction(s, 19) == Ok((nanos, 19 + |FractionText(nanos)|))
  {
    var f := FractionText(nanos);
    if nanos != 0 {
      var x, n := FractionShape(nanos);
      assert s[19] == f[0];
      assert s[20..20 + n] == f[1..];
      FractionOfDigits(s, x, n);
    }
  }

  /** A non-zero fraction is written as a point and `n` digits of `x`, with `x` scaled up being the nanoseconds. */
  lemma {:induction false} FractionShape(nanos: nat) returns (x: nat, n: nat)
    requires 0 < nanos < NANOS_PER_SECOND
    ensures 1 <= n <= 9 && x < Floats.Pow10(n)
    ensures FractionText(nanos) == "." + Pad(x, n)
    ensures x * Floats.Pow10(9 - n) == nanos
  {
    assert Floats.Pow10(3) == 1000;
    assert Floats.Pow10(6) == 1_000_000;
    assert Floats.Pow10(9) == NANOS_PER_SECOND;
    if nanos % 1_000_000 == 0 {
      x, n := nanos / 1_000_000, 3;
    } else if nanos % 1000 == 0 {
      x, n := nanos / 1000, 6;
    } else {
      x, n := nanos, 9;
      assert Floats.Pow10(0) == 1;
    }
  }

  lemma {:induction false} DateFields(t: DateTime, s: string)
    requires Valid(t) && |s| >= 10 && s[..10] == DateText(t)
    ensures ParseDate(s) == Ok((t.year, t.month, t.day))
  {
    assert Floats.Pow10(4) == 10000 && Floats.Pow10(2) == 100;
    var d := DateText(t);
    assert d[..4] == Pad(t.year, 4) && d[4] == '-' && d[5..7] == Pad(t.month, 2) && d[7] == '-';
    assert d[8..10] == Pad(t.day, 2);
    assert s[..10][5..7] == s[5..7];
    FixedOfPad(s, 0, t.year, 4);
    FixedOfPad(s, 5, t.month, 2);
    FixedOfPad(s, 8, t.day, 2);
  }

  lemma {:induction false} SliceOfSlice(s: string, i: nat, j: nat, a: nat, b: nat)
    requires i <= j <= |s| && a <= b <= j - i
    ensures s[i..j][a..b] == s[i + a..i + b]
  {
    assert forall k :: 0 <= k < b - a ==> s[i..j][a..b][k] == s[i + a..i + b][k];
  }

  /** Where `TimeText` puts its three fields and two separators. */
  lemma {:induction false} TimeTextLayout(t: DateTime)
    requires Valid(t)
    ensures var h := TimeText(t);
            |h| == 8 && h[..2] == Pad(t.hour, 2) && h[2] == ':' && h[3..5] == Pad(t.minute, 2) && h[5] == ':'
            && h[6..8] == Pad(t.second, 2)
  {
    var a, b, c := Pad(t.hour, 2), Pad(t.minute, 2), Pad(t.second, 2);
    var h := a + ":" + b + ":" + c;
    assert h[..2] == a;
    assert h[3..5] == b;
    assert h[6..8] == c;
  }

  lemma {:induction false} TimeFields(t: DateTime, s: string)
    requires Valid(t) && |s| >= 19 && s[11..19] == TimeText(t)
    ensures ParseTime(s) == Ok((t.hour, t.minute, t.second))
  {
    assert Floats.Pow10(2) == 100;
    var h := TimeText(t);
    TimeTextLayout(t);
    SliceOfSlice(s, 11, 19, 0, 2);
    SliceOfSlice(s, 11, 19, 3, 5);
    SliceOfSlice(s, 11, 19, 6, 8);
    assert s[13] == h[2] && s[16] == h[5];
    FixedOfPad(s, 11, t.hour, 2);
    FixedOfPad(s, 14, t.minute, 2);
    FixedOfPad(s, 17, t.second, 2);
  }

  lemma {:induction false} UtcOffset(s: string, j: nat)
    requires j + 6 == |s| && s[j..] == "+00:00"
    ensures Offset(s, j).Ok? && Offset(s, j).value == (0, j + 6)
  {
    assert Floats.Pow10(2) == 100;
    assert s[j] == '+' && s[j + 3] == ':';
    assert s[j + 1..j + 3] == Pad(0, 2) && s[j + 4..j + 6] == Pad(0, 2);
    FixedOfPad(s, j + 1, 0, 2);
    FixedOfPad(s, j + 4, 0, 2);
  }

  /** What `Format` writes is read back field for field. */
  lemma {:induction false} ParseFieldsOfFormat(t: DateTime)
    requires Valid(t) && t.offsetSeconds == 0
    ensures ParseFields(Format(t)) == Ok(t)
  {
    var s := Format(t);
    var f := FractionText(t.nanos);
    var j := 19 + |f|;
    assert s[..10] == DateText(t) && s[10] == 'T' && s[11..19] == TimeText(t);
    assert s[19..j] == f && s[j..] == "+00:00";
    DateFields(t, s);
    TimeFields(t, s);
    FractionOfText(s, t.nanos);
    UtcOffset(s, j);
  }

  /** Every timestamp `to_rfc3339` writes in UTC parses back to the instant it denotes. */
  lemma {:induction false} ParseOfFormat(t: DateTime)
    requires Valid(t) && t.offsetSeconds == 0
    ensures Parse(Format(t)) == Ok(Instant(t))
  {
    ParseFieldsOfFormat(t);
  }

  /** A year holds the days of its twelve months. */
  lemma {:induction false} YearOfMonths(y: int)
    ensures DaysBeforeMonth(y, 13) == DaysInYear(y)
  {
    var feb := DaysInMonth(y, 2);
    assert DaysBeforeMonth(y, 3) == 31 + feb;
    assert DaysBeforeMonth(y, 5) == 92 + feb;
    assert DaysBeforeMonth(y, 7) == 153 + feb;
    assert DaysBeforeMonth(y, 9) == 215 + feb;
    assert DaysBeforeMonth(y, 11) == 276 + feb;
  }

  lemma {:induction false} DaysToYearStep(y: int)
    ensures DaysToYear(y + 1) == DaysToYear(y) + DaysInYear(y)
  {
  }

  lemma {:induction false} MonthsIncrease(y: int, m1: nat, m2: nat)
    requires 1 <= m1 < m2 <= 13
    ensures DaysBeforeMonth(y, m1) + DaysInMonth(y, m1) <= DaysBeforeMonth(y, m2)
    decreases m2
  {
    if m1 + 1 < m2 {
      MonthsIncrease(y, m1, m2 - 1);
    }
  }

  lemma {:induction false} YearsIncrease(y1: int, y2: int)
    requires y1 < y2
    ensures DaysToYear(y1) + DaysInYear(y1) <= DaysToYear(y2)
    decreases y2 - y1
  {
    DaysToYearStep(y2 - 1);
    if y1 + 1 < y2 {
      YearsIncrease(y1, y2 - 1);
    }
  }

  /** Calendar order, field by field. */
  predicate DateBefore(y1: int, m1: nat, d1: nat, y2: int, m2: nat, d2: nat)
  {
    y1 < y2 || (y1 == y2 && (m1 < m2 || (m1 == m2 && d1 < d2)))
  }

  /** A later date has a larger day number. */
  lemma {:induction false} EpochDayIncreasing(y1: int, m1: nat, d1: nat, y2: int, m2: nat, d2: nat)
    requires ValidDate(y1, m1, d1) && ValidDate(y2, m2, d2) && DateBefore(y1, m1, d1, y2, m2, d2)
    ensures EpochDay(y1, m1, d1) < EpochDay(y2, m2, d2)
  {
    if y1 < y2 {
      MonthsIncrease(y1, m1, 13);
      YearOfMonths(y1);
      YearsIncrease(y1, y2);
    } else if m1 < m2 {
      MonthsIncrease(y1, m1, m2);
    }
  }

  /** Order of the written fields: date first, then time of day, then the fraction. */
  predicate Before(t1: DateTime, t2: DateTime)
  {
    DateBefore(t1.year, t1.month, t1.day, t2.year, t2.month, t2.day)
    || ((t1.year, t1.month, t1.day) == (t2.year, t2.month, t2.day)
        && (t1.hour, t1.minute, t1.second, t1.nanos) != (t2.hour, t2.minute, t2.second, t2.nanos)
        && TimeBefore(t1, t2))
  }

  predicate TimeBefore(t1: DateTime, t2: DateTime)
  {
    t1.hour < t2.hour || (t1.hour == t2.hour && (t1.minute < t2.minute || (t1.minute == t2.minute
      && (t1.second < t2.second || (t1.second == t2.second && t1.nanos < t2.nanos)))))
  }

  /** Nanoseconds since midnight. */
  function TimeOfDay(t: DateTime): (n: nat)
    requires Valid(t)
    ensures n < 86400 * NANOS_PER_SECOND
  {
    (t.hour * 3600 + t.minute * 60 + t.second) * NANOS_PER_SECOND + t.nanos
  }

  lemma {:induction false} InstantSplit(t: DateTime)
    requires Valid(t)
    ensures Instant(t) == (EpochDay(t.year, t.month, t.day) * 86400 - t.offsetSeconds) * NANOS_PER_SECOND
                          + TimeOfDay(t)
  {
  }

  /**
   * Among UTC timestamps, one whose fields come first denotes the earlier
   * instant, so ages computed from them keep the order of the dates.
   */
  lemma {:induction false} InstantIncreasing(t1: DateTime, t2: DateTime)
    requires Valid(t1) && Valid(t2) && t1.offsetSeconds == 0 && t2.offsetSeconds == 0 && Before(t1, t2)
    ensures Instant(t1) < Instant(t2)
  {
    InstantSplit(t1);
    InstantSplit(t2);
    var e1, e2 := EpochDay(t1.year, t1.month, t1.day), EpochDay(t2.year, t2.month, t2.day);
    if DateBefore(t1.year, t1.month, t1.day, t2.year, t2.month, t2.day) {
      EpochDayIncreasing(t1.year, t1.month, t1.day, t2.year, t2.month, t2.day);
      assert (e1 + 1) * 86400 * NANOS_PER_SECOND <= e2 * 86400 * NANOS_PER_SECOND;
    }
  }
}
