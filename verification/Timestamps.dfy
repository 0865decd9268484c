/** The two text formats in which the queue stores and compares instants.

    `Queue` binds timestamps as text and lets SQLite compare them as text. The clock is
    truncated to seconds and printed with a `+00:00` suffix; a retry time keeps its
    microseconds and is printed without a suffix. This module renders both formats from
    the calendar, and shows that comparing the texts is comparing the instants.
 */
module Timestamps {
  import opened Wrappers

  const MICROS_PER_SECOND := 1_000_000
  const MICROS_PER_DAY := 86_400 * MICROS_PER_SECOND
  /** Days from 0001-01-01 to 9999-12-31, the range of Python's `datetime`. */
  const MAX_DAYS := 3_652_059
  const MAX_INSTANT := MAX_DAYS * MICROS_PER_DAY

  /** Microseconds since 0001-01-01 00:00:00 UTC. */
  type Instant = i: int | 0 <= i < MAX_INSTANT

  /** Whole seconds since 0001-01-01. */
  function Seconds(i: Instant): (s: int)
    ensures 0 <= s < MAX_DAYS * 86_400
    ensures s * MICROS_PER_SECOND <= i < (s + 1) * MICROS_PER_SECOND
  {
    i / MICROS_PER_SECOND
  }

  /** `replace(microsecond=0)`: the start of the second. */
  function Truncate(i: Instant): (r: Instant)
    ensures r <= i < r + MICROS_PER_SECOND
    ensures Seconds(r) == Seconds(i)
  {
    Seconds(i) * MICROS_PER_SECOND
  }

  // ---------------------------------------------------------------- the calendar

  predicate Leap(y: int) {
    y % 4 == 0 && (y % 100 != 0 || y % 400 == 0)
  }

  function DaysInMonth(y: int, m: int): int {
    if m == 2 then (if Leap(y) then 29 else 28)
    else if m == 4 || m == 6 || m == 9 || m == 11 then 30
    else 31
  }

  function DaysBeforeMonth(y: int, m: int): int
    requires 1 <= m <= 13
    decreases m
  {
    if m == 1 then 0 else DaysBeforeMonth(y, m - 1) + DaysInMonth(y, m - 1)
  }

  function DaysInYear(y: int): int {
    if Leap(y) then 366 else 365
  }

  function DaysBeforeYear(y: int): int {
    365 * (y - 1) + (y - 1) / 4 - (y - 1) / 100 + (y - 1) / 400
  }

  datatype DateTime = DateTime(year: int, month: int, day: int,
                               hour: int, minute: int, second: int, micro: int)

  predicate ValidDateTime(d: DateTime) {
    && 1 <= d.year <= 9999
    && 1 <= d.month <= 12
    && 1 <= d.day <= DaysInMonth(d.year, d.month)
    && 0 <= d.hour < 24
    && 0 <= d.minute < 60
    && 0 <= d.second < 60
    && 0 <= d.micro < MICROS_PER_SECOND
  }

  /** Days since 0001-01-01. */
  function DayNumber(d: DateTime): int
    requires ValidDateTime(d)
  {
    DaysBeforeYear(d.year) + DaysBeforeMonth(d.year, d.month) + d.day - 1
  }

  function SecondOfDay(d: DateTime): int {
    d.hour * 3600 + d.minute * 60 + d.second
  }

  function ToSeconds(d: DateTime): int
    requires ValidDateTime(d)
  {
    DayNumber(d) * 86_400 + SecondOfDay(d)
  }

  /** The days before each month, as an almanac lists them. */
  lemma MonthTable(y: int, m: int)
    requires 1 <= m <= 13
    ensures DaysBeforeMonth(y, m) == [0, 31, 59, 90, 120, 151, 181, 212, 243, 273, 304, 334, 365][m - 1]
                                     + if m > 2 && DaysInYear(y) == 366 then 1 else 0
  {
    if m > 1 {
      MonthTable(y, m - 1);
    }
  }

  lemma YearStep(y: int)
    requires 1 <= y
    ensures DaysBeforeYear(y + 1) == DaysBeforeYear(y) + DaysInYear(y)
  {
    Fours(y);
    Hundreds(y);
    FourHundreds(y);
    HundredsAreFours(y);
    FourHundredsAreHundreds(y);
  }

  lemma Fours(y: int)
    requires 1 <= y
    ensures y / 4 == (y - 1) / 4 + if y % 4 == 0 then 1 else 0
  {
  }

  lemma Hundreds(y: int)
    requires 1 <= y
    ensures y / 100 == (y - 1) / 100 + if y % 100 == 0 then 1 else 0
  {
    var q, r := y / 100, y % 100;
    assert y - 1 == if r == 0 then 100 * (q - 1) + 99 else 100 * q + (r - 1);
  }

  lemma FourHundreds(y: int)
    requires 1 <= y
    ensures y / 400 == (y - 1) / 400 + if y % 400 == 0 then 1 else 0
  {
    var q, r := y / 400, y % 400;
    assert y - 1 == if r == 0 then 400 * (q - 1) + 399 else 400 * q + (r - 1);
  }

  lemma HundredsAreFours(y: int)
    ensures y % 100 == 0 ==> y % 4 == 0
  {
    if y % 100 == 0 {
      assert y == 4 * (25 * (y / 100));
    }
  }

  lemma FourHundredsAreHundreds(y: int)
    ensures y % 400 == 0 ==> y % 100 == 0
  {
    if y % 400 == 0 {
      assert y == 100 * (4 * (y / 400));
    }
  }

  lemma {:induction false} YearsGrow(y: int, z: int)
    requires 1 <= y < z
    ensures DaysBeforeYear(y) + DaysInYear(y) <= DaysBeforeYear(z)
    decreases z - y
  {
    YearStep(y);
    if y + 1 < z {
      YearsGrow(y + 1, z);
    }
  }

  lemma {:induction false} MonthsGrow(y: int, m: int, k: int)
    requires 1 <= m < k <= 13
    ensures DaysBeforeMonth(y, m) + DaysInMonth(y, m) <= DaysBeforeMonth(y, k)
    decreases k - m
  {
    if m + 1 < k {
      MonthsGrow(y, m + 1, k);
    }
  }

  lemma MonthsFillYear(y: int)
    ensures DaysBeforeMonth(y, 13) == DaysInYear(y)
  {
  }

  /** The order in which a reader compares two dates: field by field. */
  predicate DateBefore(a: DateTime, b: DateTime) {
    || a.year < b.year
    || (a.year == b.year && a.month < b.month)
    || (a.year == b.year && a.month == b.month && a.day < b.day)
  }

  predicate ClockBefore(a: DateTime, b: DateTime) {
    || a.hour < b.hour
    || (a.hour == b.hour && a.minute < b.minute)
    || (a.hour == b.hour && a.minute == b.minute && a.second < b.second)
  }

  predicate SameDate(a: DateTime, b: DateTime) {
    a.year == b.year && a.month == b.month && a.day == b.day
  }

  predicate SameClock(a: DateTime, b: DateTime) {
    a.hour == b.hour && a.minute == b.minute && a.second == b.second
  }

  lemma DateOrder(a: DateTime, b: DateTime)
    requires ValidDateTime(a) && ValidDateTime(b)
    requires DateBefore(a, b)
    ensures DayNumber(a) < DayNumber(b)
  {
    MonthsFillYear(a.year);
    MonthsGrow(a.year, a.month, 13);
    if a.year < b.year {
      YearsGrow(a.year, b.year);
      MonthStartsAfterZero(b.year, b.month);
    } else if a.month < b.month {
      MonthsGrow(a.year, a.month, b.month);
    }
  }

  lemma {:induction false} MonthStartsAfterZero(y: int, m: int)
    requires 1 <= m <= 13
    ensures 0 <= DaysBeforeMonth(y, m)
    decreases m
  {
  }

  lemma ClockOrder(a: DateTime, b: DateTime)
    requires ValidDateTime(a) && ValidDateTime(b)
    ensures ClockBefore(a, b) <==> SecondOfDay(a) < SecondOfDay(b)
    ensures SameClock(a, b) <==> SecondOfDay(a) == SecondOfDay(b)
    ensures 0 <= SecondOfDay(a) < 86_400
  {
  }

  // ------------------------------------------------- from an instant to the calendar

  function YearOf(day: int, y: int): (r: int)
    requires 1 <= y <= 9999 && DaysBeforeYear(y) <= day < MAX_DAYS
    ensures y <= r <= 9999
    ensures DaysBeforeYear(r) <= day < DaysBeforeYear(r) + DaysInYear(r)
    decreases 9999 - y
  {
    YearStep(y);
    if day < DaysBeforeYear(y + 1) then y else YearOf(day, y + 1)
  }

  function MonthOf(day: int, y: int, m: int): (r: int)
    requires 1 <= m <= 12 && DaysBeforeMonth(y, m) <= day < DaysInYear(y)
    ensures m <= r <= 12
    ensures DaysBeforeMonth(y, r) <= day < DaysBeforeMonth(y, r) + DaysInMonth(y, r)
    decreases 12 - m
  {
    MonthsFillYear(y);
    if day < DaysBeforeMonth(y, m + 1) then m else MonthOf(day, y, m + 1)
  }

  function FromInstant(i: Instant): (d: DateTime)
    ensures ValidDateTime(d)
    ensures ToSeconds(d) == Seconds(i)
    ensures d.micro == i - Truncate(i)
  {
    var day, s := Seconds(i) / 86_400, Seconds(i) % 86_400;
    var y := YearOf(day, 1);
    var m := MonthOf(day - DaysBeforeYear(y), y, 1);
    DateTime(y, m, day - DaysBeforeYear(y) - DaysBeforeMonth(y, m) + 1,
             s / 3600, s % 3600 / 60, s % 60, i - Truncate(i))
  }

  /** Dates with a time of day are ordered as their fields are, most significant first. */
  lemma SecondsOrder(a: DateTime, b: DateTime)
    requires ValidDateTime(a) && ValidDateTime(b)
    ensures ToSeconds(a) < ToSeconds(b) <==> DateBefore(a, b) || (SameDate(a, b) && ClockBefore(a, b))
    ensures ToSeconds(a) == ToSeconds(b) <==> SameDate(a, b) && SameClock(a, b)
  {
    ClockOrder(a, b);
    ClockOrder(b, a);
    if DateBefore(a, b) {
      DateOrder(a, b);
    } else if DateBefore(b, a) {
      DateOrder(b, a);
    } else {
      assert SameDate(a, b);
    }
  }

  // ---------------------------------------------------------------- text

  /** SQLite's BINARY collation: compare character by character, a prefix sorts first. */
  predicate TextLess(a: string, b: string)
    decreases |a|
  {
    if b == "" then false
    else if a == "" then true
    else a[0] < b[0] || (a[0] == b[0] && TextLess(a[1..], b[1..]))
  }

  predicate TextLeq(a: string, b: string) {
    a == b || TextLess(a, b)
  }

  function Digit(n: int): (c: char)
    requires 0 <= n < 10
    ensures '0' <= c <= '9' && c as int == '0' as int + n
  {
    (('0' as int) + n) as char
  }

  function Power10(w: nat): (p: int)
    ensures p >= 1
  {
    if w == 0 then 1 else 10 * Power10(w - 1)
  }

  /** Decimal digits, zero-padded to a fixed width. */
  function Pad(n: int, w: nat): (s: string)
    requires 0 <= n < Power10(w)
    ensures |s| == w
    decreases w
  {
    if w == 0 then "" else Pad(n / 10, w - 1) + [Digit(n % 10)]
  }

  /** Equal-length prefixes decide the order unless they are equal. */
  lemma {:induction false} LessByPrefix(a: string, b: string, x: string, y: string)
    requires |a| == |b|
    ensures TextLess(a + x, b + y) <==> TextLess(a, b) || (a == b && TextLess(x, y))
    decreases |a|
  {
    if a == "" {
      assert a + x == x && b + y == y;
    } else {
      assert (a + x)[1..] == a[1..] + x && (b + y)[1..] == b[1..] + y;
      LessByPrefix(a[1..], b[1..], x, y);
      assert a == [a[0]] + a[1..] && b == [b[0]] + b[1..];
    }
  }

  /** Padded numbers of one width sort as numbers. */
  lemma {:induction false} PadOrder(n: int, m: int, w: nat)
    requires 0 <= n < Power10(w) && 0 <= m < Power10(w)
    ensures TextLess(Pad(n, w), Pad(m, w)) <==> n < m
    ensures Pad(n, w) == Pad(m, w) <==> n == m
    decreases w
  {
    if w > 0 {
      PadOrder(n / 10, m / 10, w - 1);
      var p, q := Pad(n / 10, w - 1), Pad(m / 10, w - 1);
      var x, y := [Digit(n % 10)], [Digit(m % 10)];
      LessByPrefix(p, q, x, y);
      assert TextLess(x, y) <==> n % 10 < m % 10 by { assert x[1..] == "" && y[1..] == ""; }
      assert p + x == q + y ==> p == q && x == y by {
        assert (p + x)[..w - 1] == p && (q + y)[..w - 1] == q;
        assert (p + x)[w - 1] == x[0] && (q + y)[w - 1] == y[0];
      }
    }
  }

  lemma PowersOfTen()
    ensures Power10(2) == 100 && Power10(4) == 10_000 && Power10(6) == 1_000_000
  {
  }

  function DateText(d: DateTime): (s: string)
    requires ValidDateTime(d)
    ensures |s| == 10
  {
    PowersOfTen();
    Pad(d.year, 4) + "-" + Pad(d.month, 2) + "-" + Pad(d.day, 2)
  }

  function ClockText(d: DateTime): (s: string)
    requires ValidDateTime(d)
    ensures |s| == 8
  {
    PowersOfTen();
    Pad(d.hour, 2) + ":" + Pad(d.minute, 2) + ":" + Pad(d.second, 2)
  }

  /** `YYYY-MM-DD HH:MM:SS`, the part both formats share. */
  function SecondsText(d: DateTime): (s: string)
    requires ValidDateTime(d)
    ensures |s| == 19
  {
    DateText(d) + " " + ClockText(d)
  }

  function MicrosText(micro: int): string
    requires 0 <= micro < MICROS_PER_SECOND
  {
    PowersOfTen();
    if micro == 0 then "" else "." + Pad(micro, 6)
  }

  /** `_utcnow().isoformat(sep=" ")`: truncated to seconds, with the UTC offset. */
  function RenderClock(i: Instant): string {
    SecondsText(FromInstant(Truncate(i))) + "+00:00"
  }

  /** `isoformat(sep=" ")` of a naive datetime: microseconds only when there are any. */
  function RenderNaive(i: Instant): string {
    var d := FromInstant(i);
    SecondsText(d) + MicrosText(d.micro)
  }

  /** `YYYY-MM-DD HH:MM:SS+00:00`, digit for digit, and the same with a fraction if any. */
  predicate Shaped(s: string) {
    && |s| >= 19 && s[4] == s[7] == '-' && s[10] == ' ' && s[13] == s[16] == ':'
    && forall i | 0 <= i < 19 && i !in {4, 7, 10, 13, 16} :: '0' <= s[i] <= '9'
  }

  lemma WrittenShape(i: Instant)
    ensures Shaped(RenderClock(i)) && RenderClock(i)[19..] == "+00:00"
    ensures Shaped(RenderNaive(i)) && RenderNaive(i)[19..] == MicrosText(i - Truncate(i))
  {
    hide FromInstant, SecondsText, Truncate, MicrosText, Shaped;
    SecondsShaped(FromInstant(i));
    SecondsShaped(FromInstant(Truncate(i)));
    ShapedOn(SecondsText(FromInstant(i)), MicrosText(FromInstant(i).micro));
    ShapedOn(SecondsText(FromInstant(Truncate(i))), "+00:00");
  }

  lemma ShapedOn(s: string, tail: string)
    requires Shaped(s) && |s| == 19
    ensures Shaped(s + tail) && (s + tail)[19..] == tail
  {
  }

  /** A fraction has a point and six digits, and is left out when it is zero. */
  lemma FractionShape(micro: int)
    requires 0 < micro < MICROS_PER_SECOND
    ensures MicrosText(0) == "" && |MicrosText(micro)| == 7 && MicrosText(micro)[0] == '.'
    ensures forall i | 1 <= i < 7 :: '0' <= MicrosText(micro)[i] <= '9'
  {
    PowersOfTen();
    PadDigits(micro, 6);
    hide Pad;
  }

  lemma SecondsShaped(d: DateTime)
    requires ValidDateTime(d)
    ensures Shaped(SecondsText(d))
  {
    PowersOfTen();
    PadDigits(d.year, 4);
    PadDigits(d.month, 2);
    PadDigits(d.day, 2);
    PadDigits(d.hour, 2);
    PadDigits(d.minute, 2);
    PadDigits(d.second, 2);
    hide Pad;
    DateShaped(d);
    ClockShaped(d);
    assert SecondsText(d) == DateText(d) + " " + ClockText(d);
    hide DateText, ClockText;
  }

  lemma DateShaped(d: DateTime)
    requires ValidDateTime(d)
    ensures var s := DateText(d); s[4] == s[7] == '-' && forall i | 0 <= i < 10 && i !in {4, 7} :: '0' <= s[i] <= '9'
  {
    PowersOfTen();
    PadDigits(d.year, 4);
    PadDigits(d.month, 2);
    PadDigits(d.day, 2);
    hide Pad;
  }

  lemma ClockShaped(d: DateTime)
    requires ValidDateTime(d)
    ensures var s := ClockText(d); s[2] == s[5] == ':' && forall i | 0 <= i < 8 && i !in {2, 5} :: '0' <= s[i] <= '9'
  {
    PowersOfTen();
    PadDigits(d.hour, 2);
    PadDigits(d.minute, 2);
    PadDigits(d.second, 2);
    hide Pad;
  }

  lemma {:induction false} PadDigits(n: int, w: nat)
    requires 0 <= n < Power10(w)
    ensures forall i | 0 <= i < w :: '0' <= Pad(n, w)[i] <= '9'
    decreases w
  {
    if w > 0 {
      PadDigits(n / 10, w - 1);
    }
  }

  /** Two fields, the first of fixed width, joined by a separator sort field by field. */
  lemma TwoFields(a: string, x: string, b: string, y: string, sep: string)
    requires |a| == |b|
    ensures TextLess(a + sep + x, b + sep + y) <==> TextLess(a, b) || (a == b && TextLess(x, y))
    ensures a + sep + x == b + sep + y <==> a == b && x == y
  {
    assert a + sep + x == a + (sep + x) && b + sep + y == b + (sep + y);
    LessByPrefix(a, b, sep + x, sep + y);
    EqualByPrefix(a, b, sep + x, sep + y);
    LessByPrefix(sep, sep, x, y);
    EqualByPrefix(sep, sep, x, y);
    NotLessThanItself(sep);
  }

  lemma EqualByPrefix(a: string, b: string, x: string, y: string)
    requires |a| == |b|
    ensures a + x == b + y <==> a == b && x == y
  {
    if a + x == b + y {
      assert (a + x)[..|a|] == a && (b + y)[..|b|] == b;
      assert (a + x)[|a|..] == x && (b + y)[|b|..] == y;
    }
  }

  lemma {:induction false} NotLessThanItself(s: string)
    ensures !TextLess(s, s)
    decreases |s|
  {
    if s != "" {
      NotLessThanItself(s[1..]);
    }
  }

  lemma DateTextOrder(a: DateTime, b: DateTime)
    requires ValidDateTime(a) && ValidDateTime(b)
    ensures TextLess(DateText(a), DateText(b)) <==> DateBefore(a, b)
    ensures DateText(a) == DateText(b) <==> SameDate(a, b)
  {
    PowersOfTen();
    PadOrder(a.year, b.year, 4);
    PadOrder(a.month, b.month, 2);
    PadOrder(a.day, b.day, 2);
    TwoFields(Pad(a.year, 4), Pad(a.month, 2), Pad(b.year, 4), Pad(b.month, 2), "-");
    TwoFields(Pad(a.year, 4) + "-" + Pad(a.month, 2), Pad(a.day, 2),
              Pad(b.year, 4) + "-" + Pad(b.month, 2), Pad(b.day, 2), "-");
  }

  lemma ClockTextOrder(a: DateTime, b: DateTime)
    requires ValidDateTime(a) && ValidDateTime(b)
    ensures TextLess(ClockText(a), ClockText(b)) <==> ClockBefore(a, b)
    ensures ClockText(a) == ClockText(b) <==> SameClock(a, b)
  {
    PowersOfTen();
    PadOrder(a.hour, b.hour, 2);
    PadOrder(a.minute, b.minute, 2);
    PadOrder(a.second, b.second, 2);
    TwoFields(Pad(a.hour, 2), Pad(a.minute, 2), Pad(b.hour, 2), Pad(b.minute, 2), ":");
    TwoFields(Pad(a.hour, 2) + ":" + Pad(a.minute, 2), Pad(a.second, 2),
              Pad(b.hour, 2) + ":" + Pad(b.minute, 2), Pad(b.second, 2), ":");
  }

  /** The 19 characters both formats share sort as the seconds do. */
  lemma SecondsTextOrder(a: DateTime, b: DateTime)
    requires ValidDateTime(a) && ValidDateTime(b)
    ensures TextLess(SecondsText(a), SecondsText(b)) <==> ToSeconds(a) < ToSeconds(b)
    ensures SecondsText(a) == SecondsText(b) <==> ToSeconds(a) == ToSeconds(b)
  {
    SecondsOrder(a, b);
    DateTextOrder(a, b);
    ClockTextOrder(a, b);
    TwoFields(DateText(a), ClockText(a), DateText(b), ClockText(b), " ");
  }

  /** `next_attempt_at <= now` on text is exactly "the retry instant has passed",
      measured against the clock truncated to seconds. */
  lemma DueTextIsTimeOrder(next: Instant, now: Instant)
    ensures TextLeq(RenderNaive(next), RenderClock(now)) <==> next <= Truncate(now)
  {
    var n, c := FromInstant(next), FromInstant(Truncate(now));
    SecondsTextOrder(n, c);
    var micros, zone := MicrosText(n.micro), "+00:00";
    LessByPrefix(SecondsText(n), SecondsText(c), micros, zone);
    EqualByPrefix(SecondsText(n), SecondsText(c), micros, zone);
    assert TextLeq(micros, zone) <==> n.micro == 0;
  }

  /** Two stored clock readings compare as text exactly as they do in time, which is what
      `ORDER BY received_at` and `delivered_at < cutoff` rely on. */
  lemma ClockTextIsTimeOrder(i: Instant, j: Instant)
    ensures TextLess(RenderClock(i), RenderClock(j)) <==> Truncate(i) < Truncate(j)
    ensures RenderClock(i) == RenderClock(j) <==> Truncate(i) == Truncate(j)
  {
    var a, b := FromInstant(Truncate(i)), FromInstant(Truncate(j));
    SecondsTextOrder(a, b);
    LessByPrefix(SecondsText(a), SecondsText(b), "+00:00", "+00:00");
    EqualByPrefix(SecondsText(a), SecondsText(b), "+00:00", "+00:00");
    NotLessThanItself("+00:00");
  }

  // ---------------------------------------------------------------- reading back

  function ReadNumber(s: string): Option<int> {
    if s == "" then Some(0)
    else
      var c := s[|s| - 1];
      match ReadNumber(s[..|s| - 1])
      case None => None
      case Some(n) => if '0' <= c <= '9' then Some(10 * n + (c as int - '0' as int)) else None
  }

  /** What follows the seconds: nothing, the UTC offset, or six digits. */
  function ReadTail(tail: string): Option<int> {
    if tail == "" || tail == "+00:00" then Some(0)
    else if |tail| == 7 && tail[0] == '.' then ReadNumber(tail[1..])
    else None
  }

  function ReadDate(s: string): Option<(int, int, int)>
    requires |s| == 10
  {
    if s[4] != '-' || s[7] != '-' then None
    else
      match (ReadNumber(s[..4]), ReadNumber(s[5..7]), ReadNumber(s[8..]))
      case (Some(y), Some(m), Some(d)) => Some((y, m, d))
      case _ => None
  }

  function ReadClock(s: string): Option<(int, int, int)>
    requires |s| == 8
  {
    if s[2] != ':' || s[5] != ':' then None
    else
      match (ReadNumber(s[..2]), ReadNumber(s[3..5]), ReadNumber(s[6..]))
      case (Some(h), Some(m), Some(sec)) => Some((h, m, sec))
      case _ => None
  }

  function AtInstant(d: DateTime): Option<Instant> {
    if ValidDateTime(d) then
      SecondsInRange(d);
      Some(ToSeconds(d) * MICROS_PER_SECOND + d.micro)
    else None
  }

  /** `_parse_ts` restricted to the shapes the queue writes: 19 characters, then nothing,
      six digits of a second, or the UTC offset. A text without an offset is taken as UTC. */
  function ParseTimestamp(s: string): Option<Instant> {
    if |s| < 19 || s[10] != ' ' then None
    else
      match (ReadDate(s[..10]), ReadClock(s[11..19]), ReadTail(s[19..]))
      case (Some(d), Some(c), Some(u)) => AtInstant(DateTime(d.0, d.1, d.2, c.0, c.1, c.2, u))
      case _ => None
  }

  lemma SecondsInRange(d: DateTime)
    requires ValidDateTime(d)
    ensures 0 <= ToSeconds(d) < MAX_DAYS * 86_400
  {
    DayInRange(d);
    hide DayNumber;
    assert 0 <= SecondOfDay(d) < 86_400;
  }

  lemma DayInRange(d: DateTime)
    requires ValidDateTime(d)
    ensures 0 <= DayNumber(d) < MAX_DAYS
  {
    YearInRange(d.year);
    MonthsFillYear(d.year);
    MonthsGrow(d.year, d.month, 13);
    MonthStartsAfterZero(d.year, d.month);
    hide DaysBeforeYear, DaysInYear, DaysInMonth, DaysBeforeMonth;
  }

  lemma YearInRange(y: int)
    requires 1 <= y <= 9999
    ensures 0 <= DaysBeforeYear(y) && DaysBeforeYear(y) + DaysInYear(y) <= MAX_DAYS
  {
    YearsGrow(y, 10_000);
    if 1 < y {
      YearsGrow(1, y);
    }
    hide DaysInYear;
  }

  lemma {:induction false} ReadPad(n: int, w: nat)
    requires 0 <= n < Power10(w)
    ensures ReadNumber(Pad(n, w)) == Some(n)
    decreases w
  {
    if w > 0 {
      var s := Pad(n, w);
      assert s[..|s| - 1] == Pad(n / 10, w - 1);
      ReadPad(n / 10, w - 1);
    }
  }

  lemma ReadDateText(d: DateTime)
    requires ValidDateTime(d)
    ensures ReadDate(DateText(d)) == Some((d.year, d.month, d.day))
  {
    PowersOfTen();
    ReadPad(d.year, 4);
    ReadPad(d.month, 2);
    ReadPad(d.day, 2);
    var (y, m, day) := (Pad(d.year, 4), Pad(d.month, 2), Pad(d.day, 2));
    hide Pad, Power10, ReadNumber, DaysInMonth;
    ThreeFields(y, m, day, '-', 4, 2);
  }

  lemma ThreeFields(a: string, b: string, c: string, sep: char, i: nat, j: nat)
    requires |a| == i && |b| == j
    ensures var t := a + [sep] + b + [sep] + c;
            t[..i] == a && t[i + 1..i + 1 + j] == b && t[i + j + 2..] == c && t[i] == sep && t[i + 1 + j] == sep
  {
  }

  lemma ReadClockText(d: DateTime)
    requires ValidDateTime(d)
    ensures ReadClock(ClockText(d)) == Some((d.hour, d.minute, d.second))
  {
    PowersOfTen();
    ReadPad(d.hour, 2);
    ReadPad(d.minute, 2);
    ReadPad(d.second, 2);
    var (h, m, sec) := (Pad(d.hour, 2), Pad(d.minute, 2), Pad(d.second, 2));
    hide Pad, Power10, ReadNumber, DaysInMonth;
    ThreeFields(h, m, sec, ':', 2, 2);
  }

  /** Whatever tail follows the shared 19 characters, the fields before it read back. */
  lemma ParseSecondsText(d: DateTime, tail: string)
    requires ValidDateTime(d) && ReadTail(tail) == Some(d.micro)
    ensures ParseTimestamp(SecondsText(d) + tail) == AtInstant(d)
  {
    var s := SecondsText(d) + tail;
    assert s[..10] == DateText(d) && s[11..19] == ClockText(d) && s[19..] == tail;
    ReadDateText(d);
    ReadClockText(d);
  }

  lemma MicrosTextReads(micro: int)
    requires 0 <= micro < MICROS_PER_SECOND
    ensures ReadTail(MicrosText(micro)) == Some(micro)
  {
    PowersOfTen();
    if micro != 0 {
      ReadPad(micro, 6);
      assert MicrosText(micro)[1..] == Pad(micro, 6);
    }
  }

  lemma CalendarUndoes(i: Instant)
    ensures AtInstant(FromInstant(i)) == Some(i)
  {
  }

  /** Reading a stored retry time gives exactly the instant that was written. */
  lemma NaiveReadsBack(i: Instant)
    ensures ParseTimestamp(RenderNaive(i)) == Some(i)
  {
    var d := FromInstant(i);
    CalendarUndoes(i);
    MicrosTextReads(d.micro);
    ParseSecondsText(d, MicrosText(d.micro));
  }

  /** Reading a stored clock value gives the instant to the second. */
  lemma ClockReadsBack(i: Instant)
    ensures ParseTimestamp(RenderClock(i)) == Some(Truncate(i))
  {
    var d := FromInstant(Truncate(i));
    CalendarUndoes(Truncate(i));
    assert ReadTail("+00:00") == Some(d.micro);
    ParseSecondsText(d, "+00:00");
  }
}
