/** Period tokens of recurring tasks: their shapes and their ordinals. */
module PeriodTokens {
  import opened Records
  import opened Calendar

  datatype Period =
    | Hourly(year: int, month: int, day: int, hour: int)
    | Daily(year: int, month: int, day: int)
    | OnWeekday(year: int, week: int, abbrev: string)
    | Weekly(year: int, week: int)
    | Monthly(year: int, month: int)
    | Quarterly(year: int, quarter: int)
    | Yearly(year: int)

  const EPOCH := 719162 // 1970-01-01
  const DAY := 86400
  const HOUR := 3600

  function Midnight(day: int): int { (day - EPOCH) * DAY }

  /** parsePeriodTokenOrdinal, once the shape is recognised: seconds since the epoch. */
  function Ordinal(p: Period): int {
    match p
    case Hourly(y, m, d, h) => Midnight(DayNumber(y, m, d)) + h * HOUR
    case Daily(y, m, d) => Midnight(DayNumber(y, m, d))
    case OnWeekday(y, w, _) => Midnight(WeekMonday(y, w))
    case Weekly(y, w) => Midnight(WeekMonday(y, w))
    case Monthly(y, m) => Midnight(DayNumber(y, m, 1))
    case Quarterly(y, q) => Midnight(DayNumber(y, (q - 1) * 3 + 1, 1))
    case Yearly(y) => Midnight(DayNumber(y, 1, 1))
  }

  // ---------------------------------------------------------------- monotone ordinals

  predicate Valid(p: Period) {
    match p
    case Hourly(y, m, d, h) => ValidDate(y, m, d) && 0 <= h < 24
    case Daily(y, m, d) => ValidDate(y, m, d)
    case OnWeekday(y, w, _) => ValidWeek(y, w)
    case Weekly(y, w) => ValidWeek(y, w)
    case Monthly(y, m) => 1 <= m <= 12
    case Quarterly(y, q) => 1 <= q <= 4
    case Yearly(y) => true
  }

  /** Two periods of one kind, the first strictly earlier. */
  predicate Earlier(p: Period, q: Period) {
    match (p, q)
    case (Hourly(y, m, d, h), Hourly(y', m', d', h')) =>
      DateBefore(y, m, d, y', m', d') || (y == y' && m == m' && d == d' && h < h')
    case (Daily(y, m, d), Daily(y', m', d')) => DateBefore(y, m, d, y', m', d')
    case (OnWeekday(y, w, _), OnWeekday(y', w', _)) => y < y' || (y == y' && w < w')
    case (Weekly(y, w), Weekly(y', w')) => y < y' || (y == y' && w < w')
    case (Monthly(y, m), Monthly(y', m')) => y < y' || (y == y' && m < m')
    case (Quarterly(y, q), Quarterly(y', q')) => y < y' || (y == y' && q < q')
    case (Yearly(y), Yearly(y')) => y < y'
    case _ => false
  }

  lemma MidnightOrder(a: int, b: int)
    requires a < b
    ensures Midnight(a) + DAY <= Midnight(b)
  {
  }

  /** A more recent period of the same kind has a strictly larger ordinal. */
  lemma OrdinalOrder(p: Period, q: Period)
    requires Valid(p) && Valid(q) && Earlier(p, q)
    ensures Ordinal(p) < Ordinal(q)
  {
    hide DayNumber, WeekMonday, Midnight, ValidWeek;
    match (p, q)
    case (Hourly(y, m, d, h), Hourly(y', m', d', h')) =>
      if DateBefore(y, m, d, y', m', d') {
        DateOrder(y, m, d, y', m', d');
        MidnightOrder(DayNumber(y, m, d), DayNumber(y', m', d'));
      }
    case (Daily(y, m, d), Daily(y', m', d')) =>
      DateOrder(y, m, d, y', m', d');
      MidnightOrder(DayNumber(y, m, d), DayNumber(y', m', d'));
    case (OnWeekday(y, w, _), OnWeekday(y', w', _)) =>
      WeekOrder(y, w, y', w');
      MidnightOrder(WeekMonday(y, w), WeekMonday(y', w'));
    case (Weekly(y, w), Weekly(y', w')) =>
      WeekOrder(y, w, y', w');
      MidnightOrder(WeekMonday(y, w), WeekMonday(y', w'));
    case (Monthly(y, m), Monthly(y', m')) =>
      DateOrder(y, m, 1, y', m', 1);
      MidnightOrder(DayNumber(y, m, 1), DayNumber(y', m', 1));
    case (Quarterly(y, n), Quarterly(y', n')) =>
      DateOrder(y, (n - 1) * 3 + 1, 1, y', (n' - 1) * 3 + 1, 1);
      MidnightOrder(DayNumber(y, (n - 1) * 3 + 1, 1), DayNumber(y', (n' - 1) * 3 + 1, 1));
    case (Yearly(y), Yearly(y')) =>
      DateOrder(y, 1, 1, y', 1, 1);
      MidnightOrder(DayNumber(y, 1, 1), DayNumber(y', 1, 1));
  }

  predicate SameKind(p: Period, q: Period) {
    (p.Hourly? && q.Hourly?) || (p.Daily? && q.Daily?) || (p.OnWeekday? && q.OnWeekday?) || (p.Weekly? && q.Weekly?)
    || (p.Monthly? && q.Monthly?) || (p.Quarterly? && q.Quarterly?) || (p.Yearly? && q.Yearly?)
  }

  /** Within a kind, ordinals order valid periods exactly as the calendar does. */
  lemma OrdinalExact(p: Period, q: Period)
    requires Valid(p) && Valid(q) && SameKind(p, q)
    ensures Ordinal(p) < Ordinal(q) <==> Earlier(p, q)
  {
    hide Valid, Ordinal, Midnight, DayNumber, WeekMonday;
    if Earlier(p, q) {
      OrdinalOrder(p, q);
    } else if Earlier(q, p) {
      OrdinalOrder(q, p);
    } else {
      SamePeriod(p, q);
    }
  }

  lemma SamePeriod(p: Period, q: Period)
    requires SameKind(p, q) && !Earlier(p, q) && !Earlier(q, p)
    ensures Ordinal(p) == Ordinal(q)
  {
    hide DayNumber, WeekMonday, Midnight;
  }

  /** Impossible periods (a 31st of April, a week 60, an hour 24, a month 0) carry over:
      each has the ordinal of some valid period of its kind. */
  lemma NormalPeriod(p: Period) returns (q: Period)
    ensures Valid(q) && SameKind(p, q) && Ordinal(q) == Ordinal(p)
  {
    hide DayNumber, WeekMonday, ValidWeek, DaysInMonth;
    match p
    case Hourly(y, m, d, h) =>
      CarryMonths(y, m, d);
      CarryHours(y + (m - 1) / 12, (m - 1) % 12 + 1, d, h);
      var y', m', d' := NormalDate(y + (m - 1) / 12, (m - 1) % 12 + 1, d + h / 24);
      q := Hourly(y', m', d', h % 24);
    case Daily(y, m, d) =>
      CarryMonths(y, m, d);
      var y', m', d' := NormalDate(y + (m - 1) / 12, (m - 1) % 12 + 1, d);
      q := Daily(y', m', d');
    case OnWeekday(y, w, a) =>
      var y', w' := NormalWeek(y, w);
      q := OnWeekday(y', w', a);
    case Weekly(y, w) =>
      var y', w' := NormalWeek(y, w);
      q := Weekly(y', w');
    case Monthly(y, m) =>
      CarryMonths(y, m, 1);
      q := Monthly(y + (m - 1) / 12, (m - 1) % 12 + 1);
    case Quarterly(y, n) =>
      CarryMonths(y, (n - 1) * 3 + 1, 1);
      CarryMonths(y + (n - 1) / 4, (n - 1) % 4 * 3 + 1, 1);
      QuarterMonths(n - 1);
      q := Quarterly(y + (n - 1) / 4, (n - 1) % 4 + 1);
    case Yearly(y) => q := p;
  }

  lemma CarryHours(y: int, m: int, d: int, h: int)
    ensures Ordinal(Hourly(y, m, d, h)) == Ordinal(Hourly(y, m, d + h / 24, h % 24))
  {
    hide YearStart, DaysBefore;
    assert DayNumber(y, m, d + h / 24) == DayNumber(y, m, d) + h / 24;
  }

  lemma QuarterMonths(k: int)
    ensures (k * 3) / 12 == k / 4 && (k * 3) % 12 == k % 4 * 3
    ensures (k % 4 * 3) / 12 == 0 && (k % 4 * 3) % 12 == k % 4 * 3
  {
  }

  /** Ordinals compare this period with every valid one of its kind as the calendar does. */
  ghost predicate OrderedExactly(p: Period) {
    forall q :: Valid(q) && SameKind(p, q) ==>
      && (Ordinal(p) < Ordinal(q) <==> Earlier(p, q))
      && (Ordinal(q) < Ordinal(p) <==> Earlier(q, p))
  }

  lemma OneOfThem(p: Period, q: Period)
    requires SameKind(p, q) && Valid(q) && !Valid(p)
    ensures Earlier(p, q) || Earlier(q, p)
  {
    hide DaysInMonth, WeeksIn;
  }

  /** The order is exact for the valid periods and lost for every other one, which ties
      with a different valid period of its kind. */
  lemma OrderedIffValid(p: Period)
    ensures Valid(p) <==> OrderedExactly(p)
  {
    hide Valid, Ordinal, Earlier, SameKind;
    if Valid(p) {
      forall q | Valid(q) && SameKind(p, q)
        ensures Ordinal(p) < Ordinal(q) <==> Earlier(p, q)
        ensures Ordinal(q) < Ordinal(p) <==> Earlier(q, p)
      {
        OrdinalExact(p, q);
        assert SameKind(q, p) by { KindSymmetric(p, q); }
        OrdinalExact(q, p);
      }
    } else {
      var q := NormalPeriod(p);
      OneOfThem(p, q);
    }
  }

  lemma KindSymmetric(p: Period, q: Period)
    requires SameKind(p, q)
    ensures SameKind(q, p)
  {
  }

  /** For instance April 31 ties with May 1, week 53 of a short year with week 1 of the
      next, hour 24 with the next midnight, and month 13 with the next January. */
  lemma ImpossibleTies(y: int)
    requires WeeksIn(y) == 52
    ensures Ordinal(Daily(y, 4, 31)) == Ordinal(Daily(y, 5, 1))
    ensures Ordinal(Weekly(y, 53)) == Ordinal(Weekly(y + 1, 1))
    ensures Ordinal(Hourly(y, 4, 30, 24)) == Ordinal(Hourly(y, 5, 1, 0))
    ensures Ordinal(Monthly(y, 13)) == Ordinal(Monthly(y + 1, 1))
  {
    hide DayNumber, WeekMonday;
    CarryDays(y, 4, 31);
    CarryWeeks(y, 53);
    CarryHours(y, 4, 30, 24);
    CarryMonths(y, 13, 1);
  }

  // ---------------------------------------------------------------- token text

  predicate IsDigit(c: char) { '0' <= c <= '9' }

  predicate AllDigits(s: string) { forall i :: 0 <= i < |s| ==> IsDigit(s[i]) }

  function Number(s: string): int {
    if s == "" then 0 else Number(s[..|s| - 1]) * 10 + (s[|s| - 1] as int - '0' as int)
  }

  predicate IsLower(c: char) { 'a' <= c <= 'z' }

  /** The shapes, tried in order. */
  function ParsePeriod(t: string): Option<Period> {
    if |t| == 10 && AllDigits(t) then
      Some(Hourly(Number(t[..4]), Number(t[4..6]), Number(t[6..8]), Number(t[8..])))
    else if |t| == 10 && AllDigits(t[..4]) && t[4] == '-' && AllDigits(t[5..7]) && t[7] == '-' && AllDigits(t[8..]) then
      Some(Daily(Number(t[..4]), Number(t[5..7]), Number(t[8..])))
    else if |t| == 11 && AllDigits(t[..4]) && t[4] == 'W' && AllDigits(t[5..7]) && t[7] == '-'
            && (forall i :: 8 <= i < 11 ==> IsLower(t[i])) then
      Some(OnWeekday(Number(t[..4]), Number(t[5..7]), t[8..]))
    else if |t| == 7 && AllDigits(t[..4]) && t[4] == 'W' && AllDigits(t[5..]) then
      Some(Weekly(Number(t[..4]), Number(t[5..])))
    else if |t| == 7 && AllDigits(t[..4]) && t[4] == '-' && AllDigits(t[5..]) then
      Some(Monthly(Number(t[..4]), Number(t[5..])))
    else if |t| == 6 && AllDigits(t[..4]) && t[4] == 'Q' && '1' <= t[5] <= '4' then
      Some(Quarterly(Number(t[..4]), Number(t[5..])))
    else if |t| == 4 && AllDigits(t) then
      Some(Yearly(Number(t)))
    else None
  }

  function Digit(n: int): char
    requires 0 <= n < 10
  {
    ('0' as int + n) as char
  }

  function Two(n: int): string
    requires 0 <= n < 100
  {
    [Digit(n / 10), Digit(n % 10)]
  }

  function Four(n: int): string
    requires 0 <= n < 10000
  {
    Two(n / 100) + Two(n % 100)
  }

  predicate Writable(p: Period) {
    && 0 <= p.year < 10000
    && match p
       case Hourly(_, m, d, h) => 0 <= m < 100 && 0 <= d < 100 && 0 <= h < 100
       case Daily(_, m, d) => 0 <= m < 100 && 0 <= d < 100
       case OnWeekday(_, w, a) => 0 <= w < 100 && |a| == 3 && forall i :: 0 <= i < 3 ==> IsLower(a[i])
       case Weekly(_, w) => 0 <= w < 100
       case Monthly(_, m) => 0 <= m < 100
       case Quarterly(_, q) => 1 <= q <= 4
       case Yearly(_) => true
  }

  function Token(p: Period): string
    requires Writable(p)
  {
    match p
    case Hourly(y, m, d, h) => Four(y) + Two(m) + Two(d) + Two(h)
    case Daily(y, m, d) => Four(y) + "-" + Two(m) + "-" + Two(d)
    case OnWeekday(y, w, a) => Four(y) + "W" + Two(w) + "-" + a
    case Weekly(y, w) => Four(y) + "W" + Two(w)
    case Monthly(y, m) => Four(y) + "-" + Two(m)
    case Quarterly(y, q) => Four(y) + "Q" + [Digit(q)]
    case Yearly(y) => Four(y)
  }

  lemma TwoReads(n: int)
    requires 0 <= n < 100
    ensures |Two(n)| == 2 && AllDigits(Two(n)) && Number(Two(n)) == n
  {
    var s := Two(n);
    assert s[..1] == [Digit(n / 10)] && s[..1][..0] == "";
    assert Number(s[..1]) == n / 10;
  }

  lemma FourReads(n: int)
    requires 0 <= n < 10000
    ensures |Four(n)| == 4 && AllDigits(Four(n)) && Number(Four(n)) == n
  {
    var hi, lo := Two(n / 100), Two(n % 100);
    TwoReads(n / 100);
    TwoReads(n % 100);
    var s := hi + lo;
    assert s[..3] == hi + lo[..1] && s[..3][..2] == hi && s[3] == lo[1] && s[2] == lo[0];
    assert lo[..1][..0] == "";
    assert Number(lo[..1]) == lo[0] as int - '0' as int;
  }

  lemma DigitReads(q: int)
    requires 1 <= q <= 4
    ensures Number([Digit(q)]) == q && '1' <= Digit(q) <= '4'
  {
    assert [Digit(q)][..0] == "";
  }

  /** The token of every writable period parses back to it, so no two shapes collide. */
  lemma TokenRoundTrip(p: Period)
    requires Writable(p)
    ensures ParsePeriod(Token(p)) == Some(p)
  {
    match p
    case Hourly(y, m, d, h) => HourlyRoundTrip(y, m, d, h);
    case Daily(y, m, d) => DailyRoundTrip(y, m, d);
    case OnWeekday(y, w, a) => WeekdayRoundTrip(y, w, a);
    case Weekly(y, w) => ShortRoundTrip(y, w);
    case Monthly(y, m) => ShortRoundTrip(y, m);
    case Quarterly(y, q) => QuarterRoundTrip(y, q);
    case Yearly(y) => FourReads(y); assert ParsePeriod(Four(y)) == Some(Yearly(y));
  }

  lemma HourlyRoundTrip(y: int, m: int, d: int, h: int)
    requires Writable(Hourly(y, m, d, h))
    ensures ParsePeriod(Token(Hourly(y, m, d, h))) == Some(Hourly(y, m, d, h))
  {
    FourReads(y);
    TwoReads(m);
    TwoReads(d);
    TwoReads(h);
    hide Four, Two, Number;
    var t := Four(y) + Two(m) + Two(d) + Two(h);
    assert t[..4] == Four(y) && t[4..6] == Two(m) && t[6..8] == Two(d) && t[8..] == Two(h);
    assert AllDigits(t);
  }

  lemma DailyRoundTrip(y: int, m: int, d: int)
    requires Writable(Daily(y, m, d))
    ensures ParsePeriod(Token(Daily(y, m, d))) == Some(Daily(y, m, d))
  {
    FourReads(y);
    TwoReads(m);
    TwoReads(d);
    hide Four, Two, Number;
    var t := Four(y) + "-" + Two(m) + "-" + Two(d);
    assert t[..4] == Four(y) && t[4] == '-' && t[5..7] == Two(m) && t[7] == '-' && t[8..] == Two(d);
    assert !IsDigit(t[4]);
  }

  lemma WeekdayRoundTrip(y: int, w: int, a: string)
    requires Writable(OnWeekday(y, w, a))
    ensures ParsePeriod(Token(OnWeekday(y, w, a))) == Some(OnWeekday(y, w, a))
  {
    FourReads(y);
    TwoReads(w);
    hide Four, Two, Number;
    var t := Four(y) + "W" + Two(w) + "-" + a;
    assert t[..4] == Four(y) && t[4] == 'W' && t[5..7] == Two(w) && t[7] == '-' && t[8..] == a;
    assert forall i :: 8 <= i < 11 ==> t[i] == a[i - 8];
  }

  lemma ShortRoundTrip(y: int, n: int)
    requires 0 <= y < 10000 && 0 <= n < 100
    ensures ParsePeriod(Token(Weekly(y, n))) == Some(Weekly(y, n))
    ensures ParsePeriod(Token(Monthly(y, n))) == Some(Monthly(y, n))
  {
    FourReads(y);
    TwoReads(n);
    hide Four, Two, Number;
    var w, m := Four(y) + "W" + Two(n), Four(y) + "-" + Two(n);
    assert w[..4] == Four(y) && w[4] == 'W' && w[5..] == Two(n);
    assert m[..4] == Four(y) && m[4] == '-' && m[5..] == Two(n);
  }

  lemma QuarterRoundTrip(y: int, q: int)
    requires Writable(Quarterly(y, q))
    ensures ParsePeriod(Token(Quarterly(y, q))) == Some(Quarterly(y, q))
  {
    FourReads(y);
    DigitReads(q);
    hide Four, Number, Digit;
    var t := Four(y) + "Q" + [Digit(q)];
    assert t[..4] == Four(y) && t[4] == 'Q' && t[5..] == [Digit(q)] && t[5] == Digit(q);
  }

  // ---------------------------------------------------------------- recognised tokens

  lemma TwoBack(s: string)
    requires |s| == 2 && AllDigits(s)
    ensures 0 <= Number(s) < 100 && Two(Number(s)) == s
  {
    assert s[..1][..0] == "" && s[..1] == [s[0]];
    assert Number(s[..1]) == s[0] as int - '0' as int;
    var a, b := s[0] as int - '0' as int, s[1] as int - '0' as int;
    assert Number(s) == 10 * a + b && 0 <= a < 10 && 0 <= b < 10;
    assert (10 * a + b) / 10 == a && (10 * a + b) % 10 == b;
  }

  lemma FourBack(s: string)
    requires |s| == 4 && AllDigits(s)
    ensures 0 <= Number(s) < 10000 && Four(Number(s)) == s
  {
    var hi, lo := s[..2], s[2..];
    TwoBack(hi);
    TwoBack(lo);
    FourNumber(s);
    var h, l := Number(hi), Number(lo);
    assert (100 * h + l) / 100 == h && (100 * h + l) % 100 == l;
    hide Two, Number;
    assert s == hi + lo;
  }

  lemma FourNumber(s: string)
    requires |s| == 4
    ensures Number(s) == 100 * Number(s[..2]) + Number(s[2..])
  {
    var lo := s[2..];
    assert s[..3][..2] == s[..2];
    assert lo[..1][..0] == "";
    assert Number(lo) == Number(lo[..1]) * 10 + (lo[1] as int - '0' as int);
  }

  lemma QuarterBack(s: string)
    requires |s| == 1 && '1' <= s[0] <= '4'
    ensures 1 <= Number(s) <= 4 && [Digit(Number(s))] == s
  {
    assert s[..0] == "";
  }

  /** A token is recognised exactly when it is the token of a writable period. */
  lemma ParseExact(t: string, p: Period)
    ensures ParsePeriod(t) == Some(p) <==> Writable(p) && Token(p) == t
  {
    if Writable(p) && Token(p) == t {
      TokenRoundTrip(p);
    } else if ParsePeriod(t) == Some(p) {
      ParsedIsToken(t, p);
    }
  }

  lemma ParsedIsToken(t: string, p: Period)
    requires ParsePeriod(t) == Some(p)
    ensures Writable(p) && Token(p) == t
  {
    hide Four, Two, Number, Digit;
    match p
    case Hourly(_, _, _, _) =>
      assert forall i, j :: 0 <= i <= j <= 10 ==> AllDigits(t[i..j]);
      assert t[8..] == t[8..10];
      FourBack(t[..4]); TwoBack(t[4..6]); TwoBack(t[6..8]); TwoBack(t[8..]);
      assert t == t[..4] + t[4..6] + t[6..8] + t[8..];
    case Daily(_, _, _) =>
      FourBack(t[..4]); TwoBack(t[5..7]); TwoBack(t[8..]);
      assert t == t[..4] + "-" + t[5..7] + "-" + t[8..];
    case OnWeekday(_, _, _) =>
      FourBack(t[..4]); TwoBack(t[5..7]);
      assert t == t[..4] + "W" + t[5..7] + "-" + t[8..];
      assert forall i :: 0 <= i < 3 ==> t[8..][i] == t[8 + i];
    case Weekly(_, _) =>
      FourBack(t[..4]); TwoBack(t[5..]);
      assert t == t[..4] + "W" + t[5..];
    case Monthly(_, _) =>
      FourBack(t[..4]); TwoBack(t[5..]);
      assert t == t[..4] + "-" + t[5..];
    case Quarterly(_, _) =>
      FourBack(t[..4]); QuarterBack(t[5..]);
      assert t == t[..4] + "Q" + t[5..];
    case Yearly(_) =>
      FourBack(t);
  }

  /** The epoch is zero, a day has 24 hours of 3600 seconds, and a quarter, a month, a year
      and a week begin with their first day. */
  lemma OrdinalStarts(y: int, m: int, d: int, h: int, q: int, w: int, a: string)
    ensures Ordinal(Daily(1970, 1, 1)) == 0
    ensures Ordinal(Daily(y, m, d + 1)) == Ordinal(Daily(y, m, d)) + 24 * 60 * 60
    ensures Ordinal(Hourly(y, m, d, h)) == Ordinal(Daily(y, m, d)) + h * 60 * 60
    ensures Ordinal(Monthly(y, m)) == Ordinal(Daily(y, m, 1)) && Ordinal(Yearly(y)) == Ordinal(Daily(y, 1, 1))
    ensures Ordinal(Quarterly(y, q)) == Ordinal(Daily(y, 3 * q - 2, 1))
    ensures Ordinal(Weekly(y, w)) == Ordinal(OnWeekday(y, w, a))
    ensures Ordinal(Weekly(2026, 1)) == Ordinal(Daily(2025, 12, 29))
  {
    assert YearStart(1970) == EPOCH;
    assert (q - 1) * 3 + 1 == 3 * q - 2;
    EndOf2025();
  }

  lemma EndOf2025()
    ensures WeekMonday(2026, 1) == DayNumber(2025, 12, 29)
  {
    WithinYear(2026, 1, 4);
    WithinYear(2025, 12, 29);
    WholeYear(2025);
    assert DaysBefore(2025, 13) == DaysBefore(2025, 12) + 31;
    assert YearStart(2025) == 739251 && YearStart(2026) == 739616;
  }
}
