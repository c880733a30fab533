/** Hour partitions: the civil-date arithmetic behind "YYYYMMDDHH". */
module Calendar {
  import opened Basics
  import opened Names

  datatype Date = Date(y: int, m: int, d: int)

  // ----- the proleptic Gregorian calendar, one day at a time

  predicate IsLeap(y: int) { y % 4 == 0 && (y % 100 != 0 || y % 400 == 0) }

  function DaysInMonth(y: int, m: int): int {
    if m == 2 then (if IsLeap(y) then 29 else 28)
    else if m == 4 || m == 6 || m == 9 || m == 11 then 30
    else 31
  }

  predicate IsValid(x: Date) {
    1 <= x.m <= 12 && 1 <= x.d <= DaysInMonth(x.y, x.m)
  }

  function NextDay(x: Date): Date {
    if x.d < DaysInMonth(x.y, x.m) then x.(d := x.d + 1)
    else if x.m < 12 then Date(x.y, x.m + 1, 1)
    else Date(x.y + 1, 1, 1)
  }

  // ----- the closed form

  function YearOfEra(doe: int): int { (doe - doe / 1460 + doe / 36524 - doe / 146_096) / 365 }

  function DaysBeforeYearOfEra(yoe: int): int { 365 * yoe + yoe / 4 - yoe / 100 }

  function MonthShift(mp: int): int { if mp < 10 then mp + 3 else mp - 9 }

  function FromEra(era: int, yoe: int, doy: int): Date {
    var mp := (5 * doy + 2) / 153;
    var d := doy - (153 * mp + 2) / 5 + 1;
    var m := MonthShift(mp);
    Date(yoe + era * 400 + (if m <= 2 then 1 else 0), m, d)
  }

  /** `civil_from_days`: days since 1970-01-01 to a date. */
  function CivilFromDays(z: int): Date {
    var s := z + 719_468;
    AtEra(s / 146_097, s % 146_097)
  }

  function AtEra(era: int, doe: int): Date {
    FromEra(era, YearOfEra(doe), doe - DaysBeforeYearOfEra(YearOfEra(doe)))
  }

  /** The last day of a March-based year of an era: 365 in the years that end in a leap February. */
  function LastDoy(yoe: int): int {
    if yoe % 4 == 3 && (yoe % 100 != 99 || yoe == 399) then 365 else 364
  }

  /** The year formula inverts the day count, year split as century, cycle and year. */
  lemma YearOfEraExact(c: int, q: int, r: int, doy: int)
    requires 0 <= c < 4 && 0 <= q < 25 && 0 <= r < 4 && 0 <= doy <= LastDoy(100 * c + 4 * q + r)
    ensures YearOfEra(36524 * c + 1461 * q + 365 * r + doy) == 100 * c + 4 * q + r
  {
    var doe := 36524 * c + 1461 * q + 365 * r + doy;
    var v := 24 * c + q + 365 * r + doy;
    assert doe == 1460 * (25 * c + q) + v;
    assert doe / 1460 == 25 * c + q + v / 1460;
    assert doy == 365 ==> r == 3;
    assert v / 1460 == (if v >= 1460 then 1 else 0);
    CenturyPart(c, 1461 * q + 365 * r + doy);
    assert doe - doe / 1460 + doe / 36524 - doe / 146_096 == 365 * (100 * c + 4 * q + r) + (doy - v / 1460);
  }

  lemma CenturyPart(c: int, w: int)
    requires 0 <= c < 4 && 0 <= w <= 36524 && (w == 36524 ==> c == 3)
    ensures (36524 * c + w) / 36524 - (36524 * c + w) / 146_096 == c
  {
  }

  lemma Split(doe: int) returns (c: int, q: int, r: int, doy: int)
    requires 0 <= doe < 146_097
    ensures 0 <= c < 4 && 0 <= q < 25 && 0 <= r < 4 && 0 <= doy <= LastDoy(100 * c + 4 * q + r)
    ensures doe == 36524 * c + 1461 * q + 365 * r + doy
  {
    c := Min(doe / 36524, 3);
    var w := doe - 36524 * c;
    q := Min(w / 1461, 24);
    var x := w - 1461 * q;
    r := Min(x / 365, 3);
    doy := x - 365 * r;
    assert (100 * c + 4 * q + r) % 4 == r;
    assert r == 3 ==> ((100 * c + 4 * q + r) % 100 == 99 <==> q == 24);
  }

  lemma DaysBefore(c: int, q: int, r: int)
    requires 0 <= c < 4 && 0 <= q < 25 && 0 <= r < 4
    ensures DaysBeforeYearOfEra(100 * c + 4 * q + r) == 36524 * c + 1461 * q + 365 * r
  {
    var y := 100 * c + 4 * q + r;
    assert y / 4 == 25 * c + q && y / 100 == c;
  }

  lemma YearOfEraIn(doe: int)
    requires 0 <= doe < 146_097
    ensures var yoe := YearOfEra(doe);
            0 <= yoe < 400 && 0 <= doe - DaysBeforeYearOfEra(yoe) <= LastDoy(yoe)
  {
    var c, q, r, doy := Split(doe);
    YearOfEraExact(c, q, r, doy);
    DaysBefore(c, q, r);
  }

  // ----- the closed form steps through the calendar

  function MonthOf(doy: int): int { (5 * doy + 2) / 153 }

  function MonthStart(mp: int): int { (153 * mp + 2) / 5 }

  /** Lengths of the months from March to January; February ends the year. */
  function MonthLength(mp: int): int {
    if mp == 1 || mp == 3 || mp == 6 || mp == 8 then 30 else 31
  }

  lemma MonthStartNext(mp: int)
    requires 0 <= mp < 11
    ensures MonthStart(mp + 1) == MonthStart(mp) + MonthLength(mp)
  {
  }

  lemma MonthOfIff(doy: int, mp: int)
    requires 0 <= doy <= 365 && 0 <= mp <= 11
    ensures MonthOf(doy) == mp <==> MonthStart(mp) <= doy && (mp < 11 ==> doy < MonthStart(mp + 1))
  {
    assert MonthOf(doy) == mp <==> 153 * mp <= 5 * doy + 2 < 153 * (mp + 1);
  }

  lemma LeapFebruary(era: int, yoe: int)
    requires 0 <= yoe < 400
    ensures IsLeap(yoe + era * 400 + 1) <==> LastDoy(yoe) == 365
  {
    var y := yoe + 1;
    Wrap4(y, 100 * era);
    Wrap100(y, 4 * era);
    Wrap400(y, era);
    assert yoe + era * 400 + 1 == y + 4 * (100 * era) == y + 100 * (4 * era) == y + 400 * era;
  }

  lemma Wrap4(y: int, k: int)
    ensures (y + 4 * k) % 4 == y % 4
  {
  }

  lemma Wrap100(y: int, k: int)
    ensures (y + 100 * k) % 100 == y % 100
  {
  }

  lemma Wrap400(y: int, k: int)
    ensures (y + 400 * k) % 400 == y % 400
  {
  }

  lemma MonthLengths(era: int, yoe: int, mp: int)
    requires 0 <= yoe < 400 && 0 <= mp <= 11
    ensures var m := MonthShift(mp);
            var y := yoe + era * 400 + (if m <= 2 then 1 else 0);
            1 <= m <= 12 && DaysInMonth(y, m) == if mp < 11 then MonthLength(mp) else LastDoy(yoe) - 336
  {
    LeapFebruary(era, yoe);
  }

  lemma FromEraValid(era: int, yoe: int, doy: int)
    requires 0 <= yoe < 400 && 0 <= doy <= LastDoy(yoe)
    ensures IsValid(FromEra(era, yoe, doy)) && 0 <= MonthOf(doy) <= 11
    ensures FromEra(era, yoe, doy).d == doy - MonthStart(MonthOf(doy)) + 1
    ensures FromEra(era, yoe, doy).m == MonthShift(MonthOf(doy))
  {
    var mp := MonthOf(doy);
    MonthOfIff(doy, mp);
    MonthLengths(era, yoe, mp);
    if mp < 11 { MonthStartNext(mp); }
  }

  lemma NextInMonth(era: int, yoe: int, doy: int)
    requires 0 <= yoe < 400 && 0 <= doy < LastDoy(yoe) && MonthOf(doy + 1) == MonthOf(doy)
    ensures FromEra(era, yoe, doy + 1) == NextDay(FromEra(era, yoe, doy))
  {
    var mp := MonthOf(doy);
    FromEraValid(era, yoe, doy);
    FromEraValid(era, yoe, doy + 1);
    MonthLengths(era, yoe, mp);
  }

  lemma NextMonth(era: int, yoe: int, doy: int, mp: int)
    requires 0 <= yoe < 400 && 0 <= doy < LastDoy(yoe) && 0 <= mp < 11 && doy + 1 == MonthStart(mp + 1)
    requires MonthOf(doy) == mp && MonthOf(doy + 1) == mp + 1
    ensures FromEra(era, yoe, doy + 1) == NextDay(FromEra(era, yoe, doy))
  {
    FromEraValid(era, yoe, doy);
    MonthStartNext(mp);
    MonthLengths(era, yoe, mp);
  }

  /** Within a March-based year, the next day of the year is the next day. */
  lemma NextDoy(era: int, yoe: int, doy: int)
    requires 0 <= yoe < 400 && 0 <= doy < LastDoy(yoe)
    ensures FromEra(era, yoe, doy + 1) == NextDay(FromEra(era, yoe, doy))
  {
    var mp := MonthOf(doy);
    MonthOfIff(doy, mp);
    MonthOfIff(doy + 1, mp);
    if MonthOf(doy + 1) == mp {
      NextInMonth(era, yoe, doy);
    } else {
      if mp + 1 < 11 { MonthStartNext(mp + 1); }
      MonthOfIff(doy + 1, mp + 1);
      NextMonth(era, yoe, doy, mp);
    }
  }

  /** After the last day of February comes the first of March. */
  lemma NextYear(era: int, yoe: int)
    requires 0 <= yoe < 400
    ensures FromEra(if yoe == 399 then era + 1 else era, if yoe == 399 then 0 else yoe + 1, 0)
            == NextDay(FromEra(era, yoe, LastDoy(yoe)))
  {
    FromEraValid(era, yoe, LastDoy(yoe));
    MonthOfIff(LastDoy(yoe), 11);
    MonthLengths(era, yoe, 11);
  }

  lemma YearLength(yoe: int)
    requires 0 <= yoe < 400
    ensures DaysBeforeYearOfEra(yoe + 1) + (if yoe == 399 then 1 else 0) == DaysBeforeYearOfEra(yoe) + LastDoy(yoe) + 1
  {
  }

  /** A day of an era is located by its year and day of year, uniquely. */
  lemma LocateIff(doe: int, yoe: int)
    requires 0 <= doe < 146_097 && 0 <= yoe < 400
    ensures YearOfEra(doe) == yoe <==> 0 <= doe - DaysBeforeYearOfEra(yoe) <= LastDoy(yoe)
  {
    YearOfEraIn(doe);
    var y := YearOfEra(doe);
    if yoe < y { YearsApart(yoe, y); }
    if y < yoe { YearsApart(y, yoe); }
  }

  lemma {:induction false} YearsApart(a: int, b: int)
    requires 0 <= a < b < 400
    ensures DaysBeforeYearOfEra(a) + LastDoy(a) < DaysBeforeYearOfEra(b)
    decreases b
  {
    YearLength(b - 1);
    if a < b - 1 { YearsApart(a, b - 1); }
  }

  lemma AtEraIs(era: int, yoe: int, doy: int)
    requires 0 <= yoe < 400 && 0 <= doy <= LastDoy(yoe) && DaysBeforeYearOfEra(yoe) + doy < 146_097
    ensures AtEra(era, DaysBeforeYearOfEra(yoe) + doy) == FromEra(era, yoe, doy)
  {
    LocateIff(DaysBeforeYearOfEra(yoe) + doy, yoe);
  }

  lemma StepInYear(era: int, yoe: int, doy: int)
    requires 0 <= yoe < 400 && 0 <= doy < LastDoy(yoe) && DaysBeforeYearOfEra(yoe) + doy < 146_096
    ensures AtEra(era, DaysBeforeYearOfEra(yoe) + doy + 1) == NextDay(AtEra(era, DaysBeforeYearOfEra(yoe) + doy))
  {
    AtEraIs(era, yoe, doy);
    AtEraIs(era, yoe, doy + 1);
    NextDoy(era, yoe, doy);
  }

  lemma StepAcrossYears(era: int, yoe: int)
    requires 0 <= yoe < 399
    ensures var last := DaysBeforeYearOfEra(yoe) + LastDoy(yoe);
            last < 146_096 && AtEra(era, last + 1) == NextDay(AtEra(era, last))
  {
    YearLength(yoe);
    EraLength(yoe);
    AtEraIs(era, yoe, LastDoy(yoe));
    AtEraIs(era, yoe + 1, 0);
    NextYear(era, yoe);
  }

  lemma EraLength(yoe: int)
    requires 0 <= yoe < 399
    ensures DaysBeforeYearOfEra(yoe) + LastDoy(yoe) < 146_096
  {
  }

  lemma EraStep(era: int, doe: int)
    requires 0 <= doe < 146_096
    ensures AtEra(era, doe + 1) == NextDay(AtEra(era, doe))
  {
    var yoe := YearOfEra(doe);
    var doy := doe - DaysBeforeYearOfEra(yoe);
    YearOfEraIn(doe);
    if doy < LastDoy(yoe) {
      StepInYear(era, yoe, doy);
    } else {
      YearBeforeEnd(doe, yoe);
      StepAcrossYears(era, yoe);
    }
  }

  /** From the last day of the last year of an era to the first day of the next era. */
  lemma EraEnd(era: int, yoe: int, doy: int, first: int)
    requires yoe == 399 && doy == LastDoy(yoe) && first == 0
    ensures AtEra(era + 1, DaysBeforeYearOfEra(first)) == NextDay(AtEra(era, DaysBeforeYearOfEra(yoe) + doy))
  {
    AtEraIs(era, yoe, doy);
    AtEraIs(era + 1, first, first);
    NextYear(era, yoe);
  }

  lemma NextInEra(s: int)
    ensures if s % 146_097 == 146_096 then (s + 1) / 146_097 == s / 146_097 + 1 && (s + 1) % 146_097 == 0
            else (s + 1) / 146_097 == s / 146_097 && (s + 1) % 146_097 == s % 146_097 + 1
  {
  }

  /** Steps within and across eras are all the steps there are. */
  lemma EraSteps(era: int, doe: int, era': int, doe': int)
    requires 0 <= doe < 146_097
    requires if doe == 146_096 then era' == era + 1 && doe' == 0 else era' == era && doe' == doe + 1
    ensures AtEra(era', doe') == NextDay(AtEra(era, doe))
  {
    if doe < 146_096 {
      EraStep(era, doe);
    } else {
      var yoe, first := 399, 0;
      assert DaysBeforeYearOfEra(yoe) + LastDoy(yoe) == doe && DaysBeforeYearOfEra(first) == doe';
      EraEnd(era, yoe, LastDoy(yoe), first);
    }
  }

  /** Consecutive day numbers are consecutive dates. */
  lemma CivilSteps(z: int)
    ensures CivilFromDays(z + 1) == NextDay(CivilFromDays(z))
  {
    var s := z + 719_468;
    var era, doe, era', doe' := s / 146_097, s % 146_097, (s + 1) / 146_097, (s + 1) % 146_097;
    assert CivilFromDays(z) == AtEra(era, doe);
    assert CivilFromDays(z + 1) == AtEra(era', doe') by { assert z + 1 + 719_468 == s + 1; }
    NextInEra(s);
    EraSteps(era, doe, era', doe');
  }

  lemma AtEraValid(era: int, doe: int)
    requires 0 <= doe < 146_097
    ensures IsValid(AtEra(era, doe))
  {
    YearOfEraIn(doe);
    FromEraValid(era, YearOfEra(doe), doe - DaysBeforeYearOfEra(YearOfEra(doe)));
  }

  lemma CivilValid(z: int)
    ensures IsValid(CivilFromDays(z))
  {
    var s := z + 719_468;
    AtEraValid(s / 146_097, s % 146_097);
  }

  lemma YearBeforeEnd(doe: int, yoe: int)
    requires 0 <= doe < 146_096 && 0 <= yoe < 400 && doe == DaysBeforeYearOfEra(yoe) + LastDoy(yoe)
    ensures yoe < 399
  {
  }

  lemma Epoch()
    ensures CivilFromDays(0) == Date(1970, 1, 1)
  {
  }

  // ----- dates in order

  predicate Before(a: Date, b: Date) {
    a.y < b.y || (a.y == b.y && (a.m < b.m || (a.m == b.m && a.d < b.d)))
  }

  lemma {:induction false} StepsAreOrdered(date: int -> Date, a: int, b: int)
    requires a < b && forall z {:trigger NextDay(date(z))} :: date(z + 1) == NextDay(date(z))
    ensures Before(date(a), date(b))
    decreases b - a
  {
    var c := b - 1;
    NextDayAfter(date(c));
    assert date(c + 1) == NextDay(date(c));
    if a < c { StepsAreOrdered(date, a, c); }
  }

  lemma CivilOrder(a: int, b: int)
    requires a < b
    ensures Before(CivilFromDays(a), CivilFromDays(b))
  {
    forall z ensures CivilFromDays(z + 1) == NextDay(CivilFromDays(z)) { CivilSteps(z); }
    StepsAreOrdered(CivilFromDays, a, b);
  }

  lemma NextDayAfter(x: Date)
    ensures Before(x, NextDay(x))
  {
  }

  // ----- hour partitions

  const HOUR_NS: int := 3_600_000_000_000

  /** `hour_partition` */
  function HourPartition(tsNs: int): string
    requires IsI64(tsNs)
  {
    var secs := tsNs / 1_000_000_000;
    var days, sod := secs / 86_400, secs % 86_400;
    var x := CivilFromDays(days);
    I64Year(tsNs);
    CivilValid(days);
    Padded(x.y, 4) + Padded(x.m, 2) + Padded(x.d, 2) + Padded(sod / 3600, 2)
  }

  predicate IsI64(v: int) { I64_MIN <= v <= I64_MAX }

  lemma HourSplit(t: int)
    ensures t / 1_000_000_000 / 86_400 == t / HOUR_NS / 24
    ensures t / 1_000_000_000 % 86_400 / 3600 == t / HOUR_NS % 24
  {
    var secs := t / 1_000_000_000;
    assert secs / 3600 == t / HOUR_NS;
    var h := secs / 3600;
    assert secs / 86_400 == h / 24;
    assert secs % 86_400 == secs - 86_400 * (h / 24);
    assert secs == 3600 * h + secs % 3600;
    assert secs % 86_400 == 3600 * (h % 24) + secs % 3600;
  }

  lemma I64Year(t: int)
    requires IsI64(t)
    ensures 1600 <= CivilFromDays(t / 1_000_000_000 / 86_400).y <= 2400
  {
    var z := t / 1_000_000_000 / 86_400;
    assert -106_752 <= z <= 106_752;
    var s := z + 719_468;
    YearOfEraIn(s % 146_097);
    assert 4 <= s / 146_097 <= 5;
  }

  /** The same text, associated the other way. */
  function DateText(x: Date, h: nat): string
    requires Fits(x)
  {
    Padded(x.y, 4) + (Padded(x.m, 2) + (Padded(x.d, 2) + (Padded(h, 2) + [])))
  }

  predicate Fits(x: Date) { 0 <= x.y < 10_000 && 0 <= x.m < 100 && 0 <= x.d < 100 }

  lemma Pows()
    ensures Pow10(2) == 100 && Pow10(4) == 10_000
  {
    assert Pow10(2) == 10 * Pow10(1);
    assert Pow10(4) == 10 * Pow10(3) && Pow10(3) == 10 * Pow10(2);
  }

  lemma TextOrder(x: Date, h: nat, y: Date, k: nat)
    requires Fits(x) && Fits(y) && h < 100 && k < 100
    ensures LexLess(DateText(x, h), DateText(y, k)) <==> Before(x, y) || (x == y && h < k)
    ensures DateText(x, h) == DateText(y, k) <==> x == y && h == k
  {
    Pows();
    var h', k' := Padded(h, 2) + [], Padded(k, 2) + [];
    PaddedThenOrder(h, k, 2, [], []);
    var d', e' := Padded(x.d, 2) + h', Padded(y.d, 2) + k';
    PaddedThenOrder(x.d, y.d, 2, h', k');
    var m', n' := Padded(x.m, 2) + d', Padded(y.m, 2) + e';
    PaddedThenOrder(x.m, y.m, 2, d', e');
    PaddedThenOrder(x.y, y.y, 4, m', n');
  }

  lemma PartitionText(t: int)
    requires IsI64(t)
    ensures var x := CivilFromDays(t / HOUR_NS / 24);
            1600 <= x.y <= 2400 && IsValid(x) && Fits(x) && HourPartition(t) == DateText(x, t / HOUR_NS % 24)
  {
    I64Year(t);
    HourSplit(t);
    var x := CivilFromDays(t / HOUR_NS / 24);
    CivilValid(t / HOUR_NS / 24);
    Reassociate(Padded(x.y, 4), Padded(x.m, 2), Padded(x.d, 2), Padded(t / HOUR_NS % 24, 2));
  }

  lemma Reassociate(a: string, b: string, c: string, d: string)
    ensures a + b + c + d == a + (b + (c + (d + [])))
  {
  }

  /** A field of fixed width, read back. */
  lemma FieldReads(n: nat, w: nat)
    requires 0 < w && n < Pow10(w)
    ensures |Padded(n, w)| == w && (forall i :: 0 <= i < w ==> IsDigit(Padded(n, w)[i])) && DecimalValue(Padded(n, w)) == n
  {
    PaddedIsFixed(n, w);
    PaddedValue(n, w);
  }

  lemma Slices(a: string, b: string, c: string, d: string, p: string)
    requires p == a + (b + (c + (d + []))) && |a| == 4 && |b| == |c| == |d| == 2
    ensures |p| == 10 && p[..4] == a && p[4..6] == b && p[6..8] == c && p[8..] == d
  {
  }

  predicate Reads(t: string, n: int) { (forall i :: 0 <= i < |t| ==> IsDigit(t[i])) && DecimalValue(t) == n }

  /** The partition of an instant is YYYYMMDDHH, digits throughout: its year, month, day and hour. */
  lemma PartitionReads(t: int)
    requires IsI64(t)
    ensures var p, x := HourPartition(t), CivilFromDays(t / HOUR_NS / 24);
            |p| == 10 && Reads(p[..4], x.y) && Reads(p[4..6], x.m) && Reads(p[6..8], x.d) && Reads(p[8..], t / HOUR_NS % 24)
  {
    PartitionText(t);
    Pows();
    var x, h := CivilFromDays(t / HOUR_NS / 24), t / HOUR_NS % 24;
    FieldReads(x.y, 4);
    FieldReads(x.m, 2);
    FieldReads(x.d, 2);
    FieldReads(h, 2);
    Slices(Padded(x.y, 4), Padded(x.m, 2), Padded(x.d, 2), Padded(h, 2), HourPartition(t));
  }

  /** For every i64 timestamp: equal partitions are equal UTC hours, and partition order
   *  is time order. */
  lemma PartitionsAreHours(t: int, u: int)
    requires IsI64(t) && IsI64(u)
    ensures HourPartition(t) == HourPartition(u) <==> t / HOUR_NS == u / HOUR_NS
    ensures LexLess(HourPartition(t), HourPartition(u)) <==> t / HOUR_NS < u / HOUR_NS
  {
    PartitionText(t);
    PartitionText(u);
    var a, b := t / HOUR_NS, u / HOUR_NS;
    if a / 24 < b / 24 { CivilOrder(a / 24, b / 24); }
    if b / 24 < a / 24 { CivilOrder(b / 24, a / 24); }
    HoursInOrder(a, b, CivilFromDays(a / 24), CivilFromDays(b / 24));
  }

  lemma HoursInOrder(a: int, b: int, x: Date, y: Date)
    requires Fits(x) && Fits(y)
    requires a / 24 < b / 24 ==> Before(x, y)
    requires b / 24 < a / 24 ==> Before(y, x)
    requires a / 24 == b / 24 ==> x == y
    ensures DateText(x, a % 24) == DateText(y, b % 24) <==> a == b
    ensures LexLess(DateText(x, a % 24), DateText(y, b % 24)) <==> a < b
  {
    TextOrder(x, a % 24, y, b % 24);
  }
}
