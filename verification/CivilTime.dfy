/** The UTC timestamp of the token endpoint: civil-from-days arithmetic and the
    time-of-day split, against the Gregorian calendar of section 5.7 and
    Appendix C of RFC 3339. */
module CivilTime {
  import opened Common

  datatype Date = Date(year: int, month: int, day: int)

  // ---- the code's arithmetic ----------------------------------------------

  /** The day of a 400-year era (starting on 1 March) as a year of that era. */
  function YearOfEra(doe: int): int {
    (doe - doe / 1460 + doe / 36524 - doe / 146096) / 365
  }

  /** `days` counted from 1970-01-01. */
  function CivilFromDays(days: int): Date {
    var z := days + 719468;
    var era := z / 146097;
    var doe := z % 146097;
    var yoe := YearOfEra(doe);
    var y := yoe + era * 400;
    var doy := doe - (365 * yoe + yoe / 4 - yoe / 100);
    var mp := (5 * doy + 2) / 153;
    var d := doy - (153 * mp + 2) / 5 + 1;
    var m := if mp < 10 then mp + 3 else mp - 9;
    Date(if m <= 2 then y + 1 else y, m, d)
  }

  // ---- the calendar -------------------------------------------------------

  predicate IsLeap(year: int) {
    year % 4 == 0 && (year % 100 != 0 || year % 400 == 0)
  }

  function MonthLength(year: int, month: int): int
    requires 1 <= month <= 12
  {
    if month == 2 then (if IsLeap(year) then 29 else 28)
    else if month in {4, 6, 9, 11} then 30
    else 31
  }

  predicate ValidDate(d: Date) {
    1 <= d.month <= 12 && 1 <= d.day <= MonthLength(d.year, d.month)
  }

  function NextDay(d: Date): Date
    requires ValidDate(d)
  {
    if d.day < MonthLength(d.year, d.month) then d.(day := d.day + 1)
    else if d.month < 12 then Date(d.year, d.month + 1, 1)
    else Date(d.year + 1, 1, 1)
  }

  predicate Earlier(a: Date, b: Date) {
    a.year < b.year || (a.year == b.year && (a.month < b.month || (a.month == b.month && a.day < b.day)))
  }

  // ---- the inverse --------------------------------------------------------

  /** Days from 1 March of the era's year 0 to 1 March of year `yoe`. */
  function YearStart(yoe: int): int { 365 * yoe + yoe / 4 - yoe / 100 }

  /** Days from 1 March to the first of the month `mp` months later. */
  function MonthStart(mp: int): int { (153 * mp + 2) / 5 }

  function MarchMonth(month: int): int { if month > 2 then month - 3 else month + 9 }

  function DaysFromCivil(d: Date): int {
    var y := if d.month <= 2 then d.year - 1 else d.year;
    var era := y / 400;
    var yoe := y % 400;
    era * 146097 + YearStart(yoe) + MonthStart(MarchMonth(d.month)) + d.day - 1 - 719468
  }

  /** A day of the era as century, four-year cycle, year and day of year. The
      last day of a cycle or of the era is day 365 of its last year. */
  ghost predicate Splits(doe: int, c: int, q: int, k: int, doy: int) {
    && 0 <= c <= 3 && 0 <= q <= 24 && 0 <= k <= 3 && 0 <= doy <= 365
    && doe == 36524 * c + 1461 * q + 365 * k + doy
    && (doy == 365 ==> k == 3 && (q < 24 || c == 3))
  }

  lemma Split(doe: int) returns (c: int, q: int, k: int, doy: int)
    requires 0 <= doe < 146097
    ensures Splits(doe, c, q, k, doy)
  {
    c := if doe == 146096 then 3 else doe / 36524;
    var r := doe - 36524 * c;
    q := r / 1461;
    var s := r - 1461 * q;
    k := if s == 1460 then 3 else s / 365;
    doy := s - 365 * k;
  }

  lemma YearStartOfSplit(c: int, q: int, k: int)
    requires 0 <= c <= 3 && 0 <= q <= 24 && 0 <= k <= 3
    ensures YearStart(100 * c + 4 * q + k) == 36524 * c + 1461 * q + 365 * k
  {
    assert (100 * c + 4 * q + k) / 4 == 25 * c + q;
    assert (100 * c + 4 * q + k) / 100 == c;
  }

  lemma YearOfSplit(doe: int, c: int, q: int, k: int, doy: int)
    requires Splits(doe, c, q, k, doy)
    ensures YearOfEra(doe) == 100 * c + 4 * q + k
  {
    var over := if 24 * c + q + 365 * k + doy >= 1460 then 1 else 0;
    assert doe / 1460 == 25 * c + q + over;
    var last := if doe == 146096 then 1 else 0;
    assert doe / 36524 == c + last;
    assert doe / 146096 == last;
    assert 0 <= doy - over < 365;
  }

  lemma LeapSplit(c: int, q: int)
    requires 0 <= c <= 3 && 0 <= q <= 24 && (q < 24 || c == 3)
    ensures IsLeap(100 * c + 4 * q + 4)
  {
    if q < 24 {
      assert (100 * c + 4 * q + 4) % 100 == 4 * q + 4;
    }
  }

  lemma LeapPeriod(year: int, era: int)
    ensures IsLeap(year + 400 * era) == IsLeap(year)
  {
    var y := year + 400 * era;
    assert y / 400 == year / 400 + era && y / 100 == year / 100 + 4 * era && y / 4 == year / 4 + 100 * era;
  }

  lemma EraParts(z: int, era: int, doe: int)
    requires z == era * 146097 + doe && 0 <= doe < 146097
    ensures z / 146097 == era && z % 146097 == doe
  {
  }

  /** Month and day of a day of the (March-based) year. */
  lemma MonthOfDay(doy: int)
    requires 0 <= doy <= 365
    ensures var mp := (5 * doy + 2) / 153; 0 <= mp <= 11 && MonthStart(mp) <= doy < MonthStart(mp + 1)
  {
  }

  lemma MonthStartInverse(mp: int, day: int)
    requires 0 <= mp <= 11 && 1 <= day <= (if mp == 11 then 29 else MonthStart(mp + 1) - MonthStart(mp))
    ensures 0 <= MonthStart(mp) + day - 1 <= 365 && (5 * (MonthStart(mp) + day - 1) + 2) / 153 == mp
    ensures MonthStart(mp) + day - 1 == 365 ==> mp == 11 && day == 29
  {
  }

  lemma MonthLengths(year: int, mp: int)
    requires 0 <= mp < 11
    ensures MonthStart(mp + 1) - MonthStart(mp) == MonthLength(year, if mp < 10 then mp + 3 else mp - 9)
  {
    assert mp in {0, 1, 2, 3, 4, 5, 6, 7, 8, 9, 10};
  }

  /** A date as 400-year era, century, four-year cycle, year of the cycle,
      months since March, and day of the month. */
  datatype Parts = Parts(era: int, c: int, q: int, k: int, mp: int, day: int) {
    ghost predicate Ok() {
      && 0 <= c <= 3 && 0 <= q <= 24 && 0 <= k <= 3 && 0 <= mp <= 11 && 1 <= day
      && day <= (if mp < 11 then MonthStart(mp + 1) - MonthStart(mp) else if k == 3 && (q < 24 || c == 3) then 29 else 28)
    }
    function MarchYear(): int { 100 * c + 4 * q + k }
    function Month(): int { if mp < 10 then mp + 3 else mp - 9 }
    function ToDate(): Date { Date(MarchYear() + era * 400 + (if Month() <= 2 then 1 else 0), Month(), day) }
    function DayOfYear(): int { MonthStart(mp) + day - 1 }
    function DayOfEra(): int { 36524 * c + 1461 * q + 365 * k + DayOfYear() }
    function Days(): int { era * 146097 + DayOfEra() - 719468 }
  }

  lemma PartsDayOfYear(p: Parts)
    requires p.Ok()
    ensures (5 * p.DayOfYear() + 2) / 153 == p.mp
    ensures Splits(p.DayOfEra(), p.c, p.q, p.k, p.DayOfYear())
    ensures 0 <= p.DayOfEra() < 146097
  {
    MonthStartInverse(p.mp, p.day);
  }

  /** The code's steps, each given as an equation. */
  lemma CivilOf(days: int, era: int, doe: int, yoe: int, doy: int, mp: int)
    requires (days + 719468) / 146097 == era && (days + 719468) % 146097 == doe
    requires YearOfEra(doe) == yoe && doe - YearStart(yoe) == doy
    requires (5 * doy + 2) / 153 == mp
    ensures var m := if mp < 10 then mp + 3 else mp - 9;
      CivilFromDays(days) == Date(if m <= 2 then yoe + era * 400 + 1 else yoe + era * 400, m, doy - MonthStart(mp) + 1)
  {
  }

  /** The code turns the parts' day count into the parts' date. */
  lemma PartsCivil(p: Parts)
    requires p.Ok()
    ensures CivilFromDays(p.Days()) == p.ToDate()
  {
    PartsDayOfYear(p);
    EraParts(p.Days() + 719468, p.era, p.DayOfEra());
    YearOfSplit(p.DayOfEra(), p.c, p.q, p.k, p.DayOfYear());
    YearStartOfSplit(p.c, p.q, p.k);
    CivilOf(p.Days(), p.era, p.DayOfEra(), p.MarchYear(), p.DayOfYear(), p.mp);
  }

  lemma PartsLeap(p: Parts)
    requires p.Ok()
    ensures IsLeap(p.MarchYear() + p.era * 400 + 1) <==> p.k == 3 && (p.q < 24 || p.c == 3)
  {
    LeapPeriod(p.MarchYear() + 1, p.era);
    if p.k == 3 && (p.q < 24 || p.c == 3) {
      LeapSplit(p.c, p.q);
    }
    if IsLeap(p.MarchYear() + 1) {
      LeapLast(p.c, p.q, p.k);
    }
  }

  lemma PartsValid(p: Parts)
    requires p.Ok()
    ensures ValidDate(p.ToDate())
  {
    if p.mp < 11 {
      MonthLengths(p.ToDate().year, p.mp);
    } else {
      PartsLeap(p);
    }
  }

  lemma PartsInverse(p: Parts)
    requires p.Ok()
    ensures DaysFromCivil(p.ToDate()) == p.Days()
  {
    YearParts(p.era, p.MarchYear());
    YearStartOfSplit(p.c, p.q, p.k);
    assert MarchMonth(p.Month()) == p.mp;
  }

  lemma YearParts(era: int, yoe: int)
    requires 0 <= yoe < 400
    ensures (yoe + era * 400) / 400 == era && (yoe + era * 400) % 400 == yoe
  {
  }

  lemma PartsOfDays(days: int) returns (p: Parts)
    ensures p.Ok() && p.Days() == days
  {
    var z := days + 719468;
    var c, q, k, doy := Split(z % 146097);
    MonthOfDay(doy);
    var mp := (5 * doy + 2) / 153;
    p := Parts(z / 146097, c, q, k, mp, doy - MonthStart(mp) + 1);
  }

  lemma PartsOfDate(d: Date) returns (p: Parts)
    requires ValidDate(d)
    ensures p.Ok() && p.ToDate() == d
  {
    var y := if d.month <= 2 then d.year - 1 else d.year;
    var yoe, mp := y % 400, MarchMonth(d.month);
    p := Parts(y / 400, yoe / 100, (yoe % 100) / 4, yoe % 4, mp, d.day);
    assert p.MarchYear() == yoe;
    if mp < 11 {
      MonthLengths(d.year, mp);
    } else if d.day == 29 {
      LeapPeriod(yoe + 1, p.era);
      LeapLast(p.c, p.q, p.k);
    }
  }

  /** Every day count gives a date that exists, and the inverse returns it. */
  lemma CivilIsValid(days: int)
    ensures ValidDate(CivilFromDays(days))
    ensures DaysFromCivil(CivilFromDays(days)) == days
  {
    var p := PartsOfDays(days);
    PartsCivil(p);
    PartsValid(p);
    PartsInverse(p);
  }

  /** The inverse on every date of the calendar, before and after the epoch. */
  lemma DaysOfDate(d: Date)
    requires ValidDate(d)
    ensures CivilFromDays(DaysFromCivil(d)) == d
  {
    var p := PartsOfDate(d);
    PartsCivil(p);
    PartsInverse(p);
  }

  lemma LeapLast(c: int, q: int, k: int)
    requires 0 <= c <= 3 && 0 <= q <= 24 && 0 <= k <= 3 && IsLeap(100 * c + 4 * q + k + 1)
    ensures k == 3 && (q < 24 || c == 3)
  {
    assert (100 * c + 4 * q + k + 1) % 4 == (k + 1) % 4;
    if q == 24 && k == 3 {
      assert 100 * c + 4 * q + k + 1 == 100 * (c + 1);
    }
  }

  lemma DayBeforeNext(d: Date)
    requires ValidDate(d)
    ensures ValidDate(NextDay(d)) && DaysFromCivil(NextDay(d)) == DaysFromCivil(d) + 1
  {
    var mp := MarchMonth(d.month);
    if d.day == MonthLength(d.year, d.month) {
      if mp < 11 {
        MonthLengths(d.year, mp);
      } else {
        MarchFollows(d.year);
      }
    }
  }

  /** The March-based year that ends with February of `year` has that February's length. */
  lemma MarchFollows(year: int)
    ensures DaysFromCivil(Date(year, 3, 1)) == DaysFromCivil(Date(year, 2, MonthLength(year, 2))) + 1
  {
    var era, yoe := (year - 1) / 400, (year - 1) % 400;
    EraFollows(era, yoe);
    assert DaysFromCivil(Date(year, 3, 1)) == MarchFirst(year) - 719468;
    assert DaysFromCivil(Date(year, 2, MonthLength(year, 2)))
        == MarchFirst(year - 1) + 337 + MonthLength(year, 2) - 1 - 719468;
  }

  /** 1 March of a year, counted from 1 March of the year 0. */
  function MarchFirst(year: int): int { year / 400 * 146097 + YearStart(year % 400) }

  lemma EraFollows(era: int, yoe: int)
    requires 0 <= yoe < 400
    ensures MarchFirst(era * 400 + yoe + 1) == MarchFirst(era * 400 + yoe) + (if IsLeap(era * 400 + yoe + 1) then 366 else 365)
  {
    LeapPeriod(yoe + 1, era);
    YearParts(era, yoe);
    if yoe == 399 {
      YearParts(era + 1, 0);
    } else {
      YearParts(era, yoe + 1);
      NextYear(yoe);
    }
  }

  lemma NextYear(yoe: int)
    requires 0 <= yoe < 399
    ensures YearStart(yoe + 1) == YearStart(yoe) + (if IsLeap(yoe + 1) then 366 else 365)
  {
    var c, q, k := yoe / 100, (yoe % 100) / 4, yoe % 4;
    assert yoe == 100 * c + 4 * q + k;
    NextYearStart(c, q, k);
  }

  lemma NextYearStart(c: int, q: int, k: int)
    requires 0 <= c <= 3 && 0 <= q <= 24 && 0 <= k <= 3
    requires !(c == 3 && q == 24 && k == 3)
    ensures var yoe := 100 * c + 4 * q + k;
      YearStart(yoe + 1) == YearStart(yoe) + (if IsLeap(yoe + 1) then 366 else 365)
  {
    YearStartOfSplit(c, q, k);
    if k < 3 {
      YearStartOfSplit(c, q, k + 1);
      assert (100 * c + 4 * q + k + 1) % 4 == k + 1;
    } else if q < 24 {
      YearStartOfSplit(c, q + 1, 0);
      LeapSplit(c, q);
    } else {
      YearStartOfSplit(c + 1, 0, 0);
      assert 100 * c + 4 * q + k + 1 == 100 * (c + 1);
    }
  }

  lemma Epoch()
    ensures CivilFromDays(0) == Date(1970, 1, 1)
  {
    EraParts(719468, 4, 135080);
    YearOfSplit(135080, 3, 17, 1, 306);
    YearStartOfSplit(3, 17, 1);
  }

  /** Day 0 is the epoch, and each next day count is the calendar's next day. */
  lemma CivilSteps(days: int)
    ensures CivilFromDays(0) == Date(1970, 1, 1)
    ensures ValidDate(CivilFromDays(days)) && CivilFromDays(days + 1) == NextDay(CivilFromDays(days))
  {
    Epoch();
    CivilIsValid(days);
    DayBeforeNext(CivilFromDays(days));
    DaysOfDate(NextDay(CivilFromDays(days)));
  }

  /** The map is a bijection between day counts and dates, and keeps order. */
  lemma {:induction false} CivilMonotone(m: int, n: int)
    requires m < n
    ensures Earlier(CivilFromDays(m), CivilFromDays(n))
    decreases n - m
  {
    CivilSteps(n - 1);
    assert Earlier(CivilFromDays(n - 1), CivilFromDays(n));
    if m < n - 1 {
      CivilMonotone(m, n - 1);
    }
  }

  // ---- the printed timestamp ----------------------------------------------

  function Zeros(n: nat): (z: string)
    ensures |z| == n
  {
    if n == 0 then "" else Zeros(n - 1) + "0"
  }

  /** Zero-padded to at least `width` digits. */
  function Padded(n: nat, width: nat): string {
    var d := Decimal(n);
    Zeros(if |d| < width then width - |d| else 0) + d
  }

  function Joined(a: string, b: string, c: string, sep: string): string { a + sep + b + sep + c }

  function DateText(d: Date): string
    requires 0 <= d.year && ValidDate(d)
  {
    Joined(Padded(d.year, 4), Padded(d.month, 2), Padded(d.day, 2), "-")
  }

  function TimeText(rem: nat): string {
    Joined(Padded(rem / 3600, 2), Padded((rem % 3600) / 60, 2), Padded(rem % 60, 2), ":")
  }

  /** The clock value is a count of seconds since the epoch, never negative. */
  function Timestamp(secs: nat): string {
    var days := secs / 86400;
    CivilIsValid(days);
    YearNotBefore(days);
    DateText(CivilFromDays(days)) + "T" + TimeText(secs % 86400) + "Z"
  }

  lemma YearNotBefore(days: nat)
    ensures CivilFromDays(days).year >= 1970
  {
    Epoch();
    if days > 0 {
      CivilMonotone(0, days);
    }
  }

  // ---- reading it back ----------------------------------------------------

  /** A decimal number; None if some character is no digit. */
  function Reads(s: string): Option<nat> {
    if s == "" then Some(0)
    else
      var c := s[|s| - 1];
      match Reads(s[..|s| - 1])
      case None => None
      case Some(n) => if '0' <= c <= '9' then Some(10 * n + (c - '0') as int) else None
  }

  lemma {:induction false} DecimalReads(n: nat)
    ensures Reads(Decimal(n)) == Some(n) && Decimal(n) != ""
  {
    var d := Decimal(n);
    if n < 10 {
      assert d[..0] == "";
      DigitReads(n);
    } else {
      DecimalReads(n / 10);
      DigitReads(n % 10);
      assert d[..|d| - 1] == Decimal(n / 10);
    }
  }

  lemma DigitReads(n: nat)
    requires n < 10
    ensures '0' <= Digit(n) <= '9' && (Digit(n) - '0') as int == n
  {
  }

  lemma {:induction false} ZerosRead(z: nat, s: string)
    requires Reads(s).Some?
    ensures Reads(Zeros(z) + s) == Reads(s)
    decreases |s|
  {
    if s == "" {
      ZerosAreZero(z);
      assert Zeros(z) + s == Zeros(z);
    } else {
      ZerosRead(z, s[..|s| - 1]);
      assert (Zeros(z) + s)[..|Zeros(z) + s| - 1] == Zeros(z) + s[..|s| - 1];
    }
  }

  lemma {:induction false} ZerosAreZero(z: nat)
    ensures Reads(Zeros(z)) == Some(0)
  {
    if z > 0 {
      ZerosAreZero(z - 1);
      assert Zeros(z)[..|Zeros(z)| - 1] == Zeros(z - 1);
    }
  }

  lemma {:induction false} DecimalShort(n: nat, width: nat)
    requires width > 0 && n < Pow10(width)
    ensures |Decimal(n)| <= width
  {
    if n >= 10 {
      assert width > 1;
      DecimalShort(n / 10, width - 1);
    }
  }

  lemma PaddedReads(n: nat, width: nat)
    requires width > 0 && n < Pow10(width)
    ensures |Padded(n, width)| == width && Reads(Padded(n, width)) == Some(n)
  {
    DecimalReads(n);
    DecimalShort(n, width);
    ZerosRead(width - |Decimal(n)|, Decimal(n));
  }

  /** The clock value a timestamp stands for, from its digits at the places that
      section 5.6 of RFC 3339 gives them. */
  function SecondsOf(s: string): Option<int> {
    match NumbersOf(s)
    case None => None
    case Some(v) =>
      var d := Date(v.y, v.m, v.d);
      if ValidDate(d) && v.h < 24 && v.n < 60 && v.c < 60
      then Some(DaysFromCivil(d) * 86400 + v.h * 3600 + v.n * 60 + v.c) else None
  }

  datatype Six<+T> = Six(y: T, m: T, d: T, h: T, n: T, c: T)

  function NumbersOf(s: string): Option<Six<int>> {
    match FieldsOf(s)
    case None => None
    case Some(f) =>
      if Reads(f.y).None? || Reads(f.m).None? || Reads(f.d).None? || Reads(f.h).None? || Reads(f.n).None? || Reads(f.c).None? then None
      else Some(Six(Reads(f.y).value, Reads(f.m).value, Reads(f.d).value, Reads(f.h).value, Reads(f.n).value, Reads(f.c).value))
  }

  function FieldsOf(s: string): Option<Six<string>> {
    if |s| == 20 && s[4] == '-' && s[7] == '-' && s[10] == 'T' && s[13] == ':' && s[16] == ':' && s[19] == 'Z'
    then Some(Six(s[..4], s[5..7], s[8..10], s[11..13], s[14..16], s[17..19])) else None
  }

  lemma JoinedAt(a: string, b: string, c: string, sep: string)
    requires |sep| == 1 && |b| == 2 && |c| == 2
    ensures var j, n := Joined(a, b, c, sep), |a|;
      && |j| == n + 6 && j[..n] == a && j[n] == sep[0] && j[n + 1..n + 3] == b && j[n + 3] == sep[0] && j[n + 4..n + 6] == c
  {
  }

  lemma SliceAt(s: string, part: string, at: nat, i: nat, j: nat)
    requires i <= j <= |part| && at + |part| <= |s| && forall k :: 0 <= k < |part| ==> s[at + k] == part[k]
    ensures s[at + i..at + j] == part[i..j]
  {
  }

  lemma TimeParts(rem: nat)
    requires rem < 86400
    ensures rem / 3600 < 24 && (rem % 3600) / 60 < 60
    ensures rem / 3600 * 3600 + (rem % 3600) / 60 * 60 + rem % 60 == rem
  {
    assert rem % 60 == (rem % 3600) % 60;
  }

  /** A timestamp of up to the year 9999 reads back as the clock value. */
  lemma TimestampReads(secs: nat)
    requires secs < DAY_10000 * 86400
    ensures SecondsOf(Timestamp(secs)) == Some(secs)
  {
    var d, h, n, c := SecondParts(secs);
    ReadsBack(Timestamp(secs), secs, d, h, n, c);
  }

  lemma ReadsBack(s: string, secs: int, d: Date, h: nat, n: nat, c: nat)
    requires ValidDate(d) && 0 <= d.year < 10000 && h < 24 && n < 60 && c < 60
    requires s == DateText(d) + "T" + Joined(Padded(h, 2), Padded(n, 2), Padded(c, 2), ":") + "Z"
    requires DaysFromCivil(d) * 86400 + h * 3600 + n * 60 + c == secs
    ensures SecondsOf(s) == Some(secs)
  {
    StampReads(s, d, h, n, c);
    NumbersGive(s, d, h, n, c);
  }

  lemma NumbersGive(s: string, d: Date, h: int, n: int, c: int)
    requires NumbersOf(s) == Some(Six(d.year, d.month, d.day, h, n, c)) && ValidDate(d) && h < 24 && n < 60 && c < 60
    ensures SecondsOf(s) == Some(DaysFromCivil(d) * 86400 + h * 3600 + n * 60 + c)
  {
    assert Date(d.year, d.month, d.day) == d;
  }

  /** The date and the time of day of a clock value. */
  lemma SecondParts(secs: nat) returns (d: Date, h: nat, n: nat, c: nat)
    requires secs < DAY_10000 * 86400
    ensures ValidDate(d) && 0 <= d.year < 10000 && h < 24 && n < 60 && c < 60
    ensures Timestamp(secs) == DateText(d) + "T" + Joined(Padded(h, 2), Padded(n, 2), Padded(c, 2), ":") + "Z"
    ensures DaysFromCivil(d) * 86400 + h * 3600 + n * 60 + c == secs
  {
    var days, rem := secs / 86400, secs % 86400;
    CivilIsValid(days);
    YearNotBefore(days);
    YearBound(days);
    TimeParts(rem);
    d, h, n, c := CivilFromDays(days), rem / 3600, (rem % 3600) / 60, rem % 60;
  }

  lemma StampReads(s: string, d: Date, h: nat, n: nat, c: nat)
    requires ValidDate(d) && 0 <= d.year < 10000 && h < 24 && n < 60 && c < 60
    requires s == DateText(d) + "T" + Joined(Padded(h, 2), Padded(n, 2), Padded(c, 2), ":") + "Z"
    ensures NumbersOf(s) == Some(Six(d.year, d.month, d.day, h, n, c))
  {
    var f := FieldTexts(d, h, n, c);
    StampFields(s, f);
  }

  lemma FieldTexts(d: Date, h: nat, n: nat, c: nat) returns (f: Six<string>)
    requires ValidDate(d) && 0 <= d.year < 10000 && h < 24 && n < 60 && c < 60
    ensures f == Six(Padded(d.year, 4), Padded(d.month, 2), Padded(d.day, 2), Padded(h, 2), Padded(n, 2), Padded(c, 2))
    ensures |f.y| == 4 && |f.m| == 2 && |f.d| == 2 && |f.h| == 2 && |f.n| == 2 && |f.c| == 2
    ensures Reads(f.y) == Some(d.year) && Reads(f.m) == Some(d.month) && Reads(f.d) == Some(d.day)
    ensures Reads(f.h) == Some(h) && Reads(f.n) == Some(n) && Reads(f.c) == Some(c)
  {
    var y := FourDigits(d.year);
    var m := TwoDigits(d.month);
    var e := TwoDigits(d.day);
    var u := TwoDigits(h);
    var v := TwoDigits(n);
    var w := TwoDigits(c);
    f := Six(y, m, e, u, v, w);
  }

  lemma StampFields(s: string, f: Six<string>)
    requires |f.y| == 4 && |f.m| == 2 && |f.d| == 2 && |f.h| == 2 && |f.n| == 2 && |f.c| == 2
    requires s == Joined(f.y, f.m, f.d, "-") + "T" + Joined(f.h, f.n, f.c, ":") + "Z"
    ensures FieldsOf(s) == Some(f)
  {
    FieldsAt(f.y, f.m, f.d, f.h, f.n, f.c);
  }

  lemma TwoDigits(n: int) returns (s: string)
    requires 0 <= n < 100
    ensures s == Padded(n, 2) && |s| == 2 && Reads(s) == Some(n)
  {
    assert Pow10(2) == 100;
    PaddedReads(n, 2);
    s := Padded(n, 2);
  }

  lemma FourDigits(n: int) returns (s: string)
    requires 0 <= n < 10000
    ensures s == Padded(n, 4) && |s| == 4 && Reads(s) == Some(n)
  {
    assert Pow10(4) == 100 * Pow10(2) && Pow10(2) == 100;
    PaddedReads(n, 4);
    s := Padded(n, 4);
  }

  lemma StampAt(date: string, time: string)
    ensures var s := date + "T" + time + "Z";
      && |s| == |date| + |time| + 2 && s[|date|] == 'T' && s[|date| + 1 + |time|] == 'Z'
      && (forall k :: 0 <= k < |date| ==> s[0 + k] == date[k])
      && (forall k :: 0 <= k < |time| ==> s[|date| + 1 + k] == time[k])
  {
  }

  /** Three joined fields inside a longer text. */
  lemma PlacedAt(s: string, at: nat, a: string, b: string, c: string, sep: string)
    requires |sep| == 1 && |b| == 2 && |c| == 2
    requires var j := Joined(a, b, c, sep); at + |j| <= |s| && forall k :: 0 <= k < |j| ==> s[at + k] == j[k]
    ensures var n := at + |a|;
      && n + 6 <= |s|
      && s[at..n] == a && s[n] == sep[0] && s[n + 1..n + 3] == b && s[n + 3] == sep[0] && s[n + 4..n + 6] == c
  {
    var j, n := Joined(a, b, c, sep), |a|;
    JoinedAt(a, b, c, sep);
    assert s[at + n] == sep[0] && s[at + (n + 3)] == sep[0];
    SliceAt(s, j, at, 0, n);
    SliceAt(s, j, at, n + 1, n + 3);
    SliceAt(s, j, at, n + 4, n + 6);
  }

  /** Where the six fields stand. */
  lemma FieldsAt(y: string, m: string, d: string, h: string, n: string, c: string)
    requires |y| == 4 && |m| == 2 && |d| == 2 && |h| == 2 && |n| == 2 && |c| == 2
    ensures var s := Joined(y, m, d, "-") + "T" + Joined(h, n, c, ":") + "Z";
      && |s| == 20 && s[4] == '-' && s[7] == '-' && s[10] == 'T' && s[13] == ':' && s[16] == ':' && s[19] == 'Z'
      && s[..4] == y && s[5..7] == m && s[8..10] == d && s[11..13] == h && s[14..16] == n && s[17..19] == c
  {
    var date, time := Joined(y, m, d, "-"), Joined(h, n, c, ":");
    var s := date + "T" + time + "Z";
    JoinedAt(y, m, d, "-");
    JoinedAt(h, n, c, ":");
    StampAt(date, time);
    PlacedAt(s, 0, y, m, d, "-");
    PlacedAt(s, 11, h, n, c, ":");
  }

  /** String order, by the first character that differs. */
  ghost predicate Before(a: string, b: string) {
    exists k :: 0 <= k < |a| && k < |b| && a[..k] == b[..k] && a[k] < b[k]
  }

  lemma BeforeHead(a: string, b: string, x: string, y: string)
    requires Before(a, b)
    ensures Before(a + x, b + y)
  {
    var k :| 0 <= k < |a| && k < |b| && a[..k] == b[..k] && a[k] < b[k];
    assert (a + x)[..k] == a[..k] && (b + y)[..k] == b[..k];
  }

  lemma BeforeTail(a: string, x: string, y: string)
    requires Before(x, y)
    ensures Before(a + x, a + y)
  {
    var k :| 0 <= k < |x| && k < |y| && x[..k] == y[..k] && x[k] < y[k];
    assert (a + x)[..|a| + k] == a + x[..k] && (a + y)[..|a| + k] == a + y[..k];
    assert (a + x)[|a| + k] == x[k] && (a + y)[|a| + k] == y[k];
  }

  lemma PaddedStep(n: nat, width: nat)
    requires width > 0
    ensures Padded(n, width + 1) == Padded(n / 10, width) + [Digit(n % 10)]
  {
    if n < 10 {
      assert Decimal(n / 10) == "0";
      assert Zeros(width) == Zeros(width - 1) + "0";
    }
  }

  function Pow10(w: nat): nat { if w == 0 then 1 else 10 * Pow10(w - 1) }

  lemma LastDigitOrder(head: string, m: nat, n: nat)
    requires m < n && m / 10 == n / 10
    ensures Before(head + [Digit(m % 10)], head + [Digit(n % 10)])
  {
    var x, y := [Digit(m % 10)], [Digit(n % 10)];
    assert m % 10 < n % 10;
    assert x[..0] == y[..0] && x[0] < y[0];
    BeforeTail(head, x, y);
  }

  /** Equal-width decimals sort by value. */
  lemma {:induction false} PaddedOrder(m: nat, n: nat, width: nat)
    requires width > 0 && m < n < Pow10(width)
    ensures Before(Padded(m, width), Padded(n, width))
  {
    if width == 1 {
      assert Padded(m, 1) == "" + [Digit(m)] && Padded(n, 1) == "" + [Digit(n)];
      LastDigitOrder("", m, n);
    } else {
      PaddedStep(m, width - 1);
      PaddedStep(n, width - 1);
      if m / 10 == n / 10 {
        LastDigitOrder(Padded(m / 10, width - 1), m, n);
      } else {
        assert Pow10(width) == 10 * Pow10(width - 1);
        PaddedOrder(m / 10, n / 10, width - 1);
        BeforeHead(Padded(m / 10, width - 1), Padded(n / 10, width - 1), [Digit(m % 10)], [Digit(n % 10)]);
      }
    }
  }

  /** Three separated fields sort by the first that differs. */
  lemma JoinedOrder(a: string, b: string, c: string, x: string, y: string, z: string, sep: string)
    requires Before(a, x) || (a == x && (Before(b, y) || (b == y && Before(c, z))))
    ensures Before(Joined(a, b, c, sep), Joined(x, y, z, sep))
  {
    assert Joined(a, b, c, sep) == a + (sep + (b + (sep + c)));
    assert Joined(x, y, z, sep) == x + (sep + (y + (sep + z)));
    if Before(a, x) {
      BeforeHead(a, x, sep + (b + (sep + c)), sep + (y + (sep + z)));
    } else {
      if Before(b, y) {
        BeforeHead(b, y, sep + c, sep + z);
      } else {
        BeforeTail(sep, c, z);
        BeforeTail(b, sep + c, sep + z);
      }
      BeforeTail(sep, b + (sep + c), y + (sep + z));
      BeforeTail(a, sep + (b + (sep + c)), sep + (y + (sep + z)));
    }
  }

  lemma DateOrder(a: Date, b: Date)
    requires ValidDate(a) && ValidDate(b) && 0 <= a.year && b.year <= 9999 && Earlier(a, b)
    ensures Before(DateText(a), DateText(b))
  {
    if a.year < b.year {
      PaddedOrder(a.year, b.year, 4);
    } else if a.month < b.month {
      PaddedOrder(a.month, b.month, 2);
    } else {
      PaddedOrder(a.day, b.day, 2);
    }
    JoinedOrder(Padded(a.year, 4), Padded(a.month, 2), Padded(a.day, 2),
                Padded(b.year, 4), Padded(b.month, 2), Padded(b.day, 2), "-");
  }

  lemma TimeOrder(m: nat, n: nat)
    requires m < n < 86400
    ensures Before(TimeText(m), TimeText(n))
  {
    if m / 3600 < n / 3600 {
      PaddedOrder(m / 3600, n / 3600, 2);
    } else {
      SameHour(m, n);
      if (m % 3600) / 60 < (n % 3600) / 60 {
        PaddedOrder((m % 3600) / 60, (n % 3600) / 60, 2);
      } else {
        PaddedOrder(m % 60, n % 60, 2);
      }
    }
    JoinedOrder(Padded(m / 3600, 2), Padded((m % 3600) / 60, 2), Padded(m % 60, 2),
                Padded(n / 3600, 2), Padded((n % 3600) / 60, 2), Padded(n % 60, 2), ":");
  }

  lemma SameHour(m: nat, n: nat)
    requires m < n < 86400 && m / 3600 >= n / 3600
    ensures m / 3600 == n / 3600
    ensures (m % 3600) / 60 < (n % 3600) / 60 || ((m % 3600) / 60 == (n % 3600) / 60 && m % 60 < n % 60)
  {
    assert m % 60 == m % 3600 - 60 * ((m % 3600) / 60);
    assert n % 60 == n % 3600 - 60 * ((n % 3600) / 60);
  }

  lemma DayOrder(m: nat, n: nat)
    requires m < n && CivilFromDays(n).year <= 9999
    ensures ValidDate(CivilFromDays(m)) && ValidDate(CivilFromDays(n))
    ensures 1970 <= CivilFromDays(m).year && 1970 <= CivilFromDays(n).year
    ensures Before(DateText(CivilFromDays(m)), DateText(CivilFromDays(n)))
  {
    CivilIsValid(m);
    CivilIsValid(n);
    YearNotBefore(m);
    YearNotBefore(n);
    CivilMonotone(m, n);
    DateOrder(CivilFromDays(m), CivilFromDays(n));
  }

  lemma StampOrder(d: string, t: string, e: string, u: string)
    requires Before(d, e) || (d == e && Before(t, u))
    ensures Before(d + "T" + t + "Z", e + "T" + u + "Z")
  {
    assert d + "T" + t + "Z" == d + ("T" + (t + "Z")) && e + "T" + u + "Z" == e + ("T" + (u + "Z"));
    if Before(d, e) {
      BeforeHead(d, e, "T" + (t + "Z"), "T" + (u + "Z"));
    } else {
      BeforeHead(t, u, "Z", "Z");
      BeforeTail("T", t + "Z", u + "Z");
      BeforeTail(d, "T" + (t + "Z"), "T" + (u + "Z"));
    }
  }

  /** The first day of the year 10000. */
  const DAY_10000: nat := 2932897

  lemma YearBound(days: nat)
    requires days < DAY_10000
    ensures CivilFromDays(days).year <= 9999
  {
    LastYears();
    if days < DAY_10000 - 1 { CivilMonotone(days, DAY_10000 - 1); }
  }

  /** Up to the end of year 9999, sorting timestamps as text sorts by time. */
  lemma TimestampOrder(s: nat, t: nat)
    requires s < t < DAY_10000 * 86400
    ensures Before(Timestamp(s), Timestamp(t))
  {
    var m, n := s / 86400, t / 86400;
    YearBound(n);
    if m < n {
      DayOrder(m, n);
      StampOrder(DateText(CivilFromDays(m)), TimeText(s % 86400), DateText(CivilFromDays(n)), TimeText(t % 86400));
    } else {
      assert s % 86400 < t % 86400 && m == n;
      TimeOrder(s % 86400, t % 86400);
      CivilIsValid(m);
      YearNotBefore(m);
      StampOrder(DateText(CivilFromDays(m)), TimeText(s % 86400), DateText(CivilFromDays(m)), TimeText(t % 86400));
    }
  }

  lemma StampLead(secs: nat)
    ensures Timestamp(secs) != ""
    ensures var year := Padded(CivilFromDays(secs / 86400).year, 4); year != "" ==> Timestamp(secs)[0] == year[0]
  {
  }

  lemma DecimalLead(n: nat)
    requires n >= 10
    ensures |Decimal(n)| == |Decimal(n / 10)| + 1 && Decimal(n / 10) != "" && Decimal(n)[0] == Decimal(n / 10)[0]
  {
  }

  lemma LeadOf10000()
    ensures |Decimal(10000)| == 5 && Decimal(10000)[0] == '1'
  {
    DecimalLead(10000);
    DecimalLead(1000);
    DecimalLead(100);
    DecimalLead(10);
  }

  lemma LeadOf9999()
    ensures |Decimal(9999)| == 4 && Decimal(9999)[0] == '9'
  {
    DecimalLead(9999);
    DecimalLead(999);
    DecimalLead(99);
  }

  /** And no further: a year of five digits sorts before the last of four. */
  lemma TimestampOrderEnds(s: nat, t: nat)
    requires s / 86400 == DAY_10000 - 1 && t / 86400 == DAY_10000
    ensures s < t && Before(Timestamp(t), Timestamp(s))
  {
    LastYears();
    LeadOf10000();
    LeadOf9999();
    StampLead(s);
    StampLead(t);
    LeadDecides(Timestamp(t), Timestamp(s));
  }

  lemma LastYears()
    ensures CivilFromDays(DAY_10000 - 1).year == 9999 && CivilFromDays(DAY_10000).year == 10000
  {
    assert DaysFromCivil(Date(9999, 12, 31)) == DAY_10000 - 1 && DaysFromCivil(Date(10000, 1, 1)) == DAY_10000;
    DaysOfDate(Date(9999, 12, 31));
    DaysOfDate(Date(10000, 1, 1));
  }

  lemma LeadDecides(a: string, b: string)
    requires a != "" && b != "" && a[0] < b[0]
    ensures Before(a, b)
  {
    assert a[..0] == b[..0];
  }
}
