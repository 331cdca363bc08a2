/** Release days as the changelog writes them (parseReleaseDate and its date forms in
    scripts/changelog-stamp.ts), and why comparing them as strings compares them as days. */
module ReleaseDates {
  import opened Wrappers
  import opened Digits
  import opened StringOrder

  datatype ReleaseDate = ReleaseDate(iso: string, year: int, month: int, day: int)

  // ── Numbers in strings ────────────────────────────────────────────────────────────────────

  predicate IsDigit(c: char) { '0' <= c <= '9' }

  predicate AllDigits(s: string) { forall i :: 0 <= i < |s| ==> IsDigit(s[i]) }

  function DigitsOf(s: string): (r: seq<nat>)
    requires AllDigits(s)
    ensures |r| == |s| && forall i :: 0 <= i < |r| ==> r[i] == (s[i] as int - '0' as int) && r[i] < 10
  {
    seq(|s|, i requires 0 <= i < |s| => s[i] as int - '0' as int)
  }

  function Number(s: string): nat
    requires AllDigits(s)
  {
    ValueOf(DigitsOf(s), 10)
  }

  function DigitChar(d: nat): (r: char)
    requires d < 10
    ensures IsDigit(r) && r as int - '0' as int == d
  {
    ('0' as int + d) as char
  }

  /** A number as it prints. */
  function Decimal(n: nat): (r: string)
    ensures r != [] && AllDigits(r)
  {
    var digits := NumeralOf(n, 10);
    seq(|digits|, i requires 0 <= i < |digits| => DigitChar(digits[i]))
  }

  lemma NumberReadsBack(n: nat)
    ensures Number(Decimal(n)) == n
  {
    ReadsBack(n, 10);
    assert DigitsOf(Decimal(n)) == NumeralOf(n, 10);
  }

  // ── The calendar ──────────────────────────────────────────────────────────────────────────

  predicate IsLeap(year: int) { year % 4 == 0 && (year % 100 != 0 || year % 400 == 0) }

  function DaysIn(year: int, month: int): (r: int)
    ensures 28 <= r <= 31
  {
    if month == 2 then if IsLeap(year) then 29 else 28
    else if month == 4 || month == 6 || month == 9 || month == 11 then 30
    else 31
  }

  datatype Day = Day(year: int, month: int, day: int)
  {
    predicate Real() { 1 <= month <= 12 && 1 <= day <= DaysIn(year, month) }

    predicate Before(other: Day) {
      year < other.year || (year == other.year && (month < other.month || (month == other.month && day < other.day)))
    }
  }

  function NextMonth(d: Day, days: int): Day {
    if d.month == 12 then Day(d.year + 1, 1, days) else Day(d.year, d.month + 1, days)
  }

  function LastMonth(d: Day, days: int): Day {
    if d.month == 1 then Day(d.year - 1, 12, days) else Day(d.year, d.month - 1, days)
  }

  /** A day out of its month's range runs over into the months around it. */
  function Roll(d: Day): (r: Day)
    requires 1 <= d.month <= 12
    ensures r.Real()
    decreases if d.day < 1 then 32 - d.day else d.day
  {
    if d.day < 1 then
      var last := LastMonth(d, 0);
      Roll(LastMonth(d, d.day + DaysIn(last.year, last.month)))
    else if d.day > DaysIn(d.year, d.month) then Roll(NextMonth(d, d.day - DaysIn(d.year, d.month)))
    else d
  }

  /** The fields a UTC date built from these numbers reads back with: a year below 100 is taken as 19xx,
      months and days out of range run over. */
  function UtcFields(year: int, month: int, day: int): (r: Day)
    ensures r.Real()
  {
    var y := if 0 <= year <= 99 then 1900 + year else year;
    var first := Day(y + (month - 1) / 12, (month - 1) % 12 + 1, day);
    RollsAway(first);
    Roll(first)
  }

  /** The day's number, counting from March 1 of the year 0: a year's months run from March to the February after it,
      and every fourth year but not every hundredth, though every four hundredth, has a day more. */
  function DayNumber(d: Day): int
    requires 1 <= d.month <= 12
  {
    var year := if d.month <= 2 then d.year - 1 else d.year;
    var month := if d.month <= 2 then d.month + 9 else d.month - 3;
    365 * year + year / 4 - year / 100 + year / 400 + (153 * month + 2) / 5 + d.day - 1
  }

  lemma LeapYears(year: int)
    ensures year / 4 - (year - 1) / 4 == if year % 4 == 0 then 1 else 0
    ensures year / 100 - (year - 1) / 100 == if year % 100 == 0 then 1 else 0
    ensures year / 400 - (year - 1) / 400 == if year % 400 == 0 then 1 else 0
    ensures year % 100 == 0 ==> year % 4 == 0
    ensures year % 400 == 0 ==> year % 100 == 0
  {
  }

  /** A month is as long as the numbers of its days say. */
  lemma MonthLength(d: Day)
    requires 1 <= d.month <= 12
    ensures DayNumber(NextMonth(d, d.day - DaysIn(d.year, d.month))) == DayNumber(d)
  {
    LeapYears(d.year);
  }

  lemma MonthBefore(d: Day)
    requires 1 <= d.month <= 12
    ensures var last := LastMonth(d, 0);
            DayNumber(LastMonth(d, d.day + DaysIn(last.year, last.month))) == DayNumber(d)
  {
    var last := LastMonth(d, 0);
    MonthLength(LastMonth(d, d.day + DaysIn(last.year, last.month)));
  }

  /** Running over keeps the day's number, and ends on a day of the calendar. */
  lemma {:induction false} RollKeepsTheDay(d: Day)
    requires 1 <= d.month <= 12
    ensures Roll(d).Real() && DayNumber(Roll(d)) == DayNumber(d)
    decreases if d.day < 1 then 32 - d.day else d.day
  {
    if d.day < 1 {
      var last := LastMonth(d, 0);
      MonthBefore(d);
      RollKeepsTheDay(LastMonth(d, d.day + DaysIn(last.year, last.month)));
    } else if d.day > DaysIn(d.year, d.month) {
      MonthLength(d);
      RollKeepsTheDay(NextMonth(d, d.day - DaysIn(d.year, d.month)));
    }
  }

  /** The fields read back are a calendar day with the number of the day given, its month counted on through the years. */
  lemma UtcExact(year: int, month: int, day: int) returns (y: int, m: int)
    ensures 1 <= m <= 12 && 12 * y + m == 12 * (if 0 <= year <= 99 then 1900 + year else year) + month
    ensures UtcFields(year, month, day).Real() && DayNumber(UtcFields(year, month, day)) == DayNumber(Day(y, m, day))
  {
    y, m := (if 0 <= year <= 99 then 1900 + year else year) + (month - 1) / 12, (month - 1) % 12 + 1;
    RollKeepsTheDay(Day(y, m, day));
  }

  predicate HasShape(s: string) {
    |s| == 10 && s[4] == '-' && s[7] == '-' && AllDigits(s[..4]) && AllDigits(s[5..7]) && AllDigits(s[8..])
  }

  function ParseReleaseDate(s: string): (r: Option<ReleaseDate>)
    ensures r.Some? ==> r.value.iso == s && |s| == 10 && r.value.year >= 0 && 1 <= r.value.month <= 12
  {
    if !HasShape(s) then None
    else
      var year, month, day := Number(s[..4]), Number(s[5..7]), Number(s[8..]);
      if UtcFields(year, month, day) != Day(year, month, day) then None else Some(ReleaseDate(s, year, month, day))
  }

  /** Running over always moves to another month. */
  lemma {:induction false} RollsAway(d: Day)
    requires 1 <= d.month <= 12
    ensures Roll(d).Real()
    ensures d.day < 1 ==> Roll(d).year < d.year || (Roll(d).year == d.year && Roll(d).month < d.month)
    ensures d.day > DaysIn(d.year, d.month) ==> d.year < Roll(d).year || (Roll(d).year == d.year && d.month < Roll(d).month)
    decreases if d.day < 1 then 32 - d.day else d.day
  {
    if d.day < 1 {
      var last := LastMonth(d, 0);
      RollsAway(LastMonth(d, d.day + DaysIn(last.year, last.month)));
    } else if d.day > DaysIn(d.year, d.month) {
      RollsAway(NextMonth(d, d.day - DaysIn(d.year, d.month)));
    }
  }

  /** The fields read back as given exactly for a real day of the year 100 or later. */
  lemma FieldsReadBack(year: int, month: int, day: int)
    requires 0 <= year && 0 <= month < 100 && 0 <= day < 100
    ensures UtcFields(year, month, day) == Day(year, month, day) <==> year >= 100 && Day(year, month, day).Real()
  {
    var y := if year <= 99 then 1900 + year else year;
    RollsAway(Day(y + (month - 1) / 12, (month - 1) % 12 + 1, day));
    if 1 <= month <= 12 {
      assert (month - 1) / 12 == 0;
    } else {
      assert !Day(year, month, day).Real();
    }
  }

  /** Accepted: exactly the days of the calendar from the year 100 on. */
  lemma AcceptsCalendarDays(s: string)
    ensures ParseReleaseDate(s).Some? <==>
              HasShape(s) && Number(s[..4]) >= 100 && Day(Number(s[..4]), Number(s[5..7]), Number(s[8..])).Real()
  {
    if HasShape(s) {
      TwoDigits(s[5..7]);
      TwoDigits(s[8..]);
      FieldsReadBack(Number(s[..4]), Number(s[5..7]), Number(s[8..]));
    }
  }

  /** A real day's string parses to it. */
  lemma DayOf(y: string, m: string, d: string, year: int, month: int, day: int) returns (date: ReleaseDate)
    requires |y| == 4 && |m| == 2 && |d| == 2 && AllDigits(y) && AllDigits(m) && AllDigits(d)
    requires DigitsOf(y)[0] * 1000 + DigitsOf(y)[1] * 100 + DigitsOf(y)[2] * 10 + DigitsOf(y)[3] == year >= 100
    requires DigitsOf(m)[0] * 10 + DigitsOf(m)[1] == month && DigitsOf(d)[0] * 10 + DigitsOf(d)[1] == day
    requires Day(year, month, day).Real()
    ensures date == ReleaseDate(y + "-" + m + "-" + d, year, month, day) && ParseReleaseDate(date.iso) == Some(date)
  {
    var s := y + "-" + m + "-" + d;
    assert s[..4] == y && s[5..7] == m && s[8..] == d;
    FourDigits(y);
    TwoDigits(m);
    TwoDigits(d);
    FieldsReadBack(year, month, day);
    date := ReleaseDate(s, year, month, day);
  }

  lemma FourDigits(s: string)
    requires |s| == 4 && AllDigits(s)
    ensures Number(s) == DigitsOf(s)[0] * 1000 + DigitsOf(s)[1] * 100 + DigitsOf(s)[2] * 10 + DigitsOf(s)[3]
  {
    var d := DigitsOf(s);
    TwoDigits(s[..2]);
    assert d[..3][..2] == DigitsOf(s[..2]);
    assert ValueOf(d, 10) == ValueOf(d[..3], 10) * 10 + d[3];
    assert ValueOf(d[..3], 10) == ValueOf(d[..3][..2], 10) * 10 + d[2];
  }

  lemma TwoDigits(s: string)
    requires |s| == 2 && AllDigits(s)
    ensures Number(s) == DigitsOf(s)[0] * 10 + DigitsOf(s)[1] < 100
  {
    var d := DigitsOf(s);
    assert d[..1] == [d[0]] && d[..1][..0] == [];
    assert ValueOf(d, 10) == ValueOf(d[..1], 10) * 10 + d[1];
    assert ValueOf(d[..1], 10) == ValueOf([], 10) * 10 + d[0];
  }

  // ── String order is calendar order ────────────────────────────────────────────────────────

  /** Numerals of one length compare as the numbers they write. */
  lemma {:induction false} NumeralOrder(a: string, b: string)
    requires |a| == |b| && AllDigits(a) && AllDigits(b)
    ensures Before(a, b) <==> Number(a) < Number(b)
    ensures a == b <==> Number(a) == Number(b)
    decreases |a|
  {
    if a != [] {
      var n := |a| - 1;
      NumeralOrder(a[..n], b[..n]);
      assert DigitsOf(a)[..n] == DigitsOf(a[..n]) && DigitsOf(b)[..n] == DigitsOf(b[..n]);
      assert a == a[..n] + [a[n]] && b == b[..n] + [b[n]];
      BeforeJoin(a[..n], [a[n]], b[..n], [b[n]]);
      assert Before([a[n]], [b[n]]) <==> a[n] < b[n];
    }
  }

  /** Strings with heads of one length compare by their heads first, then by the rest. */
  lemma {:induction false} BeforeJoin(a: string, x: string, b: string, y: string)
    requires |a| == |b|
    ensures Before(a + x, b + y) <==> Before(a, b) || (a == b && Before(x, y))
    decreases |a|
  {
    if a == [] {
      assert a + x == x && b + y == y;
    } else {
      assert (a + x)[1..] == a[1..] + x && (b + y)[1..] == b[1..] + y;
      assert a == [a[0]] + a[1..] && b == [b[0]] + b[1..];
      BeforeJoin(a[1..], x, b[1..], y);
    }
  }

  function AsDay(d: ReleaseDate): Day { Day(d.year, d.month, d.day) }

  ghost predicate IsDate(d: ReleaseDate) { ParseReleaseDate(d.iso) == Some(d) }

  lemma IsoParts(s: string)
    requires HasShape(s)
    ensures s == s[..4] + "-" + s[5..7] + "-" + s[8..] && s[..7] == s[..4] + "-" + s[5..7]
  {
    assert s[4..5] == "-" && s[7..8] == "-";
  }

  /** The month part of a date's string. */
  function MonthKey(d: ReleaseDate): string
    requires |d.iso| >= 7
  {
    d.iso[..7]
  }

  lemma MonthKeyOrder(a: ReleaseDate, b: ReleaseDate)
    requires IsDate(a) && IsDate(b)
    ensures Before(MonthKey(a), MonthKey(b)) <==> a.year < b.year || (a.year == b.year && a.month < b.month)
    ensures MonthKey(a) == MonthKey(b) <==> a.year == b.year && a.month == b.month
  {
    var x, y := a.iso, b.iso;
    IsoParts(x);
    IsoParts(y);
    NumeralOrder(x[..4], y[..4]);
    NumeralOrder(x[5..7], y[5..7]);
    BeforeJoin(x[..4] + "-", x[5..7], y[..4] + "-", y[5..7]);
    BeforeJoin(x[..4], "-", y[..4], "-");
    assert MonthKey(a)[..4] == x[..4] && MonthKey(b)[..4] == y[..4];
    assert MonthKey(a)[5..] == x[5..7] && MonthKey(b)[5..] == y[5..7];
    assert !Before("-", "-");
    assert x[..4] + "-" == y[..4] + "-" <==> x[..4] == y[..4] by {
      assert (x[..4] + "-")[..4] == x[..4] && (y[..4] + "-")[..4] == y[..4];
    }
  }

  /** Dates compare as strings exactly as they do as days. */
  lemma IsoOrderIsCalendarOrder(a: ReleaseDate, b: ReleaseDate)
    requires IsDate(a) && IsDate(b)
    ensures Before(a.iso, b.iso) <==> AsDay(a).Before(AsDay(b))
    ensures a.iso == b.iso <==> AsDay(a) == AsDay(b)
  {
    MonthKeyOrder(a, b);
    DayOrder(a.iso, b.iso);
  }

  lemma DayOrder(x: string, y: string)
    requires HasShape(x) && HasShape(y)
    ensures Before(x, y) <==> Before(x[..7], y[..7]) || (x[..7] == y[..7] && Number(x[8..]) < Number(y[8..]))
    ensures x == y <==> x[..7] == y[..7] && Number(x[8..]) == Number(y[8..])
  {
    NumeralOrder(x[8..], y[8..]);
    BeforeJoin(x[..7] + "-", x[8..], y[..7] + "-", y[8..]);
    BeforeJoin(x[..7], "-", y[..7], "-");
    assert x == x[..7] + "-" + x[8..] && y == y[..7] + "-" + y[8..];
    assert !Before("-", "-");
    assert (x[..7] + "-")[..7] == x[..7] && (y[..7] + "-")[..7] == y[..7];
  }

  // ── The month's heading ───────────────────────────────────────────────────────────────────

  const MONTHS: seq<string> := [
    "January", "February", "March", "April", "May", "June",
    "July", "August", "September", "October", "November", "December"]

  /** The heading of a date's month: "October 2026". */
  function MonthLabel(d: ReleaseDate): string
    requires 1 <= d.month <= 12 && d.year >= 0
  {
    MONTHS[d.month - 1] + " " + Decimal(d.year)
  }

  /** A number that tells two month names apart by their first three letters. */
  function NameCode(name: string): int
    requires |name| >= 3
  {
    name[0] as int * 65536 + name[1] as int * 256 + name[2] as int
  }

  lemma NamesApart(i: nat, j: nat)
    requires i < 12 && j < 12 && MONTHS[i] == MONTHS[j]
    ensures i == j
  {
    var code := (k: nat) requires k < 12 => NameCode(MONTHS[k]);
    assert code(0) == 4874606 && code(1) == 4613474 && code(2) == 5071218 && code(3) == 4288626;
    assert code(4) == 5071225 && code(5) == 4879726 && code(6) == 4879724 && code(7) == 4289895;
    assert code(8) == 5465456 && code(9) == 5202804 && code(10) == 5140342 && code(11) == 4482403;
    assert code(i) == code(j);
  }

  lemma NoSpaceInNames(i: nat)
    requires i < 12
    ensures ' ' !in MONTHS[i]
  {
  }

  /** Two days have one heading exactly when they are in one month of one year. */
  lemma SameLabel(a: ReleaseDate, b: ReleaseDate)
    requires 1 <= a.month <= 12 && 1 <= b.month <= 12 && a.year >= 0 && b.year >= 0
    ensures MonthLabel(a) == MonthLabel(b) <==> a.year == b.year && a.month == b.month
  {
    if MonthLabel(a) == MonthLabel(b) {
      NoSpaceInNames(a.month - 1);
      NoSpaceInNames(b.month - 1);
      SplitAt(' ', MONTHS[a.month - 1], Decimal(a.year), MONTHS[b.month - 1], Decimal(b.year));
      NamesApart(a.month - 1, b.month - 1);
      NumberReadsBack(a.year);
      NumberReadsBack(b.year);
    }
  }
}
