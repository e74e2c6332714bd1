/** Calendar dates as Python's datetime.date sees them, the one-day step the
    clocks take, and the 'dd-mm-yyyy' text form that every message carries
    (strftime and strptime with the format '%d-%m-%Y'). */
module Dates {
  import opened Wrappers
  import opened Text

  datatype Date = Date(day: int, month: int, year: int)

  predicate IsLeap(y: int)
  {
    y % 4 == 0 && (y % 100 != 0 || y % 400 == 0)
  }

  function DaysInMonth(month: int, year: int): (n: int)
    requires 1 <= month <= 12
    ensures 28 <= n <= 31
  {
    if month == 2 then (if IsLeap(year) then 29 else 28)
    else if month == 4 || month == 6 || month == 9 || month == 11 then 30
    else 31
  }

  /** A calendar date from year 1 on. The year is not capped here, so that the
      day after the last date exists as a value; datetime.date's own range ends
      at MaxYear, which InRange adds. */
  predicate ValidDate(d: Date)
  {
    1 <= d.year && 1 <= d.month <= 12 && 1 <= d.day <= DaysInMonth(d.month, d.year)
  }

  const MaxYear: int := 9999
  const LastDate: Date := Date(31, 12, 9999)

  /** A date that datetime.date can hold. */
  predicate InRange(d: Date)
  {
    ValidDate(d) && d.year <= MaxYear
  }

  /** Chronological order, `a < b` on dates. */
  predicate Before(a: Date, b: Date)
    ensures Before(a, b) ==> a != b && a.year <= b.year
    ensures a.year < b.year ==> Before(a, b)
  {
    a.year < b.year
    || (a.year == b.year && a.month < b.month)
    || (a.year == b.year && a.month == b.month && a.day < b.day)
  }

  lemma BeforeIsStrictTotalOrder(a: Date, b: Date, c: Date)
    ensures !Before(a, a)
    ensures Before(a, b) && Before(b, c) ==> Before(a, c)
    ensures a == b || Before(a, b) || Before(b, a)
  {
  }

  /** date + relativedelta(days=1). */
  function NextDay(d: Date): (r: Date)
    requires ValidDate(d)
    ensures ValidDate(r) && Before(d, r)
  {
    if d.day < DaysInMonth(d.month, d.year) then d.(day := d.day + 1)
    else if d.month < 12 then Date(1, d.month + 1, d.year)
    else Date(1, 1, d.year + 1)
  }

  /** The next day is a valid date, strictly later, and no valid date lies
      strictly between the two: the step is exactly one day. */
  lemma NextDayIsSuccessor(d: Date, e: Date)
    requires ValidDate(d)
    ensures ValidDate(NextDay(d)) && Before(d, NextDay(d))
    ensures ValidDate(e) && Before(d, e) ==> !Before(e, NextDay(d))
  {
  }

  /** Stepping one day leaves datetime.date's range exactly from its last date,
      which is why `date + relativedelta(days=1)` raises OverflowError there
      and nowhere else. */
  lemma NextDayOverflow(d: Date)
    requires InRange(d)
    ensures ValidDate(NextDay(d)) && d.year <= NextDay(d).year
    ensures NextDay(d).year > MaxYear <==> d == LastDate
  {
    NextDayIsSuccessor(d, d);
  }

  /** d advanced by n single days: a valid date, strictly later when n > 0, and
      never in an earlier year. */
  function AddDays(d: Date, n: nat): (r: Date)
    requires ValidDate(d)
    ensures ValidDate(r)
    ensures n > 0 ==> Before(d, r)
    ensures d.year <= r.year
    decreases n
  {
    if n == 0 then d
    else
      assert ValidDate(NextDay(d)) by { NextDayIsSuccessor(d, d); }
      AddDays(NextDay(d), n - 1)
  }

  /** Advancing by a positive number of days moves strictly forward. */
  lemma {:induction false} AddDaysMovesForward(d: Date, n: nat)
    requires ValidDate(d)
    ensures n == 0 ==> AddDays(d, n) == d
    ensures n > 0 ==> Before(d, AddDays(d, n))
    decreases n
  {
    if n > 0 {
      NextDayIsSuccessor(d, d);
      AddDaysMovesForward(NextDay(d), n - 1);
      BeforeIsStrictTotalOrder(d, NextDay(d), AddDays(d, n));
    }
  }

  /** Advancing by n + 1 days is advancing by n days and then one more. */
  lemma {:induction false} AddDaysLast(d: Date, n: nat)
    requires ValidDate(d)
    ensures AddDays(d, n + 1) == NextDay(AddDays(d, n))
    decreases n
  {
    NextDayIsSuccessor(d, d);
    if n > 0 {
      AddDaysLast(NextDay(d), n - 1);
    }
  }

  /** Advancing further never gives an earlier year. */
  lemma {:induction false} AddDaysYearGrows(d: Date, m: nat, n: nat)
    requires ValidDate(d) && m <= n
    ensures AddDays(d, m).year <= AddDays(d, n).year
    decreases n
  {
    if m < n {
      AddDaysYearGrows(d, m, n - 1);
      AddDaysLast(d, n - 1);
      var e := AddDays(d, n - 1);
      assert AddDays(d, n) == NextDay(e);
    }
  }

  // ---------------------------------------------------------------- text form

  /** A number below 100 as two digits with a leading zero (%d, %m). */
  function Pad2(n: int): (s: string)
    requires 0 <= n < 100
    ensures |s| == 2 && IsDigit(s[0]) && IsDigit(s[1])
    ensures DigitValue(s[0]) * 10 + DigitValue(s[1]) == n
  {
    [DigitChar(n / 10), DigitChar(n % 10)]
  }

  /** date.strftime('%d-%m-%Y') as the GNU C library writes it: the year without
      padding for years below 1000. Platforms whose %Y pads to four digits
      write those years differently. */
  function FormatDate(d: Date): (s: string)
    requires ValidDate(d)
    ensures |s| >= 7 && s[2] == '-' && s[5] == '-'
  {
    Pad2(d.day) + "-" + Pad2(d.month) + "-" + DecimalString(d.year)
  }

  predicate IsNonZeroDigit(c: char)
  {
    '1' <= c <= '9'
  }

  /** The %d field of strptime, the pattern `3[01]|[12]\d|0[1-9]|[1-9]| [1-9]`:
      two digits worth 1 to 31, one non-zero digit, or a space and one. */
  function ParseDay(p: string): (r: Option<int>)
    ensures r.Some? ==> 1 <= r.value <= 31
  {
    if |p| == 2 && IsDigit(p[0]) && IsDigit(p[1]) && 1 <= DigitValue(p[0]) * 10 + DigitValue(p[1]) <= 31 then
      Some(DigitValue(p[0]) * 10 + DigitValue(p[1]))
    else if |p| == 1 && IsNonZeroDigit(p[0]) then Some(DigitValue(p[0]))
    else if |p| == 2 && p[0] == ' ' && IsNonZeroDigit(p[1]) then Some(DigitValue(p[1]))
    else None
  }

  /** The %m field, the pattern `1[0-2]|0[1-9]|[1-9]`: two digits worth 1 to 12,
      or one non-zero digit. */
  function ParseMonth(p: string): (r: Option<int>)
    ensures r.Some? ==> 1 <= r.value <= 12
  {
    if |p| == 2 && IsDigit(p[0]) && IsDigit(p[1]) && 1 <= DigitValue(p[0]) * 10 + DigitValue(p[1]) <= 12 then
      Some(DigitValue(p[0]) * 10 + DigitValue(p[1]))
    else if |p| == 1 && IsNonZeroDigit(p[0]) then Some(DigitValue(p[0]))
    else None
  }

  lemma FourDigitsValue(p: string)
    requires |p| == 4 && IsDigit(p[0]) && IsDigit(p[1]) && IsDigit(p[2]) && IsDigit(p[3])
    ensures DigitsValue(p) == ((DigitValue(p[0]) * 10 + DigitValue(p[1])) * 10 + DigitValue(p[2])) * 10 + DigitValue(p[3])
    ensures DigitsValue(p) <= 9999
  {
    var d0, d1, d2 := DigitValue(p[0]), DigitValue(p[1]), DigitValue(p[2]);
    assert p[..1][..0] == [];
    assert DigitsValue(p[..1]) == d0;
    assert p[..2][..1] == p[..1];
    assert DigitsValue(p[..2]) == d0 * 10 + d1;
    assert p[..3][..2] == p[..2];
    assert DigitsValue(p[..3]) == (d0 * 10 + d1) * 10 + d2;
  }

  /** The %Y field, the pattern `\d\d\d\d`: exactly four digits. */
  function ParseYear(p: string): (r: Option<int>)
    ensures r.Some? ==> 0 <= r.value <= 9999
  {
    if |p| == 4 && IsDigit(p[0]) && IsDigit(p[1]) && IsDigit(p[2]) && IsDigit(p[3]) then
      FourDigitsValue(p);
      Some(DigitsValue(p))
    else None
  }

  /** datetime.strptime(s, '%d-%m-%Y').date(): the three fields must fill the whole
      string, separated by '-', and must name a real date; None stands for the
      ValueError strptime raises otherwise. */
  function ParseDate(s: string): (r: Option<Date>)
    ensures r.Some? ==> ValidDate(r.value) && r.value.year <= 9999
  {
    var parts := Split(s, '-');
    if |parts| != 3 then None
    else
      match (ParseDay(parts[0]), ParseMonth(parts[1]), ParseYear(parts[2]))
      case (Some(day), Some(month), Some(year)) =>
        if ValidDate(Date(day, month, year)) then Some(Date(day, month, year)) else None
      case _ => None
  }

  lemma {:induction false} FormatDateSplits(d: Date)
    requires ValidDate(d)
    ensures Split(FormatDate(d), '-') == [Pad2(d.day), Pad2(d.month), DecimalString(d.year)]
  {
    var parts := [Pad2(d.day), Pad2(d.month), DecimalString(d.year)];
    assert forall i :: 0 <= i < 3 ==> '-' !in parts[i] by {
      var y := DecimalString(d.year);
      assert forall k :: 0 <= k < |y| ==> y[k] != '-';
    }
    assert Join(parts, '-') == FormatDate(d) by {
      assert parts[1..][1..] == [parts[2]];
      assert Join(parts[1..], '-') == parts[1] + ['-'] + parts[2];
      assert Join(parts, '-') == parts[0] + ['-'] + (parts[1] + ['-'] + parts[2]);
    }
    SplitJoin(parts, '-');
  }

  /** Decoding the encoding of a date with a four-digit year gives the date back. */
  lemma {:induction false} ParseFormatDate(d: Date)
    requires ValidDate(d) && 1000 <= d.year <= 9999
    ensures ParseDate(FormatDate(d)) == Some(d)
  {
    FormatDateSplits(d);
    DecimalLength(d.year);
    DecimalRoundTrip(d.year);
    var y := DecimalString(d.year);
    assert y[..|y| - 1][..|y| - 2][..|y| - 3] == y[..1];
  }

  /** Two digit strings of the same length two or four with the same value are
      the same string. */
  lemma SameDigitsSameValue(p: string, q: string)
    requires |p| == |q| && (|p| == 2 || |p| == 4)
    requires forall i :: 0 <= i < |p| ==> IsDigit(p[i]) && IsDigit(q[i])
    requires |p| == 2 ==> DigitValue(p[0]) * 10 + DigitValue(p[1]) == DigitValue(q[0]) * 10 + DigitValue(q[1])
    requires |p| == 4 ==> DigitsValue(p) == DigitsValue(q)
    ensures p == q
  {
    if |p| == 4 {
      FourDigitsValue(p);
      FourDigitsValue(q);
      assert DigitValue(p[3]) == DigitValue(q[3]);
      assert DigitValue(p[2]) == DigitValue(q[2]);
      assert DigitValue(p[1]) == DigitValue(q[1]);
    }
    assert forall i :: 0 <= i < |p| ==> DigitValue(p[i]) == DigitValue(q[i]);
  }

  /** A date text that strptime accepts, written the way strftime writes it (ten
      characters, no space before the day, no leading zero in the year), is
      exactly the text of the date it parses to: the fields are read as the
      day, the month and the year they spell, so a text naming no real date,
      such as "31-02-2023", is refused. */
  lemma {:induction false} ParsedCanonicalReadsBack(s: string)
    requires ParseDate(s).Some? && |s| == 10 && s[0] != ' ' && s[6] != '0'
    ensures FormatDate(ParseDate(s).value) == s
  {
    var d := ParseDate(s).value;
    var parts := Split(s, '-');
    assert |parts| == 3;
    JoinSplit(s, '-');
    assert parts[1..][1..] == [parts[2]];
    assert Join(parts[1..], '-') == parts[1] + ['-'] + parts[2];
    assert s == parts[0] + ['-'] + (parts[1] + ['-'] + parts[2]);
    var p0, p1, p2 := parts[0], parts[1], parts[2];
    assert |p0| == 2 && |p1| == 2 && |p2| == 4;
    assert p0[0] == s[0] && p2[0] == s[6];
    SameDigitsSameValue(p0, Pad2(d.day));
    SameDigitsSameValue(p1, Pad2(d.month));
    FourDigitsValue(p2);
    DecimalLength(d.year);
    DecimalRoundTrip(d.year);
    SameDigitsSameValue(p2, DecimalString(d.year));
  }

  /** The thirty-first of February is refused. */
  lemma NoThirtyFirstOfFebruary()
    ensures ParseDate("31-02-2023") == None
  {
  }

  /** A year below 1000 is written with fewer than four digits, which strptime's
      %Y refuses: such a timestamp does not decode. */
  lemma ParseFormatDateShortYear(d: Date)
    requires ValidDate(d) && d.year < 1000
    ensures ParseDate(FormatDate(d)) == None
  {
    FormatDateSplits(d);
    DecimalLength(d.year);
  }
}
