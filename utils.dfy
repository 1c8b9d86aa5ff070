/**
 * The year-month helpers: formatting a YYYYMM integer as a label, checking
 * that it names a supported month, and listing the months of a range.
 */
module Utils {
  import opened JsNumber
  import opened Wrappers

  /** A month number 0..99 written with exactly two digits. */
  function TwoDigits(m: int): (s: string)
    requires 0 <= m < 100
    ensures |s| == 2 && AllDigits(s)
  {
    [DigitChar(m / 10), DigitChar(m % 10)]
  }

  /** formatMonth: the year (`Math.floor(ym / 100)`), the character 年, the
      month (`ym % 100`) left-padded with '0' to two characters, then 月. */
  function FormatMonth(yearmonth: int): string {
    var year := yearmonth / 100;
    var month := Rem100(yearmonth);
    IntToString(year) + "年" + PadStart(IntToString(month), 2, '0') + "月"
  }

  /** For every integer, negative ones included, the label starts with the
      decimal year and 年, and ends with at least two month characters and 月. */
  lemma FormatMonthShape(yearmonth: int)
    ensures var text, head := FormatMonth(yearmonth), IntToString(yearmonth / 100) + "年";
            && head <= text
            && |text| >= |head| + 3
            && text[|text| - 1] == '月'
  {
    var head := IntToString(yearmonth / 100) + "年";
    var padded := PadStart(IntToString(Rem100(yearmonth)), 2, '0');
    assert FormatMonth(yearmonth) == head + padded + "月";
    assert (head + padded + "月")[..|head|] == head;
  }

  lemma PaddedMonth(m: int)
    requires 0 <= m < 100
    ensures PadStart(NatToString(m), 2, '0') == TwoDigits(m)
  {
    if m < 10 {
      OneDigitPadded(m);
    } else {
      TwoDigitString(m);
    }
  }

  lemma OneDigitPadded(m: int)
    requires 0 <= m < 10
    ensures PadStart(NatToString(m), 2, '0') == TwoDigits(m)
  {
    var c := DigitChar(m);
    assert NatToString(m) == [c];
    assert PadStart([c], 2, '0') == PadStart(['0', c], 2, '0') == ['0', c];
  }

  lemma TwoDigitString(m: int)
    requires 10 <= m < 100
    ensures PadStart(NatToString(m), 2, '0') == TwoDigits(m)
  {
    assert NatToString(m / 10) == [DigitChar(m / 10)];
    assert NatToString(m) == [DigitChar(m / 10), DigitChar(m % 10)];
  }

  /** For a non-negative year-month the label is the decimal year, 年, the
      month zero-padded to exactly two digits, and 月. */
  lemma FormatMonthDigits(yearmonth: int)
    requires yearmonth >= 0
    ensures FormatMonth(yearmonth) == NatToString(yearmonth / 100) + "年" + TwoDigits(yearmonth % 100) + "月"
  {
    PaddedMonth(yearmonth % 100);
  }

  /** Reads a label of the form <digits>年<two digits>月 back into a
      year-month; anything else gives None. */
  function ParseMonthLabel(s: string): Option<int> {
    if |s| >= 5 && s[|s| - 1] == '月' && s[|s| - 4] == '年'
       && AllDigits(s[..|s| - 4]) && IsDigit(s[|s| - 3]) && IsDigit(s[|s| - 2])
    then Some(DigitsValue(s[..|s| - 4]) * 100 + DigitValue(s[|s| - 3]) * 10 + DigitValue(s[|s| - 2]))
    else None
  }

  /** The digit form of a non-negative year-month's label parses back to it. */
  lemma ParseLabelOf(yearmonth: int)
    requires yearmonth >= 0
    ensures ParseMonthLabel(NatToString(yearmonth / 100) + "年" + TwoDigits(yearmonth % 100) + "月") == Some(yearmonth)
  {
    var year, month := yearmonth / 100, yearmonth % 100;
    var y := NatToString(year);
    var s := y + "年" + TwoDigits(month) + "月";
    assert s[..|s| - 4] == y;
    assert s[|s| - 4] == '年' && s[|s| - 1] == '月';
    assert s[|s| - 3] == DigitChar(month / 10) && s[|s| - 2] == DigitChar(month % 10);
    assert year * 100 + month == yearmonth;
  }

  lemma FormatMonthRoundTrip(yearmonth: int)
    requires yearmonth >= 0
    ensures ParseMonthLabel(FormatMonth(yearmonth)) == Some(yearmonth)
  {
    FormatMonthDigits(yearmonth);
    ParseLabelOf(yearmonth);
  }

  lemma FormatMonthInjective(a: int, b: int)
    requires a >= 0 && b >= 0
    requires FormatMonth(a) == FormatMonth(b)
    ensures a == b
  {
    FormatMonthRoundTrip(a);
    FormatMonthRoundTrip(b);
  }

  /** validateYearmonth: the year `Math.floor(ym / 100)` is 2020..2030 and the
      month `ym % 100` is 1..12. Equivalently, the number lies in
      202001..203012 and its last two digits are 01..12. */
  function ValidateYearmonth(yearmonth: int): (valid: bool)
    ensures valid <==> 202001 <= yearmonth <= 203012 && 1 <= yearmonth % 100 <= 12
  {
    var year := yearmonth / 100;
    var month := Rem100(yearmonth);
    2020 <= year <= 2030 && 1 <= month <= 12
  }

  /** One step of getMonthRange: December rolls over to January of the next
      year, every other month advances by one. */
  function NextMonth(current: int): (next: int)
    ensures next > current
    ensures current >= 0 && current % 100 == 12 ==> next == (current / 100 + 1) * 100 + 1
    ensures current < 0 || current % 100 != 12 ==> next == current + 1
  {
    var year := current / 100;
    var month := Rem100(current);
    if month == 12 then (year + 1) * 100 + 1 else current + 1
  }

  /** The months getMonthRange lists: from `startMonth`, step by step, while
      the current month does not exceed `endMonth`. */
  function MonthRange(startMonth: int, endMonth: int): (months: seq<int>)
    ensures months == [] <==> startMonth > endMonth
    decreases endMonth - startMonth
  {
    if startMonth > endMonth then [] else [startMonth] + MonthRange(NextMonth(startMonth), endMonth)
  }

  /** The range starts at `startMonth`, is strictly increasing, stays within
      `endMonth`, goes from each month to the next by the step rule, and stops
      only when the next step would pass `endMonth`. */
  lemma {:induction false} MonthRangeShape(startMonth: int, endMonth: int)
    ensures var months := MonthRange(startMonth, endMonth);
      && (months != [] ==> months[0] == startMonth && NextMonth(months[|months| - 1]) > endMonth)
      && (forall i :: 0 <= i < |months| ==> startMonth <= months[i] <= endMonth)
      && (forall i, j :: 0 <= i && j == i + 1 && j < |months| ==> months[j] == NextMonth(months[i]))
      && (forall i, j :: 0 <= i < j < |months| ==> months[i] < months[j])
    decreases endMonth - startMonth
  {
    if startMonth <= endMonth {
      var next := NextMonth(startMonth);
      MonthRangeShape(next, endMonth);
      var rest := MonthRange(next, endMonth);
      var months := [startMonth] + rest;
      assert MonthRange(startMonth, endMonth) == months;
      assert forall i :: 0 < i < |months| ==> months[i] == rest[i - 1];
    }
  }

  /** The position of a month on a continuous month count (January of year 0
      is 0), so that consecutive calendar months are one apart. */
  function MonthIndex(yearmonth: int): int {
    (yearmonth / 100) * 12 + yearmonth % 100 - 1
  }

  /** Between two supported months the step rule lands on the next supported
      month, one calendar month later, without passing the end. */
  lemma NextMonthWithin(current: int, endMonth: int)
    requires ValidateYearmonth(current) && ValidateYearmonth(endMonth) && current < endMonth
    ensures ValidateYearmonth(NextMonth(current))
    ensures MonthIndex(NextMonth(current)) == MonthIndex(current) + 1
    ensures NextMonth(current) <= endMonth
  {
    if current % 100 == 12 {
      assert endMonth / 100 > current / 100;
    }
  }

  /** For supported months `startMonth <= endMonth` the range lists every
      calendar month from the one to the other, each of them supported, and no
      others: as many as the calendar months between them, ends included. */
  lemma {:induction false} MonthRangeLength(startMonth: int, endMonth: int)
    requires ValidateYearmonth(startMonth) && ValidateYearmonth(endMonth) && startMonth <= endMonth
    ensures |MonthRange(startMonth, endMonth)| == MonthIndex(endMonth) - MonthIndex(startMonth) + 1
    ensures forall m :: m in MonthRange(startMonth, endMonth) ==> ValidateYearmonth(m)
    decreases endMonth - startMonth
  {
    var next := NextMonth(startMonth);
    if startMonth == endMonth {
      assert MonthRange(startMonth, endMonth) == [startMonth] + MonthRange(next, endMonth);
    } else {
      NextMonthWithin(startMonth, endMonth);
      MonthRangeLength(next, endMonth);
      assert MonthRange(startMonth, endMonth) == [startMonth] + MonthRange(next, endMonth);
    }
  }

  /** Within one year the range is exactly startMonth, startMonth + 1, ...,
      endMonth, so it has endMonth - startMonth + 1 elements. */
  lemma {:induction false} SameYearRange(startMonth: int, endMonth: int)
    requires ValidateYearmonth(startMonth) && ValidateYearmonth(endMonth)
    requires startMonth <= endMonth && startMonth / 100 == endMonth / 100
    ensures |MonthRange(startMonth, endMonth)| == endMonth - startMonth + 1
    ensures forall i :: 0 <= i < |MonthRange(startMonth, endMonth)| ==> MonthRange(startMonth, endMonth)[i] == startMonth + i
    decreases endMonth - startMonth
  {
    if startMonth == endMonth {
      assert MonthRange(startMonth, endMonth) == [startMonth] + MonthRange(NextMonth(startMonth), endMonth);
    } else {
      assert startMonth % 100 < 12;
      assert NextMonth(startMonth) == startMonth + 1;
      SameYearRange(startMonth + 1, endMonth);
      var rest := MonthRange(startMonth + 1, endMonth);
      assert MonthRange(startMonth, endMonth) == [startMonth] + rest;
    }
  }

  /** getMonthRange, as the loop the source runs: push the current month, then
      advance it, until it passes `endMonth`. */
  method GetMonthRange(startMonth: int, endMonth: int) returns (months: seq<int>)
    ensures months == MonthRange(startMonth, endMonth)
  {
    months := [];
    var current := startMonth;
    while current <= endMonth
      invariant MonthRange(startMonth, endMonth) == months + MonthRange(current, endMonth)
      decreases endMonth - current
    {
      ghost var previous := current;
      months := months + [current];
      var year := current / 100;
      var month := Rem100(current);
      if month == 12 {
        current := (year + 1) * 100 + 1;
      } else {
        current := current + 1;
      }
      assert current == NextMonth(previous);
    }
  }
}
