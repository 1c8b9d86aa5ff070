/**
 * Facts that tie the year-month helpers to the calculation module.
 */
module CrossChecks {
  import Utils
  import Calculations

  /** The two copies of validateYearmonth accept the same numbers. */
  lemma ValidatorsAgree(yearmonth: int)
    ensures Utils.ValidateYearmonth(yearmonth) == Calculations.ValidateYearmonth(yearmonth)
  {
  }

  /** A range the parameter check accepts lists, month by month, exactly
      startMonth, startMonth + 1, ..., endMonth: between one and twelve
      supported months. */
  lemma {:induction false} ValidatedRangeMonths(startMonth: int, endMonth: int)
    requires Calculations.ValidateCalculationParams(startMonth, endMonth).Valid?
    ensures var months := Utils.MonthRange(startMonth, endMonth);
            && 1 <= |months| == endMonth - startMonth + 1 <= 12
            && (forall i :: 0 <= i < |months| ==> months[i] == startMonth + i && Utils.ValidateYearmonth(months[i]))
  {
    Utils.SameYearRange(startMonth, endMonth);
    Utils.MonthRangeLength(startMonth, endMonth);
    var months := Utils.MonthRange(startMonth, endMonth);
    forall i | 0 <= i < |months| ensures Utils.ValidateYearmonth(months[i]) {
      assert months[i] in months;
    }
  }
}
