/**
 * Worked examples of the calculation with the figures of a typical city
 * policy (rate 0.14, band 4546..26421) and of the parameter check.
 */
module Scenarios {
  import opened Types
  import opened Calculations
  import opened Aggregation

  const Policy: City := City("Example City", 0.14, 4546.0, 26421.0)

  /** Three months of pay averaging 6000, inside the band: the base is the
      average and the fee 840. */
  lemma AverageInsideBand()
    ensures GenerateCalculationResults(CalculationInput(Policy,
              [Salary("E1", "Alice", 202401, 5000.0), Salary("E1", "Alice", 202402, 6000.0),
               Salary("E1", "Alice", 202403, 7000.0)], 202401, 202403))
            == [CalculationResult("Example City", 202401, 202403, "Alice", 6000.0, 6000.0, 840.0, 0.14)]
  {
    ThreeMonthAverage();
  }

  /** The three rows are all in the range and carry one name: one entry,
      totalling 18000 over 3 rows, average 6000. */
  lemma ThreeMonthAverage()
    ensures AverageSalaries([Salary("E1", "Alice", 202401, 5000.0), Salary("E1", "Alice", 202402, 6000.0),
                             Salary("E1", "Alice", 202403, 7000.0)], 202401, 202403)
            == [AverageSalaryData("Alice", 6000.0, 3)]
  {
    var a, b, c := Salary("E1", "Alice", 202401, 5000.0), Salary("E1", "Alice", 202402, 6000.0),
                   Salary("E1", "Alice", 202403, 7000.0);
    FilterInRangeIdentity([a, b, c], 202401, 202403);
    SingleEmployeeAverage([a, b, c], "Alice");
    assert [a, b, c][..2] == [a, b] && [a, b][..1] == [a] && [a][..0] == [];
  }

  /** An average of 3000, below the band: the base is raised to 4546. */
  lemma AverageBelowBand()
    ensures GenerateCalculationResults(CalculationInput(Policy,
              [Salary("E2", "Bob", 202401, 3000.0)], 202401, 202403))
            == [CalculationResult("Example City", 202401, 202403, "Bob", 3000.0, 4546.0, 636.44, 0.14)]
  {
  }

  /** An average of 30000, above the band: the base is lowered to 26421. */
  lemma AverageAboveBand()
    ensures GenerateCalculationResults(CalculationInput(Policy,
              [Salary("E3", "Carol", 202402, 30000.0)], 202401, 202403))
            == [CalculationResult("Example City", 202401, 202403, "Carol", 30000.0, 26421.0, 3698.94, 0.14)]
  {
  }

  /** Two different employees who share a name are merged into one entry,
      and a row outside the range is ignored. */
  lemma SameNameMerged()
    ensures AverageSalaries([Salary("E4", "Wang", 202401, 1000.0), Salary("E5", "Wang", 202401, 3000.0),
                             Salary("E4", "Wang", 202312, 9000.0)], 202401, 202403)
            == [AverageSalaryData("Wang", 2000.0, 2)]
  {
    var a, b, c := Salary("E4", "Wang", 202401, 1000.0), Salary("E5", "Wang", 202401, 3000.0),
                   Salary("E4", "Wang", 202312, 9000.0);
    assert [a, b, c][..2] == [a, b] && [a, b][..1] == [a] && [a][..0] == [];
    FilterInRangeIdentity([a, b], 202401, 202403);
    assert FilterInRange([a, b, c], 202401, 202403) == [a, b];
    SingleEmployeeAverage([a, b], "Wang");
    assert Total([a, b], "Wang") == 4000.0;
  }

  /** The parameter check: a good range, a malformed month reported before
      the inverted order, an inverted range, and a range across two years. */
  lemma ParamCheckExamples()
    ensures ValidateCalculationParams(202401, 202403) == Valid
    ensures ValidateCalculationParams(202413, 202401) == Invalid(MalformedMonth)
    ensures ValidateCalculationParams(202403, 202401) == Invalid(RangeInverted)
    ensures ValidateCalculationParams(202312, 202401) == Invalid(CrossYear)
  {
  }
}
