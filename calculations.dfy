/**
 * The contribution calculation: average each employee's salary over a month
 * range, clamp the average into the city's contribution-base band, multiply
 * by the city's rate, and stamp each row with the city and the range; plus
 * the validation of the month range that runs before it.
 */
module Calculations {
  import opened Types
  import opened JsNumber
  import opened Aggregation

  /** One employee name's average pay over the range and the number of
      salary rows averaged. */
  datatype AverageSalaryData = AverageSalaryData(employeeName: string, avgSalary: real, monthCount: nat)

  datatype CalculationInput = CalculationInput(city: City, salaries: seq<Salary>, startMonth: int, endMonth: int)

  /** What the `Map` holds for one name: the running total and row count. */
  datatype Tally = Tally(total: real, count: nat)

  /** The entry for one name: total pay over row count, and the count. */
  function AverageOf(rows: seq<Salary>, name: string): AverageSalaryData
    requires Count(rows, name) > 0
  {
    AverageSalaryData(name, Total(rows, name) / Count(rows, name) as real, Count(rows, name))
  }

  /** What calculateAverageSalaries returns: the in-range rows grouped by
      name, one entry per name, in the order the names first appear. */
  function AverageSalaries(salaries: seq<Salary>, startMonth: int, endMonth: int): seq<AverageSalaryData> {
    AveragesOf(FilterInRange(salaries, startMonth, endMonth))
  }

  /** One entry per name of the rows, in the order the names first appear. */
  function AveragesOf(rows: seq<Salary>): seq<AverageSalaryData> {
    var names := Names(rows);
    seq(|names|, i requires 0 <= i < |names| => AverageOf(rows, names[i]))
  }

  /** The state of the `Map` after folding in `rows`: its keys, in insertion
      order, are the names of the rows, and each holds that name's total pay
      and row count. */
  ghost predicate Tallies(rows: seq<Salary>, keys: seq<string>, salaryMap: map<string, Tally>) {
    && keys == Names(rows)
    && (forall name :: name in salaryMap <==> name in keys)
    && (forall name :: name in salaryMap ==> salaryMap[name] == Tally(Total(rows, name), Count(rows, name)))
  }

  /** Folding one more row into the `Map` the way the source does keeps the
      state in step with the rows folded so far. */
  lemma TallyRow(rows: seq<Salary>, keys: seq<string>, salaryMap: map<string, Tally>, salary: Salary,
                 keys': seq<string>, salaryMap': map<string, Tally>)
    requires Tallies(rows, keys, salaryMap)
    requires keys' == if salary.employeeName in keys then keys else keys + [salary.employeeName]
    requires var existing := if salary.employeeName in salaryMap then salaryMap[salary.employeeName] else Tally(0.0, 0);
             salaryMap' == salaryMap[salary.employeeName := Tally(existing.total + salary.salaryAmount, existing.count + 1)]
    ensures Tallies(rows + [salary], keys', salaryMap')
  {
    var rows' := rows + [salary];
    assert rows'[..|rows|] == rows;
    assert keys' == Names(rows');
    forall name | name in salaryMap' ensures salaryMap'[name] == Tally(Total(rows', name), Count(rows', name)) {
      if name != salary.employeeName {
        assert salaryMap'[name] == salaryMap[name];
      }
    }
  }

  /** Once every row is folded in, reading each entry of the `Map` off as an
      average gives the grouping `AveragesOf` describes. */
  lemma TalliesAverages(rows: seq<Salary>, keys: seq<string>, salaryMap: map<string, Tally>)
    requires Tallies(rows, keys, salaryMap)
    ensures forall k :: 0 <= k < |keys| ==> keys[k] in salaryMap && salaryMap[keys[k]].count > 0
    ensures AveragesOf(rows) == seq(|keys|, k requires 0 <= k < |keys| && keys[k] in salaryMap && salaryMap[keys[k]].count > 0 =>
      AverageSalaryData(keys[k], salaryMap[keys[k]].total / salaryMap[keys[k]].count as real, salaryMap[keys[k]].count))
  {
    forall k | 0 <= k < |keys| ensures salaryMap[keys[k]].count > 0 {
      CountPositive(rows, keys[k]);
    }
  }

  /** calculateAverageSalaries: filter the rows to the range, then fold them
      one by one into a `Map` from name to running total and count (a `map`
      plus the sequence of its keys in insertion order), then turn each entry
      into an average. */
  method CalculateAverageSalaries(salaries: seq<Salary>, startMonth: int, endMonth: int)
    returns (averages: seq<AverageSalaryData>)
    ensures averages == AverageSalaries(salaries, startMonth, endMonth)
  {
    var filtered := FilterInRange(salaries, startMonth, endMonth);
    var salaryMap: map<string, Tally> := map[];
    var keys: seq<string> := [];
    var i := 0;
    while i < |filtered|
      invariant 0 <= i <= |filtered|
      invariant Tallies(filtered[..i], keys, salaryMap)
    {
      var salary := filtered[i];
      ghost var rows, previousKeys, previousMap := filtered[..i], keys, salaryMap;
      var existing := if salary.employeeName in salaryMap then salaryMap[salary.employeeName] else Tally(0.0, 0);
      salaryMap := salaryMap[salary.employeeName := Tally(existing.total + salary.salaryAmount, existing.count + 1)];
      if salary.employeeName !in keys {
        keys := keys + [salary.employeeName];
      }
      TallyRow(rows, previousKeys, previousMap, salary, keys, salaryMap);
      assert filtered[..i + 1] == rows + [salary];
      i := i + 1;
    }
    assert filtered[..i] == filtered;
    TalliesAverages(filtered, keys, salaryMap);
    averages := seq(|keys|, k requires 0 <= k < |keys| && keys[k] in salaryMap && salaryMap[keys[k]].count > 0 =>
      AverageSalaryData(keys[k], salaryMap[keys[k]].total / salaryMap[keys[k]].count as real, salaryMap[keys[k]].count));
  }

  /** Rows of a single employee name give exactly one entry: their total pay
      over their number. */
  lemma SingleEmployeeAverage(rows: seq<Salary>, name: string)
    requires rows != []
    requires forall i :: 0 <= i < |rows| ==> rows[i].employeeName == name
    ensures AveragesOf(rows) == [AverageSalaryData(name, Total(rows, name) / |rows| as real, |rows|)]
  {
    SingleName(rows, name);
  }

  /** The grouping: entries have distinct names, and each entry counts the
      in-range rows with exactly its name (at least one) and averages their
      pay. */
  lemma AverageSalariesEntries(salaries: seq<Salary>, startMonth: int, endMonth: int)
    ensures var averages := AverageSalaries(salaries, startMonth, endMonth);
            var rows := FilterInRange(salaries, startMonth, endMonth);
            && (forall i, j :: 0 <= i < j < |averages| ==> averages[i].employeeName != averages[j].employeeName)
            && (forall i :: 0 <= i < |averages| ==>
                  && averages[i].monthCount == Count(rows, averages[i].employeeName) >= 1
                  && averages[i].avgSalary == Total(rows, averages[i].employeeName) / averages[i].monthCount as real)
  {
  }

  /** A name has an entry exactly when some salary row inside the range
      carries it; so no row in range means no entry at all. */
  lemma AverageSalariesNames(salaries: seq<Salary>, startMonth: int, endMonth: int)
    ensures var averages := AverageSalaries(salaries, startMonth, endMonth);
            && (set i | 0 <= i < |averages| :: averages[i].employeeName) ==
               (set x | x in salaries && InRange(x, startMonth, endMonth) :: x.employeeName)
            && (averages == [] <==> forall x :: x in salaries ==> !InRange(x, startMonth, endMonth))
  {
    var averages := AverageSalaries(salaries, startMonth, endMonth);
    var rows := FilterInRange(salaries, startMonth, endMonth);
    var names := Names(rows);
    var left := set i | 0 <= i < |averages| :: averages[i].employeeName;
    var right := set x | x in salaries && InRange(x, startMonth, endMonth) :: x.employeeName;
    forall name | name in left ensures name in right {
      var i :| 0 <= i < |averages| && averages[i].employeeName == name;
      assert names[i] == name;
      CountPositive(rows, name);
      var k :| 0 <= k < |rows| && rows[k].employeeName == name;
      FilterInRangeMembership(salaries, startMonth, endMonth, rows[k]);
    }
    forall name | name in right ensures name in left {
      var x :| x in salaries && InRange(x, startMonth, endMonth) && x.employeeName == name;
      FilterInRangeMembership(salaries, startMonth, endMonth, x);
      var k :| 0 <= k < |rows| && rows[k] == x;
      CountPositive(rows, name);
      var i :| 0 <= i < |names| && names[i] == name;
      assert averages[i].employeeName == name;
    }
    if averages != [] {
      assert averages[0].employeeName in left;
    }
    if exists x :: x in salaries && InRange(x, startMonth, endMonth) {
      var x :| x in salaries && InRange(x, startMonth, endMonth);
      assert x.employeeName in right;
    }
  }

  /** The entries follow the order in which each name first appears among
      the in-range rows (the insertion order of the `Map`). */
  lemma AverageSalariesOrder(salaries: seq<Salary>, startMonth: int, endMonth: int)
    ensures var averages := AverageSalaries(salaries, startMonth, endMonth);
            var rows := FilterInRange(salaries, startMonth, endMonth);
            forall i, j :: 0 <= i < j < |averages| ==>
              FirstOccurrence(rows, averages[i].employeeName) < FirstOccurrence(rows, averages[j].employeeName)
  {
    NamesInFirstAppearanceOrder(FilterInRange(salaries, startMonth, endMonth));
  }

  /** A row outside the range contributes nothing: inserting it anywhere
      leaves the averages unchanged. */
  lemma OutOfRangeRowIgnored(before: seq<Salary>, row: Salary, after: seq<Salary>, startMonth: int, endMonth: int)
    requires !InRange(row, startMonth, endMonth)
    ensures AverageSalaries(before + [row] + after, startMonth, endMonth) == AverageSalaries(before + after, startMonth, endMonth)
  {
    FilterAppend(before + [row], after, startMonth, endMonth);
    FilterAppend(before, [row], startMonth, endMonth);
    FilterAppend(before, after, startMonth, endMonth);
    assert FilterInRange([row], startMonth, endMonth) == [];
    assert FilterInRange(before, startMonth, endMonth) + [] == FilterInRange(before, startMonth, endMonth);
  }

  /** Reordering the salary rows can reorder the entries but never changes
      which entries there are: the same names with the same averages and
      counts. */
  lemma AverageSalariesPermutation(salaries: seq<Salary>, reordered: seq<Salary>, startMonth: int, endMonth: int)
    requires multiset(salaries) == multiset(reordered)
    ensures forall entry :: entry in AverageSalaries(salaries, startMonth, endMonth) <==>
                            entry in AverageSalaries(reordered, startMonth, endMonth)
  {
    var rows := FilterInRange(salaries, startMonth, endMonth);
    var rows' := FilterInRange(reordered, startMonth, endMonth);
    FilterInRangeKeeps(salaries, startMonth, endMonth);
    FilterInRangeKeeps(reordered, startMonth, endMonth);
    assert multiset(rows) == multiset(rows');
    forall entry | entry in AveragesOf(rows) ensures entry in AveragesOf(rows') {
      AveragesAgree(rows, rows', entry);
    }
    forall entry | entry in AveragesOf(rows') ensures entry in AveragesOf(rows) {
      AveragesAgree(rows', rows, entry);
    }
  }

  lemma AveragesAgree(rows: seq<Salary>, rows': seq<Salary>, entry: AverageSalaryData)
    requires multiset(rows) == multiset(rows')
    requires entry in AveragesOf(rows)
    ensures entry in AveragesOf(rows')
  {
    var names, names' := Names(rows), Names(rows');
    var i :| 0 <= i < |names| && entry == AverageOf(rows, names[i]);
    CountTotalPermutation(rows, rows', names[i]);
    assert names[i] in names';
    var j :| 0 <= j < |names'| && names'[j] == names[i];
    assert AveragesOf(rows')[j] == entry;
  }

  /** calculateContributionBase: the average raised to baseMin if below it,
      else lowered to baseMax if above it. With a proper band the result lies
      in the band and equals the average exactly when the average already
      does. The source does not check baseMin <= baseMax. */
  function CalculateContributionBase(avgSalary: real, baseMin: real, baseMax: real): (base: real)
    ensures baseMin <= baseMax ==> baseMin <= base <= baseMax
    ensures baseMin <= baseMax ==> (base == avgSalary <==> baseMin <= avgSalary <= baseMax)
    ensures base == baseMin || base == baseMax || base == avgSalary
  {
    if avgSalary < baseMin then baseMin
    else if avgSalary > baseMax then baseMax
    else avgSalary
  }

  function Min(a: real, b: real): real { if a <= b then a else b }

  function Max(a: real, b: real): real { if a >= b then a else b }

  /** With a proper band the contribution base is the usual clamp
      min(baseMax, max(baseMin, avgSalary)). */
  lemma ContributionBaseIsClamp(avgSalary: real, baseMin: real, baseMax: real)
    requires baseMin <= baseMax
    ensures CalculateContributionBase(avgSalary, baseMin, baseMax) == Min(baseMax, Max(baseMin, avgSalary))
  {
  }

  /** With an inverted band (baseMin > baseMax) no error is raised: an
      average below baseMin gives baseMin, any other average gives baseMax, so
      the result is not always baseMax. */
  lemma InvertedBand(avgSalary: real, baseMin: real, baseMax: real)
    requires baseMin > baseMax
    ensures CalculateContributionBase(avgSalary, baseMin, baseMax) == baseMin <==> avgSalary < baseMin
    ensures CalculateContributionBase(avgSalary, baseMin, baseMax) == baseMax <==> avgSalary >= baseMin
  {
  }

  /** calculateCompanyFee: the base times the rate, unrounded. For a rate
      that is a fraction and a non-negative base the fee is at most the base. */
  function CalculateCompanyFee(contributionBase: real, rate: real): (fee: real)
    ensures 0.0 <= rate <= 1.0 && contributionBase >= 0.0 ==> 0.0 <= fee <= contributionBase
  {
    FeeWithinBase(contributionBase, rate);
    contributionBase * rate
  }

  /** A fraction of a non-negative base lies between zero and the base. */
  lemma FeeWithinBase(contributionBase: real, rate: real)
    ensures 0.0 <= rate <= 1.0 && contributionBase >= 0.0 ==> 0.0 <= contributionBase * rate <= contributionBase
  {
    if 0.0 <= rate <= 1.0 && contributionBase >= 0.0 {
      assert contributionBase * rate >= 0.0 * rate;
      assert contributionBase * rate <= contributionBase * 1.0;
    }
  }

  /** generateCalculationResults: one result per average, in the same order,
      stamped with the city name, the range and the city's rate, carrying the
      employee's average, its clamped base and the unrounded fee. */
  function GenerateCalculationResults(input: CalculationInput): (results: seq<CalculationResult>)
    ensures var city := input.city;
            var averages := AverageSalaries(input.salaries, input.startMonth, input.endMonth);
            && |results| == |averages|
            && forall i :: 0 <= i < |results| ==>
                 && results[i].cityName == city.cityName
                 && results[i].yearmonthStart == input.startMonth
                 && results[i].yearmonthEnd == input.endMonth
                 && results[i].rate == city.rate
                 && results[i].employeeName == averages[i].employeeName
                 && results[i].avgSalary == averages[i].avgSalary
                 && results[i].contributionBase == CalculateContributionBase(averages[i].avgSalary, city.baseMin, city.baseMax)
                 && results[i].companyFee == results[i].contributionBase * city.rate
  {
    var city := input.city;
    var averages := AverageSalaries(input.salaries, input.startMonth, input.endMonth);
    seq(|averages|, i requires 0 <= i < |averages| =>
      var base := CalculateContributionBase(averages[i].avgSalary, city.baseMin, city.baseMax);
      CalculationResult(city.cityName, input.startMonth, input.endMonth, averages[i].employeeName,
                        averages[i].avgSalary, base, CalculateCompanyFee(base, city.rate), city.rate))
  }

  /** What each result row means in terms of the salary rows: its employee
      has rows in the range, no two rows share an employee name, its average
      is that name's in-range pay over its in-range row count, and with a
      proper band and a fractional rate the base lies in the band and the fee
      between zero and the base. */
  lemma ResultsMeaning(input: CalculationInput)
    ensures var results := GenerateCalculationResults(input);
            var rows := FilterInRange(input.salaries, input.startMonth, input.endMonth);
            var city := input.city;
            && (forall i, j :: 0 <= i < j < |results| ==> results[i].employeeName != results[j].employeeName)
            && (forall i :: 0 <= i < |results| ==>
                  && Count(rows, results[i].employeeName) >= 1
                  && results[i].avgSalary == Total(rows, results[i].employeeName) / Count(rows, results[i].employeeName) as real)
            && (city.baseMin <= city.baseMax ==> forall i :: 0 <= i < |results| ==>
                  city.baseMin <= results[i].contributionBase <= city.baseMax)
            && (city.baseMin <= city.baseMax && 0.0 <= city.baseMin && 0.0 <= city.rate <= 1.0 ==>
                  forall i :: 0 <= i < |results| ==> 0.0 <= results[i].companyFee <= results[i].contributionBase)
  {
    AverageSalariesEntries(input.salaries, input.startMonth, input.endMonth);
    var results := GenerateCalculationResults(input);
    var city := input.city;
    if city.baseMin <= city.baseMax && 0.0 <= city.baseMin && 0.0 <= city.rate <= 1.0 {
      forall i | 0 <= i < |results|
        ensures 0.0 <= results[i].companyFee <= results[i].contributionBase
      {
        var base := results[i].contributionBase;
        assert results[i].companyFee == CalculateCompanyFee(base, city.rate);
      }
    }
  }

  /** The reasons validateCalculationParams reports, with the messages the
      source returns for them. */
  datatype ParamError = MalformedMonth | RangeInverted | CrossYear {
    function Message(): string {
      match this
      case MalformedMonth => "月份格式不正确，请使用YYYYMM格式"
      case RangeInverted => "起始月份不能大于结束月份"
      case CrossYear => "暂不支持跨年度计算，请在同一年度内选择月份范围"
    }
  }

  /** A caller can tell the failures apart by their messages alone. */
  lemma MessagesDistinct(e1: ParamError, e2: ParamError)
    ensures e1.Message() == e2.Message() <==> e1 == e2
  {
    if e1 != e2 {
      var m1, m2 := e1.Message(), e2.Message();
      assert m1[0] != m2[0] || |m1| != |m2|;
    }
  }

  /** `{ isValid: true }` or `{ isValid: false, error }`. */
  datatype Validation = Valid | Invalid(error: ParamError)

  /** This module's own copy of validateYearmonth: the year
      `Math.floor(ym / 100)` is 2020..2030 and the month `ym % 100` is 1..12;
      equivalently ym lies in 202001..203012 with last two digits 01..12. */
  function ValidateYearmonth(yearmonth: int): (valid: bool)
    ensures valid <==> 202001 <= yearmonth <= 203012 && 1 <= yearmonth % 100 <= 12
  {
    var year := yearmonth / 100;
    var month := Rem100(yearmonth);
    2020 <= year <= 2030 && 1 <= month <= 12
  }

  /** validateCalculationParams: the format of both months is checked first,
      then their order, then that they lie in the same year. A valid range
      therefore spans one to twelve months of one supported year. */
  function ValidateCalculationParams(startMonth: int, endMonth: int): (v: Validation)
    ensures v.Valid? <==> ValidateYearmonth(startMonth) && ValidateYearmonth(endMonth)
                          && startMonth <= endMonth && startMonth / 100 == endMonth / 100
    ensures !ValidateYearmonth(startMonth) || !ValidateYearmonth(endMonth) ==> v == Invalid(MalformedMonth)
    ensures v == Invalid(RangeInverted) <==>
              ValidateYearmonth(startMonth) && ValidateYearmonth(endMonth) && startMonth > endMonth
    ensures v == Invalid(CrossYear) <==>
              ValidateYearmonth(startMonth) && ValidateYearmonth(endMonth)
              && startMonth <= endMonth && startMonth / 100 != endMonth / 100
    ensures v.Valid? ==> 0 <= endMonth - startMonth <= 11
  {
    if !ValidateYearmonth(startMonth) || !ValidateYearmonth(endMonth) then Invalid(MalformedMonth)
    else if startMonth > endMonth then Invalid(RangeInverted)
    else
      var startYear := startMonth / 100;
      var endYear := endMonth / 100;
      if startYear != endYear then Invalid(CrossYear) else Valid
  }
}
