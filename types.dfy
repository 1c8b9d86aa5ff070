/**
 * The record shapes the calculation reads and writes (`City`, `Salary` and
 * `CalculationResult` of the application's type declarations), keeping only
 * the fields the calculation touches. Money is an exact `real`; year-months
 * are integers of the form YYYYMM.
 */
module Types {

  /** One city's contribution policy for one year: a rate (a fraction, not a
      percentage) and the band [baseMin, baseMax] the contribution base is
      clamped into. Nothing here forces baseMin <= baseMax. */
  datatype City = City(cityName: string, rate: real, baseMin: real, baseMax: real)

  /** One employee's pay for one month. `employeeId` is carried to make clear
      that the calculation never reads it: rows are grouped by the raw
      `employeeName` string. */
  datatype Salary = Salary(employeeId: string, employeeName: string, yearmonth: int, salaryAmount: real)

  /** One row of the result set, without the storage identity and timestamps
      the persistence layer adds. */
  datatype CalculationResult = CalculationResult(
    cityName: string,
    yearmonthStart: int,
    yearmonthEnd: int,
    employeeName: string,
    avgSalary: real,
    contributionBase: real,
    companyFee: real,
    rate: real)
}
