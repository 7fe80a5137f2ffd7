/**
 * The salary rules of the job step: the job type decides the accepted
 * salary range and the label of the salary field.
 */
module SalaryUtils {

  const FullTimeMin: real := 30000.0
  const FullTimeMax: real := 200000.0
  const ContractMin: real := 50.0
  const ContractMax: real := 150.0

  const HourlyRateLabel: string := "Hourly Rate ($)"
  const AnnualSalaryLabel: string := "Annual Salary ($)"

  /**
   * `isSalaryValid`: a full-time salary lies in [30000, 200000], a contract
   * rate in [50, 150], both bounds inclusive; any other job type is valid.
   */
  function IsSalaryValid(jobType: string, salary: real): (valid: bool)
    ensures jobType == "Full-time" ==> (valid <==> FullTimeMin <= salary <= FullTimeMax)
    ensures jobType == "Contract" ==> (valid <==> ContractMin <= salary <= ContractMax)
    ensures jobType != "Full-time" && jobType != "Contract" ==> valid
  {
    if jobType == "Full-time" then salary >= 30000.0 && salary <= 200000.0
    else if jobType == "Contract" then salary >= 50.0 && salary <= 150.0
    else true
  }

  /** `getSalaryLabel`: an hourly rate for contracts, an annual salary otherwise. */
  function GetSalaryLabel(jobType: string): (caption: string)
    ensures caption == HourlyRateLabel <==> jobType == "Contract"
    ensures caption == AnnualSalaryLabel <==> jobType != "Contract"
  {
    if jobType == "Contract" then "Hourly Rate ($)" else "Annual Salary ($)"
  }

  /** A part-time salary is valid whatever its amount. */
  lemma PartTimeAlwaysValid(salary: real)
    ensures IsSalaryValid("Part-time", salary)
  {
  }

  /** The two ranges do not overlap: no amount is both a valid annual salary and a valid hourly rate. */
  lemma RangesDisjoint(salary: real)
    ensures !(IsSalaryValid("Full-time", salary) && IsSalaryValid("Contract", salary))
  {
  }
}
