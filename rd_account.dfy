/** `RDAccount` (Day-10_11): a recurring deposit whose tenure must be one of six month
    counts, each with a regular and a senior rate. */
module RecurringDeposit {
  import opened AccountBase
  import opened JavaInt

  const AmountMessage := "Invalid monthly amount. Please enter non-negative values."
  const NegativeMonthsMessage := "Invalid months. Please enter non-negative values."
  const MonthSetMessage := "Invalid months. Please enter 6, 9, 12, 15, 18, or 21 months."
  const AgeMessage := "Invalid age. Please enter non-negative values."

  /** The tenures the constructor accepts. */
  const ValidMonths: set<int> := {6, 9, 12, 15, 18, 21}

  /** The constructor's four guard clauses, checked in order: they pass exactly for a
      non-negative amount, a tabulated tenure and a non-negative age. */
  function Validate(monthlyAmount: real, months: int32, age: int32): (r: Check)
    ensures r == Pass <==> monthlyAmount >= 0.0 && months as int in ValidMonths && age >= 0
  {
    if monthlyAmount < 0.0 then Fail(InvalidInput(AmountMessage))
    else if months < 0 then Fail(InvalidInput(NegativeMonthsMessage))
    else if months != 6 && months != 9 && months != 12 && months != 15 && months != 18 && months != 21 then
      Fail(InvalidInput(MonthSetMessage))
    else if age < 0 then Fail(InvalidInput(AgeMessage))
    else Pass
  }

  /** The first failing guard decides the message: a negative tenure draws the
      "non-negative" message, never the month-set one, and the age is looked at only once
      the tenure is accepted. */
  lemma ValidateOrder(monthlyAmount: real, months: int32, age: int32)
    ensures monthlyAmount < 0.0 ==> Validate(monthlyAmount, months, age).error.message == AmountMessage
    ensures monthlyAmount >= 0.0 && months < 0 ==>
      Validate(monthlyAmount, months, age).error.message == NegativeMonthsMessage
    ensures monthlyAmount >= 0.0 && months >= 0 && months as int !in ValidMonths ==>
      Validate(monthlyAmount, months, age).error.message == MonthSetMessage
    ensures monthlyAmount >= 0.0 && months as int in ValidMonths && age < 0 ==>
      Validate(monthlyAmount, months, age).error.message == AgeMessage
  {
  }

  /** The rate the `switch` assigns, including its `default` of 0. */
  function RDRate(months: int, age: int): (r: real)
    ensures r == 0.0 <==> months !in ValidMonths
    ensures months in ValidMonths ==> 7.5 <= r <= 9.25
  {
    var senior := IsSenior(age);
    match months
    case 6 => if senior then 8.0 else 7.5
    case 9 => if senior then 8.25 else 7.75
    case 12 => if senior then 8.5 else 8.0
    case 15 => if senior then 8.75 else 8.25
    case 18 => if senior then 9.0 else 8.5
    case 21 => if senior then 9.25 else 8.75
    case _ => 0.0
  }

  /** The regular rate starts at 7.5 for six months and rises by a quarter point per
      three-month step; the senior rate is half a point above it. */
  lemma RDRateSchedule(step: int, age: int)
    requires 0 <= step < 6
    ensures RDRate(6 + 3 * step, age) ==
      (if IsSenior(age) then 8.0 else 7.5) + 0.25 * (step as real)
  {
  }

  /** Every account that construction lets through has a tabulated tenure, so the
      `default` branch never runs for it and its rate is never 0. */
  lemma DefaultUnreachable(monthlyAmount: real, months: int32, age: int32)
    requires Validate(monthlyAmount, months, age) == Pass
    ensures RDRate(months as int, age as int) >= 7.5
  {
  }

  class RDAccount {
    var amount: real
    var interestRate: real
    var noOfMonths: int32
    var age: int32

    ghost predicate Valid()
      reads this
    {
      Validate(amount, noOfMonths, age) == Pass
    }

    constructor (monthlyAmount: real, months: int32, age: int32, priorRate: real)
      requires Validate(monthlyAmount, months, age) == Pass
      ensures Valid()
      ensures amount == monthlyAmount && noOfMonths == months && this.age == age
      ensures interestRate == priorRate
    {
      amount := monthlyAmount;
      noOfMonths := months;
      this.age := age;
      interestRate := priorRate;
    }

    /** `new RDAccount(monthlyAmount, months, age)`: the first failing guard is thrown and
        no object is built; otherwise a fresh account holds exactly the inputs. */
    static method Create(monthlyAmount: real, months: int32, age: int32, priorRate: real)
      returns (r: Result<RDAccount>)
      ensures Validate(monthlyAmount, months, age).Fail? ==>
        r == Failure(Validate(monthlyAmount, months, age).error)
      ensures Validate(monthlyAmount, months, age) == Pass ==>
        && r.Success? && fresh(r.value) && r.value.Valid()
        && r.value.amount == monthlyAmount && r.value.noOfMonths == months
        && r.value.age == age && r.value.interestRate == priorRate
    {
      var check := Validate(monthlyAmount, months, age);
      if check.Fail? {
        return Failure(check.error);
      }
      var account := new RDAccount(monthlyAmount, months, age, priorRate);
      return Success(account);
    }

    /** Writes the tenure's rate (the `default` branch writes 0) and returns the interest.
        On a constructed account the rate is always a tabulated one. */
    method CalculateInterest() returns (interest: real)
      modifies this`interestRate
      ensures interestRate == RDRate(noOfMonths as int, age as int)
      ensures Valid() ==> 7.5 <= interestRate <= 9.25 && interest >= 0.0
      ensures interest == Interest(amount, interestRate)
    {
      match noOfMonths {
        case 6 => interestRate := if age >= 60 then 8.0 else 7.5;
        case 9 => interestRate := if age >= 60 then 8.25 else 7.75;
        case 12 => interestRate := if age >= 60 then 8.5 else 8.0;
        case 15 => interestRate := if age >= 60 then 8.75 else 8.25;
        case 18 => interestRate := if age >= 60 then 9.0 else 8.5;
        case 21 => interestRate := if age >= 60 then 9.25 else 8.75;
        case _ => interestRate := 0.0;
      }
      interest := amount * interestRate / 100.0;
    }
  }
}
