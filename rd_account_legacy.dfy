/** `RDAccount` (Day-9_10): the earlier recurring deposit. Any non-negative month count is
    accepted; only the six tabulated tenures resolve a rate. */
module RecurringDepositLegacy {
  import opened Optional
  import opened AccountBase
  import opened JavaInt

  const AmountMessage := "Invalid monthly amount. Please enter non-negative values."
  const MonthsMessage := "Invalid months. Please enter non-negative values."
  const AgeMessage := "Invalid age. Please enter non-negative values."

  /** The constructor's three guard clauses, checked in order: they pass exactly when all
      three inputs are non-negative, whatever the month count. */
  function Validate(monthlyAmount: real, months: int32, age: int32): (r: Check)
    ensures r == Pass <==> monthlyAmount >= 0.0 && months >= 0 && age >= 0
  {
    if monthlyAmount < 0.0 then Fail(InvalidInput(AmountMessage))
    else if months < 0 then Fail(InvalidInput(MonthsMessage))
    else if age < 0 then Fail(InvalidInput(AgeMessage))
    else Pass
  }

  /** When construction fails, the first failing guard, in source order, decides the
      message. */
  lemma ValidateOrder(monthlyAmount: real, months: int32, age: int32)
    ensures monthlyAmount < 0.0 ==> Validate(monthlyAmount, months, age).error.message == AmountMessage
    ensures monthlyAmount >= 0.0 && months < 0 ==>
      Validate(monthlyAmount, months, age).error.message == MonthsMessage
    ensures monthlyAmount >= 0.0 && months >= 0 && age < 0 ==>
      Validate(monthlyAmount, months, age).error.message == AgeMessage
  {
  }

  /** The rate the if-chain assigns, or `None` for an untabulated month count, in which
      case the field keeps its prior value. */
  function RDRate(months: int, age: int): (r: Option<real>)
    ensures r.Some? <==> months in {6, 9, 12, 15, 18, 21}
    ensures r.Some? ==> 7.5 <= r.value <= 9.25
  {
    var senior := IsSenior(age);
    if months == 6 then Some(if senior then 8.0 else 7.5)
    else if months == 9 then Some(if senior then 8.25 else 7.75)
    else if months == 12 then Some(if senior then 8.5 else 8.0)
    else if months == 15 then Some(if senior then 8.75 else 8.25)
    else if months == 18 then Some(if senior then 9.0 else 8.5)
    else if months == 21 then Some(if senior then 9.25 else 8.75)
    else None
  }

  class RDAccount {
    var amount: real
    var interestRate: real
    var noOfMonths: int32
    var age: int32

    ghost predicate Valid()
      reads this
    {
      Validate(amount, noOfMonths, age) == Pass
    }

    constructor (monthlyAmount: real, months: int32, age: int32, priorRate: real)
      requires Validate(monthlyAmount, months, age) == Pass
      ensures Valid()
      ensures amount == monthlyAmount && noOfMonths == months && this.age == age
      ensures interestRate == priorRate
    {
      amount := monthlyAmount;
      noOfMonths := months;
      this.age := age;
      interestRate := priorRate;
    }

    /** `new RDAccount(monthlyAmount, months, age)` of the earlier version. */
    static method Create(monthlyAmount: real, months: int32, age: int32, priorRate: real)
      returns (r: Result<RDAccount>)
      ensures Validate(monthlyAmount, months, age).Fail? ==>
        r == Failure(Validate(monthlyAmount, months, age).error)
      ensures Validate(monthlyAmount, months, age) == Pass ==>
        && r.Success? && fresh(r.value) && r.value.Valid()
        && r.value.amount == monthlyAmount && r.value.noOfMonths == months
        && r.value.age == age && r.value.interestRate == priorRate
    {
      var check := Validate(monthlyAmount, months, age);
      if check.Fail? {
        return Failure(check.error);
      }
      var account := new RDAccount(monthlyAmount, months, age, priorRate);
      return Success(account);
    }

    /** Writes the tenure's rate when it is tabulated, otherwise leaves `interestRate`
        as it was, and returns the interest at the resulting rate. */
    method CalculateInterest() returns (interest: real)
      modifies this`interestRate
      ensures interestRate == RateAfter(RDRate(noOfMonths as int, age as int), old(interestRate))
      ensures interest == Interest(amount, interestRate)
      ensures Valid() && old(interestRate) >= 0.0 ==> interest >= 0.0
    {
      if noOfMonths == 6 {
        interestRate := if age >= 60 then 8.0 else 7.5;
      } else if noOfMonths == 9 {
        interestRate := if age >= 60 then 8.25 else 7.75;
      } else if noOfMonths == 12 {
        interestRate := if age >= 60 then 8.5 else 8.0;
      } else if noOfMonths == 15 {
        interestRate := if age >= 60 then 8.75 else 8.25;
      } else if noOfMonths == 18 {
        interestRate := if age >= 60 then 9.0 else 8.5;
      } else if noOfMonths == 21 {
        interestRate := if age >= 60 then 9.25 else 8.75;
      }
      interest := amount * interestRate / 100.0;
    }
  }
}
