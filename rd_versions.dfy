/** How the two `RDAccount` versions relate. */
module RecurringDepositVersions {
  import opened Optional
  import opened AccountBase
  import opened JavaInt
  import Current = RecurringDeposit
  import Legacy = RecurringDepositLegacy

  /** Every account the current version accepts is accepted by the earlier one, and the
      earlier one accepts exactly the extra tenures outside the six tabulated ones. */
  lemma CurrentAcceptsSubset(monthlyAmount: real, months: int32, age: int32)
    ensures Current.Validate(monthlyAmount, months, age) == Pass <==>
      Legacy.Validate(monthlyAmount, months, age) == Pass && months as int in Current.ValidMonths
  {
  }

  /** On the six tabulated tenures both rate tables agree, so both versions write the same
      rate (whatever the field held before) and compute the same interest. */
  lemma RatesAgreeOnValidMonths(amount: real, months: int, age: int, prior: real)
    requires months in Current.ValidMonths
    ensures RateAfter(Legacy.RDRate(months, age), prior) == Current.RDRate(months, age)
    ensures Interest(amount, RateAfter(Legacy.RDRate(months, age), prior)) ==
      Interest(amount, Current.RDRate(months, age))
  {
  }

  /** Off the table the versions part ways: the current one writes 0 (a case construction
      never lets through), the earlier one keeps the prior rate, e.g. for 10 or 0 months. */
  lemma RatesDifferOffTable(months: int, age: int, prior: real)
    requires months !in Current.ValidMonths
    ensures Current.RDRate(months, age) == 0.0
    ensures RateAfter(Legacy.RDRate(months, age), prior) == prior
  {
  }
}
