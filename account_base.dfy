/** What the three interest-bearing account kinds share: the `InvalidInputException` their
    constructors throw, and the closing formula `amount * interestRate / 100` of every
    `calculateInterest`. The `Account` base class itself (fields `amount`, `interestRate`)
    is not part of this model; the value its `interestRate` holds before any rate is
    resolved is passed in explicitly wherever it matters. */
module AccountBase {
  import opened Optional

  /** `InvalidInputException`, carrying the message the constructor throws. */
  datatype InvalidInput = InvalidInput(message: string)

  /** Either a constructed value or the exception its constructor threw. */
  datatype Result<T> = Success(value: T) | Failure(error: InvalidInput)

  /** Outcome of a constructor's guard clauses: all passed, or the first one that failed. */
  datatype Check = Pass | Fail(error: InvalidInput)

  /** Age from which the senior-citizen rate applies. */
  const SeniorAge := 60

  predicate IsSenior(age: int) {
    age >= SeniorAge
  }

  /** The shared return expression `(amount * interestRate) / 100`. */
  function Interest(amount: real, rate: real): (r: real)
    ensures amount >= 0.0 && rate >= 0.0 ==> r >= 0.0
    ensures amount == 0.0 ==> r == 0.0
    ensures rate != 0.0 ==> (r / rate) * 100.0 == amount
  {
    amount * rate / 100.0
  }

  /** The value of `interestRate` after a rate-resolution branch chain: the rate the chain
      resolved, or, when no branch assigned, whatever the field held before. */
  function RateAfter(resolved: Option<real>, prior: real): (r: real)
    ensures resolved.None? ==> r == prior
    ensures resolved.Some? ==> r == resolved.value
  {
    match resolved
    case Some(rate) => rate
    case None => prior
  }

  /** Re-running the same branch chain on its own output writes nothing new: a second
      `calculateInterest` on the same object sees the rate the first one left. */
  lemma RateAfterIdempotent(resolved: Option<real>, prior: real)
    ensures RateAfter(resolved, RateAfter(resolved, prior)) == RateAfter(resolved, prior)
  {
  }
}
