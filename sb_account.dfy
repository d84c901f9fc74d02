/** `SBAccount` (Day-10_11): a savings account whose rate depends only on its account-type
    text, "Normal" or "NRI", compared ignoring case. */
module Savings {
  import opened Optional
  import opened AccountBase

  const AmountMessage := "Invalid amount. Please enter non-negative values."

  const NormalRate: real := 4.0
  const NriRate: real := 6.0

  /** Upper-casing of one ASCII letter; any other character is left as it is. */
  function AsciiUpper(c: char): char
  {
    if 'a' <= c <= 'z' then (c as int - 'a' as int + 'A' as int) as char else c
  }

  /** `String.equalsIgnoreCase`, with case folding restricted to ASCII letters. */
  predicate EqualsIgnoreCase(s: string, t: string)
  {
    |s| == |t| && forall i :: 0 <= i < |s| ==> AsciiUpper(s[i]) == AsciiUpper(t[i])
  }

  /** The constructor's only guard: it passes exactly for a non-negative amount. */
  function Validate(amount: real): (r: Check)
    ensures r == Pass <==> amount >= 0.0
  {
    if amount < 0.0 then Fail(InvalidInput(AmountMessage)) else Pass
  }

  /** A negative amount is rejected with the amount message. */
  lemma ValidateRejectsOnlyNegative(amount: real)
    ensures amount < 0.0 ==> Validate(amount).error.message == AmountMessage
  {
  }

  /** The rate the `calculateInterest` if-chain assigns, or `None` for any other type text,
      in which case the field keeps its prior value and no error is raised. */
  function SBRate(accountType: string): (r: Option<real>)
    ensures r.Some? <==> EqualsIgnoreCase(accountType, "Normal") || EqualsIgnoreCase(accountType, "NRI")
    ensures EqualsIgnoreCase(accountType, "Normal") ==> r == Some(NormalRate)
    ensures EqualsIgnoreCase(accountType, "NRI") ==> r == Some(NriRate)
  {
    if EqualsIgnoreCase(accountType, "Normal") then Some(NormalRate)
    else if EqualsIgnoreCase(accountType, "NRI") then Some(NriRate)
    else None
  }

  /** Case does not matter: any spelling that differs only in the case of its letters
      resolves to the same rate. */
  lemma {:induction false} SBRateIgnoresCase(s: string, t: string)
    requires |s| == |t| && forall i :: 0 <= i < |s| ==> AsciiUpper(s[i]) == AsciiUpper(t[i])
    ensures SBRate(s) == SBRate(t)
  {
    assert EqualsIgnoreCase(s, "Normal") <==> EqualsIgnoreCase(t, "Normal");
    assert EqualsIgnoreCase(s, "NRI") <==> EqualsIgnoreCase(t, "NRI");
  }

  /** The sample spellings: "Normal" and "normal" give 4.0, "NRI" and "nri" give 6.0. */
  lemma SBRateExamples()
    ensures SBRate("Normal") == Some(4.0) && SBRate("normal") == Some(4.0) && SBRate("NORMAL") == Some(4.0)
    ensures SBRate("NRI") == Some(6.0) && SBRate("nri") == Some(6.0)
    ensures SBRate("Current") == None && SBRate("") == None
  {
    assert EqualsIgnoreCase("normal", "Normal");
    assert EqualsIgnoreCase("NORMAL", "Normal");
    assert EqualsIgnoreCase("nri", "NRI");
    assert !EqualsIgnoreCase("nri", "Normal");
    assert !EqualsIgnoreCase("Current", "Normal");
    assert !EqualsIgnoreCase("Current", "NRI") by { assert |"Current"| != |"NRI"|; }
  }

  class SBAccount {
    var amount: real
    var interestRate: real
    var accountType: string

    ghost predicate Valid()
      reads this
    {
      amount >= 0.0
    }

    /** The field assignments after the guard; `priorRate` is what the unseen `Account`
        base leaves in `interestRate` (0.0 by Java's default). */
    constructor (amount: real, accountType: string, priorRate: real)
      requires Validate(amount) == Pass
      ensures Valid()
      ensures this.amount == amount && this.accountType == accountType && interestRate == priorRate
    {
      this.amount := amount;
      this.accountType := accountType;
      this.interestRate := priorRate;
    }

    /** `new SBAccount(amount, accountType)`: a negative amount is thrown, anything else
        (whatever the type text) builds the account. */
    static method Create(amount: real, accountType: string, priorRate: real) returns (r: Result<SBAccount>)
      ensures amount < 0.0 ==> r == Failure(InvalidInput(AmountMessage))
      ensures amount >= 0.0 ==>
        && r.Success? && fresh(r.value) && r.value.Valid()
        && r.value.amount == amount && r.value.accountType == accountType
        && r.value.interestRate == priorRate
    {
      var check := Validate(amount);
      if check.Fail? {
        return Failure(check.error);
      }
      var account := new SBAccount(amount, accountType, priorRate);
      return Success(account);
    }

    /** Writes the type's rate (or nothing, for an unknown type) and returns the interest.
        The new rate is a fixed point of the same chain, so calling again returns the same. */
    method CalculateInterest() returns (interest: real)
      modifies this`interestRate
      ensures interestRate == RateAfter(SBRate(accountType), old(interestRate))
      ensures interest == Interest(amount, interestRate)
      ensures RateAfter(SBRate(accountType), interestRate) == interestRate
      ensures Valid() && old(interestRate) >= 0.0 ==> interest >= 0.0
    {
      if EqualsIgnoreCase(accountType, "Normal") {
        interestRate := NormalRate;
      } else if EqualsIgnoreCase(accountType, "NRI") {
        interestRate := NriRate;
      }
      interest := amount * interestRate / 100.0;
    }
  }
}
