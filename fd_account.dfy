/** `FDAccount` (Day-10_11): a fixed deposit whose rate depends on the tenure in days, on
    whether the principal reaches ten million, and (below that) on the holder's age. */
module FixedDeposit {
  import opened Optional
  import opened AccountBase
  import opened JavaInt

  /** Principal from which the flat high-value table applies instead of the age table. */
  const HighValueThreshold: real := 10000000.0

  const AmountMessage := "Invalid amount. Please enter non-negative values."
  const DaysMessage := "Invalid Number of days. Please enter non-negative values."
  const AgeMessage := "Invalid Age. Please enter non-negative values."

  /** The constructor's three guard clauses, checked in order: they pass exactly when all
      three inputs are non-negative, zero included. */
  function Validate(amount: real, days: int32, age: int32): (r: Check)
    ensures r == Pass <==> amount >= 0.0 && days >= 0 && age >= 0
  {
    if amount < 0.0 then Fail(InvalidInput(AmountMessage))
    else if days < 0 then Fail(InvalidInput(DaysMessage))
    else if age < 0 then Fail(InvalidInput(AgeMessage))
    else Pass
  }

  /** When construction fails, the first failing guard, in source order, decides the
      message. */
  lemma ValidateFirstFailureWins(amount: real, days: int32, age: int32)
    ensures amount < 0.0 ==> Validate(amount, days, age) == Fail(InvalidInput(AmountMessage))
    ensures amount >= 0.0 && days < 0 ==> Validate(amount, days, age) == Fail(InvalidInput(DaysMessage))
    ensures amount >= 0.0 && days >= 0 && age < 0 ==> Validate(amount, days, age) == Fail(InvalidInput(AgeMessage))
  {
  }

  /** The rate the `calculateInterest` branch chain assigns, or `None` when no band matches
      and the field is left alone. */
  function FDRate(amount: real, days: int, age: int): (r: Option<real>)
    ensures r.Some? <==> 7 <= days <= 365
    ensures r.Some? ==> 4.5 <= r.value <= 10.0
  {
    if amount < HighValueThreshold then
      var senior := IsSenior(age);
      if 7 <= days <= 14 then Some(if senior then 5.0 else 4.5)
      else if 15 <= days <= 29 then Some(if senior then 5.25 else 4.75)
      else if 30 <= days <= 45 then Some(if senior then 6.0 else 5.5)
      else if 46 <= days <= 60 then Some(if senior then 7.5 else 7.0)
      else if 61 <= days <= 184 then Some(if senior then 8.0 else 7.5)
      else if 185 <= days <= 365 then Some(if senior then 8.5 else 8.0)
      else None
    else
      if 7 <= days <= 14 then Some(6.5)
      else if 15 <= days <= 29 then Some(6.75)
      else if 30 <= days <= 45 then Some(6.75)
      else if 46 <= days <= 60 then Some(8.0)
      else if 61 <= days <= 184 then Some(8.5)
      else if 185 <= days <= 365 then Some(10.0)
      else None
  }

  // The rate table as data: band b covers the closed interval [BandLow[b], BandHigh[b]].
  const BandCount := 6
  const BandLow: seq<int> := [7, 15, 30, 46, 61, 185]
  const BandHigh: seq<int> := [14, 29, 45, 60, 184, 365]
  const RegularRates: seq<real> := [4.5, 4.75, 5.5, 7.0, 7.5, 8.0]
  const SeniorRates: seq<real> := [5.0, 5.25, 6.0, 7.5, 8.0, 8.5]
  const HighValueRates: seq<real> := [6.5, 6.75, 6.75, 8.0, 8.5, 10.0]

  predicate InBand(days: int, b: int)
    requires 0 <= b < BandCount
  {
    BandLow[b] <= days <= BandHigh[b]
  }

  /** The tabulated rate of band b for the given principal and age. */
  function TableRate(amount: real, age: int, b: int): real
    requires 0 <= b < BandCount
  {
    if amount >= HighValueThreshold then HighValueRates[b]
    else if IsSenior(age) then SeniorRates[b]
    else RegularRates[b]
  }

  /** No tenure lies in two bands. */
  lemma BandsDisjoint(days: int, b1: int, b2: int)
    requires 0 <= b1 < BandCount && 0 <= b2 < BandCount
    requires InBand(days, b1) && InBand(days, b2)
    ensures b1 == b2
  {
  }

  /** The bands tile 7..365 with no gap: a tenure lies in some band exactly when it is in
      that range. */
  lemma BandsCover(days: int)
    ensures (exists b :: 0 <= b < BandCount && InBand(days, b)) <==> 7 <= days <= 365
  {
    if 7 <= days <= 365 {
      var b := if days <= 14 then 0 else if days <= 29 then 1 else if days <= 45 then 2
               else if days <= 60 then 3 else if days <= 184 then 4 else 5;
      assert InBand(days, b);
    }
  }

  /** The branch chain agrees with the table: a tenure in band b gets that band's rate,
      from the high-value column at or above the threshold and otherwise from the senior
      or regular column. */
  lemma FDRateMatchesTable(amount: real, days: int, age: int, b: int)
    requires 0 <= b < BandCount && InBand(days, b)
    ensures FDRate(amount, days, age) == Some(TableRate(amount, age, b))
  {
  }

  /** Every band edge falls in exactly the band tabulated for it. */
  lemma BandEdges()
    ensures InBand(14, 0) && !InBand(14, 1) && InBand(15, 1) && !InBand(15, 0)
    ensures InBand(29, 1) && !InBand(29, 2) && InBand(30, 2) && !InBand(30, 1)
    ensures InBand(45, 2) && !InBand(45, 3) && InBand(46, 3) && !InBand(46, 2)
    ensures InBand(60, 3) && !InBand(60, 4) && InBand(61, 4) && !InBand(61, 3)
    ensures InBand(184, 4) && !InBand(184, 5) && InBand(185, 5) && !InBand(185, 4)
    ensures InBand(365, 5) && !InBand(366, 5) && !InBand(6, 0)
  {
  }

  /** Below the threshold the senior rate is exactly half a point above the regular one,
      in every band. */
  lemma SeniorPremium(amount: real, days: int, seniorAge: int, otherAge: int)
    requires amount < HighValueThreshold && 7 <= days <= 365
    requires IsSenior(seniorAge) && !IsSenior(otherAge)
    ensures FDRate(amount, days, seniorAge).value == FDRate(amount, days, otherAge).value + 0.5
  {
  }

  /** At or above the threshold the holder's age plays no part. */
  lemma HighValueIgnoresAge(amount: real, days: int, age1: int, age2: int)
    requires amount >= HighValueThreshold
    ensures FDRate(amount, days, age1) == FDRate(amount, days, age2)
  {
  }

  class FDAccount {
    var amount: real
    var interestRate: real
    var noOfDays: int32
    var ageOfACHolder: int32

    /** What construction guarantees: all three inputs passed their guards. */
    ghost predicate Valid()
      reads this
    {
      Validate(amount, noOfDays, ageOfACHolder) == Pass
    }

    /** The field assignments after the guards; `priorRate` is the value the unseen
        `Account` base leaves in `interestRate` (0.0 by Java's default). */
    constructor (amount: real, noOfDays: int32, age: int32, priorRate: real)
      requires Validate(amount, noOfDays, age) == Pass
      ensures Valid()
      ensures this.amount == amount && this.noOfDays == noOfDays && ageOfACHolder == age
      ensures interestRate == priorRate
    {
      this.amount := amount;
      this.noOfDays := noOfDays;
      this.ageOfACHolder := age;
      this.interestRate := priorRate;
    }

    /** `new FDAccount(amount, noOfDays, age)`: the first failing guard is thrown and no
        object is built; otherwise a fresh account holds exactly the inputs. */
    static method Create(amount: real, noOfDays: int32, age: int32, priorRate: real)
      returns (r: Result<FDAccount>)
      ensures Validate(amount, noOfDays, age).Fail? ==> r == Failure(Validate(amount, noOfDays, age).error)
      ensures Validate(amount, noOfDays, age) == Pass ==>
        && r.Success? && fresh(r.value) && r.value.Valid()
        && r.value.amount == amount && r.value.noOfDays == noOfDays
        && r.value.ageOfACHolder == age && r.value.interestRate == priorRate
    {
      var check := Validate(amount, noOfDays, age);
      if check.Fail? {
        return Failure(check.error);
      }
      var account := new FDAccount(amount, noOfDays, age, priorRate);
      return Success(account);
    }

    /** Writes the band's rate into `interestRate` (leaving it alone outside 7..365 days)
        and returns the interest on the principal at that rate. */
    method CalculateInterest() returns (interest: real)
      modifies this`interestRate
      ensures interestRate == RateAfter(FDRate(amount, noOfDays as int, ageOfACHolder as int), old(interestRate))
      ensures interest == Interest(amount, interestRate)
      ensures Valid() && old(interestRate) >= 0.0 ==> interest >= 0.0
    {
      if amount < HighValueThreshold {
        if noOfDays >= 7 && noOfDays <= 14 {
          interestRate := if ageOfACHolder >= 60 then 5.0 else 4.5;
        } else if noOfDays >= 15 && noOfDays <= 29 {
          interestRate := if ageOfACHolder >= 60 then 5.25 else 4.75;
        } else if noOfDays >= 30 && noOfDays <= 45 {
          interestRate := if ageOfACHolder >= 60 then 6.0 else 5.5;
        } else if noOfDays >= 46 && noOfDays <= 60 {
          interestRate := if ageOfACHolder >= 60 then 7.5 else 7.0;
        } else if noOfDays >= 61 && noOfDays <= 184 {
          interestRate := if ageOfACHolder >= 60 then 8.0 else 7.5;
        } else if noOfDays >= 185 && noOfDays <= 365 {
          interestRate := if ageOfACHolder >= 60 then 8.5 else 8.0;
        }
      } else {
        if noOfDays >= 7 && noOfDays <= 14 {
          interestRate := 6.5;
        } else if noOfDays >= 15 && noOfDays <= 29 {
          interestRate := 6.75;
        } else if noOfDays >= 30 && noOfDays <= 45 {
          interestRate := 6.75;
        } else if noOfDays >= 46 && noOfDays <= 60 {
          interestRate := 8.0;
        } else if noOfDays >= 61 && noOfDays <= 184 {
          interestRate := 8.5;
        } else if noOfDays >= 185 && noOfDays <= 365 {
          interestRate := 10.0;
        }
      }
      interest := amount * interestRate / 100.0;
    }
  }
}
