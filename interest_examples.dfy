/** The expected values of the interest calculator's test suite, as clients of the model:
    each builds an account as Java would (the `Account` base leaving `interestRate` at
    Java's default 0.0) and states the outcome the test expects. */
module InterestExamples {
  import opened Optional
  import opened AccountBase
  import opened FixedDeposit
  import opened Savings
  import RD = RecurringDeposit
  import Legacy = RecurringDepositLegacy

  /** 5000 on a "Normal" account earns 200, as does the lower-case spelling. */
  method SavingsNormal(accountType: string) returns (interest: real)
    requires accountType == "Normal" || accountType == "normal"
    ensures interest == 200.0
  {
    SBRateExamples();
    var r := SBAccount.Create(5000.0, accountType, 0.0);
    interest := r.value.CalculateInterest();
  }

  /** 10000 on an "NRI" account earns 600. */
  method SavingsNri() returns (interest: real)
    ensures interest == 600.0
  {
    SBRateExamples();
    var r := SBAccount.Create(10000.0, "NRI", 0.0);
    interest := r.value.CalculateInterest();
  }

  /** A zero balance earns nothing, whatever the type text and the rate held before. */
  method SavingsZeroAmount(accountType: string, prior: real) returns (interest: real)
    ensures interest == 0.0
  {
    var r := SBAccount.Create(0.0, accountType, prior);
    interest := r.value.CalculateInterest();
  }

  /** A negative balance is refused with the amount message. */
  method SavingsNegativeAmount() returns (error: InvalidInput)
    ensures error.message == "Invalid amount. Please enter non-negative values."
  {
    var r := SBAccount.Create(-1000.0, "Normal", 0.0);
    error := r.error;
  }

  /** 50000 for 10 days at age 35 earns 2250 (the 4.5 band). */
  method FixedDepositShortTenure() returns (interest: real)
    ensures interest == 2250.0
  {
    var r := FDAccount.Create(50000.0, 10, 35, 0.0);
    interest := r.value.CalculateInterest();
  }

  /** The remaining sample tenures below the threshold: 12 days at 65 (5.0), 20 days
      (4.75), 40 days (5.5), 90 days (7.5) and 200 days (8.0) at age 35. */
  method FixedDepositSamples() returns (senior12: real, days20: real, days40: real, days90: real, days200: real)
    ensures senior12 == 2500.0 && days20 == 2375.0 && days40 == 2750.0
    ensures days90 == 3750.0 && days200 == 4000.0
  {
    var r := FDAccount.Create(50000.0, 12, 65, 0.0);
    senior12 := r.value.CalculateInterest();
    r := FDAccount.Create(50000.0, 20, 35, 0.0);
    days20 := r.value.CalculateInterest();
    r := FDAccount.Create(50000.0, 40, 35, 0.0);
    days40 := r.value.CalculateInterest();
    r := FDAccount.Create(50000.0, 90, 35, 0.0);
    days90 := r.value.CalculateInterest();
    r := FDAccount.Create(50000.0, 200, 35, 0.0);
    days200 := r.value.CalculateInterest();
  }

  /** Above ten million, 90 days earns 8.5 percent. */
  method FixedDepositHighValue() returns (interest: real)
    ensures interest == 10000001.0 * 8.5 / 100.0
  {
    var r := FDAccount.Create(10000001.0, 90, 35, 0.0);
    interest := r.value.CalculateInterest();
  }

  /** Negative days and negative age are each refused with their own message. */
  method FixedDepositRejections() returns (days: InvalidInput, age: InvalidInput)
    ensures days.message == "Invalid Number of days. Please enter non-negative values."
    ensures age.message == "Invalid Age. Please enter non-negative values."
  {
    var r := FDAccount.Create(50000.0, -5, 35, 0.0);
    days := r.error;
    r := FDAccount.Create(50000.0, 10, -5, 0.0);
    age := r.error;
  }

  /** 1000 a month for 6 months earns 75 at 35 and 80 at exactly 60, in both versions. */
  method RecurringSixMonths() returns (regular: real, senior: real, legacyRegular: real, legacySenior: real)
    ensures regular == 75.0 && senior == 80.0
    ensures legacyRegular == 75.0 && legacySenior == 80.0
  {
    var r := RD.RDAccount.Create(1000.0, 6, 35, 0.0);
    regular := r.value.CalculateInterest();
    r := RD.RDAccount.Create(1000.0, 6, 60, 0.0);
    senior := r.value.CalculateInterest();
    var l := Legacy.RDAccount.Create(1000.0, 6, 35, 0.0);
    legacyRegular := l.value.CalculateInterest();
    l := Legacy.RDAccount.Create(1000.0, 6, 60, 0.0);
    legacySenior := l.value.CalculateInterest();
  }

  /** 9, 12, 15 and 18 months at 35, and 21 months at 65. */
  method RecurringSamples() returns (m9: real, m12: real, m15: real, m18: real, m21senior: real)
    ensures m9 == 77.5 && m12 == 80.0 && m15 == 82.5 && m18 == 85.0 && m21senior == 92.5
  {
    var r := RD.RDAccount.Create(1000.0, 9, 35, 0.0);
    m9 := r.value.CalculateInterest();
    r := RD.RDAccount.Create(1000.0, 12, 35, 0.0);
    m12 := r.value.CalculateInterest();
    r := RD.RDAccount.Create(1000.0, 15, 35, 0.0);
    m15 := r.value.CalculateInterest();
    r := RD.RDAccount.Create(1000.0, 18, 35, 0.0);
    m18 := r.value.CalculateInterest();
    r := RD.RDAccount.Create(1000.0, 21, 65, 0.0);
    m21senior := r.value.CalculateInterest();
  }

  /** Negative amount, negative months and negative age are refused by both versions with
      the same messages; the current one also refuses 10 months, which the earlier one
      accepts. */
  method RecurringRejections() returns (amount: InvalidInput, months: InvalidInput, age: InvalidInput,
                                        tenMonths: InvalidInput, legacyAgrees: bool, tenMonthsAccepted: bool)
    ensures amount.message == "Invalid monthly amount. Please enter non-negative values."
    ensures months.message == "Invalid months. Please enter non-negative values."
    ensures age.message == "Invalid age. Please enter non-negative values."
    ensures tenMonths.message == RD.MonthSetMessage
    ensures legacyAgrees && tenMonthsAccepted
  {
    var r := RD.RDAccount.Create(-1000.0, 12, 35, 0.0);
    amount := r.error;
    var l := Legacy.RDAccount.Create(-1000.0, 12, 35, 0.0);
    legacyAgrees := l.Failure? && l.error == amount;
    r := RD.RDAccount.Create(1000.0, -6, 35, 0.0);
    months := r.error;
    l := Legacy.RDAccount.Create(1000.0, -6, 35, 0.0);
    legacyAgrees := legacyAgrees && l.Failure? && l.error == months;
    r := RD.RDAccount.Create(1000.0, 12, -5, 0.0);
    age := r.error;
    l := Legacy.RDAccount.Create(1000.0, 12, -5, 0.0);
    legacyAgrees := legacyAgrees && l.Failure? && l.error == age;
    r := RD.RDAccount.Create(1000.0, 10, 35, 0.0);
    tenMonths := r.error;
    l := Legacy.RDAccount.Create(1000.0, 10, 35, 0.0);
    tenMonthsAccepted := l.Success?;
  }
}
