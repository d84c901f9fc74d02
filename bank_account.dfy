/** `BankAccount` (Day-1 Task-3): a balance changed in place by guarded deposits and
    withdrawals. What each call prints is returned as a `Notice`. */
module Bank {

  /** The message each branch prints. */
  datatype Notice = Deposited | InvalidAmount | InsufficientBalance | Withdrawn

  datatype Operation = Deposit(amount: real) | Withdraw(amount: real)

  /** The balance after one operation, as the guards of `deposit` and `withdraw` decide. */
  function Apply(balance: real, op: Operation): (r: real)
    ensures op.Deposit? && op.amount > 0.0 ==> r == balance + op.amount
    ensures op.Withdraw? && 0.0 < op.amount <= balance ==> r == balance - op.amount
    ensures r == balance
      || (op.Deposit? && op.amount > 0.0)
      || (op.Withdraw? && 0.0 < op.amount <= balance)
  {
    match op
    case Deposit(a) => if a > 0.0 then balance + a else balance
    case Withdraw(a) => if a > balance then balance else if a > 0.0 then balance - a else balance
  }

  /** The balance after a sequence of operations, applied in order. */
  function ApplyAll(balance: real, ops: seq<Operation>): real
    decreases |ops|
  {
    if ops == [] then balance else ApplyAll(Apply(balance, ops[0]), ops[1..])
  }

  /** One operation never takes a non-negative balance below zero: a withdrawal above the
      balance is refused, so at most the whole balance leaves. */
  lemma ApplyKeepsNonNegative(balance: real, op: Operation)
    requires balance >= 0.0
    ensures Apply(balance, op) >= 0.0
    ensures op.Withdraw? ==> Apply(balance, op) <= balance
    ensures op.Deposit? ==> Apply(balance, op) >= balance
  {
  }

  /** A non-negative balance stays non-negative under any sequence of operations. */
  lemma {:induction false} ApplyAllKeepsNonNegative(balance: real, ops: seq<Operation>)
    requires balance >= 0.0
    ensures ApplyAll(balance, ops) >= 0.0
    decreases |ops|
  {
    if ops != [] {
      ApplyKeepsNonNegative(balance, ops[0]);
      ApplyAllKeepsNonNegative(Apply(balance, ops[0]), ops[1..]);
    }
  }

  /** The demo: 6000, deposit 2000, withdraw 3500 leaves 4500. */
  lemma DemoBalance()
    ensures ApplyAll(6000.0, [Deposit(2000.0), Withdraw(3500.0)]) == 4500.0
  {
  }

  class BankAccount {
    var balance: real

    constructor (initBalance: real)
      ensures balance == initBalance
    {
      balance := initBalance;
    }

    /** A positive amount is added; anything else is refused and changes nothing. */
    method Deposit(amount: real) returns (notice: Notice)
      modifies this
      ensures balance == Apply(old(balance), Operation.Deposit(amount))
      ensures amount > 0.0 ==> notice == Deposited && balance == old(balance) + amount
      ensures amount <= 0.0 ==> notice == InvalidAmount && balance == old(balance)
    {
      if amount > 0.0 {
        balance := balance + amount;
        notice := Deposited;
      } else {
        notice := InvalidAmount;
      }
    }

    /** An amount above the balance is refused first; then a positive amount is taken
        out; anything else is refused. Refusals change nothing. */
    method Withdraw(amount: real) returns (notice: Notice)
      modifies this
      ensures balance == Apply(old(balance), Operation.Withdraw(amount))
      ensures amount > old(balance) ==> notice == InsufficientBalance && balance == old(balance)
      ensures 0.0 < amount <= old(balance) ==> notice == Withdrawn && balance == old(balance) - amount
      ensures amount <= 0.0 && amount <= old(balance) ==> notice == InvalidAmount && balance == old(balance)
    {
      if amount > balance {
        notice := InsufficientBalance;
      } else if amount > 0.0 {
        balance := balance - amount;
        notice := Withdrawn;
      } else {
        notice := InvalidAmount;
      }
    }

    /** `getBalance`: the current balance, nothing changed. */
    function GetBalance(): (r: real)
      reads this
      ensures r == balance
    {
      balance
    }
  }

  /** The demo run on an object: 6000, deposit 2000, withdraw 3500, balance 4500. */
  method Demo() returns (finalBalance: real)
    ensures finalBalance == 4500.0
  {
    var account := new BankAccount(6000.0);
    var _ := account.Deposit(2000.0);
    var _ := account.Withdraw(3500.0);
    finalBalance := account.GetBalance();
  }
}
