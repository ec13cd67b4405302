/** The account model: the two account variants, the withdrawal rule each
    of them applies, and the account object whose balance deposits and
    withdrawals update in place. Amounts are exact reals. */
module Accounts {

  /** The variant of an account with its variant-specific parameter: a
      Savings account carries an interest rate (a percentage), a Current
      account an overdraft limit. */
  datatype Kind = Savings(interestRate: real) | Current(overdraftLimit: real)

  /** The value of one account at one moment: what the registry holds,
      what is saved and what is loaded. */
  datatype AccountState = AccountState(number: string, owner: string, kind: Kind, balance: real)

  /** The outcome of a withdrawal: the success flag and the balance after it. */
  datatype Outcome = Outcome(ok: bool, balance: real)

  /** The type tag an account reports; it is also the first field of a
      stored record. Distinct variants report distinct tags. */
  function TypeTag(kind: Kind): (tag: string)
    ensures tag == "Savings" || tag == "Current"
    ensures tag == "Savings" <==> kind.Savings?
  {
    match kind
    case Savings(_) => "Savings"
    case Current(_) => "Current"
  }

  /** The variant-specific parameter written after the balance: the
      interest rate of a Savings account, the overdraft limit of a Current one.
      Together with the type tag it determines the variant. */
  function Aux(kind: Kind): (a: real)
    ensures kind == if TypeTag(kind) == "Savings" then Savings(a) else Current(a)
  {
    match kind
    case Savings(rate) => rate
    case Current(limit) => limit
  }

  /** The lowest balance a successful withdrawal can leave behind: zero for
      Savings, minus the overdraft limit for Current. */
  function Floor(kind: Kind): real
  {
    match kind
    case Savings(_) => 0.0
    case Current(limit) => -limit
  }

  /** A withdrawal of `amount` from an account of variant `kind` holding
      `balance`. Savings keeps the base rule (the balance must cover the
      amount); Current lets the balance plus the overdraft limit cover it.
      Either way the withdrawal succeeds exactly when the balance left is at
      least the variant's floor, and a failed one changes nothing. */
  function WithdrawalOutcome(kind: Kind, balance: real, amount: real): (r: Outcome)
    ensures r.ok <==> balance - amount >= Floor(kind)
    ensures r.ok ==> r.balance == balance - amount && r.balance >= Floor(kind)
    ensures !r.ok ==> r.balance == balance
  {
    match kind
    case Savings(_) =>
      if balance >= amount then Outcome(true, balance - amount) else Outcome(false, balance)
    case Current(limit) =>
      if balance + limit >= amount then Outcome(true, balance - amount) else Outcome(false, balance)
  }

  /** A balance at or above its floor stays there under any withdrawal; for a
      Savings account this says a non-negative balance never goes negative. */
  lemma WithdrawalKeepsFloor(kind: Kind, balance: real, amount: real)
    requires balance >= Floor(kind)
    ensures WithdrawalOutcome(kind, balance, amount).balance >= Floor(kind)
    ensures kind.Savings? ==> WithdrawalOutcome(kind, balance, amount).balance >= 0.0
  {
  }

  /** Withdrawing what was just deposited always succeeds and restores the
      balance, provided the balance was at or above its floor before. */
  lemma DepositThenWithdraw(kind: Kind, balance: real, amount: real)
    requires balance >= Floor(kind)
    ensures WithdrawalOutcome(kind, balance + amount, amount) == Outcome(true, balance)
  {
  }

  /** An account. Its number, owner and variant are fixed at creation; only
      the balance changes, in place, through Deposit and Withdraw. */
  class Account {
    const number: string
    const owner: string
    const kind: Kind
    var balance: real

    constructor (number: string, owner: string, balance: real, kind: Kind)
      ensures State() == AccountState(number, owner, kind, balance)
    {
      this.number := number;
      this.owner := owner;
      this.kind := kind;
      this.balance := balance;
    }

    /** The current value of this account. */
    function State(): AccountState
      reads this
    {
      AccountState(number, owner, kind, balance)
    }

    /** Adds `amount` to the balance; it always succeeds. A non-negative
        deposit keeps the balance at or above its floor. */
    method Deposit(amount: real)
      modifies this
      ensures balance == old(balance) + amount
      ensures amount >= 0.0 && old(balance) >= Floor(kind) ==> balance >= Floor(kind)
    {
      balance := balance + amount;
    }

    /** Applies the variant's withdrawal rule: on success the balance drops by
        `amount`, on failure it is left as it was. */
    method Withdraw(amount: real) returns (ok: bool)
      modifies this
      ensures Outcome(ok, balance) == WithdrawalOutcome(kind, old(balance), amount)
    {
      match kind {
        case Savings(_) =>
          ok := balance >= amount;
        case Current(limit) =>
          ok := balance + limit >= amount;
      }
      if ok {
        balance := balance - amount;
      }
    }
  }

  /** The account numbers of a sequence of accounts, in order. */
  function Numbers(accounts: seq<Account>): seq<string>
  {
    seq(|accounts|, i requires 0 <= i < |accounts| => accounts[i].number)
  }

  /** The account numbers of a sequence of account values, in order. */
  function NumbersOf(states: seq<AccountState>): seq<string>
  {
    seq(|states|, i requires 0 <= i < |states| => states[i].number)
  }

  /** No account number occurs twice. */
  predicate Distinct(numbers: seq<string>)
  {
    forall i, j :: 0 <= i < j < |numbers| ==> numbers[i] != numbers[j]
  }

  /** The values of a sequence of accounts in the current heap, in order. */
  function States(accounts: seq<Account>): (states: seq<AccountState>)
    reads accounts
    ensures |states| == |accounts|
    ensures forall i :: 0 <= i < |accounts| ==> states[i] == accounts[i].State()
    ensures NumbersOf(states) == Numbers(accounts)
  {
    if accounts == [] then []
    else States(accounts[..|accounts| - 1]) + [accounts[|accounts| - 1].State()]
  }
}
