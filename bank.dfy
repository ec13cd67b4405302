/** The registry: an ordered sequence of account objects with unique account
    numbers, and the in-memory list of transactions. Its methods are the
    linear scans and appends of the source, each proved against the value
    functions of Ledger. */
module Banking {
  import opened Accounts
  import opened Ledger

  /** One completed deposit or withdrawal; the kind is "Deposit" or
      "Withdrawal". */
  datatype Transaction = Transaction(accountNumber: string, kind: string, amount: real)

  class Bank {
    var accounts: seq<Account>
    var transactions: seq<Transaction>

    /** The registry's invariant: account numbers are pairwise distinct. */
    ghost predicate Valid()
      reads this
    {
      Distinct(Numbers(accounts))
    }

    /** The registry's accounts as values, in order. */
    ghost function Contents(): seq<AccountState>
      reads this, accounts
    {
      States(accounts)
    }

    /** A registry filled from the stored records, with no transactions yet. */
    constructor (stored: seq<Record>)
      ensures Valid()
      ensures Contents() == Loaded([], stored)
      ensures transactions == []
      ensures fresh(set a | a in accounts)
    {
      accounts := [];
      transactions := [];
      new;
      LoadAccounts(stored);
    }

    /** Appends `acc` unless an account with the same number is registered,
        in which case the registry is left as it was. */
    method AddAccount(acc: Account)
      requires Valid()
      modifies this`accounts
      ensures Valid()
      ensures accounts == if acc.number in Numbers(old(accounts)) then old(accounts) else old(accounts) + [acc]
      ensures Contents() == Added(old(Contents()), acc.State())
    {
      for i := 0 to |accounts|
        invariant forall j :: 0 <= j < i ==> accounts[j].number != acc.number
      {
        if accounts[i].number == acc.number {
          assert Numbers(accounts)[i] == acc.number;
          return;
        }
      }
      assert Numbers(accounts + [acc]) == Numbers(accounts) + [acc.number];
      assert States(accounts + [acc]) == States(accounts) + [acc.State()];
      accounts := accounts + [acc];
    }

    /** The first registered account with number `n`, or null when there is
        none. */
    method FindAccount(n: string) returns (acc: Account?)
      ensures acc == null <==> n !in Numbers(accounts)
      ensures acc != null ==> (acc.number == n &&
        exists i :: 0 <= i < |accounts| && accounts[i] == acc && n !in Numbers(accounts[..i]))
    {
      for i := 0 to |accounts|
        invariant n !in Numbers(accounts[..i])
      {
        if accounts[i].number == n {
          assert Numbers(accounts)[i] == n;
          return accounts[i];
        }
        assert Numbers(accounts[..i + 1]) == Numbers(accounts[..i]) + [accounts[i].number];
      }
      assert accounts[..|accounts|] == accounts;
      return null;
    }

    /** Appends one transaction to the in-memory list. */
    method RecordTransaction(accountNumber: string, kind: string, amount: real)
      modifies this`transactions
      ensures transactions == old(transactions) + [Transaction(accountNumber, kind, amount)]
    {
      transactions := transactions + [Transaction(accountNumber, kind, amount)];
    }

    /** The records saveAccounts writes: one per account, in registry order. */
    method SaveAccounts() returns (records: seq<Record>)
      ensures records == Saved(Contents())
    {
      records := [];
      for i := 0 to |accounts|
        invariant records == Saved(States(accounts[..i]))
      {
        var acc := accounts[i];
        var aux;
        match acc.kind {
          case Savings(rate) => aux := rate;
          case Current(limit) => aux := limit;
        }
        SavedStep(i);
        records := records + [Record(TypeTag(acc.kind), acc.number, acc.balance, aux)];
      }
      assert accounts[..|accounts|] == accounts;
    }

    /** Saving one more account of the registry appends its record. */
    lemma SavedStep(i: nat)
      requires i < |accounts|
      ensures Saved(States(accounts[..i + 1])) == Saved(States(accounts[..i])) + [RecordOf(accounts[i].State())]
    {
      assert States(accounts[..i + 1]) == States(accounts[..i]) + [accounts[i].State()];
      SavedSnoc(States(accounts[..i]), accounts[i].State());
    }

    /** loadAccounts: every record with a known tag becomes a new account
        owned by "User" followed by its number and goes through AddAccount;
        records with an unknown tag are skipped. */
    method LoadAccounts(stored: seq<Record>)
      requires Valid()
      modifies this`accounts
      ensures Valid()
      ensures Contents() == Loaded(old(Contents()), stored)
      ensures fresh(set a | a in accounts && a !in old(accounts))
    {
      for i := 0 to |stored|
        invariant Valid()
        invariant Contents() == Loaded(old(Contents()), stored[..i])
        invariant fresh(set a | a in accounts && a !in old(accounts))
      {
        var r := stored[i];
        var name := "User" + r.number;
        assert stored[..i + 1][..i] == stored[..i];
        match KindOf(r.tag, r.aux) {
          case Some(kind) =>
            var acc := new Account(r.number, name, r.balance, kind);
            AddAccount(acc);
          case None =>
        }
      }
      assert stored[..|stored|] == stored;
    }

    /** Shutdown followed by the next start: the registry is saved and a new
        registry is loaded from the saved records. Every account comes back in
        the same order with the same number, variant, parameter and balance;
        the owner becomes "User" followed by the number, and the in-memory
        transaction list starts empty. */
    method Reopen() returns (next: Bank)
      requires Valid()
      ensures next.Valid() && next.transactions == []
      ensures next.Contents() == Relabelled(Contents())
      ensures fresh(next) && fresh(set a | a in next.accounts)
    {
      var records := SaveAccounts();
      SaveLoadRoundTrip(Contents());
      next := new Bank(records);
    }

    /** With distinct numbers, a registered account is the only one with
        its number. */
    lemma OnlyMatch(acc: Account, n: string)
      requires Valid() && acc in accounts && acc.number == n
      ensures forall a :: a in accounts && a.number == n ==> a == acc
    {
      forall a | a in accounts && a.number == n ensures a == acc {
        var i :| 0 <= i < |accounts| && accounts[i] == acc;
        var j :| 0 <= j < |accounts| && accounts[j] == a;
        assert Numbers(accounts)[i] == Numbers(accounts)[j];
      }
    }

    /** A number missing from the numbers list belongs to no account. */
    lemma NoMatch(n: string)
      requires n !in Numbers(accounts)
      ensures forall a :: a in accounts ==> a.number != n
    {
      forall a | a in accounts ensures a.number != n {
        var j :| 0 <= j < |accounts| && accounts[j] == a;
        assert Numbers(accounts)[j] == a.number;
      }
    }

    /** Menu option 3: deposit `amount` into the account numbered `n` and
        record the transaction; nothing happens when no such account exists. */
    method Deposit(n: string, amount: real) returns (found: bool)
      requires Valid() && amount >= 0.0
      modifies this`transactions, accounts
      ensures Valid()
      ensures found <==> n in Numbers(accounts)
      ensures forall a :: a in accounts ==>
        a.balance == if a.number == n then old(a.balance) + amount else old(a.balance)
      ensures transactions == old(transactions) + if found then [Transaction(n, "Deposit", amount)] else []
    {
      var acc := FindAccount(n);
      found := acc != null;
      if acc != null {
        OnlyMatch(acc, n);
        acc.Deposit(amount);
        RecordTransaction(n, "Deposit", amount);
      } else {
        NoMatch(n);
      }
    }

    /** Menu option 4: withdraw `amount` from the account numbered `n` under
        its variant's rule; the transaction is recorded only when the
        withdrawal succeeds. */
    method Withdraw(n: string, amount: real) returns (found: bool, ok: bool)
      requires Valid() && amount >= 0.0
      modifies this`transactions, accounts
      ensures Valid()
      ensures found <==> n in Numbers(accounts)
      ensures ok ==> found
      ensures forall a :: a in accounts && a.number == n ==>
        Outcome(ok, a.balance) == WithdrawalOutcome(a.kind, old(a.balance), amount)
      ensures forall a :: a in accounts && a.number != n ==> a.balance == old(a.balance)
      ensures transactions == old(transactions) + if ok then [Transaction(n, "Withdrawal", amount)] else []
    {
      var acc := FindAccount(n);
      found := acc != null;
      ok := false;
      if acc != null {
        OnlyMatch(acc, n);
        ok := acc.Withdraw(amount);
        if ok {
          RecordTransaction(n, "Withdrawal", amount);
        }
      } else {
        NoMatch(n);
      }
    }
  }

  /** Start-up followed by menu option 3: the registry is loaded from the
      stored records, and a deposit into account `n` goes through exactly
      when some record with a known tag carries that number. */
  method StartAndDeposit(stored: seq<Record>, n: string, amount: real) returns (bank: Bank, found: bool)
    requires amount >= 0.0
    ensures bank.Valid()
    ensures found <==> n in NumbersOf(Loaded([], stored))
    ensures found <==> Supplies(stored, n)
  {
    bank := new Bank(stored);
    LoadedFromRecords([], stored);
    ghost var numbers := NumbersOf(bank.Contents());
    found := bank.Deposit(n, amount);
    assert Numbers(bank.accounts) == numbers;
    if Supplies(stored, n) {
      var k := FirstSupplier(stored, n);
      LoadKeepsFirst([], stored, k);
      NumberPresent(Loaded([], stored), StateOf(stored[k]).value);
    }
  }

  /** A session at the menu with a Savings account: a deposit goes through,
      an overdraft is refused, and only the deposit reaches the transaction
      list. */
  method SavingsSession() returns (bank: Bank)
    ensures bank.Valid()
    ensures bank.Contents() == [AccountState("S1", "Alice", Savings(5.0), 150.0)]
    ensures bank.transactions == [Transaction("S1", "Deposit", 50.0)]
  {
    bank := new Bank([]);
    assert bank.accounts == [];
    var s1 := new Account("S1", "Alice", 100.0, Savings(5.0));
    bank.AddAccount(s1);
    assert bank.accounts == [s1];
    assert Numbers(bank.accounts) == ["S1"];
    var found := bank.Deposit("S1", 50.0);
    assert found && s1.balance == 150.0;
    assert bank.transactions == [Transaction("S1", "Deposit", 50.0)];
    var ok;
    found, ok := bank.Withdraw("S1", 200.0);
    assert !ok && s1.balance == 150.0;
    assert bank.accounts == [s1];
    assert States([s1])[0] == s1.State();
  }

  /** A session at the menu with a Current account: it goes 80 into its
      overdraft of 100 and then no further. */
  method CurrentSession() returns (bank: Bank)
    ensures bank.Valid()
    ensures bank.Contents() == [AccountState("C1", "Bob", Current(100.0), -80.0)]
    ensures bank.transactions == [Transaction("C1", "Withdrawal", 80.0)]
  {
    bank := new Bank([]);
    assert bank.accounts == [];
    var c1 := new Account("C1", "Bob", 0.0, Current(100.0));
    bank.AddAccount(c1);
    assert bank.accounts == [c1];
    assert Numbers(bank.accounts) == ["C1"];
    var found, ok := bank.Withdraw("C1", 80.0);
    assert ok && c1.balance == -80.0;
    assert bank.transactions == [Transaction("C1", "Withdrawal", 80.0)];
    found, ok := bank.Withdraw("C1", 30.0);
    assert !ok && c1.balance == -80.0;
    assert bank.transactions == [Transaction("C1", "Withdrawal", 80.0)];
    assert bank.accounts == [c1];
    assert States([c1])[0] == c1.State();
  }
}
