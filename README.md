# Bank account ledger, modelled in Dafny

This project models the account ledger of a small console banking program.
The program is `bank-management-project/src/project2.cpp`. It keeps Savings
and Current accounts in an in-memory registry and applies deposits and
withdrawals to them. It keeps an in-memory list of transactions. At shutdown
it saves every account as one record, and at start-up it loads them back.

The model has three modules:

- `Accounts` (`accounts.dfy`) covers the two account variants. `Kind` is a
  tagged union of `Savings(interestRate)` and `Current(overdraftLimit)`.
  `WithdrawalOutcome` is the withdrawal rule of each variant as a pure
  function. `Account` is a class: its number, owner and variant are `const`,
  and its `balance` is a field that `Deposit` and `Withdraw` update in place.
  `States` reads the values of a sequence of account objects.
- `Ledger` (`ledger.dfy`) states the registry's rules on account values.
  `Added` is the uniqueness gate of `addAccount`. `Saved` gives the records
  that `saveAccounts` writes. `Loaded` is the record-by-record load that
  feeds the same gate. The lemmas here prove the save/load round trip and the
  "first occurrence wins" rule.
- `Banking` (`bank.dfy`) has the `Bank` class. Its fields are
  `accounts: seq<Account>` and `transactions: seq<Transaction>`, and both grow
  by appending. `AddAccount`, `FindAccount`, `SaveAccounts` and
  `LoadAccounts` are the source's early-exit scans and its load loop.
  `FindAccount` is proved against the numbers list `Accounts.Numbers`, the
  other three against the `Ledger` functions. `Deposit` and `Withdraw` are
  menu options 3 and 4: look the account up, update it in place, and record a
  transaction. A withdrawal is recorded only when it succeeds.

Balances, amounts, interest rates and overdraft limits are exact `real`s.
The C++ `double` arithmetic and its rounding are not reproduced. The storage
file appears as a list of already-parsed records,
`Record(tag, number, balance, aux)`. The save/load round trip is therefore
proved for the records, not for the text the program writes (see
"## Left out").

Two points where the code is looser than one might expect; the model keeps
them as written:

- `Account::deposit` and `Account::withdraw` (project2.cpp:21-28, 59-65)
  neither checks that the amount is non-negative (`withdraw` only compares
  it with the balance, 23 and 60), so `Account.Deposit` and
  `Account.Withdraw` accept any amount. Only the menu's retry loops (253,
  272) keep amounts non-negative, so only the menu-level `Bank.Deposit` and
  `Bank.Withdraw` require `amount >= 0`.
- The loader (165-171) accepts any balance a record holds, including a
  negative Savings balance. The floor property is therefore proved as
  preservation: a balance at or above its floor stays there
  (`WithdrawalKeepsFloor`, `Account.Deposit`).

## Model

| member | source | states |
|---|---|---|
| `Accounts.TypeTag` | bank-management-project/src/project2.cpp:48-71 | `getType` gives "Savings" for a Savings account and "Current" for a Current account, and no other tag; the two variants get distinct tags |
| `Accounts.Aux` | bank-management-project/src/project2.cpp:49-72 | `getInterestRate` of a Savings account or `getOverdraftLimit` of a Current one; together with the type tag it determines the variant |
| `Accounts.WithdrawalOutcome` | bank-management-project/src/project2.cpp:22-65 | Savings uses the base rule `balance >= amount`; Current uses `balance + overdraftLimit >= amount`; a withdrawal succeeds exactly when the balance left is at least the variant's floor (0, or minus the limit); on success the balance drops by exactly `amount`, and on failure it is unchanged |
| `Accounts.WithdrawalKeepsFloor` | bank-management-project/src/project2.cpp:22-65 | a balance at or above its floor stays there under any withdrawal, so a non-negative Savings balance never goes negative and a Current balance never goes below minus its overdraft limit |
| `Accounts.DepositThenWithdraw` | bank-management-project/src/project2.cpp:21-28 | withdrawal undoes deposit: when the balance is at or above its floor, withdrawing the amount just deposited succeeds and restores the earlier balance |
| `Accounts.Account.constructor` | bank-management-project/src/project2.cpp:17 | a new account holds exactly the given number, owner, balance and variant parameter |
| `Accounts.Account.Deposit` | bank-management-project/src/project2.cpp:21 | the balance grows by exactly `amount` and nothing else changes; a non-negative deposit keeps the balance at or above its floor |
| `Accounts.Account.Withdraw` | bank-management-project/src/project2.cpp:59-65 | the returned flag and the new balance are the variant's withdrawal outcome for the old balance (base rule at 22-28, overdraft rule here); a failed withdrawal changes nothing |
| `Ledger.Added` | bank-management-project/src/project2.cpp:107-115 | an account whose number is registered leaves the registry unchanged; otherwise it is appended, and the earlier entries and their order are untouched; pairwise-distinct numbers stay distinct |
| `Ledger.AddedKeepsFirst` | bank-management-project/src/project2.cpp:107-115 | adding two accounts with the same number keeps only the first |
| `Ledger.AddedRejectsSameNumber` | bank-management-project/src/project2.cpp:107-115 | for any registry, once an account has been offered, a second account with the same number changes nothing |
| `Ledger.RecordOf` | bank-management-project/src/project2.cpp:146-151 | the record written for one account carries its number and balance, and its tag and parameter read back as its variant |
| `Ledger.Saved` | bank-management-project/src/project2.cpp:142-158 | one record per account, in registry order, and each record loads back as its account owned by "User" followed by the number |
| `Ledger.KindOf` | bank-management-project/src/project2.cpp:168-172 | the loader recognises exactly the tags "Savings" and "Current"; a recognised tag gives back a variant whose tag and parameter are the stored ones |
| `Ledger.StateOf` | bank-management-project/src/project2.cpp:165-172 | a record with a known tag loads as an account that would save back as the same record, owned by "User" followed by its number; other records load as nothing |
| `Ledger.KindRoundTrip` | bank-management-project/src/project2.cpp:146-171 | reading back the saved tag and parameter gives the original variant |
| `Ledger.Loaded` | bank-management-project/src/project2.cpp:160-176 | the records are read in order: a record with an unknown tag is skipped, and every other record goes through the addAccount gate; the accounts registered before loading stay in front, unchanged |
| `Ledger.LoadedKeepsDistinct` | bank-management-project/src/project2.cpp:160-176 | loading into a registry with pairwise-distinct numbers leaves the numbers pairwise distinct |
| `Ledger.LoadedFromRecords` | bank-management-project/src/project2.cpp:160-176 | loading invents nothing: every appended account is what some record loads as, and every number was registered already or comes from a record with a known tag |
| `Ledger.LoadSkipsUnknown` | bank-management-project/src/project2.cpp:168-172 | a record with an unknown type tag changes nothing |
| `Ledger.LoadKeepsFirst` | bank-management-project/src/project2.cpp:160-176 | the first known-tag record with a number that is not yet registered is loaded as it stands, and it is the only loaded account with that number: later records with that number are dropped |
| `Ledger.SaveLoadRoundTrip` | bank-management-project/src/project2.cpp:142-176 | a round trip of records: loading the saved records of a registry with distinct numbers into an empty registry gives the same accounts in the same order, with the same number, variant, parameter and balance; only the owner becomes "User" followed by the number |
| `Banking.Bank.constructor` | bank-management-project/src/project2.cpp:98-100 | a new bank holds exactly the accounts loaded from the stored records into an empty registry, with distinct numbers and no transactions; every loaded account is a new object (`make_unique` at 169/171), so the caller may update it |
| `Banking.Bank.AddAccount` | bank-management-project/src/project2.cpp:107-115 | the registry is unchanged if the number exists; otherwise `acc` is appended at the end; its values follow `Added`; the distinct-numbers invariant is kept |
| `Banking.Bank.FindAccount` | bank-management-project/src/project2.cpp:129-135 | returns null exactly when no account has number `n`; otherwise returns the first account with that number |
| `Banking.Bank.RecordTransaction` | bank-management-project/src/project2.cpp:137-140 | the transaction list grows by exactly one entry `(accNum, type, amount)` at the end; earlier entries are unchanged |
| `Banking.Bank.SaveAccounts` | bank-management-project/src/project2.cpp:142-158 | one record per account in registry order: the type tag, the number, the balance, and then the interest rate (Savings) or the overdraft limit (Current) |
| `Banking.Bank.LoadAccounts` | bank-management-project/src/project2.cpp:160-176 | the registry afterwards is `Loaded(before, records)`: unknown tags are skipped, every other record goes through `AddAccount` with owner "User"+number, and duplicates keep the first occurrence; distinct numbers are kept; every account it appends is a new object (`make_unique` at 169/171) |
| `Banking.Bank.Reopen` | bank-management-project/src/project2.cpp:98-105 | saving the registry as records at shutdown and loading those records at the next start gives back every account in order, with owners renamed "User"+number and an empty transaction list (a round trip of records; the text format's rounding is not modelled); the new bank and all its accounts are new objects, so the old bank is untouched by updates to them |
| `Banking.Bank.Deposit` | bank-management-project/src/project2.cpp:247-265 | found exactly when the number is registered; only that account's balance grows by `amount`; one "Deposit" transaction is recorded only when the account is found |
| `Banking.Bank.Withdraw` | bank-management-project/src/project2.cpp:266-287 | found exactly when the number is registered; that account follows its variant's withdrawal outcome and no other balance changes; one "Withdrawal" transaction is recorded only when the withdrawal succeeds |
| `Banking.StartAndDeposit` | bank-management-project/src/project2.cpp:247-259 | start-up (the `Bank` built at 180, loading at 98-100) loads the stored records, and a later deposit into account `n` finds it exactly when some record with a known tag carries `n`; the registry keeps distinct numbers |
| `Banking.SavingsSession` | bank-management-project/src/project2.cpp:206-287 | Savings S1 (Alice, 100, rate 5): depositing 50 gives 150; withdrawing 200 fails and leaves 150; only the deposit is recorded |
| `Banking.CurrentSession` | bank-management-project/src/project2.cpp:227-287 | Current C1 (Bob, 0, limit 100): withdrawing 80 succeeds and leaves -80; withdrawing 30 then fails; only the first withdrawal is recorded |

## Left out

- The interactive menu loop, its prompts and its retry-on-bad-input loops
  (project2.cpp:179-300) are console I/O. Options 3 and 4 are modelled as
  `Bank.Deposit` and `Bank.Withdraw`. The validation loops appear only as
  their result, the precondition `amount >= 0`. Options 1 and 2 create an
  account and call `addAccount`, which is modelled.
- `displayDetails` and `displayAllAccounts` (18-20, 43-47, 66-70, 117-127)
  only format text for `cout`.
- `applyInterest` (42) is floating-point multiplication and is never called.
- The file streams are I/O: opening and overwriting `accounts.txt`, the
  append-mode `transactions.txt` handle held from constructor to destructor,
  `Transaction::saveToFile` and its `flush`, and the `cerr` messages. The
  model keeps only what they write or read as values.
- Text formatting and parsing of the records are not modelled; records are
  already parsed. Two effects of the text format are therefore not
  captured. First, `file << acc->getBalance()` and the rate and limit
  writes (146, 148, 150) use the stream's default precision of six
  significant digits, so the program's shutdown and start-up cycle rounds
  balances, rates and limits (12345.67 is saved as `12345.7`). The round
  trip proved here (`Ledger.SaveLoadRoundTrip`, `Banking.Bank.Reopen`) is
  exact only for the records. Second, `file >> type >> accNum >> balance >>
  rateOrLimit` (165) reads whitespace-separated tokens, not lines. A line
  with an extra or missing field shifts the fields of every later record,
  and a token that does not parse as a number ends the load. An account
  number containing whitespace would have the same effect.
- IEEE `double` rounding in the balance comparisons and subtractions is not
  modelled. Amounts are exact reals.
- `Banking.Bank.AddAccount` requires the registry invariant `Valid()`
  (pairwise-distinct numbers). The source states no such precondition, but
  every registry the program builds satisfies it: a registry starts empty, and
  only `addAccount` adds to it.
- `Banking.Bank.LoadAccounts` requires `Valid()` for the same reason.
- `Banking.Bank.Deposit` requires `Valid()` for the same reason, and
  `amount >= 0`, which the menu's retry loop guarantees.
- `Banking.Bank.Withdraw` requires `Valid()` for the same reason, and
  `amount >= 0`, which the menu's retry loop guarantees.
- The transaction type is kept as the string the source passes ("Deposit"
  or "Withdrawal"); the model does not restrict it to those two values.
