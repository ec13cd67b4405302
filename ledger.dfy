/** The registry's rules stated on account values: the uniqueness gate of
    addAccount, the record written per account when the registry is saved,
    and the record-by-record load that feeds that same gate. The Bank class
    is proved against these functions. */
module Ledger {
  import opened Accounts

  datatype Option<T> = None | Some(value: T)

  /** One line of the account-storage file, already split into its four
      fields: type tag, account number, balance and the variant parameter. */
  datatype Record = Record(tag: string, number: string, balance: real, aux: real)

  /** addAccount on values: an account whose number is already registered is
      rejected and the registry is left as it was; otherwise it is appended. */
  function Added(states: seq<AccountState>, s: AccountState): (r: seq<AccountState>)
    ensures s.number in NumbersOf(states) ==> r == states
    ensures s.number !in NumbersOf(states) ==> |r| == |states| + 1 && r[..|states|] == states && r[|states|] == s
    ensures Distinct(NumbersOf(states)) ==> Distinct(NumbersOf(r))
    ensures forall n :: n in NumbersOf(r) ==> n in NumbersOf(states) || n == s.number
  {
    if s.number in NumbersOf(states) then states
    else
      assert NumbersOf(states + [s]) == NumbersOf(states) + [s.number];
      states + [s]
  }

  /** Adding two accounts with the same number keeps the first one. */
  lemma AddedKeepsFirst(states: seq<AccountState>, a: AccountState, b: AccountState)
    requires a.number == b.number
    requires a.number !in NumbersOf(states)
    ensures Added(Added(states, a), b) == states + [a]
  {
    assert NumbersOf(states + [a])[|states|] == a.number;
  }

  /** Once an account is added, a second one with the same number changes
      nothing, whether or not the first was accepted. */
  lemma AddedRejectsSameNumber(states: seq<AccountState>, a: AccountState, b: AccountState)
    requires a.number == b.number
    ensures Added(Added(states, a), b) == Added(states, a)
  {
    if a.number !in NumbersOf(states) {
      assert NumbersOf(states + [a])[|states|] == a.number;
    }
  }

  /** The record saveAccounts writes for one account: it carries the number
      and the balance, and its tag and parameter read back as the variant. */
  function RecordOf(s: AccountState): (r: Record)
    ensures r.number == s.number && r.balance == s.balance
    ensures KindOf(r.tag, r.aux) == Some(s.kind)
  {
    Record(TypeTag(s.kind), s.number, s.balance, Aux(s.kind))
  }

  /** saveAccounts on values: one record per account, in registry order;
      each record loads back as its account, owned by "User" followed by the
      number. */
  function Saved(states: seq<AccountState>): (r: seq<Record>)
    ensures |r| == |states|
    ensures forall i :: 0 <= i < |states| ==> StateOf(r[i]) == Some(states[i].(owner := "User" + states[i].number))
  {
    seq(|states|, i requires 0 <= i < |states| => RecordOf(states[i]))
  }

  /** Saving one more account appends its record. */
  lemma SavedSnoc(states: seq<AccountState>, s: AccountState)
    ensures Saved(states + [s]) == Saved(states) + [RecordOf(s)]
  {
  }

  /** The variant a stored type tag names, with its parameter; None for a tag
      the loader does not know. */
  function KindOf(tag: string, aux: real): (k: Option<Kind>)
    ensures k.Some? <==> tag == "Savings" || tag == "Current"
    ensures k.Some? ==> TypeTag(k.value) == tag && Aux(k.value) == aux
  {
    if tag == "Savings" then Some(Savings(aux))
    else if tag == "Current" then Some(Current(aux))
    else None
  }

  /** The account a loaded record becomes: the owner, which the file does not
      hold, is "User" followed by the account number. */
  function StateOf(r: Record): (o: Option<AccountState>)
    ensures o.Some? <==> r.tag == "Savings" || r.tag == "Current"
    ensures o.Some? ==> RecordOf(o.value) == r && o.value.owner == "User" + r.number
  {
    match KindOf(r.tag, r.aux)
    case None => None
    case Some(k) => Some(AccountState(r.number, "User" + r.number, k, r.balance))
  }

  /** Some record of `records` with a known tag carries account number `n`. */
  predicate Supplies(records: seq<Record>, n: string)
  {
    exists j :: 0 <= j < |records| && StateOf(records[j]).Some? && records[j].number == n
  }

  /** Some record of `records` loads as the account value `s`. */
  predicate Yields(records: seq<Record>, s: AccountState)
  {
    exists j :: 0 <= j < |records| && StateOf(records[j]) == Some(s)
  }

  /** The position of the first record with a known tag and number `n`. */
  lemma {:induction false} FirstSupplier(records: seq<Record>, n: string) returns (k: nat)
    requires Supplies(records, n)
    ensures k < |records| && StateOf(records[k]).Some? && records[k].number == n
    ensures !Supplies(records[..k], n)
  {
    var last := |records| - 1;
    if Supplies(records[..last], n) {
      k := FirstSupplier(records[..last], n);
      assert records[..last][..k] == records[..k];
    } else {
      k := last;
      assert records[..last] == records[..k];
    }
  }

  /** What a prefix of the records supplies, the whole supplies. */
  lemma PrefixWitnesses(records: seq<Record>, k: nat)
    requires k <= |records|
    ensures forall n :: Supplies(records[..k], n) ==> Supplies(records, n)
    ensures forall s :: Yields(records[..k], s) ==> Yields(records, s)
  {
  }

  /** loadAccounts on values: the records are taken in order; one with an
      unknown tag is skipped and every other goes through addAccount. The
      accounts already registered stay in front, unchanged. */
  function Loaded(states: seq<AccountState>, records: seq<Record>): (r: seq<AccountState>)
    ensures |states| <= |r| && r[..|states|] == states
  {
    if records == [] then states
    else
      var prev := Loaded(states, records[..|records| - 1]);
      match StateOf(records[|records| - 1])
      case None => prev
      case Some(s) => Added(prev, s)
  }

  /** Loading keeps account numbers pairwise distinct. */
  lemma {:induction false} LoadedKeepsDistinct(states: seq<AccountState>, records: seq<Record>)
    requires Distinct(NumbersOf(states))
    ensures Distinct(NumbersOf(Loaded(states, records)))
  {
    if records != [] {
      LoadedKeepsDistinct(states, records[..|records| - 1]);
    }
  }

  /** Loading invents nothing: every account it appends comes from one of the
      records, and every number it ends with was registered already or is
      carried by a record with a known tag. */
  lemma {:induction false} LoadedFromRecords(states: seq<AccountState>, records: seq<Record>)
    ensures forall i :: |states| <= i < |Loaded(states, records)| ==> Yields(records, Loaded(states, records)[i])
    ensures forall n :: n in NumbersOf(Loaded(states, records)) ==> n in NumbersOf(states) || Supplies(records, n)
  {
    if records != [] {
      var last := |records| - 1;
      LoadedFromRecords(states, records[..last]);
      PrefixWitnesses(records, last);
      var prev := Loaded(states, records[..last]);
      match StateOf(records[last])
      case None =>
      case Some(s) =>
        assert Yields(records, s) && Supplies(records, s.number) by {
          assert StateOf(records[last]) == Some(s) && records[last].number == s.number;
        }
    }
  }

  /** A record with an unknown type tag leaves the loaded registry as it was. */
  lemma LoadSkipsUnknown(states: seq<AccountState>, records: seq<Record>, r: Record)
    requires r.tag != "Savings" && r.tag != "Current"
    ensures Loaded(states, records + [r]) == Loaded(states, records)
  {
  }

  /** The first record with a known tag and a given account number is loaded
      as it stands, unless that number was registered already: later records
      with the same number are dropped, so it is the only account with that
      number. */
  lemma {:induction false} LoadKeepsFirst(states: seq<AccountState>, records: seq<Record>, k: nat)
    requires k < |records| && StateOf(records[k]).Some?
    requires records[k].number !in NumbersOf(states)
    requires !Supplies(records[..k], records[k].number)
    ensures StateOf(records[k]).value in Loaded(states, records)
    ensures forall t :: t in Loaded(states, records) && t.number == records[k].number ==> t == StateOf(records[k]).value
  {
    var last := |records| - 1;
    var front := records[..last];
    var prev := Loaded(states, front);
    var s := StateOf(records[k]).value;
    assert records == front + [records[last]];
    LoadedSnoc(states, front, records[last]);
    if k == last {
      LoadedFromRecords(states, front);
      AddedNew(prev, s);
    } else {
      assert front[..k] == records[..k];
      LoadKeepsFirst(states, front, k);
      match StateOf(records[last])
      case None =>
      case Some(x) => AddedKeepsOnly(prev, x, s);
    }
  }

  /** Adding an account with a new number makes it the only one with that
      number. */
  lemma AddedNew(states: seq<AccountState>, s: AccountState)
    requires s.number !in NumbersOf(states)
    ensures s in Added(states, s)
    ensures forall t :: t in Added(states, s) && t.number == s.number ==> t == s
  {
    NumberAbsent(states, s.number);
  }

  /** The only account with its number stays the only one under addAccount. */
  lemma AddedKeepsOnly(states: seq<AccountState>, x: AccountState, s: AccountState)
    requires s in states
    requires forall t :: t in states && t.number == s.number ==> t == s
    ensures s in Added(states, x)
    ensures forall t :: t in Added(states, x) && t.number == s.number ==> t == s
  {
    NumberPresent(states, s);
  }

  /** An account of `states` has its number among their numbers. */
  lemma NumberPresent(states: seq<AccountState>, t: AccountState)
    requires t in states
    ensures t.number in NumbersOf(states)
  {
    var i :| 0 <= i < |states| && states[i] == t;
    assert NumbersOf(states)[i] == t.number;
  }

  /** A number missing from the numbers belongs to no account. */
  lemma NumberAbsent(states: seq<AccountState>, n: string)
    requires n !in NumbersOf(states)
    ensures forall t :: t in states ==> t.number != n
  {
    forall t | t in states ensures t.number != n {
      NumberPresent(states, t);
    }
  }

  /** The account with its owner replaced by the name a reload gives it. */
  function Relabelled(states: seq<AccountState>): seq<AccountState>
  {
    seq(|states|, i requires 0 <= i < |states| => states[i].(owner := "User" + states[i].number))
  }

  /** Loading what saveAccounts wrote into an empty registry gives back every
      account, in order, with the same number, variant, parameter and
      balance; only the owner becomes "User" followed by the number. */
  lemma {:induction false} SaveLoadRoundTrip(states: seq<AccountState>)
    requires Distinct(NumbersOf(states))
    ensures Loaded([], Saved(states)) == Relabelled(states)
  {
    if states != [] {
      var front, s := states[..|states| - 1], states[|states| - 1];
      assert states == front + [s];
      assert NumbersOf(front) == NumbersOf(states)[..|states| - 1];
      SaveLoadRoundTrip(front);
      LastIsNew(states);
      SaveLoadStep(front, s);
    }
  }

  /** One step of the round trip: if the accounts in `front` come back from
      their records, so do they followed by an account with a new number. */
  lemma SaveLoadStep(front: seq<AccountState>, s: AccountState)
    requires s.number !in NumbersOf(front)
    requires Loaded([], Saved(front)) == Relabelled(front)
    ensures Loaded([], Saved(front + [s])) == Relabelled(front + [s])
  {
    var t := s.(owner := "User" + s.number);
    var saved := Saved(front + [s]);
    assert saved == Saved(front) + [RecordOf(s)];
    KindRoundTrip(s.kind);
    LoadedSnoc([], Saved(front), RecordOf(s));
    assert NumbersOf(Relabelled(front)) == NumbersOf(front);
    RelabelledSnoc(front, s);
  }

  /** Loading one more record: it is skipped or goes through addAccount. */
  lemma LoadedSnoc(states: seq<AccountState>, records: seq<Record>, r: Record)
    ensures Loaded(states, records + [r]) ==
      match StateOf(r)
      case None => Loaded(states, records)
      case Some(s) => Added(Loaded(states, records), s)
  {
  }

  /** In a registry with distinct numbers the last account's number does not
      occur before it. */
  lemma LastIsNew(states: seq<AccountState>)
    requires states != [] && Distinct(NumbersOf(states))
    ensures states[|states| - 1].number !in NumbersOf(states[..|states| - 1])
  {
    var last := |states| - 1;
    forall j | 0 <= j < last ensures NumbersOf(states[..last])[j] != states[last].number {
      assert NumbersOf(states[..last])[j] == NumbersOf(states)[j];
      assert NumbersOf(states)[j] != NumbersOf(states)[last];
    }
  }

  /** Relabelling distributes over appending one account. */
  lemma RelabelledSnoc(states: seq<AccountState>, s: AccountState)
    ensures Relabelled(states + [s]) == Relabelled(states) + [s.(owner := "User" + s.number)]
  {
  }

  /** Reading back a variant from its tag and parameter gives the variant. */
  lemma KindRoundTrip(kind: Kind)
    ensures KindOf(TypeTag(kind), Aux(kind)) == Some(kind)
  {
  }
}
