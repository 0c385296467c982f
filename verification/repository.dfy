/**
  The in-memory account store `AccountsRepositoryDict`: a map from account
  identifier to account plus the last identifier handed out.
*/
module Repository {
  import opened Wrappers
  import opened Decimal
  import opened CreditCard

  /** An account: its identifier, its card, its 4-character PIN and its balance. */
  datatype Account = Account(id: int, card: Card, pin: string, balance: int)

  /** The store: accounts by identifier, and the counter of issued identifiers. */
  datatype Repo = Repo(accounts: map<int, Account>, lastId: int)

  /** The result of `next_account_identifier`: the new store and the identifier. */
  datatype Issued = Issued(repo: Repo, id: int)

  /** The result of `create_account`: the new store and the new account. */
  datatype Created = Created(repo: Repo, account: Account)

  /** A fresh store: nothing can be read, and the first identifier issued is 1. */
  function Empty(): (r: Repo)
    ensures forall id :: Read(r, id) == None
    ensures NextAccountIdentifier(r).id == 1
  {
    Repo(map[], 0)
  }

  /**
    `generate_pin_code` with the random draw `p` from 1..9999 passed in:
    the draw written with four digits, leading zeros kept.
  */
  function PinCode(p: int): (pin: string)
    requires 1 <= p <= 9999
    ensures |pin| == 4 && AllDigits(pin)
    ensures ParseDecimal(pin) == p
  {
    assert Pow10(4) == 10000;
    ZeroPadLength(p, 4);
    ParseDecimalOfZeroPad(p, 4);
    ZeroPad(p, 4)
  }

  /** `next_account_identifier`: bumps the counter and returns its new value; accounts are untouched. */
  function NextAccountIdentifier(r: Repo): (i: Issued)
    ensures i.id == r.lastId + 1 && i.repo.lastId == i.id
    ensures i.repo.accounts == r.accounts
  {
    var id := r.lastId + 1;
    Issued(r.(lastId := id), id)
  }

  /** The identifiers returned by `n` successive calls of `next_account_identifier`. */
  function IssueMany(r: Repo, n: nat): (ids: seq<int>)
    decreases n
  {
    if n == 0 then []
    else
      var i := NextAccountIdentifier(r);
      [i.id] + IssueMany(i.repo, n - 1)
  }

  /** Successive calls return the counter plus 1, 2, 3, ... */
  lemma {:induction false} IssueManyCounts(r: Repo, n: nat)
    ensures |IssueMany(r, n)| == n
    ensures forall k :: 0 <= k < n ==> IssueMany(r, n)[k] == r.lastId + k + 1
    decreases n
  {
    if n > 0 {
      var i := NextAccountIdentifier(r);
      IssueManyCounts(i.repo, n - 1);
    }
  }

  /** Identifiers are never repeated: successive calls return strictly increasing values. */
  lemma IssueManyIncreasing(r: Repo, n: nat)
    ensures forall j, k :: 0 <= j < k < |IssueMany(r, n)| ==> IssueMany(r, n)[j] < IssueMany(r, n)[k]
  {
    IssueManyCounts(r, n);
  }

  /** On a fresh store the n-th call returns n. */
  lemma FreshStoreIssuesOneToN(n: nat)
    ensures |IssueMany(Empty(), n)| == n
    ensures forall i :: 0 <= i < n ==> IssueMany(Empty(), n)[i] == i + 1
  {
    IssueManyCounts(Empty(), n);
  }

  /**
    `create_account`: a new account with the given identifier and card, the
    PIN drawn as `pin`, balance 0, stored under the card's account identifier
    (overwriting any account already there). Nothing else changes.
  */
  function CreateAccount(r: Repo, id: int, card: Card, pin: int): (c: Created)
    requires 1 <= pin <= 9999
    ensures c.account.id == id && c.account.card == card && c.account.balance == 0
    ensures |c.account.pin| == 4 && AllDigits(c.account.pin) && ParseDecimal(c.account.pin) == pin
    ensures Read(c.repo, card.accountId) == Some(c.account)
    ensures c.repo.accounts.Keys == r.accounts.Keys + {card.accountId}
    ensures forall k :: k in r.accounts && k != card.accountId ==> c.repo.accounts[k] == r.accounts[k]
    ensures c.repo.lastId == r.lastId
  {
    var account := Account(id, card, PinCode(pin), 0);
    Created(r.(accounts := r.accounts[card.accountId := account]), account)
  }

  /** `read`: the account stored under `id`, or None when there is none. */
  function Read(r: Repo, id: int): (a: Option<Account>)
    ensures a.Some? <==> id in r.accounts
    ensures a.Some? ==> a.value == r.accounts[id]
  {
    if id !in r.accounts then None else Some(r.accounts[id])
  }

  /**
    `save`: stores `first` under its own identifier and then `second`, when
    given, under its own; the second write wins when both share an identifier.
  */
  function Save(r: Repo, first: Account, second: Option<Account>): (r': Repo)
    ensures r'.lastId == r.lastId
    ensures r'.accounts.Keys == r.accounts.Keys + {first.id} + (if second.Some? then {second.value.id} else {})
    ensures second.Some? ==> r'.accounts[second.value.id] == second.value
    ensures second.None? || second.value.id != first.id ==> r'.accounts[first.id] == first
    ensures forall k :: k in r.accounts && k != first.id && (second.None? || k != second.value.id) ==>
      r'.accounts[k] == r.accounts[k]
  {
    var m := r.accounts[first.id := first];
    match second
    case None => r.(accounts := m)
    case Some(a) => r.(accounts := m[a.id := a])
  }

  /** `delete`: removes the account stored under `id`; Python's `del` raises when there is none. */
  function Delete(r: Repo, id: int): (r': Repo)
    requires id in r.accounts
    ensures r'.accounts.Keys == r.accounts.Keys - {id}
    ensures forall k :: k in r'.accounts ==> r'.accounts[k] == r.accounts[k]
    ensures Read(r', id) == None
    ensures r'.lastId == r.lastId
  {
    r.(accounts := r.accounts - {id})
  }

  // ---------------------------------------------------------------------
  // The total balance held in a store

  ghost function Pick(keys: set<int>): (k: int)
    requires keys != {}
    ensures k in keys
  {
    NonEmptyHasElement(keys);
    var x :| x in keys; x
  }

  lemma NonEmptyHasElement(keys: set<int>)
    requires keys != {}
    ensures exists x :: x in keys
  {
    if forall x :: x !in keys {
      assert false;
    }
  }

  /** The sum of the balances of the accounts under `keys`. */
  ghost function SumOver(m: map<int, Account>, keys: set<int>): (sum: int)
    requires keys <= m.Keys
    decreases keys
  {
    if keys == {} then 0
    else
      var k := Pick(keys);
      m[k].balance + SumOver(m, keys - {k})
  }

  /** The sum of all balances in an account map. */
  ghost function Total(m: map<int, Account>): (total: int)
  {
    SumOver(m, m.Keys)
  }

  /** Every balance is at least 0. */
  ghost predicate NonNegative(m: map<int, Account>) {
    forall k :: k in m ==> m[k].balance >= 0
  }

  /** Any key can be taken out of the sum first. */
  lemma {:induction false} SumOverPick(m: map<int, Account>, keys: set<int>, k: int)
    requires keys <= m.Keys && k in keys
    ensures SumOver(m, keys) == m[k].balance + SumOver(m, keys - {k})
    decreases keys
  {
    var j := Pick(keys);
    if j != k {
      SumOverPick(m, keys - {j}, k);
      SumOverPick(m, keys - {k}, j);
      assert keys - {j} - {k} == keys - {k} - {j};
    }
  }

  /** The sum only depends on the balances under the keys summed. */
  lemma {:induction false} SumOverFrame(m: map<int, Account>, m': map<int, Account>, keys: set<int>)
    requires keys <= m.Keys && keys <= m'.Keys
    requires forall k :: k in keys ==> m[k].balance == m'[k].balance
    ensures SumOver(m, keys) == SumOver(m', keys)
    decreases keys
  {
    if keys != {} {
      var k := Pick(keys);
      SumOverFrame(m, m', keys - {k});
    }
  }

  /** Overwriting one stored account changes the total by the change of its balance. */
  lemma TotalUpdate(m: map<int, Account>, k: int, a: Account)
    requires k in m
    ensures Total(m[k := a]) == Total(m) - m[k].balance + a.balance
  {
    var m' := m[k := a];
    assert m'.Keys == m.Keys;
    SumOverPick(m, m.Keys, k);
    SumOverPick(m', m.Keys, k);
    SumOverFrame(m, m', m.Keys - {k});
  }

  /** Adding an account under a new key adds its balance to the total. */
  lemma TotalInsert(m: map<int, Account>, k: int, a: Account)
    ensures k !in m ==> Total(m[k := a]) == Total(m) + a.balance
  {
    if k !in m {
      var m' := m[k := a];
      SumOverPick(m', m'.Keys, k);
      assert m'.Keys - {k} == m.Keys;
      SumOverFrame(m, m', m.Keys);
    }
  }

  /** Removing an account takes its balance out of the total. */
  lemma TotalRemove(m: map<int, Account>, k: int)
    requires k in m
    ensures Total(m - {k}) == Total(m) - m[k].balance
  {
    var m' := m - {k};
    SumOverPick(m, m.Keys, k);
    assert m'.Keys == m.Keys - {k};
    SumOverFrame(m, m', m'.Keys);
  }
}
