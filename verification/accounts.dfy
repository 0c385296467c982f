/**
  The `Accounts` service: a store plus the session account, and the
  operations the menu drives (login, logout, create, deposit, transfer,
  exists, close).

  In the dictionary-backed store the session account is the very object held
  in the map, so the session is modelled as the KEY of that account, and an
  in-place change of the session account is a change of the map entry.
*/
module Accounts {
  import opened Wrappers
  import opened Decimal
  import opened CreditCard
  import opened Repository

  /** The service state: the store and the key of the logged-in account, if any. */
  datatype Bank = Bank(repo: Repo, session: Option<int>)

  /** The three results of `do_transfer`: 'no_balance', 'invalid_account', 'transferred'. */
  datatype TransferOutcome = NoBalance | InvalidAccount | Transferred

  datatype TransferResult = TransferResult(bank: Bank, outcome: TransferOutcome)

  datatype CreateResult = CreateResult(bank: Bank, account: Account)

  /** A new service over an empty store: nobody logged in, no card exists, the first account gets identifier 1. */
  function Init(): (b: Bank)
    ensures b.session == None
    ensures forall card :: !Exists(b, card)
    ensures NextAccountIdentifier(b.repo).id == 1
  {
    Bank(Empty(), None)
  }

  /**
    How an account sits in a store built by this service: under its own
    identifier, which was issued by the counter, with the card derived from
    that identifier and a 4-digit PIN.
  */
  ghost predicate WellStored(r: Repo, k: int)
    requires k in r.accounts
  {
    && 1 <= k <= r.lastId
    && r.accounts[k].id == k
    && r.accounts[k].card == FromAccountId(k)
    && |r.accounts[k].pin| == 4 && AllDigits(r.accounts[k].pin)
  }

  /** The invariant every reachable service state keeps. */
  ghost predicate Valid(b: Bank) {
    && b.repo.lastId >= 0
    && (forall k :: k in b.repo.accounts ==> WellStored(b.repo, k))
    && (b.session.Some? ==> b.session.value in b.repo.accounts)
  }

  /** The balance of the session account. */
  function SessionBalance(b: Bank): (balance: int)
    requires b.session.Some? && b.session.value in b.repo.accounts
  {
    b.repo.accounts[b.session.value].balance
  }

  /** Every account is stored under its own identifier, as `save` writes it. */
  ghost predicate Keyed(r: Repo) {
    forall k :: k in r.accounts ==> r.accounts[k].id == k
  }

  /**
    Someone is logged in, and the session account is in the store. This is
    what the session operations need: Python raises on `None.balance`.
  */
  ghost predicate LoggedIn(b: Bank) {
    && Keyed(b.repo)
    && b.session.Some?
    && b.session.value in b.repo.accounts
  }

  /** A valid state with a session is one the session operations can run in. */
  lemma ValidSessionIsLoggedIn(b: Bank)
    requires Valid(b) && b.session.Some?
    ensures LoggedIn(b)
  {
    forall k | k in b.repo.accounts ensures b.repo.accounts[k].id == k {
      assert WellStored(b.repo, k);
    }
  }

  /** The initial state keeps the invariant, holds no money and no negative balance. */
  lemma InitIsValid()
    ensures Valid(Init()) && NonNegative(Init().repo.accounts) && Total(Init().repo.accounts) == 0
  {
  }

  /**
    `logout`: clears the session; the store is untouched.
  */
  function Logout(b: Bank): (b': Bank)
    ensures b'.session == None && b'.repo == b.repo
    ensures Valid(b) ==> Valid(b')
  {
    b.(session := None)
  }

  /**
    `login`: parses the card number, reads the account stored under its
    account identifier, and logs in when the PIN matches; otherwise the
    session ends up empty. The model takes card numbers of 16 digits only;
    Python slices other lengths too, and raises only when a slice is not a
    number.
  */
  function Login(b: Bank, number: string, pin: string): (b': Bank)
    requires |number| == 16 && AllDigits(number)
    ensures b'.repo == b.repo
    ensures b'.session.Some? <==>
      (var k := ParseCard(number).accountId; k in b.repo.accounts && b.repo.accounts[k].pin == pin)
    ensures b'.session.Some? ==> b'.session.value == ParseCard(number).accountId
    ensures Valid(b) ==> Valid(b')
  {
    var card := ParseCard(number);
    match Read(b.repo, card.accountId)
    case None => Logout(b)
    case Some(account) =>
      if pin == account.pin then b.(session := Some(card.accountId)) else Logout(b)
  }

  /**
    Login looks only at the account-identifier digits 7..15 of the number: the
    issuer digits and the check digit play no part.
  */
  lemma LoginIgnoresIssuerAndCheckDigit(b: Bank, n1: string, n2: string, pin: string)
    requires |n1| == 16 && AllDigits(n1) && |n2| == 16 && AllDigits(n2)
    requires n1[6..15] == n2[6..15]
    ensures Login(b, n1, pin) == Login(b, n2, pin)
  {
  }

  /**
    In a valid state, logging in with the number of an issued card and that
    account's PIN opens a session on exactly that account.
  */
  lemma LoginWithIssuedCard(b: Bank, k: int)
    requires Valid(b) && k in b.repo.accounts && k < Pow10(9)
    ensures var number := CardNumber(b.repo.accounts[k].card);
      |number| == 16 && AllDigits(number) &&
      Login(b, number, b.repo.accounts[k].pin).session == Some(k)
  {
    IssuedCardNumberShape(k);
  }

  /**
    `create`: takes the next identifier, derives the card from it and stores
    a new account with balance 0 and the PIN drawn as `pin`. The session is
    untouched; no existing account changes. In a valid state the new
    identifier was never used before, so nothing is overwritten.
  */
  function Create(b: Bank, pin: int): (c: CreateResult)
    requires b.repo.lastId >= 0
    requires 1 <= pin <= 9999
    ensures c.account.id == b.repo.lastId + 1 == c.bank.repo.lastId
    ensures c.account.card == FromAccountId(c.account.id) && c.account.balance == 0
    ensures |c.account.pin| == 4 && AllDigits(c.account.pin) && ParseDecimal(c.account.pin) == pin
    ensures Read(c.bank.repo, c.account.id) == Some(c.account)
    ensures c.bank.repo.accounts.Keys == b.repo.accounts.Keys + {c.account.id}
    ensures forall k :: k in b.repo.accounts && k != c.account.id ==> c.bank.repo.accounts[k] == b.repo.accounts[k]
    ensures c.bank.session == b.session
    ensures NonNegative(b.repo.accounts) ==> NonNegative(c.bank.repo.accounts)
  {
    var issued := NextAccountIdentifier(b.repo);
    var card := FromAccountId(issued.id);
    var created := CreateAccount(issued.repo, issued.id, card, pin);
    assert created.repo.accounts == b.repo.accounts[issued.id := created.account];
    CreateResult(b.(repo := created.repo), created.account)
  }

  /**
    In a valid state `create` never overwrites: the new identifier is above
    every stored one. The invariant holds afterwards and the total is
    unchanged.
  */
  lemma CreateKeepsInvariant(b: Bank, pin: int)
    requires Valid(b) && 1 <= pin <= 9999
    ensures Create(b, pin).account.id !in b.repo.accounts
    ensures Valid(Create(b, pin).bank)
    ensures Total(Create(b, pin).bank.repo.accounts) == Total(b.repo.accounts)
  {
    var c := Create(b, pin);
    var id := c.account.id;
    forall k | k in b.repo.accounts ensures k < id {
      assert WellStored(b.repo, k);
    }
    forall k | k in c.bank.repo.accounts ensures WellStored(c.bank.repo, k) {
      if k != id {
        assert WellStored(b.repo, k);
      }
    }
    TotalInsert(b.repo.accounts, id, c.account);
  }

  /**
    `add_income`: adds `amount` to the session account (no sign check) and
    saves it. Only that account changes, and the total grows by `amount`.
    Calling it with nobody logged in raises in Python.
  */
  function AddIncome(b: Bank, amount: int): (b': Bank)
    requires LoggedIn(b)
    ensures b'.session == b.session && b'.repo.lastId == b.repo.lastId
    ensures b'.repo.accounts.Keys == b.repo.accounts.Keys
    ensures b'.repo.accounts[b.session.value] ==
      b.repo.accounts[b.session.value].(balance := SessionBalance(b) + amount)
    ensures forall k :: k in b.repo.accounts && k != b.session.value ==> b'.repo.accounts[k] == b.repo.accounts[k]
    ensures Total(b'.repo.accounts) == Total(b.repo.accounts) + amount
    ensures NonNegative(b.repo.accounts) && amount >= 0 ==> NonNegative(b'.repo.accounts)
  {
    var s := b.session.value;
    var current := b.repo.accounts[s];
    // the session object is the stored one: the increment changes the map entry
    var m := b.repo.accounts[s := current.(balance := current.balance + amount)];
    var r := Save(b.repo.(accounts := m), m[s], None);
    assert r.accounts == m;
    TotalUpdate(b.repo.accounts, s, m[s]);
    b.(repo := r)
  }

  /**
    Setting one stored balance keeps the invariant, and keeps balances
    non-negative when the new one is.
  */
  lemma BalanceChangeKeepsInvariant(b: Bank, k: int, balance: int)
    requires Valid(b) && k in b.repo.accounts
    ensures Valid(b.(repo := b.repo.(accounts := b.repo.accounts[k := b.repo.accounts[k].(balance := balance)])))
  {
    var m := b.repo.accounts[k := b.repo.accounts[k].(balance := balance)];
    var b' := b.(repo := b.repo.(accounts := m));
    forall j | j in m ensures WellStored(b'.repo, j) {
      assert WellStored(b.repo, j);
    }
  }

  /** `add_income` keeps the invariant. */
  lemma AddIncomeKeepsInvariant(b: Bank, amount: int)
    requires Valid(b) && b.session.Some?
    ensures LoggedIn(b) && Valid(AddIncome(b, amount))
  {
    ValidSessionIsLoggedIn(b);
    var s := b.session.value;
    BalanceChangeKeepsInvariant(b, s, SessionBalance(b) + amount);
  }

  /**
    The transferring branch of `do_transfer`: the session account is debited
    and the account under `d` credited, acting on the stored objects in that
    order (one object when `d` is the session's own key), and both are saved.
    Only the two balances move, and the total is unchanged.
  */
  function MoveBalance(b: Bank, d: int, amount: int): (b': Bank)
    requires LoggedIn(b) && d in b.repo.accounts
    ensures b'.session == b.session && b'.repo.lastId == b.repo.lastId
    ensures b'.repo.accounts.Keys == b.repo.accounts.Keys
    ensures d != b.session.value ==>
      && b'.repo.accounts[b.session.value] ==
           b.repo.accounts[b.session.value].(balance := SessionBalance(b) - amount)
      && b'.repo.accounts[d] == b.repo.accounts[d].(balance := b.repo.accounts[d].balance + amount)
    ensures d == b.session.value ==> b' == b
    ensures forall k :: k in b.repo.accounts && k != b.session.value && k != d ==>
      b'.repo.accounts[k] == b.repo.accounts[k]
    ensures Total(b'.repo.accounts) == Total(b.repo.accounts)
    ensures NonNegative(b.repo.accounts) && 0 <= amount <= SessionBalance(b) ==> NonNegative(b'.repo.accounts)
  {
    var s := b.session.value;
    var m := b.repo.accounts;
    var m1 := m[s := m[s].(balance := m[s].balance - amount)];
    var m2 := m1[d := m1[d].(balance := m1[d].balance + amount)];
    var r := Save(b.repo.(accounts := m2), m2[s], Some(m2[d]));
    assert r.accounts == m2;
    TotalUpdate(m, s, m1[s]);
    TotalUpdate(m1, d, m2[d]);
    assert d == s ==> m2 == m;
    b.(repo := r)
  }

  /** Moving a balance keeps the invariant. */
  lemma MoveBalanceKeepsInvariant(b: Bank, d: int, amount: int)
    requires Valid(b) && b.session.Some? && d in b.repo.accounts
    ensures LoggedIn(b) && Valid(MoveBalance(b, d, amount))
  {
    ValidSessionIsLoggedIn(b);
    var s := b.session.value;
    var m := b.repo.accounts;
    var b1 := b.(repo := b.repo.(accounts := m[s := m[s].(balance := m[s].balance - amount)]));
    BalanceChangeKeepsInvariant(b, s, m[s].balance - amount);
    BalanceChangeKeepsInvariant(b1, d, b1.repo.accounts[d].balance + amount);
  }

  /**
    `do_transfer`: with too small a session balance, 'no_balance'; else with
    no account under the card's identifier, 'invalid_account'; in both cases
    nothing changes. Otherwise the balance moves as `MoveBalance` says:
    'transferred'.
  */
  function DoTransfer(b: Bank, card: Card, amount: int): (t: TransferResult)
    requires LoggedIn(b)
    ensures t.outcome == NoBalance <==> SessionBalance(b) < amount
    ensures t.outcome == InvalidAccount <==> SessionBalance(b) >= amount && card.accountId !in b.repo.accounts
    ensures t.outcome != Transferred ==> t.bank == b
    ensures t.outcome == Transferred ==> t.bank == MoveBalance(b, card.accountId, amount)
    ensures Total(t.bank.repo.accounts) == Total(b.repo.accounts)
    ensures NonNegative(b.repo.accounts) && amount >= 0 ==> NonNegative(t.bank.repo.accounts)
  {
    if SessionBalance(b) < amount then TransferResult(b, NoBalance)
    else
      match Read(b.repo, card.accountId)
      case None => TransferResult(b, InvalidAccount)
      case Some(_) =>
        TransferResult(MoveBalance(b, card.accountId, amount), Transferred)
  }

  /**
    `exists`: whether an account is stored under the card's account
    identifier. No session is needed.
  */
  function Exists(b: Bank, card: Card): (e: bool)
    ensures e <==> card.accountId in b.repo.accounts
  {
    Read(b.repo, card.accountId) != None
  }

  /**
    The menu asks `exists` before `do_transfer`: once the balance suffices, the
    transfer goes through exactly when `exists` said yes.
  */
  lemma ExistsDecidesTransfer(b: Bank, card: Card, amount: int)
    requires LoggedIn(b) && SessionBalance(b) >= amount
    ensures DoTransfer(b, card, amount).outcome == Transferred <==> Exists(b, card)
    ensures !Exists(b, card) ==> DoTransfer(b, card, amount).outcome == InvalidAccount
  {
  }

  /**
    `close`: deletes the session account from the store and logs out. The
    total loses that account's balance; nothing else changes.
  */
  function Close(b: Bank): (b': Bank)
    requires LoggedIn(b)
    ensures b'.session == None
    ensures Read(b'.repo, b.session.value) == None
    ensures b'.repo.accounts.Keys == b.repo.accounts.Keys - {b.session.value}
    ensures forall k :: k in b'.repo.accounts ==> b'.repo.accounts[k] == b.repo.accounts[k]
    ensures b'.repo.lastId == b.repo.lastId
    ensures Total(b'.repo.accounts) == Total(b.repo.accounts) - SessionBalance(b)
  {
    var s := b.session.value;
    TotalRemove(b.repo.accounts, s);
    Logout(b.(repo := Delete(b.repo, s)))
  }

  /** `close` keeps the invariant. */
  lemma CloseKeepsInvariant(b: Bank)
    requires Valid(b) && b.session.Some?
    ensures LoggedIn(b) && Valid(Close(b))
  {
    ValidSessionIsLoggedIn(b);
    var b' := Close(b);
    forall k | k in b'.repo.accounts ensures WellStored(b'.repo, k) {
      assert WellStored(b.repo, k);
    }
  }

  /** `do_transfer` keeps the invariant. */
  lemma DoTransferKeepsInvariant(b: Bank, card: Card, amount: int)
    requires Valid(b) && b.session.Some?
    ensures LoggedIn(b) && Valid(DoTransfer(b, card, amount).bank)
  {
    ValidSessionIsLoggedIn(b);
    var t := DoTransfer(b, card, amount);
    if t.outcome == Transferred {
      MoveBalanceKeepsInvariant(b, card.accountId, amount);
    } else {
      assert t.bank == b;
    }
  }

  /** An identifier is never issued again, even after its account was closed. */
  lemma ClosedIdentifierNotReissued(b: Bank, pin: int)
    requires Valid(b) && b.session.Some? && 1 <= pin <= 9999
    ensures LoggedIn(b)
    ensures Create(Close(b), pin).account.id != b.session.value
    ensures Create(Close(b), pin).account.id !in b.repo.accounts
  {
    ValidSessionIsLoggedIn(b);
    CreateKeepsInvariant(b, pin);
  }

  /** In every valid state each stored account's card number, while it fits, passes the Luhn check. */
  lemma StoredCardsAreValid(b: Bank, k: int)
    requires Valid(b) && k in b.repo.accounts && k < Pow10(9)
    ensures LuhnValid(CardNumber(b.repo.accounts[k].card))
  {
    IssuedCardNumberIsValid(k);
  }

  // ---------------------------------------------------------------------
  // Sequences of operations, as the menu loop issues them

  datatype Op =
    | LoginOp(number: string, pin: string)
    | LogoutOp
    | CreateOp(draw: int)
    | AddIncomeOp(amount: int)
    | TransferOp(card: Card, amount: int)
    | CloseOp

  /**
    Whether `op` can run in `b`: login takes a 16-digit card number (the
    boundary of the model), the session operations need someone logged in
    (Python raises on `None` otherwise), and a PIN draw lies in 1..9999.
  */
  predicate Enabled(b: Bank, op: Op) {
    match op
    case LoginOp(number, _) => |number| == 16 && AllDigits(number)
    case LogoutOp => true
    case CreateOp(p) => 1 <= p <= 9999
    case AddIncomeOp(_) => b.session.Some?
    case TransferOp(_, _) => b.session.Some?
    case CloseOp => b.session.Some?
  }

  /** The operation moves no money out of any account by a negative amount. */
  predicate NonNegativeAmount(op: Op) {
    match op
    case AddIncomeOp(amount) => amount >= 0
    case TransferOp(_, amount) => amount >= 0
    case _ => true
  }

  function Step(b: Bank, op: Op): (b': Bank)
    requires Valid(b) && Enabled(b, op)
    ensures Valid(b') && b'.repo.lastId >= b.repo.lastId
    ensures NonNegative(b.repo.accounts) && NonNegativeAmount(op) ==> NonNegative(b'.repo.accounts)
  {
    match op
    case LoginOp(number, pin) => Login(b, number, pin)
    case LogoutOp => Logout(b)
    case CreateOp(p) => CreateKeepsInvariant(b, p); Create(b, p).bank
    case AddIncomeOp(amount) => AddIncomeKeepsInvariant(b, amount); AddIncome(b, amount)
    case TransferOp(card, amount) => DoTransferKeepsInvariant(b, card, amount); DoTransfer(b, card, amount).bank
    case CloseOp => CloseKeepsInvariant(b); Close(b)
  }

  /**
    Runs the operations in order; None when one of them would raise. Every
    state reached keeps the invariant, the counter never goes back, and with
    non-negative amounts no balance becomes negative.
  */
  function Run(b: Bank, ops: seq<Op>): (r: Option<Bank>)
    requires Valid(b)
    ensures r.Some? ==> Valid(r.value) && r.value.repo.lastId >= b.repo.lastId
    ensures r.Some? && NonNegative(b.repo.accounts) && (forall i :: 0 <= i < |ops| ==> NonNegativeAmount(ops[i])) ==>
      NonNegative(r.value.repo.accounts)
    decreases |ops|
  {
    if |ops| == 0 then Some(b)
    else if !Enabled(b, ops[0]) then None
    else Run(Step(b, ops[0]), ops[1..])
  }

  /**
    From a fresh service, every state the operations reach keeps the
    invariant, and with non-negative amounts every balance stays >= 0.
  */
  lemma ReachableStatesAreValid(ops: seq<Op>)
    requires Run(Init(), ops).Some?
    ensures Valid(Run(Init(), ops).value)
    ensures (forall i :: 0 <= i < |ops| ==> NonNegativeAmount(ops[i])) ==> NonNegative(Run(Init(), ops).value.repo.accounts)
  {
  }
}
