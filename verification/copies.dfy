/**
  `do_transfer` over a store that hands out copies. The SQLite repository's
  `read` builds a new `Account` from the table row, so the session holds the
  copy taken at login and `do_transfer` reads a second, independent copy of
  the destination; `save` then writes both balances back by identifier.
  When the destination is the session's own account, the second write
  overwrites the debit with the credited copy, and the amount is created in
  the store. The session copy keeps the debit: it and the store disagree by
  twice the amount until the next save or login, and the next deposit saves
  the session copy, which destroys the amount again.
*/
module CopiedAccounts {
  import opened Wrappers
  import opened CreditCard
  import opened Repository
  import opened Accounts

  /** A transfer outcome together with the store and the session copy after it. */
  datatype CopyTransfer = CopyTransfer(repo: Repo, session: Account, outcome: TransferOutcome)

  /**
    `do_transfer` as written, over copies: debit the session copy `current`,
    credit a fresh copy of the destination, save both in that order.
  */
  function TransferWithCopies(r: Repo, current: Account, card: Card, amount: int): (t: CopyTransfer)
    ensures t.outcome == NoBalance <==> current.balance < amount
    ensures t.outcome == InvalidAccount <==> current.balance >= amount && card.accountId !in r.accounts
    ensures t.outcome != Transferred ==> t.repo == r && t.session == current
    ensures t.outcome == Transferred ==> t.session == current.(balance := current.balance - amount)
    ensures t.outcome == Transferred ==>
      var destination := r.accounts[card.accountId];
      destination.id in t.repo.accounts && t.repo.accounts[destination.id] == destination.(balance := destination.balance + amount)
    ensures t.outcome == Transferred ==>
      var destination := r.accounts[card.accountId];
      current.id != destination.id ==> current.id in t.repo.accounts && t.repo.accounts[current.id] == t.session
    ensures t.outcome == Transferred ==>
      var destination := r.accounts[card.accountId];
      forall k :: k in r.accounts && k != current.id && k != destination.id ==>
        k in t.repo.accounts && t.repo.accounts[k] == r.accounts[k]
    ensures t.repo.lastId == r.lastId
  {
    if current.balance < amount then CopyTransfer(r, current, NoBalance)
    else
      match Read(r, card.accountId)
      case None => CopyTransfer(r, current, InvalidAccount)
      case Some(destination) =>
        var from := current.(balance := current.balance - amount);
        var to := destination.(balance := destination.balance + amount);
        CopyTransfer(Save(r, from, Some(to)), from, Transferred)
  }

  /**
    `add_income` as written, over copies: credit the session copy and save it.
    The stored row takes the session copy's balance plus the amount, whatever
    it held before. Returns the store and the session copy.
  */
  function AddIncomeWithCopies(r: Repo, current: Account, amount: int): (p: (Repo, Account))
    ensures p.1 == current.(balance := current.balance + amount)
    ensures current.id in p.0.accounts && p.0.accounts[current.id] == p.1
    ensures forall k :: k in r.accounts && k != current.id ==> k in p.0.accounts && p.0.accounts[k] == r.accounts[k]
  {
    var credited := current.(balance := current.balance + amount);
    (Save(r, credited, None), credited)
  }

  /**
    Between two different accounts, copies give the same store and outcome as
    the shared objects of the dictionary store.
  */
  lemma CopiesAgreeOnDistinctAccounts(b: Bank, card: Card, amount: int)
    requires LoggedIn(b) && card.accountId != b.session.value
    ensures var t := DoTransfer(b, card, amount);
      TransferWithCopies(b.repo, b.repo.accounts[b.session.value], card, amount) ==
      CopyTransfer(t.bank.repo, t.bank.repo.accounts[b.session.value], t.outcome)
  {
    var s := b.session.value;
    var t := TransferWithCopies(b.repo, b.repo.accounts[s], card, amount);
    if t.outcome == Transferred {
      var d := card.accountId;
      var m := b.repo.accounts;
      var from := m[s].(balance := m[s].balance - amount);
      var to := m[d].(balance := m[d].balance + amount);
      assert t.repo.accounts == m[s := from][d := to];
      assert MoveBalance(b, d, amount).repo.accounts == m[s := from][d := to];
    }
  }

  /**
    A covered self-transfer over copies reports success and leaves the stored
    account `amount` richer, so the total grows by `amount`; the session copy
    is `amount` poorer, so the two differ by twice the amount.
  */
  lemma SelfTransferWithCopiesCreatesMoney(b: Bank, card: Card, amount: int)
    requires LoggedIn(b) && card.accountId == b.session.value && amount <= SessionBalance(b)
    ensures var s := b.session.value;
      var t := TransferWithCopies(b.repo, b.repo.accounts[s], card, amount);
      && t.outcome == Transferred
      && t.repo.accounts[s].balance == SessionBalance(b) + amount
      && t.session.balance == SessionBalance(b) - amount
      && t.repo.accounts[s].balance - t.session.balance == 2 * amount
      && Total(t.repo.accounts) == Total(b.repo.accounts) + amount
  {
    var s := b.session.value;
    var a := b.repo.accounts[s];
    var t := TransferWithCopies(b.repo, a, card, amount);
    assert t.repo.accounts == b.repo.accounts[s := a.(balance := a.balance + amount)];
    TotalUpdate(b.repo.accounts, s, a.(balance := a.balance + amount));
  }

  /**
    A deposit after a covered self-transfer over copies saves the stale
    session copy: the stored balance ends `amount` below what the dictionary
    store gives for the same two steps, and the total ends `amount` lower.
  */
  lemma DepositAfterSelfTransferWithCopiesLosesMoney(b: Bank, card: Card, amount: int, income: int)
    requires LoggedIn(b) && card.accountId == b.session.value && amount <= SessionBalance(b)
    ensures var s := b.session.value;
      var t := TransferWithCopies(b.repo, b.repo.accounts[s], card, amount);
      var after := AddIncomeWithCopies(t.repo, t.session, income).0;
      var shared := AddIncome(DoTransfer(b, card, amount).bank, income);
      && s in after.accounts
      && after.accounts[s].balance == SessionBalance(b) - amount + income
      && after.accounts[s].balance == shared.repo.accounts[s].balance - amount
      && Total(after.accounts) == Total(b.repo.accounts) + income - amount
  {
    var s := b.session.value;
    var a := b.repo.accounts[s];
    var t := TransferWithCopies(b.repo, a, card, amount);
    var a' := a.(balance := a.balance - amount + income);
    assert t.repo.accounts == b.repo.accounts[s := a.(balance := a.balance + amount)];
    var after := AddIncomeWithCopies(t.repo, t.session, income).0;
    assert after.accounts == b.repo.accounts[s := a'];
    assert DoTransfer(b, card, amount).bank == b;
    TotalUpdate(b.repo.accounts, s, a');
  }

  /**
    The concrete case: account 1 holds 100 and transfers 30 to its own card.
    With copies the store ends at 130 while the session copy holds 70; with
    the shared objects both stay at 100.
  */
  lemma SelfTransferExample()
    ensures var a := Account(1, FromAccountId(1), "1234", 100);
      var b := Bank(Repo(map[1 := a], 1), Some(1));
      && TransferWithCopies(b.repo, a, a.card, 30).repo.accounts[1].balance == 130
      && TransferWithCopies(b.repo, a, a.card, 30).session.balance == 70
      && DoTransfer(b, a.card, 30).bank.repo.accounts[1].balance == 100
  {
    var a := Account(1, FromAccountId(1), "1234", 100);
    var b := Bank(Repo(map[1 := a], 1), Some(1));
    assert LoggedIn(b);
  }
}
