# Simple banking system — card numbers and in-memory ledger

A Dafny model of the two components of `banking.py` that carry real logic:

* **Card-number arithmetic** (`CreditCard`). A card number is 16 decimal
  digits: the issuer identification number `400000`, a 9-digit account
  identifier and a Luhn check digit (ISO/IEC 7812-1, Annex B). The code
  formats the three fields, parses a 16-digit string back into them, computes
  the check digit and validates a string. It walks the digits from the left
  and doubles every digit at an even 0-based index. The model follows that
  left-indexed form. `Luhn.LuhnSumIsStandard` proves it equals the standard
  right-to-left rule for an even number of digits.
* **In-memory ledger** (`AccountsRepositoryDict` and `Accounts`). The store
  is a `map<int, Account>` plus a counter that only grows. The service holds
  the session as `Option<int>`. This is the key of the logged-in account, not
  a copy of it. In the dictionary store the session account *is* the stored
  object, so a change through the session is a change of the map entry. The
  model covers login, logout, create, deposit (`add_income`), transfer,
  exists and close. All of them are pure functions from state to state.

Modules, leaves first:

| file | module | contents |
|---|---|---|
| wrappers.dfy | `Wrappers` | `Option`, `Result` |
| decimal.dfy | `Decimal` | `"{:0Nd}".format` for integers; `int()` on ASCII digit strings; round trips between them |
| luhn.dfy | `Luhn` | the left-indexed Luhn sum, its update rule, its agreement with the right-indexed rule |
| card.dfy | `CreditCard` | card fields, format, parse, check digit, validation loop, card brands |
| repository.dfy | `Repository` | accounts, the dictionary store, the PIN format, the total balance |
| accounts.dfy | `Accounts` | the session service, its invariant `Valid`, and runs of menu operations |
| copies.dfy | `CopiedAccounts` | `do_transfer` over a store whose `read` returns copies (see Findings) |

Inputs the program draws from outside are parameters. The random PIN draw
(`random.randint(1, 9999)`) is an integer `1 <= pin <= 9999`. The card
number and PIN typed at login, and the amounts, are arguments.

Python raises in some places. The model turns each into a `requires` or an
error result:

* `int()` on a non-digit inside `is_valid_card_number` becomes
  `Failure(NonDigit(i))`.
* `calc_checksum` requires an identifier `>= 0`. Formatting a negative one
  puts a `-` in the string, and `int('-')` raises.
* `add_income`, `do_transfer` and `close` require a logged-in session.
* `delete` requires the key to be present.

`CreditCard(str)` and `login` also require a 16-digit string. That is a
boundary the model chooses, not a place where Python raises: Python slices
strings of other lengths as well (see "## Left out").

The ledger operations that dereference the session require `LoggedIn`:
there is a session, its key is stored, and every account is stored under
its own identifier. This is what makes "session = key" exact. The full
representation invariant `Valid` adds that every identifier was issued by
the counter, that the card is derived from it and that the PIN has four
digits. One lemma per operation (`...KeepsInvariant`) proves that the
operation keeps `Valid`, and `Accounts.ReachableStatesAreValid` proves that
`Valid` holds in every state reachable from an empty store.

## Model

| member | source | states |
|---|---|---|
| CreditCard.FormatCardNumber | banking.py:45-47 | fields within 6, 9 and 1 digits give exactly 16 characters; non-negative fields give only digits |
| CreditCard.CardNumber | banking.py:42-47 | for fields within 6, 9 and 1 digits, the number has 16 digits and its slices [0:6], [6:15] and [15] read back as issuer number, account identifier and check digit |
| CreditCard.FormatParseRoundTrip | banking.py:38-47 | for iin < 10^6, identifier < 10^9 and check digit < 10, parsing the formatted number recovers all three fields |
| CreditCard.ParseCard | banking.py:37-40 | a 16-digit string splits into fields within range, and formatting those fields rebuilds the same string |
| CreditCard.CalcChecksum | banking.py:79-90 | the result is a digit 0..9; adding it to the Luhn sum with a placeholder 0 gives a multiple of 10; it is 0 exactly when that sum already is |
| CreditCard.FromAccountId | banking.py:32-36 | a card built from an identifier has issuer 400000, that identifier and a check digit in 0..9 |
| CreditCard.LuhnTotal | banking.py:69-77 | the loop returns the left-indexed Luhn sum when every character is a digit; otherwise it fails at the first non-digit |
| CreditCard.IsValidCardNumber | banking.py:64-77 | false for every length other than 16; a failure exactly when a 16-character string holds a non-digit; otherwise true exactly when the Luhn sum is a multiple of 10 |
| CreditCard.IssuedCardNumberShape | banking.py:32-47 | for identifiers below 10^9 the card number is 16 digits, starts with "400000" and parses back to the same card |
| CreditCard.IssuedCardNumberIsValid | banking.py:65-90 | for identifiers below 10^9 the card number of a new card passes the validity check |
| CreditCard.OversizedIdentifierIsInvalid | banking.py:46-67 | from identifier 10^9 on, the card number is longer than 16 characters and fails the validity check |
| CreditCard.LastDigitCorruptionDetected | banking.py:66-77 | replacing the last digit d of a valid number by (d+1) % 10 makes it invalid |
| CreditCard.SingleDigitChangeDetected | banking.py:66-77 | changing any one digit of a valid number into a different digit makes it invalid |
| CreditCard.LuhnValidIsStandard | banking.py:69-77 | on 16-digit strings, the code's left-indexed check equals the standard right-to-left Luhn check |
| Luhn.LuhnSumIsStandard | banking.py:69-77 | for an even number of digits, the left-indexed sum equals the standard right-indexed sum |
| CreditCard.IsVisa | banking.py:52-54 | true exactly when the issuer number lies in 400000..499999 |
| CreditCard.IsAmericanExpress | banking.py:56-58 | true exactly when the issuer number lies in 340000..349999 or 370000..379999 |
| CreditCard.IsMastercard | banking.py:60-62 | true exactly when the issuer number lies in 510000..519999 or 550000..559999 |
| CreditCard.BrandsAreExclusive | banking.py:52-62 | no card is of two brands among Visa, American Express and Mastercard |
| CreditCard.IssuedCardIsVisa | banking.py:30-54 | every card issued by the bank is Visa, not American Express, not Mastercard |
| Repository.Empty | banking.py:102-104 | a new dictionary store reads nothing under any identifier, and its first issued identifier is 1 |
| Repository.PinCode | banking.py:5-6 | a draw from 1..9999 becomes four digits, leading zeros kept, that read back as the draw |
| Repository.NextAccountIdentifier | banking.py:124-126 | returns the counter plus one and stores it; the accounts are untouched |
| Repository.IssueManyCounts | banking.py:124-126 | n successive calls return the counter plus 1, 2, ..., n |
| Repository.IssueManyIncreasing | banking.py:124-126 | successive identifiers are strictly increasing, so none repeats |
| Repository.FreshStoreIssuesOneToN | banking.py:102-104 | on a fresh store the n-th call returns n |
| Repository.CreateAccount | banking.py:106-109 | the new account has balance 0, the given identifier and card, and a 4-digit PIN; it is stored under the card's account identifier; every other entry is unchanged |
| Repository.Read | banking.py:111-114 | returns the stored account exactly when the key is present, and None otherwise |
| Repository.Save | banking.py:116-119 | writes the first account under its identifier, then the second one under its identifier, with the second write winning on a shared key; every other entry is unchanged |
| Repository.Delete | banking.py:121-122 | removes exactly the given key, which must be present; every other entry and the counter are unchanged |
| Accounts.Init | banking.py:216-218 | a new service has nobody logged in, no card for which `exists` holds, and issues identifier 1 first |
| Accounts.InitIsValid | banking.py:216-218 | a new service over an empty store satisfies the invariant and holds total balance 0 |
| Accounts.Logout | banking.py:232-233 | the session is cleared and the store is unchanged |
| Accounts.Login | banking.py:220-230 | the session becomes the key embedded in the card exactly when an account is stored there with that PIN, and None otherwise; the store is unchanged |
| Accounts.LoginIgnoresIssuerAndCheckDigit | banking.py:220-222 | two numbers that agree on the account-identifier digits give the same login result |
| Accounts.LoginWithIssuedCard | banking.py:220-230 | logging in with a stored account's own card number and PIN opens a session on that account |
| Accounts.Create | banking.py:235-239 | the new account gets identifier counter+1, the card derived from it, balance 0 and a 4-digit PIN, and can be read back; the session and all other accounts are unchanged; non-negative balances stay non-negative |
| Accounts.CreateKeepsInvariant | banking.py:235-239 | in a valid state the new identifier is not yet stored, so nothing is overwritten; the invariant holds afterwards and the total is unchanged |
| Accounts.StoredCardsAreValid | banking.py:235-239 | in a valid state every stored card number below 10^9 passes the validity check |
| Accounts.AddIncome | banking.py:241-243 | only the session account changes, by exactly the amount; the total grows by the amount; a non-negative amount keeps balances non-negative |
| Accounts.AddIncomeKeepsInvariant | banking.py:241-243 | a deposit keeps the invariant |
| Accounts.MoveBalance | banking.py:253-255 | for distinct accounts, the source loses the amount and the destination gains it; a self-transfer leaves everything unchanged; other accounts are untouched; the total is conserved; a covered non-negative amount keeps all balances non-negative |
| Accounts.MoveBalanceKeepsInvariant | banking.py:253-255 | moving a balance keeps the invariant |
| Accounts.DoTransfer | banking.py:245-256 | the result is 'no_balance' exactly when the balance is below the amount, and 'invalid_account' exactly when the balance suffices but the destination is absent; both leave the state unchanged; otherwise the balances move; the total is conserved and non-negative balances stay non-negative |
| Accounts.DoTransferKeepsInvariant | banking.py:245-256 | every outcome of a transfer keeps the invariant |
| Accounts.Exists | banking.py:258-260 | true exactly when an account is stored under the card's account identifier |
| Accounts.ExistsDecidesTransfer | banking.py:390-395 | once the balance covers the amount, the transfer succeeds exactly when `exists` said yes |
| Accounts.Close | banking.py:262-264 | the session account is deleted and the session cleared; other accounts and the counter are unchanged; the total loses that balance |
| Accounts.CloseKeepsInvariant | banking.py:262-264 | closing keeps the invariant |
| Accounts.ClosedIdentifierNotReissued | banking.py:121-126 | after a close, the next created account gets a different identifier from every account stored before |
| Accounts.Step | banking.py:356-410 | each enabled menu operation keeps the invariant, never lowers the counter, and with a non-negative amount keeps balances non-negative |
| Accounts.Run | banking.py:356-410 | every state reached by a sequence of enabled operations keeps the invariant; with non-negative amounts, balances stay non-negative |
| Accounts.ReachableStatesAreValid | banking.py:352-410 | every state reachable from a fresh service satisfies the invariant and, with non-negative amounts, has no negative balance |
| CopiedAccounts.TransferWithCopies | banking.py:245-256 | `do_transfer` over copies has the same three outcomes and conditions; a successful transfer stores the destination copy credited by the amount, leaves the session copy debited by it and, when the two accounts differ, stores that debited copy too; every other row and the counter are unchanged; otherwise store and session copy are unchanged |
| CopiedAccounts.AddIncomeWithCopies | banking.py:241-243 | `add_income` over copies credits the session copy and stores it as it is, whatever the stored row held; other rows are unchanged |
| CopiedAccounts.CopiesAgreeOnDistinctAccounts | banking.py:184-197 | between two different accounts, copies give the same store, outcome and session balance as shared objects |
| CopiedAccounts.SelfTransferWithCopiesCreatesMoney | banking.py:249-255 | a covered self-transfer over copies reports success and raises the stored balance and the total by the amount, while the session copy drops by the amount: the two differ by twice the amount |
| CopiedAccounts.DepositAfterSelfTransferWithCopiesLosesMoney | banking.py:241-255 | a deposit after that self-transfer saves the stale session copy: the stored balance ends the amount below what shared objects give, and the total ends the amount below its start plus the deposit |
| CopiedAccounts.SelfTransferExample | banking.py:249-255 | an account with 100 transferring 30 to itself ends at 130 in the store and 70 in the session copy over copies, and at 100 over shared objects |

## Left out

* `AccountsRepositorySqlite` (banking.py:129-212). It is SQL text run
  through `sqlite3`, and its atomicity comes from the database commit. Its
  `read` returns a fresh copy, and `CopiedAccounts` models only the effect
  of that on `do_transfer` and on the deposit that follows it. It also differs from the dictionary store in
  ways that no valid state reached from a fresh store exercises:
  * `delete` of an absent identifier does nothing (banking.py:199-203),
    where the dictionary raises `KeyError` (banking.py:121-122);
  * `create_account` on a stored identifier raises on the primary key
    (banking.py:135, 175-179), where the dictionary overwrites
    (banking.py:108);
  * `save` updates only the balance and ignores an absent identifier
    (banking.py:191-197), where the dictionary stores the whole account and
    inserts it when missing (banking.py:116-119);
  * the counter is kept in a table across runs (banking.py:205-212), where
    the dictionary store starts at 0 (banking.py:104).
  In valid states `close` deletes only the stored session key, `create`
  always gets a fresh identifier (`Accounts.CreateKeepsInvariant`) and
  `save` receives only stored accounts that differ only in balance, so
  these differences do not show there. The counter kept across runs is
  outside the model, which starts from a fresh store.
* The menu and prompt loop, the process wiring and the printed messages
  (banking.py:266-412). These are console I/O. `Accounts.Run` models only
  the order of the core calls.
* The randomness of `generate_pin_code` (banking.py:5-6). The draw is a
  parameter in 1..9999.
* `MajorIndustryIdentifier` and `major_industry_identifier`
  (banking.py:9-26, 49-50). Nothing in the ledger uses them, and they cannot
  run as written. `400000 // 10000` is 40, which fails the assertion at
  line 22. `industries[self.code]` is off by one, so code 9 raises
  `IndexError`.
* `int()` accepts more than ASCII digits: other Unicode decimal digits, and
  surrounding whitespace, signs and underscores on longer slices. The model
  treats only `'0'..'9'` as digits.
* `CreditCard(str)` and `login` on strings that are not 16 digits. Python
  slices [0:6], [6:15] and [-1] of whatever is there and raises only when a
  slice is empty or not a number. So "4000002" and "400000000000002" both
  parse to account 2, and `login` opens that account when the PIN matches.
  The model requires 16 digits.
* Concurrency and crash atomicity of `save`. The program is single-threaded,
  and the dictionary store applies both writes in one step.
* Behaviours the code does not have; the model follows the code as
  written:
  * no rejection of negative deposit or transfer amounts;
  * no duplicate-key check in `create_account` (the dictionary silently
    overwrites; in valid states the key is always fresh);
  * no special case for self-transfer;
  * a parse error at login raises instead of logging out.
* Accounts.CreateKeepsInvariant: the fresh-key and total clauses are stated
  only for valid states. Without the invariant the counter may already name
  a stored account, and then the code overwrites that account.

## Findings

| source | as written | input that shows it | evidently intended | confidence | as-written member | corrected member |
|---|---|---|---|---|---|---|
| banking.py:249-255 | with the SQLite store (active at line 352) `read` returns a new copy, so a self-transfer debits the session copy, credits a second copy that still holds the old balance, and `save` writes the credited copy last; the session copy keeps the debit, so it and the store differ by twice the amount until the next save or login, and the next deposit saves the stale copy | session account 1 with balance 100 calls `do_transfer` with its own card and amount 30 | the balance stays 100, as with the dictionary store, where both changes hit one object | high; not executed | CopiedAccounts.SelfTransferWithCopiesCreatesMoney | Accounts.DoTransfer |
