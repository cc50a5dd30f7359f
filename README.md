# Verified model of the finance_server ledger

This project models the ledger engine inside the route handlers of
`server.js`, an Express service. Users register and log in. An account is
created for each user. Users read balances, manage a per-account *transfer
password* (a numeric PIN separate from the login password), and move funds
between accounts with that password. Every protected route runs the
`authenticateToken` middleware first. The middleware consults a
process-wide list of revoked tokens (`invalidTokens`), and `/logout`
appends to that list.

The HTTP and file plumbing are removed. What remains runs on an in-memory
store:

- `Ledger.Server` is a class with three fields: `users` (the records of
  `users.json`), `accounts` (the records of `accounts.json`) and
  `invalidTokens`. Its methods are the handlers that change state:
  transfer, change transfer password, register and logout. Each method
  states the whole new state and what it answers.
- The gate chains and the `find` lookups are pure functions over those
  sequences (modules `Transfers`, `TransferPasswords`, `Queries`,
  `Registration`, `Auth`, `Records`, `Search`). So are the read-only
  handlers: balance, account by user id, set and verify transfer password,
  and login.
- `accounts.find(...)` is `Search.FirstIndex`. It returns the position of
  the first match, and that position stands for the object reference the
  handler then updates in place.
- A JSON body field is an `Option<string>`, where `None` means the field is
  missing. JavaScript's `!field` is `!Present(field)`, meaning missing or
  `""`. A stored `transfer_password` is an `Option<string>` as well.
- Balances and amounts are integer cents. `amount` is `None` when it is not
  a number or is `NaN`.
- `jwt.verify` is an oracle parameter `verify: string -> Option<Claims>`.
  Handlers that issue a token return the claims it would be signed over.
- The two `Math.random` draws of an account number are parameters
  `high < 90000` and `low < 9`.

The model follows the code as written, also where a handler's messages or
route name promise something else. `set_transfer_password` reports success
but stores nothing. A password
never reaches the store through it (`TransferPasswords.SetDoesNotStore`).
`verify_transfer_password` never compares the supplied password. A
transfer never checks that the source account belongs to the caller. Two
other differences: a change with no password yet answers 400, not 401, and
a non-positive amount is reported as non-positive only after every earlier
gate has passed, so a wrong password with amount 0 answers P401.
`GET /accounts/:userId` makes no ownership check and answers with the whole
record: account number, balance and stored `transfer_password`. Together
with the missing ownership check on transfers, any authenticated caller can
read another user's number and password and then move that user's funds
(`Queries.LookupExposesTransferCredentials`, `Transfers.ForeignSourceTransfers`).
Because set stores nothing and change needs a stored password, an account
created by registration never gets a transfer password
(`Registration.NewAccount`, `TransferPasswords.SetDoesNotStore`). While it
is the first record with its number, a transfer out of it is refused at the
latest with P404 (`TransferPasswords.PasswordlessAccountIsFrozen`). When its
number repeats an earlier one, no transfer can reach it at all. Account numbers are not unique. A
record whose number repeats an earlier one can never be reached by a
transfer (`Transfers.ShadowedAccountUnreachable`). The intended behaviour
of the first three is stated beside the as-written models (see Findings).
`Ledger.Server` itself runs the code as written.

Error responses are datatypes whose `Status()` gives the HTTP status the
handler sends. `Code()` gives the `P401`/`P404` codes. A revoked token
answers 401, and a token that fails `jwt.verify` answers 403. An authenticated
request gets no answer from the middleware; its `Status()` is 0.

## Model

| member | source | states |
|---|---|---|
| Search.FirstIndex | server.js:173-174 | `find`: the result is the first index whose element satisfies the predicate, or None when no element does |
| Records.FindByNumber | server.js:77 | lookup by account number: first record carrying the number; None iff no record does |
| Records.FindById | server.js:228 | lookup by account id: first record with the id; None iff none has it |
| Records.FindByOwner | server.js:28 | lookup by owner: first record whose userId matches; None iff none does |
| Numerals.PrefixedDecimalInjective | server.js:267 | identifiers `prefix${n}` built from distinct numbers are distinct |
| Auth.SecondField | server.js:48 | `split(" ")[1]`: None iff the header has no space; otherwise the result is the text after the first space up to the next space or the end, and contains no space |
| Auth.TokenOf | server.js:47-48 | no token iff the header is missing, empty or has no space; otherwise the second space-separated field |
| Auth.TokenOfBearer | server.js:47-48 | a header `scheme token` (no spaces inside either) yields exactly `token` |
| Auth.Authenticate | server.js:46-61 | missing token iff no truthy token; revoked iff the token is on the list, whatever the signature oracle says; accepted iff not revoked and the oracle verifies it, with the oracle's claims |
| Auth.RevokedStaysRevoked | server.js:51-53 | a token on the list stays refused when the list grows, for every signature oracle |
| Auth.LogoutRevokes | server.js:345-348 | after its token is appended, an accepted request's token is refused on every later request |
| Transfers.WellFormedCases | server.js:166-168 | each of the three text fields fails the gate when missing and when empty, as does an amount that is not a number; with all three present and any number, negative included, the gate passes |
| Transfers.CheckTransfer | server.js:166-199 | a passing request authorizes its plan: first-match accounts for both numbers, different ids, supplied password equals the stored one, 0 < amount <= source balance; invalid input iff gate 1 fails; not found iff gate 1 passes and a number resolves to no account |
| Transfers.CheckTransferComplete | server.js:166-199 | every plan that satisfies the gates' conditions is the one returned: the request passes exactly when it is authorized |
| Transfers.GateOrder | server.js:180-199 | past the existence gate the first failing gate decides the error: same account regardless of password and amount, P404 and P401 regardless of amount, non-positive regardless of balance, insufficient funds iff balance < amount |
| Transfers.WrongPasswordBeforeAmount | server.js:189-195 | a wrong password with amount 0 answers P401 |
| Transfers.SameNumberRejected | server.js:180-182 | the same existing number on both sides answers same-account whatever the password and balance |
| Transfers.ShadowedAccountUnreachable | server.js:173-174 | a record whose account number repeats an earlier one is never source or destination of a passing transfer |
| Transfers.Settle | server.js:202-203 | the write: source balance down by the amount, destination up by it, no other record or field changes, and the sum of all balances is conserved |
| Transfers.TransferKeepsNonNegative | server.js:197-203 | a passing transfer keeps every balance non-negative |
| Transfers.ForeignSourceTransfers | server.js:173-199 | a caller who does not own the source account moves its funds with the right transfer password |
| Transfers.CheckTransferOwned | server.js:173-199 | with an ownership gate after the lookup: 403 exactly when the input is well formed, both numbers resolve and the source is not the caller's; in every other case the verdict is the as-written one |
| Transfers.ForeignSourceRefused | server.js:173-199 | with the ownership gate the request of ForeignSourceTransfers is refused (403) |
| TransferPasswords.PinFormat | server.js:68 | `^\d{4,}$`, the test of set and, at line 95, of change: four or more digits and nothing else; shorter, non-digit, or padded with a newline or space is refused |
| TransferPasswords.OwnedAccount | server.js:77-81 | 404 iff no account has the number, 403 iff the first that has it is not the caller's, otherwise that account |
| TransferPasswords.WithTransferPassword | server.js:125 | only the chosen record's transfer password changes |
| TransferPasswords.SetTransferPassword | server.js:68-83 | invalid input iff a field is missing or the password fails `^\d{4,}$`; past the format gate the 404/403 of the account lookup is the answer; success iff the format holds and the caller owns the account; no new store is produced |
| TransferPasswords.SetDoesNotStore | server.js:74-83 | after a successful set, a transfer with that password still answers P404 and verification answers P404 |
| TransferPasswords.SetTransferPasswordIntended | server.js:63-83 | the same error, case by case, as the as-written handler; on success the found account holds the new password and nothing else changes |
| TransferPasswords.CheckChange | server.js:95-122 | invalid input iff a field is missing or the new password fails the format; then, in order, the 404/403 of the lookup, 400 when no password is stored, 401 when the stored one differs from the old one, 401 when old and new are equal; success iff the caller owns the account, the stored password equals the old one and differs from the new one |
| TransferPasswords.ChangeToSameRefused | server.js:116-122 | a change whose new password equals the old one is always refused |
| TransferPasswords.ChangeRetiresOldPassword | server.js:125 | after a change, a transfer from that account with the old password never passes |
| TransferPasswords.ChangeEnablesNewPassword | server.js:125 | after a change, a transfer from that account with the new password passes both password gates |
| TransferPasswords.VerifyTransferPassword | server.js:138-154 | success iff the account exists, is the caller's and has a password; a missing number is not found; for a given number the 404/403 of the lookup comes first, then P404 (401) when no password is stored |
| TransferPasswords.VerifyIgnoresPassword | server.js:138-154 | the verdict is the same for every supplied password |
| TransferPasswords.VerifyAcceptsWrongPassword | server.js:143-154 | a wrong password against a stored one is reported valid |
| TransferPasswords.PasswordlessAccountIsFrozen | server.js:105-113 | for an account that is the first with its number and has no transfer password: a change naming it answers 400 (invalid input or no password yet) or 403, never reaching the old-password check; a transfer out of it (lines 166-187) answers invalid input, not found, same account or P404; its verification (lines 143-152) answers 403 or P404 |
| TransferPasswords.PasswordlessStoreIsFrozen | server.js:105-113 | in a store where no account has a transfer password, every change is refused, and so is every transfer (lines 166-187) and every verification (lines 143-152) |
| TransferPasswords.VerifyTransferPasswordIntended | server.js:143-154 | success iff the as-written checks pass and the supplied password equals the stored one |
| TransferPasswords.SetThenVerifyIntended | server.js:63-83 | with the intended handlers, set then verify succeeds exactly for the password set, and any other answers a mismatch |
| TransferPasswords.ChangeThenVerifyIntended | server.js:120-125 | with the comparing verify, after a change the old password is a mismatch and the new one verifies |
| Queries.Balance | server.js:228-240 | not found iff no account has the id; success iff the first such account is the caller's, answering exactly its stored balance |
| Queries.BalanceOnlyToOwner | server.js:234-240 | a reported balance is that of an account with the id owned by the caller |
| Queries.AccountByUserId | server.js:21-34 | the first account owned by the user id, with no ownership check; not found iff the user owns none |
| Queries.LookupExposesTransferCredentials | server.js:28-34 | any caller's lookup of another user's id answers that user's first account record whole, transfer password included |
| Registration.IdsReadBack | server.js:266-281 | `user${n}` and `acc${n}` are the prefix followed by digits that read back as n |
| Registration.IdsInjective | server.js:266-281 | different counters give different user ids and different account ids |
| Registration.NewUser | server.js:265-270 | the new user's id is `user${users.length + 1}` (`UserId(|users| + 1)`), distinct from that of every record named after its own position; it carries the given username, email and password |
| Registration.NewAccount | server.js:280-285 | the new account's id is `acc${accounts.length + 1}`, distinct from that of every record named after its own position; it has the new user's id, the drawn number, balance 0 and no transfer password |
| Registration.ClaimsOf | server.js:291-292 | the token payload is the user's id, username and email, at registration and at login (line 327) |
| Registration.AccountNumber | server.js:284 | five digits with a non-zero first digit that read as `high + 10000`, a dash, and the digit `low`, from 0 to 8 |
| Registration.CheckRegister | server.js:253-263 | missing fields iff a field is absent; success iff all are present and no user has the username or the email |
| Registration.Login | server.js:311-324 | missing credentials iff a field is absent; invalid credentials iff no user matches both username and password (one error for a wrong username or a wrong password); on success the claims of the first matching user, as `find` returns |
| Registration.LoginAfterRegister | server.js:266-273 | logging in right after registering yields the new user's claims |
| Registration.RegisterOnce | server.js:261-263 | a registered username or email is refused on any later registration |
| Ledger.ConsistentIdsDistinct | server.js:267 | in a store built by registration, no two users and no two accounts share an id |
| Ledger.OwnAccountFound | server.js:281-283 | in such a store the lookup by owner finds each user's own account |
| Ledger.RegisterKeepsConsistent | server.js:261-289 | registration preserves that store invariant (lockstep ids, ownership, unique usernames and emails, non-negative balances) |
| Ledger.Server.constructor | server.js:43 | the store starts with the loaded collections and an empty revocation list |
| Ledger.Server.Transfer | server.js:162-216 | a refused transfer leaves the accounts as they were; a passing one applies Settle and answers with both updated records; the total is conserved and the store invariant kept |
| Ledger.Server.ChangeTransferPassword | server.js:91-133 | the answer and new state follow CheckChange's gate order; a refused change leaves the accounts as they were; otherwise only the found account's password becomes the new one |
| Ledger.Server.Register | server.js:250-304 | a refused registration leaves both stores as they were; otherwise exactly one user and one zero-balance, password-less account owned by it are appended, the invariant is kept, and login with the same credentials yields the new user's claims |
| Ledger.Server.Logout | server.js:345-348 | the middleware decides; an accepted token is appended, the list only grows, and the same header is refused afterwards by every oracle |

## Findings

| source | as written | input that shows it | evidently intended | confidence | as-written member | corrected member |
|---|---|---|---|---|---|---|
| server.js:74-83 | the set handler checks format, existence and ownership, then answers success without assigning `transfer_password` or writing the file | owner of an account with no password sets `1234`: answer 200; a transfer with `1234` then answers P404 | the found account's transfer password becomes the supplied one and is persisted | high; not executed | TransferPasswords.SetDoesNotStore | TransferPasswords.SetTransferPasswordIntended |
| server.js:143-154 | the verify handler never compares the supplied password with the stored one | stored `1234`, supplied `9999`: answer 200 "Senha de transferência válida" | answer success only when the supplied password equals the stored one | high; not executed | TransferPasswords.VerifyAcceptsWrongPassword | TransferPasswords.VerifyTransferPasswordIntended |
| server.js:173-199 | the transfer handler never checks that the source account belongs to the caller | caller `user2` names `user1`'s account as source with its password: 50.00 moves | refuse (403) a source account that is not the caller's, as the other account handlers do | medium; not executed | Transfers.ForeignSourceTransfers | Transfers.CheckTransferOwned |

## Left out

- Express routing, body parsing, headers and response JSON are left out. Outcomes are datatypes whose `Status()` keeps the handler's HTTP status.
- The `try`/`catch` 500 paths are left out, as are the `console` logging and `app.listen`. The store handlers reach them when a file cannot be read or parsed, or when a parsed file lacks its `accounts` array, so that a `find` on it throws. `/register` and `/login` (server.js:250-342) have no `try`/`catch`, so the same failures there escape to Express. The model assumes the files are readable and well-shaped.
- File reads and writes are left out. Each handler works on the whole collections, which are replaced as whole values. Registration writes `users.json` before it reads and writes `accounts.json`. A failure between the two writes would leave a user without an account; that is not modelled.
- `jwt.sign`, `SECRET_KEY` and the one-hour expiry are left out. Signing is opaque. `jwt.verify` is the `verify` oracle, and "expired" is one of the ways it fails (403). The `iat`/`exp` claims are not represented.
- `Math.random` is replaced by the two draws, passed as parameters. No uniqueness of account numbers is assumed.
- Floating point is left out: `toFixed(2)`/`parseFloat` rounding, fractional amounts of cents, and `Infinity`. Amounts and balances are integer cents. In the source `Infinity` passes the number check and is then refused as insufficient funds.
- Body fields that are JSON values other than strings (numbers, objects) are left out. A field is a string or missing.
- `Numerals.Decimal` renders every natural in positional notation. JavaScript switches to exponent notation from 10^21, but identifiers never get that large.
- Concurrency is left out. The server is single-threaded and each handler runs to completion.
- The `/me` route is left out. It only echoes the claims.
