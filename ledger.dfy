/** The server's state as one store object: the two collections the
    handlers read from and write back to `users.json` and `accounts.json`,
    and the module-level `invalidTokens` list. The mutating handlers are its
    methods; the read-only ones are the functions of Queries,
    TransferPasswords and Registration applied to its fields. */
module Ledger {
  import opened Wrappers
  import opened Records
  import opened Numerals
  import opened Auth
  import opened Transfers
  import opened TransferPasswords
  import opened Registration

  /** What a store built only by registration from empty files satisfies:
      user k and account k were created together as `user{k+1}` and
      `acc{k+1}`, account k is owned by user k, usernames and emails are
      unique, and no balance is negative. */
  ghost predicate StoreConsistent(users: seq<User>, accounts: seq<Account>) {
    && |users| == |accounts|
    && (forall k :: 0 <= k < |users| ==>
          && users[k].id == UserId(k + 1)
          && accounts[k].id == AccountId(k + 1)
          && accounts[k].userId == users[k].id)
    && (forall j, k :: 0 <= j < k < |users| ==>
          users[j].username != users[k].username && users[j].email != users[k].email)
    && NonNegative(accounts)
  }

  /** In a consistent store no two users and no two accounts share an id. */
  lemma ConsistentIdsDistinct(users: seq<User>, accounts: seq<Account>, j: nat, k: nat)
    requires StoreConsistent(users, accounts) && j < k < |users|
    ensures users[j].id != users[k].id && accounts[j].id != accounts[k].id
  {
    IdsInjective(j + 1, k + 1);
  }

  /** In a consistent store the lookup by owner finds each user's own
      account, the one created with it. */
  lemma OwnAccountFound(users: seq<User>, accounts: seq<Account>, k: nat)
    requires StoreConsistent(users, accounts) && k < |users|
    ensures FindByOwner(accounts, users[k].id) == Some(k)
  {
    forall j | 0 <= j < k
      ensures accounts[j].userId != users[k].id
    {
      ConsistentIdsDistinct(users, accounts, j, k);
    }
    Search.FirstIndexIs(accounts, (a: Account) => a.userId == users[k].id, k);
  }

  /** Registration keeps the store consistent. */
  lemma RegisterKeepsConsistent(users: seq<User>, accounts: seq<Account>,
                                username: string, email: string, password: string, number: string)
    requires StoreConsistent(users, accounts)
    requires CheckRegister(users, Some(username), Some(email), Some(password)).Ok?
    ensures var u := NewUser(users, username, email, password);
            StoreConsistent(users + [u], accounts + [NewAccount(accounts, u.id, number)])
  {
  }

  class Server {
    var users: seq<User>
    var accounts: seq<Account>
    var invalidTokens: seq<string>

    ghost predicate Consistent()
      reads this
    {
      StoreConsistent(users, accounts)
    }

    /** The process starts with the collections on disk and an empty
        revocation list. */
    constructor (users: seq<User>, accounts: seq<Account>)
      ensures this.users == users && this.accounts == accounts && invalidTokens == []
    {
      this.users := users;
      this.accounts := accounts;
      invalidTokens := [];
    }

    /** `POST /accounts/transfer` for an authenticated caller, whom the
        handler never consults. A refused request leaves the store as it
        was; a passing one debits the source and credits the destination in
        place and answers with both updated records. */
    method Transfer(caller: Claims, req: TransferRequest) returns (r: Result<(Account, Account), TransferError>)
      modifies this`accounts
      ensures match CheckTransfer(old(accounts), req)
              case Err(e) => r == Err(e) && accounts == old(accounts)
              case Ok(p) => accounts == Settle(old(accounts), p) && r == Ok((accounts[p.from], accounts[p.to]))
      ensures Total(accounts) == Total(old(accounts))
      ensures old(Consistent()) ==> Consistent()
    {
      match CheckTransfer(accounts, req) {
        case Err(e) =>
          r := Err(e);
        case Ok(p) =>
          ghost var before := accounts;
          var source := accounts[p.from].(balance := accounts[p.from].balance - p.amount);
          accounts := accounts[p.from := source];
          var target := accounts[p.to].(balance := accounts[p.to].balance + p.amount);
          accounts := accounts[p.to := target];
          r := Ok((source, target));
          assert accounts == Settle(before, p);
          if NonNegative(before) {
            TransferKeepsNonNegative(before, req);
          }
      }
    }

    /** `POST /accounts/change_transfer_password`: a refused request leaves
        the store as it was; otherwise only the found account's transfer
        password changes, to the new one. */
    method ChangeTransferPassword(caller: Claims, req: ChangeRequest) returns (r: Result<(), PasswordError>)
      modifies this`accounts
      ensures match CheckChange(old(accounts), caller, req)
              case Err(e) => r == Err(e) && accounts == old(accounts)
              case Ok(i) => r == Ok(()) && accounts == WithTransferPassword(old(accounts), i, req.newPassword.value)
      ensures old(Consistent()) ==> Consistent()
    {
      match CheckChange(accounts, caller, req) {
        case Err(e) =>
          r := Err(e);
        case Ok(i) =>
          accounts := accounts[i := accounts[i].(transferPassword := Some(req.newPassword.value))];
          r := Ok(());
      }
    }

    /** `POST /register`, given the two random draws of the account number:
        a refused request leaves both stores as they were; otherwise exactly
        one user and one zero-balance account owned by it are appended, and
        the answer carries both and the claims the new token is signed over. */
    method Register(username: Option<string>, email: Option<string>, password: Option<string>,
                    high: nat, low: nat)
      returns (r: Result<(User, Account, Claims), RegisterError>)
      requires high < 90000 && low < 9
      modifies this`users, this`accounts
      ensures match CheckRegister(old(users), username, email, password)
              case Err(e) => r == Err(e) && users == old(users) && accounts == old(accounts)
              case Ok(_) =>
                var u := NewUser(old(users), username.value, email.value, password.value);
                var a := NewAccount(old(accounts), u.id, AccountNumber(high, low));
                && users == old(users) + [u]
                && accounts == old(accounts) + [a]
                && r == Ok((u, a, ClaimsOf(u)))
      ensures old(Consistent()) ==> Consistent()
      ensures r.Ok? ==> Login(users, username, password) == Ok(r.value.2)
    {
      match CheckRegister(users, username, email, password) {
        case Err(e) =>
          r := Err(e);
        case Ok(_) =>
          var u := NewUser(users, username.value, email.value, password.value);
          LoginAfterRegister(users, username.value, email.value, password.value);
          if Consistent() {
            RegisterKeepsConsistent(users, accounts, username.value, email.value, password.value,
                                    AccountNumber(high, low));
          }
          users := users + [u];
          var a := NewAccount(accounts, u.id, AccountNumber(high, low));
          accounts := accounts + [a];
          r := Ok((u, a, ClaimsOf(u)));
      }
    }

    /** `POST /logout`: the middleware runs first; a request it accepts has
        its token appended to the revocation list, which only grows. */
    method Logout(header: Option<string>, verify: string -> Option<Claims>) returns (r: AuthResult)
      modifies this`invalidTokens
      ensures r == Authenticate(header, old(invalidTokens), verify)
      ensures invalidTokens == if r.Authenticated? then old(invalidTokens) + [r.token] else old(invalidTokens)
      ensures old(invalidTokens) <= invalidTokens
      ensures r.Authenticated? ==> forall v :: Authenticate(header, invalidTokens, v) == RevokedToken
    {
      r := Authenticate(header, invalidTokens, verify);
      if r.Authenticated? {
        invalidTokens := invalidTokens + [r.token];
        forall v ensures Authenticate(header, invalidTokens, v) == RevokedToken {
          LogoutRevokes(header, old(invalidTokens), verify, header, v);
        }
      }
    }
  }
}
