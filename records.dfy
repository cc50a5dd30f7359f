/** The records kept in `users.json` and `accounts.json`, the claims a
    session token carries, and the `find` lookups the handlers run on them. */
module Records {
  import opened Wrappers
  import opened Search

  /** A registered user; the password is stored as given. */
  datatype User = User(id: string, username: string, email: string, password: string)

  /** An account; `transferPassword` is None while the JSON record has no
      `transfer_password` field. Balances are integer cents. */
  datatype Account = Account(
    id: string,
    userId: string,
    accountNumber: string,
    balance: int,
    transferPassword: Option<string>)

  /** The payload of a session token (`req.user` after authentication). */
  datatype Claims = Claims(id: string, username: string, email: string)

  /** JavaScript truthiness of an optional string field: present and non-empty. */
  predicate Present(f: Option<string>) {
    f.Some? && f.value != ""
  }

  /** The guard `account.transfer_password` of the handlers. */
  predicate HasTransferPassword(a: Account) {
    Present(a.transferPassword)
  }

  /** `accounts.find(acc => acc.accountNumber === n)`. */
  function FindByNumber(accounts: seq<Account>, n: string): (r: Option<nat>)
    ensures r.Some? ==> r.value < |accounts| && accounts[r.value].accountNumber == n
    ensures r.Some? ==> forall k :: 0 <= k < r.value ==> accounts[k].accountNumber != n
    ensures r.None? ==> forall k :: 0 <= k < |accounts| ==> accounts[k].accountNumber != n
  {
    FirstIndex(accounts, (a: Account) => a.accountNumber == n)
  }

  /** `accounts.find(acc => acc.id === id)`. */
  function FindById(accounts: seq<Account>, id: string): (r: Option<nat>)
    ensures r.Some? ==> r.value < |accounts| && accounts[r.value].id == id
    ensures r.Some? ==> forall k :: 0 <= k < r.value ==> accounts[k].id != id
    ensures r.None? ==> forall k :: 0 <= k < |accounts| ==> accounts[k].id != id
  {
    FirstIndex(accounts, (a: Account) => a.id == id)
  }

  /** `accounts.find(acc => acc.userId === userId)`. */
  function FindByOwner(accounts: seq<Account>, userId: string): (r: Option<nat>)
    ensures r.Some? ==> r.value < |accounts| && accounts[r.value].userId == userId
    ensures r.Some? ==> forall k :: 0 <= k < r.value ==> accounts[k].userId != userId
    ensures r.None? ==> forall k :: 0 <= k < |accounts| ==> accounts[k].userId != userId
  {
    FirstIndex(accounts, (a: Account) => a.userId == userId)
  }

  /** The first record carrying the number `n` is the one the lookup finds. */
  lemma FindByNumberIs(accounts: seq<Account>, i: nat, n: string)
    requires i < |accounts| && accounts[i].accountNumber == n
    requires forall k :: 0 <= k < i ==> accounts[k].accountNumber != n
    ensures FindByNumber(accounts, n) == Some(i)
  {
    FirstIndexIs(accounts, (a: Account) => a.accountNumber == n, i);
  }

  /** Changing a record without changing its account number leaves every
      lookup by that number where it was. */
  lemma FindByNumberUpdate(accounts: seq<Account>, n: string, j: nat, v: Account)
    requires j < |accounts| && v.accountNumber == accounts[j].accountNumber
    ensures FindByNumber(accounts[j := v], n) == FindByNumber(accounts, n)
  {
    FirstIndexUpdate(accounts, (a: Account) => a.accountNumber == n, j, v);
  }
}
