/** The read-only account routes: `GET /accounts/:accountId/balance` and
    `GET /accounts/:userId`. */
module Queries {
  import opened Wrappers
  import opened Records

  datatype QueryError =
    | NotFound   // 404 "Conta não encontrada"
    | Forbidden  // 403 "Acesso negado a esta conta"
  {
    function Status(): nat {
      match this
      case NotFound => 404
      case Forbidden => 403
    }
  }

  /** The balance route: the first account with the given id, refused when
      it is not the caller's; the answer is exactly its stored balance. */
  function Balance(accounts: seq<Account>, caller: Claims, accountId: string): (r: Result<int, QueryError>)
    ensures r == Err(NotFound) <==> forall k :: 0 <= k < |accounts| ==> accounts[k].id != accountId
    ensures r.Ok? <==>
              FindById(accounts, accountId).Some? && accounts[FindById(accounts, accountId).value].userId == caller.id
    ensures r.Ok? ==> r.value == accounts[FindById(accounts, accountId).value].balance
  {
    match FindById(accounts, accountId)
    case None => Err(NotFound)
    case Some(i) =>
      if accounts[i].userId != caller.id then Err(Forbidden) else Ok(accounts[i].balance)
  }

  /** No balance is ever reported to a caller who does not own the account. */
  lemma BalanceOnlyToOwner(accounts: seq<Account>, caller: Claims, accountId: string)
    requires Balance(accounts, caller, accountId).Ok?
    ensures exists k :: 0 <= k < |accounts| && accounts[k].id == accountId &&
                        accounts[k].userId == caller.id &&
                        accounts[k].balance == Balance(accounts, caller, accountId).value
  {
    var k := FindById(accounts, accountId).value;
    assert accounts[k].id == accountId;
  }

  /** The lookup route: the first account whose owner is `userId`. It makes
      no ownership check, so any authenticated caller may read any user's
      account, balance included. */
  function AccountByUserId(accounts: seq<Account>, userId: string): (r: Result<Account, QueryError>)
    ensures r.Ok? ==> exists i :: 0 <= i < |accounts| && r.value == accounts[i] &&
                                  r.value.userId == userId &&
                                  forall k :: 0 <= k < i ==> accounts[k].userId != userId
    ensures r.Err? <==> forall k :: 0 <= k < |accounts| ==> accounts[k].userId != userId
    ensures r.Err? ==> r.error == NotFound
  {
    match FindByOwner(accounts, userId)
    case None => Err(NotFound)
    case Some(i) => Ok(accounts[i])
  }

  /** The lookup route answers with the whole record, so any authenticated
      caller learns another user's account number and stored transfer
      password, which is all a transfer out of that account asks for. */
  lemma LookupExposesTransferCredentials(accounts: seq<Account>, caller: Claims, k: nat)
    requires k < |accounts| && accounts[k].userId != caller.id
    requires forall j :: 0 <= j < k ==> accounts[j].userId != accounts[k].userId
    ensures AccountByUserId(accounts, accounts[k].userId) == Ok(accounts[k])
  {
    assert FindByOwner(accounts, accounts[k].userId) == Some(k) by {
      Search.FirstIndexIs(accounts, (a: Account) => a.userId == accounts[k].userId, k);
    }
  }
}
