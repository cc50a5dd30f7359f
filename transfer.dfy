/** The transfer engine of `POST /accounts/transfer`: an ordered chain of
    gates decides whether the request may move funds, then one account is
    debited and another credited. */
module Transfers {
  import opened Wrappers
  import opened Records

  /** The request body; `amount` is None when it is not a number or is NaN. */
  datatype TransferRequest = TransferRequest(
    fromAccountNumber: Option<string>,
    toAccountNumber: Option<string>,
    transferPassword: Option<string>,
    amount: Option<int>)

  datatype TransferError =
    | InvalidInput        // 400 "Dados inválidos"
    | AccountNotFound     // 404
    | SameAccount         // 400
    | PasswordNotSet      // 401, code P404
    | WrongPassword       // 401, code P401
    | NonPositiveAmount   // 400
    | InsufficientFunds   // 400 "Saldo insuficiente"
    | NotOwner            // 403, only in the ownership-checking variant
  {
    function Status(): nat {
      match this
      case AccountNotFound => 404
      case PasswordNotSet => 401
      case WrongPassword => 401
      case NotOwner => 403
      case _ => 400
    }

    function Code(): Option<string> {
      match this
      case PasswordNotSet => Some("P404")
      case WrongPassword => Some("P401")
      case _ => None
    }
  }

  /** The records a passing transfer touches (their positions in the store)
      and the amount it moves. */
  datatype Plan = Plan(from: nat, to: nat, amount: int)

  /** Gate 1: both account numbers and the password present, amount a number. */
  predicate WellFormed(req: TransferRequest) {
    && Present(req.fromAccountNumber)
    && Present(req.toAccountNumber)
    && req.amount.Some?
    && Present(req.transferPassword)
  }

  /** Each text field refuses the request when it is missing and when it is
      empty, and so does an amount that is not a number; any number, zero
      or below included, passes this gate. */
  lemma WellFormedCases(req: TransferRequest)
    ensures req.fromAccountNumber in {None, Some("")} ==> !WellFormed(req)
    ensures req.toAccountNumber in {None, Some("")} ==> !WellFormed(req)
    ensures req.transferPassword in {None, Some("")} ==> !WellFormed(req)
    ensures req.amount.None? ==> !WellFormed(req)
    ensures (&& req.fromAccountNumber !in {None, Some("")}
             && req.toAccountNumber !in {None, Some("")}
             && req.transferPassword !in {None, Some("")}
             && req.amount.Some?) ==> WellFormed(req)
  {
  }

  /** Some account carries the number `n`. */
  ghost predicate Resolves(accounts: seq<Account>, n: string) {
    exists k :: 0 <= k < |accounts| && accounts[k].accountNumber == n
  }

  /** `i` is the first account carrying the number `n`, the one `find` returns. */
  ghost predicate FirstWithNumber(accounts: seq<Account>, i: nat, n: string) {
    && i < |accounts|
    && accounts[i].accountNumber == n
    && forall k :: 0 <= k < i ==> accounts[k].accountNumber != n
  }

  /** The plan `p` is what a transfer request may do: it names the accounts
      the request's numbers resolve to, they are different accounts, the
      supplied password is the source's stored one, and the amount is
      positive and covered by the source's balance. Nothing here mentions
      the caller: the source account need not be the caller's. */
  ghost predicate Authorizes(accounts: seq<Account>, req: TransferRequest, p: Plan) {
    && WellFormed(req)
    && FirstWithNumber(accounts, p.from, req.fromAccountNumber.value)
    && FirstWithNumber(accounts, p.to, req.toAccountNumber.value)
    && accounts[p.from].id != accounts[p.to].id
    && accounts[p.from].transferPassword == req.transferPassword
    && p.amount == req.amount.value
    && 0 < p.amount <= accounts[p.from].balance
  }

  /** The gate chain, in the handler's order; the first failing gate decides
      the error. */
  function CheckTransfer(accounts: seq<Account>, req: TransferRequest): (r: Result<Plan, TransferError>)
    ensures r.Ok? ==> Authorizes(accounts, req, r.value)
    ensures r.Ok? ==> r.value.from != r.value.to
    ensures r == Err(InvalidInput) <==> !WellFormed(req)
    ensures r == Err(AccountNotFound) <==>
              WellFormed(req) &&
              !(Resolves(accounts, req.fromAccountNumber.value) && Resolves(accounts, req.toAccountNumber.value))
  {
    if !WellFormed(req) then Err(InvalidInput)
    else
      var from := FindByNumber(accounts, req.fromAccountNumber.value);
      var to := FindByNumber(accounts, req.toAccountNumber.value);
      if from.None? || to.None? then Err(AccountNotFound)
      else
        var source, target := accounts[from.value], accounts[to.value];
        if source.id == target.id then Err(SameAccount)
        else if !HasTransferPassword(source) then Err(PasswordNotSet)
        else if source.transferPassword.value != req.transferPassword.value then Err(WrongPassword)
        else if req.amount.value <= 0 then Err(NonPositiveAmount)
        else if source.balance < req.amount.value then Err(InsufficientFunds)
        else Ok(Plan(from.value, to.value, req.amount.value))
  }

  /** Every authorized plan is the one the gates let through: together with
      the first postcondition of CheckTransfer, a request passes exactly
      when some plan authorizes it. */
  lemma CheckTransferComplete(accounts: seq<Account>, req: TransferRequest, p: Plan)
    requires Authorizes(accounts, req, p)
    ensures CheckTransfer(accounts, req) == Ok(p)
  {
    FindByNumberIs(accounts, p.from, req.fromAccountNumber.value);
    FindByNumberIs(accounts, p.to, req.toAccountNumber.value);
  }

  /** Gate order, past the existence gate: the same-account gate ignores
      password and amount, the password gates ignore the amount, and the
      amount gate ignores the balance. */
  lemma GateOrder(accounts: seq<Account>, req: TransferRequest)
    requires WellFormed(req)
    requires FindByNumber(accounts, req.fromAccountNumber.value).Some?
    requires FindByNumber(accounts, req.toAccountNumber.value).Some?
    ensures var source := accounts[FindByNumber(accounts, req.fromAccountNumber.value).value];
            var target := accounts[FindByNumber(accounts, req.toAccountNumber.value).value];
            var r := CheckTransfer(accounts, req);
            && (source.id == target.id ==> r == Err(SameAccount))
            && (source.id != target.id && !HasTransferPassword(source) ==> r == Err(PasswordNotSet))
            && ((source.id != target.id && HasTransferPassword(source) &&
                 source.transferPassword != req.transferPassword) ==> r == Err(WrongPassword))
            && ((source.id != target.id && source.transferPassword == req.transferPassword &&
                 req.amount.value <= 0) ==> r == Err(NonPositiveAmount))
            && ((source.id != target.id && source.transferPassword == req.transferPassword &&
                 0 < req.amount.value) ==> (r == Err(InsufficientFunds) <==> source.balance < req.amount.value))
  {
  }

  /** A wrong password is reported as P401 even when the amount is zero. */
  lemma WrongPasswordBeforeAmount(accounts: seq<Account>, req: TransferRequest)
    requires WellFormed(req) && req.amount == Some(0)
    requires FindByNumber(accounts, req.fromAccountNumber.value).Some?
    requires FindByNumber(accounts, req.toAccountNumber.value).Some?
    requires var source := accounts[FindByNumber(accounts, req.fromAccountNumber.value).value];
             var target := accounts[FindByNumber(accounts, req.toAccountNumber.value).value];
             source.id != target.id && HasTransferPassword(source) &&
             source.transferPassword != req.transferPassword
    ensures CheckTransfer(accounts, req) == Err(WrongPassword)
    ensures CheckTransfer(accounts, req).error.Code() == Some("P401")
  {
  }

  /** Naming one existing account on both sides is refused as the same
      account, whatever the password and the balance. */
  lemma SameNumberRejected(accounts: seq<Account>, req: TransferRequest)
    requires WellFormed(req) && req.fromAccountNumber == req.toAccountNumber
    requires Resolves(accounts, req.fromAccountNumber.value)
    ensures CheckTransfer(accounts, req) == Err(SameAccount)
  {
    var i :| 0 <= i < |accounts| && accounts[i].accountNumber == req.fromAccountNumber.value;
    assert FindByNumber(accounts, req.fromAccountNumber.value).Some?;
  }

  /** A record that shares an account number with an earlier one can never
      be the source or the destination of a transfer. */
  lemma ShadowedAccountUnreachable(accounts: seq<Account>, req: TransferRequest, j: nat, k: nat)
    requires j < k < |accounts| && accounts[j].accountNumber == accounts[k].accountNumber
    ensures CheckTransfer(accounts, req).Ok? ==>
              CheckTransfer(accounts, req).value.from != k && CheckTransfer(accounts, req).value.to != k
  {
  }

  /** Sum of all balances. */
  function Total(accounts: seq<Account>): int {
    if |accounts| == 0 then 0 else accounts[0].balance + Total(accounts[1..])
  }

  /** Replacing one record changes the total by the change of its balance. */
  lemma {:induction false} TotalUpdate(accounts: seq<Account>, i: nat, v: Account)
    requires i < |accounts|
    ensures Total(accounts[i := v]) == Total(accounts) - accounts[i].balance + v.balance
  {
    if i == 0 {
      assert accounts[i := v][1..] == accounts[1..];
    } else {
      assert accounts[i := v][1..] == accounts[1..][i - 1 := v];
      TotalUpdate(accounts[1..], i - 1, v);
    }
  }

  /** The write of a passing transfer: the source's balance falls by the
      amount, the destination's rises by it, and no other record and no
      other field changes. Funds are conserved: the sum of all balances (and
      so the sum of the two touched balances) is what it was. */
  function Settle(accounts: seq<Account>, p: Plan): (r: seq<Account>)
    requires p.from < |accounts| && p.to < |accounts| && p.from != p.to
    ensures |r| == |accounts|
    ensures r[p.from] == accounts[p.from].(balance := accounts[p.from].balance - p.amount)
    ensures r[p.to] == accounts[p.to].(balance := accounts[p.to].balance + p.amount)
    ensures forall k :: 0 <= k < |r| && k != p.from && k != p.to ==> r[k] == accounts[k]
    ensures Total(r) == Total(accounts)
  {
    var source := accounts[p.from].(balance := accounts[p.from].balance - p.amount);
    var debited := accounts[p.from := source];
    var target := debited[p.to].(balance := debited[p.to].balance + p.amount);
    TotalUpdate(accounts, p.from, source);
    TotalUpdate(debited, p.to, target);
    debited[p.to := target]
  }

  /** Every balance is non-negative. */
  predicate NonNegative(accounts: seq<Account>) {
    forall k :: 0 <= k < |accounts| ==> accounts[k].balance >= 0
  }

  /** Because the insufficient-funds gate runs before the write, a passing
      transfer keeps every balance non-negative. */
  lemma TransferKeepsNonNegative(accounts: seq<Account>, req: TransferRequest)
    requires NonNegative(accounts) && CheckTransfer(accounts, req).Ok?
    ensures NonNegative(Settle(accounts, CheckTransfer(accounts, req).value))
  {
  }

  /** As written, the caller plays no part in a transfer. Here the caller
      "user2" owns only the destination, yet moves 50.00 out of the account
      of "user1" by knowing its transfer password. */
  lemma ForeignSourceTransfers()
    ensures var accounts := [Account("acc1", "user1", "11111-1", 10000, Some("1234")),
                             Account("acc2", "user2", "22222-2", 0, None)];
            var req := TransferRequest(Some("11111-1"), Some("22222-2"), Some("1234"), Some(5000));
            && accounts[0].userId != "user2"
            && CheckTransfer(accounts, req) == Ok(Plan(0, 1, 5000))
  {
    var accounts := [Account("acc1", "user1", "11111-1", 10000, Some("1234")),
                     Account("acc2", "user2", "22222-2", 0, None)];
    FindByNumberIs(accounts, 0, "11111-1");
    FindByNumberIs(accounts, 1, "22222-2");
  }

  /** The transfer gates with the ownership check the other account
      handlers make: once both accounts resolve, a source account that is
      not the caller's is refused (403) before any later gate runs. */
  function CheckTransferOwned(accounts: seq<Account>, caller: Claims, req: TransferRequest)
    : (r: Result<Plan, TransferError>)
    ensures r.Ok? ==> Authorizes(accounts, req, r.value) && accounts[r.value.from].userId == caller.id
    ensures r.Ok? ==> CheckTransfer(accounts, req) == r
    ensures r == Err(NotOwner) <==>
              && WellFormed(req)
              && FindByNumber(accounts, req.fromAccountNumber.value).Some?
              && FindByNumber(accounts, req.toAccountNumber.value).Some?
              && accounts[FindByNumber(accounts, req.fromAccountNumber.value).value].userId != caller.id
    ensures r != Err(NotOwner) ==> r == CheckTransfer(accounts, req)
    ensures CheckTransfer(accounts, req).Ok? &&
            accounts[CheckTransfer(accounts, req).value.from].userId == caller.id
            ==> r == CheckTransfer(accounts, req)
  {
    if !WellFormed(req) then Err(InvalidInput)
    else
      var from := FindByNumber(accounts, req.fromAccountNumber.value);
      var to := FindByNumber(accounts, req.toAccountNumber.value);
      if from.None? || to.None? then Err(AccountNotFound)
      else if accounts[from.value].userId != caller.id then Err(NotOwner)
      else CheckTransfer(accounts, req)
  }

  /** With the ownership check the request of ForeignSourceTransfers is refused. */
  lemma ForeignSourceRefused()
    ensures var accounts := [Account("acc1", "user1", "11111-1", 10000, Some("1234")),
                             Account("acc2", "user2", "22222-2", 0, None)];
            var req := TransferRequest(Some("11111-1"), Some("22222-2"), Some("1234"), Some(5000));
            CheckTransferOwned(accounts, Claims("user2", "bob", "bob@x.com"), req) == Err(NotOwner)
  {
    var accounts := [Account("acc1", "user1", "11111-1", 10000, Some("1234")),
                     Account("acc2", "user2", "22222-2", 0, None)];
    FindByNumberIs(accounts, 0, "11111-1");
    FindByNumberIs(accounts, 1, "22222-2");
  }
}
