/** The transfer-password handlers: `set_transfer_password`,
    `change_transfer_password` and `verify_transfer_password`. Each looks the
    account up by number and refuses an account that is not the caller's. */
module TransferPasswords {
  import opened Wrappers
  import opened Records
  import opened Numerals
  import Transfers

  /** `/^\d{4,}$/.test(s)`: four or more ASCII digits and nothing else. */
  predicate IsPin(s: string) {
    |s| >= 4 && forall i :: 0 <= i < |s| ==> IsDigit(s[i])
  }

  /** The pattern accepts four or more digits, leading zeros included, and
      refuses short strings, other characters, and a trailing newline (`$`
      without the `m` flag anchors at the very end). */
  lemma PinFormat()
    ensures IsPin("1234") && IsPin("0000") && IsPin("123456789")
    ensures !IsPin("") && !IsPin("123") && !IsPin("12a4") && !IsPin("1234\n") && !IsPin(" 1234")
  {
    assert "12a4"[2] == 'a';
    assert "1234\n"[4] == '\n';
    assert " 1234"[0] == ' ';
  }

  datatype PasswordError =
    | InvalidInput    // 400
    | AccountNotFound // 404
    | Forbidden       // 403 "Acesso negado a esta conta"
    | NoPasswordYet   // 400, change: "Ainda não existe senha ..."
    | PasswordNotSet  // 401, code P404, verify
    | IncorrectOld    // 401 "Senha atual incorreta."
    | SameAsOld       // 401
    | Mismatch        // 401, only in the comparing variant of verify
  {
    function Status(): nat {
      match this
      case InvalidInput => 400
      case AccountNotFound => 404
      case Forbidden => 403
      case NoPasswordYet => 400
      case _ => 401
    }

    function Code(): Option<string> {
      match this
      case PasswordNotSet => Some("P404")
      case _ => None
    }
  }

  datatype SetRequest = SetRequest(accountNumber: Option<string>, transferPassword: Option<string>)
  datatype ChangeRequest = ChangeRequest(
    accountNumber: Option<string>, oldPassword: Option<string>, newPassword: Option<string>)
  datatype VerifyRequest = VerifyRequest(accountNumber: Option<string>, transferPassword: Option<string>)

  /** The lookup by number followed by the ownership check: 404 when no
      account carries the number, 403 when the first one that does is not
      the caller's. */
  function OwnedAccount(accounts: seq<Account>, caller: Claims, n: string): (r: Result<nat, PasswordError>)
    ensures r.Ok? ==> FindByNumber(accounts, n) == Some(r.value) && accounts[r.value].userId == caller.id
    ensures r == Err(AccountNotFound) <==> forall k :: 0 <= k < |accounts| ==> accounts[k].accountNumber != n
    ensures r == Err(Forbidden) <==>
              FindByNumber(accounts, n).Some? && accounts[FindByNumber(accounts, n).value].userId != caller.id
    ensures r.Ok? || r == Err(AccountNotFound) || r == Err(Forbidden)
  {
    match FindByNumber(accounts, n)
    case None => Err(AccountNotFound)
    case Some(i) => if accounts[i].userId != caller.id then Err(Forbidden) else Ok(i)
  }

  /** The account store with record `i`'s transfer password replaced by `pw`
      and nothing else changed. */
  function WithTransferPassword(accounts: seq<Account>, i: nat, pw: string): (r: seq<Account>)
    requires i < |accounts|
    ensures |r| == |accounts|
    ensures r[i] == accounts[i].(transferPassword := Some(pw))
    ensures forall k :: 0 <= k < |r| && k != i ==> r[k] == accounts[k]
  {
    accounts[i := accounts[i].(transferPassword := Some(pw))]
  }

  // ---------------------------------------------------------------- set

  /** `set_transfer_password` as written: the format check, then the lookup
      and the ownership check, then success. No store is produced: the
      handler never assigns or writes the password. */
  function SetTransferPassword(accounts: seq<Account>, caller: Claims, req: SetRequest)
    : (r: Result<(), PasswordError>)
    ensures r == Err(InvalidInput) <==>
              !(Present(req.accountNumber) && Present(req.transferPassword) && IsPin(req.transferPassword.value))
    ensures r.Ok? <==>
              Present(req.accountNumber) && Present(req.transferPassword) && IsPin(req.transferPassword.value) &&
              OwnedAccount(accounts, caller, req.accountNumber.value).Ok?
    ensures Present(req.accountNumber) && Present(req.transferPassword) && IsPin(req.transferPassword.value) &&
            OwnedAccount(accounts, caller, req.accountNumber.value).Err? ==>
              r == Err(OwnedAccount(accounts, caller, req.accountNumber.value).error)
  {
    if !Present(req.accountNumber) || !Present(req.transferPassword) || !IsPin(req.transferPassword.value) then
      Err(InvalidInput)
    else match OwnedAccount(accounts, caller, req.accountNumber.value)
      case Err(e) => Err(e)
      case Ok(_) => Ok(())
  }

  /** The set handler reports success on an account with no password, and
      the account still has none: a transfer with the password just "set"
      is refused with P404, and so is verification. */
  lemma SetDoesNotStore()
    ensures var accounts := [Account("acc1", "user1", "11111-1", 10000, None),
                             Account("acc2", "user2", "22222-2", 0, None)];
            var alice := Claims("user1", "alice", "alice@x.com");
            && SetTransferPassword(accounts, alice, SetRequest(Some("11111-1"), Some("1234"))) == Ok(())
            && Transfers.CheckTransfer(accounts, Transfers.TransferRequest(
                 Some("11111-1"), Some("22222-2"), Some("1234"), Some(5000))) == Err(Transfers.PasswordNotSet)
            && VerifyTransferPassword(accounts, alice, VerifyRequest(Some("11111-1"), Some("1234")))
               == Err(PasswordNotSet)
  {
    var accounts := [Account("acc1", "user1", "11111-1", 10000, None),
                     Account("acc2", "user2", "22222-2", 0, None)];
    FindByNumberIs(accounts, 0, "11111-1");
    FindByNumberIs(accounts, 1, "22222-2");
  }

  /** `set_transfer_password` as its message says it behaves: after the same
      checks, the account found gets the new password. */
  function SetTransferPasswordIntended(accounts: seq<Account>, caller: Claims, req: SetRequest)
    : (r: Result<seq<Account>, PasswordError>)
    ensures r.Err? <==> SetTransferPassword(accounts, caller, req).Err?
    ensures r.Err? ==> r.error == SetTransferPassword(accounts, caller, req).error
    ensures r.Ok? ==>
              var i := FindByNumber(accounts, req.accountNumber.value).value;
              r.value == WithTransferPassword(accounts, i, req.transferPassword.value)
  {
    if !Present(req.accountNumber) || !Present(req.transferPassword) || !IsPin(req.transferPassword.value) then
      Err(InvalidInput)
    else match OwnedAccount(accounts, caller, req.accountNumber.value)
      case Err(e) => Err(e)
      case Ok(i) => Ok(WithTransferPassword(accounts, i, req.transferPassword.value))
  }

  // ------------------------------------------------------------- change

  /** The gates of `change_transfer_password`, in order: the format of the
      new password (and presence of the number and the old password), the
      lookup, ownership, an existing password, the old password matching,
      the new one differing. On success, the position of the record to
      update. */
  function CheckChange(accounts: seq<Account>, caller: Claims, req: ChangeRequest)
    : (r: Result<nat, PasswordError>)
    ensures r == Err(InvalidInput) <==>
              !(Present(req.accountNumber) && Present(req.oldPassword) &&
                Present(req.newPassword) && IsPin(req.newPassword.value))
    ensures r.Ok? <==>
              && Present(req.accountNumber) && Present(req.oldPassword)
              && Present(req.newPassword) && IsPin(req.newPassword.value)
              && OwnedAccount(accounts, caller, req.accountNumber.value).Ok?
              && var a := accounts[OwnedAccount(accounts, caller, req.accountNumber.value).value];
                 a.transferPassword == req.oldPassword && a.transferPassword != req.newPassword
    ensures r.Ok? ==> OwnedAccount(accounts, caller, req.accountNumber.value) == r
    ensures Present(req.accountNumber) && Present(req.oldPassword) &&
            Present(req.newPassword) && IsPin(req.newPassword.value) ==>
              var owned := OwnedAccount(accounts, caller, req.accountNumber.value);
              && (owned.Err? ==> r == Err(owned.error))
              && (owned.Ok? && !HasTransferPassword(accounts[owned.value]) ==> r == Err(NoPasswordYet))
              && ((owned.Ok? && HasTransferPassword(accounts[owned.value]) &&
                   accounts[owned.value].transferPassword != req.oldPassword) ==> r == Err(IncorrectOld))
              && ((owned.Ok? && accounts[owned.value].transferPassword == req.oldPassword &&
                   req.oldPassword == req.newPassword) ==> r == Err(SameAsOld))
  {
    if !Present(req.accountNumber) || !Present(req.oldPassword) || !Present(req.newPassword) ||
       !IsPin(req.newPassword.value) then
      Err(InvalidInput)
    else match OwnedAccount(accounts, caller, req.accountNumber.value)
      case Err(e) => Err(e)
      case Ok(i) =>
        var stored := accounts[i].transferPassword;
        if !Present(stored) then Err(NoPasswordYet)
        else if stored.value != req.oldPassword.value then Err(IncorrectOld)
        else if stored.value == req.newPassword.value then Err(SameAsOld)
        else Ok(i)
  }

  /** A change to the same password is always refused: either the old one
      does not match, or the new one equals the stored one. */
  lemma ChangeToSameRefused(accounts: seq<Account>, caller: Claims, req: ChangeRequest)
    requires req.oldPassword == req.newPassword
    ensures CheckChange(accounts, caller, req).Err?
  {
  }

  /** After a change the old password no longer moves funds out of the
      account: a transfer naming it with the old password never passes. */
  lemma ChangeRetiresOldPassword(accounts: seq<Account>, caller: Claims, req: ChangeRequest,
                                 transfer: Transfers.TransferRequest)
    requires CheckChange(accounts, caller, req).Ok?
    requires transfer.fromAccountNumber == req.accountNumber
    requires transfer.transferPassword == req.oldPassword
    ensures var updated := WithTransferPassword(accounts, CheckChange(accounts, caller, req).value,
                                                req.newPassword.value);
            Transfers.CheckTransfer(updated, transfer).Err?
  {
    var i := CheckChange(accounts, caller, req).value;
    var updated := WithTransferPassword(accounts, i, req.newPassword.value);
    FindByNumberUpdate(accounts, req.accountNumber.value, i, updated[i]);
    assert updated == accounts[i := updated[i]];
  }

  /** ... while the new password passes both password gates of a transfer
      from that account. */
  lemma ChangeEnablesNewPassword(accounts: seq<Account>, caller: Claims, req: ChangeRequest,
                                 transfer: Transfers.TransferRequest)
    requires CheckChange(accounts, caller, req).Ok?
    requires transfer.fromAccountNumber == req.accountNumber
    requires transfer.transferPassword == req.newPassword
    ensures var updated := WithTransferPassword(accounts, CheckChange(accounts, caller, req).value,
                                                req.newPassword.value);
            var r := Transfers.CheckTransfer(updated, transfer);
            r != Err(Transfers.PasswordNotSet) && r != Err(Transfers.WrongPassword)
  {
    var i := CheckChange(accounts, caller, req).value;
    var updated := WithTransferPassword(accounts, i, req.newPassword.value);
    FindByNumberUpdate(accounts, req.accountNumber.value, i, updated[i]);
    assert updated == accounts[i := updated[i]];
  }

  // ------------------------------------------------------------- verify

  /** `verify_transfer_password` as written: lookup, ownership, an existing
      password, then success. The supplied password is never read. A
      missing account number (`undefined`) matches no account. */
  function VerifyTransferPassword(accounts: seq<Account>, caller: Claims, req: VerifyRequest)
    : (r: Result<(), PasswordError>)
    ensures r.Ok? <==>
              && req.accountNumber.Some?
              && OwnedAccount(accounts, caller, req.accountNumber.value).Ok?
              && HasTransferPassword(accounts[OwnedAccount(accounts, caller, req.accountNumber.value).value])
    ensures req.accountNumber.None? ==> r == Err(AccountNotFound)
    ensures req.accountNumber.Some? && OwnedAccount(accounts, caller, req.accountNumber.value).Err? ==>
              r == Err(OwnedAccount(accounts, caller, req.accountNumber.value).error)
    ensures req.accountNumber.Some? && OwnedAccount(accounts, caller, req.accountNumber.value).Ok? &&
            !HasTransferPassword(accounts[OwnedAccount(accounts, caller, req.accountNumber.value).value]) ==>
              r == Err(PasswordNotSet) && r.error.Code() == Some("P404")
  {
    if req.accountNumber.None? then Err(AccountNotFound)
    else match OwnedAccount(accounts, caller, req.accountNumber.value)
      case Err(e) => Err(e)
      case Ok(i) => if !HasTransferPassword(accounts[i]) then Err(PasswordNotSet) else Ok(())
  }

  /** The verdict does not depend on the supplied password. */
  lemma VerifyIgnoresPassword(accounts: seq<Account>, caller: Claims, req: VerifyRequest, other: Option<string>)
    ensures VerifyTransferPassword(accounts, caller, req) ==
            VerifyTransferPassword(accounts, caller, req.(transferPassword := other))
  {
  }

  /** A wrong password is reported valid. */
  lemma VerifyAcceptsWrongPassword()
    ensures var accounts := [Account("acc1", "user1", "11111-1", 10000, Some("1234"))];
            VerifyTransferPassword(accounts, Claims("user1", "alice", "alice@x.com"),
                                   VerifyRequest(Some("11111-1"), Some("9999"))) == Ok(())
  {
    var accounts := [Account("acc1", "user1", "11111-1", 10000, Some("1234"))];
    FindByNumberIs(accounts, 0, "11111-1");
  }

  /** `verify_transfer_password` as its name says: after the same checks the
      supplied password must equal the stored one. */
  function VerifyTransferPasswordIntended(accounts: seq<Account>, caller: Claims, req: VerifyRequest)
    : (r: Result<(), PasswordError>)
    ensures r.Ok? <==>
              VerifyTransferPassword(accounts, caller, req).Ok? &&
              accounts[FindByNumber(accounts, req.accountNumber.value).value].transferPassword == req.transferPassword
  {
    match VerifyTransferPassword(accounts, caller, req)
    case Err(e) => Err(e)
    case Ok(_) =>
      var i := FindByNumber(accounts, req.accountNumber.value).value;
      if accounts[i].transferPassword != req.transferPassword then Err(Mismatch) else Ok(())
  }

  /** With the intended handlers, setting a password and then verifying
      succeeds for that password and fails for every other one. */
  lemma SetThenVerifyIntended(accounts: seq<Account>, caller: Claims, req: SetRequest, attempt: Option<string>)
    requires SetTransferPasswordIntended(accounts, caller, req).Ok?
    ensures var updated := SetTransferPasswordIntended(accounts, caller, req).value;
            var r := VerifyTransferPasswordIntended(updated, caller, VerifyRequest(req.accountNumber, attempt));
            (r.Ok? <==> attempt == req.transferPassword) && (r.Err? ==> r.error == Mismatch)
  {
    var i := FindByNumber(accounts, req.accountNumber.value).value;
    var updated := SetTransferPasswordIntended(accounts, caller, req).value;
    assert updated == accounts[i := updated[i]];
    FindByNumberUpdate(accounts, req.accountNumber.value, i, updated[i]);
  }

  /** With the comparing verify, the old password no longer verifies after a change. */
  lemma ChangeThenVerifyIntended(accounts: seq<Account>, caller: Claims, req: ChangeRequest)
    requires CheckChange(accounts, caller, req).Ok?
    ensures var updated := WithTransferPassword(accounts, CheckChange(accounts, caller, req).value,
                                                req.newPassword.value);
            && VerifyTransferPasswordIntended(updated, caller, VerifyRequest(req.accountNumber, req.oldPassword))
               == Err(Mismatch)
            && VerifyTransferPasswordIntended(updated, caller, VerifyRequest(req.accountNumber, req.newPassword))
               == Ok(())
  {
    var i := CheckChange(accounts, caller, req).value;
    var updated := WithTransferPassword(accounts, i, req.newPassword.value);
    assert updated == accounts[i := updated[i]];
    FindByNumberUpdate(accounts, req.accountNumber.value, i, updated[i]);
  }

  /** No account has a transfer password, as in a store built only by
      registration. */
  predicate NoTransferPasswords(accounts: seq<Account>) {
    forall k :: 0 <= k < |accounts| ==> !HasTransferPassword(accounts[k])
  }

  /** As written, no handler can give an account its first transfer
      password: set stores nothing and change needs one already. So for an
      account that is the first with its number and has no transfer
      password, a change naming it is refused before the old password is
      compared (at the latest with "no password yet"), a transfer out of it
      is refused at the latest with P404, and its verification is refused
      with 403 or P404. */
  lemma PasswordlessAccountIsFrozen(accounts: seq<Account>, caller: Claims, n: string, change: ChangeRequest,
                                    transfer: Transfers.TransferRequest, verify: VerifyRequest)
    requires FindByNumber(accounts, n).Some? && !HasTransferPassword(accounts[FindByNumber(accounts, n).value])
    requires change.accountNumber == Some(n) && transfer.fromAccountNumber == Some(n)
    requires verify.accountNumber == Some(n)
    ensures CheckChange(accounts, caller, change).Err?
    ensures CheckChange(accounts, caller, change).error in {InvalidInput, Forbidden, NoPasswordYet}
    ensures Transfers.CheckTransfer(accounts, transfer).Err?
    ensures Transfers.CheckTransfer(accounts, transfer).error in
              {Transfers.InvalidInput, Transfers.AccountNotFound, Transfers.SameAccount, Transfers.PasswordNotSet}
    ensures VerifyTransferPassword(accounts, caller, verify).Err?
    ensures VerifyTransferPassword(accounts, caller, verify).error in {Forbidden, PasswordNotSet}
  {
  }

  /** In a store where no account has a transfer password, no change,
      transfer or verification ever succeeds. */
  lemma PasswordlessStoreIsFrozen(accounts: seq<Account>, caller: Claims, change: ChangeRequest,
                                  transfer: Transfers.TransferRequest, verify: VerifyRequest)
    requires NoTransferPasswords(accounts)
    ensures CheckChange(accounts, caller, change).Err?
    ensures Transfers.CheckTransfer(accounts, transfer).Err?
    ensures VerifyTransferPassword(accounts, caller, verify).Err?
  {
  }
}
