/** `POST /register` and `POST /login`: the user store's checks, the
    identifiers registration generates, and the credential lookup. */
module Registration {
  import opened Wrappers
  import opened Search
  import opened Records
  import opened Numerals

  datatype RegisterError =
    | MissingFields   // 400 "Todos os campos são obrigatórios"
    | DuplicateUser   // 400 "Usuário ou email já cadastrados"
  {
    function Status(): nat { 400 }
  }

  datatype LoginError =
    | MissingCredentials  // 400
    | InvalidCredentials  // 401 "Credenciais inválidas"
  {
    function Status(): nat {
      match this
      case MissingCredentials => 400
      case InvalidCredentials => 401
    }
  }

  /** `user${n}` */
  function UserId(n: nat): string {
    "user" + Decimal(n)
  }

  /** `acc${n}` */
  function AccountId(n: nat): string {
    "acc" + Decimal(n)
  }

  /** Both ids are their prefix followed by a numeral that reads back as the
      counter, so the counter can be recovered from the id. */
  lemma IdsReadBack(n: nat)
    ensures |UserId(n)| > 4 && UserId(n)[..4] == "user"
    ensures (forall i :: 4 <= i < |UserId(n)| ==> IsDigit(UserId(n)[i])) && Parse(UserId(n)[4..]) == n
    ensures |AccountId(n)| > 3 && AccountId(n)[..3] == "acc"
    ensures (forall i :: 3 <= i < |AccountId(n)| ==> IsDigit(AccountId(n)[i])) && Parse(AccountId(n)[3..]) == n
  {
    ParseDecimal(n);
    assert UserId(n)[4..] == Decimal(n);
    assert AccountId(n)[3..] == Decimal(n);
  }

  /** Different counters give different ids. */
  lemma IdsInjective(m: nat, n: nat)
    requires m != n
    ensures UserId(m) != UserId(n) && AccountId(m) != AccountId(n)
  {
    if UserId(m) == UserId(n) {
      PrefixedDecimalInjective("user", m, n);
    }
    if AccountId(m) == AccountId(n) {
      PrefixedDecimalInjective("acc", m, n);
    }
  }

  /** The account number drawn at registration, for the two random draws
      `Math.floor(Math.random() * 90000)` and `Math.floor(Math.random() * 9)`:
      five digits, a dash, one digit from 0 to 8. Nothing makes it unique. */
  function AccountNumber(high: nat, low: nat): (n: string)
    requires high < 90000 && low < 9
    ensures |n| == 7 && n[5] == '-'
    ensures forall i :: 0 <= i < 7 && i != 5 ==> IsDigit(n[i])
    ensures '1' <= n[0] && n[6] <= '8'
    ensures Parse(n[..5]) == high + 10000 && n[6] == DigitChar(low)
  {
    assert Pow10(4) == 10000 && Pow10(5) == 100000 by {
      assert Pow10(1) == 10 && Pow10(2) == 100 && Pow10(3) == 1000;
    }
    DecimalLength(high + 10000, 4);
    LeadingDigit(high + 10000, 4);
    ParseDecimal(high + 10000);
    assert (Decimal(high + 10000) + "-" + Decimal(low))[..5] == Decimal(high + 10000);
    Decimal(high + 10000) + "-" + Decimal(low)
  }

  /** The first digit of a numeral of k + 1 digits is not zero. */
  lemma {:induction false} LeadingDigit(n: nat, k: nat)
    requires Pow10(k) <= n < Pow10(k + 1)
    ensures Decimal(n)[0] != '0'
  {
    if k > 0 {
      LeadingDigit(n / 10, k - 1);
    }
  }

  /** The payload signed into a token: id, username and email of the user,
      and not the password. */
  function ClaimsOf(u: User): (c: Claims)
    ensures c.id == u.id && c.username == u.username && c.email == u.email
  {
    Claims(u.id, u.username, u.email)
  }

  /** The checks of the register route: all three fields present, and no
      user already has the username or the email. */
  function CheckRegister(users: seq<User>, username: Option<string>, email: Option<string>,
                         password: Option<string>): (r: Result<(), RegisterError>)
    ensures r == Err(MissingFields) <==> !(Present(username) && Present(email) && Present(password))
    ensures r.Ok? <==>
              && Present(username) && Present(email) && Present(password)
              && forall k :: 0 <= k < |users| ==>
                   users[k].username != username.value && users[k].email != email.value
  {
    if !Present(username) || !Present(email) || !Present(password) then Err(MissingFields)
    else if FirstIndex(users, (u: User) => u.username == username.value || u.email == email.value).Some? then
      Err(DuplicateUser)
    else Ok(())
  }

  /** The record registration appends to a user store of |users| records. */
  function NewUser(users: seq<User>, username: string, email: string, password: string): (u: User)
    ensures u.id == UserId(|users| + 1)
    ensures u.username == username && u.email == email && u.password == password
    ensures forall k :: 0 <= k < |users| && users[k].id == UserId(k + 1) ==> users[k].id != u.id
  {
    var u := User(UserId(|users| + 1), username, email, password);
    forall k | 0 <= k < |users| && users[k].id == UserId(k + 1)
      ensures users[k].id != u.id
    {
      IdsInjective(k + 1, |users| + 1);
    }
    u
  }

  /** The record registration appends to an account store of |accounts|
      records: zero balance, no transfer password. */
  function NewAccount(accounts: seq<Account>, userId: string, accountNumber: string): (a: Account)
    ensures a.id == AccountId(|accounts| + 1)
    ensures a.userId == userId && a.accountNumber == accountNumber
    ensures a.balance == 0 && a.transferPassword.None?
    ensures forall k :: 0 <= k < |accounts| && accounts[k].id == AccountId(k + 1) ==> accounts[k].id != a.id
  {
    var a := Account(AccountId(|accounts| + 1), userId, accountNumber, 0, None);
    forall k | 0 <= k < |accounts| && accounts[k].id == AccountId(k + 1)
      ensures accounts[k].id != a.id
    {
      IdsInjective(k + 1, |accounts| + 1);
    }
    a
  }

  /** The credential lookup of the login route: the first user whose
      username and password both match. Whether the username or the
      password was wrong, the error is the same. */
  function Login(users: seq<User>, username: Option<string>, password: Option<string>)
    : (r: Result<Claims, LoginError>)
    ensures r == Err(MissingCredentials) <==> !(Present(username) && Present(password))
    ensures r == Err(InvalidCredentials) <==>
              Present(username) && Present(password) &&
              forall k :: 0 <= k < |users| ==>
                !(users[k].username == username.value && users[k].password == password.value)
    ensures r.Ok? ==>
              exists k :: 0 <= k < |users| && users[k].username == username.value &&
                          users[k].password == password.value && r.value == ClaimsOf(users[k]) &&
                          forall j :: 0 <= j < k ==>
                            !(users[j].username == username.value && users[j].password == password.value)
  {
    if !Present(username) || !Present(password) then Err(MissingCredentials)
    else match FirstIndex(users, (u: User) => u.username == username.value && u.password == password.value)
      case None => Err(InvalidCredentials)
      case Some(i) => Ok(ClaimsOf(users[i]))
  }

  /** Registering and then logging in with the same credentials yields the
      claims of the user just created. */
  lemma LoginAfterRegister(users: seq<User>, username: string, email: string, password: string)
    requires CheckRegister(users, Some(username), Some(email), Some(password)).Ok?
    ensures var u := NewUser(users, username, email, password);
            Login(users + [u], Some(username), Some(password)) == Ok(ClaimsOf(u))
  {
    var u := NewUser(users, username, email, password);
    var matches := (v: User) => v.username == username && v.password == password;
    FirstIndexAppend(users, matches, u);
  }

  /** Once registered, a username or an email cannot be registered again. */
  lemma RegisterOnce(users: seq<User>, username: string, email: string, password: string,
                     username': Option<string>, email': Option<string>, password': Option<string>)
    requires CheckRegister(users, Some(username), Some(email), Some(password)).Ok?
    requires Present(username') && Present(email') && Present(password')
    requires username' == Some(username) || email' == Some(email)
    ensures CheckRegister(users + [NewUser(users, username, email, password)], username', email', password')
            == Err(DuplicateUser)
  {
    var u := NewUser(users, username, email, password);
    assert (users + [u])[|users|] == u;
  }
}
