/** The `authenticateToken` middleware and the revocation list that logout
    appends to (server.js, `invalidTokens`). Signature checking is an oracle
    `verify`: it gives the token's claims, or None when `jwt.verify` fails. */
module Auth {
  import opened Wrappers
  import opened Search
  import opened Records

  /** Whether a string contains no space character. */
  predicate NoSpace(s: string) {
    forall i :: 0 <= i < |s| ==> s[i] != ' '
  }

  /** `s.split(" ")[1]`: the text between the first space and the next
      space or the end; None (`undefined`) when `s` has no space. */
  function SecondField(s: string): (r: Option<string>)
    ensures r.None? <==> NoSpace(s)
    ensures r.Some? ==> NoSpace(r.value)
    ensures r.Some? ==>
              exists i :: 0 <= i < |s| && s[i] == ' ' && NoSpace(s[..i]) &&
                          i + 1 + |r.value| <= |s| && s[i + 1..i + 1 + |r.value|] == r.value &&
                          (i + 1 + |r.value| == |s| || s[i + 1 + |r.value|] == ' ')
  {
    match FirstIndex(s, (c: char) => c == ' ')
    case None => None
    case Some(i) =>
      var rest := s[i + 1..];
      assert NoSpace(s[..i]);
      match FirstIndex(rest, (c: char) => c == ' ')
      case None =>
        assert s[i + 1..i + 1 + |rest|] == rest;
        Some(rest)
      case Some(j) =>
        assert s[i + 1..i + 1 + j] == rest[..j] && s[i + 1 + j] == rest[j];
        Some(rest[..j])
  }

  /** `authHeader && authHeader.split(" ")[1]`; a falsy result is None or "". */
  function TokenOf(header: Option<string>): (r: Option<string>)
    ensures r.None? <==> !Present(header) || NoSpace(header.value)
    ensures r.Some? ==> NoSpace(r.value) && SecondField(header.value) == r
  {
    if Present(header) then SecondField(header.value) else None
  }

  /** The scheme-and-token header a client sends yields exactly the token. */
  lemma TokenOfBearer(scheme: string, token: string)
    requires NoSpace(scheme) && NoSpace(token)
    ensures TokenOf(Some(scheme + " " + token)) == Some(token)
  {
    var h := scheme + " " + token;
    var isSpace := (c: char) => c == ' ';
    assert h[|scheme|] == ' ';
    assert forall k :: 0 <= k < |scheme| ==> h[k] == scheme[k];
    FirstIndexIs(h, isSpace, |scheme|);
    assert h[|scheme| + 1..] == token;
  }

  /** What the middleware does with a request: pass it on with the claims and
      the token, or answer with an error. */
  datatype AuthResult =
    | Authenticated(user: Claims, token: string)
    | MissingToken   // 401 "Token não fornecido"
    | RevokedToken   // 401 "Token expirado ou inválido"
    | InvalidToken   // 403 "Token inválido"
  {
    /** The status the middleware answers with; an authenticated request
        answers nothing here and goes on to the route, shown as 0. */
    function Status(): nat {
      match this
      case Authenticated(_, _) => 0
      case MissingToken => 401
      case RevokedToken => 401
      case InvalidToken => 403
    }
  }

  /** `authenticateToken`: a missing token, then a revoked one, then a failed
      signature check; the revocation list is consulted before `verify`. */
  function Authenticate(header: Option<string>, invalidTokens: seq<string>,
                        verify: string -> Option<Claims>): (r: AuthResult)
    ensures r == MissingToken <==> !Present(TokenOf(header))
    ensures r == RevokedToken <==> Present(TokenOf(header)) && TokenOf(header).value in invalidTokens
    ensures r.Authenticated? <==>
              Present(TokenOf(header)) && TokenOf(header).value !in invalidTokens &&
              verify(TokenOf(header).value).Some?
    ensures r.Authenticated? ==>
              r.token == TokenOf(header).value && verify(r.token) == Some(r.user)
  {
    var token := TokenOf(header);
    if !Present(token) then MissingToken
    else if token.value in invalidTokens then RevokedToken
    else match verify(token.value)
      case None => InvalidToken
      case Some(user) => Authenticated(user, token.value)
  }

  /** A token on the revocation list is refused on every later request, by
      any signature oracle, however the list has grown since. */
  lemma RevokedStaysRevoked(header: Option<string>, before: seq<string>, after: seq<string>,
                            verify: string -> Option<Claims>)
    requires Present(TokenOf(header)) && TokenOf(header).value in before
    requires before <= after
    ensures Authenticate(header, after, verify) == RevokedToken
  {
    var t := TokenOf(header).value;
    var i :| 0 <= i < |before| && before[i] == t;
    assert after[i] == t;
  }

  /** Logout puts the caller's own token on the list: a request that was
      accepted is refused once that token has been appended. */
  lemma LogoutRevokes(header: Option<string>, invalidTokens: seq<string>,
                      verify: string -> Option<Claims>, later: Option<string>,
                      verifyLater: string -> Option<Claims>)
    requires Authenticate(header, invalidTokens, verify).Authenticated?
    requires TokenOf(later) == TokenOf(header)
    ensures Authenticate(later, invalidTokens + [Authenticate(header, invalidTokens, verify).token],
                         verifyLater) == RevokedToken
  {
    var t := Authenticate(header, invalidTokens, verify).token;
    assert (invalidTokens + [t])[|invalidTokens|] == t;
  }
}
