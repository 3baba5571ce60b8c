/** Bearer tokens: reading the token out of the Authorization header, the
    `authenticateToken` middleware, and the session check and logout routes. */
module Auth {
  import opened Wrappers
  import opened Model
  import opened Http
  import opened Validation

  /** `h.split(' ')[1]`: the text between the first space and the next one (or the end),
      when `h` has a space at all. */
  function SecondField(h: string): (r: Option<string>)
    ensures r.Some? <==> ' ' in h
    ensures r.Some? ==> ' ' !in r.value
    ensures r.Some? ==>
      && IndexOf(h, ' ').Some?
      && var start := IndexOf(h, ' ').value + 1;
         var end := start + |r.value|;
         && end <= |h| && h[start..end] == r.value
         && (end == |h| || h[end] == ' ')
  {
    match IndexOf(h, ' ')
    case None => None
    case Some(i) =>
      var rest := h[i + 1..];
      match IndexOf(rest, ' ')
      case None => Some(rest)
      case Some(j) => Some(rest[..j])
  }

  /** The token of a request: the second space-separated field of the Authorization header,
      None when the header is missing, has no such field, or the field is empty (all of
      which the server treats as "no token"). */
  function TokenOf(header: Option<string>): (r: Option<string>)
    ensures r.Some? ==> r.value != "" && ' ' !in r.value
    ensures r.Some? ==> header.Some? && SecondField(header.value) == r
    ensures r.None? <==> header.None? || SecondField(header.value) in {None, Some("")}
  {
    if header.None? then None
    else
      match SecondField(header.value)
      case Some(t) => if t == "" then None else Some(t)
      case None => None
  }

  /** A token that `TokenOf` can carry: non-empty and without spaces. */
  predicate TokenShaped(t: string) {
    t != "" && ' ' !in t
  }

  /** Writing `Authorization: <scheme> <token>` and reading the token back gives the token. */
  lemma TokenOfBearer(scheme: string, t: string)
    requires ' ' !in scheme
    requires TokenShaped(t)
    ensures TokenOf(Some(scheme + " " + t)) == Some(t)
  {
    var h := scheme + " " + t;
    assert h[|scheme|] == ' ';
    assert h[..|scheme|] == scheme;
    assert IndexOf(h, ' ') == Some(|scheme|);
    assert h[|scheme| + 1..] == t;
  }

  /** The three outcomes of `authenticateToken`. */
  datatype AuthResult =
    | Anonymous                     // no token: the request goes on without a user
    | Rejected                      // a token that does not verify: 403, handler never runs
    | Authenticated(claims: Claims) // verified: the claims become `req.user`

  function Authenticate(crypto: Crypto, header: Option<string>): (r: AuthResult)
    ensures r.Anonymous? <==> TokenOf(header).None?
    ensures r.Rejected? <==> TokenOf(header).Some? && crypto.verify(TokenOf(header).value).None?
    ensures r.Authenticated? ==> TokenOf(header).Some? && crypto.verify(TokenOf(header).value) == Some(r.claims)
  {
    match TokenOf(header)
    case None => Anonymous
    case Some(t) =>
      match crypto.verify(t)
      case None => Rejected
      case Some(c) => Authenticated(c)
  }

  /** `GET /login`: never an error. The caller is logged in exactly when the middleware would
      authenticate the same header, and then the reply carries that token's claims. */
  function SessionStatus(crypto: Crypto, header: Option<string>): (r: Reply)
    ensures r.status == 200
    ensures r.body.NotLoggedIn? || r.body.LoggedInAs?
    ensures r.body.LoggedInAs? <==> Authenticate(crypto, header).Authenticated?
    ensures r.body.LoggedInAs? ==>
      Authenticate(crypto, header).claims == Claims(r.body.userId, r.body.username)
  {
    var token := TokenOf(header);
    if token.None? then Reply(200, NotLoggedIn)
    else
      match crypto.verify(token.value)
      case None => Reply(200, NotLoggedIn)
      case Some(c) => Reply(200, LoggedInAs(c.userId, c.username))
  }

  /** `DELETE /login`: tokens are stateless, so logging out only tells the client to drop it. */
  function Logout(): Reply {
    Reply(200, Message("Logged out successfully"))
  }

  /** A token the server signed, sent back as a bearer token, is reported as a live session
      for exactly the claims it was signed with (as long as `jwt.verify` accepts it). */
  lemma SessionOfSignedToken(crypto: Crypto, c: Claims, ttl: nat)
    requires TokenShaped(crypto.sign(c, ttl))
    requires crypto.verify(crypto.sign(c, ttl)) == Some(c)
    ensures SessionStatus(crypto, Some("Bearer " + crypto.sign(c, ttl))) == Reply(200, LoggedInAs(c.userId, c.username))
    ensures Authenticate(crypto, Some("Bearer " + crypto.sign(c, ttl))) == Authenticated(c)
  {
    TokenOfBearer("Bearer", crypto.sign(c, ttl));
  }
}
