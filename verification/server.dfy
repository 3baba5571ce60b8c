/** The server as one state machine: a request against the store gives a new store and a
    reply. The middleware runs before the three protected routes. */
module Server {
  import opened Wrappers
  import opened Model
  import opened Http
  import opened Validation
  import opened Auth
  import opened Users
  import opened Contents
  import opened Follows

  /** The routes under `/M00671293`, each with the parts of the request its handler reads. */
  datatype Request =
    | PostUsers(registration: Registration)                              // POST   /users
    | PostEditProfile(authorization: Option<string>, edit: ProfileEdit)  // POST   /users/editProfile
    | PostLogin(credentials: Credentials)                                // POST   /login
    | GetLogin(authorization: Option<string>)                            // GET    /login
    | DeleteLogin                                                        // DELETE /login
    | PostContents(post: NewPost)                                        // POST   /contents
    | PostComment(postId: Id, comment: NewComment)                       // POST   /contents/:postId/comments
    | GetContents                                                        // GET    /contents
    | GetUser(username: string)                                          // GET    /users/:username
    | PostFollow(authorization: Option<string>, followedId: Option<Id>)  // POST   /follow
    | DeleteFollow(authorization: Option<string>, followedId: Option<Id>) // DELETE /follow

  /** What the environment supplies to a request: the clock reading for `new Date()` and the
      id the store assigns to an inserted document. */
  datatype Ctx = Ctx(now: Time, newId: Id)

  /** The routes that pass through `authenticateToken`. */
  predicate Protected(req: Request) {
    req.PostEditProfile? || req.PostFollow? || req.DeleteFollow?
  }

  /** The routes that only read the store. */
  predicate ReadOnly(req: Request) {
    req.PostLogin? || req.GetLogin? || req.DeleteLogin? || req.GetContents? || req.GetUser?
  }

  function Handle(crypto: Crypto, st: Store, req: Request, ctx: Ctx): (out: Outcome)
    ensures ReadOnly(req) ==> out.store == st
    ensures req.GetLogin? || req.DeleteLogin? || req.GetContents? ==> out.reply.status == 200
    ensures req.DeleteLogin? ==> out.reply.body == Message("Logged out successfully")
    ensures out.reply.status == 403 <==>
      Protected(req) && Authenticate(crypto, req.authorization).Rejected?
    ensures out.reply.status == 403 ==> out.store == st && out.reply == Forbidden
  {
    match req
    case PostUsers(r) => Register(crypto, st, r, ctx.newId)
    case PostEditProfile(h, e) => EditProfile(st, Authenticate(crypto, h), e)
    case PostLogin(c) => Login(crypto, st, c)
    case GetLogin(h) => Outcome(st, SessionStatus(crypto, h))
    case DeleteLogin => Outcome(st, Logout())
    case PostContents(p) => CreatePost(st, p, ctx.now, ctx.newId)
    case PostComment(id, c) => AddComment(st, id, c, ctx.now, ctx.newId)
    case GetContents => Outcome(st, ListContents(st))
    case GetUser(name) => Outcome(st, GetProfile(st, name))
    case PostFollow(h, id) => FollowUser(st, Authenticate(crypto, h), id, ctx.now, ctx.newId)
    case DeleteFollow(h, id) => UnfollowUser(st, Authenticate(crypto, h), id)
  }

  // ===================== the store invariant =====================

  predicate UniqueUserIds(users: seq<User>) {
    forall i, j :: 0 <= i < j < |users| ==> users[i].id != users[j].id
  }

  predicate UniqueUsernames(users: seq<User>) {
    forall i, j :: 0 <= i < j < |users| ==> users[i].username != users[j].username
  }

  predicate UniqueEmails(users: seq<User>) {
    forall i, j :: 0 <= i < j < |users| ==> users[i].email != users[j].email
  }

  /** What sequential requests keep true of the store: user ids, usernames and emails are
      unique, and no follow pair is recorded twice. */
  predicate Valid(st: Store) {
    && UniqueUserIds(st.users)
    && UniqueUsernames(st.users)
    && UniqueEmails(st.users)
    && NoDuplicatePairs(st.follows)
  }

  /** An id no stored user carries, as the store guarantees for a newly inserted document. */
  predicate FreshUserId(st: Store, id: Id) {
    forall i :: 0 <= i < |st.users| ==> st.users[i].id != id
  }

  lemma RegisterKeepsValid(crypto: Crypto, st: Store, r: Registration, newId: Id)
    requires Valid(st) && FreshUserId(st, newId)
    ensures Valid(Register(crypto, st, r, newId).store)
  {
    var out := Register(crypto, st, r, newId);
    if out.reply.status == 201 {
      var users := out.store.users;
      var n := |st.users|;
      assert forall i :: 0 <= i < n ==> users[i] == st.users[i];
      assert forall i :: 0 <= i < n ==> !Clashes(st.users[i], r.username.value, r.email.value);
    }
  }

  lemma EditProfileKeepsValid(st: Store, auth: AuthResult, e: ProfileEdit)
    requires Valid(st)
    ensures Valid(EditProfile(st, auth, e).store)
  {
    var out := EditProfile(st, auth, e);
    if out.reply.status == 200 {
      var k :| FirstWithId(st.users, auth.claims.userId, k)
               && out.store.users[k] == ApplyEdit(st.users[k], e)
               && forall j :: 0 <= j < |st.users| && j != k ==> out.store.users[j] == st.users[j];
      assert forall j :: 0 <= j < |st.users| ==>
        && out.store.users[j].id == st.users[j].id
        && out.store.users[j].username == st.users[j].username
        && out.store.users[j].email == st.users[j].email;
    }
  }

  /** Every request keeps the store invariant, given that inserted documents get fresh ids. */
  lemma HandleKeepsValid(crypto: Crypto, st: Store, req: Request, ctx: Ctx)
    requires Valid(st) && FreshUserId(st, ctx.newId)
    ensures Valid(Handle(crypto, st, req, ctx).store)
  {
    match req
    case PostUsers(r) => RegisterKeepsValid(crypto, st, r, ctx.newId);
    case PostEditProfile(h, e) => EditProfileKeepsValid(st, Authenticate(crypto, h), e);
    case PostFollow(h, id) =>
      if Handle(crypto, st, req, ctx).reply.status == 201 {
        FollowAddsPair(st, Authenticate(crypto, h), id, ctx.now, ctx.newId);
      }
    case DeleteFollow(h, id) =>
      if Handle(crypto, st, req, ctx).reply.status == 200 {
        UnfollowRemovesPair(st, Authenticate(crypto, h), id);
      }
    case _ =>
  }

  // ===================== properties across requests =====================

  /** With unique usernames, login succeeds exactly when some stored user has the username
      and the password matches that user's digest. */
  lemma LoginSucceedsIffCredentialsMatch(crypto: Crypto, st: Store, name: string, password: string)
    requires UniqueUsernames(st.users)
    requires name != "" && password != ""
    ensures Login(crypto, st, Credentials(Some(name), Some(password))).reply.status == 200 <==>
      exists i :: 0 <= i < |st.users| && st.users[i].username == name
                  && Compare(crypto, password, st.users[i].password)
  {
    var users := st.users;
    if exists i :: 0 <= i < |users| && users[i].username == name && Compare(crypto, password, users[i].password) {
      var i :| 0 <= i < |users| && users[i].username == name && Compare(crypto, password, users[i].password);
      assert FirstNamed(users, name, i);
    }
  }

  /** A user who has just registered can log in with the same username and password, and
      the login reply names them. */
  lemma RegisterThenLogin(crypto: Crypto, st: Store, r: Registration, newId: Id)
    requires Register(crypto, st, r, newId).reply.status == 201
    ensures var st' := Register(crypto, st, r, newId).store;
      Login(crypto, st', Credentials(r.username, r.password)) ==
        Outcome(st', Reply(200, LoggedIn(LoginMessage,
                                          crypto.sign(Claims(newId, r.username.value), LoginTokenTtl),
                                          r.firstName.value, r.lastName.value)))
  {
    var st' := Register(crypto, st, r, newId).store;
    var n := |st.users|;
    assert forall i :: 0 <= i < n ==> !Clashes(st.users[i], r.username.value, r.email.value);
    assert forall i :: 0 <= i < n ==> st'.users[i] == st.users[i];
    assert FirstNamed(st'.users, r.username.value, n);
    assert forall i :: FirstNamed(st'.users, r.username.value, i) ==> i == n;
  }

  /** Registering a username that is already taken is refused, whatever the other fields. */
  lemma RegisterTwiceConflicts(crypto: Crypto, st: Store, r: Registration, newId: Id, r2: Registration, newId2: Id)
    requires Register(crypto, st, r, newId).reply.status == 201
    requires WellFormed(r2) && r2.username == r.username
    ensures var st' := Register(crypto, st, r, newId).store;
      Register(crypto, st', r2, newId2) == Outcome(st', Reply(409, Error(UsernameTaken)))
      || Register(crypto, st', r2, newId2) == Outcome(st', Reply(409, Error(EmailTaken)))
  {
    var st' := Register(crypto, st, r, newId).store;
    assert Clashes(st'.users[|st.users|], r2.username.value, r2.email.value);
  }

  /** The token a registration answers with is, sent back as a bearer token, a live session
      for the new user (as long as `jwt.verify` accepts the token it signed). */
  lemma RegisterThenSession(crypto: Crypto, st: Store, r: Registration, newId: Id)
    requires Register(crypto, st, r, newId).reply.status == 201
    requires var c := Claims(newId, r.username.value);
      TokenShaped(crypto.sign(c, RegistrationTokenTtl))
      && crypto.verify(crypto.sign(c, RegistrationTokenTtl)) == Some(c)
    ensures var token := Register(crypto, st, r, newId).reply.body.token;
      SessionStatus(crypto, Some("Bearer " + token)) == Reply(200, LoggedInAs(newId, r.username.value))
  {
    SessionOfSignedToken(crypto, Claims(newId, r.username.value), RegistrationTokenTtl);
  }

  /** The profile of a newly registered user: the full name, no posts, followers or
      followings, and the default bio. */
  lemma RegisterThenProfile(crypto: Crypto, st: Store, r: Registration, newId: Id)
    requires Register(crypto, st, r, newId).reply.status == 201
    ensures var st' := Register(crypto, st, r, newId).store;
      GetProfile(st', r.username.value) ==
        Reply(200, Profile(Summary(r.username.value, r.firstName.value + " " + r.lastName.value,
                                   0, 0, 0, NoBio, [])))
  {
    var st' := Register(crypto, st, r, newId).store;
    var n := |st.users|;
    assert forall i :: 0 <= i < n ==> !Clashes(st.users[i], r.username.value, r.email.value);
    assert forall i :: 0 <= i < n ==> st'.users[i] == st.users[i];
    assert forall i :: FirstNamed(st'.users, r.username.value, i) ==> i == n;
  }

  /** Sending the same profile edit twice leaves the store as sending it once. */
  lemma EditProfileIdempotent(st: Store, auth: AuthResult, e: ProfileEdit)
    ensures var st' := EditProfile(st, auth, e).store;
      EditProfile(st', auth, e).store == st'
  {
    var out := EditProfile(st, auth, e);
    if out.reply.status == 200 {
      var k :| FirstWithId(st.users, auth.claims.userId, k)
               && out.store.users[k] == ApplyEdit(st.users[k], e)
               && forall j :: 0 <= j < |st.users| && j != k ==> out.store.users[j] == st.users[j];
      var out2 := EditProfile(out.store, auth, e);
      assert FirstWithId(out.store.users, auth.claims.userId, k);
      var k2 :| FirstWithId(out.store.users, auth.claims.userId, k2)
                && out2.store.users[k2] == ApplyEdit(out.store.users[k2], e)
                && forall j :: 0 <= j < |st.users| && j != k2 ==> out2.store.users[j] == out.store.users[j];
      assert k2 == k;
      assert out2.store.users == out.store.users;
    }
  }
}
