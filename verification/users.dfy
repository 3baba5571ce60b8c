/** The user routes: registration, login, profile edit and the public profile summary. */
module Users {
  import opened Wrappers
  import opened Model
  import opened Http
  import opened Validation
  import opened Auth

  // ===================== registration: POST /users =====================

  datatype Registration = Registration(
    firstName: Option<string>,
    lastName: Option<string>,
    username: Option<string>,
    email: Option<string>,
    password: Option<string>)

  const MissingFields := "Please fill in all required fields."
  const BadUsername := "Username can only contain letters, numbers, underscores, hyphens, and periods."
  const BadEmail := "Invalid email format."
  const UsernameTaken := "Username already exists."
  const EmailTaken := "Email already exists."
  const RegisteredMessage := "User registered successfully."
  const HomePath := "/M00671293"

  predicate AllPresent(req: Registration) {
    && Truthy(req.firstName) && Truthy(req.lastName) && Truthy(req.username)
    && Truthy(req.email) && Truthy(req.password)
  }

  /** The registration passes every check made before the store is consulted. */
  predicate WellFormed(req: Registration) {
    AllPresent(req) && IsUsername(req.username.value) && IsEmail(req.email.value)
  }

  /** A stored user blocks a registration when it has the same username or the same email. */
  predicate Clashes(u: User, username: string, email: string) {
    u.username == username || u.email == email
  }

  /** `users[i]` is the user `findOne({ $or: [{ username }, { email }] })` returns. */
  predicate FirstClash(users: seq<User>, username: string, email: string, i: int) {
    && 0 <= i < |users|
    && Clashes(users[i], username, email)
    && forall k :: 0 <= k < i ==> !Clashes(users[k], username, email)
  }

  function Register(crypto: Crypto, st: Store, req: Registration, newId: Id): (out: Outcome)
    ensures out.reply.status in {201, 400, 409}
    ensures out.reply.status != 201 ==> out.store == st
    // the three 400s: missing field, bad username, bad email
    ensures out.reply == Reply(400, Error(MissingFields)) <==> !AllPresent(req)
    ensures out.reply == Reply(400, Error(BadUsername)) <==>
      AllPresent(req) && !IsUsername(req.username.value)
    ensures out.reply == Reply(400, Error(BadEmail)) <==>
      AllPresent(req) && IsUsername(req.username.value) && !IsEmail(req.email.value)
    ensures out.reply.status == 400 <==> !WellFormed(req)
    // the 409: some stored user has the username or the email
    ensures out.reply.status == 409 <==>
      WellFormed(req) && exists i :: 0 <= i < |st.users| && Clashes(st.users[i], req.username.value, req.email.value)
    ensures out.reply.status == 409 ==>
      (out.reply.body == Error(UsernameTaken) || out.reply.body == Error(EmailTaken))
    ensures out.reply.status == 409 ==>
      (out.reply.body == Error(UsernameTaken) <==>
         exists i :: FirstClash(st.users, req.username.value, req.email.value, i)
                     && st.users[i].username == req.username.value)
    // the 201: exactly one user appended, nothing else touched, no password in the reply
    ensures out.reply.status == 201 ==>
      && WellFormed(req)
      && out.store.contents == st.contents && out.store.comments == st.comments
      && out.store.follows == st.follows
      && |out.store.users| == |st.users| + 1
      && out.store.users[..|st.users|] == st.users
      && var u := out.store.users[|st.users|];
         && u.id == newId
         && u.firstName == req.firstName.value && u.lastName == req.lastName.value
         && u.username == req.username.value && u.email == req.email.value
         && Compare(crypto, req.password.value, u.password)
         && u.bio.None? && u.profilePicture.None?
         && u.posts.None? && u.followers.None? && u.followings.None?
    ensures out.reply.status == 201 ==>
      out.reply.body == Registered(RegisteredMessage,
                                   crypto.sign(Claims(newId, req.username.value), RegistrationTokenTtl),
                                   HomePath)
  {
    if !AllPresent(req) then Outcome(st, Reply(400, Error(MissingFields)))
    else if !IsUsername(req.username.value) then Outcome(st, Reply(400, Error(BadUsername)))
    else if !IsEmail(req.email.value) then Outcome(st, Reply(400, Error(BadEmail)))
    else
      var username, email := req.username.value, req.email.value;
      match FirstWhere(st.users, (u: User) => Clashes(u, username, email))
      case Some(i) =>
        assert FirstClash(st.users, username, email, i);
        var message := if st.users[i].username == username then UsernameTaken else EmailTaken;
        Outcome(st, Reply(409, Error(message)))
      case None =>
        var user := User(newId, req.firstName.value, req.lastName.value, username, email,
                         crypto.hash(req.password.value), None, None, None, None, None);
        var token := crypto.sign(Claims(newId, username), RegistrationTokenTtl);
        Outcome(st.(users := st.users + [user]), Reply(201, Registered(RegisteredMessage, token, HomePath)))
  }

  // ===================== login: POST /login =====================

  datatype Credentials = Credentials(username: Option<string>, password: Option<string>)

  const FieldsRequired := "All fields are required."
  const BadCredentials := "Invalid username or password."
  const LoginMessage := "Login successful."

  /** `users[i]` is the user `findOne({ username: name })` returns. */
  predicate FirstNamed(users: seq<User>, name: string, i: int) {
    && 0 <= i < |users|
    && users[i].username == name
    && forall k :: 0 <= k < i ==> users[k].username != name
  }

  /** Unknown user and wrong password give one and the same 401; the store never changes. */
  function Login(crypto: Crypto, st: Store, req: Credentials): (out: Outcome)
    ensures out.store == st
    ensures out.reply.status in {200, 400, 401}
    ensures out.reply.status == 400 <==> !(Truthy(req.username) && Truthy(req.password))
    ensures out.reply.status == 400 ==> out.reply.body == Error(FieldsRequired)
    ensures out.reply.status == 401 ==> out.reply.body == Error(BadCredentials)
    ensures out.reply.status == 200 <==>
      && Truthy(req.username) && Truthy(req.password)
      && exists i :: FirstNamed(st.users, req.username.value, i)
                     && Compare(crypto, req.password.value, st.users[i].password)
    ensures out.reply.status == 200 ==>
      && Truthy(req.username)
      && exists i :: FirstNamed(st.users, req.username.value, i)
           && out.reply.body == LoggedIn(LoginMessage,
                                         crypto.sign(Claims(st.users[i].id, st.users[i].username), LoginTokenTtl),
                                         st.users[i].firstName, st.users[i].lastName)
  {
    if !(Truthy(req.username) && Truthy(req.password)) then Outcome(st, Reply(400, Error(FieldsRequired)))
    else
      var name := req.username.value;
      match FirstWhere(st.users, (u: User) => u.username == name)
      case None => Outcome(st, Reply(401, Error(BadCredentials)))
      case Some(i) =>
        assert FirstNamed(st.users, name, i);
        var user := st.users[i];
        if !Compare(crypto, req.password.value, user.password) then
          Outcome(st, Reply(401, Error(BadCredentials)))
        else
          var token := crypto.sign(Claims(user.id, user.username), LoginTokenTtl);
          Outcome(st, Reply(200, LoggedIn(LoginMessage, token, user.firstName, user.lastName)))
  }

  // ===================== profile edit: POST /users/editProfile =====================

  /** The multipart fields of the edit form; `profilePicture` is base64 text. */
  datatype ProfileEdit = ProfileEdit(
    firstName: Option<string>,
    lastName: Option<string>,
    bio: Option<string>,
    profilePicture: Option<string>)

  const UserNotFound := "User not found"
  const ProfileUpdated := "Profile updated successfully"

  /** The `$set` of the edit applied to one user: a truthy field replaces the stored one,
      every other field keeps its stored value. */
  function ApplyEdit(u: User, e: ProfileEdit): (v: User)
    ensures Truthy(e.firstName) ==> v.firstName == e.firstName.value
    ensures !Truthy(e.firstName) ==> v.firstName == u.firstName
    ensures Truthy(e.lastName) ==> v.lastName == e.lastName.value
    ensures !Truthy(e.lastName) ==> v.lastName == u.lastName
    ensures Truthy(e.bio) ==> v.bio == e.bio
    ensures !Truthy(e.bio) ==> v.bio == u.bio
    ensures Truthy(e.profilePicture) ==> v.profilePicture == e.profilePicture
    ensures !Truthy(e.profilePicture) ==> v.profilePicture == u.profilePicture
    ensures v == u.(firstName := v.firstName, lastName := v.lastName, bio := v.bio,
                    profilePicture := v.profilePicture)
  {
    u.(firstName := if Truthy(e.firstName) then e.firstName.value else u.firstName,
       lastName := if Truthy(e.lastName) then e.lastName.value else u.lastName,
       bio := if Truthy(e.bio) then e.bio else u.bio,
       profilePicture := if Truthy(e.profilePicture) then e.profilePicture else u.profilePicture)
  }

  /** `users[i]` is the user `updateOne({ _id: id }, ...)` matches. */
  predicate FirstWithId(users: seq<User>, id: Id, i: int) {
    && 0 <= i < |users|
    && users[i].id == id
    && forall k :: 0 <= k < i ==> users[k].id != id
  }

  /** `auth` is what `authenticateToken` decided for the request. Without a token the handler
      reads `req.user.userId` of an undefined user before its try block and throws. */
  function EditProfile(st: Store, auth: AuthResult, e: ProfileEdit): (out: Outcome)
    ensures out.reply.status in {200, 403, 404, 500}
    ensures out.reply.status != 200 ==> out.store == st
    ensures out.reply.status == 403 <==> auth.Rejected?
    ensures out.reply.status == 403 ==> out.reply == Forbidden
    ensures out.reply.status == 500 <==> auth.Anonymous?
    ensures out.reply.status == 500 ==> out.reply.body == Uncaught
    ensures out.reply.status == 404 ==> out.reply.body == Error(UserNotFound)
    ensures out.reply.status == 200 ==> out.reply.body == Message(ProfileUpdated)
    ensures out.reply.status == 404 <==>
      auth.Authenticated? && forall i :: 0 <= i < |st.users| ==> st.users[i].id != auth.claims.userId
    ensures out.reply.status == 200 ==>
      && auth.Authenticated?
      && out.store.contents == st.contents && out.store.comments == st.comments
      && out.store.follows == st.follows
      && |out.store.users| == |st.users|
      && exists k :: FirstWithId(st.users, auth.claims.userId, k)
           && out.store.users[k] == ApplyEdit(st.users[k], e)
           && forall j :: 0 <= j < |st.users| && j != k ==> out.store.users[j] == st.users[j]
  {
    match auth
    case Rejected => Outcome(st, Forbidden)
    case Anonymous => Outcome(st, Reply(500, Uncaught))
    case Authenticated(c) =>
      match FirstWhere(st.users, (u: User) => u.id == c.userId)
      case None => Outcome(st, Reply(404, Error(UserNotFound)))
      case Some(k) =>
        assert FirstWithId(st.users, c.userId, k);
        Outcome(st.(users := st.users[k := ApplyEdit(st.users[k], e)]), Reply(200, Message(ProfileUpdated)))
  }

  // ===================== public profile: GET /users/:username =====================

  const UsernameRequired := "Username is required."
  const NoBio := "No bio available"

  /** `xs ? xs.length : 0` for a list field that may be absent. */
  function CountOf(xs: Option<seq<Id>>): nat {
    |xs.GetOr([])|
  }

  /** The profile summary of a stored user. */
  function Summarize(u: User): Summary {
    Summary(u.username,
            u.firstName + " " + u.lastName,
            CountOf(u.posts), CountOf(u.followers), CountOf(u.followings),
            if Truthy(u.bio) then u.bio.value else NoBio,
            u.posts.GetOr([]))
  }

  function GetProfile(st: Store, username: string): (r: Reply)
    ensures r.status in {200, 400, 404}
    ensures r.status == 400 <==> username == ""
    ensures r.status == 404 <==>
      username != "" && forall i :: 0 <= i < |st.users| ==> st.users[i].username != username
    ensures r.status == 404 ==> r.body == Error(UserNotFound)
    ensures r.status == 200 ==>
      && r.body.Profile?
      && var s := r.body.summary;
         && s.postsCount == |s.posts|
         && exists i :: FirstNamed(st.users, username, i)
              && var u := st.users[i];
                 && s.username == username
                 && s.name == u.firstName + " " + u.lastName
                 && s.postsCount == (if u.posts.Some? then |u.posts.value| else 0)
                 && s.followersCount == (if u.followers.Some? then |u.followers.value| else 0)
                 && s.followingsCount == (if u.followings.Some? then |u.followings.value| else 0)
                 && (Truthy(u.bio) ==> s.bio == u.bio.value)
                 && (!Truthy(u.bio) ==> s.bio == NoBio)
                 && (u.posts.Some? ==> s.posts == u.posts.value)
                 && (u.posts.None? ==> s.posts == [])
  {
    if username == "" then Reply(400, Error(UsernameRequired))
    else
      match FirstWhere(st.users, (u: User) => u.username == username)
      case None => Reply(404, Error(UserNotFound))
      case Some(i) =>
        assert FirstNamed(st.users, username, i);
        Reply(200, Profile(Summarize(st.users[i])))
  }
}
