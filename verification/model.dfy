/** The documents the server keeps in its four collections, and the foreign libraries
    (bcrypt, jsonwebtoken) it calls, reduced to oracles. */
module Model {
  import opened Wrappers

  /** A document id. The store issues MongoDB ObjectIds; tokens and request bodies carry
      them as text. The model only ever compares ids for equality. */
  datatype Id = Id(n: nat)

  /** The `new Date()` value stamped on a document when it is written. Never inspected. */
  type Time = int

  /** The claims a signed token carries: `{ userId, username }`. */
  datatype Claims = Claims(userId: Id, username: string)

  /** A document of the `Users` collection. `password` holds the bcrypt digest. `bio` and
      `profilePicture` are set only by the profile edit; `posts`, `followers` and
      `followings` are read by the profile summary but never written by this server. */
  datatype User = User(
    id: Id,
    firstName: string,
    lastName: string,
    username: string,
    email: string,
    password: string,
    bio: Option<string>,
    profilePicture: Option<string>,
    posts: Option<seq<Id>>,
    followers: Option<seq<Id>>,
    followings: Option<seq<Id>>)

  /** A document of the `Contents` collection. */
  datatype Post = Post(id: Id, username: string, content: string, image: seq<string>, createdAt: Time)

  /** A document of the `UserLikesNComments` collection. The comment route validates
      nothing, so author and text may be missing. */
  datatype Comment = Comment(
    id: Id,
    postId: Id,
    username: Option<string>,
    commentText: Option<string>,
    createdAt: Time)

  /** A document of the `Follows` collection: `followerId` follows `followedId`. */
  datatype Follow = Follow(id: Id, followerId: Id, followedId: Id, createdAt: Time)

  /** The four collections, each in natural (insertion) order. */
  datatype Store = Store(users: seq<User>, contents: seq<Post>, comments: seq<Comment>, follows: seq<Follow>)

  /** The token lifetimes passed to `jwt.sign`, in seconds: '1h' at registration, '1d' at login. */
  const RegistrationTokenTtl: nat := 3600
  const LoginTokenTtl: nat := 86400

  /** bcrypt and jsonwebtoken as oracles: `hash` is `bcrypt.hash(p, 10)`, `sign(c, ttl)` is
      `jwt.sign(c, SECRET_KEY, { expiresIn: ttl })`, and `verify(t)` is `jwt.verify(t, SECRET_KEY)`,
      None standing for the error callback (bad signature, malformed, expired). */
  datatype Crypto = Crypto(
    hash: string -> string,
    sign: (Claims, nat) -> string,
    verify: string -> Option<Claims>)

  /** `bcrypt.compare(password, digest)`. */
  predicate Compare(crypto: Crypto, password: string, digest: string) {
    digest == crypto.hash(password)
  }

  /** The index of the first element satisfying `p`: what `findOne`, `updateOne` and
      `deleteOne` select in a collection scanned in natural order. */
  function FirstWhere<T>(s: seq<T>, p: T -> bool): (r: Option<nat>)
    ensures r.Some? ==> r.value < |s| && p(s[r.value])
    ensures r.Some? ==> forall k :: 0 <= k < r.value ==> !p(s[k])
    ensures r.None? <==> forall k :: 0 <= k < |s| ==> !p(s[k])
  {
    if |s| == 0 then None
    else if p(s[0]) then Some(0)
    else
      match FirstWhere(s[1..], p)
      case None => None
      case Some(k) => Some(k + 1)
  }
}
