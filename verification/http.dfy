/** The JSON answers of the route handlers, and the (store, reply) pair every handler returns. */
module Http {
  import opened Wrappers
  import opened Model

  /** One stored post joined with its comments, as listed by `GET /contents`. */
  datatype FeedEntry = FeedEntry(post: Post, comments: seq<Comment>)

  /** The public profile answered by `GET /users/:username`. */
  datatype Summary = Summary(
    username: string,
    name: string,
    postsCount: nat,
    followersCount: nat,
    followingsCount: nat,
    bio: string,
    posts: seq<Id>)

  /** The JSON bodies, one constructor per shape the server sends. */
  datatype Body =
    | Error(error: string)                                  // { error }
    | Message(message: string)                              // { message }
    | Registered(message: string, token: string, redirect: string)
    | LoggedIn(message: string, token: string, firstName: string, lastName: string)
    | NotLoggedIn                                           // { isLoggedIn: false }
    | LoggedInAs(userId: Id, username: string)              // { isLoggedIn: true, userId, username }
    | PostCreated(post: Post)                               // { success: true, post }
    | CommentCreated(message: string, comment: Comment)
    | Feed(entries: seq<FeedEntry>)
    | Profile(summary: Summary)                             // { success: true, ... }
    | Uncaught    // the handler threw outside its try block; the framework answers

  datatype Reply = Reply(status: nat, body: Body)

  /** The store after a request, and the reply sent. */
  datatype Outcome = Outcome(store: Store, reply: Reply)

  /** What `authenticateToken` answers when the bearer token does not verify. */
  const Forbidden := Reply(403, Error("Invalid or expired token."))
}
