# Social network server: request-handling core in Dafny

This project models the request handlers of the course social-network server
(`server.mjs`). The server is an Express application over four MongoDB collections:
`Users`, `Contents`, `UserLikesNComments` and `Follows`. Each handler is modelled as a pure
transition `Store × Request → Store × Reply`:

- the store is four sequences of immutable documents, in natural (insertion) order;
- `findOne`, `updateOne` and `deleteOne` select the first matching document;
- bcrypt and jsonwebtoken are oracles: `hash`, `sign` and `verify` are fields of a `Crypto`
  value, and `Compare(p, h)` holds exactly when `h == hash(p)`;
- every document id is one abstract `Id`, compared only for equality. The inserted
  document's id and the `new Date()` reading are parameters of each request (`Ctx`).

Files:

- `wrappers.dfy` holds `Option`.
- `model.dfy` holds the documents, the store, the crypto oracles and the first-match lookup.
- `http.dfy` holds the JSON reply shapes.
- `validation.dfy` holds JavaScript truthiness and the username and email regular expressions.
  The email expression is stated twice: once as the regular-expression match, once as a
  scan at the first `@`. A lemma proves the two agree in both directions.
- `auth.dfy` models the `Authorization: Bearer <token>` parsing (`split(' ')[1]`), the
  `authenticateToken` middleware, `GET /login` and `DELETE /login`.
- `users.dfy` models registration, login, profile edit and the public profile summary.
- `contents.dfy` models post creation, comment creation and the feed join.
- `follows.dfy` models follow and unfollow over the `Follows` collection, seen as a relation
  on (follower, followed) pairs.
- `server.dfy` holds the request dispatcher, with the middleware in front of the three
  protected routes. It also holds the store invariant that every request keeps: user ids,
  usernames and emails are unique, and no follow pair appears twice. Last come the
  properties that span several requests (register then login, register then profile,
  register twice, and others).

Three behaviours of the code that its client or its comments do not lead one to expect, all modelled as the code has them:

- The content route refuses a post with images but no text, because it checks `!content`.
  The client's own check (`Public/script.mjs:206`) accepts such a post.
- The profile edit without a token does not answer 403. It reads `req.user.userId` of an
  undefined `req.user` before its try block and throws. The model records this outcome as
  `Reply(500, Uncaught)`, which is what Express 5 answers through its default error handler.
  Express 4 does not catch the rejected promise. No `unhandledRejection` handler is
  registered, so on Node 15 and later the rejection ends the whole server process.
- Follow and unfollow without a token throw inside their try block. They answer 500, after
  the `followedId` check.

## Model

| member | source | states |
|---|---|---|
| Model.FirstWhere | server.mjs:100-102 | The document a `findOne` returns: the first one satisfying the filter, and none when no document does. |
| Validation.IsEmailMatchesPattern | server.mjs:80 | The scanning email check accepts a string exactly when `/^[^\s@]+@[^\s@]+\.[^\s@]+$/` matches it. |
| Validation.IsEmailSound | server.mjs:80 | Every address the scanning check accepts is matched by the email regular expression. |
| Validation.IsEmailComplete | server.mjs:80 | Every address the email regular expression matches passes the scanning check. |
| Validation.EmailHasOneAt | server.mjs:80 | An accepted address contains exactly one `@`. |
| Auth.SecondField | server.mjs:38 | `split(' ')[1]` exists exactly when the header has a space. It is the text that follows the first space and runs up to the next space or the end. |
| Auth.TokenOf | server.mjs:38-41 | The token is the header's second space-separated field. There is no token exactly when the header is missing, or that field is missing or empty. |
| Auth.TokenOfBearer | server.mjs:38 | Reading the token back out of `<scheme> <token>` gives that token. |
| Auth.Authenticate | server.mjs:37-52 | The middleware passes with no user when there is no token, rejects when the token does not verify, and otherwise attaches the verified claims. |
| Auth.SessionStatus | server.mjs:234-253 | `GET /login` always answers 200. It reports a session exactly when the middleware would authenticate the same header, and it carries those claims. |
| Auth.SessionOfSignedToken | server.mjs:241-251 | A token the server signed, sent back as a bearer token, is a live session for exactly the claims it was signed with. |
| Users.Register | server.mjs:70-137 | Registration gives 400 with three distinct messages and stores nothing: a missing field, a username that `Validation.IsUsername` (the pattern `/^[a-zA-Z0-9_.-]+$/` of lines 79 and 83) rejects, or a bad email. It gives 409 when a stored user has the username or the email, with "Username already exists." exactly when the first such user has the username; nothing is stored. Otherwise it appends one user whose digest matches the password and answers 201 with only message, token and redirect. |
| Users.Login | server.mjs:196-225 | Login gives 400 when a field is missing. It gives one identical 401 for an unknown user and for a wrong password. On 200 it answers with the first matching user's names and a one-day token. The store never changes. |
| Users.ApplyEdit | server.mjs:152-163 | A profile edit replaces a field exactly when the submitted value is truthy; every other field, including the id, username, email and digest, keeps its value. |
| Users.EditProfile | server.mjs:145-188 | The edit gives 403 for a bad token and 500 for no token. It gives 404 when no user has the token's id, and nothing changes on any of these. Each outcome has its own reply body. On 200 exactly one user (the first with that id) is edited, and all other users and collections are unchanged. |
| Users.GetProfile | server.mjs:353-386 | The profile gives 404 for an unknown username. Otherwise the name is `firstName + " " + lastName`, each count is the list length or 0 when the list is absent, the bio defaults to "No bio available", and posts default to the empty list. |
| Contents.CreatePost | server.mjs:262-293 | Post creation gives 400 and stores nothing unless author and text are truthy and `image` is an array. Otherwise it appends one post with exactly those fields and returns it. |
| Contents.AddComment | server.mjs:301-320 | Commenting appends one comment under the given post id, unchecked, and changes nothing else. |
| Contents.CommentsFor | server.mjs:340 | A post's comment list holds exactly the stored comments whose `postId` is that post's id. |
| Contents.CommentsForAppend | server.mjs:340 | A newly stored comment joins the end of the list of the post it names and no other, so lists keep stored order. |
| Contents.CommentsForNone | server.mjs:340 | A post that no stored comment names has an empty comment list. |
| Contents.JoinComments | server.mjs:336-342 | The join keeps every post, in order, each paired with its own comments. |
| Contents.ListContents | server.mjs:329-344 | The feed answers 200 with every stored post in stored order. Each post carries exactly the comments whose `postId` matches, as the ordered list `CommentsFor` gives. |
| Contents.CommentThenFeed | server.mjs:301-344 | After a comment is added, the feed lists the same posts, and only the named post's entries gain the comment, at the end. |
| Contents.PostThenFeed | server.mjs:262-344 | After a post is created, the feed is the old feed plus the new post, with no comments when its id is fresh. |
| Follows.FollowUser | server.mjs:458-493 | Follow gives 403 for a bad token, then 400 for a missing `followedId`, then 500 without a token, then 400 for an existing pair. A new pair from an authenticated caller is appended and answered with 201. Nothing changes except on 201. |
| Follows.DeleteFirst | server.mjs:515-518 | `deleteOne` finds nothing exactly when the pair is absent; otherwise it removes the first document recording the pair. |
| Follows.UnfollowUser | server.mjs:502-529 | Unfollow gives 403, 400 (missing id), 500 (no token), or 400 when the pair is absent. A recorded pair from an authenticated caller loses one document recording it, and the answer is 200. |
| Follows.DeleteAtPairs | server.mjs:515-518 | In a duplicate-free collection, deleting one document removes exactly its pair from the relation. |
| Follows.UnfollowRemovesPair | server.mjs:502-524 | A successful unfollow removes exactly the requested pair from the relation and keeps pairs unique. |
| Follows.FollowAddsPair | server.mjs:470-490 | A successful follow adds exactly the requested pair to the relation and keeps pairs unique. |
| Follows.FollowTwiceRefused | server.mjs:470-478 | Following the same user a second time answers 400 and changes nothing. |
| Follows.FollowThenUnfollow | server.mjs:458-524 | Following a pair not yet recorded and then unfollowing it restores the store exactly. |
| Server.Handle | server.mjs:145-529 | Read-only routes leave the store unchanged. `GET /login`, `DELETE /login` and `GET /contents` always answer 200, and `DELETE /login` (`Auth.Logout`, lines 256-258) answers "Logged out successfully". A 403 happens exactly on a protected route whose token fails verification, and then nothing changes. |
| Server.RegisterKeepsValid | server.mjs:99-123 | Registration with a fresh id keeps ids, usernames and emails unique. |
| Server.EditProfileKeepsValid | server.mjs:152-185 | A profile edit keeps ids, usernames and emails unique. |
| Server.HandleKeepsValid | server.mjs:70-529 | Every request keeps the store invariant: unique user ids, usernames and emails, and no duplicate follow pair. |
| Server.LoginSucceedsIffCredentialsMatch | server.mjs:206-210 | With unique usernames, login succeeds exactly when some user has the username and the password matches that user's digest. |
| Server.RegisterThenLogin | server.mjs:117-225 | A user who has just registered logs in with the same credentials, and the reply carries their names. |
| Server.RegisterTwiceConflicts | server.mjs:99-111 | Registering a taken username again answers 409, whatever the other (well-formed) fields are. |
| Server.RegisterThenSession | server.mjs:126-251 | The registration token, sent back as a bearer token, is a live session for the new user's id and username. |
| Server.RegisterThenProfile | server.mjs:117-386 | A new user's profile shows the full name, zero counts, the default bio and no posts. |
| Server.EditProfileIdempotent | server.mjs:152-185 | Sending the same profile edit twice leaves the store as sending it once. |

## Left out

- Database failures and the 500 answers of every catch block: the store is an in-memory value that cannot fail.
- `result.acknowledged` being false (server.mjs:289, 489): inserts are acknowledged under the default write concern.
- The comment route's reply (server.mjs:320) uses `result.ops[0]`, which depends on the driver. Recent drivers have no `ops`, so the route answers 500 after the comment is already stored. The model keeps the store effect and gives the older drivers' reply, 201 with the stored comment.
- The id representation. The token carries `userId` as text while `_id` is an ObjectId (server.mjs:178). The comment's `postId` is the text of the path parameter while the feed matches it against `post._id` (server.mjs:303, 340). With these mismatches the real store finds no user to edit and no comments for a post. The model treats every id as one abstract type, so it describes the intended matching.
- Request bodies whose fields are JSON values other than strings: text fields are strings or missing. Only `image` distinguishes an array from anything else.
- bcrypt and JWT internals: salt, the cost factor 10, signature, and the expiry check. These are the `Crypto` oracles. Token expiry is whatever `verify` answers at the time of the request.
- Decoding the base64 profile picture into `Binary` (server.mjs:162-163): the model stores the submitted text. `Buffer.from` does not throw on a string, so the 500 at server.mjs:166 is not modelled.
- An empty `$set` (no truthy field) at server.mjs:179 is modelled as MongoDB 5.0 and later treat it: a match without change. Older servers reject it with an error.
- User and content search (server.mjs:396-454, Routes/userRoutes.mjs:7-35) use MongoDB `$regex` on user input, and the content search reads fields that are never written.
- Routes/userComments.mjs: it is never imported.
- Route order and static files. In particular, `GET /users/search` is served by the search router, so the profile of a user named "search" cannot be fetched.
- db.mjs connection handling, socket.io, morgan logging, and the client script Public/script.mjs.
- Concurrency: check-then-act races between concurrent registrations or follows can break uniqueness in the real server. The model is sequential.
