/** The content routes: creating a post, commenting on one, and the feed that joins every
    post with its comments. */
module Contents {
  import opened Wrappers
  import opened Model
  import opened Http
  import opened Validation

  // ===================== POST /contents =====================

  /** The `image` field of the body: a JSON array of data URIs, or anything that is not an
      array (missing, a string, an object, ...), which `Array.isArray` rejects. */
  datatype ImageField = NotAnArray | Images(uris: seq<string>)

  datatype NewPost = NewPost(username: Option<string>, content: Option<string>, image: ImageField)

  const InvalidInput := "Invalid input data"

  /** What the route accepts: a truthy author, truthy text, and an image array (possibly
      empty). A post with images but no text is refused. */
  predicate AcceptablePost(req: NewPost) {
    Truthy(req.username) && Truthy(req.content) && req.image.Images?
  }

  /** `now` is the `new Date()` of the request and `newId` the `_id` the insert assigns. */
  function CreatePost(st: Store, req: NewPost, now: Time, newId: Id): (out: Outcome)
    ensures out.reply.status in {200, 400}
    ensures out.reply.status == 400 <==> !AcceptablePost(req)
    ensures out.reply.status == 400 ==> out.store == st && out.reply.body == Error(InvalidInput)
    ensures out.reply.status == 200 ==>
      && out.store.users == st.users && out.store.comments == st.comments
      && out.store.follows == st.follows
      && |out.store.contents| == |st.contents| + 1
      && out.store.contents[..|st.contents|] == st.contents
      && var p := out.store.contents[|st.contents|];
         && p == Post(newId, req.username.value, req.content.value, req.image.uris, now)
         && out.reply.body == PostCreated(p)
  {
    if !AcceptablePost(req) then Outcome(st, Reply(400, Error(InvalidInput)))
    else
      var post := Post(newId, req.username.value, req.content.value, req.image.uris, now);
      Outcome(st.(contents := st.contents + [post]), Reply(200, PostCreated(post)))
  }

  // ===================== POST /contents/:postId/comments =====================

  datatype NewComment = NewComment(username: Option<string>, commentText: Option<string>)

  const CommentMessage := "Comment created successfully"

  /** Stores the comment under the path's `postId` as given: nothing checks that such a post
      exists, nor that author or text were sent. */
  function AddComment(st: Store, postId: Id, req: NewComment, now: Time, newId: Id): (out: Outcome)
    ensures out.reply.status == 201
    ensures out.store == st.(comments := out.store.comments)
    ensures |out.store.comments| == |st.comments| + 1
    ensures out.store.comments[..|st.comments|] == st.comments
    ensures out.store.comments[|st.comments|] == Comment(newId, postId, req.username, req.commentText, now)
    ensures out.reply.body == CommentCreated(CommentMessage, out.store.comments[|st.comments|])
  {
    var comment := Comment(newId, postId, req.username, req.commentText, now);
    Outcome(st.(comments := st.comments + [comment]), Reply(201, CommentCreated(CommentMessage, comment)))
  }

  // ===================== GET /contents =====================

  /** `find({ postId: id })` over the comments: those whose `postId` is `id`, in stored order. */
  function CommentsFor(cs: seq<Comment>, id: Id): (r: seq<Comment>)
    ensures |r| <= |cs|
    ensures forall c :: c in r <==> c in cs && c.postId == id
  {
    if |cs| == 0 then []
    else
      var rest := CommentsFor(cs[1..], id);
      assert forall c :: c in cs <==> c == cs[0] || c in cs[1..];
      if cs[0].postId == id then [cs[0]] + rest else rest
  }

  /** Appending a comment extends the list of exactly the post it names, at the end. */
  lemma {:induction false} CommentsForAppend(cs: seq<Comment>, c: Comment, id: Id)
    ensures CommentsFor(cs + [c], id) == CommentsFor(cs, id) + (if c.postId == id then [c] else [])
  {
    if |cs| == 0 {
      assert cs + [c] == [c];
      assert [c][1..] == [];
    } else {
      assert (cs + [c])[1..] == cs[1..] + [c];
      CommentsForAppend(cs[1..], c, id);
    }
  }

  /** A post no stored comment names has no comments. */
  lemma {:induction false} CommentsForNone(cs: seq<Comment>, id: Id)
    requires forall c :: c in cs ==> c.postId != id
    ensures CommentsFor(cs, id) == []
  {
    if |cs| > 0 {
      assert cs[0] in cs;
      assert forall c :: c in cs[1..] ==> c in cs;
      CommentsForNone(cs[1..], id);
    }
  }

  /** The loop of the route: each post, in stored order, joined with its comments. */
  function JoinComments(posts: seq<Post>, cs: seq<Comment>): (r: seq<FeedEntry>)
    ensures |r| == |posts|
    ensures forall i :: 0 <= i < |posts| ==> r[i].post == posts[i]
    ensures forall i :: 0 <= i < |posts| ==> r[i].comments == CommentsFor(cs, posts[i].id)
  {
    if |posts| == 0 then []
    else [FeedEntry(posts[0], CommentsFor(cs, posts[0].id))] + JoinComments(posts[1..], cs)
  }

  /** The feed lists every stored post in stored order; each entry carries exactly the stored
      comments naming that post. */
  function ListContents(st: Store): (r: Reply)
    ensures r.status == 200 && r.body.Feed?
    ensures |r.body.entries| == |st.contents|
    ensures forall i :: 0 <= i < |st.contents| ==> r.body.entries[i].post == st.contents[i]
    ensures forall i :: 0 <= i < |st.contents| ==>
      r.body.entries[i].comments == CommentsFor(st.comments, st.contents[i].id)
    ensures forall i, c :: 0 <= i < |st.contents| ==>
      (c in r.body.entries[i].comments <==> c in st.comments && c.postId == st.contents[i].id)
  {
    Reply(200, Feed(JoinComments(st.contents, st.comments)))
  }

  /** A new comment shows up at the end of the comments of every feed entry for its post,
      and nowhere else; the posts are listed as before. */
  lemma CommentThenFeed(st: Store, postId: Id, req: NewComment, now: Time, newId: Id)
    ensures var st' := AddComment(st, postId, req, now, newId).store;
      var before, after := ListContents(st).body.entries, ListContents(st').body.entries;
      && |after| == |before|
      && forall i :: 0 <= i < |before| ==>
           && after[i].post == before[i].post
           && after[i].comments == before[i].comments +
                (if before[i].post.id == postId then [st'.comments[|st.comments|]] else [])
  {
    var st' := AddComment(st, postId, req, now, newId).store;
    assert st'.comments == st.comments + [st'.comments[|st.comments|]];
    forall i | 0 <= i < |st.contents| {
      CommentsForAppend(st.comments, st'.comments[|st.comments|], st.contents[i].id);
    }
  }

  /** A new post is listed last, and it has no comments yet when no stored comment
      names its (fresh) id. */
  lemma PostThenFeed(st: Store, req: NewPost, now: Time, newId: Id)
    requires AcceptablePost(req)
    requires forall c :: c in st.comments ==> c.postId != newId
    ensures var out := CreatePost(st, req, now, newId);
      && ListContents(out.store).body.entries ==
           ListContents(st).body.entries + [FeedEntry(out.reply.body.post, [])]
  {
    var out := CreatePost(st, req, now, newId);
    var after := ListContents(out.store).body.entries;
    var before := ListContents(st).body.entries;
    CommentsForNone(st.comments, newId);
    assert |after| == |before| + 1;
    forall i | 0 <= i < |after|
      ensures after[i] == (before + [FeedEntry(out.reply.body.post, [])])[i]
    {
    }
  }
}
