/** The follow relation: `POST /follow` and `DELETE /follow` over the `Follows` collection. */
module Follows {
  import opened Wrappers
  import opened Model
  import opened Http
  import opened Auth

  /** The (follower, followed) pair a follow document records. */
  function Pair(f: Follow): (Id, Id) {
    (f.followerId, f.followedId)
  }

  /** The follow relation the collection stands for. */
  function Pairs(fs: seq<Follow>): set<(Id, Id)> {
    set f | f in fs :: Pair(f)
  }

  /** No pair is recorded twice (the duplicate check keeps it so for sequential requests). */
  predicate NoDuplicatePairs(fs: seq<Follow>) {
    forall i, j :: 0 <= i < j < |fs| ==> Pair(fs[i]) != Pair(fs[j])
  }

  const FollowedIdRequired := "followedId is required."
  const AlreadyFollowing := "You are already following this user."
  const FollowedMessage := "Successfully followed the user."
  const NotFollowing := "You are not following this user."
  const UnfollowedMessage := "Successfully unfollowed the user."
  const InternalError := "Internal server error"

  /** `POST /follow`. The body check comes before the token is used; without a token,
      `req.user.userId` throws inside the try block and the handler answers 500. */
  function FollowUser(st: Store, auth: AuthResult, followedId: Option<Id>, now: Time, newId: Id): (out: Outcome)
    ensures out.reply.status in {201, 400, 403, 500}
    ensures out.reply.status != 201 ==> out.store == st
    ensures out.reply.status == 403 <==> auth.Rejected?
    ensures out.reply.status == 403 ==> out.reply == Forbidden
    ensures out.reply == Reply(400, Error(FollowedIdRequired)) <==> !auth.Rejected? && followedId.None?
    ensures out.reply.status == 500 <==> auth.Anonymous? && followedId.Some?
    ensures out.reply.status == 500 ==> out.reply.body == Error(InternalError)
    ensures out.reply == Reply(400, Error(AlreadyFollowing)) <==>
      auth.Authenticated? && followedId.Some? && (auth.claims.userId, followedId.value) in Pairs(st.follows)
    ensures out.reply.status == 201 ==>
      && auth.Authenticated? && followedId.Some?
      && (auth.claims.userId, followedId.value) !in Pairs(st.follows)
      && out.reply.body == Message(FollowedMessage)
      && out.store == st.(follows := st.follows + [Follow(newId, auth.claims.userId, followedId.value, now)])
    ensures auth.Authenticated? && followedId.Some? && (auth.claims.userId, followedId.value) !in Pairs(st.follows)
      ==> out.reply.status == 201
  {
    if auth.Rejected? then Outcome(st, Forbidden)
    else if followedId.None? then Outcome(st, Reply(400, Error(FollowedIdRequired)))
    else if auth.Anonymous? then Outcome(st, Reply(500, Error(InternalError)))
    else
      var follower, followed := auth.claims.userId, followedId.value;
      if (follower, followed) in Pairs(st.follows) then Outcome(st, Reply(400, Error(AlreadyFollowing)))
      else
        var doc := Follow(newId, follower, followed, now);
        Outcome(st.(follows := st.follows + [doc]), Reply(201, Message(FollowedMessage)))
  }

  /** `deleteOne({ followerId, followedId })`: drops the first document recording the pair. */
  function DeleteFirst(fs: seq<Follow>, pair: (Id, Id)): (r: Option<seq<Follow>>)
    ensures r.None? <==> pair !in Pairs(fs)
    ensures r.Some? ==> exists k :: 0 <= k < |fs| && Pair(fs[k]) == pair
                          && (forall j :: 0 <= j < k ==> Pair(fs[j]) != pair)
                          && r.value == fs[..k] + fs[k + 1..]
  {
    match FirstWhere(fs, (f: Follow) => Pair(f) == pair)
    case None =>
      assert pair !in Pairs(fs);
      None
    case Some(k) =>
      assert Pair(fs[k]) in Pairs(fs);
      Some(fs[..k] + fs[k + 1..])
  }

  /** `DELETE /follow`. */
  function UnfollowUser(st: Store, auth: AuthResult, followedId: Option<Id>): (out: Outcome)
    ensures out.reply.status in {200, 400, 403, 500}
    ensures out.reply.status != 200 ==> out.store == st
    ensures out.reply.status == 403 <==> auth.Rejected?
    ensures out.reply.status == 403 ==> out.reply == Forbidden
    ensures out.reply == Reply(400, Error(FollowedIdRequired)) <==> !auth.Rejected? && followedId.None?
    ensures out.reply.status == 500 <==> auth.Anonymous? && followedId.Some?
    ensures out.reply.status == 500 ==> out.reply.body == Error(InternalError)
    ensures out.reply == Reply(400, Error(NotFollowing)) <==>
      auth.Authenticated? && followedId.Some? && (auth.claims.userId, followedId.value) !in Pairs(st.follows)
    ensures out.reply.status == 200 ==>
      && auth.Authenticated? && followedId.Some?
      && (auth.claims.userId, followedId.value) in Pairs(st.follows)
      && out.reply.body == Message(UnfollowedMessage)
      && out.store == st.(follows := out.store.follows)
      && exists k :: 0 <= k < |st.follows| && Pair(st.follows[k]) == (auth.claims.userId, followedId.value)
                     && out.store.follows == st.follows[..k] + st.follows[k + 1..]
    ensures auth.Authenticated? && followedId.Some? && (auth.claims.userId, followedId.value) in Pairs(st.follows)
      ==> out.reply.status == 200
  {
    if auth.Rejected? then Outcome(st, Forbidden)
    else if followedId.None? then Outcome(st, Reply(400, Error(FollowedIdRequired)))
    else if auth.Anonymous? then Outcome(st, Reply(500, Error(InternalError)))
    else
      match DeleteFirst(st.follows, (auth.claims.userId, followedId.value))
      case None => Outcome(st, Reply(400, Error(NotFollowing)))
      case Some(rest) => Outcome(st.(follows := rest), Reply(200, Message(UnfollowedMessage)))
  }

  /** Removing one element of a duplicate-free sequence removes exactly its pair. */
  lemma {:induction false} DeleteAtPairs(fs: seq<Follow>, k: nat)
    requires k < |fs| && NoDuplicatePairs(fs)
    ensures NoDuplicatePairs(fs[..k] + fs[k + 1..])
    ensures Pairs(fs[..k] + fs[k + 1..]) == Pairs(fs) - {Pair(fs[k])}
  {
    var rest := fs[..k] + fs[k + 1..];
    assert forall j :: 0 <= j < |rest| ==> rest[j] == fs[if j < k then j else j + 1];
    forall p | p in Pairs(rest)
      ensures p in Pairs(fs) - {Pair(fs[k])}
    {
      var f :| f in rest && Pair(f) == p;
      var j :| 0 <= j < |rest| && rest[j] == f;
    }
    forall p | p in Pairs(fs) - {Pair(fs[k])}
      ensures p in Pairs(rest)
    {
      var f :| f in fs && Pair(f) == p;
      var i :| 0 <= i < |fs| && fs[i] == f;
      assert i != k;
      assert rest[if i < k then i else i - 1] == f;
    }
  }

  /** A successful unfollow removes exactly that pair from the relation, and the collection
      stays free of duplicates. */
  lemma UnfollowRemovesPair(st: Store, auth: AuthResult, followedId: Option<Id>)
    requires NoDuplicatePairs(st.follows)
    requires UnfollowUser(st, auth, followedId).reply.status == 200
    ensures var fs' := UnfollowUser(st, auth, followedId).store.follows;
      && NoDuplicatePairs(fs')
      && Pairs(fs') == Pairs(st.follows) - {(auth.claims.userId, followedId.value)}
  {
    var pair := (auth.claims.userId, followedId.value);
    var k :| 0 <= k < |st.follows| && Pair(st.follows[k]) == pair
             && (forall j :: 0 <= j < k ==> Pair(st.follows[j]) != pair)
             && DeleteFirst(st.follows, pair).value == st.follows[..k] + st.follows[k + 1..];
    DeleteAtPairs(st.follows, k);
  }

  /** A successful follow adds exactly that pair to the relation, and the collection stays
      free of duplicates. */
  lemma FollowAddsPair(st: Store, auth: AuthResult, followedId: Option<Id>, now: Time, newId: Id)
    requires NoDuplicatePairs(st.follows)
    requires FollowUser(st, auth, followedId, now, newId).reply.status == 201
    ensures var fs' := FollowUser(st, auth, followedId, now, newId).store.follows;
      && NoDuplicatePairs(fs')
      && Pairs(fs') == Pairs(st.follows) + {(auth.claims.userId, followedId.value)}
  {
    var fs := st.follows;
    var fs' := FollowUser(st, auth, followedId, now, newId).store.follows;
    var pair := (auth.claims.userId, followedId.value);
    assert fs' == fs + [fs'[|fs|]];
    forall i | 0 <= i < |fs|
      ensures Pair(fs[i]) != pair
    {
      assert fs[i] in fs;
    }
    assert forall f :: f in fs' <==> f in fs || f == fs'[|fs|];
    assert Pair(fs'[|fs|]) == pair;
    forall p | p in Pairs(fs) + {pair}
      ensures p in Pairs(fs')
    {
      if p != pair {
        var f :| f in fs && Pair(f) == p;
        assert f in fs';
      }
    }
  }

  /** Following the same user twice: the second request is refused and changes nothing. */
  lemma FollowTwiceRefused(st: Store, auth: AuthResult, followed: Id, now: Time, newId: Id, now2: Time, newId2: Id)
    requires FollowUser(st, auth, Some(followed), now, newId).reply.status == 201
    ensures var st' := FollowUser(st, auth, Some(followed), now, newId).store;
      FollowUser(st', auth, Some(followed), now2, newId2) == Outcome(st', Reply(400, Error(AlreadyFollowing)))
  {
    var st' := FollowUser(st, auth, Some(followed), now, newId).store;
    var doc := st'.follows[|st.follows|];
    assert doc in st'.follows;
    assert Pair(doc) == (auth.claims.userId, followed);
  }

  /** Follow and then unfollow a pair not yet recorded: the store is back where it started. */
  lemma FollowThenUnfollow(st: Store, auth: AuthResult, followed: Id, now: Time, newId: Id)
    requires FollowUser(st, auth, Some(followed), now, newId).reply.status == 201
    ensures var st' := FollowUser(st, auth, Some(followed), now, newId).store;
      UnfollowUser(st', auth, Some(followed)) == Outcome(st, Reply(200, Message(UnfollowedMessage)))
  {
    var fs := st.follows;
    var st' := FollowUser(st, auth, Some(followed), now, newId).store;
    var pair := (auth.claims.userId, followed);
    var doc := st'.follows[|fs|];
    assert doc in st'.follows;
    forall i | 0 <= i < |fs|
      ensures Pair(fs[i]) != pair
    {
      assert fs[i] in fs;
    }
    var k :| 0 <= k < |st'.follows| && Pair(st'.follows[k]) == pair
             && (forall j :: 0 <= j < k ==> Pair(st'.follows[j]) != pair)
             && DeleteFirst(st'.follows, pair).value == st'.follows[..k] + st'.follows[k + 1..];
    assert k == |fs|;
    assert st'.follows[..k] == fs;
  }
}
