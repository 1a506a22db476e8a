/** The post and vote endpoints as one store: the post table, the vote table
    and the post table's id sequence, with one member per handler. The caller
    is an explicit parameter, already resolved from the request's credential. */
module Endpoints {
  import opened Domain
  import opened Listing
  import opened Voting

  class Store {
    /** The post table, keyed by post id. */
    var posts: map<int, Post>
    /** The vote table: one row per (post id, user id). */
    var votes: set<VoteRow>
    /** The post table's id sequence: above every id it has issued. */
    var nextId: int

    /** Each post is stored under its own id; every id issued so far, and so
        every id a vote row names, lies below the sequence. */
    ghost predicate Valid()
      reads this
    {
      && (forall id :: id in posts ==> posts[id].id == id && id < nextId)
      && (forall v :: v in votes ==> v.0 < nextId)
    }

    /** An empty store. */
    constructor ()
      ensures Valid()
      ensures posts == map[] && votes == {} && nextId == 1
    {
      posts := map[];
      votes := {};
      nextId := 1;
    }

    /** get_posts: the posts whose title contains `search`, skipping the first
        `skip` of them in the store's order `scan` and returning at most
        `limit`, each with its vote count. */
    function GetPosts(scan: seq<int>, limit: nat := 10, skip: nat := 0, search: string := "")
      : (r: seq<PostOut>)
      reads this
      requires Valid() && ScanOrder(scan, posts)
      // As many rows as the matching posts left after the offset, capped.
      ensures var m := |MatchingIds(posts, search)|;
        |r| == Min(limit, if skip <= m then m - skip else 0)
      // Every row is a stored post that matches, with its vote count.
      ensures forall i :: 0 <= i < |r| ==>
        && r[i].post.id in posts
        && posts[r[i].post.id] == r[i].post
        && Contains(r[i].post.title, search)
        && r[i].votes == VoteCount(votes, r[i].post.id)
      // No post is listed twice.
      ensures forall i, j :: 0 <= i < j < |r| ==> r[i].post.id != r[j].post.id
    {
      var matching := Matching(scan, posts, search);
      MatchingCount(scan, posts, search);
      var ids := Page(matching, skip, limit);
      assert forall i :: 0 <= i < |ids| ==> ids[i] in matching;
      JoinVotes(ids, posts, votes)
    }

    /** get_post: the post with id `id` and its vote count, or NotFound. */
    function GetPost(id: int): (o: Outcome<PostOut>)
      reads this
      ensures o.NotFound? <==> id !in posts
      ensures o.Ok? ==> && o.status == StatusOk
                        && o.value == PostOut(posts[id], VoteCount(votes, id))
      ensures Valid() && o.Ok? ==> o.value.post.id == id
      ensures o.Ok? || o.NotFound?
    {
      if id in posts then Ok(StatusOk, PostOut(posts[id], VoteCount(votes, id)))
      else NotFound
    }

    /** create_posts: inserts a post owned by the caller, with the input's
        fields, under a fresh id from the sequence. */
    method CreatePost(callerId: int, input: PostCreate) returns (o: Outcome<Post>)
      requires Valid()
      modifies this
      ensures Valid()
      ensures o.Ok? && o.status == StatusCreated
      ensures o.value.id !in old(posts)
      ensures o.value == Post(o.value.id, callerId, input.title, input.content, input.published)
      ensures posts == old(posts)[o.value.id := o.value]
      ensures votes == old(votes)
      ensures VoteCount(votes, o.value.id) == 0
      ensures nextId == old(nextId) + 1
    {
      var id := nextId;
      var post := Post(id, callerId, input.title, input.content, input.published);
      posts := posts[id := post];
      nextId := nextId + 1;
      VoteCountZero(votes, id);
      o := Ok(StatusCreated, post);
    }

    /** delete_post: NotFound for a missing post, Forbidden for a post the
        caller does not own, otherwise removes that one post (its vote rows
        stay). */
    method DeletePost(callerId: int, id: int) returns (o: Outcome<()>)
      requires Valid()
      modifies this
      ensures Valid()
      ensures id !in old(posts) ==> o == NotFound
      ensures id in old(posts) && old(posts)[id].ownerId != callerId ==> o == Forbidden
      ensures id in old(posts) && old(posts)[id].ownerId == callerId ==> o == Ok(StatusNoContent, ())
      ensures o.Ok? ==> posts == old(posts) - {id}
      ensures !o.Ok? ==> posts == old(posts)
      // Restated for callers: every other post is still there, unchanged.
      ensures forall k :: k != id ==> (k in posts <==> k in old(posts))
      ensures forall k :: k != id && k in posts ==> posts[k] == old(posts)[k]
      ensures votes == old(votes) && nextId == old(nextId)
      ensures o.Code() in {StatusNoContent, StatusNotFound, StatusForbidden}
    {
      if id !in posts {
        return NotFound;
      }
      var post := posts[id];
      if post.ownerId != callerId {
        return Forbidden;
      }
      posts := posts - {id};
      o := Ok(StatusNoContent, ());
    }

    /** update_post: NotFound for a missing post, Forbidden for a post the
        caller does not own, otherwise overwrites that post's title, content
        and published flag, keeping its id and owner, and returns it. */
    method UpdatePost(callerId: int, id: int, input: PostCreate) returns (o: Outcome<Post>)
      requires Valid()
      modifies this
      ensures Valid()
      ensures id !in old(posts) ==> o == NotFound
      ensures id in old(posts) && old(posts)[id].ownerId != callerId ==> o == Forbidden
      ensures id in old(posts) && old(posts)[id].ownerId == callerId ==>
        o == Ok(StatusOk, Post(id, callerId, input.title, input.content, input.published))
      ensures o.Ok? ==> posts == old(posts)[id := o.value]
      ensures !o.Ok? ==> posts == old(posts)
      ensures posts.Keys == old(posts).Keys
      ensures forall k :: k in posts ==> posts[k].ownerId == old(posts)[k].ownerId
      ensures forall k :: k != id && k in posts ==> posts[k] == old(posts)[k]
      ensures votes == old(votes) && nextId == old(nextId)
      ensures o.Code() in {StatusOk, StatusNotFound, StatusForbidden}
    {
      if id !in posts {
        return NotFound;
      }
      var post := posts[id];
      if post.ownerId != callerId {
        return Forbidden;
      }
      var updated := post.(title := input.title, content := input.content, published := input.published);
      posts := posts[id := updated];
      o := Ok(StatusOk, posts[id]);
    }

    /** vote: the add/remove toggle of the caller's vote on `postId`. */
    method Vote(callerId: int, postId: int, dir: int) returns (o: Outcome<VoteMessage>)
      requires Valid()
      modifies this
      ensures Valid()
      ensures (o, votes) == Toggle(old(posts), old(votes), postId, callerId, dir)
      ensures posts == old(posts) && nextId == old(nextId)
    {
      if postId !in posts {
        return NotFound;
      }
      var found := (postId, callerId) in votes;
      if dir == 1 {
        if found {
          return Conflict;
        }
        votes := votes + {(postId, callerId)};
        o := Ok(StatusCreated, Added);
      } else {
        if !found {
          return NotFound;
        }
        votes := votes - {(postId, callerId)};
        o := Ok(StatusCreated, Removed);
      }
    }
  }

  /** A sample session: a post is created, voted on, voted on again, its vote
      removed, and the post deleted by a stranger and by its owner. */
  method Scenario() {
    var s := new Store();
    var created := s.CreatePost(1, PostCreate("Hello", "World", true));
    var id := created.value.id;
    assert s.GetPost(id) == Ok(StatusOk, PostOut(created.value, 0));

    var v := s.Vote(2, id, 1);
    assert v == Ok(StatusCreated, Added);
    ToggleCount(map[id := created.value], {}, id, 2, 1);
    assert s.GetPost(id).value.votes == 1;

    v := s.Vote(2, id, 1);
    assert v == Conflict;
    assert s.GetPost(id).value.votes == 1;

    v := s.Vote(2, id, 0);
    assert v == Ok(StatusCreated, Removed);
    assert s.votes == {};
    assert s.GetPost(id).value.votes == 0;
    v := s.Vote(2, id, 0);
    assert v == NotFound;

    var d := s.DeletePost(2, id);
    assert d == Forbidden;
    d := s.DeletePost(1, id);
    assert d == Ok(StatusNoContent, ());
    assert s.GetPost(id) == NotFound;
  }
}
