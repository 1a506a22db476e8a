/** The vote handler as a transition on the vote table. For each (post, user)
    pair there are two states, Voted (the row exists) and NotVoted; `dir == 1`
    asks to move NotVoted -> Voted and any other `dir` asks to move
    Voted -> NotVoted. A request from the wrong state, or on a missing post, is
    refused and writes nothing. */
module Voting {
  import opened Domain

  /** The body of a successful vote response. */
  datatype VoteMessage = Added | Removed

  /** Whether `userId` has voted on `postId`. */
  predicate Voted(votes: set<VoteRow>, postId: int, userId: int) {
    (postId, userId) in votes
  }

  /** The outcome of a vote request and the vote table it leaves behind. */
  function Toggle(posts: map<int, Post>, votes: set<VoteRow>, postId: int, userId: int, dir: int)
    : (r: (Outcome<VoteMessage>, set<VoteRow>))
    // It succeeds exactly when the post exists and the request moves the
    // caller's pair out of its current state.
    ensures r.0.Ok? <==> postId in posts && (dir == 1 <==> !Voted(votes, postId, userId))
    // After a success the caller is Voted exactly when it asked for dir == 1.
    ensures r.0.Ok? ==> (Voted(r.1, postId, userId) <==> dir == 1)
    // A refusal writes nothing.
    ensures !r.0.Ok? ==> r.1 == votes
    // No other user's vote and no vote on another post is touched.
    ensures forall v :: v != (postId, userId) ==> (v in r.1 <==> v in votes)
  {
    if postId !in posts then (NotFound, votes)
    else if dir == 1 then
      if (postId, userId) in votes then (Conflict, votes)
      else (Ok(StatusCreated, Added), votes + {(postId, userId)})
    else if (postId, userId) !in votes then (NotFound, votes)
    else (Ok(StatusCreated, Removed), votes - {(postId, userId)})
  }

  /** Which refusal each failing request gets: a missing post is NotFound
      before the vote is looked at; adding twice is Conflict; removing a vote
      that is not there is NotFound. Successes answer 201, so the endpoint
      answers only 201, 409 or 404. */
  lemma ToggleOutcomes(posts: map<int, Post>, votes: set<VoteRow>, postId: int, userId: int, dir: int)
    ensures var o := Toggle(posts, votes, postId, userId, dir).0;
      && (postId !in posts ==> o == NotFound)
      && (postId in posts && dir == 1 && Voted(votes, postId, userId) ==> o == Conflict)
      && (postId in posts && dir == 1 && !Voted(votes, postId, userId) ==> o == Ok(StatusCreated, Added))
      && (postId in posts && dir != 1 && !Voted(votes, postId, userId) ==> o == NotFound)
      && (postId in posts && dir != 1 && Voted(votes, postId, userId) ==> o == Ok(StatusCreated, Removed))
      && o.Code() in {StatusCreated, StatusConflict, StatusNotFound}
  {
  }

  /** A successful add followed by a successful remove of the same pair
      restores the vote table, and with it every vote count. */
  lemma AddThenRemove(posts: map<int, Post>, votes: set<VoteRow>, postId: int, userId: int, down: int)
    requires down != 1
    requires Toggle(posts, votes, postId, userId, 1).0.Ok?
    ensures var after := Toggle(posts, votes, postId, userId, 1).1;
      && Toggle(posts, after, postId, userId, down) == (Ok(StatusCreated, Removed), votes)
      && forall p :: VoteCount(Toggle(posts, after, postId, userId, down).1, p) == VoteCount(votes, p)
  {
  }

  /** A successful add raises the post's vote count by one; a successful
      remove lowers it by one; other posts keep their counts. */
  lemma ToggleCount(posts: map<int, Post>, votes: set<VoteRow>, postId: int, userId: int, dir: int)
    requires Toggle(posts, votes, postId, userId, dir).0.Ok?
    ensures var after := Toggle(posts, votes, postId, userId, dir).1;
      && (dir == 1 ==> VoteCount(after, postId) == VoteCount(votes, postId) + 1)
      && (dir != 1 ==> VoteCount(after, postId) + 1 == VoteCount(votes, postId))
      && forall q :: q != postId ==> VoteCount(after, q) == VoteCount(votes, q)
  {
    if dir == 1 {
      VoteCountInsert(votes, (postId, userId));
    } else {
      VoteCountDelete(votes, (postId, userId));
    }
  }
}
