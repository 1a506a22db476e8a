/** Records of the posts/votes domain, the handlers' outcomes, and the two
    derived quantities the read handlers report: a post's vote count and
    whether a title contains a search string. */
module Domain {

  /** A row of the post table. */
  datatype Post = Post(id: int, ownerId: int, title: string, content: string, published: bool)

  /** The request body accepted by create and update. */
  datatype PostCreate = PostCreate(title: string, content: string, published: bool)

  /** A post together with the number of votes cast on it. */
  datatype PostOut = PostOut(post: Post, votes: nat)

  /** A row of the vote table: (post id, user id). */
  type VoteRow = (int, int)

  const StatusOk: nat := 200
  const StatusCreated: nat := 201
  const StatusNoContent: nat := 204
  const StatusForbidden: nat := 403
  const StatusNotFound: nat := 404
  const StatusConflict: nat := 409

  /** How a handler ends: a success with its status and body, or one of the
      three refusals the handlers raise. */
  datatype Outcome<+T> = Ok(status: nat, value: T) | NotFound | Forbidden | Conflict {

    /** The status code the response carries. */
    function Code(): nat {
      match this
      case Ok(s, _) => s
      case NotFound => StatusNotFound
      case Forbidden => StatusForbidden
      case Conflict => StatusConflict
    }
  }

  /** The votes cast on one post. */
  function VotesOn(votes: set<VoteRow>, postId: int): set<VoteRow> {
    set v | v in votes && v.0 == postId
  }

  /** The vote count of a post, as the outer join with a count per post id
      yields it: the number of vote rows for that post, 0 when there are none. */
  function VoteCount(votes: set<VoteRow>, postId: int): nat {
    |VotesOn(votes, postId)|
  }

  /** A post has vote count 0 exactly when no vote row names it. */
  lemma VoteCountZero(votes: set<VoteRow>, postId: int)
    ensures VoteCount(votes, postId) == 0 <==> forall v :: v in votes ==> v.0 != postId
  {
    if v :| v in votes && v.0 == postId {
      assert v in VotesOn(votes, postId);
    }
  }

  /** Inserting a new vote row raises the count of its post by one and leaves
      every other post's count alone. */
  lemma VoteCountInsert(votes: set<VoteRow>, v: VoteRow)
    requires v !in votes
    ensures VoteCount(votes + {v}, v.0) == VoteCount(votes, v.0) + 1
    ensures forall q :: q != v.0 ==> VoteCount(votes + {v}, q) == VoteCount(votes, q)
  {
    assert VotesOn(votes + {v}, v.0) == VotesOn(votes, v.0) + {v};
    forall q | q != v.0
      ensures VoteCount(votes + {v}, q) == VoteCount(votes, q)
    {
      assert VotesOn(votes + {v}, q) == VotesOn(votes, q);
    }
  }

  /** Deleting an existing vote row lowers the count of its post by one and
      leaves every other post's count alone. */
  lemma VoteCountDelete(votes: set<VoteRow>, v: VoteRow)
    requires v in votes
    ensures VoteCount(votes - {v}, v.0) + 1 == VoteCount(votes, v.0)
    ensures forall q :: q != v.0 ==> VoteCount(votes - {v}, q) == VoteCount(votes, q)
  {
    VoteCountInsert(votes - {v}, v);
    assert votes - {v} + {v} == votes;
  }

  /** Whether `p` is a prefix of `s`. */
  predicate IsPrefix(p: string, s: string) {
    |p| <= |s| && s[..|p|] == p
  }

  /** Substring containment, used by the list handler's title filter; the
      empty string is contained in every title. */
  function Contains(title: string, search: string): bool
    decreases |title|
  {
    IsPrefix(search, title) || (|title| > 0 && Contains(title[1..], search))
  }

  /** Reference definition of containment: `search` occurs at some position. */
  ghost predicate OccursAt(title: string, search: string, i: int) {
    0 <= i && i + |search| <= |title| && title[i..i + |search|] == search
  }

  /** Contains agrees with the positional definition, in both directions. */
  lemma {:induction false} ContainsIff(title: string, search: string)
    ensures Contains(title, search) <==> exists i :: OccursAt(title, search, i)
    decreases |title|
  {
    if IsPrefix(search, title) {
      assert OccursAt(title, search, 0);
    } else if |title| == 0 {
      forall i | OccursAt(title, search, i) ensures false {
      }
    } else {
      var tail := title[1..];
      ContainsIff(tail, search);
      if j :| OccursAt(tail, search, j) {
        assert tail[j..j + |search|] == title[j + 1..j + 1 + |search|];
        assert OccursAt(title, search, j + 1);
      }
      if i :| OccursAt(title, search, i) {
        assert i != 0;
        assert tail[i - 1..i - 1 + |search|] == title[i..i + |search|];
        assert OccursAt(tail, search, i - 1);
      }
    }
  }

  /** The empty search string is contained in every title. */
  lemma ContainsEmpty(title: string)
    ensures Contains(title, "")
  {
  }
}
