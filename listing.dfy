/** The list query of the post table: a title filter, then an offset, then a
    cap on the number of rows, each row decorated with its vote count. The
    table's row order is not fixed by the query, so it is a parameter: `scan`,
    the post ids in the order the store happens to return them. */
module Listing {
  import opened Domain

  /** No id occurs twice. */
  predicate Distinct(s: seq<int>) {
    forall i, j :: 0 <= i < j < |s| ==> s[i] != s[j]
  }

  /** `scan` enumerates the keys of `posts`, each exactly once. */
  predicate ScanOrder(scan: seq<int>, posts: map<int, Post>) {
    && Distinct(scan)
    && (forall i :: 0 <= i < |scan| ==> scan[i] in posts)
    && (forall id :: id in posts ==> id in scan)
  }

  /** The ids of the posts whose title contains `search`. */
  function MatchingIds(posts: map<int, Post>, search: string): set<int> {
    set id | id in posts && Contains(posts[id].title, search)
  }

  function Min(a: int, b: int): int {
    if a <= b then a else b
  }

  /** The title filter, keeping scan order. */
  function Matching(scan: seq<int>, posts: map<int, Post>, search: string): (r: seq<int>)
    requires forall i :: 0 <= i < |scan| ==> scan[i] in posts
    ensures forall id :: id in r <==> id in scan && Contains(posts[id].title, search)
    ensures Distinct(scan) ==> Distinct(r)
  {
    if scan == [] then []
    else
      var rest := Matching(scan[1..], posts, search);
      if Contains(posts[scan[0]].title, search) then [scan[0]] + rest else rest
  }

  /** Offset `skip`, then at most `limit` rows. */
  function Page<T>(s: seq<T>, skip: nat, limit: nat): (r: seq<T>)
    ensures |r| == Min(limit, if skip <= |s| then |s| - skip else 0)
    ensures forall i :: 0 <= i < |r| ==> r[i] == s[skip + i]
  {
    if |s| <= skip then []
    else if |s| - skip <= limit then s[skip..]
    else s[skip..skip + limit]
  }

  /** The outer join with the vote table, counted per post. */
  function JoinVotes(ids: seq<int>, posts: map<int, Post>, votes: set<VoteRow>): (r: seq<PostOut>)
    requires forall i :: 0 <= i < |ids| ==> ids[i] in posts
    ensures |r| == |ids|
    ensures forall i :: 0 <= i < |r| ==> r[i] == PostOut(posts[ids[i]], VoteCount(votes, ids[i]))
  {
    if ids == [] then []
    else [PostOut(posts[ids[0]], VoteCount(votes, ids[0]))] + JoinVotes(ids[1..], posts, votes)
  }

  /** A duplicate-free sequence is as long as the set of its elements is large. */
  lemma {:induction false} DistinctCard(s: seq<int>)
    requires Distinct(s)
    ensures |set x | x in s| == |s|
  {
    if s != [] {
      DistinctCard(s[1..]);
      assert (set x | x in s) == (set x | x in s[1..]) + {s[0]};
      assert s[0] !in s[1..];
    }
  }

  /** Over a scan of the whole table, the filter yields exactly as many rows
      as there are matching posts, whatever the scan order. */
  lemma MatchingCount(scan: seq<int>, posts: map<int, Post>, search: string)
    requires ScanOrder(scan, posts)
    ensures |Matching(scan, posts, search)| == |MatchingIds(posts, search)|
  {
    var r := Matching(scan, posts, search);
    forall x ensures x in r <==> x in MatchingIds(posts, search) {
    }
    assert (set x | x in r) == MatchingIds(posts, search);
    DistinctCard(r);
  }

  /** The empty search matches every post. */
  lemma EmptySearchMatchesAll(posts: map<int, Post>)
    ensures MatchingIds(posts, "") == posts.Keys
  {
    forall id | id in posts ensures Contains(posts[id].title, "") {
      ContainsEmpty(posts[id].title);
    }
  }

  /** Two consecutive pages, the second starting where the first ends, are
      together the page of the combined size. */
  lemma PageSplit<T>(s: seq<T>, skip: nat, a: nat, b: nat)
    ensures Page(s, skip, a) + Page(s, skip + a, b) == Page(s, skip, a + b)
  {
  }
}
