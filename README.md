# Posts and votes: a verified model of the FastAPI endpoints

This project models the posts/votes domain of a small social-posting
backend. Authenticated users create text posts, list and search them with
pagination, read one post with its vote count, update or delete their own
posts, and add or remove an up-vote on any post.

With HTTP routing and database sessions set aside, the handlers form a state
machine over two tables:

- the **post table**, a map from post id to a `Post` row (`id`, `ownerId`,
  `title`, `content`, `published`);
- the **vote table**, a set of `(post id, user id)` rows. A row means "this
  user has voted on this post". There is at most one row per pair.

Each handler is one atomic transition. The three handlers that change an
existing post or vote (delete, update, vote) check that the post exists, then
check ownership or an existing vote, then do at most one delete, update or
insert. Create inserts without a check, and the two read handlers write
nothing. Every handler except the list query returns an `Outcome`:
`Ok(status, value)` with the status the route answers on success (200, 201
or 204), or `NotFound` (404), `Forbidden` (403) or `Conflict` (409).
`GetPosts` returns its rows directly, since get_posts never refuses and
always answers 200.

Files:

- `domain.dfy` (module `Domain`): the records, `Outcome` and its status
  codes. It also defines `VoteCount`, the number of vote rows for a post,
  which is what the outer join counted per post yields. `Contains` is the
  title filter; it is proved equal to a positional definition of substring
  occurrence.
- `listing.dfy` (module `Listing`): the list query. It filters by title,
  skips `skip` rows, keeps at most `limit`, and joins each row with its vote
  count. The query has no ORDER BY, so the order in which the store returns
  rows is a parameter `scan`: each post id exactly once, in any order. Every
  property of the list is stated as a count or as membership, so none of
  them depends on that order.
- `voting.dfy` (module `Voting`): the vote handler as a pure transition
  `Toggle`. For each (post, user) pair it has two states, Voted and
  NotVoted, and `dir` says which way to move.
- `store.dfy` (module `Endpoints`): class `Store`. Its fields `posts`,
  `votes` and `nextId` are the two tables and the post table's id sequence.
  It has one member per handler. The two read handlers are functions that
  read the store. The three post writers and the vote handler are methods
  that modify it. `Vote` is proved to perform exactly `Toggle`. The class
  invariant `Valid` says that each post is stored under its own id, and
  that every post id and every post id named by a vote row lies below
  `nextId`. `Scenario` walks through one session: create a post, read it,
  vote twice, remove the vote, then delete the post as a stranger and as
  the owner. The assertions in it are proved from the handlers' contracts
  alone.

The caller is an explicit `callerId` parameter. It stands for the identity
that token resolution produced.

Two behaviours of the handlers worth stating:

- `update_post` writes the whole create body into the row: title, content
  and the published flag. It is not a partial patch of only the fields the
  client supplied (backend/app/api/endpoints/posts.py:102).
- `delete_post` removes only the post row. Vote rows for that post are not
  deleted by the handler (backend/app/api/endpoints/posts.py:76), so the
  model does not claim "no orphan votes". Post ids come from a sequence that
  never reuses an id. So a newly created post still has no votes: the
  `VoteCount(votes, id) == 0` clause of `CreatePost` holds even after
  deletions.

## Model

| member | source | states |
|---|---|---|
| Endpoints.Store.GetPosts | backend/app/api/endpoints/posts.py:13-24 | Defaults `limit` 10, `skip` 0, `search` empty. Every row is a stored post whose title contains `search`, with its vote count. No post is listed twice. The number of rows is the number of matching posts after the `skip` offset, capped at `limit`. |
| Endpoints.Store.GetPost | backend/app/api/endpoints/posts.py:38-53 | NotFound exactly when no post has that id. Otherwise 200 with that post and the number of vote rows naming it. |
| Endpoints.Store.CreatePost | backend/app/api/endpoints/posts.py:26-36 | Answers 201 with a post under a fresh id. Its owner is the caller. Its title, content and published flag are the input's. Exactly that row is added; the votes are unchanged and the new post's vote count is 0. |
| Endpoints.Store.DeletePost | backend/app/api/endpoints/posts.py:55-78 | NotFound for a missing id, checked before ownership. Forbidden for a post the caller does not own. In both cases nothing is written. An owner's request removes exactly that id and answers 204. Other posts and all votes are unchanged. The only codes are 204, 404 and 403. |
| Endpoints.Store.UpdatePost | backend/app/api/endpoints/posts.py:80-104 | Same guards in the same order, with no write on failure. For the owner, that one post gets the input's title, content and published flag and keeps its id and owner, and the updated post is returned with 200. Owners never change; other posts and votes are unchanged. The only codes are 200, 404 and 403. |
| Endpoints.Store.Vote | backend/app/api/endpoints/votes.py:11-46 | The new vote table and the outcome are exactly `Toggle` of the old state. The post table is unchanged. |
| Voting.Toggle | backend/app/api/endpoints/votes.py:17-46 | Succeeds iff the post exists and `dir == 1` is asked from NotVoted or `dir != 1` from Voted. After success the caller is Voted iff `dir == 1`. A refusal writes nothing. No other pair is ever added or removed. |
| Voting.ToggleOutcomes | backend/app/api/endpoints/votes.py:17-46 | A missing post is NotFound whatever `dir` is. Adding from Voted is Conflict. Removing from NotVoted is NotFound. The two successes answer 201 with their message, so the only codes are 201, 409 and 404. |
| Voting.AddThenRemove | backend/app/api/endpoints/votes.py:34-46 | A successful add followed by a remove of the same pair succeeds and restores the vote table and every vote count. |
| Voting.ToggleCount | backend/app/api/endpoints/votes.py:34-46 | A successful add raises that post's vote count by one, and a successful remove lowers it by one. Every other post keeps its count. |
| Domain.VoteCountZero | backend/app/api/endpoints/posts.py:44-46 | A post's vote count is 0 exactly when no vote row names it. This is the outer join's zero. |
| Domain.VoteCountInsert | backend/app/api/endpoints/votes.py:34-37 | Inserting a new vote row adds one to its post's count and leaves every other post's count alone. |
| Domain.VoteCountDelete | backend/app/api/endpoints/votes.py:44-46 | Deleting an existing vote row takes one from its post's count and leaves every other post's count alone. |
| Domain.ContainsIff | backend/app/api/endpoints/posts.py:23 | The title filter holds exactly when `search` occurs in the title at some position. |
| Domain.ContainsEmpty | backend/app/api/endpoints/posts.py:19-23 | The default empty search is contained in every title. |
| Listing.Matching | backend/app/api/endpoints/posts.py:23 | The filter keeps exactly the scanned ids whose title contains `search`, and it introduces no duplicates. |
| Listing.Page | backend/app/api/endpoints/posts.py:17-23 | Offset then limit: the result has `min(limit, len - skip)` rows (0 past the end), and row `i` is input row `skip + i`. |
| Listing.JoinVotes | backend/app/api/endpoints/posts.py:21-22 | Each id becomes its post paired with its vote count, in the same order. |
| Listing.MatchingCount | backend/app/api/endpoints/posts.py:21-23 | Over any scan of the whole table, the filter yields as many rows as there are matching posts. |
| Listing.EmptySearchMatchesAll | backend/app/api/endpoints/posts.py:19-23 | With the default empty search, every post matches. |
| Listing.PageSplit | backend/app/api/endpoints/posts.py:17-23 | Two consecutive pages, the second starting at the first's offset plus its limit, together form the page of the combined limit. |

## Left out

- HTTP routing, dependency injection, response construction and the error
  message texts. Outcomes are a datatype with the status codes.
- Token resolution and request-body validation. The caller id and the
  create/update body are given parameters. A `dir` outside what the body
  schema admits is treated like any other value different from 1, as the
  handler does.
- Session mechanics (add, commit, refresh, synchronize_session) and
  transaction isolation. Each handler is one atomic transition.
  Concurrency between requests is left to the database.
- Timestamps such as `created_at` are not modelled.
- Endpoints.Store.GetPosts: the row order of the list query is store-defined.
  It is a parameter, not a fixed order, and the contract speaks of counts and
  membership. The handler's defaults (`limit` 10, `skip` 0, `search` empty,
  backend/app/api/endpoints/posts.py:17-19) are the parameters' default
  values. `limit` and `skip` are natural numbers; negative values are
  handed to the database as they are, and what it does with them is not
  modelled.
- Endpoints.Store.CreatePost: the id is taken from a sequence (`nextId`)
  that never reuses an id. The table's actual key generator is not part of
  this model. Ids are proved fresh, not equal to any particular database's
  values.
- Domain.Contains: the filter `Post.title.contains(search)` at
  backend/app/api/endpoints/posts.py:23 becomes a SQL `LIKE '%search%'`
  without escaping, so `%` and `_` inside `search` act as wildcards there.
  The model treats every character of `search` literally: with search `_`
  and title `a` the handler lists the post and the model does not.
- The database collation of `contains` is not modelled (case folding, for
  one). The filter is exact substring containment on character sequences.
- Whether the database schema cascades vote deletion when a post is
  deleted: the schema is not part of this model, and `delete_post` itself
  leaves the vote rows in place.
