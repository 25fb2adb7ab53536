# Posts, comments and likes: a verified model of the store behind the handlers

The service stores social-network posts, comments and likes in three SQLite
tables and keeps two denormalised counters on each post. This project models
how the handlers in `python/main.py` use those tables, and proves the
invariant that ties them together. The three tables are:

- `posts`, keyed by `id`, carrying the `likes` and `comments` counters;
- `comments`, keyed by `id`, each referring to its post through `postId`;
- `likes`, whose composite key `(postId, username)` is one like edge.

The six handlers that take a request body first reject a missing or empty
field. Every writing handler except `create_post` then looks up its target
row. The writing handlers change the tables with INSERT, UPDATE or DELETE, and
where a row count changes they also update a counter:

- a like is inserted only if it is absent;
- a decrement is clamped at zero;
- deleting a post removes its comments and likes too.

The project has four modules:

- `Model` (`Model.dfy`): the rows as datatypes and the three tables as a `Db`
  value. It also defines the store invariant `Consistent`:
  - every row is stored under its own key;
  - every comment and every like refers to a post that exists;
  - each post's `likes` equals the number of its like edges, and its
    `comments` equals the number of its comments.
- `Handlers` (`Handlers.dfy`): the twelve handlers as functions of the tables.
  - The eight writing handlers return a `Step`, which holds the result and the
    tables afterwards.
  - `ListPosts` returns the set of posts.
  - `GetPost`, `ListComments` and `GetComment` return a `Result`.
  - An HTTP 400 becomes `InvalidInput` and an HTTP 404 becomes `NotFound`.
  - Each writing function's contract gives the error cases, says that valid
    input on an existing target succeeds, and gives the exact change the
    handler makes.
- `Properties` (`Properties.dfy`): lemmas about those functions:
  - every handler preserves `Consistent`;
  - like and unlike are idempotent;
  - a like followed by an unlike restores the tables;
  - deleting a post cascades to its comments and likes and spares other posts;
  - the clamped decrements never make a counter negative;
  - the read handlers agree with the counters and with each other.
- `Store` (`Store.dfy`): the class `Store.Store`, whose fields `posts`,
  `comments` and `likes` are changed in place, one statement per SQL
  statement. Each mutating handler is a method on it. Every method's result
  and new state equal the matching `Handlers` function applied to the old
  state. Every method also keeps `Valid()` (that is, `Consistent`). The
  constructor, which is the empty database that `init_db` creates,
  establishes `Valid()`. So the counters match the rows after any sequence of
  operations. The read-only handlers are the `Handlers` functions applied to
  `Snapshot()`. `Store.Scenario` is a walkthrough that uses only the method
  contracts: create a post, like it twice as the same user, comment on it,
  delete it.

The service takes three things from outside, and here they are parameters:

- fresh ids (`uuid.uuid4()`), each with a precondition that it is unused;
- timestamps (`now_iso()`), as opaque strings;
- request bodies, one `Option<string>` per field. `None` means the field is
  missing. A field fails the handlers' `not body.get(...)` test when it is
  `None` or `Some("")`.

Each handler opens its own connection and commits only at the end. Its
existence check is a plain `SELECT`, and that runs outside the transaction
that SQLite opens implicitly at the first write. So a concurrent request can
act between the check and the write, and the code does not make them atomic.
The model runs each handler as one atomic step. It does not model
interleavings between concurrent requests.

## Model

| member | source | states |
|---|---|---|
| Model.Empty | python/main.py:29-56 | the newly created tables are empty, satisfy the store invariant, and have no negative counter |
| Handlers.ListPosts | python/main.py:89-95 | every stored post is listed, and everything listed is a stored post (with no order) |
| Handlers.CreatePost | python/main.py:97-118 | a missing or empty username or content gives InvalidInput with no change; otherwise the store gains exactly one post, with the fresh id, createdAt = updatedAt = now and both counters 0, and every other row is unchanged |
| Handlers.GetPost | python/main.py:120-127 | answers the stored post exactly when the id is a key, and NotFound otherwise |
| Handlers.UpdatePost | python/main.py:129-146 | first InvalidInput, then NotFound, each with no change; valid fields on an existing post give Ok, and then only username, content and updatedAt of that post change; id, createdAt, likes and comments are kept, and all other rows are unchanged |
| Handlers.DeletePost | python/main.py:148-159 | an absent id gives NotFound with no change; otherwise the post, every comment with that postId and every like with that postId are removed, and all other rows are kept as they were |
| Handlers.ListComments | python/main.py:162-170 | NotFound exactly when the post is absent; otherwise the result holds exactly the comments whose postId is the post |
| Handlers.CreateComment | python/main.py:172-196 | first InvalidInput, then NotFound for an absent post, each with no change; valid fields on an existing post give Ok, and then exactly one comment with the given postId and fresh id is added, only that post's comments counter goes up by one, and likes are unchanged |
| Handlers.GetComment | python/main.py:198-205 | finds a comment only when both its id and its postId match, and NotFound otherwise |
| Handlers.UpdateComment | python/main.py:207-224 | first InvalidInput, then NotFound unless both ids match, each with no change; valid fields on a matching comment give Ok, and then only username, content and updatedAt of that comment change; posts and likes are unchanged |
| Handlers.DecrementComments | python/main.py:234 | the comments counter of the named post drops by one only if it is positive; no other post changes |
| Handlers.DeleteComment | python/main.py:226-236 | NotFound unless both ids match, with no change; otherwise exactly that comment is removed, the post's comments counter is decremented clamped at 0, and likes are unchanged |
| Handlers.LikePost | python/main.py:239-253 | first InvalidInput for a missing or empty username, then NotFound for an absent post, each with no change; otherwise Ok, the edge is in the likes table afterwards, and if it was already there nothing changes, else only that post's likes counter goes up by one |
| Handlers.DecrementLikes | python/main.py:267 | the likes counter of the named post drops by one only if it is positive; no other post changes |
| Handlers.UnlikePost | python/main.py:255-269 | InvalidInput, then NotFound, each with no change; otherwise Ok and the edge is absent afterwards; an absent edge changes nothing, and a present one is removed with the post's likes counter decremented clamped at 0 |
| Properties.CreatePostPreserves | python/main.py:103-116 | creating a post keeps the store invariant |
| Properties.UpdatePostPreserves | python/main.py:139-142 | updating a post keeps the store invariant |
| Properties.DeletePostPreserves | python/main.py:155-157 | the three-table cascade keeps the store invariant, so no orphaned comment or like remains |
| Properties.CreateCommentPreserves | python/main.py:190-194 | the comment insert paired with the counter increment keeps the store invariant |
| Properties.UpdateCommentPreserves | python/main.py:217-220 | updating a comment keeps the store invariant |
| Properties.DeleteCommentPreserves | python/main.py:233-234 | the comment delete paired with the clamped decrement keeps the store invariant |
| Properties.LikePostPreserves | python/main.py:247-252 | insert-if-absent with its paired increment keeps the store invariant |
| Properties.UnlikePostPreserves | python/main.py:263-267 | removing an edge with its paired clamped decrement keeps the store invariant |
| Properties.DeleteCommentKeepsCountersNonNegative | python/main.py:234 | on any store whose counters are non-negative, deleting a comment leaves them non-negative |
| Properties.UnlikePostKeepsCountersNonNegative | python/main.py:267 | on any store whose counters are non-negative, unliking leaves them non-negative |
| Properties.ConsistentCountersNonNegative | python/main.py:36-37 | in a consistent store no counter is negative |
| Properties.LikeIdempotent | python/main.py:247-252 | liking twice gives the same result and tables as liking once, for every state and input |
| Properties.LikeTwiceCountsOnce | python/main.py:247-252 | from a consistent store in which the user has not yet liked the post, liking it twice as the same user leaves one edge, raises the counter by exactly one, and the counter equals the edge count |
| Properties.UnlikeIdempotent | python/main.py:263-269 | unliking twice gives the same result and tables as unliking once, for every state and input |
| Properties.LikeThenUnlikeRestores | python/main.py:247-269 | when the post's likes counter is not negative, a new like followed by its unlike succeeds and restores the tables exactly |
| Properties.DeletePostLeavesNoChildren | python/main.py:155-157 | after a post is deleted, later lookups of the post, its comment list and any of its comments give NotFound, and no like or comment of it remains |
| Properties.DeletePostSparesOthers | python/main.py:155-157 | deleting one post leaves every other post, its comment list and its likes unchanged |
| Properties.ListCommentsMatchesCounter | python/main.py:162-170 | in a consistent store, the comment list of a post has exactly as many elements as the post's comments counter |
| Properties.ListPostsAgreesWithGetPost | python/main.py:89-127 | a post is listed exactly when looking it up by its id returns it |
| Properties.GetCommentIsListed | python/main.py:162-205 | a comment found by both ids is in its post's comment list |
| Store.Store.constructor | python/main.py:29-56 | the store starts as the empty tables and satisfies Valid() |
| Store.Store.CreatePost | python/main.py:97-118 | result and new tables equal Handlers.CreatePost on the old tables; Valid() is kept |
| Store.Store.UpdatePost | python/main.py:129-146 | result and new tables equal Handlers.UpdatePost on the old tables; Valid() is kept |
| Store.Store.DeletePost | python/main.py:148-159 | the three deletes give exactly Handlers.DeletePost on the old tables; Valid() is kept |
| Store.Store.CreateComment | python/main.py:172-196 | the insert and the increment give exactly Handlers.CreateComment on the old tables; Valid() is kept |
| Store.Store.UpdateComment | python/main.py:207-224 | result and new tables equal Handlers.UpdateComment on the old tables; Valid() is kept |
| Store.Store.DeleteComment | python/main.py:226-236 | the delete and the clamped decrement give exactly Handlers.DeleteComment on the old tables; Valid() is kept |
| Store.Store.LikePost | python/main.py:239-253 | the insert-if-absent and its increment give exactly Handlers.LikePost on the old tables; Valid() is kept |
| Store.Store.UnlikePost | python/main.py:255-269 | the lookup, delete and clamped decrement give exactly Handlers.UnlikePost on the old tables; Valid() is kept |

## Left out

- HTTP routing, status codes and CORS (python/main.py:15-24): these are plumbing. The `Result` datatype stands in for the HTTP status.
- Serving Swagger and OpenAPI, and reading the YAML file (python/main.py:64-79): these are file I/O.
- `init_db` and the startup hook (python/main.py:27-61): the table schemas give the shape of the datatypes, and the constructor stands for the empty database.
- `uuid.uuid4()` and `now_iso()`: a fresh id and a timestamp string are parameters. The precondition that the id is unused replaces the assumption that a UUID does not collide.
- aiosqlite connections, async/await, commits and concurrency between requests: each handler is one atomic step. Interleavings of concurrent requests are not modelled. This includes the window between `update_post`/`update_comment` committing and reading the row back.
- Storage-layer failures other than the duplicate-like key conflict: the model has no internal-error outcome.
- Converting rows to dicts through `cursor.description`: the model works on rows as datatypes.
- The order of `list_posts` and `list_comments` results: they are sets, because the storage decides the order.
- 64-bit integer width: SQLite stores the counters as 64-bit INTEGERs, and the model does not model an overflowing `likes + 1` or `comments + 1` (python/main.py:194, 249). In a consistent store a counter is a row count, so the overflow cannot happen there.
- Non-string JSON body values: a body field is an optional string. Truthy values that are not strings (numbers, lists) and falsy ones that are not strings (`0`, `false`, `[]`) are not modelled.
