/** The three tables of the post/comment/like store, as values.

    `posts` is keyed by post id and carries the two denormalised counters,
    `comments` is keyed by comment id and refers to its post through `postId`,
    and `likes` is the set of `(postId, username)` edges (the table's composite
    primary key, so an edge is stored at most once). */
module Model {

  type Id = string

  datatype Option<T> = None | Some(value: T)

  /** What a handler answers: a value, or one of the two errors it raises
      (HTTP 400 "Invalid input" and HTTP 404 "... not found"). */
  datatype Result<T> = Ok(value: T) | InvalidInput | NotFound

  /** A row of the `posts` table. The counters are SQLite INTEGERs, so they are
      `int` here: nothing in the table itself keeps them non-negative. */
  datatype Post = Post(
    id: Id,
    username: string,
    content: string,
    createdAt: string,
    updatedAt: string,
    likes: int,
    comments: int)

  /** A row of the `comments` table. */
  datatype Comment = Comment(
    id: Id,
    postId: Id,
    username: string,
    content: string,
    createdAt: string,
    updatedAt: string)

  /** A row of the `likes` table: (postId, username). */
  type Like = (Id, string)

  datatype Db = Db(posts: map<Id, Post>, comments: map<Id, Comment>, likes: set<Like>)

  /** The answer of a handler together with the tables it leaves behind. */
  datatype Step<T> = Step(result: Result<T>, db: Db)

  /** A request-body field passes the handlers' `not body.get(field)` test:
      it is there and it is not the empty string. */
  predicate Present(field: Option<string>)
  {
    field.Some? && field.value != ""
  }

  /** The like edges of one post (`SELECT * FROM likes WHERE postId = ?`). */
  function LikesOf(likes: set<Like>, postId: Id): set<Like>
  {
    set e | e in likes && e.0 == postId
  }

  /** The ids of the comments of one post (`SELECT * FROM comments WHERE postId = ?`). */
  function CommentIdsOf(comments: map<Id, Comment>, postId: Id): set<Id>
  {
    set k | k in comments && comments[k].postId == postId
  }

  /** Every row is stored under its own primary key. */
  predicate KeysMatch(db: Db)
  {
    (forall k | k in db.posts :: db.posts[k].id == k)
    && (forall k | k in db.comments :: db.comments[k].id == k)
  }

  /** Every comment and every like refers to a post that exists. */
  predicate NoOrphans(db: Db)
  {
    (forall k | k in db.comments :: db.comments[k].postId in db.posts)
    && (forall e | e in db.likes :: e.0 in db.posts)
  }

  /** Each post's denormalised counters equal the number of rows that refer to it. */
  predicate CountersMatch(db: Db)
  {
    forall k | k in db.posts ::
      db.posts[k].likes == |LikesOf(db.likes, k)|
      && db.posts[k].comments == |CommentIdsOf(db.comments, k)|
  }

  /** The store invariant that every handler preserves. */
  predicate Consistent(db: Db)
  {
    KeysMatch(db) && NoOrphans(db) && CountersMatch(db)
  }

  /** No counter has drifted below zero. */
  predicate CountersNonNegative(db: Db)
  {
    forall k | k in db.posts :: db.posts[k].likes >= 0 && db.posts[k].comments >= 0
  }

  /** The freshly created database: three empty tables. */
  function Empty(): (db: Db)
    ensures db.posts == map[] && db.comments == map[] && db.likes == {}
    ensures Consistent(db) && CountersNonNegative(db)
  {
    Db(map[], map[], {})
  }
}
