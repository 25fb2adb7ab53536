/** The twelve request handlers as functions of the three tables.

    Each handler is one atomic step. The eight that write answer a `Step`
    holding their result and the tables afterwards. `ListPosts`, `GetPost`,
    `ListComments` and `GetComment` only read, and answer their result alone.
    Ids that the service draws from `uuid4()` and timestamps that it reads
    from the clock are parameters. */
module Handlers {
  import opened Model

  // --- posts ---

  /** GET /posts: every stored post, in no particular order. */
  function ListPosts(db: Db): (r: set<Post>)
    ensures forall k | k in db.posts :: db.posts[k] in r
    ensures forall p | p in r :: exists k :: k in db.posts && db.posts[k] == p
  {
    set k | k in db.posts :: db.posts[k]
  }

  /** POST /posts. */
  function CreatePost(db: Db, newId: Id, username: Option<string>, content: Option<string>, now: string): (s: Step<Post>)
    requires newId !in db.posts
    // validation comes first and leaves the tables alone
    ensures !(Present(username) && Present(content)) ==> s == Step(InvalidInput, db)
    // otherwise a post with the fresh id, both timestamps `now` and zero counters is added, and nothing else
    ensures Present(username) && Present(content) ==>
      && s.result.Ok?
      && var p := s.result.value;
      && p.id == newId && p.username == username.value && p.content == content.value
      && p.createdAt == now && p.updatedAt == now
      && p.likes == 0 && p.comments == 0
      && s.db.posts.Keys == db.posts.Keys + {newId}
      && s.db.posts[newId] == p
      && (forall k | k in db.posts :: s.db.posts[k] == db.posts[k])
      && s.db.comments == db.comments && s.db.likes == db.likes
  {
    if !Present(username) || !Present(content) then Step(InvalidInput, db)
    else
      var post := Post(newId, username.value, content.value, now, now, 0, 0);
      Step(Ok(post), db.(posts := db.posts[newId := post]))
  }

  /** GET /posts/{postId}. */
  function GetPost(db: Db, id: Id): (r: Result<Post>)
    ensures r.Ok? <==> id in db.posts
    ensures r.Ok? ==> r.value == db.posts[id]
    ensures !r.Ok? ==> r == NotFound
  {
    if id in db.posts then Ok(db.posts[id]) else NotFound
  }

  /** PATCH /posts/{postId}. */
  function UpdatePost(db: Db, id: Id, username: Option<string>, content: Option<string>, now: string): (s: Step<Post>)
    ensures !(Present(username) && Present(content)) ==> s == Step(InvalidInput, db)
    ensures Present(username) && Present(content) && id !in db.posts ==> s == Step(NotFound, db)
    // on success only username, content and updatedAt of that one post change
    ensures Present(username) && Present(content) && id in db.posts ==>
      && s.result.Ok?
      && var before, p := db.posts[id], s.result.value;
      && p.username == username.value && p.content == content.value && p.updatedAt == now
      && p.id == before.id && p.createdAt == before.createdAt
      && p.likes == before.likes && p.comments == before.comments
      && s.db.posts.Keys == db.posts.Keys
      && s.db.posts[id] == p
      && (forall k | k in db.posts && k != id :: s.db.posts[k] == db.posts[k])
      && s.db.comments == db.comments && s.db.likes == db.likes
  {
    if !Present(username) || !Present(content) then Step(InvalidInput, db)
    else if id !in db.posts then Step(NotFound, db)
    else
      var post := db.posts[id].(username := username.value, content := content.value, updatedAt := now);
      Step(Ok(post), db.(posts := db.posts[id := post]))
  }

  /** The comments table without the comments of one post. */
  function CommentsNotOf(comments: map<Id, Comment>, postId: Id): map<Id, Comment>
  {
    map k | k in comments && comments[k].postId != postId :: comments[k]
  }

  /** The likes table without the likes of one post. */
  function LikesNotOf(likes: set<Like>, postId: Id): set<Like>
  {
    set e | e in likes && e.0 != postId
  }

  /** DELETE /posts/{postId}: the post, its comments and its likes go together. */
  function DeletePost(db: Db, id: Id): (s: Step<()>)
    ensures id !in db.posts ==> s == Step(NotFound, db)
    ensures id in db.posts ==>
      && s.result == Ok(())
      && s.db.posts.Keys == db.posts.Keys - {id}
      && (forall k | k in s.db.posts :: s.db.posts[k] == db.posts[k])
      && (forall k :: k in s.db.comments <==> k in db.comments && db.comments[k].postId != id)
      && (forall k | k in s.db.comments :: s.db.comments[k] == db.comments[k])
      && (forall e :: e in s.db.likes <==> e in db.likes && e.0 != id)
  {
    if id !in db.posts then Step(NotFound, db)
    else
      Step(Ok(()), Db(db.posts - {id}, CommentsNotOf(db.comments, id), LikesNotOf(db.likes, id)))
  }

  // --- comments ---

  /** GET /posts/{postId}/comments: NotFound unless the post exists. */
  function ListComments(db: Db, postId: Id): (r: Result<set<Comment>>)
    ensures r.Ok? <==> postId in db.posts
    ensures !r.Ok? ==> r == NotFound
    ensures r.Ok? ==> forall c | c in r.value :: c.postId == postId && c in db.comments.Values
    ensures r.Ok? ==> forall k | k in db.comments && db.comments[k].postId == postId :: db.comments[k] in r.value
  {
    if postId !in db.posts then NotFound
    else Ok(set k | k in db.comments && db.comments[k].postId == postId :: db.comments[k])
  }

  /** POST /posts/{postId}/comments: the insert and the counter bump happen together. */
  function CreateComment(db: Db, postId: Id, newId: Id, username: Option<string>, content: Option<string>, now: string): (s: Step<Comment>)
    requires newId !in db.comments
    ensures !(Present(username) && Present(content)) ==> s == Step(InvalidInput, db)
    ensures Present(username) && Present(content) && postId !in db.posts ==> s == Step(NotFound, db)
    ensures Present(username) && Present(content) && postId in db.posts ==>
      && s.result.Ok?
      && s.result.value == Comment(newId, postId, username.value, content.value, now, now)
      && s.db.comments.Keys == db.comments.Keys + {newId}
      && s.db.comments[newId] == s.result.value
      && (forall k | k in db.comments :: s.db.comments[k] == db.comments[k])
      && s.db.posts.Keys == db.posts.Keys
      && s.db.posts[postId] == db.posts[postId].(comments := db.posts[postId].comments + 1)
      && (forall k | k in db.posts && k != postId :: s.db.posts[k] == db.posts[k])
      && s.db.likes == db.likes
  {
    if !Present(username) || !Present(content) then Step(InvalidInput, db)
    else if postId !in db.posts then Step(NotFound, db)
    else
      var comment := Comment(newId, postId, username.value, content.value, now, now);
      var post := db.posts[postId];
      Step(Ok(comment), Db(db.posts[postId := post.(comments := post.comments + 1)],
                           db.comments[newId := comment], db.likes))
  }

  /** The comment row matching both ids, if there is one
      (`SELECT * FROM comments WHERE id = ? AND postId = ?`). */
  predicate Matches(db: Db, postId: Id, commentId: Id)
  {
    commentId in db.comments && db.comments[commentId].postId == postId
  }

  /** GET /posts/{postId}/comments/{commentId}. */
  function GetComment(db: Db, postId: Id, commentId: Id): (r: Result<Comment>)
    ensures r.Ok? <==> commentId in db.comments && db.comments[commentId].postId == postId
    ensures r.Ok? ==> r.value == db.comments[commentId]
    ensures !r.Ok? ==> r == NotFound
  {
    if Matches(db, postId, commentId) then Ok(db.comments[commentId]) else NotFound
  }

  /** PATCH /posts/{postId}/comments/{commentId}. */
  function UpdateComment(db: Db, postId: Id, commentId: Id, username: Option<string>, content: Option<string>, now: string): (s: Step<Comment>)
    ensures !(Present(username) && Present(content)) ==> s == Step(InvalidInput, db)
    ensures Present(username) && Present(content) && !Matches(db, postId, commentId) ==> s == Step(NotFound, db)
    ensures Present(username) && Present(content) && Matches(db, postId, commentId) ==>
      && s.result.Ok?
      && var before, c := db.comments[commentId], s.result.value;
      && c.username == username.value && c.content == content.value && c.updatedAt == now
      && c.id == before.id && c.postId == postId && c.createdAt == before.createdAt
      && s.db.comments.Keys == db.comments.Keys
      && s.db.comments[commentId] == c
      && (forall k | k in db.comments && k != commentId :: s.db.comments[k] == db.comments[k])
      && s.db.posts == db.posts && s.db.likes == db.likes
  {
    if !Present(username) || !Present(content) then Step(InvalidInput, db)
    else if !Matches(db, postId, commentId) then Step(NotFound, db)
    else
      var comment := db.comments[commentId].(username := username.value, content := content.value, updatedAt := now);
      Step(Ok(comment), db.(comments := db.comments[commentId := comment]))
  }

  /** `UPDATE posts SET <counter> = <counter> - 1 WHERE id = ? AND <counter> > 0`
      for the comments counter: no row changes when the post is missing or the
      counter is already zero. */
  function DecrementComments(posts: map<Id, Post>, postId: Id): (r: map<Id, Post>)
    ensures r.Keys == posts.Keys
    ensures forall k | k in posts && k != postId :: r[k] == posts[k]
    ensures postId in posts ==>
      r[postId] == posts[postId].(comments := if posts[postId].comments > 0 then posts[postId].comments - 1 else posts[postId].comments)
  {
    if postId in posts && posts[postId].comments > 0
    then posts[postId := posts[postId].(comments := posts[postId].comments - 1)]
    else posts
  }

  /** The same clamped decrement for the likes counter. */
  function DecrementLikes(posts: map<Id, Post>, postId: Id): (r: map<Id, Post>)
    ensures r.Keys == posts.Keys
    ensures forall k | k in posts && k != postId :: r[k] == posts[k]
    ensures postId in posts ==>
      r[postId] == posts[postId].(likes := if posts[postId].likes > 0 then posts[postId].likes - 1 else posts[postId].likes)
  {
    if postId in posts && posts[postId].likes > 0
    then posts[postId := posts[postId].(likes := posts[postId].likes - 1)]
    else posts
  }

  /** DELETE /posts/{postId}/comments/{commentId}. */
  function DeleteComment(db: Db, postId: Id, commentId: Id): (s: Step<()>)
    ensures !Matches(db, postId, commentId) ==> s == Step(NotFound, db)
    ensures Matches(db, postId, commentId) ==>
      && s.result == Ok(())
      && s.db.comments == db.comments - {commentId}
      && s.db.posts == DecrementComments(db.posts, postId)
      && s.db.likes == db.likes
  {
    if !Matches(db, postId, commentId) then Step(NotFound, db)
    else Step(Ok(()), Db(DecrementComments(db.posts, postId), db.comments - {commentId}, db.likes))
  }

  // --- likes ---

  /** POST /posts/{postId}/likes: insert-if-absent; the counter moves only when
      the insert succeeds (a duplicate key is swallowed). */
  function LikePost(db: Db, postId: Id, username: Option<string>): (s: Step<()>)
    ensures !Present(username) ==> s == Step(InvalidInput, db)
    ensures Present(username) && postId !in db.posts ==> s == Step(NotFound, db)
    ensures Present(username) && postId in db.posts ==>
      && s.result == Ok(())
      && s.db.likes == db.likes + {(postId, username.value)}
      && s.db.comments == db.comments
      && ((postId, username.value) in db.likes ==> s.db == db)
      && ((postId, username.value) !in db.likes ==>
            s.db.posts == db.posts[postId := db.posts[postId].(likes := db.posts[postId].likes + 1)])
  {
    if !Present(username) then Step(InvalidInput, db)
    else if postId !in db.posts then Step(NotFound, db)
    else
      var edge := (postId, username.value);
      if edge in db.likes then Step(Ok(()), db)
      else
        var post := db.posts[postId];
        Step(Ok(()), db.(posts := db.posts[postId := post.(likes := post.likes + 1)], likes := db.likes + {edge}))
  }

  /** DELETE /posts/{postId}/likes: removing an absent edge is a successful no-op. */
  function UnlikePost(db: Db, postId: Id, username: Option<string>): (s: Step<()>)
    ensures !Present(username) ==> s == Step(InvalidInput, db)
    ensures Present(username) && postId !in db.posts ==> s == Step(NotFound, db)
    ensures Present(username) && postId in db.posts ==>
      && s.result == Ok(())
      && s.db.likes == db.likes - {(postId, username.value)}
      && s.db.comments == db.comments
      && ((postId, username.value) !in db.likes ==> s.db == db)
      && ((postId, username.value) in db.likes ==> s.db.posts == DecrementLikes(db.posts, postId))
  {
    if !Present(username) then Step(InvalidInput, db)
    else if postId !in db.posts then Step(NotFound, db)
    else
      var edge := (postId, username.value);
      if edge !in db.likes then Step(Ok(()), db)
      else Step(Ok(()), db.(posts := DecrementLikes(db.posts, postId), likes := db.likes - {edge}))
  }
}
