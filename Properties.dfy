/** What the handlers promise across calls: every handler keeps the store
    consistent, likes and unlikes are idempotent, a post's deletion leaves none
    of its children behind, and the read handlers agree with the counters. */
module Properties {
  import opened Model
  import opened Handlers

  // --- how the per-post row sets move under single-row changes ---

  lemma LikesOfInsert(likes: set<Like>, e: Like, k: Id)
    ensures LikesOf(likes + {e}, k) == if e.0 == k then LikesOf(likes, k) + {e} else LikesOf(likes, k)
  {
  }

  lemma LikesOfRemove(likes: set<Like>, e: Like, k: Id)
    ensures LikesOf(likes - {e}, k) == if e.0 == k then LikesOf(likes, k) - {e} else LikesOf(likes, k)
  {
  }

  lemma CommentIdsOfInsert(comments: map<Id, Comment>, id: Id, c: Comment, k: Id)
    requires id !in comments
    ensures CommentIdsOf(comments[id := c], k) == if c.postId == k then CommentIdsOf(comments, k) + {id} else CommentIdsOf(comments, k)
  {
  }

  lemma CommentIdsOfReplace(comments: map<Id, Comment>, id: Id, c: Comment, k: Id)
    requires id in comments && comments[id].postId == c.postId
    ensures CommentIdsOf(comments[id := c], k) == CommentIdsOf(comments, k)
  {
  }

  lemma CommentIdsOfRemove(comments: map<Id, Comment>, id: Id, k: Id)
    ensures CommentIdsOf(comments - {id}, k) == CommentIdsOf(comments, k) - {id}
  {
  }

  /** A post that does not exist has no rows referring to it. */
  lemma NoRowsOfAbsentPost(db: Db, id: Id)
    requires NoOrphans(db) && id !in db.posts
    ensures LikesOf(db.likes, id) == {} && CommentIdsOf(db.comments, id) == {}
  {
  }

  // --- every handler preserves Consistent ---

  lemma CreatePostPreserves(db: Db, newId: Id, username: Option<string>, content: Option<string>, now: string)
    requires Consistent(db) && newId !in db.posts
    ensures Consistent(CreatePost(db, newId, username, content, now).db)
  {
    NoRowsOfAbsentPost(db, newId);
  }

  lemma UpdatePostPreserves(db: Db, id: Id, username: Option<string>, content: Option<string>, now: string)
    requires Consistent(db)
    ensures Consistent(UpdatePost(db, id, username, content, now).db)
  {
  }

  lemma DeletePostPreserves(db: Db, id: Id)
    requires Consistent(db)
    ensures Consistent(DeletePost(db, id).db)
  {
    var s := DeletePost(db, id);
    if id in db.posts {
      forall k | k in s.db.posts
        ensures LikesOf(s.db.likes, k) == LikesOf(db.likes, k)
        ensures CommentIdsOf(s.db.comments, k) == CommentIdsOf(db.comments, k)
      {
      }
    }
  }

  /** The tables after inserting comment `c` and bumping its post's counter:
      the success branch of `CreateComment`, named apart so that the
      cardinality proof below sees only these tables and stays cheap. */
  function WithComment(db: Db, c: Comment): Db
    requires c.postId in db.posts
  {
    var post := db.posts[c.postId];
    Db(db.posts[c.postId := post.(comments := post.comments + 1)], db.comments[c.id := c], db.likes)
  }

  lemma {:induction false} WithCommentCounters(db: Db, c: Comment)
    requires CountersMatch(db) && c.id !in db.comments && c.postId in db.posts
    ensures CountersMatch(WithComment(db, c))
  {
    var after := WithComment(db, c);
    forall k | k in after.posts
      ensures after.posts[k].likes == |LikesOf(after.likes, k)|
      ensures after.posts[k].comments == |CommentIdsOf(after.comments, k)|
    {
      CommentIdsOfInsert(db.comments, c.id, c, k);
      if k == c.postId {
        assert c.id !in CommentIdsOf(db.comments, k);
      }
    }
  }

  /** Inserting a comment of an existing post and bumping that post's counter
      keeps the tables consistent. */
  lemma InsertCommentKeepsConsistent(db: Db, c: Comment)
    requires Consistent(db) && c.id !in db.comments && c.postId in db.posts
    ensures Consistent(WithComment(db, c))
  {
    WithCommentCounters(db, c);
  }

  lemma CreateCommentPreserves(db: Db, postId: Id, newId: Id, username: Option<string>, content: Option<string>, now: string)
    requires Consistent(db) && newId !in db.comments
    ensures Consistent(CreateComment(db, postId, newId, username, content, now).db)
  {
    if Present(username) && Present(content) && postId in db.posts {
      var c := Comment(newId, postId, username.value, content.value, now, now);
      InsertCommentKeepsConsistent(db, c);
      assert CreateComment(db, postId, newId, username, content, now).db == WithComment(db, c);
    }
  }

  lemma UpdateCommentPreserves(db: Db, postId: Id, commentId: Id, username: Option<string>, content: Option<string>, now: string)
    requires Consistent(db)
    ensures Consistent(UpdateComment(db, postId, commentId, username, content, now).db)
  {
    var s := UpdateComment(db, postId, commentId, username, content, now);
    if s.result.Ok? {
      forall k | k in s.db.posts
        ensures CommentIdsOf(s.db.comments, k) == CommentIdsOf(db.comments, k)
      {
        CommentIdsOfReplace(db.comments, commentId, s.result.value, k);
      }
    }
  }

  lemma {:induction false} WithoutCommentCounters(db: Db, commentId: Id)
    requires CountersMatch(db) && commentId in db.comments && db.comments[commentId].postId in db.posts
    ensures
      var postId := db.comments[commentId].postId;
      CountersMatch(Db(DecrementComments(db.posts, postId), db.comments - {commentId}, db.likes))
  {
    var postId := db.comments[commentId].postId;
    var after := Db(DecrementComments(db.posts, postId), db.comments - {commentId}, db.likes);
    forall k | k in after.posts
      ensures after.posts[k].likes == |LikesOf(after.likes, k)|
      ensures after.posts[k].comments == |CommentIdsOf(after.comments, k)|
    {
      CommentIdsOfRemove(db.comments, commentId, k);
      if k == postId {
        // the comment counted, so the clamp does not bite
        assert commentId in CommentIdsOf(db.comments, k);
      }
    }
  }

  lemma DeleteCommentPreserves(db: Db, postId: Id, commentId: Id)
    requires Consistent(db)
    ensures Consistent(DeleteComment(db, postId, commentId).db)
  {
    if Matches(db, postId, commentId) {
      WithoutCommentCounters(db, commentId);
    }
  }

  /** The tables after inserting like edge `edge` and bumping its post's
      counter: the inserting branch of `LikePost`, named apart for the same
      reason as `WithComment`. */
  function WithLike(db: Db, edge: Like): Db
    requires edge.0 in db.posts
  {
    var post := db.posts[edge.0];
    db.(posts := db.posts[edge.0 := post.(likes := post.likes + 1)], likes := db.likes + {edge})
  }

  lemma {:induction false} WithLikeCounters(db: Db, edge: Like)
    requires CountersMatch(db) && edge !in db.likes && edge.0 in db.posts
    ensures CountersMatch(WithLike(db, edge))
  {
    var after := WithLike(db, edge);
    forall k | k in after.posts
      ensures after.posts[k].likes == |LikesOf(after.likes, k)|
      ensures after.posts[k].comments == |CommentIdsOf(after.comments, k)|
    {
      LikesOfInsert(db.likes, edge, k);
      if k == edge.0 {
        assert edge !in LikesOf(db.likes, k);
      }
    }
  }

  /** Inserting a new like edge of an existing post and bumping that post's
      counter keeps the tables consistent. */
  lemma InsertLikeKeepsConsistent(db: Db, edge: Like)
    requires Consistent(db) && edge !in db.likes && edge.0 in db.posts
    ensures Consistent(WithLike(db, edge))
  {
    WithLikeCounters(db, edge);
  }

  lemma LikePostPreserves(db: Db, postId: Id, username: Option<string>)
    requires Consistent(db)
    ensures Consistent(LikePost(db, postId, username).db)
  {
    if Present(username) && postId in db.posts && (postId, username.value) !in db.likes {
      InsertLikeKeepsConsistent(db, (postId, username.value));
      assert LikePost(db, postId, username).db == WithLike(db, (postId, username.value));
    }
  }

  lemma {:induction false} WithoutLikeCounters(db: Db, edge: Like)
    requires CountersMatch(db) && edge in db.likes && edge.0 in db.posts
    ensures CountersMatch(db.(posts := DecrementLikes(db.posts, edge.0), likes := db.likes - {edge}))
  {
    var after := db.(posts := DecrementLikes(db.posts, edge.0), likes := db.likes - {edge});
    forall k | k in after.posts
      ensures after.posts[k].likes == |LikesOf(after.likes, k)|
      ensures after.posts[k].comments == |CommentIdsOf(after.comments, k)|
    {
      LikesOfRemove(db.likes, edge, k);
      if k == edge.0 {
        // the edge counted, so the clamp does not bite
        assert edge in LikesOf(db.likes, k);
      }
    }
  }

  lemma UnlikePostPreserves(db: Db, postId: Id, username: Option<string>)
    requires Consistent(db)
    ensures Consistent(UnlikePost(db, postId, username).db)
  {
    if Present(username) && postId in db.posts && (postId, username.value) in db.likes {
      WithoutLikeCounters(db, (postId, username.value));
    }
  }

  // --- the clamped decrements never drive a counter below zero ---

  lemma DeleteCommentKeepsCountersNonNegative(db: Db, postId: Id, commentId: Id)
    requires CountersNonNegative(db)
    ensures CountersNonNegative(DeleteComment(db, postId, commentId).db)
  {
  }

  lemma UnlikePostKeepsCountersNonNegative(db: Db, postId: Id, username: Option<string>)
    requires CountersNonNegative(db)
    ensures CountersNonNegative(UnlikePost(db, postId, username).db)
  {
  }

  lemma ConsistentCountersNonNegative(db: Db)
    requires Consistent(db)
    ensures CountersNonNegative(db)
  {
  }

  // --- likes ---

  /** Liking twice is liking once, whatever the state and the input. */
  lemma LikeIdempotent(db: Db, postId: Id, username: Option<string>)
    ensures LikePost(LikePost(db, postId, username).db, postId, username) == LikePost(db, postId, username)
  {
  }

  /** Liking a post twice leaves exactly one edge for that user and moves the
      post's counter by one in all; the counter still equals the edge count. */
  lemma LikeTwiceCountsOnce(db: Db, postId: Id, username: Option<string>)
    requires Consistent(db) && Present(username) && postId in db.posts
    requires (postId, username.value) !in db.likes
    ensures var twice := LikePost(LikePost(db, postId, username).db, postId, username).db;
      && twice.likes == db.likes + {(postId, username.value)}
      && twice.posts[postId].likes == db.posts[postId].likes + 1
      && twice.posts[postId].likes == |LikesOf(twice.likes, postId)|
  {
    LikeIdempotent(db, postId, username);
    LikePostPreserves(db, postId, username);
  }

  /** Unliking twice is unliking once, whatever the state and the input. */
  lemma UnlikeIdempotent(db: Db, postId: Id, username: Option<string>)
    ensures UnlikePost(UnlikePost(db, postId, username).db, postId, username) == UnlikePost(db, postId, username)
  {
  }

  /** A new like followed by its unlike restores the tables exactly. */
  lemma LikeThenUnlikeRestores(db: Db, postId: Id, username: Option<string>)
    requires Present(username) && postId in db.posts && (postId, username.value) !in db.likes
    requires db.posts[postId].likes >= 0
    ensures UnlikePost(LikePost(db, postId, username).db, postId, username) == Step(Ok(()), db)
  {
  }

  // --- deletion cascades ---

  /** After a post is deleted it, its comments and its likes are gone, and
      the lookups for them answer NotFound. */
  lemma DeletePostLeavesNoChildren(db: Db, id: Id)
    requires id in db.posts
    ensures var after := DeletePost(db, id).db;
      && GetPost(after, id) == NotFound
      && ListComments(after, id) == NotFound
      && (forall commentId :: GetComment(after, id, commentId) == NotFound)
      && LikesOf(after.likes, id) == {}
      && CommentIdsOf(after.comments, id) == {}
  {
  }

  /** Deleting one post leaves every other post's row, comments and likes
      exactly as they were. */
  lemma DeletePostSparesOthers(db: Db, id: Id, other: Id)
    requires other != id
    ensures var after := DeletePost(db, id).db;
      && GetPost(after, other) == GetPost(db, other)
      && ListComments(after, other) == ListComments(db, other)
      && LikesOf(after.likes, other) == LikesOf(db.likes, other)
  {
    var after := DeletePost(db, id).db;
    if other in db.posts && id in db.posts {
      var before := set k | k in db.comments && db.comments[k].postId == other :: db.comments[k];
      var now := set k | k in after.comments && after.comments[k].postId == other :: after.comments[k];
      assert now == before by {
        forall c | c in before ensures c in now {
          var k :| k in db.comments && db.comments[k].postId == other && db.comments[k] == c;
          assert k in after.comments;
        }
      }
    }
  }

  // --- the read handlers agree with the counters and with each other ---

  /** The image of a set of keys under a map whose values carry their key has
      as many elements as the set. */
  lemma {:induction false} ImageOfKeyedSet(m: map<Id, Comment>, ks: set<Id>)
    requires ks <= m.Keys
    requires forall k | k in ks :: m[k].id == k
    ensures |set k | k in ks :: m[k]| == |ks|
  {
    if ks != {} {
      var x :| x in ks;
      var rest := ks - {x};
      ImageOfKeyedSet(m, rest);
      var img := set k | k in ks :: m[k];
      var imgRest := set k | k in rest :: m[k];
      assert img == imgRest + {m[x]};
      assert m[x] !in imgRest;
    }
  }

  /** GET /posts/{id}/comments returns exactly as many comments as the post's
      `comments` counter says. */
  lemma ListCommentsMatchesCounter(db: Db, postId: Id)
    requires Consistent(db) && postId in db.posts
    ensures ListComments(db, postId).Ok?
    ensures |ListComments(db, postId).value| == db.posts[postId].comments
  {
    var ks := CommentIdsOf(db.comments, postId);
    ImageOfKeyedSet(db.comments, ks);
    assert ListComments(db, postId).value == set k | k in ks :: db.comments[k];
  }

  /** A post is listed exactly when looking it up by its id finds it. */
  lemma ListPostsAgreesWithGetPost(db: Db, p: Post)
    requires KeysMatch(db)
    ensures p in ListPosts(db) <==> GetPost(db, p.id) == Ok(p)
  {
  }

  /** A comment found by both ids is one of its post's listed comments. */
  lemma GetCommentIsListed(db: Db, postId: Id, commentId: Id)
    requires NoOrphans(db)
    requires GetComment(db, postId, commentId).Ok?
    ensures ListComments(db, postId).Ok?
    ensures GetComment(db, postId, commentId).value in ListComments(db, postId).value
  {
  }
}
