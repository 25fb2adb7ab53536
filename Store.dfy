/** The store the handlers share: the three tables held in place and changed
    statement by statement, as the handlers' INSERT, UPDATE and DELETE
    statements change the SQLite tables. Each method is one handler run as a
    single atomic step, and answers exactly what its transition in `Handlers`
    answers. The read-only handlers are the functions of `Handlers` applied to
    `Snapshot()`. */
module Store {
  import opened Model
  import Handlers
  import Properties

  class Store {
    var posts: map<Id, Post>
    var comments: map<Id, Comment>
    var likes: set<Like>

    /** The tables as a value. */
    function Snapshot(): Db
      reads this
    {
      Db(posts, comments, likes)
    }

    /** The store invariant: counters match rows, no child row is orphaned. */
    ghost predicate Valid()
      reads this
    {
      Consistent(Snapshot())
    }

    /** The database as `init_db` leaves it on first start: three empty tables. */
    constructor ()
      ensures Valid()
      ensures Snapshot() == Empty()
    {
      posts := map[];
      comments := map[];
      likes := {};
    }

    method CreatePost(newId: Id, username: Option<string>, content: Option<string>, now: string) returns (r: Result<Post>)
      requires newId !in posts
      modifies this
      ensures Step(r, Snapshot()) == Handlers.CreatePost(old(Snapshot()), newId, username, content, now)
      ensures old(Valid()) ==> Valid()
    {
      if !Present(username) || !Present(content) {
        return InvalidInput;
      }
      var post := Post(newId, username.value, content.value, now, now, 0, 0);
      posts := posts[newId := post];
      r := Ok(post);
      if old(Valid()) {
        Properties.CreatePostPreserves(old(Snapshot()), newId, username, content, now);
      }
    }

    method UpdatePost(id: Id, username: Option<string>, content: Option<string>, now: string) returns (r: Result<Post>)
      modifies this
      ensures Step(r, Snapshot()) == Handlers.UpdatePost(old(Snapshot()), id, username, content, now)
      ensures old(Valid()) ==> Valid()
    {
      if !Present(username) || !Present(content) {
        return InvalidInput;
      }
      if id !in posts {
        return NotFound;
      }
      posts := posts[id := posts[id].(username := username.value, content := content.value, updatedAt := now)];
      // the handler answers the row as it reads it back
      r := Ok(posts[id]);
      if old(Valid()) {
        Properties.UpdatePostPreserves(old(Snapshot()), id, username, content, now);
      }
    }

    method DeletePost(id: Id) returns (r: Result<()>)
      modifies this
      ensures Step(r, Snapshot()) == Handlers.DeletePost(old(Snapshot()), id)
      ensures old(Valid()) ==> Valid()
    {
      if id !in posts {
        return NotFound;
      }
      posts := posts - {id};
      comments := map k | k in comments && comments[k].postId != id :: comments[k];
      likes := set e | e in likes && e.0 != id;
      r := Ok(());
      if old(Valid()) {
        Properties.DeletePostPreserves(old(Snapshot()), id);
      }
    }

    method CreateComment(postId: Id, newId: Id, username: Option<string>, content: Option<string>, now: string) returns (r: Result<Comment>)
      requires newId !in comments
      modifies this
      ensures Step(r, Snapshot()) == Handlers.CreateComment(old(Snapshot()), postId, newId, username, content, now)
      ensures old(Valid()) ==> Valid()
    {
      if !Present(username) || !Present(content) {
        return InvalidInput;
      }
      var comment := Comment(newId, postId, username.value, content.value, now, now);
      if postId !in posts {
        return NotFound;
      }
      comments := comments[newId := comment];
      posts := posts[postId := posts[postId].(comments := posts[postId].comments + 1)];
      r := Ok(comment);
      if old(Valid()) {
        Properties.CreateCommentPreserves(old(Snapshot()), postId, newId, username, content, now);
      }
    }

    method UpdateComment(postId: Id, commentId: Id, username: Option<string>, content: Option<string>, now: string) returns (r: Result<Comment>)
      modifies this
      ensures Step(r, Snapshot()) == Handlers.UpdateComment(old(Snapshot()), postId, commentId, username, content, now)
      ensures old(Valid()) ==> Valid()
    {
      if !Present(username) || !Present(content) {
        return InvalidInput;
      }
      if commentId !in comments || comments[commentId].postId != postId {
        return NotFound;
      }
      comments := comments[commentId := comments[commentId].(username := username.value, content := content.value, updatedAt := now)];
      r := Ok(comments[commentId]);
      if old(Valid()) {
        Properties.UpdateCommentPreserves(old(Snapshot()), postId, commentId, username, content, now);
      }
    }

    method DeleteComment(postId: Id, commentId: Id) returns (r: Result<()>)
      modifies this
      ensures Step(r, Snapshot()) == Handlers.DeleteComment(old(Snapshot()), postId, commentId)
      ensures old(Valid()) ==> Valid()
    {
      if commentId !in comments || comments[commentId].postId != postId {
        return NotFound;
      }
      comments := comments - {commentId};
      if postId in posts && posts[postId].comments > 0 {
        posts := posts[postId := posts[postId].(comments := posts[postId].comments - 1)];
      }
      r := Ok(());
      if old(Valid()) {
        Properties.DeleteCommentPreserves(old(Snapshot()), postId, commentId);
      }
    }

    method LikePost(postId: Id, username: Option<string>) returns (r: Result<()>)
      modifies this
      ensures Step(r, Snapshot()) == Handlers.LikePost(old(Snapshot()), postId, username)
      ensures old(Valid()) ==> Valid()
    {
      if !Present(username) {
        return InvalidInput;
      }
      if postId !in posts {
        return NotFound;
      }
      var edge := (postId, username.value);
      // a duplicate key makes the INSERT fail and the counter UPDATE is skipped
      if edge !in likes {
        likes := likes + {edge};
        posts := posts[postId := posts[postId].(likes := posts[postId].likes + 1)];
      }
      r := Ok(());
      if old(Valid()) {
        Properties.LikePostPreserves(old(Snapshot()), postId, username);
      }
    }

    method UnlikePost(postId: Id, username: Option<string>) returns (r: Result<()>)
      modifies this
      ensures Step(r, Snapshot()) == Handlers.UnlikePost(old(Snapshot()), postId, username)
      ensures old(Valid()) ==> Valid()
    {
      if !Present(username) {
        return InvalidInput;
      }
      if postId !in posts {
        return NotFound;
      }
      var edge := (postId, username.value);
      if edge !in likes {
        return Ok(());
      }
      likes := likes - {edge};
      if posts[postId].likes > 0 {
        posts := posts[postId := posts[postId].(likes := posts[postId].likes - 1)];
      }
      r := Ok(());
      if old(Valid()) {
        Properties.UnlikePostPreserves(old(Snapshot()), postId, username);
      }
    }
  }

  /** A walkthrough that uses nothing but the methods' contracts: create a
      post, like it twice as the same user, comment on it, delete it. */
  method Scenario(postId: Id, commentId: Id, t0: string, t1: string)
  {
    var a, hi, b, c, nice := Some("a"), Some("hi"), Some("b"), Some("c"), Some("nice");
    assert Present(a) && Present(hi) && Present(b) && Present(c) && Present(nice);
    var store := new Store();
    var r0 := store.CreatePost(postId, a, hi, t0);
    assert r0.Ok? && r0.value.likes == 0 && r0.value.comments == 0;

    var r1 := store.LikePost(postId, b);
    assert r1 == Ok(());
    assert Handlers.GetPost(store.Snapshot(), postId).value.likes == 1;

    var r2 := store.LikePost(postId, b);
    assert r2 == Ok(());
    assert Handlers.GetPost(store.Snapshot(), postId).value.likes == 1;

    var r3 := store.CreateComment(postId, commentId, c, nice, t1);
    assert r3.Ok?;
    assert Handlers.GetPost(store.Snapshot(), postId).value.comments == 1;
    assert Handlers.GetComment(store.Snapshot(), postId, commentId) == r3;

    var r4 := store.DeletePost(postId);
    assert r4 == Ok(());
    assert Handlers.GetPost(store.Snapshot(), postId) == NotFound;
    assert Handlers.GetComment(store.Snapshot(), postId, commentId) == NotFound;
    assert store.Valid();
  }
}
