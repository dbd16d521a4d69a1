/**
 * The in-memory post and comment store (api/routers/post.py), with the
 * record shapes of api/models/post.py.
 *
 * The two module-level dictionaries become the two map fields of one
 * `PostStore` object. New ids are the table's size before insertion, so the
 * keys of each table are always exactly 0..n-1, each record's `id` equals
 * its key, and id order is insertion order (the order in which a Python
 * dict yields its values).
 */
module PostRouter {
  import opened Wrappers
  import opened Http

  /** `UserPost`: a stored post. */
  datatype UserPost = UserPost(id: int, body: string)

  /** `Comment`: a stored comment on the post `postId`. */
  datatype Comment = Comment(id: int, body: string, postId: int)

  /** Raised by the comment routes when the referenced post does not exist. */
  const PostNotFound: HttpError := HttpError(404, "Post not found")

  /** A table's keys are exactly 0..n-1 and each record's id, read by `id`, is its key. */
  ghost predicate IdsDense<R>(t: map<int, R>, id: R -> int) {
    && (forall k :: k in t <==> 0 <= k < |t|)
    && (forall k :: k in t ==> id(t[k]) == k)
  }

  /** In a sequence of comments in strictly increasing id order, the j-th id is at least j above the first. */
  lemma {:induction false} IdsClimb(cs: seq<Comment>)
    requires |cs| > 0
    requires forall j, l :: 0 <= j < l < |cs| ==> cs[j].id < cs[l].id
    ensures forall j :: 0 <= j < |cs| ==> cs[j].id >= cs[0].id + j
  {
    if |cs| > 1 {
      var init := cs[..|cs| - 1];
      IdsClimb(init);
      assert cs[|cs| - 2].id < cs[|cs| - 1].id;
    }
  }

  /** A sequence of comments in strictly increasing id order that all carry one id has at most one element. */
  lemma {:induction false} OneIdAtMostOnce(cs: seq<Comment>, id: int)
    requires forall j :: 0 <= j < |cs| ==> cs[j].id == id
    requires forall j, l :: 0 <= j < l < |cs| ==> cs[j].id < cs[l].id
    ensures |cs| <= 1
  {
    if |cs| > 0 {
      IdsClimb(cs);
      assert cs[|cs| - 1].id >= cs[0].id + |cs| - 1;
    }
  }

  class PostStore {
    var posts: map<int, UserPost>
    var comments: map<int, Comment>

    /** Dense ids in both tables, and every comment refers to a stored post. */
    ghost predicate Valid()
      reads this
    {
      && IdsDense(posts, (p: UserPost) => p.id)
      && IdsDense(comments, (c: Comment) => c.id)
      && (forall k :: k in comments ==> comments[k].postId in posts)
    }

    /** Both tables start empty. */
    constructor ()
      ensures Valid()
      ensures posts == map[] && comments == map[]
    {
      posts := map[];
      comments := map[];
    }

    /** `find_post`: `post_table.get(post_id)`. */
    function FindPost(postId: int): (r: Option<UserPost>)
      reads this
      ensures r.Some? <==> postId in posts
      ensures r.Some? ==> r.value == posts[postId]
    {
      if postId in posts then Some(posts[postId]) else None
    }

    /** `create_post`: stores a post with the next id and returns it. */
    method CreatePost(body: string) returns (p: UserPost)
      requires Valid()
      modifies this
      ensures Valid()
      ensures p == UserPost(|old(posts)|, body)
      ensures posts == old(posts)[p.id := p]
      ensures |posts| == |old(posts)| + 1
      ensures comments == old(comments)
    {
      var postId := |posts|;
      p := UserPost(postId, body);
      posts := posts[postId := p];
    }

    /** `create_comment`: 404 when the post is missing, otherwise stores a comment with the next id. */
    method CreateComment(body: string, postId: int) returns (r: Result<Comment, HttpError>)
      requires Valid()
      modifies this
      ensures Valid()
      ensures posts == old(posts)
      ensures postId !in old(posts) ==> r == Failure(PostNotFound) && comments == old(comments)
      ensures postId in old(posts) ==>
        && r == Success(Comment(|old(comments)|, body, postId))
        && comments == old(comments)[r.value.id := r.value]
        && |comments| == |old(comments)| + 1
    {
      var post := FindPost(postId);
      if post.None? {
        return Failure(PostNotFound);
      }
      var commentId := |comments|;
      var c := Comment(commentId, body, postId);
      comments := comments[commentId := c];
      r := Success(c);
    }

    /**
     * `get_comments`: 404 when the post is missing; otherwise exactly the
     * comments on that post, in insertion (id) order.
     */
    method GetComments(postId: int) returns (r: Result<seq<Comment>, HttpError>)
      requires Valid()
      ensures postId !in posts ==> r == Failure(PostNotFound)
      ensures postId in posts ==> r.Success?
      ensures r.Success? ==>
        && (forall j :: 0 <= j < |r.value| ==>
              r.value[j].postId == postId && r.value[j].id in comments && comments[r.value[j].id] == r.value[j])
        && (forall k :: k in comments && comments[k].postId == postId ==> comments[k] in r.value)
        && (forall j, l :: 0 <= j < l < |r.value| ==> r.value[j].id < r.value[l].id)
    {
      var post := FindPost(postId);
      if post.None? {
        return Failure(PostNotFound);
      }
      var found: seq<Comment> := [];
      var i := 0;
      while i < |comments|
        invariant 0 <= i <= |comments|
        invariant forall j :: 0 <= j < |found| ==>
          found[j].postId == postId && found[j].id in comments && comments[found[j].id] == found[j] && found[j].id < i
        invariant forall k :: 0 <= k < i && comments[k].postId == postId ==> comments[k] in found
        invariant forall j, l :: 0 <= j < l < |found| ==> found[j].id < found[l].id
      {
        var c := comments[i];
        if c.postId == postId {
          found := found + [c];
        }
        i := i + 1;
      }
      r := Success(found);
    }

    /** `get_post`: the stored post with that id, or `None`; a post's id is its position. */
    method GetPost(postId: int) returns (r: Option<UserPost>)
      requires Valid()
      ensures r.Some? <==> 0 <= postId < |posts|
      ensures r.Some? ==> r.value.id == postId && r.value == posts[postId]
    {
      r := FindPost(postId);
    }

    /** `get_posts`: every stored post, in insertion (id) order. */
    method GetPosts() returns (r: seq<UserPost>)
      requires Valid()
      ensures |r| == |posts|
      ensures forall j :: 0 <= j < |r| ==> r[j].id == j && r[j] == posts[j]
      ensures forall k :: k in posts ==> posts[k] in r
    {
      r := [];
      var i := 0;
      while i < |posts|
        invariant 0 <= i <= |posts|
        invariant |r| == i
        invariant forall j :: 0 <= j < i ==> r[j] == posts[j]
      {
        r := r + [posts[i]];
        i := i + 1;
      }
    }
  }

  /** The request sequence of the post tests, on a fresh store, then a comment on a missing post (the 404 path). */
  method PostScenario() {
    var store := new PostStore();
    var p := store.CreatePost("Test Post");
    assert p == UserPost(0, "Test Post");
    var all := store.GetPosts();
    assert all == [p];
    var c := store.CreateComment("Test Comment", p.id);
    assert c == Success(Comment(0, "Test Comment", 0));
    var onPost := store.GetComments(p.id);
    assert onPost.Success?;
    var listed := onPost.value;
    assert c.value in listed;
    OneIdAtMostOnce(listed, 0);
    assert listed == [c.value];
    var missing := store.CreateComment("Test Comment", 2);
    assert missing == Failure(PostNotFound);
  }
}
