/**
 * The database as a mutable store, and the views that change it: creating a post,
 * adding a comment, and updating or deleting a post or a comment.
 */
module Store {
  import opened Wrappers
  import opened Models
  import opened Sequences
  import opened Views
  import opened Access

  /** The fields `PostForm` edits (the image is not modelled). */
  datatype PostForm = PostForm(title: string, text: string, location: Option<LocationId>, pubDate: int, category: Option<CategoryId>)

  /** The one field `CommentForm` edits. */
  datatype CommentForm = CommentForm(text: string)

  /** The `is_published` a new post or comment gets: neither form sets it, so the model default applies. */
  const PublishedByDefault: bool := true

  /** The form an update view pre-fills from a post. */
  function PostFormOf(p: Post): (f: PostForm)
    ensures f.title == p.title && f.text == p.text && f.location == p.location
    ensures f.pubDate == p.pubDate && f.category == p.category
  {
    PostForm(p.title, p.text, p.location, p.pubDate, p.category)
  }

  /** The row a valid `PostForm` saves over `p`: the form's fields change, identity and author stay. */
  function EditPost(p: Post, form: PostForm): (r: Post)
    ensures r.id == p.id && r.author == p.author && r.isPublished == p.isPublished
    ensures PostFormOf(r) == form
    ensures form == PostFormOf(p) ==> r == p
  {
    p.(title := form.title, text := form.text, location := form.location, pubDate := form.pubDate, category := form.category)
  }

  /** The post `PostCreateView` saves: the form's fields, stamped with the viewer as author. */
  function NewPost(id: PostId, author: UserId, form: PostForm): (r: Post)
    ensures r.id == id && r.author == author && r.isPublished == PublishedByDefault
    ensures PostFormOf(r) == form
  {
    Post(id, author, form.title, form.text, form.pubDate, PublishedByDefault, form.category, form.location)
  }

  /** The row a valid `CommentForm` saves over `c`: only the text changes. */
  function EditComment(c: Comment, form: CommentForm): (r: Comment)
    ensures r.id == c.id && r.post == c.post && r.author == c.author
    ensures r.isPublished == c.isPublished && r.createdAt == c.createdAt
    ensures CommentForm(r.text) == form
    ensures form == CommentForm(c.text) ==> r == c
  {
    c.(text := form.text)
  }

  function HasPostId(id: PostId): Post -> bool {
    (p: Post) => p.id == id
  }

  function OtherPostId(id: PostId): Post -> bool {
    (p: Post) => p.id != id
  }

  function HasCommentId(id: CommentId): Comment -> bool {
    (c: Comment) => c.id == id
  }

  function OtherCommentId(id: CommentId): Comment -> bool {
    (c: Comment) => c.id != id
  }

  function NotOnPost(id: PostId): Comment -> bool {
    (c: Comment) => c.post != id
  }

  /** Saving the pre-filled form over its own post leaves the posts table as it was. */
  lemma {:induction false} PrefilledPostFormChangesNothing(s: seq<Post>, p: Post)
    requires forall q :: q in s && q.id == p.id ==> q == p
    ensures ReplaceWhere(s, HasPostId(p.id), EditPost(p, PostFormOf(p))) == s
  {
    if s != [] {
      assert s == [s[0]] + s[1..];
      PrefilledPostFormChangesNothing(s[1..], p);
    }
  }

  /** Saving a comment's unchanged text leaves the comments table as it was. */
  lemma {:induction false} UnchangedCommentFormChangesNothing(s: seq<Comment>, c: Comment)
    requires forall d :: d in s && d.id == c.id ==> d == c
    ensures ReplaceWhere(s, HasCommentId(c.id), EditComment(c, CommentForm(c.text))) == s
  {
    if s != [] {
      assert s == [s[0]] + s[1..];
      UnchangedCommentFormChangesNothing(s[1..], c);
    }
  }

  /** Overwriting a post with a row of the same key and author keeps the database constraints. */
  lemma ReplacePostKeepsWellFormed(db: Db, p: Post, e: Post)
    requires WellFormed(db) && p in db.posts
    requires e.id == p.id && e.author == p.author
    ensures WellFormed(db.(posts := ReplaceWhere(db.posts, HasPostId(p.id), e)))
  {
    var ps := ReplaceWhere(db.posts, HasPostId(p.id), e);
    DistinctKeysReplace(db.posts, PostKey, HasPostId(p.id), e);
    assert e in ps;
    forall c | c in db.comments ensures PostExists(ps, c.post) {
      var q :| q in db.posts && q.id == c.post;
      assert q.id != p.id ==> q in ps;
    }
  }

  /** Overwriting a comment with a row of the same key, author and post keeps the database constraints. */
  lemma ReplaceCommentKeepsWellFormed(db: Db, c: Comment, e: Comment)
    requires WellFormed(db) && c in db.comments
    requires e.id == c.id && e.author == c.author && e.post == c.post
    ensures WellFormed(db.(comments := ReplaceWhere(db.comments, HasCommentId(c.id), e)))
  {
    DistinctKeysReplace(db.comments, CommentKey, HasCommentId(c.id), e);
  }

  /** Removing a post together with its comments keeps the database constraints. */
  lemma DeletePostKeepsWellFormed(db: Db, postId: PostId)
    requires WellFormed(db)
    ensures WellFormed(db.(posts := Filter(db.posts, OtherPostId(postId)), comments := Filter(db.comments, NotOnPost(postId))))
  {
    var ps := Filter(db.posts, OtherPostId(postId));
    DistinctKeysFilter(db.posts, PostKey, OtherPostId(postId));
    DistinctKeysFilter(db.comments, CommentKey, NotOnPost(postId));
    forall c | c in Filter(db.comments, NotOnPost(postId)) ensures PostExists(ps, c.post) {
      var q :| q in db.posts && q.id == c.post;
      assert q in ps;
    }
  }

  /** Removing a comment keeps the database constraints. */
  lemma DeleteCommentKeepsWellFormed(db: Db, commentId: CommentId)
    requires WellFormed(db)
    ensures WellFormed(db.(comments := Filter(db.comments, OtherCommentId(commentId))))
  {
    DistinctKeysFilter(db.comments, CommentKey, OtherCommentId(commentId));
  }

  class BlogStore {
    var users: seq<User>
    var categories: seq<Category>
    var posts: seq<Post>
    var comments: seq<Comment>
    var nextPostId: PostId
    var nextCommentId: CommentId

    /** The tables as the read-only views see them. */
    function Snapshot(): Db
      reads this
    {
      Db(users, categories, posts, comments)
    }

    ghost predicate Valid()
      reads this
    {
      && WellFormed(Snapshot())
      && (forall p :: p in posts ==> p.id < nextPostId)
      && (forall c :: c in comments ==> c.id < nextCommentId)
    }

    /** A store with the given users and categories (managed elsewhere) and no posts or comments. */
    constructor (users: seq<User>, categories: seq<Category>)
      requires WellFormed(Db(users, categories, [], []))
      ensures Valid()
      ensures this.users == users && this.categories == categories && posts == [] && comments == []
    {
      this.users := users;
      this.categories := categories;
      posts := [];
      comments := [];
      nextPostId := 0;
      nextCommentId := 0;
    }

    /** `PostCreateView` on a valid form: login required, then the post is saved with the viewer as author. */
    method CreatePost(viewer: Option<UserId>, form: PostForm) returns (r: Redirect)
      requires Valid()
      requires viewer.Some? ==> UserExists(users, viewer.value)
      modifies this
      ensures Valid()
      ensures users == old(users) && categories == old(categories) && comments == old(comments)
      ensures nextCommentId == old(nextCommentId)
      ensures viewer.None? ==> r == ToLogin && posts == old(posts) && nextPostId == old(nextPostId)
      ensures viewer.Some? ==>
                && r == ToProfile(viewer.value)
                && posts == old(posts) + [NewPost(old(nextPostId), viewer.value, form)]
                && nextPostId == old(nextPostId) + 1
    {
      if viewer.None? {
        r := ToLogin;
        return;
      }
      posts := posts + [NewPost(nextPostId, viewer.value, form)];
      nextPostId := nextPostId + 1;
      r := ToProfile(viewer.value);
    }

    /**
     * `AddCommentView` on a valid form: login required; the target post must pass the
     * visibility rule (even for its author), else 404; the comment is saved with the
     * viewer as author and the target as its post.
     */
    method AddComment(viewer: Option<UserId>, postId: PostId, form: CommentForm, now: int) returns (r: Response<Redirect>)
      requires Valid()
      requires viewer.Some? ==> UserExists(users, viewer.value)
      modifies this
      ensures Valid()
      ensures users == old(users) && categories == old(categories) && posts == old(posts)
      ensures nextPostId == old(nextPostId)
      ensures viewer.None? ==> r == Ok(ToLogin) && comments == old(comments) && nextCommentId == old(nextCommentId)
      ensures viewer.Some? && CommentTarget(old(Snapshot()), postId, now).NotFound? ==>
                r == NotFound && comments == old(comments) && nextCommentId == old(nextCommentId)
      ensures viewer.Some? && CommentTarget(old(Snapshot()), postId, now).Ok? ==>
                && r == Ok(ToPostDetail(postId))
                && comments == old(comments) + [Comment(old(nextCommentId), postId, viewer.value, form.text, PublishedByDefault, now)]
                && nextCommentId == old(nextCommentId) + 1
                && CommentCount(comments, postId) == CommentCount(old(comments), postId) + 1
    {
      if viewer.None? {
        r := Ok(ToLogin);
        return;
      }
      var target := CommentTarget(Snapshot(), postId, now);
      if target.NotFound? {
        r := NotFound;
        return;
      }
      var c := Comment(nextCommentId, target.value.id, viewer.value, form.text, PublishedByDefault, now);
      ghost var before := Snapshot();
      assert WellFormed(before.(comments := before.comments + [c])) by {
        assert PostExists(posts, c.post);
        AppendCommentKeepsWellFormed(before, c);
      }
      CommentCountAfterAppend(comments, c, postId);
      comments := comments + [c];
      nextCommentId := nextCommentId + 1;
      assert Snapshot() == before.(comments := before.comments + [c]);
      r := Ok(ToPostDetail(target.value.id));
    }

    /** `PostUpdateView` on a valid form: 404 for a missing post, the guard, then the form's fields are saved. */
    method UpdatePost(viewer: Option<UserId>, postId: PostId, form: PostForm) returns (r: Response<Redirect>)
      requires Valid()
      modifies this
      ensures Valid()
      ensures users == old(users) && categories == old(categories) && comments == old(comments)
      ensures nextPostId == old(nextPostId) && nextCommentId == old(nextCommentId)
      ensures r.NotFound? <==> !PostExists(old(posts), postId)
      ensures r.NotFound? ==> posts == old(posts)
      ensures forall p :: p in old(posts) && p.id == postId ==>
                match Authorize(viewer, GuardedPost(p))
                case Proceed =>
                  && r == Ok(ToPostDetail(postId))
                  && posts == ReplaceWhere(old(posts), HasPostId(postId), EditPost(p, form))
                  && (form == PostFormOf(p) ==> posts == old(posts))
                case Deny(to) => r == Ok(to) && posts == old(posts)
    {
      var found := First(posts, HasPostId(postId));
      if found.None? {
        r := NotFound;
        return;
      }
      var p := found.value;
      assert p.id == postId;
      assert forall q :: q in posts && q.id == postId ==> q == p by {
        PostKeyNamesOneRow(posts);
      }
      match Authorize(viewer, GuardedPost(p))
      case Deny(to) =>
        r := Ok(to);
      case Proceed =>
        var edited := EditPost(p, form);
        assert form == PostFormOf(p) ==> ReplaceWhere(posts, HasPostId(p.id), edited) == posts by {
          PrefilledPostFormChangesNothing(posts, p);
        }
        ghost var before := Snapshot();
        assert WellFormed(before.(posts := ReplaceWhere(before.posts, HasPostId(p.id), edited))) by {
          ReplacePostKeepsWellFormed(before, p, edited);
        }
        posts := ReplaceWhere(posts, HasPostId(postId), edited);
        assert Snapshot() == before.(posts := ReplaceWhere(before.posts, HasPostId(p.id), edited));
        r := Ok(ToPostDetail(p.id));
    }

    /**
     * `PostDeleteView`: 404 for a missing post, the guard, then the post is removed
     * together with its comments and the author is sent to their profile.
     */
    method DeletePost(viewer: Option<UserId>, postId: PostId) returns (r: Response<Redirect>)
      requires Valid()
      modifies this
      ensures Valid()
      ensures users == old(users) && categories == old(categories)
      ensures nextPostId == old(nextPostId) && nextCommentId == old(nextCommentId)
      ensures r.NotFound? <==> !PostExists(old(posts), postId)
      ensures r.NotFound? ==> posts == old(posts) && comments == old(comments)
      ensures forall p :: p in old(posts) && p.id == postId ==>
                match Authorize(viewer, GuardedPost(p))
                case Proceed =>
                  && r == Ok(ToProfile(p.author))
                  && posts == Filter(old(posts), OtherPostId(postId))
                  && comments == Filter(old(comments), NotOnPost(postId))
                case Deny(to) => r == Ok(to) && posts == old(posts) && comments == old(comments)
    {
      var found := First(posts, HasPostId(postId));
      if found.None? {
        r := NotFound;
        return;
      }
      var p := found.value;
      assert p.id == postId;
      assert forall q :: q in posts && q.id == postId ==> q == p by {
        PostKeyNamesOneRow(posts);
      }
      match Authorize(viewer, GuardedPost(p))
      case Deny(to) =>
        r := Ok(to);
      case Proceed =>
        ghost var before := Snapshot();
        DeletePostKeepsWellFormed(before, postId);
        posts := Filter(posts, OtherPostId(postId));
        comments := Filter(comments, NotOnPost(postId));
        assert Snapshot() == before.(posts := Filter(before.posts, OtherPostId(postId)), comments := Filter(before.comments, NotOnPost(postId)));
        r := Ok(ToProfile(viewer.value));
    }

    /** `CommentUpdateView` on a valid form: 404 for a missing comment, the guard, then the text is saved. */
    method UpdateComment(viewer: Option<UserId>, commentId: CommentId, form: CommentForm) returns (r: Response<Redirect>)
      requires Valid()
      modifies this
      ensures Valid()
      ensures users == old(users) && categories == old(categories) && posts == old(posts)
      ensures nextPostId == old(nextPostId) && nextCommentId == old(nextCommentId)
      ensures r.NotFound? <==> forall c :: c in old(comments) ==> c.id != commentId
      ensures r.NotFound? ==> comments == old(comments)
      ensures forall c :: c in old(comments) && c.id == commentId ==>
                match Authorize(viewer, GuardedComment(c))
                case Proceed =>
                  && r == Ok(ToPostDetail(c.post))
                  && comments == ReplaceWhere(old(comments), HasCommentId(commentId), EditComment(c, form))
                  && (form == CommentForm(c.text) ==> comments == old(comments))
                case Deny(to) => r == Ok(to) && comments == old(comments)
    {
      var found := First(comments, HasCommentId(commentId));
      if found.None? {
        r := NotFound;
        return;
      }
      var c := found.value;
      assert c.id == commentId;
      assert forall d :: d in comments && d.id == commentId ==> d == c by {
        CommentKeyNamesOneRow(comments);
      }
      match Authorize(viewer, GuardedComment(c))
      case Deny(to) =>
        r := Ok(to);
      case Proceed =>
        var edited := EditComment(c, form);
        assert form == CommentForm(c.text) ==> ReplaceWhere(comments, HasCommentId(c.id), edited) == comments by {
          UnchangedCommentFormChangesNothing(comments, c);
        }
        ghost var before := Snapshot();
        assert WellFormed(before.(comments := ReplaceWhere(before.comments, HasCommentId(c.id), edited))) by {
          ReplaceCommentKeepsWellFormed(before, c, edited);
        }
        comments := ReplaceWhere(comments, HasCommentId(commentId), edited);
        assert Snapshot() == before.(comments := ReplaceWhere(before.comments, HasCommentId(c.id), edited));
        r := Ok(ToPostDetail(c.post));
    }

    /** `CommentDeleteView`: 404 for a missing comment, the guard, then the comment is removed. */
    method DeleteComment(viewer: Option<UserId>, commentId: CommentId) returns (r: Response<Redirect>)
      requires Valid()
      modifies this
      ensures Valid()
      ensures users == old(users) && categories == old(categories) && posts == old(posts)
      ensures nextPostId == old(nextPostId) && nextCommentId == old(nextCommentId)
      ensures r.NotFound? <==> forall c :: c in old(comments) ==> c.id != commentId
      ensures r.NotFound? ==> comments == old(comments)
      ensures forall c :: c in old(comments) && c.id == commentId ==>
                match Authorize(viewer, GuardedComment(c))
                case Proceed => r == Ok(ToPostDetail(c.post)) && comments == Filter(old(comments), OtherCommentId(commentId))
                case Deny(to) => r == Ok(to) && comments == old(comments)
    {
      var found := First(comments, HasCommentId(commentId));
      if found.None? {
        r := NotFound;
        return;
      }
      var c := found.value;
      assert c.id == commentId;
      assert forall d :: d in comments && d.id == commentId ==> d == c by {
        CommentKeyNamesOneRow(comments);
      }
      match Authorize(viewer, GuardedComment(c))
      case Deny(to) =>
        r := Ok(to);
      case Proceed =>
        ghost var before := Snapshot();
        DeleteCommentKeepsWellFormed(before, commentId);
        comments := Filter(comments, OtherCommentId(commentId));
        assert Snapshot() == before.(comments := Filter(before.comments, OtherCommentId(commentId)));
        r := Ok(ToPostDetail(c.post));
    }
  }
}
