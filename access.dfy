/**
 * `AuthorRequiredMixin`: only the author of a post or comment may change it, and a
 * refused request is redirected to a page chosen by the kind of object.
 */
module Access {
  import opened Wrappers
  import opened Models

  /** Where a view sends the browser; the URL of each target is built by the URL router. */
  datatype Redirect = ToIndex | ToPostDetail(post: PostId) | ToProfile(user: UserId) | ToLogin

  /** The object a guarded view loaded, tagged by its kind (the `isinstance` dispatch). */
  datatype Guarded = GuardedPost(post: Post) | GuardedComment(comment: Comment) | GuardedOther(author: UserId)

  function AuthorOf(g: Guarded): UserId {
    match g
    case GuardedPost(p) => p.author
    case GuardedComment(c) => c.author
    case GuardedOther(a) => a
  }

  /** `test_func`: the object's author is the signed-in viewer; an anonymous viewer is nobody's author. */
  predicate TestFunc(viewer: Option<UserId>, g: Guarded): (b: bool)
    ensures b <==> viewer.Some? && viewer.value == AuthorOf(g)
    ensures viewer.None? ==> !b
  {
    viewer == Some(AuthorOf(g))
  }

  /** `handle_no_permission`: the post itself, the comment's post, or else the index. */
  function HandleNoPermission(g: Guarded): (r: Redirect)
    ensures r != ToLogin
    ensures r.ToPostDetail? <==> !g.GuardedOther?
    ensures g.GuardedPost? ==> r.ToPostDetail? && r.post == g.post.id
    ensures g.GuardedComment? ==> r.ToPostDetail? && r.post == g.comment.post
    ensures g.GuardedOther? ==> r == ToIndex
  {
    match g
    case GuardedPost(p) => ToPostDetail(p.id)
    case GuardedComment(c) => ToPostDetail(c.post)
    case GuardedOther(_) => ToIndex
  }

  datatype Decision = Proceed | Deny(redirect: Redirect)

  /** What `UserPassesTestMixin.dispatch` decides before an update or delete view runs. */
  function Authorize(viewer: Option<UserId>, g: Guarded): (d: Decision)
    ensures d.Proceed? <==> viewer.Some? && viewer.value == AuthorOf(g)
    ensures viewer.None? ==> d.Deny?
    ensures d.Deny? ==> d.redirect == HandleNoPermission(g) && d.redirect != ToLogin
  {
    if TestFunc(viewer, g) then Proceed else Deny(HandleNoPermission(g))
  }

  /** A refused update or delete of a stored post or comment lands on an existing post's detail page. */
  lemma DenialLandsOnParentPost(db: Db, g: Guarded)
    requires WellFormed(db)
    requires (g.GuardedPost? && g.post in db.posts) || (g.GuardedComment? && g.comment in db.comments)
    ensures HandleNoPermission(g).ToPostDetail?
    ensures PostExists(db.posts, HandleNoPermission(g).post)
    ensures g.GuardedComment? ==> HandleNoPermission(g).post == g.comment.post
  {
  }
}
