/**
 * The read-only views: the index feed, a category feed, a user's profile and a
 * post's detail page. `viewer` stands for `request.user` (None when anonymous)
 * and `now` for `timezone.now()`.
 */
module Views {
  import opened Wrappers
  import opened Models
  import opened Sequences
  import opened Pagination

  /** A post annotated with `comment_count`. */
  datatype ListedPost = ListedPost(post: Post, commentCount: nat)

  datatype CategoryPage = CategoryPage(category: Category, page: Page<ListedPost>)

  datatype ProfilePage = ProfilePage(profile: User, page: Page<ListedPost>)

  datatype Detail = Detail(post: Post, comments: seq<Comment>)

  // ---------------------------------------------------------------------------
  // Filters, annotation and ordering shared by the listings

  function OnPost(pid: PostId): Comment -> bool {
    (c: Comment) => c.post == pid
  }

  function PublishedOnPost(pid: PostId): Comment -> bool {
    (c: Comment) => c.post == pid && c.isPublished
  }

  function UnpublishedOnPost(pid: PostId): Comment -> bool {
    (c: Comment) => c.post == pid && !c.isPublished
  }

  /** `Count('comments')`: every comment of the post, published or not. */
  function CommentCount(comments: seq<Comment>, pid: PostId): nat {
    |Filter(comments, OnPost(pid))|
  }

  predicate Annotated(db: Db, lp: ListedPost) {
    lp.commentCount == CommentCount(db.comments, lp.post.id)
  }

  /** `.annotate(comment_count=Count('comments'))`. */
  function Annotate(db: Db, posts: seq<Post>): (r: seq<ListedPost>)
    ensures |r| == |posts|
    ensures forall lp :: lp in r ==> lp.post in posts && Annotated(db, lp)
    ensures forall lp: ListedPost :: lp.post in posts && Annotated(db, lp) ==> lp in r
    ensures forall i :: 0 <= i < |posts| ==> r[i] == ListedPost(posts[i], CommentCount(db.comments, posts[i].id))
  {
    if posts == [] then []
    else
      assert posts == [posts[0]] + posts[1..];
      [ListedPost(posts[0], CommentCount(db.comments, posts[0].id))] + Annotate(db, posts[1..])
  }

  /** Annotating and then filtering on the post is filtering and then annotating. */
  lemma {:induction false} AnnotateThenFilter(db: Db, posts: seq<Post>, f: Post -> bool, g: ListedPost -> bool)
    requires forall lp: ListedPost :: g(lp) == f(lp.post)
    ensures Filter(Annotate(db, posts), g) == Annotate(db, Filter(posts, f))
  {
    if posts != [] {
      assert posts == [posts[0]] + posts[1..];
      AnnotateThenFilter(db, posts[1..], f, g);
    }
  }

  /** The sort key of `order_by('-pub_date')`. */
  function NewestFirstKey(lp: ListedPost): int {
    -lp.post.pubDate
  }

  /** The sort key of `order_by('created_at')`. */
  function OldestFirstKey(c: Comment): int {
    c.createdAt
  }

  ghost predicate NewestFirst(s: seq<ListedPost>) {
    forall i, j :: 0 <= i < j < |s| ==> s[i].post.pubDate >= s[j].post.pubDate
  }

  ghost predicate OldestFirst(s: seq<Comment>) {
    forall i, j :: 0 <= i < j < |s| ==> s[i].createdAt <= s[j].createdAt
  }

  function PubliclyVisible(db: Db, now: int): Post -> bool {
    p => Visible(db, p, now)
  }

  function ListedVisible(db: Db, now: int): ListedPost -> bool {
    (lp: ListedPost) => Visible(db, lp.post, now)
  }

  function OrderNewestFirst(s: seq<ListedPost>): (r: seq<ListedPost>)
    ensures multiset(r) == multiset(s)
    ensures forall lp :: lp in r ==> lp in s
    ensures forall lp :: lp in s ==> lp in r
    ensures |r| == |s|
    ensures NewestFirst(r)
  {
    SortBy(s, NewestFirstKey)
  }

  /** A page of an ordered listing is ordered and holds only items of the listing. */
  lemma PageOfListing(all: seq<ListedPost>, page: PageArg)
    requires NewestFirst(all)
    ensures NewestFirst(GetPageObj(all, page).items)
    ensures forall lp :: lp in GetPageObj(all, page).items ==> lp in all
  {
  }

  // ---------------------------------------------------------------------------
  // index

  /** The index feed before paging: every visible post, annotated, newest first. */
  function IndexPosts(db: Db, now: int): (r: seq<ListedPost>)
    ensures forall lp :: lp in r ==> lp.post in db.posts && Visible(db, lp.post, now) && Annotated(db, lp)
    ensures forall lp: ListedPost :: lp.post in db.posts && Visible(db, lp.post, now) && Annotated(db, lp) ==> lp in r
    ensures |r| == |Filter(db.posts, PubliclyVisible(db, now))|
    ensures multiset(r) == multiset(Annotate(db, Filter(db.posts, PubliclyVisible(db, now))))
    ensures NewestFirst(r)
  {
    OrderNewestFirst(Annotate(db, Filter(db.posts, PubliclyVisible(db, now))))
  }

  function Index(db: Db, now: int, page: PageArg): (r: Page<ListedPost>)
    ensures forall lp :: lp in r.items ==> lp.post in db.posts && Visible(db, lp.post, now) && Annotated(db, lp)
    ensures |r.items| <= PageSize
    ensures NewestFirst(r.items)
    ensures r == GetPageObj(IndexPosts(db, now), page)
  {
    var all := IndexPosts(db, now);
    PageOfListing(all, page);
    GetPageObj(all, page)
  }

  // ---------------------------------------------------------------------------
  // category_posts

  function PublishedWithSlug(slug: string): Category -> bool {
    (c: Category) => c.slug == slug && c.isPublished
  }

  /** The filter of `category.posts.filter(category=category, is_published=True, pub_date__lte=now)`. */
  function InCategoryUpTo(cat: Category, now: int): Post -> bool {
    (p: Post) => p.category == Some(cat.id) && p.isPublished && p.pubDate <= now
  }

  /** The category feed before paging. */
  function CategoryListing(db: Db, cat: Category, now: int): (r: seq<ListedPost>)
    ensures forall lp :: lp in r ==> lp.post in db.posts && InCategoryUpTo(cat, now)(lp.post) && Annotated(db, lp)
    ensures forall lp: ListedPost :: lp.post in db.posts && InCategoryUpTo(cat, now)(lp.post) && Annotated(db, lp) ==> lp in r
    ensures NewestFirst(r)
    ensures |r| == |Filter(db.posts, InCategoryUpTo(cat, now))|
    ensures multiset(r) == multiset(Annotate(db, Filter(db.posts, InCategoryUpTo(cat, now))))
  {
    OrderNewestFirst(Annotate(db, Filter(db.posts, InCategoryUpTo(cat, now))))
  }

  function CategoryPosts(db: Db, slug: string, now: int, page: PageArg): (r: Response<CategoryPage>)
    ensures r.NotFound? <==> forall c :: c in db.categories ==> !(c.slug == slug && c.isPublished)
    ensures r.Ok? ==> r.value.category in db.categories
    ensures r.Ok? ==> r.value.category.slug == slug && r.value.category.isPublished
    ensures r.Ok? ==> forall lp :: lp in r.value.page.items ==>
                        && lp.post in db.posts
                        && Visible(db, lp.post, now)
                        && lp.post.category == Some(r.value.category.id)
                        && Annotated(db, lp)
    ensures r.Ok? ==> |r.value.page.items| <= PageSize && NewestFirst(r.value.page.items)
    ensures r.Ok? ==> r.value.page == GetPageObj(CategoryListing(db, r.value.category, now), page)
  {
    match First(db.categories, PublishedWithSlug(slug))
    case None => NotFound
    case Some(cat) =>
      var all := CategoryListing(db, cat, now);
      PageOfListing(all, page);
      var p := GetPageObj(all, page);
      Ok(CategoryPage(cat, p))
  }

  function PostInCategory(cid: CategoryId): Post -> bool {
    (p: Post) => p.category == Some(cid)
  }

  function ListedInCategory(cid: CategoryId): ListedPost -> bool {
    (lp: ListedPost) => lp.post.category == Some(cid)
  }

  /**
   * A published category's feed holds the same rows as the index feed restricted to
   * that category, each as often; only the order of equal dates may differ.
   */
  lemma CategoryFeedIsIndexRestricted(db: Db, cat: Category, now: int)
    requires cat in db.categories && cat.isPublished
    ensures forall lp :: lp in CategoryListing(db, cat, now) ==> lp in IndexPosts(db, now)
    ensures forall lp :: lp in IndexPosts(db, now) && lp.post.category == Some(cat.id) ==>
                           lp in CategoryListing(db, cat, now)
    ensures multiset(Filter(IndexPosts(db, now), ListedInCategory(cat.id))) == multiset(CategoryListing(db, cat, now))
  {
    var visible := Filter(db.posts, PubliclyVisible(db, now));
    FilterOfPermutation(IndexPosts(db, now), Annotate(db, visible), ListedInCategory(cat.id));
    AnnotateThenFilter(db, visible, PostInCategory(cat.id), ListedInCategory(cat.id));
    FilterFilter(db.posts, PubliclyVisible(db, now), PostInCategory(cat.id), InCategoryUpTo(cat, now));
  }

  // ---------------------------------------------------------------------------
  // profile

  function ByAuthor(uid: UserId): Post -> bool {
    (p: Post) => p.author == uid
  }

  /** The posts of `uid` that `viewer` may see on the profile: all of them for the owner, else the visible ones. */
  function ProfileVisibleTo(db: Db, viewer: Option<UserId>, uid: UserId, now: int): Post -> bool {
    (p: Post) => p.author == uid && (viewer == Some(uid) || Visible(db, p, now))
  }

  /** The profile listing of user `uid` before paging, as `viewer` sees it. */
  function ProfileListing(db: Db, viewer: Option<UserId>, uid: UserId, now: int): (r: seq<ListedPost>)
    ensures forall lp :: lp in r ==>
              && lp.post in db.posts && lp.post.author == uid && Annotated(db, lp)
              && (viewer == Some(uid) || Visible(db, lp.post, now))
    ensures forall lp: ListedPost ::
              (&& lp.post in db.posts && lp.post.author == uid && Annotated(db, lp)
               && (viewer == Some(uid) || Visible(db, lp.post, now))) ==> lp in r
    ensures NewestFirst(r)
    ensures |r| == |Filter(db.posts, ProfileVisibleTo(db, viewer, uid, now))|
    ensures multiset(r) == multiset(Annotate(db, Filter(db.posts, ProfileVisibleTo(db, viewer, uid, now))))
  {
    var annotated := Annotate(db, Filter(db.posts, ByAuthor(uid)));
    var ordered := OrderNewestFirst(annotated);
    if viewer != Some(uid) then
      FilterPreservesSorted(ordered, ListedVisible(db, now), NewestFirstKey);
      FilterOfPermutation(ordered, annotated, ListedVisible(db, now));
      AnnotateThenFilter(db, Filter(db.posts, ByAuthor(uid)), PubliclyVisible(db, now), ListedVisible(db, now));
      FilterFilter(db.posts, ByAuthor(uid), PubliclyVisible(db, now), ProfileVisibleTo(db, viewer, uid, now));
      Filter(ordered, ListedVisible(db, now))
    else
      FilterSame(db.posts, ByAuthor(uid), ProfileVisibleTo(db, viewer, uid, now));
      ordered
  }

  function WithUsername(username: string): User -> bool {
    (u: User) => u.username == username
  }

  function Profile(db: Db, viewer: Option<UserId>, username: string, now: int, page: PageArg): (r: Response<ProfilePage>)
    ensures r.NotFound? <==> forall u :: u in db.users ==> u.username != username
    ensures r.Ok? ==> r.value.profile in db.users && r.value.profile.username == username
    ensures r.Ok? ==> forall lp :: lp in r.value.page.items ==>
                        && lp.post in db.posts && lp.post.author == r.value.profile.id && Annotated(db, lp)
                        && (viewer == Some(r.value.profile.id) || Visible(db, lp.post, now))
    ensures r.Ok? ==> |r.value.page.items| <= PageSize && NewestFirst(r.value.page.items)
    ensures r.Ok? ==> r.value.page == GetPageObj(ProfileListing(db, viewer, r.value.profile.id, now), page)
  {
    match First(db.users, WithUsername(username))
    case None => NotFound
    case Some(user) =>
      var all := ProfileListing(db, viewer, user.id, now);
      PageOfListing(all, page);
      var p := GetPageObj(all, page);
      Ok(ProfilePage(user, p))
  }

  /** What anyone else (anonymous included) sees of a profile, its owner sees too. */
  lemma ProfileOwnerSeesMore(db: Db, viewer: Option<UserId>, uid: UserId, now: int)
    ensures forall lp :: lp in ProfileListing(db, viewer, uid, now) ==> lp in ProfileListing(db, Some(uid), uid, now)
  {
  }

  // ---------------------------------------------------------------------------
  // post_detail

  /** The `Q` object of `post_detail`: the author override for a signed-in viewer, else visibility only. */
  function DetailQuery(db: Db, viewer: Option<UserId>, postId: PostId, now: int): (q: Post -> bool)
    ensures forall p :: q(p) <==> p.id == postId && (viewer == Some(p.author) || Visible(db, p, now))
  {
    if viewer.Some? then
      var uid := viewer.value;
      (p: Post) => p.id == postId && (p.author == uid || Visible(db, p, now))
    else
      (p: Post) => p.id == postId && Visible(db, p, now)
  }

  /** `post.comments.filter(is_published=True).order_by('created_at')`. */
  function DetailComments(db: Db, pid: PostId): (r: seq<Comment>)
    ensures forall c :: c in r ==> c in db.comments && c.post == pid && c.isPublished
    ensures forall c :: c in db.comments && c.post == pid && c.isPublished ==> c in r
    ensures OldestFirst(r)
    ensures |r| == |Filter(db.comments, PublishedOnPost(pid))|
    ensures multiset(r) == multiset(Filter(db.comments, PublishedOnPost(pid)))
  {
    SortBy(Filter(db.comments, PublishedOnPost(pid)), OldestFirstKey)
  }

  function PostDetail(db: Db, viewer: Option<UserId>, postId: PostId, now: int): (r: Response<Detail>)
    ensures r.Ok? <==> exists p :: p in db.posts && p.id == postId && (viewer == Some(p.author) || Visible(db, p, now))
    ensures r.Ok? ==> r.value.post in db.posts && r.value.post.id == postId
    ensures r.Ok? ==> viewer == Some(r.value.post.author) || Visible(db, r.value.post, now)
    ensures r.Ok? && viewer.None? ==> Visible(db, r.value.post, now)
    ensures r.Ok? ==> r.value.comments == DetailComments(db, postId)
  {
    match First(db.posts, DetailQuery(db, viewer, postId, now))
    case None => NotFound
    case Some(post) => Ok(Detail(post, DetailComments(db, post.id)))
  }

  /** A stored post opens at its detail page for every viewer the rule admits: its author, or anyone once visible. */
  lemma PostOpensForAllowed(db: Db, viewer: Option<UserId>, p: Post, now: int)
    requires WellFormed(db)
    requires p in db.posts && (viewer == Some(p.author) || Visible(db, p, now))
    ensures PostDetail(db, viewer, p.id, now) == Ok(Detail(p, DetailComments(db, p.id)))
  {
    KeysNameOneRow(db);
    assert DetailQuery(db, viewer, p.id, now)(p);
  }

  /** A stored post the rule does not admit for `viewer` (not its author, not visible) is a 404 for that viewer. */
  lemma PostClosedForOthers(db: Db, viewer: Option<UserId>, p: Post, now: int)
    requires WellFormed(db)
    requires p in db.posts && viewer != Some(p.author) && !Visible(db, p, now)
    ensures PostDetail(db, viewer, p.id, now).NotFound?
  {
    KeysNameOneRow(db);
  }

  /** Every post of the index feed opens, for any viewer, at its detail page. */
  lemma FeedPostsOpenForEveryone(db: Db, viewer: Option<UserId>, now: int, lp: ListedPost)
    requires WellFormed(db)
    requires lp in IndexPosts(db, now)
    ensures PostDetail(db, viewer, lp.post.id, now) == Ok(Detail(lp.post, DetailComments(db, lp.post.id)))
  {
    PostOpensForAllowed(db, viewer, lp.post, now);
  }

  /** Every post of a published category's feed opens, for any viewer, at its detail page. */
  lemma CategoryFeedPostsOpenForEveryone(db: Db, cat: Category, viewer: Option<UserId>, now: int, lp: ListedPost)
    requires WellFormed(db)
    requires cat in db.categories && cat.isPublished
    requires lp in CategoryListing(db, cat, now)
    ensures PostDetail(db, viewer, lp.post.id, now) == Ok(Detail(lp.post, DetailComments(db, lp.post.id)))
  {
    CategoryFeedIsIndexRestricted(db, cat, now);
    FeedPostsOpenForEveryone(db, viewer, now, lp);
  }

  /**
   * Every post on a profile opens at its detail page for the viewer who saw it there,
   * and, when that viewer is not the profile's owner, for every other viewer too.
   */
  lemma ProfilePostsOpen(db: Db, viewer: Option<UserId>, other: Option<UserId>, uid: UserId, now: int, lp: ListedPost)
    requires WellFormed(db)
    requires lp in ProfileListing(db, viewer, uid, now)
    ensures PostDetail(db, viewer, lp.post.id, now) == Ok(Detail(lp.post, DetailComments(db, lp.post.id)))
    ensures viewer != Some(uid) ==>
              PostDetail(db, other, lp.post.id, now) == Ok(Detail(lp.post, DetailComments(db, lp.post.id)))
  {
    assert lp.post in db.posts && lp.post.author == uid && (viewer == Some(uid) || Visible(db, lp.post, now));
    PostOpensForAllowed(db, viewer, lp.post, now);
    if viewer != Some(uid) {
      PostOpensForAllowed(db, other, lp.post, now);
    }
  }

  /**
   * A post that fails the visibility rule reaches its author only: it is missing
   * from the index, every category feed and everyone else's view of the profile
   * and detail page, and present in the author's own profile and detail page.
   */
  lemma HiddenPostReachesOnlyItsAuthor(db: Db, p: Post, now: int, viewer: Option<UserId>)
    requires WellFormed(db)
    requires p in db.posts && !Visible(db, p, now)
    ensures forall lp :: lp in IndexPosts(db, now) ==> lp.post != p
    ensures forall cat, lp :: cat in db.categories && cat.isPublished && lp in CategoryListing(db, cat, now) ==> lp.post != p
    ensures viewer != Some(p.author) ==> forall lp :: lp in ProfileListing(db, viewer, p.author, now) ==> lp.post != p
    ensures viewer != Some(p.author) ==> PostDetail(db, viewer, p.id, now).NotFound?
    ensures ListedPost(p, CommentCount(db.comments, p.id)) in ProfileListing(db, Some(p.author), p.author, now)
    ensures PostDetail(db, Some(p.author), p.id, now) == Ok(Detail(p, DetailComments(db, p.id)))
  {
    if viewer != Some(p.author) {
      PostClosedForOthers(db, viewer, p, now);
    }
    PostOpensForAllowed(db, Some(p.author), p, now);
  }

  /** The lookup of `AddCommentView.form_valid`: the post with that key, if it passes the visibility rule. */
  function CommentTarget(db: Db, postId: PostId, now: int): (r: Response<Post>)
    ensures r.Ok? <==> exists p :: p in db.posts && p.id == postId && Visible(db, p, now)
    ensures r.Ok? ==> r.value in db.posts && r.value.id == postId && Visible(db, r.value, now)
  {
    match First(db.posts, (p: Post) => p.id == postId && Visible(db, p, now))
    case None => NotFound
    case Some(p) => Ok(p)
  }

  /** A post that accepts comments opens for every viewer at its detail page. */
  lemma CommentTargetOpensForEveryone(db: Db, viewer: Option<UserId>, postId: PostId, now: int)
    requires WellFormed(db)
    requires CommentTarget(db, postId, now).Ok?
    ensures PostDetail(db, viewer, postId, now) == Ok(Detail(CommentTarget(db, postId, now).value, DetailComments(db, postId)))
  {
    PostOpensForAllowed(db, viewer, CommentTarget(db, postId, now).value, now);
  }

  /** `comment_count` counts the comments the detail page shows and the unpublished ones it hides. */
  lemma CommentCountCoversHidden(db: Db, pid: PostId)
    ensures CommentCount(db.comments, pid) == |DetailComments(db, pid)| + |Filter(db.comments, UnpublishedOnPost(pid))|
    ensures CommentCount(db.comments, pid) >= |DetailComments(db, pid)|
  {
    FilterPartition(db.comments, OnPost(pid), PublishedOnPost(pid), UnpublishedOnPost(pid));
  }

  /** Appending a comment raises the count of its own post by one and no other count. */
  lemma CommentCountAfterAppend(comments: seq<Comment>, c: Comment, pid: PostId)
    ensures CommentCount(comments + [c], pid) == CommentCount(comments, pid) + (if c.post == pid then 1 else 0)
  {
    FilterAppend(comments, [c], OnPost(pid));
  }
}
