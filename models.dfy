/**
 * The rows the blog views read and write: users, categories, posts and comments,
 * and the public-visibility rule that every listing repeats.
 */
module Models {
  import opened Wrappers
  import opened Sequences

  type UserId = nat
  type CategoryId = nat
  type LocationId = nat
  type PostId = nat
  type CommentId = nat

  datatype User = User(id: UserId, username: string)

  datatype Category = Category(id: CategoryId, slug: string, isPublished: bool)

  /** A post; `category` and `location` are nullable foreign keys, `pubDate` is a timestamp. */
  datatype Post = Post(
    id: PostId,
    author: UserId,
    title: string,
    text: string,
    pubDate: int,
    isPublished: bool,
    category: Option<CategoryId>,
    location: Option<LocationId>)

  datatype Comment = Comment(
    id: CommentId,
    post: PostId,
    author: UserId,
    text: string,
    isPublished: bool,
    createdAt: int)

  /** One snapshot of the database tables the views query. */
  datatype Db = Db(users: seq<User>, categories: seq<Category>, posts: seq<Post>, comments: seq<Comment>)

  /**
   * `category__is_published=True`: a join through the post's category, so a post
   * without a category (or whose category row is missing) never passes.
   */
  predicate CategoryPublished(categories: seq<Category>, p: Post) {
    p.category.Some? && exists c :: c in categories && c.id == p.category.value && c.isPublished
  }

  /** The public-visibility filter: published, in a published category, and dated no later than `now`. */
  predicate Visible(db: Db, p: Post, now: int): (b: bool)
    ensures b ==> p.category.Some? && p.isPublished && p.pubDate <= now
    ensures b ==> exists c :: c in db.categories && Some(c.id) == p.category && c.isPublished
  {
    p.isPublished && CategoryPublished(db.categories, p) && p.pubDate <= now
  }

  /** Once visible, a post stays visible as time passes (nothing in the rule expires). */
  lemma VisibleStaysVisible(db: Db, p: Post, now: int, later: int)
    requires Visible(db, p, now) && now <= later
    ensures Visible(db, p, later)
  {
  }

  predicate UserExists(users: seq<User>, id: UserId) {
    exists u :: u in users && u.id == id
  }

  predicate PostExists(posts: seq<Post>, id: PostId) {
    exists p :: p in posts && p.id == id
  }

  /** The primary-key columns. */
  function UserKey(u: User): nat {
    u.id
  }

  function CategoryKey(c: Category): nat {
    c.id
  }

  function PostKey(p: Post): nat {
    p.id
  }

  function CommentKey(c: Comment): nat {
    c.id
  }

  /**
   * The database constraints the views rely on: primary keys (no key at two
   * positions of its table, so no row is listed twice), unique slugs and
   * usernames, and the foreign keys of posts and comments.
   */
  ghost predicate WellFormed(db: Db) {
    && DistinctKeys(db.users, UserKey)
    && (forall u, v :: u in db.users && v in db.users && u.username == v.username ==> u == v)
    && DistinctKeys(db.categories, CategoryKey)
    && (forall c, d :: c in db.categories && d in db.categories && c.slug == d.slug ==> c == d)
    && DistinctKeys(db.posts, PostKey)
    && DistinctKeys(db.comments, CommentKey)
    && (forall p :: p in db.posts ==> UserExists(db.users, p.author))
    && (forall c :: c in db.comments ==> UserExists(db.users, c.author) && PostExists(db.posts, c.post))
  }

  /** A post key names one row of a table whose keys are distinct. */
  lemma PostKeyNamesOneRow(posts: seq<Post>)
    requires DistinctKeys(posts, PostKey)
    ensures forall p, q :: p in posts && q in posts && p.id == q.id ==> p == q
  {
    DistinctKeysUnique(posts, PostKey);
    assert forall p :: PostKey(p) == p.id;
  }

  /** A comment key names one row of a table whose keys are distinct. */
  lemma CommentKeyNamesOneRow(comments: seq<Comment>)
    requires DistinctKeys(comments, CommentKey)
    ensures forall c, d :: c in comments && d in comments && c.id == d.id ==> c == d
  {
    DistinctKeysUnique(comments, CommentKey);
    assert forall c :: CommentKey(c) == c.id;
  }

  /** Under the primary keys, a key names one row in each table. */
  lemma KeysNameOneRow(db: Db)
    requires WellFormed(db)
    ensures forall u, v :: u in db.users && v in db.users && u.id == v.id ==> u == v
    ensures forall c, d :: c in db.categories && d in db.categories && c.id == d.id ==> c == d
    ensures forall p, q :: p in db.posts && q in db.posts && p.id == q.id ==> p == q
    ensures forall c, d :: c in db.comments && d in db.comments && c.id == d.id ==> c == d
  {
    DistinctKeysUnique(db.users, UserKey);
    DistinctKeysUnique(db.categories, CategoryKey);
    PostKeyNamesOneRow(db.posts);
    CommentKeyNamesOneRow(db.comments);
  }

  /** Saving a comment with a fresh key, an existing author and an existing post keeps the constraints. */
  lemma AppendCommentKeepsWellFormed(db: Db, c: Comment)
    requires WellFormed(db)
    requires UserExists(db.users, c.author) && PostExists(db.posts, c.post)
    requires forall d :: d in db.comments ==> d.id != c.id
    ensures WellFormed(db.(comments := db.comments + [c]))
  {
    DistinctKeysAppend(db.comments, CommentKey, c);
  }
}
