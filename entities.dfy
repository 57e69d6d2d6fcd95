/** The persisted entities of the posts app (yatube/posts/models.py):
    their fields, their `__str__` renderings, their default ordering, and
    the slug uniqueness of groups. Users belong to the authentication
    system; the model keeps only their id and username. */
module Entities {
  import opened Seqs

  type UserId = nat
  type GroupId = nat
  type PostId = nat
  type CommentId = nat

  /** An uploaded image is opaque here: only its stored name is kept. */
  type ImageRef = string

  /** Abstract creation time: a counter the store advances on every insert. */
  type Timestamp = nat

  datatype User = User(id: UserId, username: string)

  datatype Group = Group(id: GroupId, title: string, slug: string, description: string)

  /** `image` is `None` for the blank image field. */
  datatype Post = Post(
    id: PostId,
    text: string,
    pubDate: Timestamp,
    author: UserId,
    group: Option<GroupId>,
    image: Option<ImageRef>)

  datatype Comment = Comment(
    id: CommentId,
    post: PostId,
    author: UserId,
    text: string,
    created: Timestamp)

  /** A directed subscription edge: `user` follows `author`. */
  datatype Follow = Follow(user: UserId, author: UserId)

  /** `request.user`: an anonymous visitor or a signed-in user. */
  datatype Actor = Anonymous | Authenticated(user: User)

  /** What a view answers: a rendered template context, a 404, the
      redirect to the login page that `@login_required` issues for
      anonymous visitors, or a redirect to a profile or a post. */
  datatype Reply<T> =
    | Render(value: T)
    | NotFound
    | LoginRedirect
    | RedirectToProfile(username: string)
    | RedirectToPost(id: PostId)

  function Min(a: nat, b: nat): nat { if a <= b then a else b }

  /** Python's `s[:n]`: the longest prefix of `s` of length at most `n`. */
  function Truncate(s: string, n: nat): (r: string)
    ensures |r| == Min(n, |s|)
    ensures r <= s
    ensures |s| <= n ==> r == s
  {
    if |s| <= n then s else s[..n]
  }

  const PostStrLength: nat := 15
  const CommentStrLength: nat := 30

  /** `str(post)`: the first fifteen characters of the text. */
  function PostStr(p: Post): (r: string)
    ensures r <= p.text
    ensures |r| == Min(PostStrLength, |p.text|)
  {
    Truncate(p.text, PostStrLength)
  }

  /** `str(comment)`: the first thirty characters of the text. */
  function CommentStr(c: Comment): (r: string)
    ensures r <= c.text
    ensures |r| == Min(CommentStrLength, |c.text|)
  {
    Truncate(c.text, CommentStrLength)
  }

  /** `str(group)`: the title. */
  function GroupStr(g: Group): (r: string)
    ensures r == g.title
  {
    g.title
  }

  /** `Meta.ordering = ('-pub_date',)`: strictly newest first. */
  predicate PostsNewestFirst(ps: seq<Post>) {
    forall i, j :: 0 <= i < j < |ps| ==> ps[i].pubDate > ps[j].pubDate
  }

  /** `Meta.ordering = ('-created',)`: strictly newest first. */
  predicate CommentsNewestFirst(cs: seq<Comment>) {
    forall i, j :: 0 <= i < j < |cs| ==> cs[i].created > cs[j].created
  }

  /** Every post of `ps` is older than `t`. */
  ghost predicate PostsBefore(ps: seq<Post>, t: Timestamp) {
    forall i :: 0 <= i < |ps| ==> ps[i].pubDate < t
  }

  /** Every comment of `cs` is older than `t`. */
  ghost predicate CommentsBefore(cs: seq<Comment>, t: Timestamp) {
    forall i :: 0 <= i < |cs| ==> cs[i].created < t
  }

  lemma PostsConsNewestFirst(p: Post, ps: seq<Post>)
    requires PostsNewestFirst(ps) && PostsBefore(ps, p.pubDate)
    ensures PostsNewestFirst([p] + ps)
  {
    var r := [p] + ps;
    forall i, j | 0 <= i < j < |r| ensures r[i].pubDate > r[j].pubDate {
      assert r[j] == ps[j - 1];
      if i > 0 { assert r[i] == ps[i - 1]; }
    }
  }

  lemma CommentsConsNewestFirst(c: Comment, cs: seq<Comment>)
    requires CommentsNewestFirst(cs) && CommentsBefore(cs, c.created)
    ensures CommentsNewestFirst([c] + cs)
  {
    var r := [c] + cs;
    forall i, j | 0 <= i < j < |r| ensures r[i].created > r[j].created {
      assert r[j] == cs[j - 1];
      if i > 0 { assert r[i] == cs[i - 1]; }
    }
  }

  /** Filtering keeps every post older than a bound it was older than. */
  lemma FilterPostsBefore(ps: seq<Post>, f: Post -> bool, t: Timestamp)
    requires PostsBefore(ps, t)
    ensures PostsBefore(Filter(ps, f), t)
  {
    var r := Filter(ps, f);
    forall i | 0 <= i < |r| ensures r[i].pubDate < t {
      assert r[i] in ps;
    }
  }

  lemma FilterCommentsBefore(cs: seq<Comment>, f: Comment -> bool, t: Timestamp)
    requires CommentsBefore(cs, t)
    ensures CommentsBefore(Filter(cs, f), t)
  {
    var r := Filter(cs, f);
    forall i | 0 <= i < |r| ensures r[i].created < t {
      assert r[i] in cs;
    }
  }

  /** Every sub-listing of a newest-first post table is newest first. */
  lemma {:induction false} FilterPostsNewestFirst(ps: seq<Post>, f: Post -> bool)
    requires PostsNewestFirst(ps)
    ensures PostsNewestFirst(Filter(ps, f))
    decreases |ps|
  {
    if ps != [] {
      FilterPostsNewestFirst(ps[1..], f);
      if f(ps[0]) {
        assert PostsBefore(ps[1..], ps[0].pubDate) by {
          forall i | 0 <= i < |ps[1..]| ensures ps[1..][i].pubDate < ps[0].pubDate {
            assert ps[1..][i] == ps[i + 1];
          }
        }
        FilterPostsBefore(ps[1..], f, ps[0].pubDate);
        PostsConsNewestFirst(ps[0], Filter(ps[1..], f));
      }
    }
  }

  /** Every sub-listing of a newest-first comment table is newest first. */
  lemma {:induction false} FilterCommentsNewestFirst(cs: seq<Comment>, f: Comment -> bool)
    requires CommentsNewestFirst(cs)
    ensures CommentsNewestFirst(Filter(cs, f))
    decreases |cs|
  {
    if cs != [] {
      FilterCommentsNewestFirst(cs[1..], f);
      if f(cs[0]) {
        assert CommentsBefore(cs[1..], cs[0].created) by {
          forall i | 0 <= i < |cs[1..]| ensures cs[1..][i].created < cs[0].created {
            assert cs[1..][i] == cs[i + 1];
          }
        }
        FilterCommentsBefore(cs[1..], f, cs[0].created);
        CommentsConsNewestFirst(cs[0], Filter(cs[1..], f));
      }
    }
  }

  /** `slug = models.SlugField(unique=True)`: no two groups share a slug. */
  ghost predicate SlugsUnique(groups: seq<Group>) {
    forall g, h :: g in groups && h in groups && g.slug == h.slug ==> g == h
  }

  function HasSlug(slug: string): Group -> bool {
    (g: Group) => g.slug == slug
  }

  /** `Group.objects.get(slug=slug)`: found exactly when some group has that slug. */
  function GroupBySlug(groups: seq<Group>, slug: string): (r: Option<Group>)
    ensures r.Some? ==> r.value in groups && r.value.slug == slug
    ensures r.None? <==> forall g :: g in groups ==> g.slug != slug
  {
    Find(groups, HasSlug(slug))
  }

  /** With unique slugs a slug names at most one group, so the lookup
      returns precisely the group that carries it. */
  lemma SlugLookupIsExact(groups: seq<Group>, g: Group)
    requires SlugsUnique(groups)
    requires g in groups
    ensures GroupBySlug(groups, g.slug) == Some(g)
  {
  }

  function UserIds(users: seq<User>): set<UserId> { set u | u in users :: u.id }
  function GroupIds(groups: seq<Group>): set<GroupId> { set g | g in groups :: g.id }
  function PostIds(posts: seq<Post>): set<PostId> { set p | p in posts :: p.id }

  function HasUsername(username: string): User -> bool {
    (u: User) => u.username == username
  }

  /** `get_object_or_404(User, username=username)`. */
  function UserByName(users: seq<User>, username: string): (r: Option<User>)
    ensures r.Some? ==> r.value in users && r.value.username == username
    ensures r.None? <==> forall u :: u in users ==> u.username != username
  {
    Find(users, HasUsername(username))
  }

  function HasPostId(id: PostId): Post -> bool {
    (p: Post) => p.id == id
  }

  /** `get_object_or_404(Post, pk=post_id)`. */
  function PostById(posts: seq<Post>, id: PostId): (r: Option<Post>)
    ensures r.Some? ==> r.value in posts && r.value.id == id
    ensures r.None? <==> forall p :: p in posts ==> p.id != id
  {
    Find(posts, HasPostId(id))
  }
}
