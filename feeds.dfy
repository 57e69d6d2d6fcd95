/** The read-only views of yatube/posts/views.py: `index`, `group_posts`,
    `profile`, `post_detail` and `follow_index`. Each filters a table the
    store keeps newest first and hands the result to the paginator.
    Rendering is left out; a view's answer is what it would put in the
    template context, or the redirect or 404 it answers with instead. */
module Feeds {
  import opened Seqs
  import opened Entities
  import opened Paginator
  import opened Subscriptions

  datatype GroupPage = GroupPage(group: Group, page: Page<Post>)

  datatype ProfilePage = ProfilePage(author: User, page: Page<Post>, following: bool)

  datatype PostView = PostView(post: Post, comments: seq<Comment>)

  /** Slices of a newest-first listing are newest first. */
  lemma SliceNewestFirst(ps: seq<Post>, lo: nat, hi: nat)
    requires PostsNewestFirst(ps) && lo <= hi <= |ps|
    ensures PostsNewestFirst(ps[lo..hi])
  {
    forall i, j | 0 <= i < j < hi - lo ensures ps[lo..hi][i].pubDate > ps[lo..hi][j].pubDate {
      assert ps[lo..hi][i] == ps[lo + i] && ps[lo..hi][j] == ps[lo + j];
    }
  }

  /** A page of a newest-first listing is newest first. */
  lemma PageNewestFirst(ps: seq<Post>, req: PageRequest)
    requires PostsNewestFirst(ps)
    ensures PostsNewestFirst(GetPage(ps, PostsPerPage, req).items)
  {
    var r := GetPage(ps, PostsPerPage, req);
    var lo := (r.number - 1) * PostsPerPage;
    SliceNewestFirst(ps, lo, lo + |r.items|);
  }

  /** `paginator_page` over a post listing: the page of ten that the
      paginator chooses for the request, drawn from the listing in its
      order. */
  function PostPage(ps: seq<Post>, req: PageRequest): (r: Page<Post>)
    ensures r == GetPage(ps, PostsPerPage, req)
    ensures |r.items| <= PostsPerPage
    ensures 1 <= r.number <= r.numPages
    ensures forall p :: p in r.items ==> p in ps
    ensures PostsNewestFirst(ps) ==> PostsNewestFirst(r.items)
  {
    var r := GetPage(ps, PostsPerPage, req);
    if PostsNewestFirst(ps) then PageNewestFirst(ps, req); r else r
  }

  function InGroup(gid: GroupId): Post -> bool {
    (p: Post) => p.group == Some(gid)
  }

  function ByAuthor(uid: UserId): Post -> bool {
    (p: Post) => p.author == uid
  }

  function FollowedBy(follows: seq<Follow>, uid: UserId): Post -> bool {
    (p: Post) => Follow(uid, p.author) in follows
  }

  function OnPost(pid: PostId): Comment -> bool {
    (c: Comment) => c.post == pid
  }

  /** `group.posts.all()`: exactly the posts of the group, newest first. */
  function GroupList(posts: seq<Post>, gid: GroupId): (r: seq<Post>)
    ensures forall p :: p in r <==> p in posts && p.group == Some(gid)
    ensures PostsNewestFirst(posts) ==> PostsNewestFirst(r)
  {
    var r := Filter(posts, InGroup(gid));
    if PostsNewestFirst(posts) then FilterPostsNewestFirst(posts, InGroup(gid)); r else r
  }

  /** `author.posts.all()`: exactly the author's posts, newest first. */
  function AuthorList(posts: seq<Post>, uid: UserId): (r: seq<Post>)
    ensures forall p :: p in r <==> p in posts && p.author == uid
    ensures PostsNewestFirst(posts) ==> PostsNewestFirst(r)
  {
    var r := Filter(posts, ByAuthor(uid));
    if PostsNewestFirst(posts) then FilterPostsNewestFirst(posts, ByAuthor(uid)); r else r
  }

  /** `Post.objects.filter(author__following__user=viewer)`: exactly the
      posts whose author the viewer follows, newest first. */
  function FollowList(posts: seq<Post>, follows: seq<Follow>, uid: UserId): (r: seq<Post>)
    ensures forall p :: p in r <==> p in posts && Follow(uid, p.author) in follows
    ensures PostsNewestFirst(posts) ==> PostsNewestFirst(r)
  {
    var r := Filter(posts, FollowedBy(follows, uid));
    if PostsNewestFirst(posts) then FilterPostsNewestFirst(posts, FollowedBy(follows, uid)); r else r
  }

  /** `post.comments.all()`: exactly the post's comments, newest first. */
  function CommentList(comments: seq<Comment>, pid: PostId): (r: seq<Comment>)
    ensures forall c :: c in r <==> c in comments && c.post == pid
    ensures CommentsNewestFirst(comments) ==> CommentsNewestFirst(r)
  {
    var r := Filter(comments, OnPost(pid));
    if CommentsNewestFirst(comments) then FilterCommentsNewestFirst(comments, OnPost(pid)); r else r
  }

  /** `index`: the requested page of all posts. */
  function Index(posts: seq<Post>, req: PageRequest): (r: Reply<Page<Post>>)
    ensures r == Render(PostPage(posts, req))
    ensures r.value.number == 1 ==> |r.value.items| == Min(PostsPerPage, |posts|)
    ensures forall p :: p in r.value.items ==> p in posts
    ensures PostsNewestFirst(posts) ==> PostsNewestFirst(r.value.items)
  {
    Render(PostPage(posts, req))
  }

  /** Every page of the index is served when asked for by its number, it
      is that block of the listing, and the pages taken in order are
      exactly all posts. */
  lemma IndexPagesCoverPosts(posts: seq<Post>)
    ensures forall k :: 1 <= k <= NumPages(|posts|, PostsPerPage) ==>
      Index(posts, Number(k)).value.number == k
      && Index(posts, Number(k)).value.items == PageSlice(posts, PostsPerPage, k)
    ensures PagesFrom(posts, PostsPerPage, 1) == posts
  {
    PagesReassemble(posts, PostsPerPage);
  }

  /** `group_posts`: a 404 for an unknown slug; otherwise the group and a
      page of its posts, and of no other group's. */
  function GroupPosts(groups: seq<Group>, posts: seq<Post>, slug: string, req: PageRequest)
    : (r: Reply<GroupPage>)
    ensures r.Render? || r.NotFound?
    ensures r.NotFound? <==> forall g :: g in groups ==> g.slug != slug
    ensures r.Render? ==> r.value.group in groups && r.value.group.slug == slug
    ensures r.Render? ==> r.value.page == PostPage(GroupList(posts, r.value.group.id), req)
    ensures r.Render? ==> forall p :: p in r.value.page.items ==>
      p in posts && p.group == Some(r.value.group.id)
  {
    match GroupBySlug(groups, slug)
    case None => NotFound
    case Some(g) => Render(GroupPage(g, PostPage(GroupList(posts, g.id), req)))
  }

  /** `profile`: a 404 for an unknown username; otherwise the author, a
      page of their posts, and whether the viewer follows them (never for
      an anonymous viewer). */
  function Profile(
    users: seq<User>, posts: seq<Post>, follows: seq<Follow>,
    viewer: Actor, username: string, req: PageRequest)
    : (r: Reply<ProfilePage>)
    ensures r.Render? || r.NotFound?
    ensures r.NotFound? <==> forall u :: u in users ==> u.username != username
    ensures r.Render? ==> r.value.author in users && r.value.author.username == username
    ensures r.Render? ==> (r.value.following <==>
      viewer.Authenticated? && Follow(viewer.user.id, r.value.author.id) in follows)
    ensures r.Render? ==> r.value.page == PostPage(AuthorList(posts, r.value.author.id), req)
    ensures r.Render? ==> forall p :: p in r.value.page.items ==>
      p in posts && p.author == r.value.author.id
  {
    match UserByName(users, username)
    case None => NotFound
    case Some(author) =>
      var following := viewer.Authenticated? && Follow(viewer.user.id, author.id) in follows;
      Render(ProfilePage(author, PostPage(AuthorList(posts, author.id), req), following))
  }

  /** `post_detail`: a 404 for an unknown id; otherwise the post with its
      comments, newest first. */
  function PostDetail(posts: seq<Post>, comments: seq<Comment>, id: PostId): (r: Reply<PostView>)
    ensures r.Render? || r.NotFound?
    ensures r.NotFound? <==> forall p :: p in posts ==> p.id != id
    ensures r.Render? ==> r.value.post in posts && r.value.post.id == id
    ensures r.Render? ==> forall c :: c in r.value.comments <==> c in comments && c.post == id
    ensures r.Render? && CommentsNewestFirst(comments) ==> CommentsNewestFirst(r.value.comments)
  {
    match PostById(posts, id)
    case None => NotFound
    case Some(p) => Render(PostView(p, CommentList(comments, id)))
  }

  /** `follow_index`: anonymous visitors are sent to the login page; a
      signed-in viewer gets a page of the posts of the authors they follow. */
  function FollowIndex(posts: seq<Post>, follows: seq<Follow>, viewer: Actor, req: PageRequest)
    : (r: Reply<Page<Post>>)
    ensures r.Render? || r.LoginRedirect?
    ensures r.LoginRedirect? <==> viewer.Anonymous?
    ensures r.Render? ==> r.value == PostPage(FollowList(posts, follows, viewer.user.id), req)
    ensures r.Render? ==> forall p :: p in r.value.items ==>
      p in posts && Follow(viewer.user.id, p.author) in follows
  {
    match viewer
    case Anonymous => LoginRedirect
    case Authenticated(u) => Render(PostPage(FollowList(posts, follows, u.id), req))
  }

  /** With unique slugs, the group feed for a group's slug is that group's
      feed, and its pages taken in order are exactly the group's posts. */
  lemma GroupFeedIsExact(groups: seq<Group>, posts: seq<Post>, g: Group, req: PageRequest)
    requires SlugsUnique(groups) && g in groups
    ensures GroupPosts(groups, posts, g.slug, req)
      == Render(GroupPage(g, PostPage(GroupList(posts, g.id), req)))
    ensures PagesFrom(GroupList(posts, g.id), PostsPerPage, 1) == GroupList(posts, g.id)
  {
    SlugLookupIsExact(groups, g);
    PagesReassemble(GroupList(posts, g.id), PostsPerPage);
  }

  /** Following a new author adds exactly that author's posts to the
      follower's feed and leaves every other viewer's feed unchanged. */
  lemma FollowGrowsFeed(posts: seq<Post>, follows: seq<Follow>, v: UserId, a: UserId)
    requires Follow(v, a) !in follows
    ensures |FollowList(posts, GetOrCreate(follows, Follow(v, a)), v)|
      == |FollowList(posts, follows, v)| + |AuthorList(posts, a)|
    ensures forall w :: w != v ==>
      FollowList(posts, GetOrCreate(follows, Follow(v, a)), w) == FollowList(posts, follows, w)
  {
    var follows' := GetOrCreate(follows, Follow(v, a));
    FilterDisjointCount(posts, FollowedBy(follows', v), FollowedBy(follows, v), ByAuthor(a));
    forall w | w != v
      ensures FollowList(posts, follows', w) == FollowList(posts, follows, w)
    {
      FilterExt(posts, FollowedBy(follows', w), FollowedBy(follows, w));
    }
  }

  /** A freshly published post heads the first page of the index and of
      the feed of every viewer who follows its author. */
  lemma NewPostHeadsFeeds(p: Post, posts: seq<Post>, follows: seq<Follow>, v: UserId)
    ensures Index([p] + posts, Missing).value.items[0] == p
    ensures Follow(v, p.author) in follows ==>
      PostPage(FollowList([p] + posts, follows, v), Missing).items[0] == p
  {
    var r := GetPage([p] + posts, PostsPerPage, Missing);
    assert r.items == ([p] + posts)[0..|r.items|];
    if Follow(v, p.author) in follows {
      var l := FollowList([p] + posts, follows, v);
      assert ([p] + posts)[1..] == posts;
      assert l == [p] + Filter(posts, FollowedBy(follows, v));
      var q := GetPage(l, PostsPerPage, Missing);
      assert q.items == l[0..|q.items|];
    }
  }
}
