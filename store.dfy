/** The database behind yatube/posts as one object whose tables the
    mutating views change in place: `post_create`, `post_edit`,
    `add_comment`, `profile_follow` and `profile_unfollow`, plus the
    `on_delete` rules of yatube/posts/models.py. Posts and comments are
    kept newest first, which is the order every query returns them in. */
module Store {
  import opened Seqs
  import opened Entities
  import opened Forms
  import opened Subscriptions

  /** A snapshot of the five tables. */
  datatype Db = Db(
    users: seq<User>,
    groups: seq<Group>,
    posts: seq<Post>,
    comments: seq<Comment>,
    follows: seq<Follow>)

  /** The post form page that `post_create` and `post_edit` render again
      when the form does not validate: the submitted form, and on edit the
      post being edited. */
  datatype FormPage = FormPage(form: Option<PostForm>, post: Option<Post>)

  /** How a mutating view answers. */
  type Outcome = Reply<FormPage>

  ghost predicate UsersOk(users: seq<User>) {
    && Unique(users)
    && (forall u, v :: u in users && v in users && u.id == v.id ==> u == v)
    && (forall u, v :: u in users && v in users && u.username == v.username ==> u == v)
  }

  ghost predicate GroupsOk(groups: seq<Group>) {
    && Unique(groups)
    && (forall g, h :: g in groups && h in groups && g.id == h.id ==> g == h)
    && SlugsUnique(groups)
  }

  ghost predicate PostsOk(posts: seq<Post>, uids: set<UserId>, gids: set<GroupId>) {
    && PostsNewestFirst(posts)
    && (forall p, q :: p in posts && q in posts && p.id == q.id ==> p == q)
    && (forall p :: p in posts ==> p.author in uids && (p.group.Some? ==> p.group.value in gids))
  }

  ghost predicate CommentsOk(comments: seq<Comment>, pids: set<PostId>, uids: set<UserId>) {
    && CommentsNewestFirst(comments)
    && (forall c, d :: c in comments && d in comments && c.id == d.id ==> c == d)
    && (forall c :: c in comments ==> c.post in pids && c.author in uids)
  }

  /** The `(user, author)` uniqueness constraint, both ends existing users,
      and no self-subscription (the follow view never creates one). */
  ghost predicate FollowsOk(follows: seq<Follow>, uids: set<UserId>) {
    && Unique(follows)
    && (forall f :: f in follows ==> f.user in uids && f.author in uids && f.user != f.author)
  }

  /** Keys are unique and every foreign key points at an existing row. */
  ghost predicate Consistent(db: Db) {
    && UsersOk(db.users)
    && GroupsOk(db.groups)
    && PostsOk(db.posts, UserIds(db.users), GroupIds(db.groups))
    && CommentsOk(db.comments, PostIds(db.posts), UserIds(db.users))
    && FollowsOk(db.follows, UserIds(db.users))
  }

  /** What consistency buys the views: every stored post is found by its
      primary key, every user by their username and every group by its
      slug, and every comment's post and every follow edge's ends exist. */
  lemma ConsistentResolves(db: Db)
    requires Consistent(db)
    ensures forall p :: p in db.posts ==> PostById(db.posts, p.id) == Some(p)
    ensures forall u :: u in db.users ==> UserByName(db.users, u.username) == Some(u)
    ensures forall g :: g in db.groups ==> GroupBySlug(db.groups, g.slug) == Some(g)
    ensures forall c :: c in db.comments ==> PostById(db.posts, c.post).Some?
    ensures forall f :: f in db.follows ==>
      f.user != f.author && f.user in UserIds(db.users) && f.author in UserIds(db.users)
  {
    forall c | c in db.comments ensures PostById(db.posts, c.post).Some? {
      var p :| p in db.posts && p.id == c.post;
    }
  }

  function NotGroup(gid: GroupId): Group -> bool { (g: Group) => g.id != gid }
  function NotPost(pid: PostId): Post -> bool { (p: Post) => p.id != pid }
  function NotOnPost(pid: PostId): Comment -> bool { (c: Comment) => c.post != pid }
  function NotUser(uid: UserId): User -> bool { (u: User) => u.id != uid }
  function NotByAuthor(uid: UserId): Post -> bool { (p: Post) => p.author != uid }

  /** A comment survives a user's deletion when neither it nor its post
      was theirs. */
  function CommentSurvives(uid: UserId, kept: seq<Post>): Comment -> bool {
    (c: Comment) => c.author != uid && c.post in PostIds(kept)
  }

  function NotInvolving(uid: UserId): Follow -> bool {
    (f: Follow) => f.user != uid && f.author != uid
  }

  /** `on_delete=models.SET_NULL` on `Post.group`. */
  function Ungroup(p: Post, gid: GroupId): (r: Post)
    ensures r == p.(group := r.group)
    ensures r.group == (if p.group == Some(gid) then None else p.group)
  {
    if p.group == Some(gid) then p.(group := None) else p
  }

  function UngroupAll(posts: seq<Post>, gid: GroupId): (r: seq<Post>)
    ensures |r| == |posts|
    ensures forall i :: 0 <= i < |r| ==> r[i] == Ungroup(posts[i], gid)
  {
    seq(|posts|, i requires 0 <= i < |posts| => Ungroup(posts[i], gid))
  }

  /** Deleting a group: the group goes, its posts stay without a group,
      and nothing else changes. */
  function DeleteGroupDb(db: Db, gid: GroupId): (r: Db)
    ensures r.users == db.users && r.comments == db.comments && r.follows == db.follows
    ensures forall g :: g in r.groups <==> g in db.groups && g.id != gid
    ensures |r.posts| == |db.posts|
    ensures forall i :: 0 <= i < |r.posts| ==>
      r.posts[i].group == (if db.posts[i].group == Some(gid) then None else db.posts[i].group)
      && r.posts[i] == db.posts[i].(group := r.posts[i].group)
    ensures forall p :: p in r.posts ==> p.group != Some(gid)
  {
    Db(db.users, Filter(db.groups, NotGroup(gid)), UngroupAll(db.posts, gid), db.comments, db.follows)
  }

  /** Deleting a post (`on_delete=models.CASCADE` on `Comment.post`): the
      post and its comments go, and nothing else changes. */
  function DeletePostDb(db: Db, pid: PostId): (r: Db)
    ensures r.users == db.users && r.groups == db.groups && r.follows == db.follows
    ensures forall p :: p in r.posts <==> p in db.posts && p.id != pid
    ensures forall c :: c in r.comments <==> c in db.comments && c.post != pid
  {
    Db(db.users, db.groups, Filter(db.posts, NotPost(pid)), Filter(db.comments, NotOnPost(pid)),
       db.follows)
  }

  /** Deleting a user (`on_delete=models.CASCADE` on `Post.author`,
      `Comment.author`, `Comment.post`, `Follow.user` and `Follow.author`):
      their posts, every comment that was theirs or on one of their posts,
      and every follow edge that touches them go; nothing else changes. */
  function DeleteUserDb(db: Db, uid: UserId): (r: Db)
    ensures r.groups == db.groups
    ensures forall u :: u in r.users <==> u in db.users && u.id != uid
    ensures forall p :: p in r.posts <==> p in db.posts && p.author != uid
    ensures forall c :: c in r.comments <==>
      c in db.comments && c.author != uid && c.post in PostIds(r.posts)
    ensures forall f :: f in r.follows <==> f in db.follows && f.user != uid && f.author != uid
  {
    var posts := Filter(db.posts, NotByAuthor(uid));
    Db(Filter(db.users, NotUser(uid)), db.groups, posts,
       Filter(db.comments, CommentSurvives(uid, posts)), Filter(db.follows, NotInvolving(uid)))
  }

  /** Clearing a group from posts keeps their ids, authors and order. */
  lemma UngroupAllKeepsPosts(posts: seq<Post>, gid: GroupId, uids: set<UserId>, gids: set<GroupId>)
    requires PostsOk(posts, uids, gids)
    ensures PostIds(UngroupAll(posts, gid)) == PostIds(posts)
    ensures PostsOk(UngroupAll(posts, gid), uids, gids - {gid})
  {
    UngroupAllKeepsOrder(posts, gid);
    UngroupAllKeepsIds(posts, gid);
    var r := UngroupAll(posts, gid);
    forall p | p in r ensures p.author in uids && (p.group.Some? ==> p.group.value in gids - {gid}) {
      var i :| 0 <= i < |r| && r[i] == p;
      assert posts[i] in posts;
    }
  }

  lemma UngroupAllKeepsOrder(posts: seq<Post>, gid: GroupId)
    requires PostsNewestFirst(posts)
    ensures PostsNewestFirst(UngroupAll(posts, gid))
  {
  }

  lemma UngroupAllKeepsIds(posts: seq<Post>, gid: GroupId)
    requires forall p, q :: p in posts && q in posts && p.id == q.id ==> p == q
    ensures PostIds(UngroupAll(posts, gid)) == PostIds(posts)
    ensures forall p, q :: p in UngroupAll(posts, gid) && q in UngroupAll(posts, gid) && p.id == q.id ==> p == q
  {
    var r := UngroupAll(posts, gid);
    forall p, q | p in r && q in r && p.id == q.id ensures p == q {
      var i :| 0 <= i < |r| && r[i] == p;
      var j :| 0 <= j < |r| && r[j] == q;
      assert posts[i] in posts && posts[j] in posts;
    }
    forall x | x in PostIds(posts) ensures x in PostIds(r) {
      var i :| 0 <= i < |posts| && posts[i].id == x;
      assert r[i] in r;
    }
    forall x | x in PostIds(r) ensures x in PostIds(posts) {
      var i :| 0 <= i < |r| && r[i].id == x;
      assert posts[i] in posts;
    }
  }

  lemma DeleteGroupKeepsConsistent(db: Db, gid: GroupId)
    requires Consistent(db)
    ensures Consistent(DeleteGroupDb(db, gid))
  {
    var groups := Filter(db.groups, NotGroup(gid));
    FilterUnique(db.groups, NotGroup(gid));
    UngroupAllKeepsPosts(db.posts, gid, UserIds(db.users), GroupIds(db.groups));
    assert GroupIds(db.groups) - {gid} <= GroupIds(groups) by {
      forall x | x in GroupIds(db.groups) - {gid} ensures x in GroupIds(groups) {
        var g :| g in db.groups && g.id == x;
        assert g in groups;
      }
    }
  }

  lemma DeletePostKeepsConsistent(db: Db, pid: PostId)
    requires Consistent(db)
    ensures Consistent(DeletePostDb(db, pid))
  {
    var r := DeletePostDb(db, pid);
    FilterPostsNewestFirst(db.posts, NotPost(pid));
    FilterCommentsNewestFirst(db.comments, NotOnPost(pid));
    forall c | c in r.comments ensures c.post in PostIds(r.posts) {
      var p :| p in db.posts && p.id == c.post;
      assert p in r.posts;
    }
  }

  lemma DeleteUserKeepsConsistent(db: Db, uid: UserId)
    requires Consistent(db)
    ensures Consistent(DeleteUserDb(db, uid))
  {
    var r := DeleteUserDb(db, uid);
    FilterUnique(db.users, NotUser(uid));
    FilterUnique(db.follows, NotInvolving(uid));
    FilterPostsNewestFirst(db.posts, NotByAuthor(uid));
    FilterCommentsNewestFirst(db.comments, CommentSurvives(uid, r.posts));
    forall x | x in UserIds(db.users) && x != uid ensures x in UserIds(r.users) {
      var u :| u in db.users && u.id == x;
      assert u in r.users;
    }
    forall p | p in r.posts ensures p.author in UserIds(r.users) {
      assert p in db.posts;
    }
    forall c | c in r.comments ensures c.author in UserIds(r.users) {
      assert c in db.comments;
    }
    forall f | f in r.follows ensures f.user in UserIds(r.users) && f.author in UserIds(r.users) {
      assert f in db.follows;
    }
  }

  /** What `post_edit` writes: the new text, the new group, and the new
      image if one was uploaded (otherwise the old one stays). */
  function Edited(p: Post, d: PostData): Post {
    p.(text := d.text, group := d.group, image := if d.image.Some? then d.image else p.image)
  }

  /** `form.save()` on the post with that id: only its `text`, `group` and
      `image` change; its id, author and date, and every other post, stay. */
  function EditPost(posts: seq<Post>, id: PostId, d: PostData): (r: seq<Post>)
    ensures |r| == |posts|
    ensures forall i :: 0 <= i < |r| ==>
      r[i].id == posts[i].id && r[i].author == posts[i].author && r[i].pubDate == posts[i].pubDate
    ensures forall i :: 0 <= i < |r| && posts[i].id != id ==> r[i] == posts[i]
    ensures forall i :: 0 <= i < |r| && posts[i].id == id ==>
      r[i].text == d.text && r[i].group == d.group
      && r[i].image == (if d.image.Some? then d.image else posts[i].image)
  {
    seq(|posts|, i requires 0 <= i < |posts| => if posts[i].id == id then Edited(posts[i], d) else posts[i])
  }

  /** Editing keeps the tables consistent: ids, authors and dates are
      untouched, and the new group exists. */
  lemma EditKeepsConsistent(db: Db, id: PostId, d: PostData)
    requires Consistent(db)
    requires d.group.Some? ==> d.group.value in GroupIds(db.groups)
    ensures Consistent(db.(posts := EditPost(db.posts, id, d)))
  {
    var posts, edited := db.posts, EditPost(db.posts, id, d);
    forall p | p in edited
      ensures p.author in UserIds(db.users) && (p.group.Some? ==> p.group.value in GroupIds(db.groups))
    {
      var i :| 0 <= i < |edited| && edited[i] == p;
      assert posts[i] in posts;
    }
    forall p, q | p in edited && q in edited && p.id == q.id ensures p == q {
      var i :| 0 <= i < |edited| && edited[i] == p;
      var j :| 0 <= j < |edited| && edited[j] == q;
      assert posts[i] in posts && posts[j] in posts;
    }
    assert PostIds(edited) == PostIds(posts) by {
      forall x | x in PostIds(posts) ensures x in PostIds(edited) {
        var i :| 0 <= i < |posts| && posts[i].id == x;
        assert edited[i] in edited;
      }
    }
  }

  /** Adding a user with a new id and a new username keeps the tables consistent. */
  lemma AddUserKeepsConsistent(db: Db, u: User)
    requires Consistent(db)
    requires forall v :: v in db.users ==> v.id != u.id && v.username != u.username
    ensures Consistent(db.(users := db.users + [u]))
  {
    var users := db.users + [u];
    assert Unique(users) by {
      forall i, j | 0 <= i < j < |users| ensures users[i] != users[j] {
        if j == |db.users| { assert users[i] in db.users; }
      }
    }
    assert UserIds(db.users) <= UserIds(users) by {
      forall x | x in UserIds(db.users) ensures x in UserIds(users) {
        var v :| v in db.users && v.id == x;
        assert v in users;
      }
    }
  }

  /** Adding a group with a new id and a new slug keeps the tables consistent. */
  lemma AddGroupKeepsConsistent(db: Db, g: Group)
    requires Consistent(db)
    requires forall h :: h in db.groups ==> h.id != g.id && h.slug != g.slug
    ensures Consistent(db.(groups := db.groups + [g]))
  {
    var groups := db.groups + [g];
    assert Unique(groups) by {
      forall i, j | 0 <= i < j < |groups| ensures groups[i] != groups[j] {
        if j == |db.groups| { assert groups[i] in db.groups; }
      }
    }
    assert GroupIds(db.groups) <= GroupIds(groups) by {
      forall x | x in GroupIds(db.groups) ensures x in GroupIds(groups) {
        var h :| h in db.groups && h.id == x;
        assert h in groups;
      }
    }
  }

  /** Publishing a post newer than every other, with a new id, an existing
      author and an existing (or no) group keeps the tables consistent. */
  lemma AddPostKeepsConsistent(db: Db, p: Post)
    requires Consistent(db)
    requires PostsBefore(db.posts, p.pubDate)
    requires forall q :: q in db.posts ==> q.id != p.id
    requires p.author in UserIds(db.users)
    requires p.group.Some? ==> p.group.value in GroupIds(db.groups)
    ensures Consistent(db.(posts := [p] + db.posts))
  {
    PostsConsNewestFirst(p, db.posts);
    assert PostIds(db.posts) <= PostIds([p] + db.posts) by {
      forall x | x in PostIds(db.posts) ensures x in PostIds([p] + db.posts) {
        var q :| q in db.posts && q.id == x;
        assert q in [p] + db.posts;
      }
    }
  }

  /** Adding a comment newer than every other, with a new id, on an
      existing post by an existing user keeps the tables consistent. */
  lemma AddCommentKeepsConsistent(db: Db, c: Comment)
    requires Consistent(db)
    requires CommentsBefore(db.comments, c.created)
    requires forall d :: d in db.comments ==> d.id != c.id
    requires c.post in PostIds(db.posts) && c.author in UserIds(db.users)
    ensures Consistent(db.(comments := [c] + db.comments))
  {
    CommentsConsNewestFirst(c, db.comments);
  }

  /** Adding a follow edge between two distinct existing users keeps the
      tables consistent. */
  lemma FollowKeepsConsistent(db: Db, e: Follow)
    requires Consistent(db)
    requires e.user in UserIds(db.users) && e.author in UserIds(db.users) && e.user != e.author
    ensures Consistent(db.(follows := GetOrCreate(db.follows, e)))
  {
  }

  /** Removing a follow edge keeps the tables consistent. */
  lemma UnfollowKeepsConsistent(db: Db, e: Follow)
    requires Consistent(db)
    ensures Consistent(db.(follows := RemoveEdge(db.follows, e)))
  {
  }

  /** The store's clock and id counters. */
  datatype Counters = Counters(clock: Timestamp, user: UserId, group: GroupId, post: PostId, comment: CommentId)

  /** The counters are ahead of every stored id and timestamp. */
  ghost predicate Ahead(db: Db, n: Counters) {
    && (forall u :: u in db.users ==> u.id < n.user)
    && (forall g :: g in db.groups ==> g.id < n.group)
    && (forall p :: p in db.posts ==> p.id < n.post)
    && (forall c :: c in db.comments ==> c.id < n.comment)
    && PostsBefore(db.posts, n.clock)
    && CommentsBefore(db.comments, n.clock)
  }

  lemma AheadAddPost(db: Db, n: Counters, p: Post)
    requires Ahead(db, n) && p.id == n.post && p.pubDate == n.clock
    ensures Ahead(db.(posts := [p] + db.posts), n.(clock := n.clock + 1, post := n.post + 1))
  {
  }

  lemma AheadAddComment(db: Db, n: Counters, c: Comment)
    requires Ahead(db, n) && c.id == n.comment && c.created == n.clock
    ensures Ahead(db.(comments := [c] + db.comments), n.(clock := n.clock + 1, comment := n.comment + 1))
  {
  }

  lemma AheadEdit(db: Db, n: Counters, id: PostId, d: PostData)
    requires Ahead(db, n)
    ensures Ahead(db.(posts := EditPost(db.posts, id, d)), n)
  {
    var r := EditPost(db.posts, id, d);
    forall q | q in r ensures q.id < n.post {
      var i :| 0 <= i < |r| && r[i] == q;
      assert db.posts[i] in db.posts;
    }
  }

  /** What the store keeps true between requests. */
  ghost predicate Inv(db: Db, n: Counters) {
    Consistent(db) && Ahead(db, n)
  }

  lemma PublishKeepsInv(db: Db, n: Counters, p: Post, u: User)
    requires Inv(db, n) && p.id == n.post && p.pubDate == n.clock
    requires u in db.users && u.id == p.author
    requires p.group.Some? ==> p.group.value in GroupIds(db.groups)
    ensures Inv(db.(posts := [p] + db.posts), n.(clock := n.clock + 1, post := n.post + 1))
  {
    assert p.author in UserIds(db.users);
    AddPostKeepsConsistent(db, p);
    AheadAddPost(db, n, p);
  }

  lemma CommentKeepsInv(db: Db, n: Counters, c: Comment, p: Post, u: User)
    requires Inv(db, n) && c.id == n.comment && c.created == n.clock
    requires p in db.posts && p.id == c.post && u in db.users && u.id == c.author
    ensures Inv(db.(comments := [c] + db.comments), n.(clock := n.clock + 1, comment := n.comment + 1))
  {
    assert c.post in PostIds(db.posts) && c.author in UserIds(db.users);
    AddCommentKeepsConsistent(db, c);
    AheadAddComment(db, n, c);
  }

  lemma EditKeepsInv(db: Db, n: Counters, id: PostId, d: PostData)
    requires Inv(db, n)
    requires d.group.Some? ==> d.group.value in GroupIds(db.groups)
    ensures Inv(db.(posts := EditPost(db.posts, id, d)), n)
  {
    EditKeepsConsistent(db, id, d);
    AheadEdit(db, n, id, d);
  }

  lemma DeleteGroupKeepsInv(db: Db, n: Counters, gid: GroupId)
    requires Inv(db, n)
    ensures Inv(DeleteGroupDb(db, gid), n)
  {
    DeleteGroupKeepsConsistent(db, gid);
    var r := DeleteGroupDb(db, gid);
    forall i | 0 <= i < |r.posts| ensures r.posts[i].id < n.post && r.posts[i].pubDate < n.clock {
      assert db.posts[i] in db.posts;
    }
  }

  /** Removing any comments keeps the invariant: nothing refers to a comment. */
  lemma DropCommentsKeepsInv(db: Db, n: Counters, f: Comment -> bool)
    requires Inv(db, n)
    ensures Inv(db.(comments := Filter(db.comments, f)), n)
  {
    FilterCommentsNewestFirst(db.comments, f);
    FilterCommentsBefore(db.comments, f, n.clock);
  }

  /** Removing any follow edges keeps the invariant. */
  lemma DropFollowsKeepsInv(db: Db, n: Counters, f: Follow -> bool)
    requires Inv(db, n)
    ensures Inv(db.(follows := Filter(db.follows, f)), n)
  {
    FilterUnique(db.follows, f);
  }

  /** Removing posts that no remaining comment is on keeps the invariant. */
  lemma DropPostsKeepsInv(db: Db, n: Counters, f: Post -> bool)
    requires Inv(db, n)
    requires forall c :: c in db.comments ==> c.post in PostIds(Filter(db.posts, f))
    ensures Inv(db.(posts := Filter(db.posts, f)), n)
  {
    FilterPostsNewestFirst(db.posts, f);
    FilterPostsBefore(db.posts, f, n.clock);
  }

  /** Removing a user that no row refers to any more keeps the invariant. */
  lemma DropUserKeepsInv(db: Db, n: Counters, uid: UserId)
    requires Inv(db, n)
    requires forall p :: p in db.posts ==> p.author != uid
    requires forall c :: c in db.comments ==> c.author != uid
    requires forall e :: e in db.follows ==> e.user != uid && e.author != uid
    ensures Inv(db.(users := Filter(db.users, NotUser(uid))), n)
  {
    var users := Filter(db.users, NotUser(uid));
    FilterUnique(db.users, NotUser(uid));
    forall x | x in UserIds(db.users) && x != uid ensures x in UserIds(users) {
      var u :| u in db.users && u.id == x;
      assert u in users;
    }
  }

  class Store {
    var users: seq<User>
    var groups: seq<Group>
    var posts: seq<Post>
    var comments: seq<Comment>
    var follows: seq<Follow>
    /** The next creation time; every stored timestamp is below it. */
    var clock: Timestamp
    var nextUserId: UserId
    var nextGroupId: GroupId
    var nextPostId: PostId
    var nextCommentId: CommentId

    ghost function State(): Db
      reads this
    {
      Db(users, groups, posts, comments, follows)
    }

    ghost function Next(): Counters
      reads this
    {
      Counters(clock, nextUserId, nextGroupId, nextPostId, nextCommentId)
    }

    ghost predicate Valid()
      reads this
    {
      Inv(State(), Next())
    }

    constructor ()
      ensures Valid()
      ensures State() == Db([], [], [], [], [])
    {
      users, groups, posts, comments, follows := [], [], [], [], [];
      clock := 0;
      nextUserId, nextGroupId, nextPostId, nextCommentId := 0, 0, 0, 0;
    }

    /** Signing up, which belongs to the authentication system: usernames
        are unique. */
    method RegisterUser(username: string) returns (r: Option<User>)
      requires Valid()
      modifies this
      ensures Valid()
      ensures r.None? <==> exists u :: u in old(users) && u.username == username
      ensures r.None? ==> State() == old(State())
      ensures r.Some? ==>
        r.value == User(old(nextUserId), username)
        && State() == old(State()).(users := old(users) + [r.value])
    {
      if UserByName(users, username).Some? {
        return None;
      }
      var u := User(nextUserId, username);
      ghost var db := State();
      AddUserKeepsConsistent(db, u);
      users := users + [u];
      nextUserId := nextUserId + 1;
      assert State() == db.(users := db.users + [u]);
      r := Some(u);
    }

    /** Creating a group (an administrator's action): the slug must be new,
        as `unique=True` demands. */
    method CreateGroup(title: string, slug: string, description: string) returns (r: Option<Group>)
      requires Valid()
      modifies this
      ensures Valid()
      ensures r.None? <==> exists g :: g in old(groups) && g.slug == slug
      ensures r.None? ==> State() == old(State())
      ensures r.Some? ==>
        r.value == Group(old(nextGroupId), title, slug, description)
        && State() == old(State()).(groups := old(groups) + [r.value])
    {
      if GroupBySlug(groups, slug).Some? {
        return None;
      }
      var g := Group(nextGroupId, title, slug, description);
      ghost var db := State();
      AddGroupKeepsConsistent(db, g);
      groups := groups + [g];
      nextGroupId := nextGroupId + 1;
      assert State() == db.(groups := db.groups + [g]);
      r := Some(g);
    }

    /** `post_create`: a signed-in user with a valid form publishes one
        new post, authored by them and dated now, at the head of the
        listing; anything else changes nothing. */
    method PostCreate(actor: Actor, form: Option<PostForm>) returns (out: Outcome)
      requires Valid()
      requires actor.Authenticated? ==> actor.user in users
      modifies this
      ensures Valid()
      ensures actor.Anonymous? ==> out == LoginRedirect && State() == old(State())
      ensures actor.Authenticated? && CleanPostForm(old(groups), form).None? ==>
        out == Render(FormPage(form, None)) && State() == old(State())
      ensures actor.Authenticated? && CleanPostForm(old(groups), form).Some? ==>
        var d := CleanPostForm(old(groups), form).value;
        && out == RedirectToProfile(actor.user.username)
        && State() == old(State()).(posts :=
             [Post(old(nextPostId), d.text, old(clock), actor.user.id, d.group, d.image)] + old(posts))
    {
      if actor.Anonymous? {
        return LoginRedirect;
      }
      var cleaned := CleanPostForm(groups, form);
      if cleaned.None? {
        return Render(FormPage(form, None));
      }
      var d := cleaned.value;
      SavePost(Post(nextPostId, d.text, clock, actor.user.id, d.group, d.image), actor.user);
      out := RedirectToProfile(actor.user.username);
    }

    /** `post_edit`: a 404 for an unknown post; a non-author is sent back
        to the post with nothing changed; the author's valid form rewrites
        that post's text, group and image and nothing else. */
    method PostEdit(actor: Actor, id: PostId, form: Option<PostForm>) returns (out: Outcome)
      requires Valid()
      requires actor.Authenticated? ==> actor.user in users
      modifies this
      ensures Valid()
      ensures |posts| == |old(posts)|
      ensures actor.Anonymous? ==> out == LoginRedirect && State() == old(State())
      ensures actor.Authenticated? && PostById(old(posts), id).None? ==>
        out == NotFound && State() == old(State())
      ensures (actor.Authenticated? && PostById(old(posts), id).Some?
        && PostById(old(posts), id).value.author != actor.user.id) ==>
        out == RedirectToPost(id) && State() == old(State())
      ensures (actor.Authenticated? && PostById(old(posts), id).Some?
        && PostById(old(posts), id).value.author == actor.user.id) ==>
        match CleanPostForm(old(groups), form)
        case None => out == Render(FormPage(form, PostById(old(posts), id))) && State() == old(State())
        case Some(d) =>
          (out == RedirectToPost(id) && State() == old(State()).(posts := EditPost(old(posts), id, d)))
    {
      if actor.Anonymous? {
        return LoginRedirect;
      }
      var found := PostById(posts, id);
      if found.None? {
        return NotFound;
      }
      if found.value.author != actor.user.id {
        return RedirectToPost(id);
      }
      var cleaned := CleanPostForm(groups, form);
      if cleaned.None? {
        return Render(FormPage(form, found));
      }
      UpdatePost(id, cleaned.value);
      out := RedirectToPost(id);
    }

    /** `add_comment`: a 404 for an unknown post; otherwise the visitor is
        sent back to the post, and a valid form has added one comment by
        them on that post, dated now, at the head of the listing. */
    method AddComment(actor: Actor, id: PostId, form: Option<CommentForm>) returns (out: Outcome)
      requires Valid()
      requires actor.Authenticated? ==> actor.user in users
      modifies this
      ensures Valid()
      ensures actor.Anonymous? ==> out == LoginRedirect && State() == old(State())
      ensures actor.Authenticated? && PostById(old(posts), id).None? ==>
        out == NotFound && State() == old(State())
      ensures actor.Authenticated? && PostById(old(posts), id).Some? ==>
        (out == RedirectToPost(id) &&
         match CleanCommentForm(form)
         case None => State() == old(State())
         case Some(text) => State() == old(State()).(comments :=
           [Comment(old(nextCommentId), id, actor.user.id, text, old(clock))] + old(comments)))
    {
      if actor.Anonymous? {
        return LoginRedirect;
      }
      var found := PostById(posts, id);
      if found.None? {
        return NotFound;
      }
      out := RedirectToPost(id);
      var cleaned := CleanCommentForm(form);
      if cleaned.Some? {
        SaveComment(Comment(nextCommentId, id, actor.user.id, cleaned.value, clock), found.value, actor.user);
      }
    }

    /** `form.save()` on a new post: the post, stamped with the next id
        and the current time, goes to the head of the table. */
    method SavePost(p: Post, ghost u: User)
      requires Valid()
      requires p.id == nextPostId && p.pubDate == clock
      requires u in users && u.id == p.author
      requires p.group.Some? ==> p.group.value in GroupIds(groups)
      modifies this
      ensures Valid()
      ensures State() == old(State()).(posts := [p] + old(posts))
      ensures Next() == old(Next()).(clock := old(clock) + 1, post := old(nextPostId) + 1)
    {
      PublishKeepsInv(State(), Next(), p, u);
      posts, clock, nextPostId := [p] + posts, clock + 1, nextPostId + 1;
    }

    /** `form.save()` on an existing post. */
    method UpdatePost(id: PostId, d: PostData)
      requires Valid()
      requires d.group.Some? ==> d.group.value in GroupIds(groups)
      modifies this
      ensures Valid()
      ensures State() == old(State()).(posts := EditPost(old(posts), id, d))
      ensures Next() == old(Next())
    {
      EditKeepsInv(State(), Next(), id, d);
      posts := EditPost(posts, id, d);
    }

    /** `Follow.objects.get_or_create(...)`. */
    method SaveFollow(e: Follow, ghost u: User, ghost a: User)
      requires Valid()
      requires u in users && a in users && e == Follow(u.id, a.id) && u.id != a.id
      modifies this
      ensures Valid()
      ensures State() == old(State()).(follows := GetOrCreate(old(follows), e))
      ensures Next() == old(Next())
    {
      assert e.user in UserIds(users) && e.author in UserIds(users);
      FollowKeepsConsistent(State(), e);
      follows := GetOrCreate(follows, e);
    }

    /** Deleting one Follow row. */
    method DeleteFollow(e: Follow)
      requires Valid()
      modifies this
      ensures Valid()
      ensures State() == old(State()).(follows := RemoveEdge(old(follows), e))
      ensures Next() == old(Next())
    {
      UnfollowKeepsConsistent(State(), e);
      follows := RemoveEdge(follows, e);
    }

    /** `Comment.objects.create(...)`: the comment, stamped with the next
        id and the current time, goes to the head of the table. */
    method SaveComment(c: Comment, ghost p: Post, ghost u: User)
      requires Valid()
      requires c.id == nextCommentId && c.created == clock
      requires p in posts && p.id == c.post && u in users && u.id == c.author
      modifies this
      ensures Valid()
      ensures State() == old(State()).(comments := [c] + old(comments))
      ensures Next() == old(Next()).(clock := old(clock) + 1, comment := old(nextCommentId) + 1)
    {
      CommentKeepsInv(State(), Next(), c, p, u);
      comments, clock, nextCommentId := [c] + comments, clock + 1, nextCommentId + 1;
    }

    /** `profile_follow`: following oneself (same username) does nothing;
        an unknown username is a 404; otherwise the edge exists afterwards,
        added only if it was missing. Either way the answer is the profile. */
    method ProfileFollow(actor: Actor, username: string) returns (out: Outcome)
      requires Valid()
      requires actor.Authenticated? ==> actor.user in users
      modifies this
      ensures Valid()
      ensures actor.Anonymous? ==> out == LoginRedirect && State() == old(State())
      ensures actor.Authenticated? && actor.user.username == username ==>
        out == RedirectToProfile(username) && State() == old(State())
      ensures (actor.Authenticated? && actor.user.username != username
        && UserByName(old(users), username).None?) ==>
        out == NotFound && State() == old(State())
      ensures (actor.Authenticated? && actor.user.username != username
        && UserByName(old(users), username).Some?) ==>
        var e := Follow(actor.user.id, UserByName(old(users), username).value.id);
        && out == RedirectToProfile(username)
        && State() == old(State()).(follows := GetOrCreate(old(follows), e))
    {
      if actor.Anonymous? {
        return LoginRedirect;
      }
      if actor.user.username != username {
        var author := UserByName(users, username);
        if author.None? {
          return NotFound;
        }
        var e := Follow(actor.user.id, author.value.id);
        SaveFollow(e, actor.user, author.value);
      }
      out := RedirectToProfile(username);
    }

    /** `profile_unfollow`: a 404 unless the visitor follows the user with
        that username; otherwise exactly that edge is removed. */
    method ProfileUnfollow(actor: Actor, username: string) returns (out: Outcome)
      requires Valid()
      requires actor.Authenticated? ==> actor.user in users
      modifies this
      ensures Valid()
      ensures actor.Anonymous? ==> out == LoginRedirect && State() == old(State())
      ensures actor.Authenticated? ==>
        match UserByName(old(users), username)
        case None => out == NotFound && State() == old(State())
        case Some(author) =>
          var e := Follow(actor.user.id, author.id);
          if e in old(follows) then
            out == RedirectToProfile(username)
            && State() == old(State()).(follows := RemoveEdge(old(follows), e))
          else
            out == NotFound && State() == old(State())
    {
      if actor.Anonymous? {
        return LoginRedirect;
      }
      var author := UserByName(users, username);
      if author.None? {
        return NotFound;
      }
      var e := Follow(actor.user.id, author.value.id);
      if e !in follows {
        return NotFound;
      }
      DeleteFollow(e);
      out := RedirectToProfile(username);
    }

    /** Deleting a group (`on_delete=models.SET_NULL`). */
    method DeleteGroup(gid: GroupId)
      requires Valid()
      modifies this
      ensures Valid()
      ensures State() == DeleteGroupDb(old(State()), gid)
    {
      DeleteGroupKeepsInv(State(), Next(), gid);
      groups := Filter(groups, NotGroup(gid));
      posts := UngroupAll(posts, gid);
    }

    /** Deleting the comments that `f` rejects. */
    method DropComments(f: Comment -> bool)
      requires Valid()
      modifies this
      ensures Valid()
      ensures State() == old(State()).(comments := Filter(old(comments), f))
      ensures Next() == old(Next())
    {
      DropCommentsKeepsInv(State(), Next(), f);
      comments := Filter(comments, f);
    }

    /** Deleting the follow edges that `f` rejects. */
    method DropFollows(f: Follow -> bool)
      requires Valid()
      modifies this
      ensures Valid()
      ensures State() == old(State()).(follows := Filter(old(follows), f))
      ensures Next() == old(Next())
    {
      DropFollowsKeepsInv(State(), Next(), f);
      follows := Filter(follows, f);
    }

    /** Deleting the posts that `f` rejects, once no comment is on them. */
    method DropPosts(f: Post -> bool)
      requires Valid()
      requires forall c :: c in comments ==> c.post in PostIds(Filter(posts, f))
      modifies this
      ensures Valid()
      ensures State() == old(State()).(posts := Filter(old(posts), f))
      ensures Next() == old(Next())
    {
      DropPostsKeepsInv(State(), Next(), f);
      posts := Filter(posts, f);
    }

    /** Deleting a user, once no row refers to them. */
    method DropUser(uid: UserId)
      requires Valid()
      requires forall p :: p in posts ==> p.author != uid
      requires forall c :: c in comments ==> c.author != uid
      requires forall e :: e in follows ==> e.user != uid && e.author != uid
      modifies this
      ensures Valid()
      ensures State() == old(State()).(users := Filter(old(users), NotUser(uid)))
      ensures Next() == old(Next())
    {
      DropUserKeepsInv(State(), Next(), uid);
      users := Filter(users, NotUser(uid));
    }

    /** Deleting a post: its comments first, then the post. */
    method DeletePost(pid: PostId)
      requires Valid()
      modifies this
      ensures Valid()
      ensures State() == DeletePostDb(old(State()), pid)
    {
      DropComments(NotOnPost(pid));
      forall c | c in comments ensures c.post in PostIds(Filter(posts, NotPost(pid))) {
        var p :| p in posts && p.id == c.post;
        assert p in Filter(posts, NotPost(pid));
      }
      DropPosts(NotPost(pid));
    }

    /** Deleting a user, cascading as the foreign keys say: the follow
        edges that touch them, the comments that were theirs or on their
        posts, their posts, and then the user. */
    method DeleteUser(uid: UserId)
      requires Valid()
      modifies this
      ensures Valid()
      ensures State() == DeleteUserDb(old(State()), uid)
    {
      var kept := Filter(posts, NotByAuthor(uid));
      DropFollows(NotInvolving(uid));
      DropComments(CommentSurvives(uid, kept));
      DropPosts(NotByAuthor(uid));
      DropUser(uid);
    }
  }
}
