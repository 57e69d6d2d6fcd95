/** The Follow table as a sequence of rows under the `(user, author)`
    uniqueness constraint (yatube/posts/migrations/0009_auto_20221204_0125.py),
    and the two writes the follow views make to it: `get_or_create` and
    deleting one row. */
module Subscriptions {
  import opened Seqs
  import opened Entities

  /** `Follow.objects.get_or_create(user=..., author=...)`: the edge is
      present afterwards, and it is added only when it was missing. */
  function GetOrCreate(rows: seq<Follow>, e: Follow): (r: seq<Follow>)
    ensures e in r
    ensures forall x :: x in r <==> x in rows || x == e
    ensures e in rows ==> r == rows
    ensures e !in rows ==> |r| == |rows| + 1
    ensures Unique(rows) ==> Unique(r)
  {
    if e in rows then rows else rows + [e]
  }

  function IsNot(e: Follow): Follow -> bool {
    (x: Follow) => x != e
  }

  /** Deleting one Follow row: every other row stays, in order. */
  function RemoveEdge(rows: seq<Follow>, e: Follow): (r: seq<Follow>)
    ensures e !in r
    ensures forall x :: x in r <==> x in rows && x != e
    ensures Unique(rows) && e in rows ==> |r| == |rows| - 1
    ensures Unique(rows) ==> Unique(r)
  {
    var r := Filter(rows, IsNot(e));
    if Unique(rows) then
      FilterUnique(rows, IsNot(e));
      if e in rows then FilterRemoveOne(rows, e, IsNot(e)); r else r
    else r
  }

  function FollowsAuthor(author: UserId): Follow -> bool {
    (x: Follow) => x.author == author
  }

  /** `author.following.count()`: how many users follow `author`. */
  function FollowerCount(rows: seq<Follow>, author: UserId): (n: nat)
    ensures n == |set i | 0 <= i < |rows| && rows[i].author == author|
    ensures n <= |rows|
    ensures n == 0 <==> forall f :: f in rows ==> f.author != author
  {
    var r := Filter(rows, FollowsAuthor(author));
    assert r != [] ==> r[0] in r;
    var f := FollowsAuthor(author);
    FilterCount(rows, f);
    assert Positions(rows, f) == set i | 0 <= i < |rows| && rows[i].author == author;
    |r|
  }

  /** Adding a missing edge raises its author's follower count by one and
      leaves every other author's count as it was. */
  lemma FollowAddsOneFollower(rows: seq<Follow>, e: Follow)
    requires e !in rows
    ensures FollowerCount(GetOrCreate(rows, e), e.author) == FollowerCount(rows, e.author) + 1
    ensures forall a :: a != e.author ==>
      FollowerCount(GetOrCreate(rows, e), a) == FollowerCount(rows, a)
  {
    FilterAppend(rows, [e], FollowsAuthor(e.author));
    forall a | a != e.author
      ensures FollowerCount(GetOrCreate(rows, e), a) == FollowerCount(rows, a)
    {
      FilterAppend(rows, [e], FollowsAuthor(a));
    }
  }

  /** A second follow of the same author adds no second row: the table
      is the one the first follow produced, still without duplicates. */
  lemma FollowIsIdempotent(rows: seq<Follow>, e: Follow)
    requires Unique(rows)
    ensures GetOrCreate(GetOrCreate(rows, e), e) == GetOrCreate(rows, e)
    ensures Unique(GetOrCreate(GetOrCreate(rows, e), e))
  {
  }

  /** Unfollowing right after following a new author restores the table,
      and with it every follower count. */
  lemma UnfollowUndoesFollow(rows: seq<Follow>, e: Follow)
    requires e !in rows
    ensures RemoveEdge(GetOrCreate(rows, e), e) == rows
    ensures forall a :: FollowerCount(RemoveEdge(GetOrCreate(rows, e), e), a) == FollowerCount(rows, a)
  {
    FilterAppend(rows, [e], IsNot(e));
    FilterAll(rows, IsNot(e));
  }

  /** Removing an edge leaves every other author's follower count as it
      was and, in a table without duplicates, lowers that author's by one. */
  lemma UnfollowRemovesOneFollower(rows: seq<Follow>, e: Follow)
    requires Unique(rows) && e in rows
    ensures FollowerCount(RemoveEdge(rows, e), e.author) == FollowerCount(rows, e.author) - 1
    ensures forall a :: a != e.author ==>
      FollowerCount(RemoveEdge(rows, e), a) == FollowerCount(rows, a)
  {
    forall a ensures FollowerCount(RemoveEdge(rows, e), a) + (if e.author == a then 1 else 0)
      == FollowerCount(rows, a)
    {
      FilterRemoveOneCount(rows, e, IsNot(e), FollowsAuthor(a));
    }
  }
}
