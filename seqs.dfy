/** Sequence helpers shared by the model: the ORM's `filter(...)` and
    `get(...)` over a table that is kept as a sequence of rows. */
module Seqs {

  datatype Option<+T> = None | Some(value: T)

  /** Every element occurs at most once (a uniqueness constraint on a table). */
  predicate Unique<T(==)>(s: seq<T>) {
    forall i, j :: 0 <= i < j < |s| ==> s[i] != s[j]
  }

  /** The rows of `s` that satisfy `f`, in their original order. */
  function Filter<T(!new)>(s: seq<T>, f: T -> bool): (r: seq<T>)
    ensures |r| <= |s|
    ensures forall x :: x in r <==> x in s && f(x)
    ensures forall i :: 0 <= i < |r| ==> f(r[i])
    decreases |s|
  {
    if s == [] then []
    else if f(s[0]) then [s[0]] + Filter(s[1..], f)
    else Filter(s[1..], f)
  }

  /** The first row of `s` that satisfies `f`, if any. */
  function Find<T(!new)>(s: seq<T>, f: T -> bool): (r: Option<T>)
    ensures r.Some? ==> r.value in s && f(r.value)
    ensures r.None? <==> forall x :: x in s ==> !f(x)
    decreases |s|
  {
    if s == [] then None
    else if f(s[0]) then Some(s[0])
    else Find(s[1..], f)
  }

  /** Filtering distributes over concatenation. */
  lemma {:induction false} FilterAppend<T(!new)>(s: seq<T>, t: seq<T>, f: T -> bool)
    ensures Filter(s + t, f) == Filter(s, f) + Filter(t, f)
    decreases |s|
  {
    if s == [] {
      assert s + t == t;
    } else {
      assert (s + t)[1..] == s[1..] + t;
      FilterAppend(s[1..], t, f);
    }
  }

  /** Two predicates that agree on every element select the same rows. */
  lemma {:induction false} FilterExt<T(!new)>(s: seq<T>, f: T -> bool, g: T -> bool)
    requires forall x :: x in s ==> f(x) == g(x)
    ensures Filter(s, f) == Filter(s, g)
    decreases |s|
  {
    if s != [] {
      assert s[0] in s;
      assert forall x :: x in s[1..] ==> x in s;
      FilterExt(s[1..], f, g);
    }
  }

  /** A predicate that every element satisfies keeps the whole sequence. */
  lemma {:induction false} FilterAll<T(!new)>(s: seq<T>, f: T -> bool)
    requires forall x :: x in s ==> f(x)
    ensures Filter(s, f) == s
    decreases |s|
  {
    if s != [] {
      assert s[0] in s;
      assert forall x :: x in s[1..] ==> x in s;
      FilterAll(s[1..], f);
      assert [s[0]] + s[1..] == s;
    }
  }

  /** When `h` is the disjoint union of `f` and `g` on `s`, the rows it
      selects are as many as those of `f` and `g` together. */
  lemma {:induction false} FilterDisjointCount<T(!new)>(s: seq<T>, h: T -> bool, f: T -> bool, g: T -> bool)
    requires forall x :: x in s ==> h(x) == (f(x) || g(x))
    requires forall x :: x in s ==> !(f(x) && g(x))
    ensures |Filter(s, h)| == |Filter(s, f)| + |Filter(s, g)|
    decreases |s|
  {
    if s != [] {
      assert s[0] in s;
      assert forall x :: x in s[1..] ==> x in s;
      FilterDisjointCount(s[1..], h, f, g);
    }
  }

  /** In a sequence without duplicates, removing one present element
      removes exactly one row. */
  lemma {:induction false} FilterRemoveOne<T(!new)>(s: seq<T>, e: T, f: T -> bool)
    requires Unique(s) && e in s
    requires forall x :: f(x) <==> x != e
    ensures |Filter(s, f)| == |s| - 1
    decreases |s|
  {
    if s[0] == e {
      assert forall x :: x in s[1..] ==> x != e by {
        forall x | x in s[1..] ensures x != e {
          var k :| 0 <= k < |s[1..]| && s[1..][k] == x;
          assert s[k + 1] == x;
        }
      }
      FilterAll(s[1..], f);
    } else {
      assert e in s[1..];
      assert Unique(s[1..]) by {
        forall i, j | 0 <= i < j < |s[1..]| ensures s[1..][i] != s[1..][j] {
          assert s[i + 1] != s[j + 1];
        }
      }
      FilterRemoveOne(s[1..], e, f);
    }
  }

  /** In a sequence without duplicates, removing one present element lowers
      the count of rows selected by any `g` by one if `g` selects that
      element, and leaves it otherwise. */
  lemma {:induction false} FilterRemoveOneCount<T(!new)>(s: seq<T>, e: T, f: T -> bool, g: T -> bool)
    requires Unique(s) && e in s
    requires forall x :: f(x) <==> x != e
    ensures |Filter(Filter(s, f), g)| + (if g(e) then 1 else 0) == |Filter(s, g)|
    decreases |s|
  {
    if s[0] == e {
      assert forall x :: x in s[1..] ==> f(x) by {
        forall x | x in s[1..] ensures x != e {
          var k :| 0 <= k < |s[1..]| && s[1..][k] == x;
          assert s[k + 1] == x;
        }
      }
      FilterAll(s[1..], f);
    } else {
      assert e in s[1..];
      assert Unique(s[1..]) by {
        forall i, j | 0 <= i < j < |s[1..]| ensures s[1..][i] != s[1..][j] {
          assert s[i + 1] != s[j + 1];
        }
      }
      FilterRemoveOneCount(s[1..], e, f, g);
      var r := Filter(s[1..], f);
      assert ([s[0]] + r)[1..] == r;
    }
  }

  /** The positions of `s` whose row satisfies `f`. */
  function Positions<T>(s: seq<T>, f: T -> bool): set<int> {
    set i | 0 <= i < |s| && f(s[i])
  }

  /** The positions of a non-empty sequence are those of all but its last
      row, plus the last position when its row qualifies. */
  lemma PositionsSnoc<T>(s: seq<T>, f: T -> bool)
    requires s != []
    ensures Positions(s, f) == Positions(s[..|s| - 1], f) + (if f(s[|s| - 1]) then {|s| - 1} else {})
    ensures |s| - 1 !in Positions(s[..|s| - 1], f)
  {
    var n := |s| - 1;
    forall i | 0 <= i < n ensures s[..n][i] == s[i] { }
  }

  /** The rows `Filter` keeps are as many as the positions of `s` whose
      row satisfies `f`. */
  lemma {:induction false} FilterCount<T(!new)>(s: seq<T>, f: T -> bool)
    ensures |Filter(s, f)| == |Positions(s, f)|
    decreases |s|
  {
    if s == [] {
      assert Positions(s, f) == {};
    } else {
      var n := |s| - 1;
      var p := s[..n];
      FilterCount(p, f);
      assert s == p + [s[n]];
      FilterAppend(p, [s[n]], f);
      assert [s[n]][1..] == [];
      PositionsSnoc(s, f);
    }
  }

  /** Filtering a duplicate-free sequence leaves it duplicate-free. */
  lemma {:induction false} FilterUnique<T(!new)>(s: seq<T>, f: T -> bool)
    requires Unique(s)
    ensures Unique(Filter(s, f))
    decreases |s|
  {
    if s != [] {
      assert Unique(s[1..]) by {
        forall i, j | 0 <= i < j < |s[1..]| ensures s[1..][i] != s[1..][j] {
          assert s[i + 1] != s[j + 1];
        }
      }
      FilterUnique(s[1..], f);
      if f(s[0]) {
        var r := Filter(s[1..], f);
        assert s[0] !in s[1..] by {
          forall k | 0 <= k < |s[1..]| ensures s[1..][k] != s[0] {
            assert s[0] != s[k + 1];
          }
        }
        assert s[0] !in r;
        forall i, j | 0 <= i < j < |[s[0]] + r| ensures ([s[0]] + r)[i] != ([s[0]] + r)[j] {
          if i == 0 {
            assert ([s[0]] + r)[j] == r[j - 1];
          } else {
            assert ([s[0]] + r)[i] == r[i - 1];
          }
        }
      }
    }
  }
}
