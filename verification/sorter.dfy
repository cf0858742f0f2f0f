/**
 Ordering the entries of one directory listing by name, and ordering a
 whole tree so that every directory lists its entries in that order.
 */
module Sorter {
  import opened Names
  import opened FileTree

  /** `x` may be listed before `y`. */
  predicate InOrder(x: Node, y: Node)
  {
    NameCompare(x.name, y.name) <= 0
  }

  predicate SortedByName(xs: seq<Node>)
  {
    forall i, j :: 0 <= i < j < |xs| ==> InOrder(xs[i], xs[j])
  }

  /** Strictly ascending by name: the only arrangement a listing of
      distinct names can be sorted into. */
  predicate StrictlyAscending(xs: seq<Node>)
  {
    forall i, j :: 0 <= i < j < |xs| ==> NameCompare(xs[i].name, xs[j].name) < 0
  }

  function Insert(x: Node, xs: seq<Node>): (r: seq<Node>)
    requires SortedByName(xs)
    ensures SortedByName(r)
    ensures multiset(r) == multiset(xs) + multiset{x}
  {
    if xs == [] then [x]
    else if InOrder(x, xs[0]) then
      BelowFirstBelowAll(x, xs);
      ConsSorted(x, xs);
      [x] + xs
    else
      var rest := Insert(x, xs[1..]);
      assert xs == [xs[0]] + xs[1..];
      NameCompareAntisymmetric(x.name, xs[0].name);
      BoundCarriesOver(xs[0], x, xs[1..], rest);
      ConsSorted(xs[0], rest);
      [xs[0]] + rest
  }

  /** An entry that may precede the first of a sorted listing may precede
      all of it. */
  lemma BelowFirstBelowAll(x: Node, xs: seq<Node>)
    requires SortedByName(xs) && xs != [] && InOrder(x, xs[0])
    ensures forall j :: 0 <= j < |xs| ==> InOrder(x, xs[j])
  {
    forall j | 0 <= j < |xs|
      ensures InOrder(x, xs[j])
    {
      if j > 0 {
        NameCompareTransitive(x.name, xs[0].name, xs[j].name);
      }
    }
  }

  lemma ConsSorted(h: Node, s: seq<Node>)
    requires SortedByName(s)
    requires forall j :: 0 <= j < |s| ==> InOrder(h, s[j])
    ensures SortedByName([h] + s)
  {
  }

  /** A lower bound of `x` and of every element of `s` bounds every
      element of any rearrangement `t` of them. */
  lemma BoundCarriesOver(h: Node, x: Node, s: seq<Node>, t: seq<Node>)
    requires InOrder(h, x)
    requires forall j :: 0 <= j < |s| ==> InOrder(h, s[j])
    requires multiset(t) == multiset(s) + multiset{x}
    ensures forall j :: 0 <= j < |t| ==> InOrder(h, t[j])
  {
    forall j | 0 <= j < |t|
      ensures InOrder(h, t[j])
    {
      assert t[j] in multiset(t);
      if t[j] != x {
        assert t[j] in multiset(s);
      }
    }
  }

  /** The listing sorted by name (insertion sort). */
  function SortEntries(xs: seq<Node>): (r: seq<Node>)
    ensures SortedByName(r)
    ensures multiset(r) == multiset(xs)
  {
    if xs == [] then []
    else
      assert xs == [xs[0]] + xs[1..];
      Insert(xs[0], SortEntries(xs[1..]))
  }

  /** A strictly ascending arrangement of a listing is determined by the
      listing: the sorted listing is that arrangement. */
  lemma {:induction false} SortEntriesIsStrictArrangement(xs: seq<Node>, ys: seq<Node>)
    requires StrictlyAscending(ys)
    requires multiset(ys) == multiset(xs)
    ensures SortEntries(xs) == ys
  {
    SortedArrangementUnique(ys, SortEntries(xs));
  }

  lemma {:induction false} SortedArrangementUnique(a: seq<Node>, b: seq<Node>)
    requires StrictlyAscending(a)
    requires SortedByName(b)
    requires multiset(a) == multiset(b)
    ensures a == b
  {
    if a == [] {
      assert |b| == |multiset(b)| == 0;
    } else {
      assert |b| == |multiset(b)| == |multiset(a)| == |a|;
      SmallestComesFirst(a, b);
      SameTails(a, b);
      assert StrictlyAscending(a[1..]) && SortedByName(b[1..]);
      SortedArrangementUnique(a[1..], b[1..]);
      assert a == [a[0]] + a[1..] && b == [b[0]] + b[1..];
    }
  }

  /** Removing the same first entry from two rearrangements of one listing
      leaves two rearrangements of one listing. */
  lemma SameTails(a: seq<Node>, b: seq<Node>)
    requires a != [] && b != [] && a[0] == b[0]
    requires multiset(a) == multiset(b)
    ensures multiset(a[1..]) == multiset(b[1..])
  {
    assert a == [a[0]] + a[1..] && b == [b[0]] + b[1..];
    assert multiset(a[1..]) == multiset(a) - multiset{a[0]};
    assert multiset(b[1..]) == multiset(b) - multiset{b[0]};
  }

  /** Two sorted rearrangements of the same entries, the first strictly,
      begin with the same entry. */
  lemma SmallestComesFirst(a: seq<Node>, b: seq<Node>)
    requires StrictlyAscending(a)
    requires SortedByName(b)
    requires multiset(a) == multiset(b)
    requires |a| > 0 && |b| > 0
    ensures a[0] == b[0]
  {
    assert b[0] in multiset(a);
    var k :| 0 <= k < |a| && a[k] == b[0];
    if k != 0 {
      // a[0] sorts strictly before b[0], yet b[0] sorts no later than a[0].
      assert a[0] in multiset(b);
      var m :| 0 <= m < |b| && b[m] == a[0];
      NameCompareAntisymmetric(a[0].name, b[0].name);
      assert false;
    }
  }

  /** The tree with every directory's listing sorted by name, level by
      level: list, sort, then order each entry's own subtree. */
  function SortTree(n: Node): (r: Node)
    ensures r.name == n.name && r.isDir == n.isDir && r.isHidden == n.isHidden
    ensures |r.children| == |n.children|
  {
    var sorted := SortEntries(n.children);
    assert |sorted| == |multiset(sorted)| == |n.children|;
    assert forall i :: 0 <= i < |sorted| ==> sorted[i] in n.children by {
      forall i | 0 <= i < |sorted|
        ensures sorted[i] in n.children
      {
        assert sorted[i] in multiset(sorted);
      }
    }
    var children := seq(|sorted|, i requires 0 <= i < |sorted| => SortTree(sorted[i]));
    Node(n.name, n.isDir, n.isHidden, children)
  }

  /** Every listing in the tree, at every level, is in name order. */
  predicate Ordered(n: Node)
  {
    && SortedByName(n.children)
    && forall i :: 0 <= i < |n.children| ==> Ordered(n.children[i])
  }

  /** Every directory of the ordered tree lists its entries in name order. */
  lemma {:induction false} SortTreeListsInOrder(n: Node)
    ensures Ordered(SortTree(n))
  {
    var sorted := SortEntries(n.children);
    var r := SortTree(n);
    assert |sorted| == |multiset(sorted)| == |n.children|;
    assert SortedByName(r.children) by {
      assert forall i :: 0 <= i < |sorted| ==> r.children[i].name == sorted[i].name;
    }
    forall i | 0 <= i < |r.children|
      ensures Ordered(r.children[i])
    {
      assert sorted[i] in multiset(sorted);
      assert sorted[i] in n.children;
      SortTreeListsInOrder(sorted[i]);
    }
  }

  lemma {:induction false} InsertSize(x: Node, xs: seq<Node>)
    requires SortedByName(xs)
    ensures SizeForest(Insert(x, xs)) == Size(x) + SizeForest(xs)
  {
    if xs != [] && !InOrder(x, xs[0]) {
      InsertSize(x, xs[1..]);
    }
  }

  lemma {:induction false} SortEntriesSize(xs: seq<Node>)
    ensures SizeForest(SortEntries(xs)) == SizeForest(xs)
  {
    if xs != [] {
      SortEntriesSize(xs[1..]);
      InsertSize(xs[0], SortEntries(xs[1..]));
    }
  }

  lemma {:induction false} SizeForestPointwise(s: seq<Node>, t: seq<Node>)
    requires |s| == |t|
    requires forall i :: 0 <= i < |s| ==> Size(s[i]) == Size(t[i])
    ensures SizeForest(s) == SizeForest(t)
  {
    if s != [] {
      SizeForestPointwise(s[1..], t[1..]);
    }
  }

  /** Ordering a tree neither adds nor loses an entry. */
  lemma {:induction false} SortTreeSize(n: Node)
    ensures Size(SortTree(n)) == Size(n)
  {
    var sorted := SortEntries(n.children);
    var r := SortTree(n);
    assert |sorted| == |multiset(sorted)| == |n.children|;
    forall i | 0 <= i < |sorted|
      ensures Size(r.children[i]) == Size(sorted[i])
    {
      assert sorted[i] in multiset(sorted);
      assert sorted[i] in n.children;
      SortTreeSize(sorted[i]);
    }
    SizeForestPointwise(r.children, sorted);
    SortEntriesSize(n.children);
  }

  // ----- Each listing of the ordered tree is the original listing -----

  /** `f` applied to every element, in order. */
  function Map<T, U>(f: T -> U, xs: seq<T>): seq<U>
  {
    if xs == [] then [] else [f(xs[0])] + Map(f, xs[1..])
  }

  lemma {:induction false} MapAppend<T, U>(f: T -> U, a: seq<T>, b: seq<T>)
    ensures Map(f, a + b) == Map(f, a) + Map(f, b)
  {
    if a == [] {
      assert a + b == b;
    } else {
      assert (a + b)[1..] == a[1..] + b;
      MapAppend(f, a[1..], b);
    }
  }

  lemma MapAt<T, U>(f: T -> U, ys: seq<T>, k: nat)
    requires k < |ys|
    ensures Map(f, ys) == Map(f, ys[..k]) + [f(ys[k])] + Map(f, ys[k + 1..])
  {
    var a, x, b := ys[..k], [ys[k]], ys[k + 1..];
    assert ys == (a + x) + b;
    assert x[1..] == [];
    assert Map(f, x) == [f(ys[k])];
    MapAppend(f, a + x, b);
    MapAppend(f, a, x);
  }

  /** Taking out the element at `k` takes one copy of it out of the multiset. */
  lemma RemoveAt<T>(ys: seq<T>, k: nat)
    requires k < |ys|
    ensures multiset(ys[..k] + ys[k + 1..]) == multiset(ys) - multiset{ys[k]}
  {
    assert ys == ys[..k] + [ys[k]] + ys[k + 1..];
  }

  /** Mapping two rearrangements of one sequence gives two rearrangements of
      one sequence. */
  lemma {:induction false} MapPermutes<T, U>(f: T -> U, xs: seq<T>, ys: seq<T>)
    requires multiset(xs) == multiset(ys)
    ensures multiset(Map(f, xs)) == multiset(Map(f, ys))
    decreases |xs|
  {
    if xs == [] {
      assert |ys| == |multiset(ys)| == 0;
    } else {
      assert xs[0] in multiset(ys);
      var k :| 0 <= k < |ys| && ys[k] == xs[0];
      var rest := ys[..k] + ys[k + 1..];
      RemoveAt(ys, k);
      assert multiset(xs[1..]) == multiset(xs) - multiset{xs[0]} by {
        assert xs == [xs[0]] + xs[1..];
      }
      MapPermutes(f, xs[1..], rest);
      MapAt(f, ys, k);
      MapAppend(f, ys[..k], ys[k + 1..]);
    }
  }

  lemma {:induction false} OrderedSubtrees(ns: seq<Node>)
    ensures seq(|ns|, i requires 0 <= i < |ns| => SortTree(ns[i])) == Map(SortTree, ns)
  {
    if ns != [] {
      OrderedSubtrees(ns[1..]);
    }
  }

  /** Each listing of the ordered tree holds exactly the entries of the
      original listing, each with its own subtree ordered, in some order. */
  lemma SortTreeRearranges(n: Node)
    ensures multiset(SortTree(n).children) == multiset(Map(SortTree, n.children))
  {
    var sorted := SortEntries(n.children);
    OrderedSubtrees(sorted);
    MapPermutes(SortTree, sorted, n.children);
  }
}
