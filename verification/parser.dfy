/**
 Reading the printed tree back.

 The lines of one entry's subtree are its own line followed by every later
 line that is nested deeper; the entry's name and kind follow from the text
 after the indentation. Parsing the output of the renderer recovers exactly
 the shown entries with their names, their directory flags and their
 nesting, which is the sense in which the output is a pre-order listing
 whose subtrees are contiguous blocks.
 */
module OutputParser {
  import opened FileTree
  import opened Sorter
  import opened Renderer

  /** The first position at or after `k` where the block of lines nested
      deeper than `depth` ends. */
  function BlockEnd(ls: seq<Line>, depth: nat, k: nat): (r: nat)
    requires 1 <= k <= |ls|
    ensures k <= r <= |ls|
    ensures forall j :: k <= j < r ==> ls[j].depth > depth
    ensures r < |ls| ==> ls[r].depth <= depth
    decreases |ls| - k
  {
    if k == |ls| || ls[k].depth <= depth then k else BlockEnd(ls, depth, k + 1)
  }

  /** The entry a line at `depth` names: the text after the indentation,
      a trailing "/" marking a directory. */
  function EntryOf(l: Line, depth: nat, children: seq<Node>): Node
  {
    var start := if 3 * depth <= |l.text| then 3 * depth else |l.text|;
    var t := l.text[start..];
    if |t| > 0 && t[|t| - 1] == '/' then Node(t[..|t| - 1], true, false, children)
    else Node(t, false, false, children)
  }

  /** The entries listed at `depth`, each with the block of deeper lines
      that follows it as its subtree. */
  function ParseForest(ls: seq<Line>, depth: nat): seq<Node>
    decreases |ls|
  {
    if ls == [] then []
    else
      var k := BlockEnd(ls, depth, 1);
      [EntryOf(ls[0], depth, ParseForest(ls[1..k], depth + 1))] + ParseForest(ls[k..], depth)
  }

  /** The tree as the output shows it: the hidden flag cannot be seen. */
  function Strip(n: Node): Node
  {
    Node(n.name, n.isDir, false, StripForest(n.children))
  }

  function StripForest(ns: seq<Node>): seq<Node>
  {
    if ns == [] then [] else [Strip(ns[0])] + StripForest(ns[1..])
  }

  /** A block headed by a line at `depth`, with every later line deeper,
      followed by lines that start back at `depth` or shallower, parses as
      one entry followed by the parse of the rest. */
  lemma ParseSplit(a: seq<Line>, b: seq<Line>, depth: nat)
    requires a != []
    requires forall i :: 1 <= i < |a| ==> a[i].depth > depth
    requires b != [] ==> b[0].depth <= depth
    ensures ParseForest(a + b, depth)
         == [EntryOf(a[0], depth, ParseForest(a[1..], depth + 1))] + ParseForest(b, depth)
  {
    var ls := a + b;
    var k := BlockEnd(ls, depth, 1);
    assert forall j :: 1 <= j < |a| ==> ls[j].depth > depth;
    assert b != [] ==> ls[|a|].depth <= depth;
    assert k == |a|;
    assert ls[1..k] == a[1..];
    assert ls[k..] == b;
  }

  lemma ParseBlock(a: seq<Line>, depth: nat)
    requires a != []
    requires forall i :: 1 <= i < |a| ==> a[i].depth > depth
    ensures ParseForest(a, depth) == [EntryOf(a[0], depth, ParseForest(a[1..], depth + 1))]
  {
    ParseSplit(a, [], depth);
    assert a + [] == a;
  }

  /** An entry's own line names it. */
  lemma LineNamesEntry(n: Node, depth: nat, opts: Options, children: seq<Node>)
    requires '/' !in n.name
    ensures EntryOf(LineFor(n, depth, opts), depth, children) == Node(n.name, n.isDir, false, children)
  {
    var text := Indent(depth) + Label(n);
    assert text[3 * depth..] == Label(n);
    if !n.isDir && |n.name| > 0 {
      assert n.name[|n.name| - 1] in n.name;
    }
  }

  lemma {:induction false} ParseRenderNode(n: Node, depth: nat, opts: Options)
    requires SlashFree(n)
    ensures ParseForest(RenderNode(n, depth, opts), depth)
         == if Shown(opts, n) then [Strip(Prune(n, opts))] else []
  {
    if Shown(opts, n) {
      var below := if n.isDir then RenderForest(n.children, depth + 1, opts) else [];
      var children := ParseForest(below, depth + 1);
      ParseOwnBlock(n, depth, opts);
      assert children == StripForest(Prune(n, opts).children) by {
        if n.isDir {
          ParseForestRender(n.children, depth + 1, opts);
        }
      }
      LineNamesEntry(n, depth, opts, children);
    }
  }

  /** A shown entry's lines parse as one entry whose subtree is the parse of
      the lines below it. */
  lemma ParseOwnBlock(n: Node, depth: nat, opts: Options)
    requires Shown(opts, n)
    ensures var below := if n.isDir then RenderForest(n.children, depth + 1, opts) else [];
      ParseForest(RenderNode(n, depth, opts), depth)
        == [EntryOf(LineFor(n, depth, opts), depth, ParseForest(below, depth + 1))]
  {
    var r := RenderNode(n, depth, opts);
    var below := if n.isDir then RenderForest(n.children, depth + 1, opts) else [];
    assert r == [LineFor(n, depth, opts)] + below;
    assert r[1..] == below;
    ParseBlock(r, depth);
  }

  lemma {:induction false} ParseForestRender(ns: seq<Node>, depth: nat, opts: Options)
    requires forall i :: 0 <= i < |ns| ==> SlashFree(ns[i])
    ensures ParseForest(RenderForest(ns, depth, opts), depth) == StripForest(PruneForest(ns, opts))
  {
    if ns != [] {
      var a := RenderNode(ns[0], depth, opts);
      var b := RenderForest(ns[1..], depth, opts);
      assert RenderForest(ns, depth, opts) == a + b;
      var rest := PruneForest(ns[1..], opts);
      ParseForestRender(ns[1..], depth, opts);
      ParseRenderNode(ns[0], depth, opts);
      if Shown(opts, ns[0]) {
        ParseSplit(a, b, depth);
        ParseBlock(a, depth);
        assert PruneForest(ns, opts) == [Prune(ns[0], opts)] + rest;
        assert ([Prune(ns[0], opts)] + rest)[1..] == rest;
      } else {
        assert PruneForest(ns, opts) == rest;
        assert a + b == b;
      }
    }
  }

  lemma {:induction false} SortTreeSlashFree(n: Node)
    requires SlashFree(n)
    ensures SlashFree(SortTree(n))
  {
    var sorted := SortEntries(n.children);
    var r := SortTree(n);
    assert |sorted| == |multiset(sorted)| == |n.children|;
    forall i | 0 <= i < |r.children|
      ensures SlashFree(r.children[i])
    {
      assert sorted[i] in multiset(sorted);
      assert sorted[i] in n.children;
      SortTreeSlashFree(sorted[i]);
    }
  }

  /** Reading the printer's output back yields the ordered tree with every
      entry that is not shown pruned away, and nothing else. */
  lemma ParseRender(n: Node, opts: Options)
    requires SlashFree(n)
    ensures ParseForest(Render(Some(n), opts), 0)
         == if Shown(opts, n) then [Strip(Prune(SortTree(n), opts))] else []
  {
    SortTreeSlashFree(n);
    ParseRenderNode(SortTree(n), 0, opts);
  }

  // ----- Sibling order in the output -----

  /** An entry that may precede every entry of a listing may precede every
      entry that survives pruning it. */
  lemma {:induction false} PruneForestBounded(h: Node, ns: seq<Node>, opts: Options)
    requires forall j :: 0 <= j < |ns| ==> InOrder(h, ns[j])
    ensures forall k :: 0 <= k < |PruneForest(ns, opts)| ==> InOrder(h, PruneForest(ns, opts)[k])
  {
    if ns != [] {
      PruneForestBounded(h, ns[1..], opts);
    }
  }

  /** Pruning keeps every listing in name order. */
  lemma {:induction false} PruneKeepsOrder(n: Node, opts: Options)
    requires Ordered(n)
    ensures Ordered(Prune(n, opts))
  {
    if n.isDir {
      PruneForestKeepsOrder(n.children, opts);
    }
  }

  lemma {:induction false} PruneForestKeepsOrder(ns: seq<Node>, opts: Options)
    requires SortedByName(ns)
    requires forall i :: 0 <= i < |ns| ==> Ordered(ns[i])
    ensures SortedByName(PruneForest(ns, opts))
    ensures forall i :: 0 <= i < |PruneForest(ns, opts)| ==> Ordered(PruneForest(ns, opts)[i])
  {
    if ns != [] {
      var rest := PruneForest(ns[1..], opts);
      PruneForestKeepsOrder(ns[1..], opts);
      if Shown(opts, ns[0]) {
        var head := Prune(ns[0], opts);
        PruneKeepsOrder(ns[0], opts);
        PruneForestBounded(ns[0], ns[1..], opts);
        assert PruneForest(ns, opts) == [head] + rest;
        ConsSorted(head, rest);
      } else {
        assert PruneForest(ns, opts) == rest;
      }
    }
  }

  /** Forgetting the hidden flags keeps every listing in name order. */
  lemma {:induction false} StripKeepsOrder(n: Node)
    requires Ordered(n)
    ensures Ordered(Strip(n))
  {
    StripForestKeepsOrder(n.children);
  }

  lemma {:induction false} StripForestKeepsOrder(ns: seq<Node>)
    requires SortedByName(ns)
    requires forall i :: 0 <= i < |ns| ==> Ordered(ns[i])
    ensures |StripForest(ns)| == |ns|
    ensures forall i :: 0 <= i < |ns| ==> StripForest(ns)[i].name == ns[i].name
    ensures SortedByName(StripForest(ns))
    ensures forall i :: 0 <= i < |ns| ==> Ordered(StripForest(ns)[i])
  {
    if ns != [] {
      StripForestKeepsOrder(ns[1..]);
      StripKeepsOrder(ns[0]);
      assert StripForest(ns) == [Strip(ns[0])] + StripForest(ns[1..]);
    }
  }

  /** Read back, the printed tree lists the siblings of every directory in
      name order, at every level. */
  lemma OutputListsInOrder(n: Node, opts: Options)
    requires SlashFree(n)
    ensures forall t :: t in ParseForest(Render(Some(n), opts), 0) ==> Ordered(t)
  {
    ParseRender(n, opts);
    if Shown(opts, n) {
      SortTreeListsInOrder(n);
      PruneKeepsOrder(SortTree(n), opts);
      StripKeepsOrder(Prune(SortTree(n), opts));
    }
  }
}
