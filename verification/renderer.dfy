/**
 The tree renderer: one line per shown entry, in depth-first pre-order,
 each directory's entries in name order, indented three spaces per level,
 directories marked with a trailing "/", and coloured by depth.

 A `Line` is one `println` of the printer. The terminal colour is set before
 the line and reset after it, so every line carries its own colour and the
 reset that follows it is implicit.
 */
module Renderer {
  import opened FileTree
  import opened Sorter

  datatype Color = White | Purple | Yellow

  /** The default colour sequence. */
  const Palette: seq<Color> := [White, Purple, Yellow]

  datatype Options = Options(showHidden: bool, useColor: bool)

  datatype Line = Line(depth: nat, text: string, color: Color)

  /** The entry is printed (together with its subtree) under these options. */
  predicate Shown(opts: Options, n: Node)
  {
    opts.showHidden || !n.isHidden
  }

  /** Three spaces per level. */
  function Indent(depth: nat): (r: string)
    ensures |r| == 3 * depth
    ensures forall i :: 0 <= i < |r| ==> r[i] == ' '
  {
    if depth == 0 then "" else Indent(depth - 1) + "   "
  }

  /** The entry's name, with "/" appended for a directory. */
  function Label(n: Node): (r: string)
    ensures |r| == |n.name| + (if n.isDir then 1 else 0)
    ensures r[..|n.name|] == n.name
    ensures n.isDir ==> r[|r| - 1] == '/'
  {
    if n.isDir then n.name + "/" else n.name
  }

  /** Index into the colour sequence for the next level down: one step
      further, wrapping after the third colour. */
  function NextIndex(c: nat): nat
  {
    (c + 1) % 3
  }

  /** The colour index a line at `depth` receives when the root starts at
      index 0 and every level passes `NextIndex` down. */
  function IndexAtDepth(depth: nat): nat
  {
    if depth == 0 then 0 else NextIndex(IndexAtDepth(depth - 1))
  }

  lemma {:induction false} IndexAtDepthIsDepthMod3(depth: nat)
    ensures IndexAtDepth(depth) == depth % 3
  {
    if depth > 0 {
      IndexAtDepthIsDepthMod3(depth - 1);
    }
  }

  /** The colour of a line at `depth`: the colour sequence cycled by depth,
      or white throughout when colour is off. */
  function ColorAt(opts: Options, depth: nat): (r: Color)
    ensures r == White <==> !opts.useColor || depth % 3 == 0
    ensures r == Purple <==> opts.useColor && depth % 3 == 1
    ensures r == Yellow <==> opts.useColor && depth % 3 == 2
  {
    if opts.useColor then Palette[depth % 3] else White
  }

  function LineFor(n: Node, depth: nat, opts: Options): Line
  {
    Line(depth, Indent(depth) + Label(n), ColorAt(opts, depth))
  }

  /** A line is indented for its depth and coloured for its depth. */
  predicate WellFormedLine(opts: Options, l: Line)
  {
    && l.color == ColorAt(opts, l.depth)
    && 3 * l.depth <= |l.text|
    && l.text[..3 * l.depth] == Indent(l.depth)
  }

  /** The lines for `n` at `depth` and its subtree, taking every listing in
      the order it is given. */
  function RenderNode(n: Node, depth: nat, opts: Options): (r: seq<Line>)
    ensures r != [] <==> Shown(opts, n)
    ensures r != [] ==> r[0] == LineFor(n, depth, opts)
    ensures forall i :: 1 <= i < |r| ==> r[i].depth > depth
  {
    if !Shown(opts, n) then []
    else [LineFor(n, depth, opts)] + (if n.isDir then RenderForest(n.children, depth + 1, opts) else [])
  }

  /** The lines for a listing's entries at `depth`, one subtree after another. */
  function RenderForest(ns: seq<Node>, depth: nat, opts: Options): (r: seq<Line>)
    ensures forall i :: 0 <= i < |r| ==> r[i].depth >= depth
    ensures r != [] ==> r[0].depth == depth
  {
    if ns == [] then [] else RenderNode(ns[0], depth, opts) + RenderForest(ns[1..], depth, opts)
  }

  /** The printer's output for an optional root: nothing for a missing root,
      otherwise the ordered tree rendered from depth 0. */
  function Render(root: Option<Node>, opts: Options): (r: seq<Line>)
    ensures r == [] <==> root.None? || !Shown(opts, root.value)
    ensures r != [] ==> r[0] == Line(0, Label(root.value), ColorAt(opts, 0))
    ensures forall i :: 1 <= i < |r| ==> r[i].depth >= 1
    ensures forall i :: 0 <= i < |r| ==> WellFormedLine(opts, r[i])
  {
    match root
    case None => []
    case Some(n) =>
      RenderNodeLinesWellFormed(SortTree(n), 0, opts);
      RenderNode(SortTree(n), 0, opts)
  }

  /** Every line is indented and coloured for its own depth. */
  lemma {:induction false} RenderNodeLinesWellFormed(n: Node, depth: nat, opts: Options)
    ensures forall l :: l in RenderNode(n, depth, opts) ==> WellFormedLine(opts, l)
  {
    if Shown(opts, n) {
      var r := RenderNode(n, depth, opts);
      var below := if n.isDir then RenderForest(n.children, depth + 1, opts) else [];
      assert r == [LineFor(n, depth, opts)] + below;
      LineForWellFormed(n, depth, opts);
      if n.isDir {
        RenderForestLinesWellFormed(n.children, depth + 1, opts);
      }
      forall l | l in r
        ensures WellFormedLine(opts, l)
      {
        if l != LineFor(n, depth, opts) {
          assert l in below;
        }
      }
    }
  }

  lemma LineForWellFormed(n: Node, depth: nat, opts: Options)
    ensures WellFormedLine(opts, LineFor(n, depth, opts))
  {
    var text := Indent(depth) + Label(n);
    assert text[..3 * depth] == Indent(depth);
  }

  lemma {:induction false} RenderForestLinesWellFormed(ns: seq<Node>, depth: nat, opts: Options)
    ensures forall l :: l in RenderForest(ns, depth, opts) ==> WellFormedLine(opts, l)
  {
    if ns != [] {
      RenderNodeLinesWellFormed(ns[0], depth, opts);
      RenderForestLinesWellFormed(ns[1..], depth, opts);
    }
  }

  lemma {:induction false} RenderForestAppend(a: seq<Node>, b: seq<Node>, depth: nat, opts: Options)
    ensures RenderForest(a + b, depth, opts) == RenderForest(a, depth, opts) + RenderForest(b, depth, opts)
  {
    if a == [] {
      assert a + b == b;
    } else {
      assert (a + b)[1..] == a[1..] + b;
      RenderForestAppend(a[1..], b, depth, opts);
    }
  }

  // ----- Hidden entries -----

  /** The tree with every entry that is not shown removed together with its
      subtree, and with the never-listed children of plain files dropped. */
  function Prune(n: Node, opts: Options): (r: Node)
    ensures r.name == n.name && r.isDir == n.isDir && r.isHidden == n.isHidden
    ensures !n.isDir ==> r.children == []
    ensures |r.children| <= |n.children|
    ensures forall i :: 0 <= i < |r.children| ==> Shown(opts, r.children[i])
  {
    Node(n.name, n.isDir, n.isHidden, if n.isDir then PruneForest(n.children, opts) else [])
  }

  function PruneForest(ns: seq<Node>, opts: Options): (r: seq<Node>)
    ensures |r| <= |ns|
    ensures forall i :: 0 <= i < |r| ==> Shown(opts, r[i])
  {
    if ns == [] then []
    else (if Shown(opts, ns[0]) then [Prune(ns[0], opts)] else []) + PruneForest(ns[1..], opts)
  }

  /** Every entry of the tree is shown. */
  predicate AllShown(opts: Options, n: Node)
  {
    && Shown(opts, n)
    && forall i :: 0 <= i < |n.children| ==> AllShown(opts, n.children[i])
  }

  /** What remains after pruning holds no entry that is not shown. */
  lemma {:induction false} PruneLeavesOnlyShown(n: Node, opts: Options)
    requires Shown(opts, n)
    ensures AllShown(opts, Prune(n, opts))
  {
    if n.isDir {
      PruneForestLeavesOnlyShown(n.children, opts);
    }
  }

  lemma {:induction false} PruneForestLeavesOnlyShown(ns: seq<Node>, opts: Options)
    ensures forall i :: 0 <= i < |PruneForest(ns, opts)| ==> AllShown(opts, PruneForest(ns, opts)[i])
  {
    if ns != [] {
      if Shown(opts, ns[0]) {
        PruneLeavesOnlyShown(ns[0], opts);
      }
      PruneForestLeavesOnlyShown(ns[1..], opts);
    }
  }

  /** No line comes from an entry that is not shown or from anything below
      it: rendering the pruned tree gives exactly the same lines. */
  lemma {:induction false} RenderIgnoresPruned(n: Node, depth: nat, opts: Options)
    ensures RenderNode(n, depth, opts) == RenderNode(Prune(n, opts), depth, opts)
  {
    if Shown(opts, n) && n.isDir {
      RenderForestIgnoresPruned(n.children, depth + 1, opts);
    }
  }

  lemma {:induction false} RenderForestIgnoresPruned(ns: seq<Node>, depth: nat, opts: Options)
    ensures RenderForest(ns, depth, opts) == RenderForest(PruneForest(ns, opts), depth, opts)
  {
    if ns != [] {
      var head := if Shown(opts, ns[0]) then [Prune(ns[0], opts)] else [];
      RenderIgnoresPruned(ns[0], depth, opts);
      RenderForestIgnoresPruned(ns[1..], depth, opts);
      RenderForestAppend(head, PruneForest(ns[1..], opts), depth, opts);
      if head != [] {
        assert head[1..] == [];
      }
    }
  }

  // ----- Line counts -----

  /** One line per entry that survives pruning. */
  lemma {:induction false} RenderNodeCount(n: Node, depth: nat, opts: Options)
    ensures |RenderNode(n, depth, opts)| == if Shown(opts, n) then Size(Prune(n, opts)) else 0
  {
    if Shown(opts, n) && n.isDir {
      RenderForestCount(n.children, depth + 1, opts);
    }
  }

  lemma {:induction false} RenderForestCount(ns: seq<Node>, depth: nat, opts: Options)
    ensures |RenderForest(ns, depth, opts)| == SizeForest(PruneForest(ns, opts))
  {
    if ns != [] {
      var head := if Shown(opts, ns[0]) then [Prune(ns[0], opts)] else [];
      RenderNodeCount(ns[0], depth, opts);
      RenderForestCount(ns[1..], depth, opts);
      SizeForestAppend(head, PruneForest(ns[1..], opts));
      if head != [] {
        assert head[1..] == [];
      }
    }
  }

  /** With hidden entries shown nothing is pruned. */
  lemma {:induction false} ShowHiddenPrunesNothing(n: Node, opts: Options)
    requires opts.showHidden
    ensures Size(Prune(n, opts)) == Size(n)
  {
    if n.isDir {
      ShowHiddenPrunesNothingForest(n.children, opts);
    }
  }

  lemma {:induction false} ShowHiddenPrunesNothingForest(ns: seq<Node>, opts: Options)
    requires opts.showHidden
    ensures SizeForest(PruneForest(ns, opts)) == SizeForest(ns)
  {
    if ns != [] {
      ShowHiddenPrunesNothing(ns[0], opts);
      ShowHiddenPrunesNothingForest(ns[1..], opts);
      SizeForestAppend([Prune(ns[0], opts)], PruneForest(ns[1..], opts));
    }
  }

  /** With hidden entries shown, the printer prints one line for every
      entry reachable from the root, hidden ones included. */
  lemma RenderCountsEveryEntry(n: Node, opts: Options)
    requires opts.showHidden
    ensures |Render(Some(n), opts)| == Size(n)
  {
    RenderNodeCount(SortTree(n), 0, opts);
    ShowHiddenPrunesNothing(SortTree(n), opts);
    SortTreeSize(n);
  }

  // ----- The printer's recursion -----

  /** The lines of each entry's ordered subtree, one after another. */
  function RenderEach(ns: seq<Node>, depth: nat, opts: Options): seq<Line>
  {
    if ns == [] then [] else RenderNode(SortTree(ns[0]), depth, opts) + RenderEach(ns[1..], depth, opts)
  }

  lemma {:induction false} RenderForestOfOrdered(ns: seq<Node>, depth: nat, opts: Options)
    ensures RenderForest(seq(|ns|, i requires 0 <= i < |ns| => SortTree(ns[i])), depth, opts)
         == RenderEach(ns, depth, opts)
  {
    var ordered := seq(|ns|, i requires 0 <= i < |ns| => SortTree(ns[i]));
    if ns != [] {
      assert ordered[1..] == seq(|ns[1..]|, i requires 0 <= i < |ns[1..]| => SortTree(ns[1..][i]));
      RenderForestOfOrdered(ns[1..], depth, opts);
    }
  }

  /** The ordered tree renders as the printer recurses: the entry's own
      line, then, for a directory, the subtree of each entry of its sorted
      listing one level deeper. */
  lemma RenderUnfold(n: Node, depth: nat, opts: Options)
    requires Shown(opts, n)
    ensures RenderNode(SortTree(n), depth, opts)
         == [LineFor(n, depth, opts)]
            + (if n.isDir then RenderEach(SortEntries(n.children), depth + 1, opts) else [])
  {
    RenderForestOfOrdered(SortEntries(n.children), depth + 1, opts);
  }
}
