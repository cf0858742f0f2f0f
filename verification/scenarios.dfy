/**
 Concrete trees on which the printer as written and the documented renderer
 part ways: the colour of a first-level line, and the order of a listing
 returned out of name order.
 */
module Scenarios {
  import opened FileTree
  import opened Names
  import opened Sorter
  import opened Renderer
  import opened AsWritten

  function File(name: string): Node
  {
    Node(name, false, false, [])
  }

  /** A directory whose entries are plain files already listed strictly in
      name order is its own ordered tree. */
  lemma OrderedLeavesAreSorted(n: Node)
    requires StrictlyAscending(n.children)
    requires forall i :: 0 <= i < |n.children| ==> n.children[i] == File(n.children[i].name)
    ensures SortTree(n) == n
  {
    SortEntriesIsStrictArrangement(n.children, n.children);
    var r := SortTree(n);
    forall i | 0 <= i < |n.children|
      ensures r.children[i] == n.children[i]
    {
      SortTreeFile(n.children[i].name);
    }
  }

  lemma SortTreeFile(name: string)
    ensures SortTree(File(name)) == File(name)
  {
    assert SortEntries([]) == [];
  }

  lemma Indents()
    ensures Indent(0) == "" && Indent(1) == "   " && Indent(2) == "      "
  {
  }

  /** A visible plain file renders as its one line. */
  lemma LeafLines(name: string, depth: nat, opts: Options)
    ensures RenderForest([File(name)], depth, opts) == [Line(depth, Indent(depth) + name, ColorAt(opts, depth))]
  {
    assert RenderForest([File(name)], depth, opts) == RenderNode(File(name), depth, opts) + RenderForest([], depth, opts);
  }

  lemma TwoLeavesLines(a: string, b: string, depth: nat, opts: Options)
    ensures RenderForest([File(a), File(b)], depth, opts)
         == [Line(depth, Indent(depth) + a, ColorAt(opts, depth)), Line(depth, Indent(depth) + b, ColorAt(opts, depth))]
  {
    assert RenderForest([File(a), File(b)], depth, opts)
        == RenderNode(File(a), depth, opts) + RenderForest([File(b)], depth, opts);
    LeafLines(b, depth, opts);
  }

  /** A visible directory renders as its own line over its listing's lines. */
  lemma DirLines(name: string, cs: seq<Node>, depth: nat, opts: Options)
    ensures RenderNode(Node(name, true, false, cs), depth, opts)
         == [Line(depth, Indent(depth) + (name + "/"), ColorAt(opts, depth))] + RenderForest(cs, depth + 1, opts)
  {
  }

  /** With colour on, the printer as written prints a first-level entry in
      white where the depth cycle gives purple. */
  lemma CodeWhiteWhereDepthGivesPurple()
    ensures var t := Node("myFolder", true, false, [File("Apple.txt")]);
      var opts := Options(false, true);
      && Lines(PrintTreeAsWritten(Some(t), opts))
         == [Line(0, "myFolder/", White), Line(1, "   Apple.txt", White)]
      && Render(Some(t), opts)
         == [Line(0, "myFolder/", White), Line(1, "   Apple.txt", Purple)]
  {
    var t := Node("myFolder", true, false, [File("Apple.txt")]);
    var opts := Options(false, true);
    assert "myFolder" + "/" == "myFolder/";
    assert "   " + "Apple.txt" == "   Apple.txt";
    OneFileAsWritten("myFolder", "Apple.txt", opts);
    OrderedLeavesAreSorted(t);
    OneFileRendered("myFolder", "Apple.txt", opts);
  }

  lemma OneFileAsWritten(d: string, a: string, opts: Options)
    ensures Lines(PrintTreeAsWritten(Some(Node(d, true, false, [File(a)])), opts))
         == [Line(0, d + "/", White), Line(1, "   " + a, White)]
  {
    var plain := opts.(useColor := false);
    Indents();
    assert "" + (d + "/") == d + "/";
    DirLines(d, [File(a)], 0, plain);
    LeafLines(a, 1, plain);
  }

  lemma OneFileRendered(d: string, a: string, opts: Options)
    requires opts.useColor
    ensures RenderNode(Node(d, true, false, [File(a)]), 0, opts)
         == [Line(0, d + "/", White), Line(1, "   " + a, Purple)]
  {
    Indents();
    assert "" + (d + "/") == d + "/";
    DirLines(d, [File(a)], 0, opts);
    LeafLines(a, 1, opts);
    assert ColorAt(opts, 0) == White && ColorAt(opts, 1) == Purple;
  }

  /** A listing returned out of name order is printed in that order by the
      printer as written, and in name order by the renderer. */
  lemma ListingOrderVersusNameOrder()
    ensures var t := Node("d", true, false, [File("zebra.txt"), File("Apple.txt")]);
      var opts := Options(false, false);
      && Lines(PrintTreeAsWritten(Some(t), opts))
         == [Line(0, "d/", White), Line(1, "   zebra.txt", White), Line(1, "   Apple.txt", White)]
      && Render(Some(t), opts)
         == [Line(0, "d/", White), Line(1, "   Apple.txt", White), Line(1, "   zebra.txt", White)]
  {
    var opts := Options(false, false);
    assert "d" + "/" == "d/";
    assert "   " + "Apple.txt" == "   Apple.txt";
    assert "   " + "zebra.txt" == "   zebra.txt";
    TwoFilesAsWritten("d", "zebra.txt", "Apple.txt", opts);
    SortsTwoFiles("d");
    TwoFilesRendered("d", "Apple.txt", "zebra.txt", opts);
  }

  lemma TwoFilesAsWritten(d: string, a: string, b: string, opts: Options)
    requires !opts.useColor
    ensures Lines(PrintTreeAsWritten(Some(Node(d, true, false, [File(a), File(b)])), opts))
         == [Line(0, d + "/", White), Line(1, "   " + a, White), Line(1, "   " + b, White)]
  {
    Indents();
    assert "" + (d + "/") == d + "/";
    assert opts.(useColor := false) == opts;
    DirLines(d, [File(a), File(b)], 0, opts);
    TwoLeavesLines(a, b, 1, opts);
  }

  lemma TwoFilesRendered(d: string, a: string, b: string, opts: Options)
    requires !opts.useColor
    ensures RenderNode(Node(d, true, false, [File(a), File(b)]), 0, opts)
         == [Line(0, d + "/", White), Line(1, "   " + a, White), Line(1, "   " + b, White)]
  {
    Indents();
    assert "" + (d + "/") == d + "/";
    DirLines(d, [File(a), File(b)], 0, opts);
    TwoLeavesLines(a, b, 1, opts);
  }

  lemma AppleBeforeZebra()
    ensures NameCompare("Apple.txt", "zebra.txt") < 0
  {
    assert Lower("Apple.txt")[0] == 'a' && Lower("zebra.txt")[0] == 'z';
  }

  lemma SortsTwoFiles(d: string)
    ensures SortTree(Node(d, true, false, [File("zebra.txt"), File("Apple.txt")]))
         == Node(d, true, false, [File("Apple.txt"), File("zebra.txt")])
  {
    var zebra, apple := File("zebra.txt"), File("Apple.txt");
    AppleBeforeZebra();
    assert StrictlyAscending([apple, zebra]);
    assert multiset([apple, zebra]) == multiset([zebra, apple]);
    OrderedLeavesAreSorted(Node(d, true, false, [apple, zebra]));
    SortEntriesIsStrictArrangement([zebra, apple], [apple, zebra]);
  }

  /** Three levels down the printer as written holds index 1 where the depth
      cycle is back at 0. */
  lemma CodeIndexAtDepth3()
    ensures CodeIndexAtDepth(3) == 1 && IndexAtDepth(3) == 0
  {
  }
}
