/**
 The printer exactly as its recursive helper is written.

 Three things differ from the documented behaviour that `Renderer` models:
 every line is printed in white even when colour is on, each directory's
 entries are visited in the order the listing returns them, and the colour
 index handed to children follows the recurrence "reset 2 to 0, then add 1",
 which gives 0, 1, 2, 1, 2, ... by depth instead of cycling through 0, 1, 2.
 The index is never used to choose a colour; `Emitted` records it beside each
 printed line so that its value can be stated.
 */
module AsWritten {
  import opened FileTree
  import opened Sorter
  import opened Renderer

  /** One printed line and the colour index the helper held when printing it. */
  datatype Emitted = Emitted(line: Line, index: nat)

  /** The index a child receives from a parent holding `color`: never 0,
      and alternating between 1 and 2 once below the root. */
  function ChildIndex(color: nat): (r: nat)
    ensures color <= 2 ==> 1 <= r <= 2
    ensures 1 <= color <= 2 ==> r == 3 - color
  {
    (if color == 2 then 0 else color) + 1
  }

  /** The helper on one entry at `level` holding colour index `color`. It
      prints what the uncoloured renderer prints for the entry taken in
      listing order: colour is ignored and nothing is sorted. */
  function Walk(n: Node, level: nat, color: nat, opts: Options): (r: seq<Emitted>)
    ensures Lines(r) == RenderNode(n, level, opts.(useColor := false))
    ensures r != [] ==> r[0].index == color
  {
    if !opts.showHidden && n.isHidden then []
    else
      // Both branches of the colour switch print the line in white.
      var own := [Emitted(Line(level, Indent(level) + Label(n), White), color)];
      var below := if n.isDir then WalkChildren(n.children, level + 1, color, opts) else [];
      LinesAppend(own, below);
      own + below
  }

  /** The loop over a listing, in listing order. The loop variable `color`
      is reset from 2 to 0 in place, and that reset persists for the later
      entries of the same listing. */
  function WalkChildren(cs: seq<Node>, level: nat, color: nat, opts: Options): (r: seq<Emitted>)
    ensures Lines(r) == RenderForest(cs, level, opts.(useColor := false))
  {
    if cs == [] then []
    else
      var c := if color == 2 then 0 else color;
      var first, rest := Walk(cs[0], level, c + 1, opts), WalkChildren(cs[1..], level, c, opts);
      LinesAppend(first, rest);
      first + rest
  }

  /** The printer as written: nothing for a missing root, otherwise the
      helper from level 0 holding index 0. Every printed line carries the
      index for its depth. */
  function PrintTreeAsWritten(root: Option<Node>, opts: Options): (r: seq<Emitted>)
    ensures r == [] <==> root.None? || !Shown(opts, root.value)
    ensures root.Some? ==> Lines(r) == RenderNode(root.value, 0, opts.(useColor := false))
    ensures forall e :: e in r ==> e.index == CodeIndexAtDepth(e.line.depth)
  {
    match root
    case None => []
    case Some(n) =>
      WalkIndexByDepth(n, 0, opts);
      Walk(n, 0, 0, opts)
  }

  function Lines(es: seq<Emitted>): (r: seq<Line>)
    ensures |r| == |es|
    ensures forall i :: 0 <= i < |es| ==> r[i] == es[i].line
  {
    if es == [] then [] else [es[0].line] + Lines(es[1..])
  }

  lemma LinesAppend(a: seq<Emitted>, b: seq<Emitted>)
    ensures Lines(a + b) == Lines(a) + Lines(b)
  {
  }

  /** The index the helper holds at `depth`, starting from 0 at the root. */
  function CodeIndexAtDepth(depth: nat): nat
  {
    if depth == 0 then 0 else ChildIndex(CodeIndexAtDepth(depth - 1))
  }

  /** Every line the helper prints carries the index for its depth, whatever
      the position among its siblings. */
  lemma {:induction false} WalkIndexByDepth(n: Node, level: nat, opts: Options)
    ensures forall e :: e in Walk(n, level, CodeIndexAtDepth(level), opts) ==> e.index == CodeIndexAtDepth(e.line.depth)
  {
    if Shown(opts, n) && n.isDir {
      WalkChildrenIndexByDepth(n.children, level + 1, CodeIndexAtDepth(level), opts);
    }
  }

  lemma {:induction false} WalkChildrenIndexByDepth(cs: seq<Node>, level: nat, color: nat, opts: Options)
    requires level > 0 && ChildIndex(color) == CodeIndexAtDepth(level)
    ensures forall e :: e in WalkChildren(cs, level, color, opts) ==> e.index == CodeIndexAtDepth(e.line.depth)
  {
    if cs != [] {
      var c := if color == 2 then 0 else color;
      WalkIndexByDepth(cs[0], level, opts);
      WalkChildrenIndexByDepth(cs[1..], level, c, opts);
    }
  }

  /** The helper's index alternates 1, 2 below the root. */
  lemma {:induction false} CodeIndexClosedForm(depth: nat)
    ensures CodeIndexAtDepth(depth) == if depth == 0 then 0 else if depth % 2 == 1 then 1 else 2
  {
    if depth > 0 {
      CodeIndexClosedForm(depth - 1);
    }
  }

  /** The helper's index agrees with the depth cycle only at depth 0 and at
      depths 1 and 2 modulo 6; depth 3 is the first disagreement. */
  lemma CodeIndexAgreesOnlyAt(depth: nat)
    ensures CodeIndexAtDepth(depth) == IndexAtDepth(depth)
        <==> depth == 0 || depth % 6 == 1 || depth % 6 == 2
  {
    var q := depth % 6;
    assert CodeIndexAtDepth(depth) == if depth == 0 then 0 else if q % 2 == 1 then 1 else 2 by {
      CodeIndexClosedForm(depth);
      ResiduesOfMod6(depth);
    }
    assert IndexAtDepth(depth) == q % 3 by {
      IndexAtDepthIsDepthMod3(depth);
      ResiduesOfMod6(depth);
    }
    AgreementByResidue(CodeIndexAtDepth(depth), IndexAtDepth(depth), depth == 0, q);
  }

  /** The agreement check on one residue modulo 6; `zero` marks the root. */
  lemma AgreementByResidue(code: nat, index: nat, zero: bool, q: int)
    requires 0 <= q < 6 && (zero ==> q == 0)
    requires code == if zero then 0 else if q % 2 == 1 then 1 else 2
    requires index == q % 3
    ensures code == index <==> zero || q == 1 || q == 2
  {
    if q == 0 {
    } else if q == 1 {
    } else if q == 2 {
    } else if q == 3 {
    } else if q == 4 {
    } else {
      assert q == 5;
    }
  }

  lemma {:induction false} ResiduesOfMod6(k: nat)
    ensures k % 2 == (k % 6) % 2 && k % 3 == (k % 6) % 3
  {
    if k >= 6 {
      ResiduesOfMod6(k - 6);
    }
  }
}
