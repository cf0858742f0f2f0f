/**
 The printer as a loop over an explicit stack of pending entries instead of
 recursion, printing the same lines in the same order. The tree is ordered
 first; each popped directory then pushes its (already sorted) listing.
 */
module StackPrinter {
  import opened FileTree
  import opened Sorter
  import opened Renderer

  /** An entry still to be printed, with its depth. */
  datatype Frame = Frame(node: Node, depth: nat)

  /** Everything the frames of `stack` still have to print, top first. */
  function Pending(stack: seq<Frame>, opts: Options): seq<Line>
  {
    if stack == [] then []
    else RenderNode(stack[0].node, stack[0].depth, opts) + Pending(stack[1..], opts)
  }

  function Frames(ns: seq<Node>, depth: nat): seq<Frame>
  {
    seq(|ns|, i requires 0 <= i < |ns| => Frame(ns[i], depth))
  }

  /** The frames a popped entry pushes: its listing, one level deeper. */
  function Below(f: Frame): seq<Frame>
  {
    if f.node.isDir then Frames(f.node.children, f.depth + 1) else []
  }

  lemma {:induction false} PendingFrames(ns: seq<Node>, depth: nat, rest: seq<Frame>, opts: Options)
    ensures Pending(Frames(ns, depth) + rest, opts) == RenderForest(ns, depth, opts) + Pending(rest, opts)
  {
    if ns == [] {
      assert Frames(ns, depth) + rest == rest;
    } else {
      assert (Frames(ns, depth) + rest)[1..] == Frames(ns[1..], depth) + rest;
      PendingFrames(ns[1..], depth, rest, opts);
    }
  }

  lemma PendingCons(f: Frame, rest: seq<Frame>, opts: Options)
    ensures Pending([f] + rest, opts) == RenderNode(f.node, f.depth, opts) + Pending(rest, opts)
  {
    assert ([f] + rest)[1..] == rest;
  }

  /** Regrouping a concatenation. Called where the sequence axioms would
      otherwise meet the unfolded definition of `Pending`. */
  lemma ConcatAssociative<T>(a: seq<T>, b: seq<T>, c: seq<T>)
    ensures (a + b) + c == a + (b + c)
  {
  }

  /** What the frames a popped directory pushes still have to print: its
      listing one level deeper. */
  lemma PendingBelowDir(f: Frame, rest: seq<Frame>, opts: Options)
    requires f.node.isDir
    ensures Pending(Below(f) + rest, opts) == RenderForest(f.node.children, f.depth + 1, opts) + Pending(rest, opts)
  {
    assert Below(f) == Frames(f.node.children, f.depth + 1);
    PendingFrames(f.node.children, f.depth + 1, rest, opts);
  }

  /** Popping a shown entry prints its own line and leaves its listing on
      top of the stack. */
  lemma PopShown(f: Frame, rest: seq<Frame>, opts: Options)
    requires Shown(opts, f.node)
    ensures Pending([f] + rest, opts) == [LineFor(f.node, f.depth, opts)] + Pending(Below(f) + rest, opts)
  {
    var line := LineFor(f.node, f.depth, opts);
    var others := if f.node.isDir then RenderForest(f.node.children, f.depth + 1, opts) else [];
    assert Pending(Below(f) + rest, opts) == others + Pending(rest, opts) by {
      if f.node.isDir {
        PendingBelowDir(f, rest, opts);
      } else {
        assert Below(f) + rest == rest;
      }
    }
    PendingCons(f, rest, opts);
    assert RenderNode(f.node, f.depth, opts) == [line] + others;
    ConcatAssociative([line], others, Pending(rest, opts));
  }

  /** Popping an entry that is not shown prints nothing and pushes nothing. */
  lemma PopHidden(f: Frame, rest: seq<Frame>, opts: Options)
    requires !Shown(opts, f.node)
    ensures Pending([f] + rest, opts) == Pending(rest, opts)
  {
    PendingCons(f, rest, opts);
  }

  /** One step of the loop: pop the top frame; a shown entry prints its
      line and pushes its listing. What is printed plus what is pending is
      unchanged, and either less is pending or the stack is shorter. */
  method Pop(stack: seq<Frame>, opts: Options) returns (printed: seq<Line>, next: seq<Frame>)
    requires stack != []
    ensures printed + Pending(next, opts) == Pending(stack, opts)
    ensures |Pending(next, opts)| < |Pending(stack, opts)|
         || (|Pending(next, opts)| == |Pending(stack, opts)| && |next| < |stack|)
  {
    var f, rest := stack[0], stack[1..];
    assert stack == [f] + rest;
    if Shown(opts, f.node) {
      PopShown(f, rest, opts);
      printed, next := [LineFor(f.node, f.depth, opts)], Below(f) + rest;
    } else {
      PopHidden(f, rest, opts);
      printed, next := [], rest;
    }
  }

  /** Prints the tree: pop an entry; if it is shown, print its line and push
      its listing so that the first entry is popped next. */
  method PrintTree(root: Option<Node>, opts: Options) returns (out: seq<Line>)
    ensures out == Render(root, opts)
  {
    out := [];
    var stack: seq<Frame> := [];
    if root.Some? {
      stack := [Frame(SortTree(root.value), 0)];
      PendingCons(stack[0], [], opts);
      assert RenderNode(SortTree(root.value), 0, opts) + [] == Render(root, opts);
    }
    while stack != []
      invariant out + Pending(stack, opts) == Render(root, opts)
      decreases |Pending(stack, opts)|, |stack|
    {
      var printed, next := Pop(stack, opts);
      ConcatAssociative(out, printed, Pending(next, opts));
      out, stack := out + printed, next;
    }
  }
}
