/**
 The in-memory stand-in for the filesystem the printer walks.

 Each entry carries what the printer asks of a `java.io.File`: its base name,
 whether it is a directory, whether it is hidden, and the entries its
 listing returns. A directory whose listing fails is represented by an empty
 `children` sequence, because the printer treats a failed listing exactly
 like an empty one. The `children` of a plain file are never listed.
 */
module FileTree {

  datatype Option<T> = None | Some(value: T)

  datatype Node = Node(name: string, isDir: bool, isHidden: bool, children: seq<Node>)

  /** Number of entries reachable from `n` by listing directories, `n` included. */
  function Size(n: Node): nat
  {
    1 + (if n.isDir then SizeForest(n.children) else 0)
  }

  function SizeForest(ns: seq<Node>): nat
  {
    if ns == [] then 0 else Size(ns[0]) + SizeForest(ns[1..])
  }

  lemma {:induction false} SizeForestAppend(a: seq<Node>, b: seq<Node>)
    ensures SizeForest(a + b) == SizeForest(a) + SizeForest(b)
  {
    if a == [] {
      assert a + b == b;
    } else {
      assert (a + b)[1..] == a[1..] + b;
      SizeForestAppend(a[1..], b);
    }
  }

  /** No name in the tree contains the path separator, as for any real
      directory entry. */
  predicate SlashFree(n: Node)
  {
    && '/' !in n.name
    && forall i :: 0 <= i < |n.children| ==> SlashFree(n.children[i])
  }
}
