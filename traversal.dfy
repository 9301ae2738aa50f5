/**
 The order in which the loader visits mesh references when it walks the
 node tree: pre-order, a node's own references first, then each child's
 subtree from left to right. Beside the recursive definition stand two
 independent ones, a reference count and an explicit worklist traversal,
 and lemmas that tie them to it.
 */
module Traversal {
  import opened Assimp
  import opened Seqs

  /** All mesh references of the subtree rooted at `n`, in pre-order. */
  function PreorderRefs(n: Node): seq<UInt>
    decreases n
  {
    n.meshRefs + Forest(n.children)
  }

  /** The pre-order references of the subtrees `cs`, left to right. */
  function Forest(cs: seq<Node>): seq<UInt>
    decreases cs
  {
    if cs == [] then [] else Forest(cs[..|cs| - 1]) + PreorderRefs(cs[|cs| - 1])
  }

  /** The number of mesh references in the subtree rooted at `n`. */
  function RefCount(n: Node): nat
    decreases n
  {
    |n.meshRefs| + ForestRefCount(n.children)
  }

  function ForestRefCount(cs: seq<Node>): nat
    decreases cs
  {
    if cs == [] then 0 else RefCount(cs[0]) + ForestRefCount(cs[1..])
  }

  /** The number of nodes in the subtree rooted at `n`. */
  function Size(n: Node): nat
    decreases n
  {
    1 + ForestSize(n.children)
  }

  function ForestSize(cs: seq<Node>): nat
    decreases cs
  {
    if cs == [] then 0 else Size(cs[0]) + ForestSize(cs[1..])
  }

  lemma {:induction false} ForestSizeAppend(a: seq<Node>, b: seq<Node>)
    ensures ForestSize(a + b) == ForestSize(a) + ForestSize(b)
    decreases a
  {
    if a != [] {
      assert (a + b)[1..] == a[1..] + b;
      ForestSizeAppend(a[1..], b);
    } else {
      assert a + b == b;
    }
  }

  /**
   The traversal written with an explicit stack instead of recursion: the
   stack's top is its first element; popping a node emits its references and
   pushes its children so that the leftmost child is on top.
   */
  function Worklist(stack: seq<Node>): seq<UInt>
    decreases ForestSize(stack)
  {
    if stack == [] then []
    else
      PopSize(stack);
      stack[0].meshRefs + Worklist(stack[0].children + stack[1..])
  }

  /** One more subtree adds its references at the end. */
  lemma ForestSnoc(cs: seq<Node>, j: nat)
    requires j < |cs|
    ensures Forest(cs[..j + 1]) == Forest(cs[..j]) + PreorderRefs(cs[j])
  {
    assert cs[..j + 1][..j] == cs[..j];
  }

  /** The references of a forest split anywhere are those of its two parts. */
  lemma {:induction false} ForestAppend(a: seq<Node>, b: seq<Node>)
    ensures Forest(a + b) == Forest(a) + Forest(b)
    decreases |b|
  {
    if b == [] {
      assert a + b == a;
    } else {
      var ab := a + b;
      assert ab[..|ab| - 1] == a + b[..|b| - 1];
      assert ab[|ab| - 1] == b[|b| - 1];
      ForestAppend(a, b[..|b| - 1]);
    }
  }

  /**
   The pre-order rule spelled out around one child: the node's own
   references, then those of the children left of `j`, then child `j`'s
   subtree, then the children right of it.
   */
  lemma ChildSlice(n: Node, j: nat)
    requires j < |n.children|
    ensures PreorderRefs(n)
         == n.meshRefs + Forest(n.children[..j]) + PreorderRefs(n.children[j])
            + Forest(n.children[j + 1..])
  {
    var cs := n.children;
    var front, back := cs[..j + 1], cs[j + 1..];
    assert cs == front + back;
    ForestAppend(front, back);
    ForestSnoc(cs, j);
    AppendAssoc(Forest(cs[..j]), PreorderRefs(cs[j]), Forest(back));
    AppendAssoc(n.meshRefs, Forest(cs[..j]), PreorderRefs(cs[j]) + Forest(back));
    AppendAssoc(n.meshRefs + Forest(cs[..j]), PreorderRefs(cs[j]), Forest(back));
  }

  lemma {:induction false} ForestRefCountSnoc(cs: seq<Node>, c: Node)
    ensures ForestRefCount(cs + [c]) == ForestRefCount(cs) + RefCount(c)
    decreases cs
  {
    if cs == [] {
      assert cs + [c] == [c];
      assert [c][1..] == [];
    } else {
      assert (cs + [c])[1..] == cs[1..] + [c];
      ForestRefCountSnoc(cs[1..], c);
    }
  }

  /** The walk visits exactly as many references as the subtree holds. */
  lemma {:induction false} PreorderLength(n: Node)
    ensures |PreorderRefs(n)| == RefCount(n)
    decreases n, 1
  {
    ForestLength(n.children);
  }

  lemma {:induction false} ForestLength(cs: seq<Node>)
    ensures |Forest(cs)| == ForestRefCount(cs)
    decreases cs, 0
  {
    if cs != [] {
      var init, last := cs[..|cs| - 1], cs[|cs| - 1];
      ForestLength(init);
      PreorderLength(last);
      assert cs == init + [last];
      ForestRefCountSnoc(init, last);
    }
  }

  /** The references of a non-empty forest: its first tree's, then the rest's. */
  lemma ForestCons(cs: seq<Node>)
    requires cs != []
    ensures Forest(cs) == PreorderRefs(cs[0]) + Forest(cs[1..])
  {
    assert cs == [cs[0]] + cs[1..];
    ForestAppend([cs[0]], cs[1..]);
    assert [cs[0]][..0] == [];
  }

  /** Popping the top of a stack keeps the rest's size to decrease on. */
  lemma PopSize(stack: seq<Node>)
    requires stack != []
    ensures ForestSize(stack[0].children + stack[1..]) < ForestSize(stack)
  {
    ForestSizeAppend(stack[0].children, stack[1..]);
  }

  /** The worklist traversal of a stack visits the stack's subtrees in order. */
  lemma {:induction false} WorklistIsForest(stack: seq<Node>)
    ensures Worklist(stack) == Forest(stack)
    decreases ForestSize(stack)
  {
    if stack != [] {
      var top, rest := stack[0], stack[1..];
      PopSize(stack);
      WorklistIsForest(top.children + rest);
      ForestAppend(top.children, rest);
      ForestCons(stack);
      AppendAssoc(top.meshRefs, Forest(top.children), Forest(rest));
    }
  }

  /** The explicit-stack traversal from the root is the recursive pre-order. */
  lemma WorklistIsPreorder(root: Node)
    ensures Worklist([root]) == PreorderRefs(root)
  {
    WorklistIsForest([root]);
    assert [root][..0] == [];
  }
}
