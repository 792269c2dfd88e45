/**
 * Sequences over a PSI tree linked by parent, firstChild, lastChild,
 * nextSibling and prevSibling: ancestors, descendants, children, siblings,
 * the preorder tree walk driven by an explicit stack, and element-type filters.
 *
 * The tree is an arena: node `i` is `tree[i]` and a link is a node index or
 * -1 for null. Nodes are numbered so that parents and previous siblings come
 * before a node and children and next siblings after it.
 */
module PsiTree {
  /** One PSI element: its element type, its links, and whether it is a `PsiDirectory`. */
  datatype Node = Node(
    elementType: nat,
    parent: int,
    firstChild: int,
    lastChild: int,
    nextSibling: int,
    prevSibling: int,
    isDirectory: bool)

  type Tree = seq<Node>

  const Null: int := -1

  predicate IsNode(t: Tree, i: int) { 0 <= i < |t| }

  /** Links point forwards to children and next siblings and backwards to parents and previous siblings. */
  predicate Ordered(t: Tree) {
    forall i :: 0 <= i < |t| ==>
      (t[i].parent == Null || 0 <= t[i].parent < i) &&
      (t[i].prevSibling == Null || 0 <= t[i].prevSibling < i) &&
      (t[i].firstChild == Null || i < t[i].firstChild < |t|) &&
      (t[i].lastChild == Null || i < t[i].lastChild < |t|) &&
      (t[i].nextSibling == Null || i < t[i].nextSibling < |t|)
  }

  /**
   * The links agree with one another: siblings are doubly linked and share a
   * parent, and a parent's first and last children are its children without a
   * previous, respectively next, sibling.
   */
  predicate Linked(t: Tree)
    requires Ordered(t)
  {
    (forall i :: 0 <= i < |t| && t[i].nextSibling != Null ==>
      t[t[i].nextSibling].prevSibling == i && t[t[i].nextSibling].parent == t[i].parent) &&
    (forall i :: 0 <= i < |t| && t[i].firstChild != Null ==>
      t[t[i].firstChild].parent == i && t[t[i].firstChild].prevSibling == Null) &&
    (forall i :: 0 <= i < |t| && t[i].prevSibling != Null ==>
      t[t[i].prevSibling].nextSibling == i) &&
    (forall i :: 0 <= i < |t| && t[i].lastChild != Null ==>
      t[t[i].lastChild].parent == i && t[t[i].lastChild].nextSibling == Null) &&
    (forall i :: 0 <= i < |t| && t[i].parent != Null && t[i].prevSibling == Null ==>
      t[t[i].parent].firstChild == i) &&
    (forall i :: 0 <= i < |t| && t[i].parent != Null && t[i].nextSibling == Null ==>
      t[t[i].parent].lastChild == i)
  }

  /** `current?.parent is PsiDirectory` */
  predicate ParentIsDirectory(t: Tree, i: nat)
    requires Ordered(t) && i < |t|
  {
    t[i].parent != Null && t[t[i].parent].isDirectory
  }

  // ---------------------------------------------------------------------------
  // Following one link at a time (PsiElementIterator)

  /** The link a chain follows; `ReverseWalk` is the step of the reversed `walkTree`. */
  datatype Step = ToParent | ToFirstChild | ToNextSibling | ToPrevSibling | ReverseWalk

  predicate Forwards(step: Step) { step == ToFirstChild || step == ToNextSibling }

  /** Where one step leads from node `i`, or -1. */
  function Follow(t: Tree, i: nat, step: Step): (r: int)
    requires Ordered(t) && i < |t|
    ensures r == Null || IsNode(t, r)
    ensures r != Null ==> (if Forwards(step) then i < r else r < i)
  {
    match step
    case ToParent => t[i].parent
    case ToFirstChild => t[i].firstChild
    case ToNextSibling => t[i].nextSibling
    case ToPrevSibling => t[i].prevSibling
    case ReverseWalk =>
      var left := if ParentIsDirectory(t, i) then Null else t[i].prevSibling;
      if left != Null then left else t[i].parent
  }

  function Measure(t: Tree, i: int, step: Step): nat
    requires i == Null || IsNode(t, i)
  {
    if i == Null then 0 else if Forwards(step) then |t| - i else i + 1
  }

  /** The nodes a `PsiElementIterator` yields: `start`, then each node one step on, until null. */
  function Chain(t: Tree, start: int, step: Step): (r: seq<nat>)
    requires Ordered(t) && (start == Null || IsNode(t, start))
    ensures forall k :: 0 <= k < |r| ==> r[k] < |t|
    ensures start == Null <==> r == []
    decreases Measure(t, start, step)
  {
    if start == Null then [] else [start as nat] + Chain(t, Follow(t, start, step), step)
  }

  /** Consecutive nodes of a chain are one step apart, and the last one has nowhere to go. */
  lemma {:induction false} ChainSteps(t: Tree, start: int, step: Step, k: nat)
    requires Ordered(t) && (start == Null || IsNode(t, start))
    requires k < |Chain(t, start, step)|
    ensures var c := Chain(t, start, step);
      if k + 1 < |c| then c[k + 1] == Follow(t, c[k], step) else Follow(t, c[k], step) == Null
    decreases Measure(t, start, step)
  {
    if k > 0 {
      ChainSteps(t, Follow(t, start, step), step, k - 1);
    }
  }

  /** A chain strictly increases (child and sibling steps) or strictly decreases (the others), so it never repeats a node. */
  lemma {:induction false} ChainMonotone(t: Tree, start: int, step: Step, j: nat, k: nat)
    requires Ordered(t) && (start == Null || IsNode(t, start))
    requires j < k < |Chain(t, start, step)|
    ensures var c := Chain(t, start, step); if Forwards(step) then c[j] < c[k] else c[j] > c[k]
    decreases Measure(t, start, step)
  {
    var c := Chain(t, start, step);
    if j > 0 {
      ChainMonotone(t, Follow(t, start, step), step, j - 1, k - 1);
    } else if k > 1 {
      ChainMonotone(t, Follow(t, start, step), step, 0, k - 1);
      ChainSteps(t, start, step, 0);
    } else {
      ChainSteps(t, start, step, 0);
    }
  }

  /** A `PsiElementIterator`: the current node, and the link it follows. */
  class ChainIterator {
    const tree: Tree
    const step: Step
    var node: int

    ghost predicate Valid()
      reads this
    {
      Ordered(tree) && (node == Null || IsNode(tree, node))
    }

    /** The nodes still to come. */
    ghost function Rest(): seq<nat>
      reads this
      requires Valid()
    {
      Chain(tree, node, step)
    }

    constructor (t: Tree, start: int, s: Step)
      requires Ordered(t) && (start == Null || IsNode(t, start))
      ensures Valid() && tree == t && step == s && node == start
      ensures Rest() == Chain(t, start, s)
    {
      tree, step, node := t, s, start;
    }

    function HasNext(): bool
      reads this
    {
      node != Null
    }

    /** `next`: returns the current node and moves one step on. */
    method Next() returns (ret: nat)
      requires Valid() && HasNext()
      modifies this
      ensures Valid()
      ensures [ret] + Rest() == old(Rest())
      ensures ret == old(node) && node == Follow(tree, ret, step)
    {
      ret := node as nat;
      node := Follow(tree, ret, step);
    }
  }

  /** Drains a `PsiElementIterator` into a list. */
  method CollectChain(t: Tree, start: int, step: Step) returns (r: seq<nat>)
    requires Ordered(t) && (start == Null || IsNode(t, start))
    ensures r == Chain(t, start, step)
  {
    var it := new ChainIterator(t, start, step);
    r := [];
    while it.HasNext()
      invariant it.Valid() && it.tree == t && it.step == step
      invariant r + it.Rest() == Chain(t, start, step)
      decreases Measure(t, it.node, step)
    {
      var x := it.Next();
      r := r + [x];
    }
  }

  // ---------------------------------------------------------------------------
  // The sequences of PsiElement.kt

  /** `ancestors()`: the parent chain, without the node itself. */
  function Ancestors(t: Tree, i: nat): seq<nat>
    requires Ordered(t) && i < |t|
  {
    Chain(t, t[i].parent, ToParent)
  }

  /** `ancestorsAndSelf()`: the parent chain from the node itself. */
  function AncestorsAndSelf(t: Tree, i: nat): seq<nat>
    requires Ordered(t) && i < |t|
  {
    Chain(t, i, ToParent)
  }

  /** The two ancestor sequences differ exactly by the node itself, and every ancestor precedes the node. */
  lemma AncestorsAndSelfAddsSelf(t: Tree, i: nat)
    requires Ordered(t) && i < |t|
    ensures AncestorsAndSelf(t, i) == [i] + Ancestors(t, i)
    ensures forall k :: 0 <= k < |Ancestors(t, i)| ==> Ancestors(t, i)[k] < i
  {
    var a := AncestorsAndSelf(t, i);
    forall k | 0 <= k < |Ancestors(t, i)| ensures Ancestors(t, i)[k] < i {
      ChainMonotone(t, i, ToParent, 0, k + 1);
    }
  }

  /** `descendants()`: the first-child chain only (not all descendants). */
  function Descendants(t: Tree, i: nat): seq<nat>
    requires Ordered(t) && i < |t|
  {
    Chain(t, t[i].firstChild, ToFirstChild)
  }

  /** Each node of `descendants()` is the first child of the one before it, starting from the node's first child. */
  lemma DescendantsAreFirstChildren(t: Tree, i: nat, k: nat)
    requires Ordered(t) && i < |t|
    requires k < |Descendants(t, i)|
    ensures Descendants(t, i)[k] == if k == 0 then t[i].firstChild else t[Descendants(t, i)[k - 1]].firstChild
  {
    if k > 0 {
      ChainSteps(t, t[i].firstChild, ToFirstChild, k - 1);
    }
  }

  /** `children()`: the firstChild / nextSibling chain. */
  function Children(t: Tree, i: nat): seq<nat>
    requires Ordered(t) && i < |t|
  {
    Chain(t, t[i].firstChild, ToNextSibling)
  }

  /** `children().reversed()`: the lastChild / prevSibling chain. */
  function ChildrenReversed(t: Tree, i: nat): seq<nat>
    requires Ordered(t) && i < |t|
  {
    Chain(t, t[i].lastChild, ToPrevSibling)
  }

  /** `siblings()`: the nextSibling chain, without the node itself. */
  function Siblings(t: Tree, i: nat): seq<nat>
    requires Ordered(t) && i < |t|
  {
    Chain(t, t[i].nextSibling, ToNextSibling)
  }

  /** `siblings().reversed()`: the prevSibling chain, without the node itself. */
  function SiblingsReversed(t: Tree, i: nat): seq<nat>
    requires Ordered(t) && i < |t|
  {
    Chain(t, t[i].prevSibling, ToPrevSibling)
  }

  function Reverse(s: seq<nat>): (r: seq<nat>)
    ensures |r| == |s|
    ensures forall k :: 0 <= k < |s| ==> r[k] == s[|s| - 1 - k]
  {
    if |s| == 0 then [] else Reverse(s[1..]) + [s[0]]
  }

  /**
   * Walking back from the k-th node of a sibling list that starts at a node
   * with no previous sibling retraces the list up to it.
   */
  lemma {:induction false} PrevChainRetraces(t: Tree, first: nat, k: nat)
    requires Ordered(t) && Linked(t) && first < |t| && t[first].prevSibling == Null
    requires k < |Chain(t, first, ToNextSibling)|
    ensures var c := Chain(t, first, ToNextSibling);
      Chain(t, c[k], ToPrevSibling) == Reverse(c[..k + 1])
  {
    var c := Chain(t, first, ToNextSibling);
    if k == 0 {
      assert c[0] == first;
      assert Chain(t, first, ToPrevSibling) == [first] + Chain(t, Null, ToPrevSibling);
      assert c[..1] == [first];
    } else {
      PrevChainRetraces(t, first, k - 1);
      ChainSteps(t, first, ToNextSibling, k - 1);
      assert t[c[k]].prevSibling == c[k - 1];
      assert c[..k + 1] == c[..k] + [c[k]];
      assert c[..k + 1][1..] == c[1..k + 1];
      assert Reverse(c[..k + 1]) == [c[k]] + Reverse(c[..k]) by {
        ReverseAppend(c[..k], c[k]);
      }
    }
  }

  lemma ReverseAppend(s: seq<nat>, x: nat)
    ensures Reverse(s + [x]) == [x] + Reverse(s)
  {
    var r := Reverse(s + [x]);
    assert r[0] == x;
    assert forall k :: 0 < k <= |s| ==> r[k] == Reverse(s)[k - 1];
  }

  /** Every node of a child list has that parent, the first has no previous sibling and the last no next one. */
  lemma {:induction false} SiblingsShareParent(t: Tree, start: nat, k: nat)
    requires Ordered(t) && Linked(t) && start < |t|
    requires k < |Chain(t, start, ToNextSibling)|
    ensures t[Chain(t, start, ToNextSibling)[k]].parent == t[start].parent
  {
    if k > 0 {
      SiblingsShareParent(t, start, k - 1);
      ChainSteps(t, start, ToNextSibling, k - 1);
    }
  }

  /** `children().reversed()` yields exactly the children in reverse order. */
  lemma ChildrenReversedIsReverse(t: Tree, i: nat)
    requires Ordered(t) && Linked(t) && i < |t|
    ensures ChildrenReversed(t, i) == Reverse(Children(t, i))
  {
    var fc := t[i].firstChild;
    if fc == Null {
      if t[i].lastChild != Null {
        // A last child has a chain of previous siblings whose head is a first child.
        LastChildHasFirst(t, i);
      }
    } else {
      var c := Children(t, i);
      var n := |c| - 1;
      PrevChainRetraces(t, fc, n);
      ChainSteps(t, fc, ToNextSibling, n);
      SiblingsShareParent(t, fc, n);
      assert c[..n + 1] == c;
    }
  }

  /** A node with a last child has a first child. */
  lemma LastChildHasFirst(t: Tree, i: nat)
    requires Ordered(t) && Linked(t) && i < |t| && t[i].lastChild != Null
    ensures t[i].firstChild != Null
  {
    // Walk back from the last child to a child with no previous sibling.
    var c := Chain(t, t[i].lastChild, ToPrevSibling);
    PrevSiblingsShareParent(t, t[i].lastChild, |c| - 1);
    ChainSteps(t, t[i].lastChild, ToPrevSibling, |c| - 1);
  }

  lemma {:induction false} PrevSiblingsShareParent(t: Tree, start: nat, k: nat)
    requires Ordered(t) && Linked(t) && start < |t|
    requires k < |Chain(t, start, ToPrevSibling)|
    ensures t[Chain(t, start, ToPrevSibling)[k]].parent == t[start].parent
  {
    if k > 0 {
      PrevSiblingsShareParent(t, start, k - 1);
      ChainSteps(t, start, ToPrevSibling, k - 1);
      var c := Chain(t, start, ToPrevSibling);
      assert t[c[k]].nextSibling == c[k - 1];
    }
  }

  // ---------------------------------------------------------------------------
  // The preorder walk (walkTree, PsiElementTreeIterator)

  /**
   * `walkTree()`: the node, then the walk from its first child, then (unless
   * its parent is a directory) the walk from its next sibling.
   */
  function Walk(t: Tree, i: int): (r: seq<nat>)
    requires Ordered(t) && (i == Null || IsNode(t, i))
    ensures forall k :: 0 <= k < |r| ==> i <= r[k] < |t|
    ensures i != Null ==> |r| > 0 && r[0] == i
    decreases if i == Null then 0 else |t| - i
  {
    if i == Null then []
    else
      [i as nat] + Walk(t, t[i].firstChild)
      + (if ParentIsDirectory(t, i) then [] else Walk(t, t[i].nextSibling))
  }

  /** The walks of the nodes on a stack, top first: what the iterator has still to yield. */
  function Pending(t: Tree, stack: seq<nat>): seq<nat>
    requires Ordered(t) && forall k :: 0 <= k < |stack| ==> stack[k] < |t|
  {
    if |stack| == 0 then [] else Walk(t, stack[|stack| - 1]) + Pending(t, stack[..|stack| - 1])
  }

  /** Pushing a node puts its walk in front of what was pending. */
  lemma PendingPush(t: Tree, stack: seq<nat>, x: nat)
    requires Ordered(t) && x < |t| && forall k :: 0 <= k < |stack| ==> stack[k] < |t|
    ensures Pending(t, stack + [x]) == Walk(t, x) + Pending(t, stack)
  {
    assert (stack + [x])[..|stack|] == stack;
  }

  /** A `PsiElementTreeIterator`: an explicit stack of subtrees still to visit. */
  class TreeIterator {
    const tree: Tree
    var stack: seq<nat>

    ghost predicate Valid()
      reads this
    {
      Ordered(tree) && forall k :: 0 <= k < |stack| ==> stack[k] < |tree|
    }

    /** The nodes still to come. */
    ghost function Rest(): seq<nat>
      reads this
      requires Valid()
    {
      Pending(tree, stack)
    }

    constructor (t: Tree, node: nat)
      requires Ordered(t) && node < |t|
      ensures Valid() && tree == t && Rest() == Walk(t, node)
    {
      tree, stack := t, [node];
      PendingPush(t, [], node);
      assert [] + [node] == [node];
    }

    function HasNext(): bool
      reads this
    {
      |stack| != 0
    }

    /** Nothing is pending once the stack is empty. */
    lemma Drained()
      requires Valid() && !HasNext()
      ensures Rest() == []
    {
    }

    /** `next`: pop a node, push its next sibling (unless its parent is a directory), then its first child. */
    method Next() returns (current: nat)
      requires Valid() && HasNext()
      modifies this
      ensures Valid()
      ensures [current] + Rest() == old(Rest())
    {
      current := stack[|stack| - 1];
      var below := stack[..|stack| - 1];
      stack := below;
      if !ParentIsDirectory(tree, current) {
        var right := tree[current].nextSibling;
        if right != Null {
          stack := stack + [right];
        }
      }
      var left := tree[current].firstChild;
      if left != Null {
        stack := stack + [left];
      }
      assert old(stack) == below + [current];
      assert stack == below + PushedRight(tree, current) + PushedLeft(tree, current);
      PopAndPush(tree, below, current);
    }
  }

  /** What the iterator pushes for its next sibling: nothing if the parent is a directory or there is none. */
  function PushedRight(t: Tree, cur: nat): (r: seq<nat>)
    requires Ordered(t) && cur < |t|
    ensures forall k :: 0 <= k < |r| ==> r[k] < |t|
  {
    if !ParentIsDirectory(t, cur) && t[cur].nextSibling != Null then [t[cur].nextSibling as nat] else []
  }

  /** What the iterator pushes for its first child. */
  function PushedLeft(t: Tree, cur: nat): (r: seq<nat>)
    requires Ordered(t) && cur < |t|
    ensures forall k :: 0 <= k < |r| ==> r[k] < |t|
  {
    if t[cur].firstChild != Null then [t[cur].firstChild as nat] else []
  }

  lemma PushRightPending(t: Tree, below: seq<nat>, cur: nat)
    requires Ordered(t) && cur < |t| && forall k :: 0 <= k < |below| ==> below[k] < |t|
    ensures Pending(t, below + PushedRight(t, cur)) ==
      (if ParentIsDirectory(t, cur) then [] else Walk(t, t[cur].nextSibling)) + Pending(t, below)
  {
    if PushedRight(t, cur) != [] {
      PendingPush(t, below, t[cur].nextSibling);
    } else {
      assert below + PushedRight(t, cur) == below;
    }
  }

  lemma PushLeftPending(t: Tree, below: seq<nat>, cur: nat)
    requires Ordered(t) && cur < |t| && forall k :: 0 <= k < |below| ==> below[k] < |t|
    ensures Pending(t, below + PushedLeft(t, cur)) == Walk(t, t[cur].firstChild) + Pending(t, below)
  {
    if PushedLeft(t, cur) != [] {
      PendingPush(t, below, t[cur].firstChild);
    } else {
      assert below + PushedLeft(t, cur) == below;
    }
  }

  /** One step of the tree iterator keeps what is pending, less the node it yields. */
  lemma PopAndPush(t: Tree, below: seq<nat>, cur: nat)
    requires Ordered(t) && cur < |t| && forall k :: 0 <= k < |below| ==> below[k] < |t|
    ensures [cur] + Pending(t, below + PushedRight(t, cur) + PushedLeft(t, cur)) == Pending(t, below + [cur])
  {
    PendingPush(t, below, cur);
    var wr := if ParentIsDirectory(t, cur) then [] else Walk(t, t[cur].nextSibling);
    assert Walk(t, cur) == [cur] + Walk(t, t[cur].firstChild) + wr;
    var p := Pending(t, below);
    var mid := below + PushedRight(t, cur);
    PushRightPending(t, below, cur);
    assert Pending(t, mid) == wr + p;
    PushLeftPending(t, mid, cur);
    assert Pending(t, mid + PushedLeft(t, cur)) == Walk(t, t[cur].firstChild) + (wr + p);
    Associative([cur], Walk(t, t[cur].firstChild), wr, p);
  }

  lemma Associative(a: seq<nat>, b: seq<nat>, c: seq<nat>, d: seq<nat>)
    ensures a + (b + (c + d)) == ((a + b) + c) + d
  {
  }

  /** Drains the tree iterator: the nodes of `walkTree()` in the order the stack yields them. */
  method WalkTree(t: Tree, node: nat) returns (r: seq<nat>)
    requires Ordered(t) && node < |t|
    ensures r == Walk(t, node)
  {
    hide Pending, Walk;
    var it := new TreeIterator(t, node);
    r := [];
    while it.HasNext()
      invariant it.Valid() && it.tree == t
      invariant r + it.Rest() == Walk(t, node)
      decreases |it.Rest()|
    {
      var x := it.Next();
      r := r + [x];
    }
    it.Drained();
  }

  /**
   * `walkTree()` from a node whose parent is not a directory yields the node
   * and all its following siblings.
   */
  lemma {:induction false} WalkVisitsSiblings(t: Tree, i: nat)
    requires Ordered(t) && Linked(t) && i < |t| && !ParentIsDirectory(t, i)
    ensures forall x :: x in Chain(t, i, ToNextSibling) ==> x in Walk(t, i)
    decreases |t| - i
  {
    var ns := t[i].nextSibling;
    if ns != Null {
      WalkVisitsSiblings(t, ns);
    }
  }

  /** `walkTree()` from a node that is not a directory yields each of its children. */
  lemma WalkVisitsChildren(t: Tree, i: nat)
    requires Ordered(t) && Linked(t) && i < |t| && !t[i].isDirectory
    ensures forall x :: x in Children(t, i) ==> x in Walk(t, i)
  {
    var fc := t[i].firstChild;
    if fc != Null {
      WalkVisitsSiblings(t, fc);
    }
  }

  /** `walkTree().reversed()`: from each node to its previous sibling, or else its parent. */
  function WalkReversed(t: Tree, i: nat): seq<nat>
    requires Ordered(t) && i < |t|
  {
    Chain(t, i, ReverseWalk)
  }

  // ---------------------------------------------------------------------------
  // Reversible sequences and filters

  /** The generators a reversible sequence is made of. */
  datatype Generator = ChildrenForward | ChildrenBackward | SiblingsForward | SiblingsBackward | WalkForward | WalkBackward

  /** `PsiElementReversibleSequence(node, gen, rgen)` */
  datatype ReversibleSequence = ReversibleSequence(node: nat, gen: Generator, rgen: Generator)

  /** `reversed()`: the same node with the two generators swapped. */
  function Reversed(s: ReversibleSequence): (r: ReversibleSequence)
    ensures r.node == s.node && r.gen == s.rgen && r.rgen == s.gen
  {
    ReversibleSequence(s.node, s.rgen, s.gen)
  }

  /** What a generator yields from a node. */
  function Run(t: Tree, g: Generator, i: nat): seq<nat>
    requires Ordered(t) && i < |t|
  {
    match g
    case ChildrenForward => Children(t, i)
    case ChildrenBackward => ChildrenReversed(t, i)
    case SiblingsForward => Siblings(t, i)
    case SiblingsBackward => SiblingsReversed(t, i)
    case WalkForward => Walk(t, i)
    case WalkBackward => WalkReversed(t, i)
  }

  /** The sequence's iterator: its forward generator applied to its node. */
  function Elements(t: Tree, s: ReversibleSequence): seq<nat>
    requires Ordered(t) && s.node < |t|
  {
    Run(t, s.gen, s.node)
  }

  /** `children()`, `siblings()` and `walkTree()` as reversible sequences. */
  function ChildrenSequence(i: nat): ReversibleSequence { ReversibleSequence(i, ChildrenForward, ChildrenBackward) }
  function SiblingsSequence(i: nat): ReversibleSequence { ReversibleSequence(i, SiblingsForward, SiblingsBackward) }
  function WalkTreeSequence(i: nat): ReversibleSequence { ReversibleSequence(i, WalkForward, WalkBackward) }

  /** Reversing twice gives the original sequence, and reversed `children()` yields the children backwards. */
  lemma ReversedChildren(t: Tree, i: nat)
    requires Ordered(t) && Linked(t) && i < |t|
    ensures Reversed(Reversed(ChildrenSequence(i))) == ChildrenSequence(i)
    ensures Elements(t, Reversed(ChildrenSequence(i))) == Reverse(Elements(t, ChildrenSequence(i)))
  {
    ChildrenReversedIsReverse(t, i);
  }

  /** `filterIsElementType`: the nodes, in order, whose element type is one of `types` (a single type is `{type}`). */
  function FilterIsElementType(t: Tree, s: seq<nat>, types: set<nat>): (r: seq<nat>)
    requires forall k :: 0 <= k < |s| ==> s[k] < |t|
    ensures forall k :: 0 <= k < |r| ==> r[k] < |t| && t[r[k]].elementType in types
    ensures forall x :: x in r <==> x in s && t[x].elementType in types
    ensures |r| <= |s|
  {
    if |s| == 0 then []
    else
      var rest := FilterIsElementType(t, s[1..], types);
      assert forall x :: x in s ==> x == s[0] || x in s[1..];
      if t[s[0]].elementType in types then [s[0]] + rest else rest
  }

  /** Filtering keeps order: the filter of a concatenation is the concatenation of the filters. */
  lemma {:induction false} FilterAppend(t: Tree, a: seq<nat>, b: seq<nat>, types: set<nat>)
    requires forall k :: 0 <= k < |a| ==> a[k] < |t|
    requires forall k :: 0 <= k < |b| ==> b[k] < |t|
    ensures FilterIsElementType(t, a + b, types) == FilterIsElementType(t, a, types) + FilterIsElementType(t, b, types)
  {
    if |a| > 0 {
      assert (a + b)[1..] == a[1..] + b;
      FilterAppend(t, a[1..], b, types);
    } else {
      assert a + b == b;
    }
  }
}
