/**
 * Service-centre placement on a binary tree of cities. A centre covers its
 * own node, its parent and its children. `build_tree` turns a level-order
 * list (with `None` for missing nodes) into linked `TreeNode`s, and
 * `Solution.minServiceCenters` places centres greedily in a post-order walk.
 */
module ServiceCenters {
  import opened Common

  // ---------------------------------------------------------------------------
  // Trees, and the greedy placement on them
  // ---------------------------------------------------------------------------

  /** The shape of a binary tree; the walk never looks at the cities' values. */
  datatype Tree = Nil | Node(left: Tree, right: Tree)

  /** What the walk reports for a subtree's root: 0, 1 and 2 in the program. */
  datatype Status = NeedsCover | Covered | HasCenter

  /** A tree whose nodes say whether they hold a centre. */
  datatype Layout = Bare | Spot(center: bool, left: Layout, right: Layout)

  /** The status a subtree reports and the centres placed inside it. */
  datatype Visit = Visit(state: Status, layout: Layout)

  function Skeleton(l: Layout): Tree
  {
    match l
    case Bare => Nil
    case Spot(_, a, b) => Node(Skeleton(a), Skeleton(b))
  }

  predicate IsCenter(l: Layout)
  {
    l.Spot? && l.center
  }

  /** The number of centres in a layout. */
  function Centers(l: Layout): nat
  {
    match l
    case Bare => 0
    case Spot(c, a, b) => (if c then 1 else 0) + Centers(a) + Centers(b)
  }

  /** The coverage rule: every node holds a centre, or its parent or one of its children does. */
  predicate CoversAll(l: Layout, parentCenter: bool)
  {
    match l
    case Bare => true
    case Spot(c, a, b) => (c || parentCenter || IsCenter(a) || IsCenter(b)) && CoversAll(a, c) && CoversAll(b, c)
  }

  /** Every node below the root is covered. */
  predicate CoversBelow(l: Layout)
  {
    match l
    case Bare => true
    case Spot(c, a, b) => CoversAll(a, c) && CoversAll(b, c)
  }

  /**
   * The inner `dfs`: a null child is covered; a node with a child that needs
   * cover takes a centre; otherwise it is covered when a child holds one, and
   * needs cover if not.
   */
  function Greedy(t: Tree): Visit
  {
    match t
    case Nil => Visit(Covered, Bare)
    case Node(a, b) =>
      var l, r := Greedy(a), Greedy(b);
      if l.state == NeedsCover || r.state == NeedsCover then Visit(HasCenter, Spot(true, l.layout, r.layout))
      else if l.state == HasCenter || r.state == HasCenter then Visit(Covered, Spot(false, l.layout, r.layout))
      else Visit(NeedsCover, Spot(false, l.layout, r.layout))
  }

  /** The final check: a root that still needs cover takes a centre. */
  function Final(t: Tree): Layout
  {
    var v := Greedy(t);
    if v.state == NeedsCover && v.layout.Spot? then Spot(true, v.layout.left, v.layout.right) else v.layout
  }

  /** The number `minServiceCenters` adds for the tree: the centres of the final layout. */
  function Placed(t: Tree): nat
  {
    Centers(Final(t))
  }

  /**
   * What each status means: 2 exactly when the root holds a centre; 1 when it
   * does not but a child does (or the tree is empty); 0 when neither it nor a
   * child does. Every node below the root is covered either way.
   */
  lemma {:induction false} GreedyFacts(t: Tree)
    ensures Skeleton(Greedy(t).layout) == t
    ensures CoversBelow(Greedy(t).layout)
    ensures Greedy(t).state == HasCenter <==> IsCenter(Greedy(t).layout)
    ensures Greedy(t).state == Covered ==>
              t.Nil? || (!IsCenter(Greedy(t).layout) && (IsCenter(Greedy(t).layout.left) || IsCenter(Greedy(t).layout.right)))
    ensures Greedy(t).state == NeedsCover ==>
              t.Node? && !IsCenter(Greedy(t).layout) && !IsCenter(Greedy(t).layout.left) && !IsCenter(Greedy(t).layout.right)
  {
    match t
    case Nil =>
    case Node(a, b) =>
      GreedyFacts(a);
      GreedyFacts(b);
      var l, r := Greedy(a), Greedy(b);
      var c := l.state == NeedsCover || r.state == NeedsCover;
      assert Greedy(t).layout == Spot(c, l.layout, r.layout);
      assert CoversAll(l.layout, c) by {
        if l.layout.Spot? {
          assert l.layout.center || c || IsCenter(l.layout.left) || IsCenter(l.layout.right);
        }
      }
      assert CoversAll(r.layout, c) by {
        if r.layout.Spot? {
          assert r.layout.center || c || IsCenter(r.layout.left) || IsCenter(r.layout.right);
        }
      }
  }

  /** After the final root check every city is covered, and the layout has the tree's shape. */
  lemma Coverage(t: Tree)
    ensures Skeleton(Final(t)) == t
    ensures CoversAll(Final(t), false)
  {
    GreedyFacts(t);
  }

  /** Centres are placed only where a child would otherwise stay uncovered: at most one per node. */
  lemma PlacedAtMostNodes(t: Tree)
    ensures Placed(t) <= Size(t)
  {
    GreedyFacts(t);
    LayoutCentersBounded(Final(t));
  }

  function Size(t: Tree): nat
  {
    match t
    case Nil => 0
    case Node(a, b) => 1 + Size(a) + Size(b)
  }

  lemma {:induction false} LayoutCentersBounded(l: Layout)
    ensures Centers(l) <= Size(Skeleton(l))
  {
    match l
    case Bare =>
    case Spot(_, a, b) =>
      LayoutCentersBounded(a);
      LayoutCentersBounded(b);
  }

  // ---------------------------------------------------------------------------
  // Level-order positions
  // ---------------------------------------------------------------------------

  /** The number of non-`None` entries among positions 0 .. j - 1: the creation index of the node at j. */
  function Rank(lo: seq<Option<int>>, j: nat): nat
    requires j <= |lo|
  {
    if j == 0 then 0 else Rank(lo, j - 1) + (if lo[j - 1].Some? then 1 else 0)
  }

  lemma {:induction false} RankMono(lo: seq<Option<int>>, a: nat, b: nat)
    requires a <= b <= |lo|
    ensures Rank(lo, a) <= Rank(lo, b)
    decreases b - a
  {
    if a < b {
      RankMono(lo, a, b - 1);
    }
  }

  /** The position of the left child of the node created c-th; the right child's is the next one. */
  function Slot(c: nat): nat
  {
    2 * c + 1
  }

  /** Positions 0 .. end - 1 were read, each node c whose slots were read having been created before. */
  ghost predicate Dequeued(lo: seq<Option<int>>, end: nat)
    requires end <= |lo|
  {
    forall c: nat :: Slot(c) < end ==> c < Rank(lo, Slot(c))
  }

  /** The creation index of the node position j describes, if j was read and is not `None`. */
  function ChildAt(lo: seq<Option<int>>, end: nat, j: nat): Option<nat>
    requires end <= |lo|
  {
    if j < end && lo[j].Some? then Some(Rank(lo, j)) else None
  }

  /** The subtree rooted at the node created c-th. */
  ghost function Shape(lo: seq<Option<int>>, end: nat, c: nat): Tree
    requires end <= |lo| && Dequeued(lo, end) && c < Rank(lo, end)
    decreases Rank(lo, end) - c, 1
  {
    Node(Below(lo, end, c, Slot(c)), Below(lo, end, c, Slot(c) + 1))
  }

  /** The subtree hanging from slot j of node c. */
  ghost function Below(lo: seq<Option<int>>, end: nat, c: nat, j: nat): Tree
    requires end <= |lo| && Dequeued(lo, end) && c < Rank(lo, end) && (j == Slot(c) || j == Slot(c) + 1)
    decreases Rank(lo, end) - c, 0
  {
    if j < end && lo[j].Some? then
      RankMono(lo, Slot(c), j);
      RankMono(lo, j + 1, end);
      Shape(lo, end, Rank(lo, j))
    else Nil
  }

  ghost function TreeAt(lo: seq<Option<int>>, end: nat, at: Option<nat>): Tree
    requires end <= |lo| && Dequeued(lo, end) && (at.Some? ==> at.value < Rank(lo, end))
  {
    match at
    case None => Nil
    case Some(c) => Shape(lo, end, c)
  }

  // ---------------------------------------------------------------------------
  // The program
  // ---------------------------------------------------------------------------

  class TreeNode {
    var val: int
    var left: TreeNode?
    var right: TreeNode?

    constructor(v: int)
      ensures val == v && left == null && right == null
    {
      val := v;
      left := null;
      right := null;
    }
  }

  /** The node the entry at position j became, or null. */
  function Child(lo: seq<Option<int>>, end: nat, nodes: seq<TreeNode>, j: nat): TreeNode?
    requires end <= |lo|
  {
    if j < end && lo[j].Some? && Rank(lo, j) < |nodes| then nodes[Rank(lo, j)] else null
  }

  /** `n` nodes were created from positions 0 .. end - 1, each node's slots read only after it was created. */
  ghost predicate Counted(lo: seq<Option<int>>, end: nat, n: nat)
  {
    end <= |lo| && n == Rank(lo, end) && Dequeued(lo, end)
  }

  /** `nodes` (in creation order) hold the values of the non-`None` entries among positions 0 .. end - 1. */
  ghost predicate Valued(lo: seq<Option<int>>, end: nat, nodes: seq<TreeNode>)
    requires end <= |lo|
    reads nodes
  {
    forall j {:trigger Rank(lo, j)} :: 0 <= j < end && lo[j].Some? ==> Rank(lo, j) < |nodes| && nodes[Rank(lo, j)].val == lo[j].value
  }

  /** Node c's children are the nodes of positions 2c + 1 and 2c + 2, or null where there is none (yet). */
  ghost predicate Wired(lo: seq<Option<int>>, end: nat, nodes: seq<TreeNode>)
    requires end <= |lo|
    reads nodes
  {
    forall c {:trigger nodes[c].left} {:trigger nodes[c].right} :: 0 <= c < |nodes| ==>
      nodes[c].left == Child(lo, end, nodes, Slot(c)) && nodes[c].right == Child(lo, end, nodes, Slot(c) + 1)
  }

  /** `nodes` are the tree `build_tree` makes from the first `end` positions of `lo`. */
  ghost predicate Built(lo: seq<Option<int>>, end: nat, nodes: seq<TreeNode>)
    reads nodes
  {
    Counted(lo, end, |nodes|) && Valued(lo, end, nodes) && Wired(lo, end, nodes)
  }

  /** A non-`None` entry before `end` was given a creation index below the count at `end`. */
  lemma RankBelow(lo: seq<Option<int>>, j: nat, end: nat)
    requires j < end <= |lo| && lo[j].Some?
    ensures Rank(lo, j) < Rank(lo, end)
  {
    RankMono(lo, j + 1, end);
  }

  /** Reading slot i of node q keeps the count consistent. */
  lemma CountedStep(lo: seq<Option<int>>, i: nat, q: nat, n: nat)
    requires Counted(lo, i, n) && i < |lo| && q < n && (i == Slot(q) || i == Slot(q) + 1)
    ensures Counted(lo, i + 1, n + if lo[i].Some? then 1 else 0)
  {
    forall c: nat | Slot(c) < i + 1 ensures c < Rank(lo, Slot(c)) {
      if Slot(c) == i {
        assert c == q;
      }
    }
  }

  /** Reading position i leaves the node of every other position as it was. */
  lemma ChildKept(lo: seq<Option<int>>, i: nat, nodes0: seq<TreeNode>, nodes: seq<TreeNode>, j: nat)
    requires i < |lo| && Counted(lo, i, |nodes0|) && j != i
    requires |nodes0| <= |nodes| && nodes[..|nodes0|] == nodes0
    ensures Child(lo, i + 1, nodes, j) == Child(lo, i, nodes0, j)
  {
    if j < i && lo[j].Some? {
      RankBelow(lo, j, i);
      assert nodes[Rank(lo, j)] == nodes0[Rank(lo, j)];
    }
  }

  /** Reading position i gives it the next creation index when it is not `None`. */
  lemma ChildRead(lo: seq<Option<int>>, i: nat, nodes0: seq<TreeNode>, nodes: seq<TreeNode>)
    requires i < |lo| && Counted(lo, i, |nodes0|)
    requires |nodes| == |nodes0| + (if lo[i].Some? then 1 else 0) && nodes[..|nodes0|] == nodes0
    ensures Child(lo, i + 1, nodes, i) == if lo[i].Some? then nodes[|nodes0|] else null
  {
  }

  /**
   * The subtree of node c is a node whose sides are the subtrees of the
   * nodes at its two slots, and those nodes are the ones linked to it.
   */
  lemma ShapeSplits(lo: seq<Option<int>>, end: nat, nodes: seq<TreeNode>, c: nat)
    requires Counted(lo, end, |nodes|) && c < |nodes|
    ensures ChildAt(lo, end, Slot(c)).Some? ==> ChildAt(lo, end, Slot(c)).value < |nodes|
    ensures ChildAt(lo, end, Slot(c) + 1).Some? ==> ChildAt(lo, end, Slot(c) + 1).value < |nodes|
    ensures Child(lo, end, nodes, Slot(c)) == if ChildAt(lo, end, Slot(c)).Some? then nodes[ChildAt(lo, end, Slot(c)).value] else null
    ensures Child(lo, end, nodes, Slot(c) + 1) == if ChildAt(lo, end, Slot(c) + 1).Some? then nodes[ChildAt(lo, end, Slot(c) + 1).value] else null
    ensures Shape(lo, end, c) == Node(TreeAt(lo, end, ChildAt(lo, end, Slot(c))), TreeAt(lo, end, ChildAt(lo, end, Slot(c) + 1)))
  {
    if Slot(c) < end && lo[Slot(c)].Some? {
      RankBelow(lo, Slot(c), end);
    }
    if Slot(c) + 1 < end && lo[Slot(c) + 1].Some? {
      RankBelow(lo, Slot(c) + 1, end);
    }
  }

  /** Positions read so far: `i`, but never past the end of the list. */
  function Upto(i: nat, n: nat): nat
  {
    if i <= n then i else n
  }

  /** Enqueuing at the back keeps the queue the tail of the creation order. */
  lemma AppendedTail<T>(s: seq<T>, x: T, k: nat)
    requires k <= |s|
    ensures s[k..] + [x] == (s + [x])[k..]
  {
  }

  /** A slot past the end of the list or holding `None` adds no node and keeps the tree built. */
  lemma SkipBuilt(lo: seq<Option<int>>, i: nat, q: nat, nodes: seq<TreeNode>)
    requires (i == Slot(q) || i == Slot(q) + 1) && i <= |lo| && (i == |lo| || lo[i].None?)
    requires Built(lo, i, nodes) && q < |nodes|
    ensures Built(lo, Upto(i + 1, |lo|), nodes)
  {
    if i < |lo| {
      CountedStep(lo, i, q, |nodes|);
      forall j | 0 <= j < i + 1 && lo[j].Some?
        ensures Rank(lo, j) < |nodes| && nodes[Rank(lo, j)].val == lo[j].value
      {
        RankBelow(lo, j, i);
      }
      forall c | 0 <= c < |nodes|
        ensures nodes[c].left == Child(lo, i + 1, nodes, Slot(c)) && nodes[c].right == Child(lo, i + 1, nodes, Slot(c) + 1)
      {
        ChildRead(lo, i, nodes, nodes);
        if Slot(c) != i {
          ChildKept(lo, i, nodes, nodes, Slot(c));
        }
        if Slot(c) + 1 != i {
          ChildKept(lo, i, nodes, nodes, Slot(c) + 1);
        }
      }
    }
  }

  /** A new node holding the value at position i extends the values read so far. */
  lemma ValuedStep(lo: seq<Option<int>>, i: nat, nodes0: seq<TreeNode>, child: TreeNode)
    requires i < |lo| && lo[i].Some? && Counted(lo, i, |nodes0|) && Valued(lo, i, nodes0) && child.val == lo[i].value
    ensures Valued(lo, i + 1, nodes0 + [child])
  {
    var nodes := nodes0 + [child];
    forall j | 0 <= j < i + 1 && lo[j].Some?
      ensures Rank(lo, j) < |nodes| && nodes[Rank(lo, j)].val == lo[j].value
    {
      if j < i {
        RankBelow(lo, j, i);
        assert nodes[Rank(lo, j)] == nodes0[Rank(lo, j)];
      }
    }
  }

  /** Node c's children are as `Wired` says, for every node but q. */
  ghost predicate WiredBut(lo: seq<Option<int>>, end: nat, nodes: seq<TreeNode>, q: nat)
    requires end <= |lo|
    reads nodes
  {
    forall c {:trigger nodes[c].left} {:trigger nodes[c].right} :: 0 <= c < |nodes| && c != q ==>
      nodes[c].left == Child(lo, end, nodes, Slot(c)) && nodes[c].right == Child(lo, end, nodes, Slot(c) + 1)
  }

  /**
   * A new childless node for position i, read as a child slot of node q:
   * every other node keeps its links, and q's other side is unaffected.
   */
  lemma WiredGrow(lo: seq<Option<int>>, i: nat, q: nat, nodes0: seq<TreeNode>, child: TreeNode)
    requires i < |lo| && lo[i].Some? && Counted(lo, i, |nodes0|) && Wired(lo, i, nodes0) && q < |nodes0|
    requires i == Slot(q) || i == Slot(q) + 1
    requires child.left == null && child.right == null
    ensures WiredBut(lo, i + 1, nodes0 + [child], q)
    ensures i == Slot(q) ==> nodes0[q].right == Child(lo, i + 1, nodes0 + [child], Slot(q) + 1)
    ensures i == Slot(q) + 1 ==> nodes0[q].left == Child(lo, i + 1, nodes0 + [child], Slot(q))
  {
    var nodes := nodes0 + [child];
    forall c | 0 <= c < |nodes| && c != q
      ensures nodes[c].left == Child(lo, i + 1, nodes, Slot(c)) && nodes[c].right == Child(lo, i + 1, nodes, Slot(c) + 1)
    {
      ChildKept(lo, i, nodes0, nodes, Slot(c));
      ChildKept(lo, i, nodes0, nodes, Slot(c) + 1);
      if c < |nodes0| {
        assert nodes[c] == nodes0[c];
      }
    }
    if i == Slot(q) {
      ChildKept(lo, i, nodes0, nodes, Slot(q) + 1);
    } else {
      ChildKept(lo, i, nodes0, nodes, Slot(q));
    }
  }

  /**
   * A slot inside the list holding a value: a new node with that value
   * becomes the left or right child of node q and joins the queue.
   */
  method AttachChild(lo: seq<Option<int>>, i: nat, isLeft: bool, current: TreeNode, ghost q: nat, ghost nodes0: seq<TreeNode>)
    returns (child: TreeNode)
    requires i == (if isLeft then Slot(q) else Slot(q) + 1) && i < |lo| && lo[i].Some?
    requires Built(lo, i, nodes0) && q < |nodes0| && current == nodes0[q]
    requires forall a, b :: 0 <= a < b < |nodes0| ==> nodes0[a] != nodes0[b]
    modifies current
    ensures fresh(child) && Built(lo, i + 1, nodes0 + [child])
  {
    child := new TreeNode(lo[i].value);
    ghost var nodes := nodes0 + [child];
    CountedStep(lo, i, q, |nodes0|);
    ValuedStep(lo, i, nodes0, child);
    WiredGrow(lo, i, q, nodes0, child);
    if isLeft {
      current.left := child;
    } else {
      current.right := child;
    }
    ChildRead(lo, i, nodes0, nodes);
    forall c | 0 <= c < |nodes|
      ensures nodes[c].left == Child(lo, i + 1, nodes, Slot(c)) && nodes[c].right == Child(lo, i + 1, nodes, Slot(c) + 1)
    {
      if c != q {
        assert nodes[c] != current;
      }
    }
  }

  /**
   * One child slot of `build_tree`'s loop body: position i, the left slot
   * (2q + 1) or the right slot (2q + 2) of node q, becomes a new node,
   * linked and enqueued, when it is inside the list and not `None`.
   */
  method ReadSlot(lo: seq<Option<int>>, i: nat, isLeft: bool, current: TreeNode, ghost q: nat,
                  ghost nodes0: seq<TreeNode>, queue0: seq<TreeNode>)
    returns (ghost nodes: seq<TreeNode>, queue: seq<TreeNode>)
    requires i == (if isLeft then Slot(q) else Slot(q) + 1) && i <= |lo|
    requires Built(lo, i, nodes0) && q < |nodes0| && current == nodes0[q] && queue0 == nodes0[q + 1..]
    requires forall a, b :: 0 <= a < b < |nodes0| ==> nodes0[a] != nodes0[b]
    modifies current
    ensures Built(lo, Upto(i + 1, |lo|), nodes) && queue == nodes[q + 1..]
    ensures forall a, b :: 0 <= a < b < |nodes| ==> nodes[a] != nodes[b]
    ensures nodes == nodes0 || (|nodes| == |nodes0| + 1 && nodes[..|nodes0|] == nodes0 && fresh(nodes[|nodes0|]))
  {
    if i < |lo| && lo[i].Some? {
      var child := AttachChild(lo, i, isLeft, current, q, nodes0);
      queue := queue0 + [child];
      nodes := nodes0 + [child];
      AppendedTail(nodes0, child, q + 1);
    } else {
      SkipBuilt(lo, i, q, nodes0);
      nodes, queue := nodes0, queue0;
    }
  }

  /** The root alone, with no children yet, is the tree of position 0. */
  lemma RootBuilt(lo: seq<Option<int>>, first: TreeNode)
    requires 0 < |lo| && lo[0].Some? && first.val == lo[0].value && first.left == null && first.right == null
    ensures Built(lo, 1, [first])
  {
    assert Rank(lo, 1) == 1;
  }

  /**
   * One pass of `build_tree`'s loop: dequeue node d, then read its left slot
   * i = 2d + 1 and its right slot i + 1.
   */
  method ServeNext(lo: seq<Option<int>>, i: nat, ghost d: nat, ghost nodes0: seq<TreeNode>, queue0: seq<TreeNode>)
    returns (ghost nodes: seq<TreeNode>, queue: seq<TreeNode>)
    requires i == Slot(d) < |lo| && Built(lo, i, nodes0) && d < |nodes0| && queue0 == nodes0[d..]
    requires forall a, b :: 0 <= a < b < |nodes0| ==> nodes0[a] != nodes0[b]
    modifies nodes0[d]
    ensures |nodes0| <= |nodes| && nodes[..|nodes0|] == nodes0
    ensures Built(lo, Upto(i + 2, |lo|), nodes) && queue == nodes[d + 1..]
    ensures forall a, b :: 0 <= a < b < |nodes| ==> nodes[a] != nodes[b]
    ensures forall c :: |nodes0| <= c < |nodes| ==> fresh(nodes[c])
  {
    var current := queue0[0];
    queue := queue0[1..];
    nodes, queue := ReadSlot(lo, i, true, current, d, nodes0, queue);
    ghost var middle := nodes;
    nodes, queue := ReadSlot(lo, i + 1, false, current, d, nodes, queue);
    assert nodes[..|nodes0|] == nodes0 by {
      assert nodes[..|middle|] == middle;
    }
  }

  /**
   * `build_tree(level_order)`: null for an empty list or a `None` first entry;
   * otherwise each dequeued node reads two positions, left then right,
   * creating and enqueuing a node for each entry that is not `None`. The loop
   * stops when the list or the queue runs out.
   */
  method BuildTree(lo: seq<Option<int>>) returns (root: TreeNode?, ghost nodes: seq<TreeNode>, ghost end: nat)
    ensures root == null <==> |lo| == 0 || lo[0].None?
    ensures root == null ==> nodes == [] && end == 0
    ensures root != null ==> 0 < |nodes| && root == nodes[0] && (end == |lo| || end == Slot(|nodes|))
    ensures Built(lo, end, nodes)
    ensures |nodes| <= Rank(lo, |lo|)
    ensures forall c :: 0 <= c < |nodes| ==> fresh(nodes[c])
    ensures forall a, b :: 0 <= a < b < |nodes| ==> nodes[a] != nodes[b]
  {
    if |lo| == 0 || lo[0].None? {
      return null, [], 0;
    }
    var first := new TreeNode(lo[0].value);
    root := first;
    var queue := [first];
    nodes := [first];
    RootBuilt(lo, first);
    var i := 1;
    ghost var d := 0;
    while |queue| > 0 && i < |lo|
      invariant i == Slot(d) && 0 < |nodes| && d <= |nodes| && queue == nodes[d..] && nodes[0] == root
      invariant Built(lo, Upto(i, |lo|), nodes)
      invariant forall c :: 0 <= c < |nodes| ==> fresh(nodes[c])
      invariant forall a, b :: 0 <= a < b < |nodes| ==> nodes[a] != nodes[b]
      decreases |lo| - i
    {
      ghost var before := nodes;
      nodes, queue := ServeNext(lo, i, d, nodes, queue);
      forall c | 0 <= c < |nodes| ensures fresh(nodes[c]) {
        if c < |before| {
          assert nodes[c] == before[c];
        }
      }
      i := i + 2;
      d := d + 1;
    }
    end := Upto(i, |lo|);
    RankMono(lo, end, |lo|);
  }

  /** `Solution`: the running count of centres, kept across calls. */
  class Solution {
    var centers: int

    constructor()
      ensures centers == 0
    {
      centers := 0;
    }

    /** The inner `dfs` on the node created `at`-th (null when `at` is absent). */
    method Dfs(node: TreeNode?, ghost lo: seq<Option<int>>, ghost end: nat, ghost nodes: seq<TreeNode>,
               ghost at: Option<nat>) returns (state: Status)
      requires Built(lo, end, nodes)
      requires at.None? ==> node == null
      requires at.Some? ==> at.value < |nodes| && node == nodes[at.value]
      modifies this
      ensures state == Greedy(TreeAt(lo, end, at)).state
      ensures centers == old(centers) + Centers(Greedy(TreeAt(lo, end, at)).layout)
      decreases if at.Some? then |nodes| - at.value else 0
    {
      if node == null {
        return Covered;
      }
      ghost var c := at.value;
      ghost var la, ra := ChildAt(lo, end, Slot(c)), ChildAt(lo, end, Slot(c) + 1);
      ShapeSplits(lo, end, nodes, c);
      var left := Dfs(node.left, lo, end, nodes, la);
      var right := Dfs(node.right, lo, end, nodes, ra);
      if left == NeedsCover || right == NeedsCover {
        centers := centers + 1;
        return HasCenter;
      }
      if left == HasCenter || right == HasCenter {
        return Covered;
      }
      return NeedsCover;
    }

    /**
     * `minServiceCenters(root)` on a tree `build_tree` made: adds the centres
     * of the final layout to the running count and returns it.
     */
    method MinServiceCenters(root: TreeNode?, ghost lo: seq<Option<int>>, ghost end: nat, ghost nodes: seq<TreeNode>)
      returns (r: int)
      requires Built(lo, end, nodes)
      requires root == null || (0 < |nodes| && root == nodes[0])
      modifies this
      ensures r == centers
      ensures centers == old(centers) + Placed(TreeAt(lo, end, if root == null then None else Some(0)))
    {
      var rootState := Dfs(root, lo, end, nodes, if root == null then None else Some(0));
      if rootState == NeedsCover {
        centers := centers + 1;
      }
      return centers;
    }
  }
}
