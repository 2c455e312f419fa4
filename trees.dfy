/** function_tree.py: the `Node` object with its mutable `parent`/`sibling`/`left`/`right` links,
    and the read-only views of `FunctionTree` (pre-order traversal, depth through the parent chain,
    grouping by depth, the stored LaTeX). */
module Trees {
  import opened Wrappers

  /** The owned structure below a node as a value: the node's type tag, its stored plain value
      and LaTeX, and its two subtrees, `Empty` standing for a `None` child. */
  datatype Shape =
    | Empty
    | Fork(nodeType: string, value: Option<string>, latex: Option<string>, left: Shape, right: Shape)

  /** No node of the tree has a plain value or LaTeX stored. */
  predicate Unset(t: Shape)
    decreases t
  {
    match t
    case Empty => true
    case Fork(_, value, latex, l, r) => value == None && latex == None && Unset(l) && Unset(r)
  }

  class Node {
    const nodeType: string
    var value: Option<string>
    var latex: Option<string>
    var parent: Node?
    var sibling: Node?
    var left: Node?
    var right: Node?

    /** This node and every node it owns through `left` and `right`. */
    ghost var Repr: set<Node>

    /** Ownership is a tree: each child owns a part of the footprint disjoint from the other
        child's and not containing this node, and each child's `parent` is this node. */
    ghost predicate Valid()
      reads this, Repr
      decreases Repr
    {
      this in Repr &&
      (left != null ==>
        left in Repr && left.Repr <= Repr && this !in left.Repr && left.parent == this && left.Valid()) &&
      (right != null ==>
        right in Repr && right.Repr <= Repr && this !in right.Repr && right.parent == this && right.Valid()) &&
      (left != null && right != null ==> left.Repr !! right.Repr) &&
      Repr == {this} + (if left != null then left.Repr else {}) + (if right != null then right.Repr else {})
    }

    /** `Node.__init__`: all four links start out unset. */
    constructor (nodeType: string, value: Option<string>, latex: Option<string>)
      ensures this.nodeType == nodeType && this.value == value && this.latex == latex
      ensures parent == null && sibling == null && left == null && right == null
      ensures Valid() && Repr == {this}
    {
      this.nodeType := nodeType;
      this.value := value;
      this.latex := latex;
      parent := null;
      sibling := null;
      left := null;
      right := null;
      Repr := {this};
    }

    /** The `height` property: 1 without a parent, otherwise one more than the parent's. Walking
        up the parent chain of a linked tree yields the node's depth below the root. */
    function Height(ghost root: Node): (h: nat)
      reads root.Repr
      requires root.Valid() && root.parent == null && this in root.Repr
      ensures h == Depth(root, this)
      decreases Depth(root, this)
    {
      ParentLink(root, this);
      if parent == null then 1 else parent.Height(root) + 1
    }

    /** `traverse_prefix_order`: the recursion visits the children but drops what they return;
        the result is this node's own stored LaTeX, or "" when called on no node. */
    function TraversePrefixOrder(node: Node?): (r: Option<string>)
      reads this, if node != null then node.Repr else {}
      requires node != null ==> node.Valid()
      ensures node == null ==> r == Some("")
      ensures node != null ==> r == latex
      decreases if node != null then node.Repr else {}
    {
      if node == null then Some("")
      else
        var _ := TraversePrefixOrder(node.left);
        var _ := TraversePrefixOrder(node.right);
        latex
    }
  }

  /** The abstract value of the subtree owned by `node`. */
  ghost function ShapeOf(node: Node?): (t: Shape)
    reads if node != null then node.Repr else {}
    requires node != null ==> node.Valid()
    ensures t == Empty <==> node == null
    decreases if node != null then node.Repr else {}
  {
    if node == null then Empty
    else Fork(node.nodeType, node.value, node.latex, ShapeOf(node.left), ShapeOf(node.right))
  }

  /** The sibling links the builder sets: the two children of a node are each other's sibling,
      and a single (left) child has none. */
  ghost predicate SiblingsLinked(node: Node)
    reads node.Repr
    requires node.Valid()
    decreases node.Repr
  {
    (node.left != null && node.right != null ==>
      node.left.sibling == node.right && node.right.sibling == node.left) &&
    (node.left != null && node.right == null ==> node.left.sibling == null) &&
    (node.left != null ==> SiblingsLinked(node.left)) &&
    (node.right != null ==> SiblingsLinked(node.right))
  }

  /** Setting a node's `parent` or `sibling` leaves the subtree it owns as it was: still linked,
      with the same shape and payload and the same sibling links below it. */
  twostate lemma RelinkKeepsSubtree(n: Node)
    requires old(n.Valid()) && unchanged(old(n.Repr) - {n})
    requires n.Repr == old(n.Repr) && n.left == old(n.left) && n.right == old(n.right)
    requires n.value == old(n.value) && n.latex == old(n.latex)
    ensures n.Valid() && ShapeOf(n) == old(ShapeOf(n))
    ensures SiblingsLinked(n) == old(SiblingsLinked(n))
  {
  }

  /** Depth of `n` below `root`, counted top-down along the owning links (the root has depth 1). */
  ghost function Depth(root: Node, n: Node): (d: nat)
    reads root.Repr
    requires root.Valid() && n in root.Repr
    ensures d >= 1 && (d == 1 <==> n == root)
    decreases root.Repr
  {
    if n == root then 1
    else if root.left != null && n in root.left.Repr then 1 + Depth(root.left, n)
    else 1 + Depth(root.right, n)
  }

  /** Every node below the root has its owner as `parent`, one level up. */
  lemma {:induction false} ParentLink(root: Node, n: Node)
    requires root.Valid() && n in root.Repr
    ensures n != root ==>
      n.parent != null && n.parent in root.Repr && Depth(root, n) == Depth(root, n.parent) + 1
    decreases root.Repr
  {
    if n != root {
      if root.left != null && n in root.left.Repr {
        if n != root.left {
          ParentLink(root.left, n);
        }
      } else if n != root.right {
        ParentLink(root.right, n);
      }
    }
  }

  /** `_traverse`: the node, then its left subtree, then its right subtree. It starts with the
      node itself and yields only nodes the subtree owns. */
  function TraverseFrom(node: Node?): (s: seq<Node>)
    reads if node != null then node.Repr else {}
    requires node != null ==> node.Valid()
    ensures node == null ==> s == []
    ensures node != null ==> |s| >= 1 && s[0] == node
    ensures forall n :: n in s ==> node != null && n in node.Repr
    decreases if node != null then node.Repr else {}
  {
    if node == null then [] else [node] + TraverseFrom(node.left) + TraverseFrom(node.right)
  }

  /** The traversal yields every node the subtree owns exactly once. */
  lemma {:induction false} TraversalCountsOnce(node: Node)
    requires node.Valid()
    ensures forall n :: n in node.Repr ==> multiset(TraverseFrom(node))[n] == 1
    decreases node.Repr
  {
    if node.left != null {
      TraversalCountsOnce(node.left);
    }
    if node.right != null {
      TraversalCountsOnce(node.right);
    }
    CountsOnceConcat(node, TraverseFrom(node.left), TraverseFrom(node.right),
                     if node.left != null then node.left.Repr else {},
                     if node.right != null then node.right.Repr else {});
  }

  /** An entry followed by two sequences that hold each element of two disjoint sets once, and
      nothing else, holds each element of the union (with the entry) once. */
  lemma CountsOnceConcat<T>(x: T, l: seq<T>, r: seq<T>, ls: set<T>, rs: set<T>)
    requires x !in ls && x !in rs && ls !! rs
    requires forall y :: y in l ==> y in ls
    requires forall y :: y in r ==> y in rs
    requires forall y :: y in ls ==> multiset(l)[y] == 1
    requires forall y :: y in rs ==> multiset(r)[y] == 1
    ensures forall y :: y in {x} + ls + rs ==> multiset([x] + l + r)[y] == 1
  {
    forall y | y in {x} + ls + rs
      ensures multiset([x] + l + r)[y] == 1
    {
      assert multiset([x] + l + r) == multiset([x]) + multiset(l) + multiset(r);
      if y == x {
        assert y !in l && y !in r;
      } else if y in ls {
        assert y !in r;
      } else {
        assert y !in l;
      }
    }
  }

  /** The elements of `xs` whose key is `k`, in their order in `xs`. */
  function Filter<T>(xs: seq<T>, keys: seq<nat>, k: nat): (group: seq<T>)
    requires |keys| == |xs|
    ensures forall x :: x in group ==> exists i :: 0 <= i < |xs| && keys[i] == k && xs[i] == x
    ensures forall i :: 0 <= i < |xs| && keys[i] == k ==> xs[i] in group
    decreases |xs|
  {
    if xs == [] then []
    else
      var n := |xs| - 1;
      Filter(xs[..n], keys[..n], k) + (if keys[n] == k then [xs[n]] else [])
  }

  /** `sorted(xs, key)` followed by `groupby(key)` into a dictionary: the keys that occur, each
      mapped to the elements carrying it. Python's sort is stable, so each group keeps the order
      of `xs`. */
  function Group<T>(xs: seq<T>, keys: seq<nat>): (groups: map<nat, seq<T>>)
    requires |keys| == |xs|
    ensures forall k :: k in groups <==> k in keys
    ensures forall k :: k in groups ==> groups[k] == Filter(xs, keys, k)
    decreases |xs|
  {
    if xs == [] then map[]
    else
      var n := |xs| - 1;
      var groups := Group(xs[..n], keys[..n]);
      var k := keys[n];
      assert keys == keys[..n] + [k];
      FilterOfAbsentKey(xs[..n], keys[..n], k);
      groups[k := (if k in groups then groups[k] else []) + [xs[n]]]
  }

  /** No element carries a key that does not occur. */
  lemma {:induction false} FilterOfAbsentKey<T>(xs: seq<T>, keys: seq<nat>, k: nat)
    requires |keys| == |xs|
    ensures k !in keys ==> Filter(xs, keys, k) == []
    decreases |xs|
  {
    if xs != [] && k !in keys {
      var n := |xs| - 1;
      assert keys == keys[..n] + [keys[n]];
      FilterOfAbsentKey(xs[..n], keys[..n], k);
    }
  }

  /** `a` is obtained from `b` by deleting elements. */
  ghost predicate IsSubsequence<T>(a: seq<T>, b: seq<T>)
    decreases |b|
  {
    if a == [] then true
    else if b == [] then false
    else if a[|a| - 1] == b[|b| - 1] then IsSubsequence(a[..|a| - 1], b[..|b| - 1])
    else IsSubsequence(a, b[..|b| - 1])
  }

  /** A group keeps the relative order its elements have in `xs`. */
  lemma {:induction false} FilterKeepsOrder<T>(xs: seq<T>, keys: seq<nat>, k: nat)
    requires |keys| == |xs|
    ensures IsSubsequence(Filter(xs, keys, k), xs)
    decreases |xs|
  {
    if xs != [] {
      var n := |xs| - 1;
      var earlier := Filter(xs[..n], keys[..n], k);
      FilterKeepsOrder(xs[..n], keys[..n], k);
      var group := Filter(xs, keys, k);
      if keys[n] == k {
        assert group[..|group| - 1] == earlier;
      } else {
        assert group == earlier;
        if group != [] && group[|group| - 1] == xs[n] {
          SubsequenceDropLast(group, xs[..n]);
        }
      }
    }
  }

  /** Dropping the last element of a subsequence leaves a subsequence. */
  lemma {:induction false} SubsequenceDropLast<T>(a: seq<T>, b: seq<T>)
    requires a != [] && IsSubsequence(a, b)
    ensures IsSubsequence(a[..|a| - 1], b)
    decreases |b|, 0
  {
    var m, last := |a| - 1, b[|b| - 1];
    assert b[..|b| - 1] + [last] == b;
    if a[m] != last {
      SubsequenceDropLast(a, b[..|b| - 1]);
    }
    SubsequenceExtend(a[..m], b[..|b| - 1], last);
  }

  /** A subsequence of `b` is a subsequence of `b` with one more element. */
  lemma {:induction false} SubsequenceExtend<T>(a: seq<T>, b: seq<T>, x: T)
    requires IsSubsequence(a, b)
    ensures IsSubsequence(a, b + [x])
    decreases |b|, 1
  {
    var c := b + [x];
    assert c[..|c| - 1] == b;
    if a != [] && a[|a| - 1] == x {
      SubsequenceDropLast(a, b);
    }
  }

  /** The `height` of each node of `nodes`, the sort key of `levels`. */
  function Heights(nodes: seq<Node>, ghost root: Node): (hs: seq<nat>)
    reads root.Repr
    requires root.Valid() && root.parent == null
    requires forall n :: n in nodes ==> n in root.Repr
    ensures |hs| == |nodes|
    ensures forall i :: 0 <= i < |nodes| ==> hs[i] == Depth(root, nodes[i])
  {
    if nodes == [] then []
    else [nodes[0].Height(root)] + Heights(nodes[1..], root)
  }

  /** The heights met along the traversal are exactly the depths of the tree's nodes. */
  lemma HeightsCoverDepths(root: Node)
    requires root.Valid() && root.parent == null
    ensures forall k :: k in Heights(TraverseFrom(root), root) <==>
      exists n :: n in root.Repr && Depth(root, n) == k
  {
    var nodes := TraverseFrom(root);
    var hs := Heights(nodes, root);
    TraversalCountsOnce(root);
    forall n | n in root.Repr
      ensures Depth(root, n) in hs
    {
      assert n in multiset(nodes);
      var i :| 0 <= i < |nodes| && nodes[i] == n;
      assert hs[i] == Depth(root, n);
    }
    forall k | k in hs
      ensures exists n :: n in root.Repr && Depth(root, n) == k
    {
      var i :| 0 <= i < |hs| && hs[i] == k;
      assert nodes[i] in root.Repr;
    }
  }

  /** The AttributeError raised when a tree without a root is asked for its LaTeX. */
  datatype TreeError = NoRoot

  class FunctionTree {
    const root: Node?

    constructor (root: Node?)
      ensures this.root == root
    {
      this.root := root;
    }

    /** The wrapped root heads a linked tree. */
    ghost predicate Valid()
      reads root, if root != null then root.Repr else {}
    {
      root != null ==> root.Valid() && root.parent == null
    }

    /** `traverse`: pre-order from the root, each node of the tree exactly once. */
    function Traverse(): (s: seq<Node>)
      reads if root != null then root.Repr else {}
      requires Valid()
      ensures root != null ==> |s| >= 1 && s[0] == root
      ensures forall n :: n in s ==> root != null && n in root.Repr
      ensures root != null ==> forall n :: n in root.Repr ==> multiset(s)[n] == 1
    {
      if root != null then TraversalCountsOnce(root); TraverseFrom(root) else []
    }

    /** `levels`: the keys are exactly the depths that occur in the tree, and each maps to the
        traversed nodes of that depth in traversal order. */
    function Levels(): (levels: map<nat, seq<Node>>)
      reads root, if root != null then root.Repr else {}
      requires Valid()
      ensures root == null ==> levels == map[]
      ensures root != null ==>
        (forall k :: k in levels <==> exists n :: n in root.Repr && Depth(root, n) == k) &&
        (forall k :: k in levels ==> levels[k] == Filter(Traverse(), Heights(Traverse(), root), k))
    {
      if root == null then map[]
      else
        var nodes := Traverse();
        HeightsCoverDepths(root);
        Group(nodes, Heights(nodes, root))
    }

    /** The `latex` property: the root's own stored LaTeX, whatever its descendants hold. A tree
        without a root has no `traverse_prefix_order` to call, which Python reports as an
        AttributeError. */
    function Latex(): (r: Result<Option<string>, TreeError>)
      reads if root != null then root.Repr else {}
      requires Valid()
      ensures r.Failure? <==> root == null
      ensures r.Failure? ==> r.error == NoRoot
      ensures root != null ==> r == Success(root.latex)
    {
      if root == null then Failure(NoRoot) else Success(root.TraversePrefixOrder(root))
    }
  }

  /** A tree whose nodes carry no stored LaTeX renders as `None`, not as text. */
  lemma UnsetTreeLatex(tree: FunctionTree)
    requires tree.Valid() && tree.root != null && Unset(ShapeOf(tree.root))
    ensures tree.Latex() == Success(None)
  {
  }

  /** Every node of the tree lies in the group of `levels` keyed by its height and in no other. */
  lemma LevelsPartition(tree: FunctionTree, n: Node)
    requires tree.Valid() && tree.root != null && n in tree.root.Repr
    ensures var levels := tree.Levels();
      n.Height(tree.root) in levels && n in levels[n.Height(tree.root)] &&
      forall k :: k in levels && n in levels[k] ==> k == n.Height(tree.root)
  {
    var root := tree.root;
    var nodes := tree.Traverse();
    var hs := Heights(nodes, root);
    assert multiset(nodes)[n] == 1;
    var i :| 0 <= i < |nodes| && nodes[i] == n;
    assert hs[i] == n.Height(root);
    forall k | k in tree.Levels() && n in tree.Levels()[k] ensures k == n.Height(root) {
      var j :| 0 <= j < |nodes| && hs[j] == k && nodes[j] == n;
    }
  }

  /** Walking up the parent chain from a node reaches an ancestor at every smaller depth. */
  lemma {:induction false} AncestorAtDepth(root: Node, n: Node, j: int) returns (m: Node)
    requires root.Valid() && n in root.Repr && 1 <= j <= Depth(root, n)
    ensures m in root.Repr && Depth(root, m) == j
    decreases Depth(root, n) - j
  {
    if Depth(root, n) == j {
      m := n;
    } else {
      ParentLink(root, n);
      m := AncestorAtDepth(root, n.parent, j);
    }
  }

  /** The keys of `levels` have no gaps: they run from 1 up to the deepest level, so listing the
      dictionary in ascending key order visits 1, 2, ... in turn. */
  lemma LevelsContiguous(tree: FunctionTree)
    requires tree.Valid() && tree.root != null
    ensures 1 in tree.Levels()
    ensures forall k, j :: k in tree.Levels() && 1 <= j <= k ==> j in tree.Levels()
  {
    var root := tree.root;
    assert Depth(root, root) == 1;
    forall k, j | k in tree.Levels() && 1 <= j <= k
      ensures j in tree.Levels()
    {
      var n :| n in root.Repr && Depth(root, n) == k;
      var m := AncestorAtDepth(root, n, j);
    }
  }

  /** The traversal lists as many nodes as the tree owns. */
  lemma {:induction false} TraversalLength(node: Node?)
    requires node != null ==> node.Valid()
    ensures |TraverseFrom(node)| == if node != null then |node.Repr| else 0
    decreases if node != null then node.Repr else {}
  {
    if node != null {
      TraversalLength(node.left);
      TraversalLength(node.right);
      var l := if node.left != null then node.left.Repr else {};
      var r := if node.right != null then node.right.Repr else {};
      assert node.Repr == {node} + l + r;
      DisjointUnionSize(node, l, r);
    }
  }

  /** A node and two footprints that share nothing add up in size. */
  lemma DisjointUnionSize(x: Node, l: set<Node>, r: set<Node>)
    requires x !in l && x !in r && l !! r
    ensures |{x} + l + r| == 1 + |l| + |r|
  {
    assert |{x} + l| == 1 + |l|;
  }

  /** Pre-order layout: the node comes first, its left subtree fills the next `|left.Repr|`
      positions, and its right subtree fills the rest. */
  lemma TraversalPreOrder(node: Node)
    requires node.Valid()
    ensures var s, k := TraverseFrom(node), if node.left != null then |node.left.Repr| else 0;
      |s| >= 1 + k && s[0] == node && s[1..1 + k] == TraverseFrom(node.left) &&
      s[1 + k..] == TraverseFrom(node.right)
  {
    var l, r := TraverseFrom(node.left), TraverseFrom(node.right);
    TraversalLength(node.left);
    assert TraverseFrom(node) == [node] + l + r;
    assert ([node] + l + r)[1..1 + |l|] == l;
    assert ([node] + l + r)[1 + |l|..] == r;
  }

  /** Every path from the root of `t` down to a node without children passes through exactly
      `h` nodes. */
  predicate PathsHaveLength(t: Shape, h: int)
    decreases t
  {
    match t
    case Empty => false
    case Fork(_, _, _, l, r) =>
      if l == Empty && r == Empty then h == 1
      else h > 1 && (l == Empty || PathsHaveLength(l, h - 1)) && (r == Empty || PathsHaveLength(r, h - 1))
  }

  /** In a tree whose paths all have length `h`, no node lies deeper than `h`, and exactly the
      nodes without children lie at depth `h`. */
  lemma {:induction false} DepthWithinPaths(sub: Node, n: Node, h: int)
    requires sub.Valid() && n in sub.Repr && PathsHaveLength(ShapeOf(sub), h)
    ensures Depth(sub, n) <= h
    ensures Depth(sub, n) == h <==> n.left == null && n.right == null
    decreases sub.Repr
  {
    if n != sub {
      if sub.left != null && n in sub.left.Repr {
        DepthWithinPaths(sub.left, n, h - 1);
      } else {
        DepthWithinPaths(sub.right, n, h - 1);
      }
    }
  }

  /** In a tree whose paths all have length `h`, every depth from 1 to `h` is occupied. */
  lemma {:induction false} NodeAtDepth(sub: Node, h: int, k: int) returns (n: Node)
    requires sub.Valid() && PathsHaveLength(ShapeOf(sub), h) && 1 <= k <= h
    ensures n in sub.Repr && Depth(sub, n) == k
    decreases sub.Repr
  {
    if k == 1 {
      n := sub;
    } else if sub.left != null {
      n := NodeAtDepth(sub.left, h - 1, k - 1);
    } else {
      n := NodeAtDepth(sub.right, h - 1, k - 1);
    }
  }

  /** The `levels` of a tree whose paths all have length `h` are keyed by exactly 1, ..., h, and
      a node's height is `h` exactly when it is a leaf. */
  lemma LevelsOfUniformTree(tree: FunctionTree, h: int)
    requires tree.Valid() && tree.root != null && PathsHaveLength(ShapeOf(tree.root), h)
    ensures forall k :: k in tree.Levels() <==> 1 <= k <= h
    ensures forall n :: n in tree.root.Repr ==>
      (n.Height(tree.root) == h <==> n.left == null && n.right == null)
  {
    var root := tree.root;
    forall k ensures k in tree.Levels() <==> 1 <= k <= h {
      if k in tree.Levels() {
        var n :| n in root.Repr && Depth(root, n) == k;
        DepthWithinPaths(root, n, h);
      }
      if 1 <= k <= h {
        var n := NodeAtDepth(root, h, k);
      }
    }
    forall n | n in root.Repr ensures n.Height(root) == h <==> n.left == null && n.right == null {
      DepthWithinPaths(root, n, h);
    }
  }
}
