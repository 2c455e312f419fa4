/** main.py: drawing a random node of a category and growing a random tree of a given height,
    linking parents, children and siblings in place. The random source is an explicit stream of
    draws: `draws(i)` is the i-th value `random` hands out, and every operation returns the
    position of the next unused draw. */
module Generator {
  import opened Wrappers
  import opened Trees
  import Formatting

  datatype BuildError =
    | InvalidHeight(maxHeight: int)
    | InvalidNodeCategory(category: string)
    | UnboundLocal(name: string)

  /** The keys of `OPERATOR_TYPE_MAP` and `FUNCTION_TYPE_MAP`, in their dictionary order. */
  const OperatorTypeKeys: seq<string> := ["ADDITION", "SUBTRACTION", "MULTIPLICATION", "DIVISION"]
  const FunctionTypeKeys: seq<string> :=
    ["CONSTANT", "MONOMIAL", "NATURAL EXP", "EXP", "NATURAL LOG", "LOG", "TRIG", "INVERSE TRIG"]

  /** `node_type_maps`: the two node categories and the type tags each offers. */
  const NodeTypeMaps: map<string, seq<string>> :=
    map["operator" := OperatorTypeKeys, "function" := FunctionTypeKeys]

  /** The categories `random_function_tree` chooses between for an inner node. */
  const Categories: seq<string> := ["operator", "function"]

  type Draws = nat -> nat

  /** `random.choice` (and `random.choices` without weights): the element a draw selects. */
  function Choice<T>(xs: seq<T>, d: nat): (x: T)
    requires |xs| > 0
    ensures x in xs
  {
    xs[d % |xs|]
  }

  /** Every element can be drawn. */
  lemma ChoiceCovers<T>(xs: seq<T>, x: T) returns (d: nat)
    requires x in xs
    ensures Choice(xs, d) == x
  {
    var i :| 0 <= i < |xs| && xs[i] == x;
    d := i;
  }

  /** The type tag `random_node` draws for a category, and the next draw position. A category
      outside `node_type_maps` is rejected without consuming a draw. */
  function RandomNodeType(category: string, draws: Draws, pos: nat): (r: Result<(string, nat), BuildError>)
    ensures r.Success? <==> category in NodeTypeMaps
    ensures r.Failure? ==> r.error == InvalidNodeCategory(category)
    ensures r.Success? ==> r.value.0 in NodeTypeMaps[category] && r.value.1 == pos + 1
  {
    if category !in NodeTypeMaps then Failure(InvalidNodeCategory(category))
    else Success((Choice(NodeTypeMaps[category], draws(pos)), pos + 1))
  }

  /** The error line 54 raises as written: its message interpolates `node_type`, a local that is
      assigned only further down, so Python raises UnboundLocalError instead of the ValueError. */
  function CategoryErrorAsWritten(category: string): (e: BuildError)
    requires category !in NodeTypeMaps
    ensures !e.InvalidNodeCategory? && !e.InvalidHeight?
  {
    UnboundLocal("node_type")
  }

  /** As written, the error raised for a bad category is the same whatever the category; the
      corrected error names the rejected category, so different categories give different errors. */
  lemma CategoryErrorNamesCategory(c1: string, c2: string, draws: Draws, pos: nat)
    requires c1 !in NodeTypeMaps && c2 !in NodeTypeMaps
    ensures CategoryErrorAsWritten(c1) == CategoryErrorAsWritten(c2)
    ensures RandomNodeType(c1, draws, pos) == RandomNodeType(c2, draws, pos) <==> c1 == c2
  {
  }

  /** `random_node`: a fresh, unlinked node of the drawn type. */
  method RandomNode(category: string, draws: Draws, pos: nat) returns (r: Result<Node, BuildError>, next: nat)
    ensures r.Success? <==> category in NodeTypeMaps
    ensures r.Failure? ==> r.error == InvalidNodeCategory(category) && next == pos
    ensures r.Success? ==>
      fresh(r.value) && r.value.Valid() && r.value.Repr == {r.value} &&
      r.value.parent == null && r.value.sibling == null && r.value.left == null && r.value.right == null &&
      r.value.value == None && r.value.latex == None &&
      RandomNodeType(category, draws, pos) == Success((r.value.nodeType, next))
  {
    var drawn := RandomNodeType(category, draws, pos);
    if drawn.Failure? {
      return Failure(drawn.error), pos;
    }
    var node := new Node(drawn.value.0, None, None);
    return Success(node), drawn.value.1;
  }

  /** A generated tree as a value, with the next unused draw position. */
  datatype Grown = Grown(tree: Shape, next: nat)

  /** The tree `random_function_tree` grows from a draw stream, as a value. */
  function Grow(maxHeight: int, draws: Draws, pos: nat): (r: Result<Grown, BuildError>)
    ensures r.Success? <==> maxHeight > 0
    ensures r.Failure? ==> r.error == InvalidHeight(maxHeight)
    ensures r.Success? ==> r.value.next > pos && r.value.tree.Fork?
    decreases maxHeight
  {
    if maxHeight <= 0 then Failure(InvalidHeight(maxHeight))
    else if maxHeight == 1 then
      var drawn := RandomNodeType("function", draws, pos).value;
      Success(Grown(Fork(drawn.0, None, None, Empty, Empty), drawn.1))
    else
      var category := Choice(Categories, draws(pos));
      var drawn := RandomNodeType(category, draws, pos + 1).value;
      var left := Grow(maxHeight - 1, draws, drawn.1).value;
      if category == "operator" then
        var right := Grow(maxHeight - 1, draws, left.next).value;
        Success(Grown(Fork(drawn.0, None, None, left.tree, right.tree), right.next))
      else
        Success(Grown(Fork(drawn.0, None, None, left.tree, Empty), left.next))
  }

  /** The "feasible" trees the generator promises: every node is an operator or a function,
      operator nodes have two children and function nodes no right child. */
  predicate Feasible(t: Shape)
    decreases t
  {
    match t
    case Empty => true
    case Fork(nodeType, _, _, l, r) =>
      (nodeType in OperatorTypeKeys || nodeType in FunctionTypeKeys) &&
      (nodeType in OperatorTypeKeys ==> l != Empty && r != Empty) &&
      (nodeType in FunctionTypeKeys ==> r == Empty) &&
      Feasible(l) && Feasible(r)
  }

  /** The leaves of the tree are function nodes. */
  predicate LeavesAreFunctions(t: Shape)
    decreases t
  {
    match t
    case Empty => true
    case Fork(nodeType, _, _, l, r) =>
      (l == Empty && r == Empty ==> nodeType in FunctionTypeKeys) &&
      LeavesAreFunctions(l) && LeavesAreFunctions(r)
  }

  lemma {:induction false} FeasibleLeaves(t: Shape)
    requires Feasible(t)
    ensures LeavesAreFunctions(t)
    decreases t
  {
    if t.Fork? {
      FeasibleLeaves(t.left);
      FeasibleLeaves(t.right);
    }
  }

  /** A tag drawn for an inner node is an operator tag exactly when the drawn category is
      "operator", and a function tag otherwise. */
  lemma DrawnTagKind(category: string, draws: Draws, pos: nat)
    requires category in Categories
    ensures var tag := RandomNodeType(category, draws, pos).value.0;
      (tag in OperatorTypeKeys <==> category == "operator") &&
      (tag in FunctionTypeKeys <==> category != "operator")
  {
    var tag := RandomNodeType(category, draws, pos).value.0;
    if category == "operator" {
      assert tag in OperatorTypeKeys;
      assert tag !in FunctionTypeKeys;
    } else {
      assert tag in FunctionTypeKeys;
      assert tag !in OperatorTypeKeys;
    }
  }

  /** A tree grown with height 1 is a single function node. */
  lemma GrowLeaf(draws: Draws, pos: nat)
    ensures var t := Grow(1, draws, pos).value.tree;
      t.Fork? && t.left == Empty && t.right == Empty && t.nodeType in FunctionTypeKeys && Feasible(t)
  {
    DrawnTagKind("function", draws, pos);
  }

  /** A grown tree is feasible; a tree of height 1 is a single function node. */
  lemma {:induction false} GrowFeasible(maxHeight: int, draws: Draws, pos: nat)
    requires maxHeight > 0
    ensures var t := Grow(maxHeight, draws, pos).value.tree;
      Feasible(t) &&
      (maxHeight == 1 ==> t.Fork? && t.left == Empty && t.right == Empty && t.nodeType in FunctionTypeKeys)
    decreases maxHeight
  {
    if maxHeight == 1 {
      GrowLeaf(draws, pos);
    } else {
      var category := Choice(Categories, draws(pos));
      var drawn := RandomNodeType(category, draws, pos + 1).value;
      DrawnTagKind(category, draws, pos + 1);
      var left := Grow(maxHeight - 1, draws, drawn.1).value;
      GrowFeasible(maxHeight - 1, draws, drawn.1);
      if category == "operator" {
        var right := Grow(maxHeight - 1, draws, left.next).value;
        GrowFeasible(maxHeight - 1, draws, left.next);
        assert Grow(maxHeight, draws, pos).value.tree == Fork(drawn.0, None, None, left.tree, right.tree);
      } else {
        assert Grow(maxHeight, draws, pos).value.tree == Fork(drawn.0, None, None, left.tree, Empty);
      }
    }
  }

  /** Every path from the root of a grown tree to a leaf has `maxHeight` nodes. */
  lemma {:induction false} GrowPaths(maxHeight: int, draws: Draws, pos: nat)
    requires maxHeight > 0
    ensures PathsHaveLength(Grow(maxHeight, draws, pos).value.tree, maxHeight)
    decreases maxHeight
  {
    if maxHeight > 1 {
      var category := Choice(Categories, draws(pos));
      var drawn := RandomNodeType(category, draws, pos + 1).value;
      GrowPaths(maxHeight - 1, draws, drawn.1);
      if category == "operator" {
        GrowPaths(maxHeight - 1, draws, Grow(maxHeight - 1, draws, drawn.1).value.next);
      }
    }
  }

  /** No node of a grown tree has a plain value or LaTeX: the builder only creates nodes with
      their type tag and links them. */
  lemma {:induction false} GrowUnset(maxHeight: int, draws: Draws, pos: nat)
    requires maxHeight > 0
    ensures Unset(Grow(maxHeight, draws, pos).value.tree)
    decreases maxHeight
  {
    if maxHeight > 1 {
      var category := Choice(Categories, draws(pos));
      var drawn := RandomNodeType(category, draws, pos + 1).value;
      GrowUnset(maxHeight - 1, draws, drawn.1);
      if category == "operator" {
        GrowUnset(maxHeight - 1, draws, Grow(maxHeight - 1, draws, drawn.1).value.next);
      }
    }
  }

  /** Lines 79-80 of `random_function_tree`: the grown subtree becomes the left child of a fresh
      node and points back to it as its parent. */
  method AttachLeft(root: Node, child: Node)
    requires root.Valid() && root.Repr == {root} && root.parent == null && root.sibling == null
    requires child.Valid() && root !in child.Repr && child.parent == null && child.sibling == null
    requires SiblingsLinked(child)
    modifies root`left, root`Repr, child`parent
    ensures root.Valid() && root.Repr == {root} + old(child.Repr)
    ensures root.parent == null && root.sibling == null && root.left == child && root.right == null
    ensures child.sibling == null && SiblingsLinked(root) && SiblingsLinked(child)
    ensures ShapeOf(root) == Fork(root.nodeType, old(root.value), old(root.latex), old(ShapeOf(child)), Empty)
  {
    root.left := child;
    root.left.parent := root;
    root.Repr := root.Repr + child.Repr;
    RelinkKeepsSubtree(child);
  }

  /** Lines 83-84: the second grown subtree becomes the right child and points back to its
      parent. */
  method AttachRight(root: Node, child: Node)
    requires root.Valid() && root.left != null && root.right == null
    requires child.Valid() && child.Repr !! root.Repr && child.parent == null
    modifies root`right, root`Repr, child`parent
    ensures root.Valid() && root.Repr == old(root.Repr) + old(child.Repr)
    ensures root.left == old(root.left) && root.right == child
    ensures ShapeOf(root) ==
      Fork(root.nodeType, old(root.value), old(root.latex), old(ShapeOf(root.left)), old(ShapeOf(child)))
    ensures SiblingsLinked(child) == old(SiblingsLinked(child))
    ensures SiblingsLinked(root.left) == old(SiblingsLinked(root.left))
  {
    var left := root.left;
    root.right := child;
    root.right.parent := root;
    root.Repr := root.Repr + child.Repr;
    RelinkKeepsSubtree(child);
    RelinkKeepsSubtree(left);
  }

  /** Line 85: the two children of an operator node become each other's sibling. */
  method LinkSiblings(root: Node)
    requires root.Valid() && root.left != null && root.right != null
    requires SiblingsLinked(root.left) && SiblingsLinked(root.right)
    modifies root.left`sibling, root.right`sibling
    ensures root.Valid() && SiblingsLinked(root) && ShapeOf(root) == old(ShapeOf(root))
  {
    var left, right := root.left, root.right;
    root.left.sibling, root.right.sibling := root.right, root.left;
    RelinkKeepsSubtree(left);
    RelinkKeepsSubtree(right);
  }

  /** One step of `Grow` above height 1, from the outcomes of its parts. */
  lemma GrowStep(maxHeight: int, draws: Draws, pos: nat, nodeType: string, afterRoot: nat,
                 left: Grown, right: Grown)
    requires maxHeight > 1
    requires RandomNodeType(Choice(Categories, draws(pos)), draws, pos + 1) == Success((nodeType, afterRoot))
    requires Grow(maxHeight - 1, draws, afterRoot) == Success(left)
    requires Choice(Categories, draws(pos)) == "operator" ==> Grow(maxHeight - 1, draws, left.next) == Success(right)
    ensures Choice(Categories, draws(pos)) == "operator" ==>
      Grow(maxHeight, draws, pos) == Success(Grown(Fork(nodeType, None, None, left.tree, right.tree), right.next))
    ensures Choice(Categories, draws(pos)) != "operator" ==>
      Grow(maxHeight, draws, pos) == Success(Grown(Fork(nodeType, None, None, left.tree, Empty), left.next))
  {
  }

  /** `random_function_tree`: a height below 1 is rejected (lines 69-70) without consuming a
      draw; otherwise the tree is grown. */
  method RandomFunctionTree(maxHeight: int, draws: Draws, pos: nat) returns (r: Result<Node, BuildError>, next: nat)
    ensures r.Success? <==> maxHeight > 0
    ensures r.Failure? ==> r.error == InvalidHeight(maxHeight) && next == pos
    ensures r.Success? ==>
      fresh(r.value.Repr) && r.value.Valid() && r.value.parent == null && r.value.sibling == null &&
      SiblingsLinked(r.value) && Grow(maxHeight, draws, pos) == Success(Grown(ShapeOf(r.value), next))
    ensures r.Success? ==> Unset(ShapeOf(r.value))
  {
    if maxHeight <= 0 {
      return Failure(InvalidHeight(maxHeight)), pos;
    }
    var root;
    root, next := GrowTree(maxHeight, draws, pos);
    GrowUnset(maxHeight, draws, pos);
    r := Success(root);
  }

  /** Lines 71-86 of `random_function_tree`, which its recursive calls re-enter with a height of
      at least 1: a single function node at height 1; above it, a node of a drawn category with
      a left child grown one level lower, and for an operator a right child as well. */
  method GrowTree(maxHeight: int, draws: Draws, pos: nat) returns (root: Node, next: nat)
    requires maxHeight >= 1
    ensures fresh(root.Repr) && root.Valid() && root.parent == null && root.sibling == null
    ensures SiblingsLinked(root)
    ensures Grow(maxHeight, draws, pos) == Success(Grown(ShapeOf(root), next))
    decreases maxHeight, 2
  {
    if maxHeight == 1 {
      var made;
      made, next := RandomNode("function", draws, pos);
      root := made.value;
      return;
    }
    var category := Choice(Categories, draws(pos));
    var afterRoot; ghost var leftShape;
    root, next, afterRoot, leftShape := GrowLeft(maxHeight, category, draws, pos + 1);
    next := GrowRight(root, maxHeight, category, draws, pos, afterRoot, leftShape, next);
  }

  /** Lines 81-86: the right-hand half of a node grown above height 1. An operator node gains a
      right child grown one level lower; a function node keeps its single child. */
  method GrowRight(root: Node, maxHeight: int, category: string, draws: Draws, pos: nat,
                   afterRoot: nat, ghost leftShape: Shape, afterLeft: nat) returns (next: nat)
    requires maxHeight > 1 && category == Choice(Categories, draws(pos))
    requires root.Valid() && root.parent == null && root.sibling == null
    requires root.left != null && root.right == null && root.left.sibling == null && SiblingsLinked(root)
    requires RandomNodeType(category, draws, pos + 1) == Success((root.nodeType, afterRoot))
    requires Grow(maxHeight - 1, draws, afterRoot) == Success(Grown(leftShape, afterLeft))
    requires ShapeOf(root) == Fork(root.nodeType, None, None, leftShape, Empty)
    modifies root`right, root`Repr, root.left`sibling
    ensures fresh(root.Repr - old(root.Repr)) && root.Valid() && root.parent == null && root.sibling == null
    ensures SiblingsLinked(root)
    ensures Grow(maxHeight, draws, pos) == Success(Grown(ShapeOf(root), next))
    decreases maxHeight, 1
  {
    if category == "operator" {
      ghost var rightShape;
      next, rightShape := AddRight(root, maxHeight - 1, draws, afterLeft);
      GrowStep(maxHeight, draws, pos, root.nodeType, afterRoot, Grown(leftShape, afterLeft), Grown(rightShape, next));
    } else {
      next := afterLeft;
      GrowStep(maxHeight, draws, pos, root.nodeType, afterRoot, Grown(leftShape, afterLeft), Grown(Empty, afterLeft));
    }
  }

  /** Lines 76-80: a fresh node of the category, whose left child is grown one level lower and
      linked back to it. */
  method GrowLeft(maxHeight: int, category: string, draws: Draws, pos: nat)
    returns (root: Node, next: nat, afterRoot: nat, ghost leftShape: Shape)
    requires maxHeight > 1 && category in NodeTypeMaps
    ensures fresh(root.Repr) && root.Valid() && root.parent == null && root.sibling == null
    ensures root.left != null && root.right == null && root.left.sibling == null && SiblingsLinked(root)
    ensures RandomNodeType(category, draws, pos) == Success((root.nodeType, afterRoot))
    ensures Grow(maxHeight - 1, draws, afterRoot) == Success(Grown(leftShape, next))
    ensures ShapeOf(root) == Fork(root.nodeType, None, None, leftShape, Empty)
    decreases maxHeight, 1
  {
    var made;
    made, afterRoot := RandomNode(category, draws, pos);
    root := made.value;
    var left;
    left, next := GrowTree(maxHeight - 1, draws, afterRoot);
    leftShape := ShapeOf(left);
    AttachLeft(root, left);
  }

  /** Lines 81-85: an operator node grows its right child one level lower, links it to itself,
      and makes its two children each other's sibling. */
  method AddRight(root: Node, height: int, draws: Draws, pos: nat) returns (next: nat, ghost rightShape: Shape)
    requires height >= 1 && root.Valid() && root.parent == null && root.sibling == null
    requires root.left != null && root.right == null && root.left.sibling == null && SiblingsLinked(root.left)
    modifies root`right, root`Repr, root.left`sibling
    ensures fresh(root.Repr - old(root.Repr)) && root.Valid()
    ensures SiblingsLinked(root) && root.left == old(root.left) && root.right != null
    ensures ShapeOf(root.right) == rightShape
    ensures ShapeOf(root) == Fork(root.nodeType, old(root.value), old(root.latex), old(ShapeOf(root.left)), rightShape)
    ensures Grow(height, draws, pos) == Success(Grown(rightShape, next))
    decreases height + 1, 0
  {
    var right;
    right, next := GrowTree(height, draws, pos);
    rightShape := ShapeOf(right);
    AttachRight(root, right);
    LinkSiblings(root);
    assert ShapeOf(root.right) == rightShape;
  }

  /** Every node below a feasible tree's root heads a feasible subtree. */
  lemma {:induction false} FeasibleBelow(sub: Node, n: Node)
    requires sub.Valid() && n in sub.Repr && Feasible(ShapeOf(sub))
    ensures n.Valid() && Feasible(ShapeOf(n))
    decreases sub.Repr
  {
    if n != sub {
      if sub.left != null && n in sub.left.Repr {
        FeasibleBelow(sub.left, n);
      } else {
        FeasibleBelow(sub.right, n);
      }
    }
  }

  /** For a tree grown with height `maxHeight`: `levels` is keyed by exactly 1, ..., maxHeight,
      the nodes of height `maxHeight` are exactly the leaves, and the leaves are function nodes. */
  lemma GrownTreeLevels(tree: FunctionTree, maxHeight: int, draws: Draws, pos: nat)
    requires tree.Valid() && tree.root != null
    requires Grow(maxHeight, draws, pos).Success? && Grow(maxHeight, draws, pos).value.tree == ShapeOf(tree.root)
    ensures forall k :: k in tree.Levels() <==> 1 <= k <= maxHeight
    ensures forall n :: n in tree.root.Repr ==>
      (n.Height(tree.root) == maxHeight <==> n.left == null && n.right == null)
    ensures forall n :: n in tree.root.Repr && n.left == null && n.right == null ==> n.nodeType in FunctionTypeKeys
  {
    GrowFeasible(maxHeight, draws, pos);
    GrowPaths(maxHeight, draws, pos);
    LevelsOfUniformTree(tree, maxHeight);
    forall n | n in tree.root.Repr && n.left == null && n.right == null
      ensures n.nodeType in FunctionTypeKeys
    {
      FeasibleBelow(tree.root, n);
    }
  }

  /** The builder never stores LaTeX, so the `latex` of a generated tree is `None`, not text. */
  lemma GeneratedTreeLatex(tree: FunctionTree, maxHeight: int, draws: Draws, pos: nat)
    requires tree.Valid() && tree.root != null
    requires Grow(maxHeight, draws, pos).Success? && Grow(maxHeight, draws, pos).value.tree == ShapeOf(tree.root)
    ensures tree.Latex() == Success(None)
  {
    GrowUnset(maxHeight, draws, pos);
    UnsetTreeLatex(tree);
  }

  /** The generator's tags against the formatting dispatch: all operator keys are formatting's
      operator tags, and of the function keys exactly "MONOMIAL" is one formatting rejects (it
      knows only "INT MONOMIAL" and "FRAC MONOMIAL"). */
  lemma TypeKeysVersusFormatting()
    ensures forall k :: k in OperatorTypeKeys ==> k in Formatting.OperatorTags
    ensures forall k :: k in FunctionTypeKeys ==> (Formatting.FormatValue(k).Success? <==> k != "MONOMIAL")
    ensures Formatting.FormatValue("MONOMIAL") == Failure(Formatting.InvalidNodeType("MONOMIAL"))
  {
  }
}
