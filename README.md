# Function trees in Dafny

A model of Function-Trees, a small Python program. It builds random "function trees" and
renders their nodes as LaTeX. A function tree is a binary tree with two kinds of node:

- an operator node (addition, subtraction, multiplication, division) has two children;
- a function node (constant, monomial, exponential, logarithm, trigonometric, inverse
  trigonometric) has one child, or none when it is a leaf.

The model covers three parts of the program:

- `formatting.py`: the pure tag-to-text functions. They map a node type tag to its plain value
  and to its LaTeX template, and they render coefficients, exponents and bases.
  - Modelled in `formatting.dfy` (module `Formatting`) as functions and lemmas.
  - Python's decimal rendering of integers is in `decimal.dfy` (module `Decimal`), together
    with the parser that reads it back.
  - Python's `ValueError`s are `Failure` values of the `Result` type in `wrappers.dfy`.
- `function_tree.py`: the linked `Node` class and the `FunctionTree` wrapper.
  - Modelled in `trees.dfy` (module `Trees`) as Dafny classes with the same fields.
  - A ghost footprint `Repr` and a `Valid` predicate state that `left`, `right` and `parent`
    form a proper tree.
  - The generator-based `traverse` becomes a function returning the sequence of yielded nodes.
  - `levels` is modelled by what its stable sort and `groupby` produce: for each height that
    occurs, the traversed nodes of that height in traversal order. The sort itself is not
    modelled.
- `main.py`: `random_node` and `random_function_tree`.
  - Modelled in `generator.dfy` (module `Generator`) as methods that allocate nodes and link
    them in place.
  - Randomness is an explicit stream `draws: nat -> nat` plus a position. Each call returns the
    position of the next unused draw.
  - A pure function `Grow` gives the tree the same draws produce, as a value. The value records
    each node's tag and its stored plain value and LaTeX. Each method proves the tree it links is
    exactly `Grow`'s value. The lemmas about `Grow` then say what the generator promises:
    - the tree has the requested height along every path;
    - operator nodes have two children and function nodes no right child;
    - the leaves are function nodes;
    - `levels` is keyed by exactly 1 through the height.
  - main.py builds its nodes through node subclasses that function_tree.py does not define
    (main.py:22-25, 57), so as written the module fails at its import on line 22. The model
    builds a base `Node` instead, carrying the drawn tag. For that stand-in only, no node has a
    value or LaTeX stored, and the tree's `latex` is `None` (`Generator.GrowUnset`,
    `Generator.GeneratedTreeLatex`).
  - The linking methods may write only the fields the source writes there: `left`, `right`,
    `parent` and `sibling`, plus the ghost footprint.

Some behaviours of the code worth knowing, each stated as a lemma:

- DIVISION renders as `/` (formatting.py:51-52), not as a fraction template. Lemma
  `Formatting.OperatorValueVersusLatex` covers this.
- The EXP template always emits ` \cdot `, also for a coefficient of 1 (formatting.py:110-111).
  Lemma `Formatting.ExpAlwaysHasCdot` covers this.
- Only the FRAC MONOMIAL template braces its exponent; INT MONOMIAL does not, whatever the
  exponent's length (formatting.py:92-103). Lemma `Formatting.FracMonomialBracesExponent` covers
  this.
- `FunctionTree` has no height of its own. The deepest level is the largest key of `levels`,
  and `Trees.LevelsContiguous` shows the keys run from 1 up to it without gaps.
- The generator draws the function tag `MONOMIAL` (main.py:44), but the formatting dispatch
  rejects it: it knows only `INT MONOMIAL` and `FRAC MONOMIAL`. Lemma
  `Generator.TypeKeysVersusFormatting` covers this.

## Model

| member | source | states |
|---|---|---|
| Decimal.IntToString | formatting.py:84-85 | the f-string rendering of an integer is non-empty, starts with `-` exactly for a negative integer, and is otherwise all digits |
| Decimal.IntToStringRoundTrip | formatting.py:84-85 | the f-string rendering of any integer reads back as that integer, sign included |
| Decimal.IntToStringInjective | formatting.py:84-85 | distinct integers render to distinct strings |
| Formatting.FormatOperatorValue | formatting.py:10-17 | succeeds exactly on the four operator tags, each with a one-character symbol; any other tag is an invalid-operator error naming the tag |
| Formatting.FormatFunctionValue | formatting.py:20-32 | succeeds exactly on the nine function tags with a non-empty value; any other tag is an invalid-function error naming the tag |
| Formatting.FormatValue | formatting.py:1-7 | operator tags go to the operator table and function tags to the function table; anything else is an invalid-node-type error naming the tag |
| Formatting.TagSetsDisjoint | formatting.py:1-7 | the operator and function tag sets are disjoint, with 4 and 9 members, so the dispatch order never matters |
| Formatting.ReducedRatioValue | formatting.py:80-81 | the `Fraction` an exponent renders as has the same value as m/n after reduction by the gcd, and a positive denominator |
| Formatting.ExponentString | formatting.py:80-81 | a whole exponent renders to a string that reads back as the exponent |
| Formatting.ExponentLatex | formatting.py:80-81 | empty exactly when the exponent equals 1; otherwise the exponent's rendering |
| Formatting.CoefficientLatex | formatting.py:84-85 | empty exactly when the coefficient is 1; otherwise it reads back as the coefficient |
| Formatting.CoefficientLatexInjective | formatting.py:84-85 | different coefficients render differently |
| Formatting.ConstantLatex | formatting.py:88-89 | the CONSTANT rendering always reads back as the coefficient, including 1 |
| Formatting.CoefficientReadsBack | formatting.py:84-127 | a rendering made of the coefficient prefix and a template's text ends with that text, is exactly that text when the coefficient is 1, and otherwise starts with a decimal that reads back as the coefficient |
| Formatting.IntMonomialLatex | formatting.py:92-96 | the coefficient prefix, then `x^` at height 1 or the wrapped `\left( {x} \right)^` at other heights, then the exponent without braces |
| Formatting.FracMonomialLatex | formatting.py:99-103 | the coefficient prefix, then the same height-aware base as INT MONOMIAL, then the exponent inside braces |
| Formatting.NaturalExpLatex | formatting.py:106-107 | the coefficient prefix, then `e^{x}` |
| Formatting.ExpLatex | formatting.py:110-111 | the coefficient prefix, then ` \cdot `, the base in decimal and `^{x}` |
| Formatting.NaturalLogLatex | formatting.py:114-115 | the coefficient prefix, then `\ln` applied to x |
| Formatting.LogLatex | formatting.py:118-119 | the coefficient prefix, then `\log_` with the base in decimal, applied to x |
| Formatting.TrigLatex | formatting.py:122-123 | the coefficient prefix, then a backslash and the trigonometric function, applied to x |
| Formatting.InverseTrigLatex | formatting.py:126-127 | the coefficient prefix, then a backslash and the inverse function, applied to x |
| Formatting.FunctionTemplate | formatting.py:57-77 | CONSTANT reads back as its coefficient; every other function renders its own entry of an independent table of template texts behind the coefficient prefix |
| Formatting.DefaultRenderings | formatting.py:88-123 | under the default keyword arguments, CONSTANT gives "1", INT MONOMIAL gives "x^", FRAC MONOMIAL gives "x^{}", EXP gives " \cdot 2^{x}" and TRIG gives "\sin" applied to x |
| Formatting.ParseOperatorType | formatting.py:44-54 | recognises exactly the operator tags, each as the operator the tag names |
| Formatting.ParseFunctionType | formatting.py:57-77 | recognises exactly the function tags, each as the function the tag names |
| Formatting.TagRoundTrip | formatting.py:44-77 | every operator and every function reads back from its own tag |
| Formatting.OperatorSymbol | formatting.py:44-52 | multiplication writes nothing; every other operator writes its one-character plain value |
| Formatting.FormatOperatorLatex | formatting.py:44-54 | succeeds exactly on the operator tags, and each operator's tag gives that operator's symbol; the rendering is empty exactly for MULTIPLICATION; other tags are errors naming the tag |
| Formatting.OperatorValueVersusLatex | formatting.py:44-54 | the LaTeX symbol equals the plain value except for MULTIPLICATION, which renders as "" instead of "*"; distinct operators have distinct symbols |
| Formatting.FormatFunctionLatex | formatting.py:57-77 | succeeds exactly on the function tags, and each function's tag selects that function's template; other tags are errors naming the tag |
| Formatting.FunctionDispatch | formatting.py:35-77 | a function's tag passes through both dispatchers and renders with that function's template |
| Formatting.TagSelectsTemplate | formatting.py:57-77 | each of the nine tags renders with the template named after it: CONSTANT with the constant template, NATURAL LOG with `\ln`, LOG with `\log_` and the base, and so on |
| Formatting.FormatLatex | formatting.py:35-41 | operator tags go to the operator renderer and function tags to the function renderer; anything else is an invalid-node-type error |
| Formatting.IntMonomialCoefficientPrefix | formatting.py:92-96 | an INT MONOMIAL rendering is the coefficient's rendering followed by the coefficient-1 body |
| Formatting.FracMonomialCoefficientPrefix | formatting.py:99-103 | a FRAC MONOMIAL rendering is the coefficient's rendering followed by the coefficient-1 body |
| Formatting.NaturalExpCoefficientPrefix | formatting.py:106-107 | a NATURAL EXP rendering is the coefficient prefix followed by a body that starts with `e` |
| Formatting.ExpCoefficientPrefix | formatting.py:110-111 | an EXP rendering is the coefficient prefix followed by a body that starts with a space |
| Formatting.ApplicationCoefficientPrefix | formatting.py:114-127 | the log and trig renderings are the coefficient prefix followed by a body that starts with a backslash |
| Formatting.UnitCoefficientOmitted | formatting.py:57-127 | every template except CONSTANT is the coefficient's rendering (empty for 1) followed by its coefficient-1 rendering; CONSTANT is the bare coefficient |
| Formatting.FunctionLatexDeterminesCoefficient | formatting.py:57-127 | for every function template, equal renderings imply equal coefficients |
| Formatting.MonomialTemplatesHeightAware | formatting.py:92-103 | both monomial templates write `x` as the base at height 1 and the parenthesised application otherwise, so heights 1 and 2 render differently |
| Formatting.FracMonomialBracesExponent | formatting.py:92-103 | the FRAC rendering is the INT rendering with the exponent wrapped in braces |
| Formatting.IntMonomialDeterminesExponent | formatting.py:92-96 | equal INT MONOMIAL renderings of whole exponents imply equal exponents |
| Formatting.ExpAlwaysHasCdot | formatting.py:110-111 | the EXP rendering always has ` \cdot ` right after the coefficient, also when the coefficient is 1 |
| Formatting.ApplicationTemplates | formatting.py:114-127 | a log or trig rendering is the coefficient, a backslash, the command, then the application to x; the command can be read back from the rendering |
| Trees.Node.constructor | function_tree.py:10-19 | a node keeps its tag, value and LaTeX and starts with no parent, sibling or children |
| Trees.Node.Height | function_tree.py:21-23 | the height found by walking up the parent chain equals the node's depth below the root (the root has height 1) |
| Trees.Depth | function_tree.py:21-23 | depths are at least 1, and only the root has depth 1 |
| Trees.Node.TraversePrefixOrder | function_tree.py:25-31 | "" for no node; otherwise the node's own stored LaTeX, since the recursive results are dropped |
| Trees.TraverseFrom | function_tree.py:41-45 | `_traverse` yields nothing for no node; otherwise it starts with the node and yields only nodes of its subtree |
| Trees.TraversalCountsOnce | function_tree.py:41-45 | every node of the subtree is yielded exactly once |
| Trees.TraversalLength | function_tree.py:41-45 | the traversal is exactly as long as the subtree has nodes |
| Trees.TraversalPreOrder | function_tree.py:41-45 | pre-order layout: the node, then the whole left subtree's traversal, then the right subtree's |
| Trees.FunctionTree.constructor | function_tree.py:35-36 | the wrapper holds the given root |
| Trees.FunctionTree.Traverse | function_tree.py:38-39 | starts with the root and yields each node of the tree exactly once |
| Trees.Heights | function_tree.py:48 | the sort key of each traversed node is its depth |
| Trees.Filter | function_tree.py:48-49 | a group holds exactly the elements whose key is the group's key |
| Trees.FilterKeepsOrder | function_tree.py:48-49 | a group keeps the traversal order, as the stable sort guarantees |
| Trees.Group | function_tree.py:48-49 | the dictionary's keys are exactly the keys that occur, each mapped to its group |
| Trees.HeightsCoverDepths | function_tree.py:47-49 | the heights met in the traversal are exactly the depths that occur in the tree |
| Trees.FunctionTree.Levels | function_tree.py:47-49 | an empty map for no root; otherwise keyed by exactly the occurring depths, each mapped to that depth's nodes in traversal order |
| Trees.LevelsPartition | function_tree.py:47-49 | every node lies in the level of its own height and in no other |
| Trees.LevelsContiguous | function_tree.py:47-49 | the keys of `levels` include 1 and have no gaps, so in ascending order they are 1, 2, ... up to the deepest level |
| Trees.LevelsOfUniformTree | function_tree.py:47-49 | when every root-to-leaf path has h nodes, the levels are keyed by exactly 1 to h, and the nodes of height h are exactly the leaves |
| Trees.FunctionTree.Latex | function_tree.py:51-53 | the tree's `latex` is the root's own stored LaTeX; a tree without a root fails, as the AttributeError does |
| Trees.UnsetTreeLatex | function_tree.py:51-53 | a tree whose nodes store no LaTeX has `latex` equal to `None` |
| Generator.Choice | main.py:56 | the drawn element belongs to the list |
| Generator.ChoiceCovers | main.py:56 | every element of the list is drawn by some draw |
| Generator.RandomNodeType | main.py:52-57 | succeeds exactly for "operator" and "function", with a tag of that category and one draw consumed; any other category is an error naming it, with no draw consumed |
| Generator.DrawnTagKind | main.py:39-52 | a tag drawn for "operator" is an operator key and one drawn for "function" is a function key |
| Generator.TypeKeysVersusFormatting | main.py:39-50 | every operator key is a formatting operator tag; of the function keys only "MONOMIAL" is rejected by the formatter |
| Generator.CategoryErrorAsWritten | main.py:53-54 | as written, a bad category raises neither the category error nor the height error (it raises UnboundLocalError) |
| Generator.CategoryErrorNamesCategory | main.py:53-54 | as written, every bad category raises the same error; the corrected error tells any two bad categories apart |
| Generator.RandomNode | main.py:29-57 | for a known category, a fresh unlinked base node carrying the drawn tag, with value and LaTeX unset; otherwise the category error, with no draw consumed |
| Generator.Grow | main.py:60-86 | defined exactly for heights of at least 1, giving a non-empty tree and consuming at least one draw; other heights are the height error |
| Generator.FeasibleLeaves | main.py:13-14 | in a feasible tree every leaf is a function node |
| Generator.GrowLeaf | main.py:71-72 | height 1 gives a single leaf of a function type |
| Generator.GrowFeasible | main.py:71-85 | every generated tree is feasible: operators have two children, functions no right child |
| Generator.GrowPaths | main.py:60-86 | every root-to-leaf path of a generated tree has exactly `max_height` nodes |
| Generator.GrowUnset | main.py:71-86 | with base nodes standing in for the undefined subclasses, no node of a generated tree has a plain value or LaTeX stored |
| Generator.GeneratedTreeLatex | main.py:60-86 | with base nodes standing in for the undefined subclasses, the `latex` of a generated tree is `None` |
| Generator.GrowStep | main.py:75-85 | one level of generation: the drawn category's node over a left tree one level lower, plus a right tree for an operator |
| Generator.AttachLeft | main.py:79-80 | writes only the node's `left` and the child's `parent`; the node keeps its tag, value and LaTeX and gains the child's subtree unchanged, payloads included |
| Generator.AttachRight | main.py:83-84 | writes only the node's `right` and the child's `parent`; the node keeps its tag, value and LaTeX, and both subtrees stay unchanged, payloads and sibling links included |
| Generator.LinkSiblings | main.py:85 | writes only the two children's `sibling`; the whole tree, payloads included, keeps its value |
| Generator.RandomFunctionTree | main.py:60-86 | a height below 1 is the height error with no draw consumed; otherwise a fresh root with no parent or sibling, linked siblings, exactly the tree `Grow` gives, and, with base nodes as stand-ins, no stored value or LaTeX |
| Generator.GrowTree | main.py:71-86 | for heights of at least 1, a fresh linked tree whose shape and next draw are those of `Grow` |
| Generator.GrowLeft | main.py:75-80 | the drawn node with its left subtree attached, matching `Grow`'s left part |
| Generator.GrowRight | main.py:81-86 | writes only the node's `right` and its left child's `sibling`: an operator gains a right subtree and sibling links, a function keeps one child; the result is exactly `Grow`'s tree |
| Generator.AddRight | main.py:81-85 | writes only the node's `right` and its left child's `sibling`: attaches a right subtree grown one level lower and links the siblings; the node keeps its value and LaTeX, and the tree matches `Grow`'s right part |
| Generator.GrownTreeLevels | main.py:60-86 | the levels of a generated tree are keyed by exactly 1 to `max_height`, the nodes of height `max_height` are exactly the leaves, and every leaf is a function node |

## Left out

- `FunctionTree.visualize` and `_add_edges` (function_tree.py:55-69): plotting through networkx and matplotlib.
- `main` (main.py:89-96): it prints and plots. As written, main.py never gets that far: its import of the undefined node subclasses on line 22 fails. With base nodes standing in, `main` would call the result of the `latex` property, which is then `None` (`Generator.GeneratedTreeLatex`).
- `gen.py` is not part of this model. The template parameters it would supply are the fields of `Formatting.LatexArgs`, and any values are accepted.
- The distribution of `random.choice` and `random.choices`: a draw selects the element at its index modulo the list length. Only which draws produce which trees is modelled, not how likely each tree is. The `weights` argument of `random_node` is left out for the same reason.
- The node subclasses that main.py imports (`AdditionNode` and the others, main.py:22-25) are not defined in function_tree.py and are not part of this model. `Generator.RandomNode` builds a base `Node` carrying the drawn tag, with value and LaTeX unset, as `Node.__init__` does by default. What the subclasses would store in `value` and `latex` is unknown, so `Generator.GrowUnset` and `Generator.GeneratedTreeLatex` hold of this stand-in only.
- The texts of the error messages: each error carries the rejected tag, category or height instead of the formatted sentence.
- Formatting.ExponentString: for a `Fraction` exponent, only the value of the reduced fraction is proved (`Formatting.ReducedRatioValue`). That its "p/q" text reads back is not proved.
- `Fraction` exponents are built from a positive denominator. Python's `Fraction` also normalises a negative denominator, and the model does not build such fractions.
- Template parameters are typed (`int` coefficients and bases, a string command, a whole or ratio exponent). Python's `**kwargs` would accept any value.
- `Trees.FunctionTree`, `Trees.Node.Height` and `Trees.Heights` are modelled only for a root without a parent. Python's `FunctionTree` accepts any node as its root (function_tree.py:35-36), but the only caller wraps the parentless root that `random_function_tree` returns (main.py:90).
- `Trees.Node.Height` and `Trees.Heights` take the tree's root as a ghost parameter, so the proof can name the tree. Python's `height` property reaches the root through `parent`.
- The order of the keys of the dictionary `levels` returns (ascending height, from the sort) is not modelled, because a Dafny map has no order. `Trees.LevelsContiguous` states which keys there are.
- `sorted` and `itertools.groupby` are modelled by their combined result (`Trees.Group`), not step by step.
- Generator.GrowTree: requires a height of at least 1. The source re-enters `random_function_tree` only with such heights, and `Generator.RandomFunctionTree` handles the others.
- Python generators (`yield`) become finite sequences, because nothing consumes them lazily.

## Findings

| source | as written | input that shows it | evidently intended | confidence | as-written member | corrected member |
|---|---|---|---|---|---|---|
| main.py:53-54 | the error message interpolates `node_type`, which is assigned only at line 56, so an unknown category raises UnboundLocalError and never the ValueError | `random_node('leaf')` | a ValueError naming the rejected category | high; not executed | Generator.CategoryErrorAsWritten | Generator.RandomNodeType |
