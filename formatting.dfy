/** The plain-value and LaTeX templates of formatting.py: a node-type tag (a string, as in the
    source) plus the node's parameters are mapped to a string, and every tag outside the two
    fixed tag sets is rejected with an error instead of a raised ValueError. */
module Formatting {
  import opened Wrappers
  import opened Decimal

  /** The four operator tags and the nine function tags recognised by the dispatchers. */
  const OperatorTags: set<string> := {"ADDITION", "SUBTRACTION", "MULTIPLICATION", "DIVISION"}
  const FunctionTags: set<string> :=
    {"CONSTANT", "INT MONOMIAL", "FRAC MONOMIAL", "NATURAL EXP", "EXP",
     "NATURAL LOG", "LOG", "TRIG", "INVERSE TRIG"}

  /** The three ValueError conditions, each carrying the offending tag. */
  datatype FormatError =
    | InvalidNodeType(nodeType: string)
    | InvalidOperatorType(operatorType: string)
    | InvalidFunctionType(functionType: string)

  type Positive = n: int | n > 0 witness 1

  /** An exponent is a Python int or a Fraction built from a numerator and a positive denominator. */
  datatype Exponent = Whole(n: int) | Ratio(num: int, den: Positive)

  /** The keyword arguments of the LaTeX templates; `DefaultArgs` holds the source's defaults. */
  datatype LatexArgs = LatexArgs(
    coefficient: int,
    exponent: Exponent,
    maxHeight: int,
    base: int,
    trig: string,
    inverseTrig: string)

  const DefaultArgs := LatexArgs(1, Whole(1), 1, 2, "sin", "sin^{-1}")

  /** The placeholder argument `\left( {x} \right)` used by the non-leaf and application templates. */
  const ApplyToX := "\\left( {x} \\right)"

  // ---------------------------------------------------------------------------------------------
  // Plain values

  const OperatorValues: map<string, string> :=
    map["ADDITION" := "+", "SUBTRACTION" := "-", "MULTIPLICATION" := "*", "DIVISION" := "/"]

  const FunctionValues: map<string, string> :=
    map["CONSTANT" := "C", "INT MONOMIAL" := "x^n", "FRAC MONOMIAL" := "x^{m/n}",
        "NATURAL EXP" := "e^x", "EXP" := "a^x", "NATURAL LOG" := "ln(x)",
        "LOG" := "log_b(x)", "TRIG" := "trig(x)", "INVERSE TRIG" := "trig^{-1}(x)"]

  /** Dictionary lookup of an operator's plain value. The table is total on exactly the operator
      tags, and every entry is a one-character symbol. */
  function FormatOperatorValue(operatorType: string): (r: Result<string, FormatError>)
    ensures r.Success? <==> operatorType in OperatorTags
    ensures r.Failure? ==> r.error == InvalidOperatorType(operatorType)
    ensures r.Success? ==> |r.value| == 1
  {
    if operatorType !in OperatorValues then Failure(InvalidOperatorType(operatorType))
    else Success(OperatorValues[operatorType])
  }

  /** Dictionary lookup of a function's plain value; total on exactly the function tags. */
  function FormatFunctionValue(functionType: string): (r: Result<string, FormatError>)
    ensures r.Success? <==> functionType in FunctionTags
    ensures r.Failure? ==> r.error == InvalidFunctionType(functionType)
    ensures r.Success? ==> |r.value| >= 1
  {
    if functionType !in FunctionValues then Failure(InvalidFunctionType(functionType))
    else Success(FunctionValues[functionType])
  }

  /** Routes operator tags to the operator table and function tags to the function table;
      any other tag is an invalid node type. */
  function FormatValue(nodeType: string): (r: Result<string, FormatError>)
    ensures r.Success? <==> nodeType in OperatorTags || nodeType in FunctionTags
    ensures nodeType in OperatorTags ==> r == FormatOperatorValue(nodeType)
    ensures nodeType in FunctionTags ==> r == FormatFunctionValue(nodeType)
    ensures r.Failure? ==> r.error == InvalidNodeType(nodeType)
  {
    if nodeType in OperatorTags then FormatOperatorValue(nodeType)
    else if nodeType in FunctionTags then FormatFunctionValue(nodeType)
    else Failure(InvalidNodeType(nodeType))
  }

  // ---------------------------------------------------------------------------------------------
  // Parameter renderings

  /** Euclid's algorithm; `Fraction` divides numerator and denominator by this value. */
  function Gcd(a: nat, b: nat): (g: nat)
    ensures b > 0 ==> g > 0
    decreases b
  {
    if b == 0 then a else Gcd(b, a % b)
  }

  lemma MultipleMod(g: int, m: int)
    requires g > 0
    ensures (g * m) % g == 0
  {
    var q, r := (g * m) / g, (g * m) % g;
    assert g * (m - q) == r;
    if m - q >= 1 {
      assert false;
    } else if m - q <= -1 {
      assert false;
    }
  }

  /** A linear combination of two multiples of `g` is a multiple of `g`. */
  lemma DividesCombination(g: int, b: int, r: int, q: int)
    requires g > 0 && b % g == 0 && r % g == 0
    ensures (q * b + r) % g == 0
  {
    var k1, k2 := b / g, r / g;
    assert b == g * k1;
    assert r == g * k2;
    assert q * b == g * (q * k1) by {
      assert q * (g * k1) == g * (q * k1);
    }
    assert q * b + r == g * (q * k1 + k2);
    MultipleMod(g, q * k1 + k2);
  }

  /** The value Euclid's algorithm returns divides both of its arguments. */
  lemma {:induction false} GcdDivides(a: nat, b: nat)
    requires b > 0
    ensures a % Gcd(a, b) == 0 && b % Gcd(a, b) == 0
    decreases b
  {
    var r := a % b;
    if r == 0 {
      MultipleMod(b, 1);
    } else {
      GcdDivides(b, r);
      assert a == (a / b) * b + r;
      DividesCombination(Gcd(b, r), b, r, a / b);
    }
  }

  /** A multiple of `g` is `g` times its quotient. */
  lemma ExactQuotient(x: int, g: int)
    requires g > 0 && x % g == 0
    ensures x == g * (x / g)
  {
  }

  /** A value is a multiple of `g` when its negation is. */
  lemma NegatedMultiple(x: int, g: int)
    requires g > 0 && (-x) % g == 0
    ensures x % g == 0
  {
    ExactQuotient(-x, g);
    assert x == g * (-((-x) / g));
    MultipleMod(g, -((-x) / g));
  }

  /** Cross-multiplying two fractions that share the factor `g`. */
  lemma CrossMultiply(g: int, n: int, d: int)
    ensures n * (g * d) == d * (g * n)
  {
  }

  /** Reducing a fraction by the gcd keeps its value: the printed numerator over the printed
      denominator equals `num / den`, and the printed denominator stays positive. */
  lemma ReducedRatioValue(num: int, den: Positive)
    ensures var g := Gcd(if num < 0 then -num else num, den);
      g > 0 && den / g > 0 && (num / g) * den == (den / g) * num
  {
    var a := if num < 0 then -num else num;
    var g := Gcd(a, den);
    GcdDivides(a, den);
    if num < 0 {
      NegatedMultiple(num, g);
    }
    ExactQuotient(num, g);
    ExactQuotient(den, g);
    var n', d' := num / g, den / g;
    assert d' > 0 by {
      if d' <= 0 {
        assert false;
      }
    }
    CrossMultiply(g, n', d');
  }

  /** Python's `Fraction.__eq__` against 1 (and `int == 1`). */
  predicate IsOne(e: Exponent) {
    match e
    case Whole(n) => n == 1
    case Ratio(p, q) => p == q
  }

  /** `str` of an exponent: a Fraction is reduced first and printed without a denominator of 1. */
  function ExponentString(e: Exponent): (s: string)
    ensures |s| >= 1
    ensures e.Whole? ==> ParseInt(s) == Some(e.n)
  {
    match e
    case Whole(n) =>
      IntToStringRoundTrip(n);
      IntToString(n)
    case Ratio(p, q) =>
      var g := Gcd(if p < 0 then -p else p, q);
      var (num, den) := (p / g, q / g);
      if den == 1 then IntToString(num) else IntToString(num) + "/" + IntToString(den)
  }

  /** `_format_exponent_latex`: empty exactly when the exponent equals 1. */
  function ExponentLatex(e: Exponent): (r: string)
    ensures r == "" <==> IsOne(e)
    ensures !IsOne(e) ==> r == ExponentString(e)
  {
    if IsOne(e) then "" else ExponentString(e)
  }

  /** `_format_coefficient_latex`: empty exactly when the coefficient is 1, and otherwise a decimal
      rendering that reads back as the coefficient. */
  function CoefficientLatex(coefficient: int): (r: string)
    ensures r == "" <==> coefficient == 1
    ensures coefficient != 1 ==> ParseInt(r) == Some(coefficient)
  {
    IntToStringRoundTrip(coefficient);
    if coefficient == 1 then "" else IntToString(coefficient)
  }

  // ---------------------------------------------------------------------------------------------
  // The nine function templates

  /** `_format_constant_latex`: the coefficient itself, with no unit-omission rule. */
  function ConstantLatex(coefficient: int): (r: string)
    ensures ParseInt(r) == Some(coefficient)
  {
    IntToStringRoundTrip(coefficient);
    IntToString(coefficient)
  }

  /** The variable and caret that follow the coefficient in both monomial templates: a bare `x`
      at height 1, the wrapped `\left( {x} \right)` at every other height. */
  function MonomialBase(maxHeight: int): string {
    if maxHeight == 1 then "x^" else ApplyToX + "^"
  }

  /** `r` is `text` behind the coefficient prefix: every template but CONSTANT has this form. */
  predicate CoefficientThen(r: string, coefficient: int, text: string) {
    r == CoefficientLatex(coefficient) + text
  }

  /** What the coefficient prefix means for a rendering: it is exactly the template's text when
      the coefficient is 1, and otherwise the text follows a decimal that reads back as the
      coefficient. */
  lemma CoefficientReadsBack(r: string, coefficient: int, text: string)
    requires CoefficientThen(r, coefficient, text)
    ensures |r| >= |text| && r[|r| - |text|..] == text
    ensures r == text <==> coefficient == 1
    ensures coefficient != 1 ==> ParseInt(r[..|r| - |text|]) == Some(coefficient)
  {
    assert r[|r| - |text|..] == text;
    assert r[..|r| - |text|] == CoefficientLatex(coefficient);
  }

  /** `_format_int_monomial_latex`: the coefficient prefix, the height-aware base, then the
      exponent with no braces. */
  function IntMonomialLatex(coefficient: int, exponent: Exponent, maxHeight: int): (r: string)
    ensures CoefficientThen(r, coefficient, MonomialBase(maxHeight) + ExponentLatex(exponent))
  {
    CoefficientLatex(coefficient) + (MonomialBase(maxHeight) + ExponentLatex(exponent))
  }

  /** `_format_frac_monomial_latex`: as the INT variant, but the exponent sits in braces. */
  function FracMonomialLatex(coefficient: int, exponent: Exponent, maxHeight: int): (r: string)
    ensures CoefficientThen(r, coefficient, MonomialBase(maxHeight) + ("{" + ExponentLatex(exponent) + "}"))
  {
    CoefficientLatex(coefficient) + (MonomialBase(maxHeight) + ("{" + ExponentLatex(exponent) + "}"))
  }

  /** `_format_natural_exp_latex`: the coefficient prefix, then `e^{x}`. */
  function NaturalExpLatex(coefficient: int): (r: string)
    ensures CoefficientThen(r, coefficient, "e^{x}")
  {
    CoefficientLatex(coefficient) + "e^{x}"
  }

  /** `_format_exp_latex`: the coefficient prefix, then ` \cdot `, the base in decimal and `^{x}`. */
  function ExpLatex(coefficient: int, base: int): (r: string)
    ensures CoefficientThen(r, coefficient, " \\cdot " + IntToString(base) + "^{x}")
  {
    CoefficientLatex(coefficient) + (" \\cdot " + IntToString(base) + "^{x}")
  }

  /** The shape the NATURAL LOG, LOG, TRIG and INVERSE TRIG templates share: the coefficient, a
      backslash command, then the wrapped argument `\left( {x} \right)`. */
  function ApplicationLatex(coefficient: int, command: string): (r: string)
    ensures CoefficientThen(r, coefficient, "\\" + command + ApplyToX)
  {
    CoefficientLatex(coefficient) + ("\\" + command + ApplyToX)
  }

  /** `_format_natural_log_latex`: the application template with the command `ln`. */
  function NaturalLogLatex(coefficient: int): (r: string)
    ensures CoefficientThen(r, coefficient, "\\ln" + ApplyToX)
  {
    assert "\\" + "ln" == "\\ln";
    ApplicationLatex(coefficient, "ln")
  }

  /** `_format_log_latex`: the application template with the command `log_` and the base. */
  function LogLatex(coefficient: int, base: int): (r: string)
    ensures CoefficientThen(r, coefficient, "\\log_" + IntToString(base) + ApplyToX)
  {
    AppendAssociative("\\", "log_", IntToString(base));
    assert "\\" + "log_" == "\\log_";
    ApplicationLatex(coefficient, "log_" + IntToString(base))
  }

  /** `_format_trig_latex`: the application template with the trigonometric function as command. */
  function TrigLatex(coefficient: int, trig: string): (r: string)
    ensures CoefficientThen(r, coefficient, "\\" + trig + ApplyToX)
  {
    ApplicationLatex(coefficient, trig)
  }

  /** `_format_inverse_trig_latex`: the application template with the inverse function as command. */
  function InverseTrigLatex(coefficient: int, inverseTrig: string): (r: string)
    ensures CoefficientThen(r, coefficient, "\\" + inverseTrig + ApplyToX)
  {
    ApplicationLatex(coefficient, inverseTrig)
  }

  // ---------------------------------------------------------------------------------------------
  // LaTeX dispatch

  /** The tags the LaTeX dispatchers compare against, as a sum type. */
  datatype OperatorType = Addition | Subtraction | Multiplication | Division

  datatype FunctionType =
    | Constant | IntMonomial | FracMonomial | NaturalExp | Exp
    | NaturalLog | Log | Trig | InverseTrig

  function OperatorTag(o: OperatorType): string {
    match o
    case Addition => "ADDITION"
    case Subtraction => "SUBTRACTION"
    case Multiplication => "MULTIPLICATION"
    case Division => "DIVISION"
  }

  function FunctionTag(f: FunctionType): string {
    match f
    case Constant => "CONSTANT"
    case IntMonomial => "INT MONOMIAL"
    case FracMonomial => "FRAC MONOMIAL"
    case NaturalExp => "NATURAL EXP"
    case Exp => "EXP"
    case NaturalLog => "NATURAL LOG"
    case Log => "LOG"
    case Trig => "TRIG"
    case InverseTrig => "INVERSE TRIG"
  }

  /** The if/elif chain of `_format_operator_latex` read as a parser: it recognises exactly the
      operator tags, and what it recognises is the tag's own operator. */
  function ParseOperatorType(operatorType: string): (r: Option<OperatorType>)
    ensures r.Some? <==> operatorType in OperatorTags
    ensures r.Some? ==> OperatorTag(r.value) == operatorType
    ensures forall o: OperatorType :: operatorType == OperatorTag(o) ==> r == Some(o)
  {
    if operatorType == "ADDITION" then Some(Addition)
    else if operatorType == "SUBTRACTION" then Some(Subtraction)
    else if operatorType == "MULTIPLICATION" then Some(Multiplication)
    else if operatorType == "DIVISION" then Some(Division)
    else None
  }

  /** The if/elif chain of `_format_function_latex` read as a parser: it recognises exactly the
      function tags, and what it recognises is the tag's own function. */
  function ParseFunctionType(functionType: string): (r: Option<FunctionType>)
    ensures r.Some? <==> functionType in FunctionTags
    ensures r.Some? ==> FunctionTag(r.value) == functionType
    ensures forall f: FunctionType :: functionType == FunctionTag(f) ==> r == Some(f)
  {
    if functionType == "CONSTANT" then Some(Constant)
    else if functionType == "INT MONOMIAL" then Some(IntMonomial)
    else if functionType == "FRAC MONOMIAL" then Some(FracMonomial)
    else if functionType == "NATURAL EXP" then Some(NaturalExp)
    else if functionType == "EXP" then Some(Exp)
    else if functionType == "NATURAL LOG" then Some(NaturalLog)
    else if functionType == "LOG" then Some(Log)
    else if functionType == "TRIG" then Some(Trig)
    else if functionType == "INVERSE TRIG" then Some(InverseTrig)
    else None
  }

  /** The LaTeX symbol of an operator: the plain symbol of the value table, except that
      multiplication is implicit and writes nothing. */
  function OperatorSymbol(o: OperatorType): (r: string)
    ensures o == Multiplication ==> r == ""
    ensures o != Multiplication ==> r == OperatorValues[OperatorTag(o)] && |r| == 1
  {
    match o
    case Addition => "+"
    case Subtraction => "-"
    case Multiplication => ""
    case Division => "/"
  }

  /** `_format_operator_latex`: `+`, `-`, the empty string for implicit multiplication, and `/`
      for division; the empty symbol belongs to multiplication alone. */
  function FormatOperatorLatex(operatorType: string): (r: Result<string, FormatError>)
    ensures r.Success? <==> operatorType in OperatorTags
    ensures r.Failure? ==> r.error == InvalidOperatorType(operatorType)
    ensures r == Success("") <==> operatorType == "MULTIPLICATION"
    ensures forall o: OperatorType :: operatorType == OperatorTag(o) ==> r == Success(OperatorSymbol(o))
  {
    match ParseOperatorType(operatorType)
    case None => Failure(InvalidOperatorType(operatorType))
    case Some(o) => Success(OperatorSymbol(o))
  }

  /** What each template other than CONSTANT writes after the coefficient prefix, read off the
      format strings: a reference table independent of the template functions. */
  function TemplateText(f: FunctionType, args: LatexArgs): string {
    match f
    case Constant => ""
    case IntMonomial => MonomialBase(args.maxHeight) + ExponentLatex(args.exponent)
    case FracMonomial => MonomialBase(args.maxHeight) + ("{" + ExponentLatex(args.exponent) + "}")
    case NaturalExp => "e^{x}"
    case Exp => " \\cdot " + IntToString(args.base) + "^{x}"
    case NaturalLog => "\\ln" + ApplyToX
    case Log => "\\log_" + IntToString(args.base) + ApplyToX
    case Trig => "\\" + args.trig + ApplyToX
    case InverseTrig => "\\" + args.inverseTrig + ApplyToX
  }

  /** The template each function tag selects, applied to the keyword arguments it reads: CONSTANT
      prints the coefficient itself, every other template prints its own text behind the
      coefficient prefix. */
  function FunctionTemplate(f: FunctionType, args: LatexArgs): (r: string)
    ensures f == Constant ==> ParseInt(r) == Some(args.coefficient)
    ensures f != Constant ==> CoefficientThen(r, args.coefficient, TemplateText(f, args))
  {
    match f
    case Constant => ConstantLatex(args.coefficient)
    case IntMonomial => IntMonomialLatex(args.coefficient, args.exponent, args.maxHeight)
    case FracMonomial => FracMonomialLatex(args.coefficient, args.exponent, args.maxHeight)
    case NaturalExp => NaturalExpLatex(args.coefficient)
    case Exp => ExpLatex(args.coefficient, args.base)
    case NaturalLog => NaturalLogLatex(args.coefficient)
    case Log => LogLatex(args.coefficient, args.base)
    case Trig => TrigLatex(args.coefficient, args.trig)
    case InverseTrig => InverseTrigLatex(args.coefficient, args.inverseTrig)
  }

  /** `_format_function_latex`: one template per function tag, an error for any other tag. */
  function FormatFunctionLatex(functionType: string, args: LatexArgs): (r: Result<string, FormatError>)
    ensures r.Success? <==> functionType in FunctionTags
    ensures r.Failure? ==> r.error == InvalidFunctionType(functionType)
    ensures forall f: FunctionType :: functionType == FunctionTag(f) ==> r == Success(FunctionTemplate(f, args))
  {
    match ParseFunctionType(functionType)
    case None => Failure(InvalidFunctionType(functionType))
    case Some(f) => Success(FunctionTemplate(f, args))
  }

  /** `_format_latex`: operator tags ignore the keyword arguments, function tags use them, and
      every other tag is an invalid node type. */
  function FormatLatex(nodeType: string, args: LatexArgs): (r: Result<string, FormatError>)
    ensures r.Success? <==> nodeType in OperatorTags || nodeType in FunctionTags
    ensures nodeType in OperatorTags ==> r == FormatOperatorLatex(nodeType)
    ensures nodeType in FunctionTags ==> r == FormatFunctionLatex(nodeType, args)
    ensures r.Failure? ==> r.error == InvalidNodeType(nodeType)
  {
    if nodeType in OperatorTags then FormatOperatorLatex(nodeType)
    else if nodeType in FunctionTags then FormatFunctionLatex(nodeType, args)
    else Failure(InvalidNodeType(nodeType))
  }

  // ---------------------------------------------------------------------------------------------
  // Properties

  /** The renderings under the templates' default arguments: a coefficient and exponent of 1
      are omitted from the monomial, while the constant prints its 1 and EXP keeps its `\cdot`. */
  lemma DefaultRenderings(f: FunctionType)
    ensures f == Constant ==> FormatLatex("CONSTANT", DefaultArgs) == Success("1")
    ensures f == IntMonomial ==> FormatLatex("INT MONOMIAL", DefaultArgs) == Success("x^")
    ensures f == FracMonomial ==> FormatLatex("FRAC MONOMIAL", DefaultArgs) == Success("x^{}")
    ensures f == Exp ==> FormatLatex("EXP", DefaultArgs) == Success(" \\cdot 2^{x}")
    ensures f == Trig ==> FormatLatex("TRIG", DefaultArgs) == Success("\\sin" + ApplyToX)
  {
    var args := DefaultArgs;
    FunctionDispatch(f, args);
    assert IntToString(1) == "1" && IntToString(2) == "2";
    assert CoefficientLatex(1) == "" && ExponentLatex(Whole(1)) == "";
    match f
    case IntMonomial =>
      assert FunctionTemplate(IntMonomial, args) == "" + ("x^" + "");
      assert "" + ("x^" + "") == "x^";
    case FracMonomial =>
      assert FunctionTemplate(FracMonomial, args) == "" + ("x^" + ("{" + "" + "}"));
      assert "" + ("x^" + ("{" + "" + "}")) == "x^{}";
    case Exp =>
      assert FunctionTemplate(Exp, args) == "" + (" \\cdot " + "2" + "^{x}");
      assert "" + (" \\cdot " + "2" + "^{x}") == " \\cdot 2^{x}";
    case Trig =>
      assert FunctionTemplate(Trig, args) == "" + ("\\" + "sin" + ApplyToX);
      assert "" + ("\\" + "sin" + ApplyToX) == "\\sin" + ApplyToX;
    case _ =>
  }

  /** Each function tag selects its own template, the one named after it, fed the keyword
      arguments that template reads. */
  lemma TagSelectsTemplate(f: FunctionType, args: LatexArgs)
    ensures f == Constant ==> FormatLatex("CONSTANT", args) == Success(ConstantLatex(args.coefficient))
    ensures f == IntMonomial ==>
      FormatLatex("INT MONOMIAL", args) == Success(IntMonomialLatex(args.coefficient, args.exponent, args.maxHeight))
    ensures f == FracMonomial ==>
      FormatLatex("FRAC MONOMIAL", args) == Success(FracMonomialLatex(args.coefficient, args.exponent, args.maxHeight))
    ensures f == NaturalExp ==> FormatLatex("NATURAL EXP", args) == Success(NaturalExpLatex(args.coefficient))
    ensures f == Exp ==> FormatLatex("EXP", args) == Success(ExpLatex(args.coefficient, args.base))
    ensures f == NaturalLog ==> FormatLatex("NATURAL LOG", args) == Success(NaturalLogLatex(args.coefficient))
    ensures f == Log ==> FormatLatex("LOG", args) == Success(LogLatex(args.coefficient, args.base))
    ensures f == Trig ==> FormatLatex("TRIG", args) == Success(TrigLatex(args.coefficient, args.trig))
    ensures f == InverseTrig ==>
      FormatLatex("INVERSE TRIG", args) == Success(InverseTrigLatex(args.coefficient, args.inverseTrig))
  {
    FunctionDispatch(f, args);
  }

  /** A function tag reaches the function dispatcher, which selects that function's template. */
  lemma FunctionDispatch(f: FunctionType, args: LatexArgs)
    ensures FormatLatex(FunctionTag(f), args) == Success(FunctionTemplate(f, args))
  {
    assert FunctionTag(f) in FunctionTags;
  }

  /** No tag is both an operator and a function, so the routing of the dispatchers is unambiguous. */
  lemma TagSetsDisjoint()
    ensures OperatorTags !! FunctionTags
    ensures |OperatorTags| == 4 && |FunctionTags| == 9
  {
  }

  /** The tag parsers invert the tag names: every operator and every function is recognised
      from its own tag. */
  lemma TagRoundTrip(o: OperatorType, f: FunctionType)
    ensures ParseOperatorType(OperatorTag(o)) == Some(o)
    ensures ParseFunctionType(FunctionTag(f)) == Some(f)
  {
  }

  /** The plain value and the LaTeX symbol of an operator coincide except for multiplication,
      whose plain `*` becomes implicit juxtaposition; distinct operators get distinct symbols. */
  lemma OperatorValueVersusLatex(o: OperatorType)
    ensures o != Multiplication ==>
      FormatOperatorLatex(OperatorTag(o)) == FormatOperatorValue(OperatorTag(o))
    ensures o == Multiplication ==>
      FormatOperatorValue(OperatorTag(o)) == Success("*") && FormatOperatorLatex(OperatorTag(o)) == Success("")
    ensures forall other: OperatorType :: other != o ==> OperatorSymbol(other) != OperatorSymbol(o)
  {
    TagRoundTrip(o, Constant);
  }

  /** A coefficient rendering determines the coefficient. */
  lemma CoefficientLatexInjective(c1: int, c2: int)
    requires CoefficientLatex(c1) == CoefficientLatex(c2)
    ensures c1 == c2
  {
    if c1 != 1 && c2 != 1 {
      assert Some(c1) == ParseInt(CoefficientLatex(c1)) == Some(c2);
    }
  }

  /** Two strings that end with the same suffix and are equal have equal prefixes. */
  lemma CancelSuffix(p1: string, p2: string, suffix: string)
    requires p1 + suffix == p2 + suffix
    ensures p1 == p2
  {
    assert |p1| == |p2|;
    assert p1 == (p1 + suffix)[..|p1|];
    assert p2 == (p2 + suffix)[..|p2|];
  }

  /** Two strings that start with the same prefix and are equal have equal suffixes. */
  lemma CancelPrefix(prefix: string, s1: string, s2: string)
    requires prefix + s1 == prefix + s2
    ensures s1 == s2
  {
    assert s1 == (prefix + s1)[|prefix|..];
    assert s2 == (prefix + s2)[|prefix|..];
  }

  /** The templates other than CONSTANT all start with the coefficient prefix, after which comes
      a body that does not depend on the coefficient and does not start with a digit: a
      coefficient of 1 therefore contributes nothing, never a leading "1". CONSTANT is the
      exception: it renders its coefficient, 1 included. */
  lemma IntMonomialCoefficientPrefix(coefficient: int, exponent: Exponent, maxHeight: int)
    ensures var body := IntMonomialLatex(1, exponent, maxHeight);
      IntMonomialLatex(coefficient, exponent, maxHeight) == CoefficientLatex(coefficient) + body &&
      |body| > 0 && body[0] == (if maxHeight == 1 then 'x' else '\\')
  {
    assert CoefficientLatex(1) == "";
  }

  lemma FracMonomialCoefficientPrefix(coefficient: int, exponent: Exponent, maxHeight: int)
    ensures var body := FracMonomialLatex(1, exponent, maxHeight);
      FracMonomialLatex(coefficient, exponent, maxHeight) == CoefficientLatex(coefficient) + body &&
      |body| > 0 && body[0] == (if maxHeight == 1 then 'x' else '\\')
  {
    assert CoefficientLatex(1) == "";
  }

  lemma NaturalExpCoefficientPrefix(coefficient: int)
    ensures NaturalExpLatex(coefficient) == CoefficientLatex(coefficient) + NaturalExpLatex(1)
    ensures |NaturalExpLatex(1)| > 0 && NaturalExpLatex(1)[0] == 'e'
  {
    assert CoefficientLatex(1) == "";
  }

  lemma ExpCoefficientPrefix(coefficient: int, base: int)
    ensures ExpLatex(coefficient, base) == CoefficientLatex(coefficient) + ExpLatex(1, base)
    ensures |ExpLatex(1, base)| > 0 && ExpLatex(1, base)[0] == ' '
  {
    assert CoefficientLatex(1) == "";
  }

  lemma ApplicationCoefficientPrefix(coefficient: int, command: string)
    ensures ApplicationLatex(coefficient, command) == CoefficientLatex(coefficient) + ApplicationLatex(1, command)
    ensures |ApplicationLatex(1, command)| > 0 && ApplicationLatex(1, command)[0] == '\\'
  {
    assert CoefficientLatex(1) == "";
  }

  lemma UnitCoefficientOmitted(f: FunctionType, args: LatexArgs)
    ensures f != Constant ==>
      var body := FunctionTemplate(f, args.(coefficient := 1));
      FunctionTemplate(f, args) == CoefficientLatex(args.coefficient) + body &&
      |body| > 0 && !IsDigit(body[0])
    ensures f == Constant ==> FunctionTemplate(f, args) == IntToString(args.coefficient)
  {
    var c := args.coefficient;
    match f
    case Constant =>
    case IntMonomial =>
      IntMonomialCoefficientPrefix(c, args.exponent, args.maxHeight);
    case FracMonomial =>
      FracMonomialCoefficientPrefix(c, args.exponent, args.maxHeight);
    case NaturalExp =>
      NaturalExpCoefficientPrefix(c);
    case Exp =>
      ExpCoefficientPrefix(c, args.base);
    case NaturalLog =>
      ApplicationCoefficientPrefix(c, "ln");
    case Log =>
      ApplicationCoefficientPrefix(c, "log_" + IntToString(args.base));
    case Trig =>
      ApplicationCoefficientPrefix(c, args.trig);
    case InverseTrig =>
      ApplicationCoefficientPrefix(c, args.inverseTrig);
  }

  /** The LaTeX of a function node determines its coefficient: two renderings with the same tag
      and the same other parameters are equal only when the coefficients are equal. */
  lemma FunctionLatexDeterminesCoefficient(f: FunctionType, args: LatexArgs, c1: int, c2: int)
    requires FunctionTemplate(f, args.(coefficient := c1)) == FunctionTemplate(f, args.(coefficient := c2))
    ensures c1 == c2
  {
    if f == Constant {
      IntToStringInjective(c1, c2);
    } else {
      UnitCoefficientOmitted(f, args.(coefficient := c1));
      UnitCoefficientOmitted(f, args.(coefficient := c2));
      var body := FunctionTemplate(f, args.(coefficient := 1));
      assert args.(coefficient := c1).(coefficient := 1) == args.(coefficient := 1);
      assert args.(coefficient := c2).(coefficient := 1) == args.(coefficient := 1);
      CancelSuffix(CoefficientLatex(c1), CoefficientLatex(c2), body);
      CoefficientLatexInjective(c1, c2);
    }
  }

  /** The monomial templates are height-aware: height 1 writes the bare `x`, every other height
      writes the same wrapped `\left( {x} \right)`, and the two forms never coincide. */
  lemma MonomialTemplatesHeightAware(coefficient: int, exponent: Exponent, maxHeight: int)
    ensures maxHeight != 1 ==>
      IntMonomialLatex(coefficient, exponent, maxHeight) == IntMonomialLatex(coefficient, exponent, 2) &&
      FracMonomialLatex(coefficient, exponent, maxHeight) == FracMonomialLatex(coefficient, exponent, 2)
    ensures IntMonomialLatex(coefficient, exponent, 1) != IntMonomialLatex(coefficient, exponent, 2)
    ensures FracMonomialLatex(coefficient, exponent, 1) != FracMonomialLatex(coefficient, exponent, 2)
  {
    var prefix, e := CoefficientLatex(coefficient), ExponentLatex(exponent);
    assert |IntMonomialLatex(coefficient, exponent, 1)| == |prefix| + 2 + |e|;
    assert |IntMonomialLatex(coefficient, exponent, 2)| == |prefix| + |ApplyToX| + 1 + |e|;
    assert |FracMonomialLatex(coefficient, exponent, 1)| == |prefix| + 4 + |e|;
    assert |FracMonomialLatex(coefficient, exponent, 2)| == |prefix| + |ApplyToX| + 3 + |e|;
  }

  /** Appending is associative. */
  lemma AppendAssociative(a: string, b: string, c: string)
    ensures (a + b) + c == a + (b + c)
  {
  }

  /** The FRAC variant renders the same head as the INT variant and wraps the exponent in braces. */
  lemma FracMonomialBracesExponent(coefficient: int, exponent: Exponent, maxHeight: int)
    ensures var i := IntMonomialLatex(coefficient, exponent, maxHeight);
      var e := ExponentLatex(exponent);
      |i| >= |e| &&
      FracMonomialLatex(coefficient, exponent, maxHeight) == i[..|i| - |e|] + ("{" + e + "}")
  {
    var prefix, base, e := CoefficientLatex(coefficient), MonomialBase(maxHeight), ExponentLatex(exponent);
    var i := IntMonomialLatex(coefficient, exponent, maxHeight);
    AppendAssociative(prefix, base, e);
    assert i[..|i| - |e|] == prefix + base;
    AppendAssociative(prefix, base, "{" + e + "}");
  }

  /** Integer monomials of the same coefficient and height with different integer exponents
      render differently. */
  lemma IntMonomialDeterminesExponent(coefficient: int, n1: int, n2: int, maxHeight: int)
    requires IntMonomialLatex(coefficient, Whole(n1), maxHeight) == IntMonomialLatex(coefficient, Whole(n2), maxHeight)
    ensures n1 == n2
  {
    var prefix, base := CoefficientLatex(coefficient), MonomialBase(maxHeight);
    var e1, e2 := ExponentLatex(Whole(n1)), ExponentLatex(Whole(n2));
    CancelPrefix(prefix, base + e1, base + e2);
    CancelPrefix(base, e1, e2);
    if n1 != 1 && n2 != 1 {
      assert Some(n1) == ParseInt(ExponentString(Whole(n1))) == Some(n2);
    }
  }

  /** The EXP template keeps its ` \cdot ` even when the coefficient prefix is empty. */
  lemma ExpAlwaysHasCdot(coefficient: int, base: int)
    ensures var r, k := ExpLatex(coefficient, base), |CoefficientLatex(coefficient)|;
      |r| >= k + 7 && r[k..k + 7] == " \\cdot "
    ensures coefficient == 1 ==> ExpLatex(coefficient, base)[..7] == " \\cdot "
  {
    var r := ExpLatex(coefficient, base);
    var i := |CoefficientLatex(coefficient)|;
    assert r[i..i + 7] == " \\cdot ";
  }

  /** An application template is the coefficient prefix, a backslash, the command, and the
      wrapped argument `\left( {x} \right)`; the command can be read back from between the
      backslash and the argument. */
  lemma ApplicationTemplates(coefficient: int, command: string)
    ensures var r, k := ApplicationLatex(coefficient, command), |CoefficientLatex(coefficient)|;
      |r| == k + 1 + |command| + |ApplyToX| &&
      r[..k] == CoefficientLatex(coefficient) &&
      r[k] == '\\' &&
      r[k + 1..|r| - |ApplyToX|] == command &&
      r[|r| - |ApplyToX|..] == ApplyToX
  {
    CommandLayout(CoefficientLatex(coefficient), command, ApplyToX);
  }

  /** Where the pieces of `prefix + ("\\" + command + suffix)` lie. */
  lemma CommandLayout(prefix: string, command: string, suffix: string)
    ensures var r, k := prefix + ("\\" + command + suffix), |prefix|;
      |r| == k + 1 + |command| + |suffix| &&
      r[..k] == prefix && r[k] == '\\' &&
      r[k + 1..|r| - |suffix|] == command && r[|r| - |suffix|..] == suffix
  {
    var r, k := prefix + ("\\" + command + suffix), |prefix|;
    assert r[..k] == prefix;
    assert r[k..] == "\\" + command + suffix;
    assert r[k + 1..|r| - |suffix|] == r[k..][1..|r| - k - |suffix|];
  }
}
