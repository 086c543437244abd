/**
 `canonicalize` and the `LabelFilter` type built on it: structural equality of
 filters is equality of truth tables, and display and parse are inverse.
 */
module Canonical {
  import opened LabelExpr
  import opened Diagram
  import opened Syntax
  import opened RoundTrip

  // ---- `BDD::to_expr`

  /**
   `BDD::to_expr` belongs to a library outside the repository. Everything below
   is proved for every way of writing a reduced diagram out as an expression
   that keeps its function, invents no variable, and writes constants and single
   labels as themselves.
   */
  ghost predicate IsRenderer(f: Bdd -> Expr) {
    && (forall b, s :: Eval(f(b), s) == BEval(b, s))
    && (forall b :: Terminals(f(b)) <= Vars(b))
    && (forall v :: f(Leaf(v)) == Const(v))
    && (forall n :: f(Node(n, Leaf(false), Leaf(true))) == Terminal(n))
  }

  /** One such way: expand on each variable in turn. */
  function Shannon(b: Bdd): Expr {
    match b
    case Leaf(v) => Const(v)
    case Node(v, lo, hi) =>
      if lo == Leaf(false) && hi == Leaf(true) then Terminal(v)
      else Or(And(Not(Terminal(v)), Shannon(lo)), And(Terminal(v), Shannon(hi)))
  }

  lemma {:induction false} ShannonMeaning(b: Bdd, s: set<string>)
    ensures Eval(Shannon(b), s) == BEval(b, s) && Terminals(Shannon(b)) <= Vars(b)
  {
    if b.Node? {
      ShannonMeaning(b.lo, s);
      ShannonMeaning(b.hi, s);
      var v := Terminal(b.v);
      if Shannon(b) != v {
        var l, r := And(Not(v), Shannon(b.lo)), And(v, Shannon(b.hi));
        assert Eval(Not(v), s) == (b.v !in s) && Terminals(Not(v)) == {b.v};
        assert Eval(l, s) == (b.v !in s && BEval(b.lo, s)) && Eval(r, s) == (b.v in s && BEval(b.hi, s));
        assert Terminals(l) <= Vars(b) && Terminals(r) <= Vars(b);
      }
    }
  }

  lemma ShannonIsRenderer()
    ensures IsRenderer(Shannon)
  {
    forall b, s ensures Eval(Shannon(b), s) == BEval(b, s) { ShannonMeaning(b, s); }
    forall b ensures Terminals(Shannon(b)) <= Vars(b) { ShannonMeaning(b, {}); }
  }

  // ---- Canonical form

  function SortPair(a: Expr, b: Expr): (Expr, Expr) {
    if StrLe(Display(a), Display(b)) then (a, b) else (b, a)
  }

  function SortChildren(e: Expr): Expr {
    match e
    case Not(x) => Not(SortChildren(x))
    case And(a, b) => var p := SortPair(SortChildren(a), SortChildren(b)); And(p.0, p.1)
    case Or(a, b) => var p := SortPair(SortChildren(a), SortChildren(b)); Or(p.0, p.1)
    case _ => e
  }

  function Canonicalize(e: Expr, render: Bdd -> Expr): Expr {
    if Terminals(e) == {} then Const(Eval(e, {}))
    else SortChildren(render(FromExpr(e)))
  }

  lemma {:induction false} SortChildrenMeaning(e: Expr, s: set<string>)
    ensures Eval(SortChildren(e), s) == Eval(e, s) && Terminals(SortChildren(e)) == Terminals(e)
  {
    match e
    case Not(x) => SortChildrenMeaning(x, s);
    case And(a, b) => SortChildrenMeaning(a, s); SortChildrenMeaning(b, s);
    case Or(a, b) => SortChildrenMeaning(a, s); SortChildrenMeaning(b, s);
    case _ =>
  }

  /** The children of every binary node end up in the order of their text. */
  predicate ChildrenSorted(e: Expr) {
    match e
    case Not(x) => ChildrenSorted(x)
    case And(a, b) => ChildrenSorted(a) && ChildrenSorted(b) && StrLe(Display(a), Display(b))
    case Or(a, b) => ChildrenSorted(a) && ChildrenSorted(b) && StrLe(Display(a), Display(b))
    case _ => true
  }

  lemma {:induction false} SortChildrenSorts(e: Expr)
    ensures ChildrenSorted(SortChildren(e))
  {
    match e
    case Not(x) => SortChildrenSorts(x);
    case And(a, b) =>
      SortChildrenSorts(a); SortChildrenSorts(b);
      StrLtTotal(Display(SortChildren(a)), Display(SortChildren(b)));
    case Or(a, b) =>
      SortChildrenSorts(a); SortChildrenSorts(b);
      StrLtTotal(Display(SortChildren(a)), Display(SortChildren(b)));
    case _ =>
  }

  /** The constant shortcut agrees with going through the diagram. */
  lemma ThroughDiagram(e: Expr, render: Bdd -> Expr)
    requires IsRenderer(render)
    ensures Canonicalize(e, render) == SortChildren(render(FromExpr(e)))
  {
    FromExprSound(e);
    if Terminals(e) == {} {
      assert FromExpr(e).Leaf?;
      assert BEval(FromExpr(e), {}) == Eval(e, {});
    }
  }

  /** Canonicalisation keeps the truth table and mentions no new label. */
  lemma CanonicalMeaning(e: Expr, render: Bdd -> Expr)
    requires IsRenderer(render)
    ensures Equivalent(Canonicalize(e, render), e)
    ensures Terminals(Canonicalize(e, render)) <= Terminals(e)
    ensures ChildrenSorted(Canonicalize(e, render))
  {
    ThroughDiagram(e, render);
    FromExprSound(e);
    var x := render(FromExpr(e));
    SortChildrenMeaning(x, {});
    SortChildrenSorts(x);
    forall s ensures Eval(Canonicalize(e, render), s) == Eval(e, s) {
      SortChildrenMeaning(x, s);
    }
  }

  /** Two expressions have the same canonical form exactly when no label set tells them apart. */
  lemma Canonicity(e: Expr, f: Expr, render: Bdd -> Expr)
    requires IsRenderer(render)
    ensures Canonicalize(e, render) == Canonicalize(f, render) <==> Equivalent(e, f)
  {
    if Equivalent(e, f) {
      FromExprSound(e);
      FromExprSound(f);
      assert SameFunction(FromExpr(e), FromExpr(f)) by {
        forall s ensures BEval(FromExpr(e), s) == BEval(FromExpr(f), s) {
          assert Eval(e, s) == Eval(f, s);
        }
      }
      Unique(FromExpr(e), FromExpr(f));
      ThroughDiagram(e, render);
      ThroughDiagram(f, render);
    }
    if Canonicalize(e, render) == Canonicalize(f, render) {
      CanonicalMeaning(e, render);
      CanonicalMeaning(f, render);
      forall s ensures Eval(e, s) == Eval(f, s) {
        assert Eval(Canonicalize(e, render), s) == Eval(e, s);
        assert Eval(Canonicalize(f, render), s) == Eval(f, s);
      }
    }
  }

  lemma CanonicalIdempotent(e: Expr, render: Bdd -> Expr)
    requires IsRenderer(render)
    ensures Canonicalize(Canonicalize(e, render), render) == Canonicalize(e, render)
  {
    CanonicalMeaning(e, render);
    Canonicity(Canonicalize(e, render), e, render);
  }

  /** The expression has the same value on every label set. */
  ghost predicate AlwaysIs(e: Expr, v: bool) {
    forall s :: Eval(e, s) == v
  }

  /** `is_tautology` and `is_contradiction` recognise exactly the constant truth tables. */
  lemma ConstantIff(e: Expr, v: bool, render: Bdd -> Expr)
    requires IsRenderer(render)
    ensures Canonicalize(e, render) == Const(v) <==> AlwaysIs(e, v)
  {
    Canonicity(e, Const(v), render);
    assert Canonicalize(Const(v), render) == Const(v);
    if AlwaysIs(e, v) {
      assert Equivalent(e, Const(v));
    }
    if Equivalent(e, Const(v)) {
      forall s ensures Eval(e, s) == v { assert Eval(e, s) == Eval(Const(v), s); }
      assert AlwaysIs(e, v);
    }
  }

  // ---- LabelFilter

  /** A filter's expression is always a canonical form over valid names. */
  ghost predicate IsFilter(f: Expr, render: Bdd -> Expr) {
    ValidNames(f) && Canonicalize(f, render) == f
  }

  /** `LabelFilter::parse`. */
  function Parse(s: string, render: Bdd -> Expr): Result<Expr> {
    match ParseRaw(s)
    case Ok(e) => Ok(Canonicalize(e, render))
    case Err => Err
  }

  function FromLabel(name: string): Expr { Terminal(name) }

  function FilterNot(f: Expr, render: Bdd -> Expr): Expr { Canonicalize(Not(f), render) }

  function FilterAnd(f: Expr, g: Expr, render: Bdd -> Expr): Expr { Canonicalize(And(f, g), render) }

  function FilterOr(f: Expr, g: Expr, render: Bdd -> Expr): Expr { Canonicalize(Or(f, g), render) }

  // Names that come out of the parser

  lemma {:induction false} LowerProperties(n: string)
    requires forall i :: 0 <= i < |n| ==> IsNameChar(n[i])
    ensures |Lower(n)| == |n|
    ensures forall i :: 0 <= i < |n| ==> Lower(n)[i] == LowerChar(n[i])
  {
    if n != "" { LowerProperties(n[1..]); }
  }

  lemma LeafValid(n: string)
    requires IsName(n)
    ensures ValidNames(LeafOf(n))
  {
    LowerProperties(n);
    forall i | 0 <= i < |n| ensures IsNameChar(Lower(n)[i]) && !IsUpper(Lower(n)[i]) {
      assert Lower(n)[i] == LowerChar(n[i]);
    }
  }

  lemma {:induction false} NameCharsOf(s: string, i: nat)
    requires i < NameLength(s)
    ensures IsNameChar(s[i])
  {
    if i > 0 { NameCharsOf(s[1..], i - 1); }
  }

  lemma {:induction false} UnaryValid(s: string)
    requires ParseUnary(s).Done?
    ensures ValidNames(ParseUnary(s).expr)
    decreases |s|, 0
  {
    var t := Trim(s);
    if t[0] == '!' {
      UnaryValid(t[1..]);
    } else if t[0] == '(' {
      OrValid(t[1..]);
    } else {
      var n := NameLength(t);
      forall i | 0 <= i < n ensures IsNameChar(t[..n][i]) { NameCharsOf(t, i); }
      LeafValid(t[..n]);
    }
  }

  lemma {:induction false} AndLoopValid(left: Expr, s: string)
    requires ValidNames(left)
    ensures ValidNames(AndLoop(left, s).expr)
    decreases |s|, 3
  {
    var t := Trim(s);
    if StartsWith(t, '&') && ParseUnary(t[1..]).Done? {
      UnaryValid(t[1..]);
      var p := ParseUnary(t[1..]);
      AndLoopValid(And(left, p.expr), p.rest);
    }
  }

  lemma {:induction false} AndValid(s: string)
    requires ParseAnd(s).Done?
    ensures ValidNames(ParseAnd(s).expr)
    decreases |s|, 1
  {
    UnaryValid(s);
    AndLoopValid(ParseUnary(s).expr, ParseUnary(s).rest);
  }

  lemma {:induction false} OrLoopValid(left: Expr, s: string)
    requires ValidNames(left)
    ensures ValidNames(OrLoop(left, s).expr)
    decreases |s|, 3
  {
    var t := Trim(s);
    if StartsWith(t, '|') && ParseAnd(t[1..]).Done? {
      AndValid(t[1..]);
      var p := ParseAnd(t[1..]);
      OrLoopValid(Or(left, p.expr), p.rest);
    }
  }

  /** Every name the parser produces is a lowercase, non-reserved label name. */
  lemma {:induction false} OrValid(s: string)
    requires ParseOr(s).Done?
    ensures ValidNames(ParseOr(s).expr)
    decreases |s|, 2
  {
    AndValid(s);
    OrLoopValid(ParseAnd(s).expr, ParseAnd(s).rest);
  }

  // ---- The promises of `LabelFilter`

  lemma CanonicalIsFilter(e: Expr, render: Bdd -> Expr)
    requires IsRenderer(render) && ValidNames(e)
    ensures IsFilter(Canonicalize(e, render), render)
  {
    CanonicalMeaning(e, render);
    CanonicalIdempotent(e, render);
  }

  /** Parsing gives a filter with the raw tree's truth table. */
  lemma ParseGivesFilter(s: string, render: Bdd -> Expr)
    requires IsRenderer(render) && Parse(s, render).Ok?
    ensures ParseRaw(s).Ok? && IsFilter(Parse(s, render).value, render)
    ensures Equivalent(Parse(s, render).value, ParseRaw(s).value)
  {
    OrValid(s);
    CanonicalIsFilter(ParseRaw(s).value, render);
    CanonicalMeaning(ParseRaw(s).value, render);
  }

  /** Display and parse are inverse on filters. */
  lemma DisplayParse(f: Expr, render: Bdd -> Expr)
    requires IsRenderer(render) && IsFilter(f, render)
    ensures Parse(Display(f), render) == Ok(f)
  {
    PrintParse(f);
    Canonicity(LeftAssoc(f), f, render);
  }

  /** Filters compare equal exactly when they select the same label sets. */
  lemma FilterEquality(f: Expr, g: Expr, render: Bdd -> Expr)
    requires IsRenderer(render) && IsFilter(f, render) && IsFilter(g, render)
    ensures f == g <==> Equivalent(f, g)
  {
    Canonicity(f, g, render);
  }

  /** The operators stay within filters and mean what they say; a label is already a filter. */
  lemma Operators(f: Expr, g: Expr, name: string, render: Bdd -> Expr)
    requires IsRenderer(render) && IsFilter(f, render) && IsFilter(g, render) && ValidName(name)
    ensures IsFilter(FilterNot(f, render), render) && forall s :: Eval(FilterNot(f, render), s) <==> !Eval(f, s)
    ensures IsFilter(FilterAnd(f, g, render), render)
    ensures forall s :: Eval(FilterAnd(f, g, render), s) <==> Eval(f, s) && Eval(g, s)
    ensures IsFilter(FilterOr(f, g, render), render)
    ensures forall s :: Eval(FilterOr(f, g, render), s) <==> Eval(f, s) || Eval(g, s)
    ensures IsFilter(FromLabel(name), render) && Parse(name, render) == Ok(FromLabel(name))
    ensures forall s :: Eval(FromLabel(name), s) <==> name in s
  {
    CanonicalIsFilter(Not(f), render);
    CanonicalMeaning(Not(f), render);
    CanonicalIsFilter(And(f, g), render);
    CanonicalMeaning(And(f, g), render);
    CanonicalIsFilter(Or(f, g), render);
    CanonicalMeaning(Or(f, g), render);
    forall s
      ensures Eval(FilterNot(f, render), s) <==> !Eval(f, s)
      ensures Eval(FilterAnd(f, g, render), s) <==> Eval(f, s) && Eval(g, s)
      ensures Eval(FilterOr(f, g, render), s) <==> Eval(f, s) || Eval(g, s)
    {
      assert Eval(FilterNot(f, render), s) == Eval(Not(f), s);
      assert Eval(FilterAnd(f, g, render), s) == Eval(And(f, g), s);
      assert Eval(FilterOr(f, g, render), s) == Eval(Or(f, g), s);
    }
    LowerFixed(name);
    NameText(name);
    UnaryIsAnd(name, Terminal(name));
    AndIsOr(name, Terminal(name));
    WholeText(name, Terminal(name));
    ThroughDiagram(Terminal(name), render);
  }

  /** Boolean algebra on filters is equality, e.g. merging duplicates and reordering. */
  lemma OperatorsCommute(f: Expr, g: Expr, render: Bdd -> Expr)
    requires IsRenderer(render) && IsFilter(f, render) && IsFilter(g, render)
    ensures FilterAnd(f, g, render) == FilterAnd(g, f, render)
    ensures FilterOr(f, g, render) == FilterOr(g, f, render)
    ensures FilterNot(FilterNot(f, render), render) == f
    ensures FilterOr(f, f, render) == f == FilterAnd(f, f, render)
  {
    Canonicity(And(f, g), And(g, f), render);
    Canonicity(Or(f, g), Or(g, f), render);
    CanonicalMeaning(Not(f), render);
    var n := FilterNot(f, render);
    forall s ensures Eval(Not(n), s) == Eval(f, s) { assert Eval(n, s) == Eval(Not(f), s); }
    Canonicity(Not(n), f, render);
    Canonicity(Or(f, f), f, render);
    Canonicity(And(f, f), f, render);
  }
}
