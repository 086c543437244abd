/**
 Reduced ordered binary decision diagrams over label names in alphabetical
 order: the function `BDD::from_expr` builds once `canonicalize` has seeded it
 with the sorted terminals. Sharing of nodes is structural equality here.
 */
module Diagram {
  import opened LabelExpr

  datatype Bdd = Leaf(value: bool) | Node(v: string, lo: Bdd, hi: Bdd)

  predicate BEval(b: Bdd, labels: set<string>) {
    match b
    case Leaf(x) => x
    case Node(v, lo, hi) => if v in labels then BEval(hi, labels) else BEval(lo, labels)
  }

  function Vars(b: Bdd): set<string> {
    match b
    case Leaf(_) => {}
    case Node(v, lo, hi) => {v} + Vars(lo) + Vars(hi)
  }

  /** `b` tests no variable at or before `x` first. */
  predicate Below(x: string, b: Bdd) {
    b.Leaf? || StrLt(x, b.v)
  }

  /** Ordered and reduced. */
  predicate Robdd(b: Bdd) {
    match b
    case Leaf(_) => true
    case Node(v, lo, hi) => lo != hi && Below(v, lo) && Below(v, hi) && Robdd(lo) && Robdd(hi)
  }

  function Size(b: Bdd): nat {
    match b
    case Leaf(_) => 0
    case Node(_, lo, hi) => 1 + Size(lo) + Size(hi)
  }

  // ---- Construction

  function Mk(v: string, lo: Bdd, hi: Bdd): Bdd {
    if lo == hi then lo else Node(v, lo, hi)
  }

  function Lo(b: Bdd, v: string): Bdd {
    if b.Node? && b.v == v then b.lo else b
  }

  function Hi(b: Bdd, v: string): Bdd {
    if b.Node? && b.v == v then b.hi else b
  }

  /** The alphabetically first of the top variables of `f` and, if not a leaf, `g`. */
  function Earlier(v: string, g: Bdd): string {
    if g.Node? && StrLt(g.v, v) then g.v else v
  }

  /** If-then-else, the one operation the others are built from. */
  function Ite(f: Bdd, g: Bdd, h: Bdd): Bdd
    decreases Size(f) + Size(g) + Size(h)
  {
    match f
    case Leaf(b) => if b then g else h
    case Node(fv, _, _) =>
      if g == h then g
      else if g == Leaf(true) && h == Leaf(false) then f
      else
        var v := Earlier(Earlier(fv, g), h);
        assert Size(Lo(f, v)) <= Size(f) && Size(Lo(g, v)) <= Size(g) && Size(Lo(h, v)) <= Size(h);
        assert Size(Hi(f, v)) <= Size(f) && Size(Hi(g, v)) <= Size(g) && Size(Hi(h, v)) <= Size(h);
        Mk(v, Ite(Lo(f, v), Lo(g, v), Lo(h, v)), Ite(Hi(f, v), Hi(g, v), Hi(h, v)))
  }

  /** `BDD::from_expr`. */
  function FromExpr(e: Expr): Bdd {
    match e
    case Terminal(n) => Node(n, Leaf(false), Leaf(true))
    case Const(b) => Leaf(b)
    case Not(x) => Ite(FromExpr(x), Leaf(false), Leaf(true))
    case And(a, b) => Ite(FromExpr(a), FromExpr(b), Leaf(false))
    case Or(a, b) => Ite(FromExpr(a), Leaf(true), FromExpr(b))
  }

  // ---- What construction keeps

  /** A variable that comes before all of a diagram's is not looked at. */
  lemma {:induction false} Independent(b: Bdd, x: string, s: set<string>, t: set<string>)
    requires Robdd(b) && Below(x, b)
    requires forall n :: n != x ==> (n in s <==> n in t)
    ensures BEval(b, s) == BEval(b, t)
  {
    if b.Node? {
      StrLtIrreflexive(x);
      forall c | c == b.lo || c == b.hi ensures Below(x, c) {
        if c.Node? { StrLtTransitive(x, b.v, c.v); }
      }
      Independent(b.lo, x, s, t);
      Independent(b.hi, x, s, t);
    }
  }

  lemma EarlierIsFirst(v: string, g: Bdd)
    ensures StrLe(Earlier(v, g), v)
    ensures g.Node? ==> StrLe(Earlier(v, g), g.v)
  {
    if g.Node? { StrLtTotal(v, g.v); }
  }

  lemma StrLeLt(a: string, b: string, c: string)
    requires StrLe(a, b) && StrLt(b, c)
    ensures StrLt(a, c)
  {
    if a != b { StrLtTransitive(a, b, c); }
  }

  lemma StrLeTransitive(a: string, b: string, c: string)
    requires StrLe(a, b) && StrLe(b, c)
    ensures StrLe(a, c)
  {
    if b != c { StrLeLt(a, b, c); }
  }

  /** Cofactors by a variable no later than the top stay diagrams, below that variable. */
  lemma CofactorsOrdered(b: Bdd, v: string)
    requires Robdd(b) && (b.Node? ==> StrLe(v, b.v))
    ensures Robdd(Lo(b, v)) && Below(v, Lo(b, v))
    ensures Robdd(Hi(b, v)) && Below(v, Hi(b, v))
  {
  }

  lemma {:induction false} IteOrdered(f: Bdd, g: Bdd, h: Bdd)
    requires Robdd(f) && Robdd(g) && Robdd(h)
    ensures Robdd(Ite(f, g, h))
    ensures forall x :: Below(x, f) && Below(x, g) && Below(x, h) ==> Below(x, Ite(f, g, h))
    decreases Size(f) + Size(g) + Size(h)
  {
    if f.Node? && g != h && !(g == Leaf(true) && h == Leaf(false)) {
      var v := TopOf(f, g, h);
      CofactorsOrdered(f, v);
      CofactorsOrdered(g, v);
      CofactorsOrdered(h, v);
      IteOrdered(Lo(f, v), Lo(g, v), Lo(h, v));
      IteOrdered(Hi(f, v), Hi(g, v), Hi(h, v));
      var lo := Ite(Lo(f, v), Lo(g, v), Lo(h, v));
      var hi := Ite(Hi(f, v), Hi(g, v), Hi(h, v));
      forall x | Below(x, f) && Below(x, g) && Below(x, h) ensures Below(x, Mk(v, lo, hi)) {
        assert StrLt(x, v);
        if lo == hi && lo.Node? { StrLtTransitive(x, v, lo.v); }
      }
    }
  }

  lemma TopOf(f: Bdd, g: Bdd, h: Bdd) returns (v: string)
    requires f.Node?
    ensures v == Earlier(Earlier(f.v, g), h)
    ensures StrLe(v, f.v) && (g.Node? ==> StrLe(v, g.v)) && (h.Node? ==> StrLe(v, h.v))
    ensures v == f.v || (g.Node? && v == g.v) || (h.Node? && v == h.v)
  {
    var w := Earlier(f.v, g);
    v := Earlier(w, h);
    EarlierIsFirst(f.v, g);
    EarlierIsFirst(w, h);
    StrLeTransitive(v, w, f.v);
    if g.Node? { StrLeTransitive(v, w, g.v); }
  }

  lemma {:induction false} IteMeaning(f: Bdd, g: Bdd, h: Bdd, s: set<string>)
    ensures BEval(Ite(f, g, h), s) == if BEval(f, s) then BEval(g, s) else BEval(h, s)
    decreases Size(f) + Size(g) + Size(h)
  {
    if f.Node? && g != h && !(g == Leaf(true) && h == Leaf(false)) {
      var v := TopOf(f, g, h);
      IteMeaning(Lo(f, v), Lo(g, v), Lo(h, v), s);
      IteMeaning(Hi(f, v), Hi(g, v), Hi(h, v), s);
    }
  }

  lemma {:induction false} IteVars(f: Bdd, g: Bdd, h: Bdd)
    ensures Vars(Ite(f, g, h)) <= Vars(f) + Vars(g) + Vars(h)
    decreases Size(f) + Size(g) + Size(h)
  {
    if f.Node? && g != h && !(g == Leaf(true) && h == Leaf(false)) {
      var v := TopOf(f, g, h);
      IteVars(Lo(f, v), Lo(g, v), Lo(h, v));
      IteVars(Hi(f, v), Hi(g, v), Hi(h, v));
      assert Vars(Lo(f, v)) <= Vars(f) && Vars(Lo(g, v)) <= Vars(g) && Vars(Lo(h, v)) <= Vars(h);
      assert Vars(Hi(f, v)) <= Vars(f) && Vars(Hi(g, v)) <= Vars(g) && Vars(Hi(h, v)) <= Vars(h);
    }
  }

  /** Building a diagram gives a reduced ordered one with the expression's truth table. */
  lemma {:induction false} FromExprSound(e: Expr)
    ensures Robdd(FromExpr(e)) && Vars(FromExpr(e)) <= Terminals(e)
    ensures forall s :: BEval(FromExpr(e), s) == Eval(e, s)
  {
    match e
    case Terminal(_) =>
    case Const(_) =>
    case Not(x) =>
      FromExprSound(x);
      IteSound(FromExpr(x), Leaf(false), Leaf(true));
    case And(a, b) =>
      FromExprSound(a);
      FromExprSound(b);
      IteSound(FromExpr(a), FromExpr(b), Leaf(false));
    case Or(a, b) =>
      FromExprSound(a);
      FromExprSound(b);
      IteSound(FromExpr(a), Leaf(true), FromExpr(b));
  }

  lemma IteSound(f: Bdd, g: Bdd, h: Bdd)
    requires Robdd(f) && Robdd(g) && Robdd(h)
    ensures Robdd(Ite(f, g, h)) && Vars(Ite(f, g, h)) <= Vars(f) + Vars(g) + Vars(h)
    ensures forall s :: BEval(Ite(f, g, h), s) == if BEval(f, s) then BEval(g, s) else BEval(h, s)
  {
    IteOrdered(f, g, h);
    IteVars(f, g, h);
    forall s ensures BEval(Ite(f, g, h), s) == if BEval(f, s) then BEval(g, s) else BEval(h, s) {
      IteMeaning(f, g, h, s);
    }
  }

  // ---- Uniqueness

  ghost predicate SameFunction(b: Bdd, c: Bdd) {
    forall s :: BEval(b, s) == BEval(c, s)
  }

  /** A reduced ordered diagram is determined by the function it computes. */
  lemma {:induction false} Unique(b: Bdd, c: Bdd)
    requires Robdd(b) && Robdd(c) && SameFunction(b, c)
    ensures b == c
    decreases Size(b) + Size(c)
  {
    if b.Leaf? && c.Leaf? {
      assert BEval(b, {}) == BEval(c, {});
    } else if b.Node? && (c.Leaf? || StrLt(b.v, c.v)) {
      TopIsTested(b, c);
    } else if c.Node? && (b.Leaf? || StrLt(c.v, b.v)) {
      TopIsTested(c, b);
    } else {
      StrLtTotal(b.v, c.v);
      CofactorsAgree(b, c);
      Unique(b.lo, c.lo);
      Unique(b.hi, c.hi);
    }
  }

  /** A diagram whose function ignored its own top variable would not be reduced. */
  lemma {:induction false} TopIsTested(b: Bdd, c: Bdd)
    requires Robdd(b) && Robdd(c) && b.Node? && Below(b.v, c)
    ensures !SameFunction(b, c)
    decreases Size(b) + Size(c), 0
  {
    if SameFunction(b, c) {
      forall s ensures BEval(b.lo, s) == BEval(b.hi, s) {
        var without, with := s - {b.v}, s + {b.v};
        Independent(b.lo, b.v, s, without);
        Independent(b.hi, b.v, s, with);
        Independent(c, b.v, with, without);
        assert BEval(b, without) == BEval(c, without) && BEval(b, with) == BEval(c, with);
      }
      Unique(b.lo, b.hi);
    }
  }

  lemma CofactorsAgree(b: Bdd, c: Bdd)
    requires Robdd(b) && Robdd(c) && b.Node? && c.Node? && b.v == c.v && SameFunction(b, c)
    ensures SameFunction(b.lo, c.lo) && SameFunction(b.hi, c.hi)
  {
    forall s ensures BEval(b.lo, s) == BEval(c.lo, s) && BEval(b.hi, s) == BEval(c.hi, s) {
      var without, with := s - {b.v}, s + {b.v};
      Independent(b.lo, b.v, s, without);
      Independent(c.lo, b.v, s, without);
      Independent(b.hi, b.v, s, with);
      Independent(c.hi, b.v, s, with);
      assert BEval(b, without) == BEval(c, without) && BEval(b, with) == BEval(c, with);
    }
  }
}
