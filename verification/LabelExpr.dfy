/**
 Boolean expressions over label names, their truth on a set of labels, and the
 byte order on names that the canonicaliser sorts by.
 */
module LabelExpr {

  /** `Expr<String>` as label.rs uses it. */
  datatype Expr =
    | Terminal(name: string)
    | Const(value: bool)
    | Not(inner: Expr)
    | And(left: Expr, right: Expr)
    | Or(left: Expr, right: Expr)

  /** `matches_expr`: a terminal holds iff its name is among the labels. */
  predicate Eval(e: Expr, labels: set<string>) {
    match e
    case Terminal(n) => n in labels
    case Const(b) => b
    case Not(x) => !Eval(x, labels)
    case And(a, b) => Eval(a, labels) && Eval(b, labels)
    case Or(a, b) => Eval(a, labels) || Eval(b, labels)
  }

  function Terminals(e: Expr): set<string> {
    match e
    case Terminal(n) => {n}
    case Const(_) => {}
    case Not(x) => Terminals(x)
    case And(a, b) => Terminals(a) + Terminals(b)
    case Or(a, b) => Terminals(a) + Terminals(b)
  }

  /** Two expressions that no label set tells apart. */
  ghost predicate Equivalent(e: Expr, f: Expr) {
    forall labels :: Eval(e, labels) == Eval(f, labels)
  }

  // ---- The order of `str`

  predicate StrLt(a: string, b: string) {
    |b| > 0 && (|a| == 0 || a[0] < b[0] || (a[0] == b[0] && StrLt(a[1..], b[1..])))
  }

  predicate StrLe(a: string, b: string) {
    a == b || StrLt(a, b)
  }

  lemma {:induction false} StrLtIrreflexive(a: string)
    ensures !StrLt(a, a)
  {
    if |a| > 0 { StrLtIrreflexive(a[1..]); }
  }

  lemma {:induction false} StrLtTransitive(a: string, b: string, c: string)
    requires StrLt(a, b) && StrLt(b, c)
    ensures StrLt(a, c)
  {
    if |a| > 0 && a[0] == b[0] && b[0] == c[0] {
      StrLtTransitive(a[1..], b[1..], c[1..]);
    }
  }

  lemma {:induction false} StrLtTotal(a: string, b: string)
    ensures a == b || StrLt(a, b) || StrLt(b, a)
  {
    if |a| > 0 && |b| > 0 && a[0] == b[0] {
      StrLtTotal(a[1..], b[1..]);
      if a[1..] == b[1..] {
        assert a == [a[0]] + a[1..] && b == [b[0]] + b[1..];
      }
    }
  }

  /** A proper beginning of `b`, or smaller at the first place where the two differ. */
  ghost predicate Before(a: string, b: string) {
    || (|a| < |b| && b[..|a|] == a)
    || exists k :: DiffersAt(a, b, k) && a[k] < b[k]
  }

  ghost predicate DiffersAt(a: string, b: string, k: int) {
    0 <= k < |a| && k < |b| && a[..k] == b[..k] && a[k] != b[k]
  }

  /** The order is the dictionary order of the characters. */
  lemma {:induction false} StrLtIsBefore(a: string, b: string)
    ensures StrLt(a, b) <==> Before(a, b)
  {
    if |a| > 0 && |b| > 0 {
      StrLtIsBefore(a[1..], b[1..]);
      if a[0] != b[0] {
        assert DiffersAt(a, b, 0);
        forall k | DiffersAt(a, b, k) ensures k == 0 {
          if k > 0 { SameHead(a, b, k); }
        }
      } else {
        BeforeTail(a, b);
      }
    }
  }

  lemma SameHead(a: string, b: string, k: nat)
    requires 0 < k <= |a| && k <= |b| && a[..k] == b[..k]
    ensures a[0] == b[0]
  {
    assert a[..k][0] == a[0] && b[..k][0] == b[0];
  }

  lemma DiffersTail(a: string, b: string, k: int)
    requires |a| > 0 && |b| > 0 && a[0] == b[0]
    ensures DiffersAt(a, b, k + 1) <==> DiffersAt(a[1..], b[1..], k)
    ensures !DiffersAt(a, b, 0)
  {
    var c, d := a[1..], b[1..];
    if 0 <= k < |c| && k < |d| {
      assert a[..k + 1] == [a[0]] + c[..k] && b[..k + 1] == [b[0]] + d[..k];
      assert c[..k] == a[..k + 1][1..] && d[..k] == b[..k + 1][1..];
    }
  }

  lemma BeforeTail(a: string, b: string)
    requires |a| > 0 && |b| > 0 && a[0] == b[0]
    ensures Before(a, b) <==> Before(a[1..], b[1..])
  {
    var c, d := a[1..], b[1..];
    if |a| < |b| {
      assert b[..|a|] == [b[0]] + d[..|c|] && a == [a[0]] + c;
      assert d[..|c|] == b[..|a|][1..];
    }
    if k: int :| DiffersAt(a, b, k) && a[k] < b[k] {
      DiffersTail(a, b, k - 1);
      assert DiffersAt(c, d, k - 1) && c[k - 1] < d[k - 1];
    }
    if k: int :| DiffersAt(c, d, k) && c[k] < d[k] {
      DiffersTail(a, b, k);
      assert DiffersAt(a, b, k + 1) && a[k + 1] < b[k + 1];
    }
  }
}
