/**
 What a piece of text parses to inside any larger text, level by level of the
 grammar, and from it: printing then parsing is re-association.
 */
module RoundTrip {
  import opened LabelExpr
  import opened Syntax

  /** `rest` does not prolong a name that ends right before it. */
  ghost predicate Breaks(rest: string) {
    rest == "" || !IsNameChar(rest[0])
  }

  /** `t` is read as the operand `e`, whatever follows. */
  ghost predicate UnaryText(t: string, e: Expr) {
    forall rest {:trigger ParseUnary(t + rest)} :: Breaks(rest) ==> ParseUnary(t + rest) == Done(e, rest)
  }

  /** `t` is read as the conjunction `e` so far; parsing goes on with what follows. */
  ghost predicate AndText(t: string, e: Expr) {
    forall rest {:trigger ParseAnd(t + rest)} :: Breaks(rest) ==> ParseAnd(t + rest) == AndLoop(e, rest)
  }

  ghost predicate OrText(t: string, e: Expr) {
    forall rest {:trigger ParseOr(t + rest)} ::
      Breaks(rest) && !StartsWith(Trim(rest), '&') ==> ParseOr(t + rest) == OrLoop(e, rest)
  }

  // ---- Composition

  lemma {:induction false} NameLengthOf(n: string, rest: string)
    requires forall i :: 0 <= i < |n| ==> IsNameChar(n[i])
    requires Breaks(rest)
    ensures NameLength(n + rest) == |n|
  {
    if n == "" {
      assert n + rest == rest;
    } else {
      assert (n + rest)[1..] == n[1..] + rest;
      NameLengthOf(n[1..], rest);
    }
  }

  lemma NameText(n: string)
    requires IsName(n)
    ensures UnaryText(n, LeafOf(n))
  {
    forall rest | Breaks(rest) ensures ParseUnary(n + rest) == Done(LeafOf(n), rest) {
      NameLengthOf(n, rest);
      assert (n + rest)[..|n|] == n && (n + rest)[|n|..] == rest;
      assert Trim(n + rest) == n + rest;
    }
  }

  lemma NotTextAt(t: string, e: Expr, rest: string)
    requires ParseUnary(t + rest) == Done(e, rest)
    ensures ParseUnary("!" + t + rest) == Done(Not(e), rest)
  {
    var s := "!" + t + rest;
    assert Trim(s) == s && s[1..] == t + rest;
  }

  lemma NotText(t: string, e: Expr)
    requires UnaryText(t, e)
    ensures UnaryText("!" + t, Not(e))
  {
    forall rest | Breaks(rest) ensures ParseUnary("!" + t + rest) == Done(Not(e), rest) {
      NotTextAt(t, e, rest);
    }
  }

  lemma UnaryIsAnd(t: string, e: Expr)
    requires UnaryText(t, e)
    ensures AndText(t, e)
  {
  }

  /** Leading blanks make no difference. */
  lemma SkipBlank(s: string)
    ensures ParseUnary(" " + s) == ParseUnary(s)
    ensures ParseAnd(" " + s) == ParseAnd(s)
  {
    assert (" " + s)[1..] == s;
    assert Trim(" " + s) == Trim(s);
  }

  lemma Regroup(a: string, b: string, c: string, d: string)
    ensures a + b + c + d == a + (b + c + d)
  {
  }

  lemma AndLoopStep(el: Expr, r: string, er: Expr, rest: string)
    requires ParseUnary(r + rest) == Done(er, rest)
    ensures AndLoop(el, " & " + r + rest) == AndLoop(And(el, er), rest)
  {
    var tail := " & " + r + rest;
    assert tail[1..][1..] == " " + (r + rest);
    assert Trim(tail) == tail[1..];
    SkipBlank(r + rest);
  }

  lemma AndJoinAt(l: string, el: Expr, r: string, er: Expr, rest: string)
    requires ParseUnary(r + rest) == Done(er, rest)
    requires ParseAnd(l + (" & " + r + rest)) == AndLoop(el, " & " + r + rest)
    ensures ParseAnd(l + " & " + r + rest) == AndLoop(And(el, er), rest)
  {
    AndLoopStep(el, r, er, rest);
    Regroup(l, " & ", r, rest);
  }

  lemma AndJoin(l: string, el: Expr, r: string, er: Expr)
    requires AndText(l, el) && UnaryText(r, er)
    ensures AndText(l + " & " + r, And(el, er))
  {
    forall rest | Breaks(rest) ensures ParseAnd(l + " & " + r + rest) == AndLoop(And(el, er), rest) {
      var tail := " & " + r + rest;
      assert Breaks(tail);
      assert ParseAnd(l + tail) == AndLoop(el, tail);
      AndJoinAt(l, el, r, er, rest);
    }
  }

  lemma AndIsOr(t: string, e: Expr)
    requires AndText(t, e)
    ensures OrText(t, e)
  {
  }

  lemma AndLoopStops(e: Expr, rest: string)
    requires !StartsWith(Trim(rest), '&')
    ensures AndLoop(e, rest) == Done(e, rest)
  {
  }

  lemma OrLoopStep(el: Expr, r: string, er: Expr, rest: string)
    requires ParseAnd(r + rest) == Done(er, rest)
    ensures OrLoop(el, " | " + r + rest) == OrLoop(Or(el, er), rest)
  {
    var tail := " | " + r + rest;
    assert tail[1..][1..] == " " + (r + rest);
    assert Trim(tail) == tail[1..];
    SkipBlank(r + rest);
  }

  lemma OrJoinAt(l: string, el: Expr, r: string, er: Expr, rest: string)
    requires ParseAnd(r + rest) == Done(er, rest)
    requires ParseOr(l + (" | " + r + rest)) == OrLoop(el, " | " + r + rest)
    ensures ParseOr(l + " | " + r + rest) == OrLoop(Or(el, er), rest)
  {
    OrLoopStep(el, r, er, rest);
    Regroup(l, " | ", r, rest);
  }

  lemma OrJoin(l: string, el: Expr, r: string, er: Expr)
    requires OrText(l, el) && AndText(r, er)
    ensures OrText(l + " | " + r, Or(el, er))
  {
    forall rest | Breaks(rest) && !StartsWith(Trim(rest), '&')
      ensures ParseOr(l + " | " + r + rest) == OrLoop(Or(el, er), rest)
    {
      var tail := " | " + r + rest;
      assert Breaks(tail) && Trim(tail) == tail[1..];
      assert ParseOr(l + tail) == OrLoop(el, tail);
      AndLoopStops(er, rest);
      OrJoinAt(l, el, r, er, rest);
    }
  }

  lemma ParenTextAt(t: string, e: Expr, rest: string)
    requires ParseOr(t + (")" + rest)) == Done(e, ")" + rest)
    ensures ParseUnary("(" + t + ")" + rest) == Done(e, rest)
  {
    var s, tail := "(" + t + ")" + rest, ")" + rest;
    assert s[1..] == t + tail && tail[1..] == rest;
    assert Trim(s) == s && Trim(tail) == tail;
  }

  lemma ParenText(t: string, e: Expr)
    requires OrText(t, e)
    ensures UnaryText("(" + t + ")", e)
  {
    forall rest | Breaks(rest) ensures ParseUnary("(" + t + ")" + rest) == Done(e, rest) {
      var tail := ")" + rest;
      assert Breaks(tail) && Trim(tail) == tail;
      assert ParseOr(t + tail) == OrLoop(e, tail);
      ParenTextAt(t, e, rest);
    }
  }

  lemma WholeText(t: string, e: Expr)
    requires OrText(t, e)
    ensures ParseRaw(t) == Ok(e)
  {
    assert Breaks("") && t + "" == t;
    assert OrLoop(e, "") == Done(e, "");
  }

  // ---- Printing and parsing

  lemma {:induction false} LowerFixed(n: string)
    requires forall i :: 0 <= i < |n| ==> !IsUpper(n[i])
    ensures Lower(n) == n
  {
    if n != "" { LowerFixed(n[1..]); }
  }

  lemma LeafText(e: Expr)
    requires (e.Terminal? && ValidName(e.name)) || e.Const?
    ensures UnaryText(Format(e, 2), e)
  {
    var t := Format(e, 2);
    LowerFixed(t);
    NameText(t);
  }

  lemma {:induction false} FormatIsUnary(e: Expr)
    requires ValidNames(e)
    ensures UnaryText(Format(e, 2), LeftAssoc(e))
    decreases e, 2
  {
    match e
    case Terminal(_) => LeafText(e);
    case Const(_) => LeafText(e);
    case Not(x) =>
      FormatIsUnary(x);
      NotText(Format(x, 2), LeftAssoc(x));
    case And(_, _) =>
      FormatIsOr(e);
      ParenText(Format(e, 0), LeftAssoc(e));
    case Or(_, _) =>
      FormatIsOr(e);
      ParenText(Format(e, 0), LeftAssoc(e));
  }

  lemma {:induction false} FormatIsAnd(e: Expr)
    requires ValidNames(e)
    ensures AndText(Format(e, 1), LeftAssoc(e))
    decreases e, if e.And? then 0 else 3
  {
    if e.And? {
      FormatIsAnd(e.left);
      FormatOntoAnd(Format(e.left, 1), LeftAssoc(e.left), e.right);
    } else if e.Or? {
      FormatIsUnary(e);
      UnaryIsAnd(Format(e, 1), LeftAssoc(e));
    } else {
      FormatIsUnary(e);
      UnaryIsAnd(Format(e, 1), LeftAssoc(e));
    }
  }

  /** Appending a printed tree to a conjunction attaches its conjuncts one by one. */
  lemma {:induction false} FormatOntoAnd(l: string, el: Expr, e: Expr)
    requires ValidNames(e) && AndText(l, el)
    ensures AndText(l + " & " + Format(e, 1), AttachAnd(el, e))
    decreases e, 4
  {
    if e.And? {
      FormatOntoAnd(l, el, e.left);
      var m := l + " & " + Format(e.left, 1);
      FormatOntoAnd(m, AttachAnd(el, e.left), e.right);
      assert m + " & " + Format(e.right, 1) == l + " & " + Format(e, 1);
    } else {
      FormatIsUnary(e);
      assert Format(e, 1) == Format(e, 2);
      AndJoin(l, el, Format(e, 1), LeftAssoc(e));
    }
  }

  lemma {:induction false} FormatIsOr(e: Expr)
    requires ValidNames(e)
    ensures OrText(Format(e, 0), LeftAssoc(e))
    decreases e, if e.Or? || e.And? then 1 else 4
  {
    if e.Or? {
      FormatIsOr(e.left);
      FormatOntoOr(Format(e.left, 0), LeftAssoc(e.left), e.right);
    } else {
      FormatIsAnd(e);
      assert Format(e, 0) == Format(e, 1);
      AndIsOr(Format(e, 0), LeftAssoc(e));
    }
  }

  lemma {:induction false} FormatOntoOr(l: string, el: Expr, e: Expr)
    requires ValidNames(e) && OrText(l, el)
    ensures OrText(l + " | " + Format(e, 0), AttachOr(el, e))
    decreases e, 5
  {
    if e.Or? {
      FormatOntoOr(l, el, e.left);
      var m := l + " | " + Format(e.left, 0);
      FormatOntoOr(m, AttachOr(el, e.left), e.right);
      assert m + " | " + Format(e.right, 0) == l + " | " + Format(e, 0);
    } else {
      FormatIsAnd(e);
      assert Format(e, 0) == Format(e, 1);
      OrJoin(l, el, Format(e, 0), LeftAssoc(e));
    }
  }

  /** Parsing printed text succeeds and gives the tree with its chains nested to the left. */
  lemma PrintParse(e: Expr)
    requires ValidNames(e)
    ensures ParseRaw(Display(e)) == Ok(LeftAssoc(e))
    ensures Equivalent(LeftAssoc(e), e)
  {
    FormatIsOr(e);
    WholeText(Display(e), LeftAssoc(e));
    LeftAssocEquivalent(e);
  }

  // ---- Text that is known to parse on its own, in parentheses

  lemma {:induction false} TrimAppend(s: string, t: string)
    requires t != "" && !IsSpace(t[0])
    ensures Trim(s + t) == Trim(s) + t
  {
    if s == "" {
      assert s + t == t;
    } else if IsSpace(s[0]) {
      assert (s + t)[1..] == s[1..] + t;
      TrimAppend(s[1..], t);
    }
  }

  lemma {:induction false} NameLengthAppend(s: string, t: string)
    requires t != "" && !IsNameChar(t[0])
    ensures NameLength(s + t) == NameLength(s)
  {
    if s == "" {
      assert s + t == t;
    } else if IsNameChar(s[0]) {
      assert (s + t)[1..] == s[1..] + t;
      NameLengthAppend(s[1..], t);
    }
  }

  lemma NameExtends(u: string, t: string)
    requires StartsWith(t, ')') && u != "" && IsNameStart(u[0])
    ensures ParseUnary(u + t) == Done(ParseUnary(u).expr, ParseUnary(u).rest + t)
  {
    NameLengthAppend(u, t);
    var n := NameLength(u);
    assert (u + t)[..n] == u[..n] && (u + t)[n..] == u[n..] + t;
    assert Trim(u) == u && Trim(u + t) == u + t;
  }

  lemma CloseExtends(rest: string, t: string)
    requires StartsWith(t, ')') && StartsWith(Trim(rest), ')')
    ensures StartsWith(Trim(rest + t), ')') && Trim(rest + t)[1..] == Trim(rest)[1..] + t
  {
    TrimAppend(rest, t);
    assert (Trim(rest) + t)[1..] == Trim(rest)[1..] + t;
  }

  /** Leading blanks are skipped. */
  lemma UnaryTrims(s: string)
    ensures ParseUnary(s) == ParseUnary(Trim(s))
  {
    TrimTwice(s);
  }

  lemma {:induction false} TrimTwice(s: string)
    ensures Trim(Trim(s)) == Trim(s)
  {
    if s != "" && IsSpace(s[0]) { TrimTwice(s[1..]); }
  }

  lemma {:induction false} UnaryExtends(s: string, t: string)
    requires StartsWith(t, ')') && ParseUnary(s).Done?
    ensures ParseUnary(s + t) == Done(ParseUnary(s).expr, ParseUnary(s).rest + t)
    decreases |s|, 0
  {
    var u := Trim(s);
    TrimAppend(s, t);
    UnaryTrims(s);
    UnaryTrims(s + t);
    TrimTwice(s);
    TrimAppend(u, t);
    assert (u + t)[0] == u[0] && (u + t)[1..] == u[1..] + t;
    if u[0] == '!' {
      UnaryExtends(u[1..], t);
    } else if u[0] == '(' {
      OrExtends(u[1..], t);
      CloseExtends(ParseOr(u[1..]).rest, t);
    } else {
      NameExtends(u, t);
    }
  }

  lemma {:induction false} AndLoopExtends(left: Expr, s: string, t: string)
    requires StartsWith(t, ')') && !StartsWith(Trim(AndLoop(left, s).rest), '&')
    ensures AndLoop(left, s + t) == Done(AndLoop(left, s).expr, AndLoop(left, s).rest + t)
    decreases |s|, 3
  {
    var u := Trim(s);
    TrimAppend(s, t);
    if StartsWith(u, '&') {
      assert (u + t)[1..] == u[1..] + t;
      UnaryExtends(u[1..], t);
      var p := ParseUnary(u[1..]);
      AndLoopExtends(And(left, p.expr), p.rest, t);
    }
  }

  lemma {:induction false} AndExtends(s: string, t: string)
    requires StartsWith(t, ')') && ParseAnd(s).Done? && !StartsWith(Trim(ParseAnd(s).rest), '&')
    ensures ParseAnd(s + t) == Done(ParseAnd(s).expr, ParseAnd(s).rest + t)
    decreases |s|, 1
  {
    UnaryExtends(s, t);
    AndLoopExtends(ParseUnary(s).expr, ParseUnary(s).rest, t);
  }

  /** The rest after a disjunction begins with no operator that could have been read on. */
  ghost predicate Complete(rest: string) {
    !StartsWith(Trim(rest), '&') && !StartsWith(Trim(rest), '|')
  }

  lemma {:induction false} OrLoopExtends(left: Expr, s: string, t: string)
    requires StartsWith(t, ')') && Complete(OrLoop(left, s).rest)
    ensures OrLoop(left, s + t) == Done(OrLoop(left, s).expr, OrLoop(left, s).rest + t)
    decreases |s|, 3
  {
    var u := Trim(s);
    TrimAppend(s, t);
    if StartsWith(u, '|') {
      assert (u + t)[1..] == u[1..] + t;
      var p := ParseAnd(u[1..]);
      assert p.Done? && OrLoop(left, s) == OrLoop(Or(left, p.expr), p.rest);
      AndExtends(u[1..], t);
      OrLoopExtends(Or(left, p.expr), p.rest, t);
    }
  }

  lemma {:induction false} OrExtends(s: string, t: string)
    requires StartsWith(t, ')') && ParseOr(s).Done? && Complete(ParseOr(s).rest)
    ensures ParseOr(s + t) == Done(ParseOr(s).expr, ParseOr(s).rest + t)
    decreases |s|, 2
  {
    var p := ParseAnd(s);
    AndExtends(s, t);
    OrLoopExtends(p.expr, p.rest, t);
  }

  /** Any text that parses can be used as an operand by putting it in parentheses. */
  lemma Parenthesise(a: string, e: Expr)
    requires ParseRaw(a) == Ok(e)
    ensures UnaryText("(" + a + ")", e)
  {
    forall rest | Breaks(rest) ensures ParseUnary("(" + a + ")" + rest) == Done(e, rest) {
      ParenthesiseAt(a, e, rest);
    }
  }

  lemma ParenthesiseAt(a: string, e: Expr, rest: string)
    requires ParseRaw(a) == Ok(e)
    ensures ParseUnary("(" + a + ")" + rest) == Done(e, rest)
  {
    var s, tail := "(" + a + ")" + rest, ")" + rest;
    assert s[1..] == a + tail && tail[1..] == rest;
    assert Trim(s) == s;
    OrExtends(a, tail);
    TrimAppend(ParseOr(a).rest, tail);
    assert Trim(ParseOr(a).rest) + tail == tail;
  }
}
