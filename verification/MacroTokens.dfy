/**
 The attribute macro's token grammar read backwards: every tree has a token
 sequence that stands for it, so what the tokens denote is fixed from outside.
 */
module MacroTokens {
  import opened LabelExpr
  import opened Syntax
  import opened RoundTrip
  import opened SerialFilter

  /** The tokens of a tree, in parentheses where the place binds tighter. */
  function TokensOf(e: Expr, minPrec: nat): seq<Token> {
    var body :=
      match e
      case Terminal(n) => [Ident(n)]
      case Const(_) => [Other]
      case Not(x) => [Bang] + TokensOf(x, 2)
      case And(a, b) => TokensOf(a, 1) + [Amp] + TokensOf(b, 1)
      case Or(a, b) => TokensOf(a, 0) + [Bar] + TokensOf(b, 0);
    if Precedence(e) < minPrec then [Paren(body)] else body
  }

  /** Only names: the literals are Rust keywords, no identifiers. */
  predicate NoConstants(e: Expr) {
    match e
    case Terminal(_) => true
    case Const(_) => false
    case Not(x) => NoConstants(x)
    case And(a, b) => NoConstants(a) && NoConstants(b)
    case Or(a, b) => NoConstants(a) && NoConstants(b)
  }

  ghost predicate Writable(e: Expr) { ValidNames(e) && NoConstants(e) }

  lemma ReadParen(e: Expr, body: seq<Token>, rest: seq<Token>)
    requires TokenOr(body) == Denotes(e, [])
    ensures TokenNot([Paren(body)] + rest) == Denotes(e, rest)
  {
    assert ([Paren(body)] + rest)[1..] == rest;
  }

  lemma {:induction false} ReadNot(e: Expr, rest: seq<Token>)
    requires Writable(e)
    ensures TokenNot(TokensOf(e, 2) + rest) == Denotes(LeftAssoc(e), rest)
    decreases e, 1
  {
    var ts := TokensOf(e, 2) + rest;
    if e.And? || e.Or? {
      ReadOr(e, []);
      assert TokensOf(e, 0) + [] == TokensOf(e, 0);
      ReadParen(LeftAssoc(e), TokensOf(e, 0), rest);
    } else if e.Not? {
      ReadNot(e.inner, rest);
      assert ts[1..] == TokensOf(e.inner, 2) + rest;
    } else {
      assert e.name in Terminals(e);
      LowerFixed(e.name);
      assert ts[1..] == rest;
    }
  }

  lemma {:induction false} ReadAnd(e: Expr, rest: seq<Token>)
    requires Writable(e)
    ensures TokenAnd(TokensOf(e, 1) + rest) == TokenAndLoop(LeftAssoc(e), rest)
    decreases e, 2
  {
    if e.And? {
      var tail := [Amp] + TokensOf(e.right, 1) + rest;
      assert TokensOf(e, 1) + rest == TokensOf(e.left, 1) + tail;
      ReadAnd(e.left, tail);
      ReadOntoAnd(LeftAssoc(e.left), e.right, rest);
    } else {
      ReadNot(e, rest);
      assert TokensOf(e, 1) == TokensOf(e, 2);
    }
  }

  /** One more operand, or a whole chain of them, behind an `&`. */
  lemma {:induction false} ReadOntoAnd(left: Expr, e: Expr, rest: seq<Token>)
    requires Writable(e)
    ensures TokenAndLoop(left, [Amp] + TokensOf(e, 1) + rest) == TokenAndLoop(AttachAnd(left, e), rest)
    decreases e, 3
  {
    var ts := [Amp] + TokensOf(e, 1) + rest;
    if e.And? {
      var tail := [Amp] + TokensOf(e.right, 1) + rest;
      assert ts == [Amp] + TokensOf(e.left, 1) + tail;
      ReadOntoAnd(left, e.left, tail);
      ReadOntoAnd(AttachAnd(left, e.left), e.right, rest);
    } else {
      ReadNot(e, rest);
      assert ts[1..] == TokensOf(e, 2) + rest;
    }
  }

  lemma {:induction false} ReadOr(e: Expr, rest: seq<Token>)
    requires Writable(e) && !Peek(rest, Amp)
    ensures TokenOr(TokensOf(e, 0) + rest) == TokenOrLoop(LeftAssoc(e), rest)
    decreases e, if e.Or? || e.And? then 0 else 3
  {
    if e.Or? {
      var tail := [Bar] + TokensOf(e.right, 0) + rest;
      assert TokensOf(e, 0) + rest == TokensOf(e.left, 0) + tail;
      ReadOr(e.left, tail);
      ReadOntoOr(LeftAssoc(e.left), e.right, rest);
    } else if e.And? {
      var tail := [Amp] + TokensOf(e.right, 1) + rest;
      assert TokensOf(e, 0) + rest == TokensOf(e.left, 1) + tail;
      ReadAnd(e.left, tail);
      ReadOntoAnd(LeftAssoc(e.left), e.right, rest);
    } else {
      ReadAnd(e, rest);
      assert TokensOf(e, 0) == TokensOf(e, 1);
    }
  }

  lemma {:induction false} ReadOntoOr(left: Expr, e: Expr, rest: seq<Token>)
    requires Writable(e) && !Peek(rest, Amp)
    ensures TokenOrLoop(left, [Bar] + TokensOf(e, 0) + rest) == TokenOrLoop(AttachOr(left, e), rest)
    decreases e, 4
  {
    var ts := [Bar] + TokensOf(e, 0) + rest;
    if e.Or? {
      var tail := [Bar] + TokensOf(e.right, 0) + rest;
      assert ts == [Bar] + TokensOf(e.left, 0) + tail;
      ReadOntoOr(left, e.left, tail);
      ReadOntoOr(AttachOr(left, e.left), e.right, rest);
    } else {
      ReadAnd(e, rest);
      assert TokensOf(e, 0) == TokensOf(e, 1);
      assert ts[1..] == TokensOf(e, 1) + rest;
    }
  }

  /** The tokens of every tree over valid names denote that tree, its chains nested to the left. */
  lemma TokensRoundTrip(e: Expr)
    requires ValidNames(e) && NoConstants(e)
    ensures TokenOr(TokensOf(e, 0)) == Denotes(LeftAssoc(e), [])
    ensures Equivalent(LeftAssoc(e), e)
  {
    ReadOr(e, []);
    assert TokensOf(e, 0) + [] == TokensOf(e, 0);
    LeftAssocEquivalent(e);
  }

  /** What the macro writes for the tokens of a tree selects exactly what the tree selects. */
  method SerialOfTree(e: Expr) returns (text: string)
    requires ValidNames(e) && NoConstants(e)
    ensures ParseRaw(text) == Ok(LeftAssoc(e))
    ensures forall labels :: Selects(text, labels) <==> Eval(e, labels)
  {
    var m := SerialExpr(TokensOf(e, 0));
    TokensRoundTrip(e);
    NamesOfTokens(e, 0);
    text := m.text;
    assert Names([]) == [];
    assert m.names == Names(TokensOf(e, 0));
    assert Eval(LeftAssoc(e), {}) == Eval(e, {});
  }

  lemma {:induction false} NamesAppend(a: seq<Token>, b: seq<Token>)
    ensures Names(a + b) == Names(a) + Names(b)
  {
    if a == [] {
      assert a + b == b;
    } else {
      assert (a + b)[1..] == a[1..] + b;
      NamesAppend(a[1..], b);
    }
  }

  lemma {:induction false} NamesOfTokens(e: Expr, minPrec: nat)
    requires Writable(e)
    ensures AsciiNames(Names(TokensOf(e, minPrec)))
  {
    match e
    case Terminal(n) =>
      assert n in Terminals(e);
      assert Names([Ident(n)]) == [n];
    case Not(x) =>
      NamesOfTokens(x, 2);
      NamesAppend([Bang], TokensOf(x, 2));
    case And(a, b) =>
      NamesOfTokens(a, 1);
      NamesOfTokens(b, 1);
      NamesAround(TokensOf(a, 1), Amp, TokensOf(b, 1));
    case Or(a, b) =>
      NamesOfTokens(a, 0);
      NamesOfTokens(b, 0);
      NamesAround(TokensOf(a, 0), Bar, TokensOf(b, 0));
  }

  /** An operator brings no name, and neither do parentheses around the whole. */
  lemma NamesAround(a: seq<Token>, op: Token, b: seq<Token>)
    requires (op == Amp || op == Bar) && AsciiNames(Names(a)) && AsciiNames(Names(b))
    ensures AsciiNames(Names(a + [op] + b)) && Names([Paren(a + [op] + b)]) == Names(a + [op] + b)
  {
    NamesAppend(a + [op], b);
    NamesAppend(a, [op]);
    assert Names([op]) == [];
    AsciiParts(Names(a), Names(b));
    assert [Paren(a + [op] + b)][1..] == [];
  }
}
