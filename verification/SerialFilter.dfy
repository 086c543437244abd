/**
 Serial filters as strings: the text the attribute macro writes for a token
 expression, the merging of several filters into one, and the storage form.
 The empty string is "not serial" and `*` is "serial with everything".
 */
module SerialFilter {
  import opened LabelExpr
  import opened Diagram
  import opened Syntax
  import opened RoundTrip
  import opened Canonical

  const SERIAL_NONE := ""
  const SERIAL_ALL := "*"

  // ---- Meaning

  predicate ValidSerial(f: string) {
    f == SERIAL_NONE || f == SERIAL_ALL || ParseRaw(f).Ok?
  }

  /** A test with filter `f` must not overlap one with these labels. */
  predicate Selects(f: string, labels: set<string>) {
    if f == SERIAL_NONE then false
    else if f == SERIAL_ALL then true
    else ParseRaw(f).Ok? && Eval(ParseRaw(f).value, labels)
  }

  ghost predicate SameSelection(f: string, g: string) {
    forall labels :: Selects(f, labels) == Selects(g, labels)
  }

  /** The empty filter selects nothing, the star everything, and both are their own storage form. */
  lemma Sentinels(labels: set<string>, render: Bdd -> Expr)
    ensures !Selects("", labels) && Selects("*", labels)
    ensures ToStorage("", render) == Ok("") && ToStorage("*", render) == Ok("*")
  {
  }

  /** The printed text of an expression selects exactly the label sets on which the expression holds. */
  lemma DisplaySelects(e: Expr, labels: set<string>)
    requires ValidNames(e)
    ensures Selects(Display(e), labels) <==> Eval(e, labels)
  {
    PrintParse(e);
    DisplayIsNoSentinel(e);
    assert Eval(LeftAssoc(e), labels) == Eval(e, labels);
  }

  // ---- Merging

  function Merge(a: string, b: string): string {
    if a == "" then b
    else if b == "" then a
    else if a == SERIAL_ALL || b == SERIAL_ALL then SERIAL_ALL
    else "(" + a + ") | (" + b + ")"
  }

  lemma OperandText(a: string, e: Expr)
    requires ParseRaw(a) == Ok(e)
    ensures AndText("(" + a + ")", e)
  {
    Parenthesise(a, e);
    UnaryIsAnd("(" + a + ")", e);
  }

  lemma JoinedText(l: string, el: Expr, r: string, er: Expr)
    requires AndText(l, el) && AndText(r, er)
    ensures OrText(l + " | " + r, Or(el, er))
  {
    AndIsOr(l, el);
    OrJoin(l, el, r, er);
  }

  lemma MergeText(a: string, ea: Expr, b: string, eb: Expr)
    requires ParseRaw(a) == Ok(ea) && ParseRaw(b) == Ok(eb)
    ensures ParseRaw("(" + a + ") | (" + b + ")") == Ok(Or(ea, eb))
  {
    var l, r := "(" + a + ")", "(" + b + ")";
    assert OrText(l + " | " + r, Or(ea, eb)) by {
      OperandText(a, ea);
      OperandText(b, eb);
      JoinedText(l, ea, r, eb);
    }
    assert "(" + a + ") | (" + b + ")" == l + " | " + r;
    WholeText(l + " | " + r, Or(ea, eb));
  }

  /** A merged filter is valid again and selects the union. */
  lemma MergeIsUnion(a: string, b: string)
    requires ValidSerial(a) && ValidSerial(b)
    ensures ValidSerial(Merge(a, b))
    ensures forall labels :: Selects(Merge(a, b), labels) == (Selects(a, labels) || Selects(b, labels))
    ensures ParseRaw(a).Ok? && ParseRaw(b).Ok? ==>
              ParseRaw(Merge(a, b)) == Ok(Or(ParseRaw(a).value, ParseRaw(b).value))
    ensures Merge(a, b) == SERIAL_NONE <==> a == b == SERIAL_NONE
    ensures Merge(a, b) == SERIAL_ALL <==> a == SERIAL_ALL || b == SERIAL_ALL
  {
    if a != "" && b != "" && a != SERIAL_ALL && b != SERIAL_ALL {
      MergeText(a, ParseRaw(a).value, b, ParseRaw(b).value);
      assert Merge(a, b)[0] == '(';
    }
  }

  /** `collect_fixture_serial` over the filters in visiting order. */
  method Collect(serials: seq<string>) returns (merged: string)
    requires forall i :: 0 <= i < |serials| ==> ValidSerial(serials[i])
    ensures ValidSerial(merged)
    ensures forall labels :: Selects(merged, labels) <==>
                             exists i :: 0 <= i < |serials| && Selects(serials[i], labels)
    ensures merged == SERIAL_NONE <==> forall i :: 0 <= i < |serials| ==> serials[i] == SERIAL_NONE
    ensures merged == SERIAL_ALL <==> exists i :: 0 <= i < |serials| && serials[i] == SERIAL_ALL
  {
    merged := "";
    for k := 0 to |serials|
      invariant ValidSerial(merged)
      invariant forall labels :: Selects(merged, labels) <==>
                                 exists i :: 0 <= i < k && Selects(serials[i], labels)
      invariant merged == SERIAL_NONE <==> forall i :: 0 <= i < k ==> serials[i] == SERIAL_NONE
      invariant merged == SERIAL_ALL <==> exists i :: 0 <= i < k && serials[i] == SERIAL_ALL
    {
      MergeIsUnion(merged, serials[k]);
      if serials[k] != "" {
        merged := Merge(merged, serials[k]);
      }
    }
  }

  // ---- Storage form

  function ToStorage(f: string, render: Bdd -> Expr): Result<string> {
    if f == SERIAL_NONE || f == SERIAL_ALL then Ok(f)
    else
      match Parse(f, render)
      case Err => Err
      case Ok(c) =>
        if c == Const(true) then Ok(SERIAL_ALL)
        else if c == Const(false) then Ok(SERIAL_NONE)
        else Ok(Display(c))
  }

  /** What is stored: a sentinel, or the text of a filter that is no constant. */
  ghost predicate Stored(g: string, render: Bdd -> Expr) {
    g == SERIAL_NONE || g == SERIAL_ALL || exists c :: StoredText(g, c, render)
  }

  ghost predicate StoredText(g: string, c: Expr, render: Bdd -> Expr) {
    IsFilter(c, render) && !c.Const? && g == Display(c) && Parse(g, render) == Ok(c)
  }

  lemma DisplayIsNoSentinel(c: Expr)
    requires ValidNames(c)
    ensures Display(c) != SERIAL_NONE && Display(c) != SERIAL_ALL
  {
    PrintParse(c);
  }

  lemma StorageForm(f: string, render: Bdd -> Expr) returns (g: string)
    requires IsRenderer(render) && ValidSerial(f)
    ensures ToStorage(f, render) == Ok(g) && Stored(g, render) && ValidSerial(g)
    ensures g == SERIAL_ALL || g == SERIAL_NONE || StoredText(g, Parse(f, render).value, render)
  {
    g := ToStorage(f, render).value;
    if f != SERIAL_NONE && f != SERIAL_ALL {
      ParseGivesFilter(f, render);
      var c := Parse(f, render).value;
      if !c.Const? {
        DisplayParse(c, render);
        assert StoredText(g, c, render);
      }
    }
  }

  /** Storing a filter keeps what it selects. */
  lemma StorageKeepsSelection(f: string, render: Bdd -> Expr)
    requires IsRenderer(render) && ValidSerial(f)
    ensures ToStorage(f, render).Ok? && ValidSerial(ToStorage(f, render).value)
    ensures SameSelection(ToStorage(f, render).value, f)
  {
    var g := StorageForm(f, render);
    if f != SERIAL_NONE && f != SERIAL_ALL {
      ParseGivesFilter(f, render);
      var c := Parse(f, render).value;
      forall labels ensures Selects(g, labels) == Selects(f, labels) {
        assert Eval(c, labels) == Eval(ParseRaw(f).value, labels);
        if !c.Const? {
          PrintParse(c);
          DisplayIsNoSentinel(c);
          assert Eval(LeftAssoc(c), labels) == Eval(c, labels);
        }
      }
    }
  }

  lemma StoredIsFixed(g: string, render: Bdd -> Expr)
    requires Stored(g, render)
    ensures ToStorage(g, render) == Ok(g)
  {
  }

  /** Storing twice is storing once. */
  lemma StorageIdempotent(f: string, render: Bdd -> Expr)
    requires IsRenderer(render) && ValidSerial(f)
    ensures ToStorage(f, render).Ok?
    ensures ToStorage(ToStorage(f, render).value, render) == ToStorage(f, render)
  {
    var g := StorageForm(f, render);
    StoredIsFixed(g, render);
  }

  /** Two declarations share a storage form exactly when they select the same label sets. */
  lemma StorageCanonicity(f: string, g: string, render: Bdd -> Expr)
    requires IsRenderer(render) && ValidSerial(f) && ValidSerial(g)
    ensures ToStorage(f, render) == ToStorage(g, render) <==> SameSelection(f, g)
  {
    StorageKeepsSelection(f, render);
    StorageKeepsSelection(g, render);
    var sf := StorageForm(f, render);
    var sg := StorageForm(g, render);
    if sf == sg {
      forall labels ensures Selects(f, labels) == Selects(g, labels) {
        assert Selects(sf, labels) == Selects(f, labels) && Selects(sg, labels) == Selects(g, labels);
      }
    }
    if SameSelection(f, g) {
      var ef, eg := Denoted(f), Denoted(g);
      forall labels ensures Eval(ef, labels) == Eval(eg, labels) {
        assert Selects(f, labels) == Selects(g, labels);
      }
      Canonicity(ef, eg, render);
      StorageOfDenoted(f, render);
      StorageOfDenoted(g, render);
    }
  }

  /** The expression a valid filter string stands for, sentinels included. */
  function Denoted(f: string): (e: Expr)
    requires ValidSerial(f)
    ensures forall labels :: Eval(e, labels) == Selects(f, labels)
  {
    if f == SERIAL_NONE then Const(false)
    else if f == SERIAL_ALL then Const(true)
    else ParseRaw(f).value
  }

  function StorageOf(c: Expr): string {
    if c == Const(true) then SERIAL_ALL else if c == Const(false) then SERIAL_NONE else Display(c)
  }

  lemma StorageOfDenoted(f: string, render: Bdd -> Expr)
    requires IsRenderer(render) && ValidSerial(f)
    ensures ToStorage(f, render) == Ok(StorageOf(Canonicalize(Denoted(f), render)))
  {
  }

  // ---- The attribute macro

  /**
   Tokens after `serial =`. Keywords (`true` and `false` among them), literals
   and any other punctuation are `Other`.
   */
  datatype Token = Ident(name: string) | Bang | Amp | Bar | Paren(content: seq<Token>) | Other

  function Weight(ts: seq<Token>): nat {
    if ts == [] then 0
    else 1 + (if ts[0].Paren? then Weight(ts[0].content) else 0) + Weight(ts[1..])
  }

  /** All identifiers in order, inside parentheses too. */
  function Names(ts: seq<Token>): seq<string> {
    if ts == [] then []
    else (match ts[0] case Ident(n) => [n] case Paren(c) => Names(c) case _ => []) + Names(ts[1..])
  }

  predicate Peek(ts: seq<Token>, t: Token) { ts != [] && ts[0] == t }

  datatype Denotation = Rejected | Denotes(expr: Expr, rest: seq<Token>)

  /** The tree a token sequence stands for: `!` binds tighter than `&`, `&` tighter than `|`, all to the left. */
  function TokenOr(ts: seq<Token>): (d: Denotation)
    ensures d.Denotes? ==> Weight(d.rest) < Weight(ts)
    decreases Weight(ts), 2
  {
    match TokenAnd(ts)
    case Rejected => Rejected
    case Denotes(left, rest) => TokenOrLoop(left, rest)
  }

  function TokenOrLoop(left: Expr, ts: seq<Token>): (d: Denotation)
    ensures d.Denotes? ==> Weight(d.rest) <= Weight(ts)
    decreases Weight(ts), 3
  {
    if !Peek(ts, Bar) then Denotes(left, ts)
    else
      match TokenAnd(ts[1..])
      case Rejected => Rejected
      case Denotes(right, rest) => TokenOrLoop(Or(left, right), rest)
  }

  function TokenAnd(ts: seq<Token>): (d: Denotation)
    ensures d.Denotes? ==> Weight(d.rest) < Weight(ts)
    decreases Weight(ts), 1
  {
    match TokenNot(ts)
    case Rejected => Rejected
    case Denotes(left, rest) => TokenAndLoop(left, rest)
  }

  function TokenAndLoop(left: Expr, ts: seq<Token>): (d: Denotation)
    ensures d.Denotes? ==> Weight(d.rest) <= Weight(ts)
    decreases Weight(ts), 3
  {
    if !Peek(ts, Amp) then Denotes(left, ts)
    else
      match TokenNot(ts[1..])
      case Rejected => Rejected
      case Denotes(right, rest) => TokenAndLoop(And(left, right), rest)
  }

  function TokenNot(ts: seq<Token>): (d: Denotation)
    ensures d.Denotes? ==> Weight(d.rest) < Weight(ts)
    decreases Weight(ts), 0
  {
    if ts == [] then Rejected
    else
      match ts[0]
      case Bang =>
        (match TokenNot(ts[1..])
         case Rejected => Rejected
         case Denotes(x, rest) => Denotes(Not(x), rest))
      case Paren(content) =>
        (match TokenOr(content)
         case Rejected => Rejected
         case Denotes(x, left) => if left == [] then Denotes(x, ts[1..]) else Rejected)
      case Ident(n) => Denotes(LeafOf(n), ts[1..])
      case _ => Rejected
  }

  ghost predicate AsciiNames(names: seq<string>) {
    forall i :: 0 <= i < |names| ==> IsName(names[i])
  }

  datatype Emitted = Refused | Emits(text: string, names: seq<string>, rest: seq<Token>)

  /** What the macro returns agrees with the denotation; `names` are the identifiers it consumed. */
  ghost predicate Agrees(ts: seq<Token>, d: Denotation, m: Emitted) {
    if d.Rejected? then m.Refused?
    else m.Emits? && m.rest == d.rest && m.names + Names(m.rest) == Names(ts)
  }

  lemma AsciiParts(a: seq<string>, b: seq<string>)
    ensures AsciiNames(a + b) <==> AsciiNames(a) && AsciiNames(b)
  {
    if AsciiNames(a + b) {
      forall i | 0 <= i < |a| ensures IsName(a[i]) { assert (a + b)[i] == a[i]; }
      forall i | 0 <= i < |b| ensures IsName(b[i]) { assert (a + b)[|a| + i] == b[i]; }
    }
  }

  /** The identifiers on both sides of an operator, and those still to come. */
  lemma NamesAfterOperator(ts: seq<Token>, left: seq<string>, rest: seq<Token>, right: seq<string>, rest': seq<Token>)
    requires left + Names(rest) == Names(ts) && (Peek(rest, Bar) || Peek(rest, Amp))
    requires right + Names(rest') == Names(rest[1..])
    ensures (left + right) + Names(rest') == Names(ts)
  {
    assert Names(rest) == Names(rest[1..]);
    AppendAssociates(left, right, Names(rest'));
  }

  lemma AppendAssociates(a: seq<string>, b: seq<string>, c: seq<string>)
    ensures a + (b + c) == (a + b) + c
  {
  }

  method SerialOr(ts: seq<Token>) returns (m: Emitted)
    ensures Agrees(ts, TokenOr(ts), m)
    ensures m.Emits? && AsciiNames(m.names) ==> OrText(m.text, TokenOr(ts).expr)
    decreases Weight(ts), 2
  {
    m := SerialAnd(ts);
    if m.Refused? { return; }
    ghost var left := TokenAnd(ts).expr;
    if AsciiNames(m.names) { AndIsOr(m.text, left); }
    while Peek(m.rest, Bar)
      invariant m.Emits? && Weight(m.rest) < Weight(ts)
      invariant TokenOr(ts) == TokenOrLoop(left, m.rest)
      invariant m.names + Names(m.rest) == Names(ts)
      invariant AsciiNames(m.names) ==> OrText(m.text, left)
      decreases Weight(m.rest)
    {
      var right := SerialAnd(m.rest[1..]);
      if right.Refused? { return Refused; }
      ghost var r := TokenAnd(m.rest[1..]).expr;
      NamesAfterOperator(ts, m.names, m.rest, right.names, right.rest);
      AsciiParts(m.names, right.names);
      if AsciiNames(m.names + right.names) { OrJoin(m.text, left, right.text, r); }
      left := Or(left, r);
      m := Emits(m.text + " | " + right.text, m.names + right.names, right.rest);
    }
  }

  method SerialAnd(ts: seq<Token>) returns (m: Emitted)
    ensures Agrees(ts, TokenAnd(ts), m)
    ensures m.Emits? && AsciiNames(m.names) ==> AndText(m.text, TokenAnd(ts).expr)
    decreases Weight(ts), 1
  {
    m := SerialNot(ts);
    if m.Refused? { return; }
    ghost var left := TokenNot(ts).expr;
    if AsciiNames(m.names) { UnaryIsAnd(m.text, left); }
    while Peek(m.rest, Amp)
      invariant m.Emits? && Weight(m.rest) < Weight(ts)
      invariant TokenAnd(ts) == TokenAndLoop(left, m.rest)
      invariant m.names + Names(m.rest) == Names(ts)
      invariant AsciiNames(m.names) ==> AndText(m.text, left)
      decreases Weight(m.rest)
    {
      var right := SerialNot(m.rest[1..]);
      if right.Refused? { return Refused; }
      ghost var r := TokenNot(m.rest[1..]).expr;
      NamesAfterOperator(ts, m.names, m.rest, right.names, right.rest);
      AsciiParts(m.names, right.names);
      if AsciiNames(m.names + right.names) { AndJoin(m.text, left, right.text, r); }
      left := And(left, r);
      m := Emits(m.text + " & " + right.text, m.names + right.names, right.rest);
    }
  }

  method SerialNot(ts: seq<Token>) returns (m: Emitted)
    ensures Agrees(ts, TokenNot(ts), m)
    ensures m.Emits? && AsciiNames(m.names) ==> UnaryText(m.text, TokenNot(ts).expr)
    decreases Weight(ts), 0
  {
    if ts == [] { return Refused; }
    match ts[0] {
      case Bang =>
        var x := SerialNot(ts[1..]);
        if x.Refused? { return Refused; }
        assert Names(ts) == Names(ts[1..]);
        if AsciiNames(x.names) { NotText(x.text, TokenNot(ts[1..]).expr); }
        return Emits("!" + x.text, x.names, x.rest);
      case Paren(content) =>
        var x := SerialOr(content);
        if x.Refused? || x.rest != [] { return Refused; }
        if AsciiNames(x.names) { ParenText(x.text, TokenOr(content).expr); }
        return Emits("(" + x.text + ")", x.names, ts[1..]);
      case Ident(n) =>
        if AsciiNames([n]) {
          assert [n][0] == n;
          NameText(n);
        }
        return Emits(n, [n], ts[1..]);
      case _ => return Refused;
    }
  }

  /** The text `serial = ...` becomes parses to exactly the tree the tokens stand for. */
  method SerialExpr(ts: seq<Token>) returns (m: Emitted)
    ensures m.Refused? <==> TokenOr(ts).Rejected?
    ensures m.Emits? ==> m.rest == TokenOr(ts).rest && m.names + Names(m.rest) == Names(ts)
    ensures m.Emits? && AsciiNames(m.names) ==> ParseRaw(m.text) == Ok(TokenOr(ts).expr)
  {
    m := SerialOr(ts);
    if m.Emits? && AsciiNames(m.names) {
      WholeText(m.text, TokenOr(ts).expr);
    }
  }
}
