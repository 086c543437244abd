/**
 The filter language's concrete syntax: the grammar of label.pest with the tree
 building of label.rs, and the precedence-aware printer.
 */
module Syntax {
  import opened LabelExpr

  datatype Parsed = Fail | Done(expr: Expr, rest: string)

  datatype Result<T> = Ok(value: T) | Err

  // ---- Characters

  predicate IsSpace(c: char) { c == ' ' || c == '\t' || c == '\r' }

  predicate IsUpper(c: char) { 'A' <= c <= 'Z' }

  predicate IsNameStart(c: char) { 'a' <= c <= 'z' || IsUpper(c) || c == '_' }

  predicate IsNameChar(c: char) { IsNameStart(c) || '0' <= c <= '9' }

  function LowerChar(c: char): char {
    if IsUpper(c) then (c as int + 32) as char else c
  }

  function Lower(s: string): string {
    if s == "" then "" else [LowerChar(s[0])] + Lower(s[1..])
  }

  function Trim(s: string): (t: string)
    ensures |t| <= |s|
  {
    if s != "" && IsSpace(s[0]) then Trim(s[1..]) else s
  }

  predicate StartsWith(s: string, c: char) { s != "" && s[0] == c }

  /** How many leading characters can belong to a name. */
  function NameLength(s: string): (n: nat)
    ensures n <= |s|
  {
    if s != "" && IsNameChar(s[0]) then 1 + NameLength(s[1..]) else 0
  }

  /** A name or, in any letter case, one of the two reserved literals. */
  function LeafOf(name: string): Expr {
    var n := Lower(name);
    if n == "true" then Const(true) else if n == "false" then Const(false) else Terminal(n)
  }

  // ---- Grammar. The rest after a repetition is what its last round left over.

  function ParseOr(s: string): (p: Parsed)
    ensures p.Done? ==> |p.rest| < |s|
    decreases |s|, 2
  {
    match ParseAnd(s)
    case Fail => Fail
    case Done(left, rest) => OrLoop(left, rest)
  }

  function OrLoop(left: Expr, s: string): (p: Parsed)
    ensures p.Done? && |p.rest| <= |s|
    decreases |s|, 3
  {
    var t := Trim(s);
    if !StartsWith(t, '|') then Done(left, s)
    else
      match ParseAnd(t[1..])
      case Fail => Done(left, s)
      case Done(right, rest) => OrLoop(Or(left, right), rest)
  }

  function ParseAnd(s: string): (p: Parsed)
    ensures p.Done? ==> |p.rest| < |s|
    decreases |s|, 1
  {
    match ParseUnary(s)
    case Fail => Fail
    case Done(left, rest) => AndLoop(left, rest)
  }

  function AndLoop(left: Expr, s: string): (p: Parsed)
    ensures p.Done? && |p.rest| <= |s|
    decreases |s|, 3
  {
    var t := Trim(s);
    if !StartsWith(t, '&') then Done(left, s)
    else
      match ParseUnary(t[1..])
      case Fail => Done(left, s)
      case Done(right, rest) => AndLoop(And(left, right), rest)
  }

  function ParseUnary(s: string): (p: Parsed)
    ensures p.Done? ==> |p.rest| < |s|
    decreases |s|, 0
  {
    var t := Trim(s);
    if t == "" then Fail
    else if t[0] == '!' then
      (match ParseUnary(t[1..])
       case Fail => Fail
       case Done(x, rest) => Done(Not(x), rest))
    else if t[0] == '(' then
      (match ParseOr(t[1..])
       case Fail => Fail
       case Done(x, rest) =>
         var u := Trim(rest);
         if StartsWith(u, ')') then Done(x, u[1..]) else Fail)
    else if IsNameStart(t[0]) then
      var n := NameLength(t);
      Done(LeafOf(t[..n]), t[n..])
    else Fail
  }

  /** `parse_raw_label_expr`: the whole input is one expression. */
  function ParseRaw(s: string): Result<Expr> {
    match ParseOr(s)
    case Fail => Err
    case Done(e, rest) => if Trim(rest) == "" then Ok(e) else Err
  }

  // ---- The loops of `build_expr`, which reassign `left`

  method BuildOr(s: string) returns (p: Parsed)
    ensures p == ParseOr(s)
    decreases |s|, 2
  {
    p := BuildAnd(s);
    while p.Done? && StartsWith(Trim(p.rest), '|')
      invariant p.Done? ==> |p.rest| < |s|
      invariant ParseOr(s) == (if p.Done? then OrLoop(p.expr, p.rest) else Fail)
      decreases if p.Done? then |p.rest| else 0
    {
      var right := BuildAnd(Trim(p.rest)[1..]);
      if right.Fail? { return; }
      p := Done(Or(p.expr, right.expr), right.rest);
    }
  }

  method BuildAnd(s: string) returns (p: Parsed)
    ensures p == ParseAnd(s)
    decreases |s|, 1
  {
    p := BuildUnary(s);
    while p.Done? && StartsWith(Trim(p.rest), '&')
      invariant p.Done? ==> |p.rest| < |s|
      invariant ParseAnd(s) == (if p.Done? then AndLoop(p.expr, p.rest) else Fail)
      decreases if p.Done? then |p.rest| else 0
    {
      var right := BuildUnary(Trim(p.rest)[1..]);
      if right.Fail? { return; }
      p := Done(And(p.expr, right.expr), right.rest);
    }
  }

  method BuildUnary(s: string) returns (p: Parsed)
    ensures p == ParseUnary(s)
    decreases |s|, 0
  {
    var t := Trim(s);
    if t == "" { return Fail; }
    if t[0] == '!' {
      var x := BuildUnary(t[1..]);
      return if x.Fail? then Fail else Done(Not(x.expr), x.rest);
    }
    if t[0] == '(' {
      var x := BuildOr(t[1..]);
      if x.Fail? || !StartsWith(Trim(x.rest), ')') { return Fail; }
      return Done(x.expr, Trim(x.rest)[1..]);
    }
    if !IsNameStart(t[0]) { return Fail; }
    return Done(LeafOf(t[..NameLength(t)]), t[NameLength(t)..]);
  }

  // ---- Printing

  function Precedence(e: Expr): nat {
    if e.Or? then 0 else if e.And? then 1 else 2
  }

  /** `fmt_expr`: parentheses only where the context binds tighter. */
  function Format(e: Expr, minPrec: nat): string {
    var body :=
      match e
      case Terminal(n) => n
      case Const(b) => if b then "true" else "false"
      case Not(x) => "!" + Format(x, 2)
      case And(a, b) => Format(a, 1) + " & " + Format(b, 1)
      case Or(a, b) => Format(a, 0) + " | " + Format(b, 0);
    if Precedence(e) < minPrec then "(" + body + ")" else body
  }

  function Display(e: Expr): string { Format(e, 0) }

  predicate IsName(n: string) {
    n != "" && IsNameStart(n[0]) && forall i :: 0 <= i < |n| ==> IsNameChar(n[i])
  }

  /** What `validate_label_name` and `Label::__new` accept. */
  predicate ValidName(n: string) {
    IsName(n) && (forall i :: 0 <= i < |n| ==> !IsUpper(n[i])) && n != "true" && n != "false"
  }

  predicate ValidNames(e: Expr) {
    forall n :: n in Terminals(e) ==> ValidName(n)
  }

  /** The checks of `validate_label_name` as its index loops make them. */
  method CheckLabelName(name: string) returns (ok: bool)
    ensures ok <==> IsName(name) && name != "true" && name != "false"
  {
    if name == "" || !IsNameStart(name[0]) { return false; }
    var i := 1;
    while i < |name|
      invariant 1 <= i <= |name|
      invariant forall k :: 0 <= k < i ==> IsNameChar(name[k])
    {
      if !IsNameChar(name[i]) { return false; }
      i := i + 1;
    }
    return name != "true" && name != "false";
  }

  // ---- Re-association

  /** The tree with every chain of one operator nested to the left. */
  function LeftAssoc(e: Expr): Expr
    decreases e, 0
  {
    match e
    case Terminal(_) => e
    case Const(_) => e
    case Not(x) => Not(LeftAssoc(x))
    case And(a, b) => AttachAnd(LeftAssoc(a), b)
    case Or(a, b) => AttachOr(LeftAssoc(a), b)
  }

  function AttachAnd(left: Expr, e: Expr): Expr
    decreases e, 1
  {
    if e.And? then AttachAnd(AttachAnd(left, e.left), e.right) else And(left, LeftAssoc(e))
  }

  function AttachOr(left: Expr, e: Expr): Expr
    decreases e, 1
  {
    if e.Or? then AttachOr(AttachOr(left, e.left), e.right) else Or(left, LeftAssoc(e))
  }

  /** No operator has itself as its right child. */
  predicate LeftNested(e: Expr) {
    match e
    case Terminal(_) => true
    case Const(_) => true
    case Not(x) => LeftNested(x)
    case And(a, b) => LeftNested(a) && LeftNested(b) && !b.And?
    case Or(a, b) => LeftNested(a) && LeftNested(b) && !b.Or?
  }

  lemma {:induction false} LeftAssocMeaning(e: Expr, s: set<string>)
    ensures Eval(LeftAssoc(e), s) == Eval(e, s)
    ensures Terminals(LeftAssoc(e)) == Terminals(e)
    decreases e, 0
  {
    match e
    case Terminal(_) =>
    case Const(_) =>
    case Not(x) => LeftAssocMeaning(x, s);
    case And(a, b) => LeftAssocMeaning(a, s); AttachMeaning(LeftAssoc(a), b, s);
    case Or(a, b) => LeftAssocMeaning(a, s); AttachMeaning(LeftAssoc(a), b, s);
  }

  lemma {:induction false} AttachMeaning(left: Expr, e: Expr, s: set<string>)
    ensures Eval(AttachAnd(left, e), s) == (Eval(left, s) && Eval(e, s))
    ensures Eval(AttachOr(left, e), s) == (Eval(left, s) || Eval(e, s))
    ensures Terminals(AttachAnd(left, e)) == Terminals(left) + Terminals(e)
    ensures Terminals(AttachOr(left, e)) == Terminals(left) + Terminals(e)
    decreases e, 1
  {
    LeftAssocMeaning(e, s);
    if e.And? {
      AttachMeaning(left, e.left, s);
      AttachMeaning(AttachAnd(left, e.left), e.right, s);
    } else if e.Or? {
      AttachMeaning(left, e.left, s);
      AttachMeaning(AttachOr(left, e.left), e.right, s);
    }
  }

  lemma LeftAssocEquivalent(e: Expr)
    ensures Equivalent(LeftAssoc(e), e) && Terminals(LeftAssoc(e)) == Terminals(e)
  {
    LeftAssocMeaning(e, {});
    forall s ensures Eval(LeftAssoc(e), s) == Eval(e, s) { LeftAssocMeaning(e, s); }
  }

  lemma {:induction false} LeftAssocNested(e: Expr)
    ensures LeftNested(LeftAssoc(e))
    ensures LeftAssoc(e).And? <==> e.And?
    ensures LeftAssoc(e).Or? <==> e.Or?
    ensures LeftNested(e) ==> LeftAssoc(e) == e
    decreases e, 0
  {
    match e
    case Terminal(_) =>
    case Const(_) =>
    case Not(x) => LeftAssocNested(x);
    case And(a, b) => LeftAssocNested(a); AttachNested(LeftAssoc(a), b); LeftAssocNested(b);
    case Or(a, b) => LeftAssocNested(a); AttachNested(LeftAssoc(a), b); LeftAssocNested(b);
  }

  lemma {:induction false} AttachNested(left: Expr, e: Expr)
    requires LeftNested(left)
    ensures LeftNested(AttachAnd(left, e)) && AttachAnd(left, e).And?
    ensures LeftNested(AttachOr(left, e)) && AttachOr(left, e).Or?
    decreases e, 1
  {
    LeftAssocNested(e);
    if e.And? {
      AttachNested(left, e.left);
      AttachNested(AttachAnd(left, e.left), e.right);
    } else if e.Or? {
      AttachNested(left, e.left);
      AttachNested(AttachOr(left, e.left), e.right);
    }
  }

  /** Re-association changes exactly the trees that are not already nested to the left. */
  lemma LeftAssocFixpoint(e: Expr)
    ensures LeftAssoc(e) == e <==> LeftNested(e)
  {
    LeftAssocNested(e);
  }
}
