/**
 What letter case and blanks do to a filter's text: nothing. Names are read as
 their lower-case spelling, the two literals in any spelling.
 */
module LetterCase {
  import opened LabelExpr
  import opened Syntax
  import opened RoundTrip

  /** The capital letter of a small one. */
  predicate CapitalOf(c: char, small: char) {
    'A' <= c <= 'Z' && 'a' <= small <= 'z' && c as int - 'A' as int == small as int - 'a' as int
  }

  /** The same character but for letter case. */
  predicate SameLetter(c: char, d: char) {
    c == d || CapitalOf(c, d) || CapitalOf(d, c)
  }

  ghost predicate SameLetters(s: string, t: string) {
    |s| == |t| && forall i :: 0 <= i < |s| ==> SameLetter(s[i], t[i])
  }

  // ---- Names

  lemma {:induction false} LowerSame(s: string, t: string)
    requires SameLetters(s, t)
    ensures Lower(s) == Lower(t)
  {
    if s != "" {
      assert SameLetter(s[0], t[0]);
      forall i | 0 <= i < |s| - 1 ensures SameLetter(s[1..][i], t[1..][i]) { assert SameLetter(s[i + 1], t[i + 1]); }
      LowerSame(s[1..], t[1..]);
    }
  }

  /** However a valid name is capitalised, it is read as that name. */
  lemma NameInAnyCase(m: string, n: string)
    requires ValidName(n) && SameLetters(m, n)
    ensures ParseRaw(m) == Ok(Terminal(n))
  {
    LowerSame(m, n);
    LowerFixed(n);
    WholeName(m, n);
  }

  /** However a literal is capitalised, it is read as the constant. */
  lemma LiteralInAnyCase(m: string, v: bool)
    requires SameLetters(m, if v then "true" else "false")
    ensures ParseRaw(m) == Ok(Const(v))
  {
    var n := if v then "true" else "false";
    LowerSame(m, n);
    LowerFixed(n);
    WholeName(m, n);
  }

  lemma WholeName(m: string, n: string)
    requires IsName(n) && SameLetters(m, n)
    ensures ParseRaw(m) == Ok(LeafOf(m))
  {
    forall i | 0 <= i < |m| ensures IsNameChar(m[i]) { assert SameLetter(m[i], n[i]); }
    assert SameLetter(m[0], n[0]);
    NameText(m);
    UnaryIsAnd(m, LeafOf(m));
    AndIsOr(m, LeafOf(m));
    WholeText(m, LeafOf(m));
  }

  /** A name may begin with an underscore and go on with digits. */
  lemma UnderscoreName()
    ensures ParseRaw("_a9") == Ok(Terminal("_a9"))
  {
    assert SameLetters("_a9", "_a9");
    NameInAnyCase("_a9", "_a9");
  }

  /** Nothing that begins with a digit parses. */
  lemma DigitFirst(c: char, s: string)
    requires '0' <= c <= '9'
    ensures ParseRaw([c] + s) == Err
  {
    assert Trim([c] + s) == [c] + s;
    assert ParseUnary([c] + s) == Fail;
    assert ParseAnd([c] + s) == Fail;
    assert ParseOr([c] + s) == Fail;
  }

  // ---- Whole texts

  /** Two results with one tree and rests that differ in letter case only. */
  ghost predicate SameParse(p: Parsed, q: Parsed) {
    p.Fail? == q.Fail? && (p.Done? ==> p.expr == q.expr && SameLetters(p.rest, q.rest))
  }

  lemma SameTail(s: string, t: string, k: nat)
    requires SameLetters(s, t) && k <= |s|
    ensures SameLetters(s[k..], t[k..]) && SameLetters(s[..k], t[..k])
  {
    forall i | 0 <= i < |s| - k ensures SameLetter(s[k..][i], t[k..][i]) { assert SameLetter(s[k + i], t[k + i]); }
  }

  lemma {:induction false} SameTrim(s: string, t: string)
    requires SameLetters(s, t)
    ensures SameLetters(Trim(s), Trim(t))
  {
    if s != "" {
      assert SameLetter(s[0], t[0]);
      if IsSpace(s[0]) {
        SameTail(s, t, 1);
        SameTrim(s[1..], t[1..]);
      }
    }
  }

  lemma {:induction false} SameNameLength(s: string, t: string)
    requires SameLetters(s, t)
    ensures NameLength(s) == NameLength(t)
  {
    if s != "" {
      assert SameLetter(s[0], t[0]);
      if IsNameChar(s[0]) {
        SameTail(s, t, 1);
        SameNameLength(s[1..], t[1..]);
      }
    }
  }

  lemma {:induction false} SameUnary(s: string, t: string)
    requires SameLetters(s, t)
    ensures SameParse(ParseUnary(s), ParseUnary(t))
    decreases |s|, 0
  {
    var u, v := Trim(s), Trim(t);
    SameTrim(s, t);
    if u != "" {
      assert SameLetter(u[0], v[0]);
      SameTail(u, v, 1);
      if u[0] == '!' {
        SameUnary(u[1..], v[1..]);
      } else if u[0] == '(' {
        SameOr(u[1..], v[1..]);
        if ParseOr(u[1..]).Done? { SameClose(ParseOr(u[1..]).rest, ParseOr(v[1..]).rest); }
      } else if IsNameStart(u[0]) {
        SameNameLength(u, v);
        SameTail(u, v, NameLength(u));
        LowerSame(u[..NameLength(u)], v[..NameLength(u)]);
      }
    }
  }

  lemma SameClose(s: string, t: string)
    requires SameLetters(s, t)
    ensures StartsWith(Trim(s), ')') == StartsWith(Trim(t), ')')
    ensures Trim(s) != "" ==> Trim(t) != "" && SameLetters(Trim(s)[1..], Trim(t)[1..])
  {
    SameTrim(s, t);
    if Trim(s) != "" {
      assert SameLetter(Trim(s)[0], Trim(t)[0]);
      SameTail(Trim(s), Trim(t), 1);
    }
  }

  lemma {:induction false} SameAndLoop(left: Expr, s: string, t: string)
    requires SameLetters(s, t)
    ensures SameParse(AndLoop(left, s), AndLoop(left, t))
    decreases |s|, 3
  {
    var u, v := Trim(s), Trim(t);
    SameTrim(s, t);
    if u != "" {
      assert SameLetter(u[0], v[0]);
      SameTail(u, v, 1);
      if u[0] == '&' {
        SameUnary(u[1..], v[1..]);
        var p, q := ParseUnary(u[1..]), ParseUnary(v[1..]);
        if p.Done? { SameAndLoop(And(left, p.expr), p.rest, q.rest); }
      }
    }
  }

  lemma {:induction false} SameAnd(s: string, t: string)
    requires SameLetters(s, t)
    ensures SameParse(ParseAnd(s), ParseAnd(t))
    decreases |s|, 1
  {
    SameUnary(s, t);
    var p, q := ParseUnary(s), ParseUnary(t);
    if p.Done? { SameAndLoop(p.expr, p.rest, q.rest); }
  }

  lemma {:induction false} SameOrLoop(left: Expr, s: string, t: string)
    requires SameLetters(s, t)
    ensures SameParse(OrLoop(left, s), OrLoop(left, t))
    decreases |s|, 3
  {
    var u, v := Trim(s), Trim(t);
    SameTrim(s, t);
    if u != "" {
      assert SameLetter(u[0], v[0]);
      SameTail(u, v, 1);
      if u[0] == '|' {
        SameAnd(u[1..], v[1..]);
        var p, q := ParseAnd(u[1..]), ParseAnd(v[1..]);
        if p.Done? { SameOrLoop(Or(left, p.expr), p.rest, q.rest); }
      }
    }
  }

  lemma {:induction false} SameOr(s: string, t: string)
    requires SameLetters(s, t)
    ensures SameParse(ParseOr(s), ParseOr(t))
    decreases |s|, 2
  {
    SameAnd(s, t);
    var p, q := ParseAnd(s), ParseAnd(t);
    if p.Done? { SameOrLoop(p.expr, p.rest, q.rest); }
  }

  /** Texts that differ in letter case only parse alike, or both do not parse. */
  lemma CaseInsensitive(s: string, t: string)
    requires SameLetters(s, t)
    ensures ParseRaw(s) == ParseRaw(t)
  {
    SameOr(s, t);
    if ParseOr(s).Done? { SameTrim(ParseOr(s).rest, ParseOr(t).rest); }
  }

  /** The printed text of an expression, in any capitalisation, is read as that expression. */
  lemma PrintParseAnyCase(text: string, e: Expr)
    requires ValidNames(e) && SameLetters(text, Display(e))
    ensures ParseRaw(text) == Ok(LeftAssoc(e))
  {
    CaseInsensitive(text, Display(e));
    PrintParse(e);
  }

  /** A blank, tab or carriage return before a text changes nothing. */
  lemma LeadingBlank(c: char, s: string)
    requires c in {' ', '\t', '\r'}
    ensures ParseRaw([c] + s) == ParseRaw(s)
  {
    assert ([c] + s)[1..] == s;
    assert Trim([c] + s) == Trim(s);
    assert ParseUnary([c] + s) == ParseUnary(s);
    assert ParseAnd([c] + s) == ParseAnd(s);
    assert ParseOr([c] + s) == ParseOr(s);
  }

  // ---- Parentheses in printed text

  /** Somewhere in the tree an operand binds less tightly than its place. */
  predicate NeedsParens(e: Expr, minPrec: nat) {
    || Precedence(e) < minPrec
    || (match e
        case Terminal(_) => false
        case Const(_) => false
        case Not(x) => x.And? || x.Or? || NeedsParens(x, 0)
        case And(a, b) => a.Or? || b.Or? || NeedsParens(a, 0) || NeedsParens(b, 0)
        case Or(a, b) => NeedsParens(a, 0) || NeedsParens(b, 0))
  }

  /** Parentheses are printed exactly where some operand binds less tightly than its place. */
  lemma {:induction false} ParenthesesIff(e: Expr, minPrec: nat)
    requires ValidNames(e) && minPrec <= 2
    ensures '(' in Format(e, minPrec) <==> NeedsParens(e, minPrec)
  {
    match e
    case Terminal(n) =>
      assert n in Terminals(e);
      assert forall i :: 0 <= i < |n| ==> IsNameChar(n[i]);
    case Const(b) =>
    case Not(x) =>
      ParenthesesIff(x, 2);
      ParenthesesIff(x, 0);
      assert Format(e, minPrec) == "!" + Format(x, 2);
    case And(a, b) =>
      ParenthesesIff(a, 1);
      ParenthesesIff(b, 1);
      ParenthesesIff(a, 0);
      ParenthesesIff(b, 0);
      assert Format(e, 0) == Format(a, 1) + " & " + Format(b, 1);
    case Or(a, b) =>
      ParenthesesIff(a, 0);
      ParenthesesIff(b, 0);
      assert Format(e, 0) == Format(a, 0) + " | " + Format(b, 0);
  }
}
