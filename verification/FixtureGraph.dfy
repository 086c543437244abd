/**
 The fixture registry: validation of its dependency graph and the walk over it.
 */
module FixtureGraph {

  datatype Scope = Variable | TestScope | Process

  /** The declaration order of the scopes, by which the source compares them. */
  function Width(s: Scope): nat {
    match s case Variable => 0 case TestScope => 1 case Process => 2
  }

  datatype Fixture = Fixture(scope: Scope, deps: seq<string>, serial: string)

  type Registry = map<string, Fixture>

  predicate Edge(reg: Registry, a: string, b: string) {
    a in reg && b in reg[a].deps
  }

  /** A dependency chain, each fixture followed by one it depends on. */
  ghost predicate IsChain(reg: Registry, p: seq<string>) {
    p != [] && forall i :: 0 <= i < |p| - 1 ==> Edge(reg, p[i], p[i + 1])
  }

  ghost predicate IsCycle(reg: Registry, p: seq<string>) {
    IsChain(reg, p) && |p| > 1 && p[0] == p[|p| - 1]
  }

  ghost predicate Acyclic(reg: Registry) {
    forall p :: !IsCycle(reg, p)
  }

  ghost predicate DepsExist(reg: Registry) {
    forall a, b :: Edge(reg, a, b) ==> b in reg
  }

  /** A fixture may depend on its own kind, anything may depend on a process fixture, a variable one on anything. */
  predicate MayDepend(a: Scope, b: Scope) { a == b || a == Variable || b == Process }

  /** No fixture depends on one of narrower scope. */
  ghost predicate ScopesOk(reg: Registry) {
    forall a, b :: Edge(reg, a, b) && b in reg ==> MayDepend(reg[a].scope, reg[b].scope)
  }

  // ---- Finishing order

  /** Every dependency of a listed fixture is listed before it, and nothing is listed twice. */
  ghost predicate Topological(reg: Registry, order: seq<string>) {
    && (forall i, j :: 0 <= i < j < |order| ==> order[i] != order[j])
    && forall i, d :: 0 <= i < |order| && Edge(reg, order[i], d) ==> d in order[..i]
  }

  lemma TopologicalSnoc(reg: Registry, order: seq<string>, name: string)
    requires Topological(reg, order) && name !in order
    requires forall d :: Edge(reg, name, d) ==> d in order
    ensures Topological(reg, order + [name])
  {
    var longer := order + [name];
    forall i, d | 0 <= i < |longer| && Edge(reg, longer[i], d) ensures d in longer[..i] {
      if i < |order| {
        assert longer[..i] == order[..i];
      } else {
        assert longer[..i] == order;
      }
    }
  }

  /** Along a chain the position in the order goes down. */
  lemma {:induction false} ChainDescends(reg: Registry, order: seq<string>, p: seq<string>, i: nat)
    requires Topological(reg, order) && IsChain(reg, p) && i < |order| && order[i] == p[0]
    ensures exists j :: 0 <= j <= i && order[j] == p[|p| - 1] && (|p| > 1 ==> j < i)
    decreases |p|
  {
    if |p| > 1 {
      assert Edge(reg, p[0], p[0 + 1]);
      assert p[1] in order[..i];
      var k :| 0 <= k < i && order[..i][k] == p[1];
      assert order[k] == p[1];
      var q := p[1..];
      forall m | 0 <= m < |q| - 1 ensures Edge(reg, q[m], q[m + 1]) {
        assert Edge(reg, p[m + 1], p[m + 1 + 1]);
      }
      ChainDescends(reg, order, q, k);
    }
  }

  lemma NoCycleThrough(reg: Registry, order: seq<string>, p: seq<string>)
    requires Topological(reg, order) && p != [] && p[0] in order
    ensures !IsCycle(reg, p)
  {
    if IsCycle(reg, p) {
      var i :| 0 <= i < |order| && order[i] == p[0];
      ChainDescends(reg, order, p, i);
    }
  }

  // ---- Cycle detection

  /** All names the search can meet. */
  ghost function Universe(reg: Registry): set<string> {
    reg.Keys + set a, d | a in reg && d in reg[a].deps :: d
  }

  /** The open calls of the search: a chain whose last fixture requested `name`. */
  ghost predicate OpenCalls(reg: Registry, stack: seq<string>, name: string) {
    && (stack != [] ==> IsChain(reg, stack) && Edge(reg, stack[|stack| - 1], name))
    && forall x :: x in stack ==> x in Universe(reg)
  }

  ghost predicate Visited(reg: Registry, visited: set<string>, order: seq<string>) {
    Topological(reg, order) && forall x :: x in visited <==> x in order
  }

  lemma ClosesCycle(reg: Registry, stack: seq<string>, name: string) returns (cycle: seq<string>)
    requires OpenCalls(reg, stack, name) && name in stack
    ensures IsCycle(reg, cycle)
  {
    var i :| 0 <= i < |stack| && stack[i] == name;
    cycle := stack[i..] + [name];
    forall k | 0 <= k < |cycle| - 1 ensures Edge(reg, cycle[k], cycle[k + 1]) {
      if k < |stack| - i - 1 { assert Edge(reg, stack[i + k], stack[i + k + 1]); }
    }
  }

  lemma PushCall(reg: Registry, stack: seq<string>, name: string, dep: string)
    requires OpenCalls(reg, stack, name) && name in Universe(reg) && Edge(reg, name, dep)
    ensures OpenCalls(reg, stack + [name], dep)
  {
    var longer := stack + [name];
    forall k | 0 <= k < |longer| - 1 ensures Edge(reg, longer[k], longer[k + 1]) {
      if k < |stack| - 1 { assert Edge(reg, stack[k], stack[k + 1]); }
    }
  }

  /**
   `detect_cycle`: false where the source panics. `visiting` is as it was on
   return; `visited` grows by what became reachable.
   */
  method DetectCycle(reg: Registry, name: string, visiting: set<string>, visited: set<string>,
                     ghost stack: seq<string>, ghost order: seq<string>)
    returns (ok: bool, visited': set<string>, ghost order': seq<string>)
    requires name in Universe(reg) && visiting <= Universe(reg)
    requires OpenCalls(reg, stack, name) && (forall x :: x in visiting <==> x in stack)
    requires Visited(reg, visited, order) && visiting !! visited
    ensures ok ==> Visited(reg, visited', order') && visited <= visited' && name in visited' && visiting !! visited'
    ensures !ok ==> !Acyclic(reg)
    decreases Universe(reg) - visiting
  {
    visited', order' := visited, order;
    if name in visited { return true, visited', order'; }
    if name in visiting {
      ghost var cycle := ClosesCycle(reg, stack, name);
      return false, visited', order';
    }
    if name in reg {
      var deps := reg[name].deps;
      for k := 0 to |deps|
        invariant Visited(reg, visited', order') && visited <= visited' && (visiting + {name}) !! visited'
        invariant forall m :: 0 <= m < k ==> deps[m] in visited'
      {
        assert Edge(reg, name, deps[k]);
        PushCall(reg, stack, name, deps[k]);
        ok, visited', order' :=
          DetectCycle(reg, deps[k], visiting + {name}, visited', stack + [name], order');
        if !ok { return; }
      }
    }
    TopologicalSnoc(reg, order', name);
    visited', order' := visited' + {name}, order' + [name];
    ok := true;
  }

  /** A cycle passes through a registered fixture. */
  lemma CycleStartsRegistered(reg: Registry, p: seq<string>)
    requires IsCycle(reg, p)
    ensures p[0] in reg
  {
    assert Edge(reg, p[0], p[0 + 1]);
  }

  /** `validate_fixture_graph` accepts exactly the registries whose graph is sound. */
  method ValidateGraph(reg: Registry) returns (ok: bool)
    ensures ok <==> DepsExist(reg) && ScopesOk(reg) && Acyclic(reg)
  {
    var todo := reg.Keys;
    while todo != {}
      invariant todo <= reg.Keys
      invariant forall a, b :: a !in todo && Edge(reg, a, b) ==> b in reg && MayDepend(reg[a].scope, reg[b].scope)
      decreases |todo|
    {
      var a :| a in todo;
      var deps := reg[a].deps;
      for k := 0 to |deps|
        invariant forall m :: 0 <= m < k ==> deps[m] in reg && MayDepend(reg[a].scope, reg[deps[m]].scope)
      {
        assert Edge(reg, a, deps[k]);
        if deps[k] !in reg || Width(reg[deps[k]].scope) < Width(reg[a].scope) { return false; }
      }
      todo := todo - {a};
    }
    todo := reg.Keys;
    forall p | IsCycle(reg, p) ensures p[0] in todo { CycleStartsRegistered(reg, p); }
    while todo != {}
      invariant todo <= reg.Keys
      invariant forall p :: IsCycle(reg, p) ==> p[0] in todo
      decreases |todo|
    {
      var a :| a in todo;
      ghost var order: seq<string>;
      var fine, seen;
      fine, seen, order := DetectCycle(reg, a, {}, {}, [], []);
      if !fine { return false; }
      forall p | IsCycle(reg, p) ensures p[0] in todo - {a} {
        if p[0] == a { NoCycleThrough(reg, order, p); }
      }
      todo := todo - {a};
    }
    return true;
  }

  // ---- What acceptance gives

  /** Every transitive dependency has the same or a wider scope. */
  lemma {:induction false} TransitiveScopes(reg: Registry, p: seq<string>)
    requires DepsExist(reg) && ScopesOk(reg) && IsChain(reg, p) && p[0] in reg
    ensures p[|p| - 1] in reg && MayDepend(reg[p[0]].scope, reg[p[|p| - 1]].scope)
    decreases |p|
  {
    if |p| > 1 {
      var q := p[..|p| - 1];
      forall m | 0 <= m < |q| - 1 ensures Edge(reg, q[m], q[m + 1]) {
        assert Edge(reg, p[m], p[m + 1]);
      }
      TransitiveScopes(reg, q);
      assert Edge(reg, p[|p| - 2], p[|p| - 2 + 1]);
    }
  }

  ghost function Elements(p: seq<string>): set<string> { set x | x in p }

  lemma {:induction false} DistinctCount(p: seq<string>)
    requires forall i, j :: 0 <= i < j < |p| ==> p[i] != p[j]
    ensures |Elements(p)| == |p|
  {
    if p == [] {
      assert Elements(p) == {};
    } else {
      var q := p[..|p| - 1];
      DistinctCount(q);
      assert p == q + [p[|p| - 1]];
      assert Elements(p) == Elements(q) + {p[|p| - 1]};
    }
  }

  /** Recursive setup terminates: no chain of requests is longer than the number of fixtures. */
  lemma ChainsAreShort(reg: Registry, p: seq<string>)
    requires DepsExist(reg) && Acyclic(reg) && IsChain(reg, p) && p[0] in reg
    ensures |p| <= |reg|
  {
    forall i, j | 0 <= i < j < |p| ensures p[i] != p[j] {
      var c := p[i..j + 1];
      forall m | 0 <= m < |c| - 1 ensures Edge(reg, c[m], c[m + 1]) {
        assert Edge(reg, p[i + m], p[i + m + 1]);
      }
      assert !IsCycle(reg, c);
    }
    DistinctCount(p);
    forall x | x in Elements(p) ensures x in reg.Keys {
      var i :| 0 <= i < |p| && p[i] == x;
      if i > 0 { assert Edge(reg, p[i - 1], p[i - 1 + 1]); }
    }
    SubsetCount(Elements(p), reg.Keys);
  }

  lemma SubsetCount(a: set<string>, b: set<string>)
    requires a <= b
    ensures |a| <= |b|
  {
    assert b == a + (b - a);
  }
}
