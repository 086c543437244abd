/**
 The walk over fixture dependencies: each registered fixture reachable from the
 roots once, in first-visit pre-order, on cyclic graphs as well.
 */
module FixtureWalk {
  import opened FixtureGraph
  import opened SerialFilter

  // ---- Reference: pre-order with an explicit stack of pending names

  function Preorder(reg: Registry, pending: seq<string>, seen: set<string>): seq<string>
    decreases reg.Keys - seen, |pending|
  {
    if pending == [] then []
    else
      var name, rest := pending[0], pending[1..];
      if name in seen then Preorder(reg, rest, seen)
      else if name !in reg then Preorder(reg, rest, seen + {name})
      else [name] + Preorder(reg, reg[name].deps + rest, seen + {name})
  }

  // ---- The recursive walk

  /** One call of the walk, followed by whatever is pending in its callers. */
  method Walk(reg: Registry, name: string, visited: set<string>, ghost rest: seq<string>)
    returns (visited': set<string>, out: seq<string>)
    ensures visited <= visited' && name in visited'
    ensures Preorder(reg, [name] + rest, visited) == out + Preorder(reg, rest, visited')
    decreases reg.Keys - visited
  {
    visited', out := visited + {name}, [];
    assert ([name] + rest)[1..] == rest;
    assert name in visited ==> visited' == visited;
    if name in visited || name !in reg { return; }
    out := [name];
    var deps := reg[name].deps;
    for k := 0 to |deps|
      invariant visited + {name} <= visited'
      invariant Preorder(reg, [name] + rest, visited) == out + Preorder(reg, deps[k..] + rest, visited')
    {
      ghost var pending := deps[k + 1..] + rest;
      assert deps[k..] + rest == [deps[k]] + pending;
      var more;
      visited', more := Walk(reg, deps[k], visited', pending);
      out := out + more;
    }
    assert deps[|deps|..] + rest == rest;
  }

  method WalkAll(reg: Registry, names: seq<string>) returns (out: seq<string>)
    ensures out == Preorder(reg, names, {})
    ensures NoRepeats(out)
    ensures forall x :: x in out <==> Reachable(reg, names, x)
  {
    var visited := {};
    out := [];
    for k := 0 to |names|
      invariant Preorder(reg, names, {}) == out + Preorder(reg, names[k..], visited)
    {
      assert names[k..] == [names[k]] + names[k + 1..];
      var more;
      visited, more := Walk(reg, names[k], visited, names[k + 1..]);
      out := out + more;
    }
    VisitsOnce(reg, names, {});
    forall x ensures x in out <==> Reachable(reg, names, x) { VisitsExactly(reg, names, x); }
  }

  // ---- What the pre-order lists

  ghost predicate ChainTo(reg: Registry, names: seq<string>, p: seq<string>, x: string) {
    IsChain(reg, p) && p[0] in names && p[|p| - 1] == x
  }

  /** A registered fixture that a root is, or depends on transitively. */
  ghost predicate Reachable(reg: Registry, names: seq<string>, x: string) {
    x in reg && exists p :: ChainTo(reg, names, p, x)
  }

  ghost predicate Avoids(p: seq<string>, seen: set<string>) {
    forall i :: 0 <= i < |p| ==> p[i] !in seen
  }

  ghost predicate NoRepeats(s: seq<string>) {
    forall i, j :: 0 <= i < j < |s| ==> s[i] != s[j]
  }

  /** A list of registered fixtures, none of which has been seen. */
  ghost predicate Unseen(reg: Registry, seen: set<string>, s: seq<string>) {
    forall x :: x in s ==> x in reg && x !in seen
  }

  lemma {:induction false} VisitsOnce(reg: Registry, pending: seq<string>, seen: set<string>)
    ensures NoRepeats(Preorder(reg, pending, seen)) && Unseen(reg, seen, Preorder(reg, pending, seen))
    decreases reg.Keys - seen, |pending|
  {
    if pending != [] {
      var name, rest := pending[0], pending[1..];
      if name in seen {
        VisitsOnce(reg, rest, seen);
      } else if name !in reg {
        VisitsOnce(reg, rest, seen + {name});
      } else {
        var deeper := Preorder(reg, reg[name].deps + rest, seen + {name});
        VisitsOnce(reg, reg[name].deps + rest, seen + {name});
        assert Preorder(reg, pending, seen) == [name] + deeper;
        assert name !in deeper;
      }
    }
  }

  lemma {:induction false} VisitedIsReached(reg: Registry, pending: seq<string>, seen: set<string>, x: string)
    returns (p: seq<string>)
    requires x in Preorder(reg, pending, seen)
    ensures ChainTo(reg, pending, p, x)
    decreases reg.Keys - seen, |pending|
  {
    var name, rest := pending[0], pending[1..];
    if name in seen {
      p := VisitedIsReached(reg, rest, seen, x);
    } else if name !in reg {
      p := VisitedIsReached(reg, rest, seen + {name}, x);
    } else if x == name {
      p := [name];
    } else {
      p := VisitedIsReached(reg, reg[name].deps + rest, seen + {name}, x);
      if p[0] in reg[name].deps {
        p := ExtendFront(reg, name, p);
      }
    }
  }

  lemma ExtendFront(reg: Registry, name: string, p: seq<string>) returns (q: seq<string>)
    requires IsChain(reg, p) && Edge(reg, name, p[0])
    ensures IsChain(reg, q) && q[0] == name && q[|q| - 1] == p[|p| - 1]
  {
    q := [name] + p;
    forall i | 0 <= i < |q| - 1 ensures Edge(reg, q[i], q[i + 1]) {
      if i > 0 { assert Edge(reg, p[i - 1], p[i - 1 + 1]); }
    }
  }

  lemma ChainSuffix(reg: Registry, p: seq<string>, k: nat)
    requires IsChain(reg, p) && k < |p|
    ensures IsChain(reg, p[k..])
  {
    var q := p[k..];
    forall i | 0 <= i < |q| - 1 ensures Edge(reg, q[i], q[i + 1]) {
      assert Edge(reg, p[k + i], p[k + i + 1]);
    }
  }

  /** The part of a chain behind the last place it passes `name`. */
  lemma {:induction false} LastPass(p: seq<string>, name: string) returns (k: nat)
    requires name in p
    ensures k < |p| && p[k] == name && forall i :: k < i < |p| ==> p[i] != name
  {
    if p[|p| - 1] == name {
      k := |p| - 1;
    } else {
      var q := p[..|p| - 1];
      assert p == q + [p[|p| - 1]];
      k := LastPass(q, name);
      assert forall i :: k < i < |q| ==> p[i] == q[i];
    }
  }

  lemma {:induction false} ReachedIsVisited(reg: Registry, pending: seq<string>, seen: set<string>,
                                            p: seq<string>, x: string)
    requires ChainTo(reg, pending, p, x) && Avoids(p, seen) && x in reg
    ensures x in Preorder(reg, pending, seen)
    decreases reg.Keys - seen, |pending|
  {
    var name, rest := pending[0], pending[1..];
    if name in seen {
      ReachedIsVisited(reg, rest, seen, p, x);
    } else if name !in reg {
      assert Avoids(p, seen + {name}) by {
        forall i | 0 <= i < |p| ensures p[i] != name {
          if i < |p| - 1 { assert Edge(reg, p[i], p[i + 1]); }
        }
      }
      ReachedIsVisited(reg, rest, seen + {name}, p, x);
    } else if x != name {
      if name in p {
        var k := LastPass(p, name);
        assert Edge(reg, p[k], p[k + 1]);
        ChainSuffix(reg, p, k + 1);
        ReachedIsVisited(reg, reg[name].deps + rest, seen + {name}, p[k + 1..], x);
      } else {
        ReachedIsVisited(reg, reg[name].deps + rest, seen + {name}, p, x);
      }
    }
  }

  lemma VisitsExactly(reg: Registry, names: seq<string>, x: string)
    ensures x in Preorder(reg, names, {}) <==> Reachable(reg, names, x)
  {
    if x in Preorder(reg, names, {}) {
      VisitsOnce(reg, names, {});
      var p := VisitedIsReached(reg, names, {}, x);
    }
    if Reachable(reg, names, x) {
      var p :| ChainTo(reg, names, p, x);
      ReachedIsVisited(reg, names, {}, p, x);
    }
  }

  /** First visits come top down: every listed fixture is a root or was requested by one listed earlier. */
  lemma {:induction false} RequestedEarlier(reg: Registry, pending: seq<string>, seen: set<string>, j: nat)
    requires j < |Preorder(reg, pending, seen)|
    ensures var out := Preorder(reg, pending, seen);
            out[j] in pending || exists i :: 0 <= i < j && Edge(reg, out[i], out[j])
    decreases reg.Keys - seen, |pending|
  {
    var name, rest := pending[0], pending[1..];
    if name in seen {
      RequestedEarlier(reg, rest, seen, j);
    } else if name !in reg {
      RequestedEarlier(reg, rest, seen + {name}, j);
    } else if j > 0 {
      var deeper := Preorder(reg, reg[name].deps + rest, seen + {name});
      var out := Preorder(reg, pending, seen);
      assert forall i :: 0 <= i < |deeper| ==> out[i + 1] == deeper[i];
      RequestedEarlier(reg, reg[name].deps + rest, seen + {name}, j - 1);
      if deeper[j - 1] in reg[name].deps {
        assert Edge(reg, out[0], out[j]);
      } else if deeper[j - 1] !in rest {
        var i :| 0 <= i < j - 1 && Edge(reg, deeper[i], deeper[j - 1]);
        assert Edge(reg, out[i + 1], out[j]);
      }
    }
  }

  // ---- The order of the visits

  /** Everything the earlier of the pending names lead to is visited before anything else. */
  lemma {:induction false} EarlierFirst(reg: Registry, earlier: seq<string>, later: seq<string>, seen: set<string>)
    ensures Preorder(reg, earlier, seen) <= Preorder(reg, earlier + later, seen)
    decreases reg.Keys - seen, |earlier|
  {
    if earlier != [] {
      var name, rest := earlier[0], earlier[1..];
      assert (earlier + later)[1..] == rest + later;
      if name in seen {
        EarlierFirst(reg, rest, later, seen);
      } else if name !in reg {
        EarlierFirst(reg, rest, later, seen + {name});
      } else {
        assert reg[name].deps + (rest + later) == reg[name].deps + rest + later;
        EarlierFirst(reg, reg[name].deps + rest, later, seen + {name});
      }
    }
  }

  /**
   Dependencies are walked in declared order: a fixture's first visit is followed
   by all that its first `k` dependencies newly lead to, for every `k`.
   */
  lemma DeclaredOrder(reg: Registry, name: string, rest: seq<string>, seen: set<string>, k: nat)
    requires name in reg && name !in seen && k <= |reg[name].deps|
    ensures [name] + Preorder(reg, reg[name].deps[..k], seen + {name}) <= Preorder(reg, [name] + rest, seen)
  {
    var deps := reg[name].deps;
    assert ([name] + rest)[1..] == rest;
    assert deps + rest == deps[..k] + (deps[k..] + rest);
    EarlierFirst(reg, deps[..k], deps[k..] + rest, seen + {name});
  }

  /** A registered first dependency that is new comes right after its dependent. */
  lemma FirstDependencyNext(reg: Registry, name: string, rest: seq<string>, seen: set<string>)
    requires name in reg && name !in seen && reg[name].deps != []
    requires reg[name].deps[0] in reg && reg[name].deps[0] !in seen + {name}
    ensures [name, reg[name].deps[0]] <= Preorder(reg, [name] + rest, seen)
  {
    DeclaredOrder(reg, name, rest, seen, 1);
    assert reg[name].deps[..1] == [reg[name].deps[0]];
  }

  // ---- The merged serial filter of a test's fixtures

  function Serials(reg: Registry, names: seq<string>): (r: seq<string>)
    requires forall i :: 0 <= i < |names| ==> names[i] in reg
    ensures |r| == |names| && forall i :: 0 <= i < |r| ==> r[i] == reg[names[i]].serial
  {
    seq(|names|, i requires 0 <= i < |names| => reg[names[i]].serial)
  }

  /** The merged filter selects exactly what some reachable fixture's own filter selects. */
  method CollectFixtureSerial(reg: Registry, names: seq<string>) returns (merged: string)
    requires forall x :: x in reg ==> ValidSerial(reg[x].serial)
    ensures ValidSerial(merged)
    ensures forall labels :: Selects(merged, labels) <==>
                             exists x :: Reachable(reg, names, x) && Selects(reg[x].serial, labels)
    ensures merged == SERIAL_NONE <==> forall x :: Reachable(reg, names, x) ==> reg[x].serial == SERIAL_NONE
    ensures merged == SERIAL_ALL <==> exists x :: Reachable(reg, names, x) && reg[x].serial == SERIAL_ALL
  {
    var out := WalkAll(reg, names);
    assert forall i :: 0 <= i < |out| ==> Reachable(reg, names, out[i]);
    var serials := Serials(reg, out);
    merged := Collect(serials);
    SerialsOf(reg, names, out, serials);
    ghost var text := merged;
    forall labels ensures Selects(text, labels) <==>
                          exists x :: Reachable(reg, names, x) && Selects(reg[x].serial, labels)
    {
      assert Selects(text, labels) <==> exists f :: f in serials && Selects(f, labels);
    }
  }

  /** The filters collected are those of the reachable fixtures. */
  lemma SerialsOf(reg: Registry, names: seq<string>, out: seq<string>, serials: seq<string>)
    requires forall x :: x in out <==> Reachable(reg, names, x)
    requires |serials| == |out| && forall i :: 0 <= i < |out| ==> out[i] in reg && serials[i] == reg[out[i]].serial
    ensures forall f :: f in serials <==> exists x :: Reachable(reg, names, x) && reg[x].serial == f
  {
    forall f ensures f in serials <==> exists x :: Reachable(reg, names, x) && reg[x].serial == f {
      if f in serials {
        var i :| 0 <= i < |serials| && serials[i] == f;
        assert out[i] in out;
      }
      if x :| Reachable(reg, names, x) && reg[x].serial == f {
        var i :| 0 <= i < |out| && out[i] == x;
        assert serials[i] == f;
      }
    }
  }
}
