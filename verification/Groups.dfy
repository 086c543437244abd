/**
 Static test groups: the conflict graph over dumped test metadata, and its
 connected components of more than one test.
 */
module Groups {
  import opened LabelExpr
  import opened Diagram
  import opened Canonical
  import opened SerialFilter
  import opened Tables
  import opened UnionFind

  type Key = (string, string)

  datatype Meta = Meta(binary: string, name: string, labels: set<string>, filter: string)

  datatype Group = Group(name: string, members: seq<Key>)

  function KeyOf(t: Meta): Key { (t.binary, t.name) }

  function TestOf(t: Meta): Test { Test(t.name, t.labels, t.filter) }

  /** `collect_metadata` drops tests whose filter does not parse. */
  ghost predicate Collected(tests: seq<Meta>) {
    forall i :: 0 <= i < |tests| ==> ValidSerial(tests[i].filter)
  }

  // ---- Conflicts

  predicate Conflicts(a: Meta, b: Meta, render: Bdd -> Expr) {
    if a.filter == SERIAL_ALL || b.filter == SERIAL_ALL then true
    else if a.filter != SERIAL_NONE && FilterMatches(a.filter, b.labels, render) then true
    else b.filter != SERIAL_NONE && FilterMatches(b.filter, a.labels, render)
  }

  /** The static relation is the one admission decides by. */
  lemma ConflictsIsConflict(a: Meta, b: Meta, render: Bdd -> Expr)
    requires IsRenderer(render)
    ensures Conflicts(a, b, render) == Conflict(TestOf(a), TestOf(b))
    ensures Conflicts(a, b, render) == Conflicts(b, a, render)
  {
    if a.filter != SERIAL_NONE && a.filter != SERIAL_ALL { MatchesIsSelects(a.filter, b.labels, render); }
    if b.filter != SERIAL_NONE && b.filter != SERIAL_ALL { MatchesIsSelects(b.filter, a.labels, render); }
  }

  // ---- Connectedness

  ghost predicate IsPath(tests: seq<Meta>, p: seq<nat>, render: Bdd -> Expr) {
    && p != []
    && (forall k :: 0 <= k < |p| ==> p[k] < |tests|)
    && forall k :: 0 <= k < |p| - 1 ==> Conflicts(tests[p[k]], tests[p[k + 1]], render)
  }

  ghost predicate Joined(tests: seq<Meta>, p: seq<nat>, a: nat, b: nat, render: Bdd -> Expr) {
    IsPath(tests, p, render) && p[0] == a && p[|p| - 1] == b
  }

  /** A chain of conflicts leads from `a` to `b`. */
  ghost predicate Connected(tests: seq<Meta>, a: nat, b: nat, render: Bdd -> Expr) {
    exists p :: Joined(tests, p, a, b, render)
  }

  lemma ConnectedSelf(tests: seq<Meta>, a: nat, render: Bdd -> Expr)
    requires a < |tests|
    ensures Connected(tests, a, a, render)
  {
    assert Joined(tests, [a], a, a, render);
  }

  lemma ConnectedEdge(tests: seq<Meta>, a: nat, b: nat, render: Bdd -> Expr)
    requires a < |tests| && b < |tests| && Conflicts(tests[a], tests[b], render)
    ensures Connected(tests, a, b, render)
  {
    assert Joined(tests, [a, b], a, b, render);
  }

  lemma ConnectedTrans(tests: seq<Meta>, a: nat, b: nat, c: nat, render: Bdd -> Expr)
    requires Connected(tests, a, b, render) && Connected(tests, b, c, render)
    ensures Connected(tests, a, c, render)
  {
    var p :| Joined(tests, p, a, b, render);
    var q :| Joined(tests, q, b, c, render);
    var r := p + q[1..];
    forall k | 0 <= k < |r| - 1 ensures Conflicts(tests[r[k]], tests[r[k + 1]], render) {
      if k >= |p| - 1 { assert r[k] == q[k - (|p| - 1)] && r[k + 1] == q[k + 1 - (|p| - 1)]; }
    }
    assert Joined(tests, r, a, c, render);
  }

  lemma {:induction false} ConnectedSym(tests: seq<Meta>, a: nat, b: nat, render: Bdd -> Expr)
    requires IsRenderer(render) && Connected(tests, a, b, render)
    ensures Connected(tests, b, a, render)
  {
    var p :| Joined(tests, p, a, b, render);
    ReversedPath(tests, p, a, b, render);
  }

  lemma {:induction false} ReversedPath(tests: seq<Meta>, p: seq<nat>, a: nat, b: nat, render: Bdd -> Expr)
    requires IsRenderer(render) && Joined(tests, p, a, b, render)
    ensures Connected(tests, b, a, render)
    decreases |p|
  {
    if |p| == 1 {
      ConnectedSelf(tests, a, render);
    } else {
      var c := p[1];
      var q := p[1..];
      forall k | 0 <= k < |q| - 1 ensures Conflicts(tests[q[k]], tests[q[k + 1]], render) {
        assert q[k] == p[k + 1] && q[k + 1] == p[k + 2];
      }
      assert Joined(tests, q, c, b, render);
      ReversedPath(tests, q, c, b, render);
      assert Conflicts(tests[p[0]], tests[p[0 + 1]], render);
      ConflictsIsConflict(tests[a], tests[c], render);
      ConnectedEdge(tests, c, a, render);
      ConnectedTrans(tests, b, c, a, render);
    }
  }

  // ---- The partition

  /** Elements with one representative are connected. */
  ghost predicate Sound(tests: seq<Meta>, rep: seq<nat>, render: Bdd -> Expr)
    requires |rep| == |tests|
  {
    forall a, b :: 0 <= a < |rep| && 0 <= b < |rep| && rep[a] == rep[b] ==> Connected(tests, a, b, render)
  }

  lemma UnionSound(tests: seq<Meta>, before: seq<nat>, after: seq<nat>, x: nat, y: nat, render: Bdd -> Expr)
    requires IsRenderer(render) && |before| == |tests| && x < |tests| && y < |tests|
    requires Sound(tests, before, render) && Conflicts(tests[x], tests[y], render)
    requires after == Relabel(before, before[x], before[y]) || after == Relabel(before, before[y], before[x])
    ensures Sound(tests, after, render)
  {
    ConnectedEdge(tests, x, y, render);
    ConnectedSym(tests, x, y, render);
    forall a, b | 0 <= a < |after| && 0 <= b < |after| && after[a] == after[b] ensures Connected(tests, a, b, render) {
      UnionClasses(before, after, x, y, a, b);
      if before[a] != before[b] {
        var u, v := if before[a] == before[x] then x else y, if before[a] == before[x] then y else x;
        ConnectedTrans(tests, a, u, v, render);
        ConnectedTrans(tests, a, v, b, render);
      }
    }
  }

  /** Conflicting tests that have been compared share a representative. */
  ghost predicate Done(tests: seq<Meta>, rep: seq<nat>, i: nat, j: nat, render: Bdd -> Expr)
    requires |rep| == |tests|
  {
    forall a, b :: 0 <= a < b < |tests| && (a < i || (a == i && b < j)) && Conflicts(tests[a], tests[b], render) ==>
                   rep[a] == rep[b]
  }

  lemma UnionDone(tests: seq<Meta>, before: seq<nat>, after: seq<nat>, i: nat, j: nat, render: Bdd -> Expr)
    requires |before| == |tests| && i < j < |tests| && Done(tests, before, i, j, render)
    requires after == Relabel(before, before[i], before[j]) || after == Relabel(before, before[j], before[i])
    ensures Done(tests, after, i, j + 1, render)
  {
    forall a, b | 0 <= a < b < |tests| && (a < i || (a == i && b < j + 1)) && Conflicts(tests[a], tests[b], render)
      ensures after[a] == after[b]
    {
      UnionClasses(before, after, i, j, a, b);
    }
  }

  /** `rep` tells exactly the connected components apart. */
  ghost predicate IsPartition(tests: seq<Meta>, rep: seq<nat>, render: Bdd -> Expr) {
    && |rep| == |tests|
    && forall a, b :: 0 <= a < |tests| && 0 <= b < |tests| ==> (rep[a] == rep[b] <==> Connected(tests, a, b, render))
  }

  /** The components can always be told apart. */
  lemma PartitionExists(tests: seq<Meta>, render: Bdd -> Expr) returns (rep: seq<nat>)
    requires IsRenderer(render)
    ensures IsPartition(tests, rep, render)
  {
    rep := PartitionBelow(tests, |tests|, render);
  }

  lemma {:induction false} PartitionBelow(tests: seq<Meta>, k: nat, render: Bdd -> Expr) returns (rep: seq<nat>)
    requires IsRenderer(render) && k <= |tests|
    ensures |rep| == k && forall a :: 0 <= a < k ==> rep[a] <= a
    ensures forall a, b :: 0 <= a < k && 0 <= b < k ==> (rep[a] == rep[b] <==> Connected(tests, a, b, render))
  {
    rep := [];
    if k > 0 {
      var n := k - 1;
      var most := PartitionBelow(tests, n, render);
      ConnectedSelf(tests, n, render);
      forall a: nat, b: nat | Connected(tests, a, b, render) ensures Connected(tests, b, a, render) {
        ConnectedSym(tests, a, b, render);
      }
      if j: nat :| j < n && Connected(tests, j, n, render) {
        rep := most + [most[j]];
        forall a | 0 <= a < n ensures most[a] == most[j] <==> Connected(tests, a, n, render) {
          if most[a] == most[j] { ConnectedTrans(tests, a, j, n, render); }
          if Connected(tests, a, n, render) { ConnectedTrans(tests, a, n, j, render); }
        }
      } else {
        rep := most + [n];
      }
    }
  }

  lemma {:induction false} PathKeepsRep(tests: seq<Meta>, rep: seq<nat>, p: seq<nat>, render: Bdd -> Expr)
    requires IsRenderer(render) && |rep| == |tests| && Done(tests, rep, |tests|, |tests|, render)
    requires IsPath(tests, p, render)
    ensures rep[p[0]] == rep[p[|p| - 1]]
    decreases |p|
  {
    if |p| > 1 {
      var q := p[..|p| - 1];
      PathKeepsRep(tests, rep, q, render);
      var a, b := p[|p| - 2], p[|p| - 2 + 1];
      assert Conflicts(tests[a], tests[b], render);
      ConflictsIsConflict(tests[a], tests[b], render);
    }
  }

  lemma PartitionComplete(tests: seq<Meta>, rep: seq<nat>, render: Bdd -> Expr)
    requires IsRenderer(render) && |rep| == |tests|
    requires Sound(tests, rep, render) && Done(tests, rep, |tests|, |tests|, render)
    ensures IsPartition(tests, rep, render)
  {
    forall a, b | 0 <= a < |tests| && 0 <= b < |tests| && Connected(tests, a, b, render) ensures rep[a] == rep[b] {
      var p :| Joined(tests, p, a, b, render);
      PathKeepsRep(tests, rep, p, render);
    }
  }

  lemma DiscreteSound(tests: seq<Meta>, rep: seq<nat>, render: Bdd -> Expr)
    requires |rep| == |tests| && forall i :: 0 <= i < |rep| ==> rep[i] == i
    ensures Sound(tests, rep, render) && Done(tests, rep, 0, 0, render)
  {
    forall a, b | 0 <= a < |rep| && 0 <= b < |rep| && rep[a] == rep[b] ensures Connected(tests, a, b, render) {
      ConnectedSelf(tests, a, render);
    }
  }

  ghost predicate SoundSoFar(tests: seq<Meta>, rep: seq<nat>, i: nat, j: nat, render: Bdd -> Expr) {
    |rep| == |tests| && Sound(tests, rep, render) && Done(tests, rep, i, j, render)
  }

  lemma NextRow(tests: seq<Meta>, rep: seq<nat>, i: nat, render: Bdd -> Expr)
    requires SoundSoFar(tests, rep, i, |tests|, render)
    ensures SoundSoFar(tests, rep, i + 1, 0, render)
  {
  }

  /** One comparison: a conflict merges the two classes, anything else leaves them. */
  lemma NextPair(tests: seq<Meta>, before: seq<nat>, after: seq<nat>, i: nat, j: nat, render: Bdd -> Expr)
    requires IsRenderer(render) && i < j < |tests| && SoundSoFar(tests, before, i, j, render)
    requires if Conflicts(tests[i], tests[j], render)
             then after == Relabel(before, before[i], before[j]) || after == Relabel(before, before[j], before[i])
             else after == before
    ensures SoundSoFar(tests, after, i, j + 1, render)
  {
    if Conflicts(tests[i], tests[j], render) {
      UnionSound(tests, before, after, i, j, render);
      UnionDone(tests, before, after, i, j, render);
    }
  }

  /** The inner loop: test `i` against every later one. */
  method CompareWithLater(uf: Partition, tests: seq<Meta>, i: nat, render: Bdd -> Expr)
    requires IsRenderer(render) && i < |tests|
    requires uf.Valid() && SoundSoFar(tests, uf.rep, i, 0, render)
    modifies uf
    ensures uf.Valid() && SoundSoFar(tests, uf.rep, i, |tests|, render)
  {
    for j := i + 1 to |tests|
      invariant uf.Valid() && SoundSoFar(tests, uf.rep, i, j, render)
    {
      ghost var before := uf.rep;
      if Conflicts(tests[i], tests[j], render) {
        uf.Union(i, j);
      }
      NextPair(tests, before, uf.rep, i, j, render);
    }
  }

  /** The nested loops over pairs. */
  method Classify(tests: seq<Meta>, render: Bdd -> Expr) returns (rep: seq<nat>)
    requires IsRenderer(render)
    ensures IsPartition(tests, rep, render) && forall i :: 0 <= i < |rep| ==> rep[i] < |rep|
  {
    var uf := new Partition(|tests|);
    DiscreteSound(tests, uf.rep, render);
    for i := 0 to |tests|
      invariant uf.Valid() && SoundSoFar(tests, uf.rep, i, 0, render)
    {
      CompareWithLater(uf, tests, i, render);
      NextRow(tests, uf.rep, i, render);
    }
    rep := uf.FindAll();
    PartitionComplete(tests, rep, render);
  }

  /** The indices with representative `r` among the first `k`, in order. */
  function Class(rep: seq<nat>, r: nat, k: nat): (c: seq<nat>)
    requires k <= |rep|
    ensures forall i :: 0 <= i < |c| ==> c[i] < k
  {
    if k == 0 then [] else Class(rep, r, k - 1) + if rep[k - 1] == r then [k - 1] else []
  }

  lemma {:induction false} ClassMembers(rep: seq<nat>, r: nat, k: nat)
    requires k <= |rep|
    ensures forall i: nat :: i in Class(rep, r, k) <==> i < k && rep[i] == r
    ensures Increasing(Class(rep, r, k))
  {
    if k > 0 {
      ClassMembers(rep, r, k - 1);
      var c := Class(rep, r, k - 1);
      forall i, j | 0 <= i < j < |Class(rep, r, k)| ensures Class(rep, r, k)[i] < Class(rep, r, k)[j] {
        if j == |c| { assert c[i] in c; }
      }
    }
  }

  ghost predicate Increasing(s: seq<nat>) {
    forall i, j :: 0 <= i < j < |s| ==> s[i] < s[j]
  }

  /** `components`: a list per representative, filled in one pass. */
  method Components(rep: seq<nat>) returns (components: map<nat, seq<nat>>)
    ensures components.Keys == set i | 0 <= i < |rep| :: rep[i]
    ensures forall r :: r in components ==> components[r] == Class(rep, r, |rep|)
  {
    components := map[];
    for i := 0 to |rep|
      invariant components.Keys == set k | 0 <= k < i :: rep[k]
      invariant forall r :: r in components ==> components[r] == Class(rep, r, i)
    {
      var r := rep[i];
      if r !in components { EmptyClass(rep, r, i); }
      var sofar := if r in components then components[r] else [];
      components := components[r := sofar + [i]];
    }
  }

  lemma {:induction false} EmptyClass(rep: seq<nat>, r: nat, k: nat)
    requires k <= |rep| && forall i :: 0 <= i < k ==> rep[i] != r
    ensures Class(rep, r, k) == []
  {
    if k > 0 { EmptyClass(rep, r, k - 1); }
  }
}
