/**
 Static groups against whole runs: a schedule that keeps the members of each group
 apart makes every admission succeed at once.
 */
module GroupedRuns {
  import opened LabelExpr
  import opened Diagram
  import opened Syntax
  import opened Canonical
  import opened SerialFilter
  import opened Instance
  import opened Tables
  import opened Protocol
  import opened ProtocolSafety
  import opened Groups
  import opened Grouping

  /** The metadata dump of a test: its labels, and its filter in storage form. */
  ghost predicate Dumped(m: Meta, test: Test, render: Bdd -> Expr) {
    m.labels == test.labels && ToStorage(test.filter, render) == Ok(m.filter)
  }

  /** Dumping through the storage form changes no conflict. */
  lemma DumpKeepsConflict(a: Meta, x: Test, b: Meta, y: Test, render: Bdd -> Expr)
    requires IsRenderer(render) && ValidSerial(x.filter) && ValidSerial(y.filter)
    requires Dumped(a, x, render) && Dumped(b, y, render)
    ensures Conflicts(a, b, render) == Conflict(x, y)
  {
    ConflictsIsConflict(a, b, render);
    StorageKeepsSelection(x.filter, render);
    StorageKeepsSelection(y.filter, render);
    assert Selects(a.filter, y.labels) == Selects(x.filter, y.labels);
    assert Selects(b.filter, x.labels) == Selects(y.filter, x.labels);
  }

  /** Every test registered through the view of `t` is a dumped test other than `t`'s, in no group with it. */
  ghost predicate KeptApart(s: State, t: nat, tests: seq<Meta>, gs: seq<Group>, at: map<nat, nat>,
                            render: Bdd -> Expr) {
    && t in s.workers && t in at && at[t] < |tests| && Dumped(tests[at[t]], s.workers[t].test, render)
    && forall u :: Holds(s, u) && SameView(s, u, t) ==>
         && u in at && at[u] < |tests| && at[u] != at[t] && Dumped(tests[at[u]], s.workers[u].test, render)
         && !ShareGroup(gs, tests[at[t]], tests[at[u]])
  }

  /** `coordinate` succeeds on its first admission check when the groups are respected. */
  lemma GroupsAdmitAtOnce(states: seq<State>, labels: seq<Label>, i: nat, t: nat, answering: set<nat>,
                          tests: seq<Meta>, gs: seq<Group>, at: map<nat, nat>,
                          hash: string -> string, render: Bdd -> Expr)
    requires IsRenderer(render) && IsRun(states, labels, render) && i < |states|
    requires forall k :: 0 <= k < i ==> NamesFiles(states[k]) && !LeavesRowsBehind(states[k], labels[k])
    requires At(states[i], t, Checked) && ValidSerial(states[i].workers[t].test.filter)
    requires ViewOf(states[i].workers[t]) in states[i].dbs
    requires forall q :: q in states[i].live ==> q.pid in answering
    requires NoPidReuse(states[i], states[i].dbs[ViewOf(states[i].workers[t])], answering)
    requires DistinctTests(tests) && IsGrouping(tests, gs, hash, render)
    requires KeptApart(states[i], t, tests, gs, at, render)
    ensures At(AdmitStep(states[i], t, answering, render), t, Registered)
  {
    var s := states[i];
    RunInvariant(states, labels, i, render);
    WaitsExactlyForConflicts(states, labels, i, t, answering, render);
    AdmitWorkers(s, t, answering, t, render);
    forall u | Holds(s, u) && SameView(s, u, t)
      ensures !Conflict(s.workers[t].test, s.workers[u].test)
    {
      assert WorkerOk(s, u, s.workers[u], render);
      DumpKeepsConflict(tests[at[t]], s.workers[t].test, tests[at[u]], s.workers[u].test, render);
      if Conflicts(tests[at[t]], tests[at[u]], render) {
        ConflictSharesGroup(tests, gs, at[t], at[u], hash, render);
      }
    }
  }
}
