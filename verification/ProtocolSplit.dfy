/**
 Exclusion ends where the view ends: a run in which two conflicting bodies run on
 one main file, because its companions were swapped between them.
 */
module ProtocolSplit {
  import opened Diagram
  import opened LabelExpr
  import opened Canonical
  import opened SerialFilter
  import opened Instance
  import opened Tables
  import opened Protocol
  import opened ProtocolInvariant
  import opened ProtocolSafety

  ghost predicate Reachable(s: State, render: Bdd -> Expr)
    requires IsRenderer(render)
  {
    exists states, labels :: EndsIn(states, labels, s, render)
  }

  ghost predicate EndsIn(states: seq<State>, labels: seq<Label>, s: State, render: Bdd -> Expr)
    requires IsRenderer(render)
  {
    IsRun(states, labels, render) && states[|labels|] == s
  }

  ghost predicate Reached(s: State, render: Bdd -> Expr) {
    IsRenderer(render) && Reachable(s, render) && NamesFiles(s)
  }

  /** A reachable state, with what the steps ask of every state. */
  ghost predicate Good(s: State, render: Bdd -> Expr) {
    IsRenderer(render) && Reachable(s, render) && WellFormed(s) && Filtered(s)
  }

  lemma ReachableIsGood(s: State, render: Bdd -> Expr)
    requires IsRenderer(render) && Reachable(s, render)
    ensures Good(s, render)
  {
    var states, labels :| EndsIn(states, labels, s, render);
    RunInvariant(states, labels, |labels|, render);
    FiltersValid(s, render);
  }

  lemma Then(s: State, l: Label, render: Bdd -> Expr)
    requires Good(s, render) && Enabled(s, l)
    ensures Good(Exec(s, l, render), render)
  {
    var states, labels :| EndsIn(states, labels, s, render);
    RunExtends(states, labels, l, render);
    var after :| Steps(s, l, after, render) && IsRun(states + [after], labels + [l], render);
    assert EndsIn(states + [after], labels + [l], after, render);
    ReachableIsGood(after, render);
  }

  // ---- One worker on paths that nobody touches: its checks

  lemma StatOnce(s: State, t: nat, render: Bdd -> Expr)
    requires Reached(s, render) && t in s.workers
    requires s.workers[t].passed < Stats(s.workers[t].stage) && s.workers[t].main in s.files
    requires StatPasses(s, s.workers[t], s.workers[t].passed)
    ensures Reached(SetWorker(s, t, s.workers[t].(passed := s.workers[t].passed + 1)), render)
  {
    ReachableIsGood(s, render);
    Then(s, StatPath(t), render);
  }

  /** The worker's connection holds what the paths name. */
  ghost predicate OnPaths(s: State, w: Worker) {
    && w.sql == 0 && CALLER in s.names && w.main == s.names[CALLER] && w.main in s.files && w.mainId == s.files[w.main]
  }

  ghost predicate OnCompanions(s: State, w: Worker) {
    && WalOf(0) in s.names && ShmOf(0) in s.names && w.wal == s.names[WalOf(0)] && w.shm == s.names[ShmOf(0)]
    && w.wal in s.files && w.shm in s.files && w.walId == s.files[w.wal] && w.shmId == s.files[w.shm]
  }

  /** A check on paths that name the connection's own files completes. */
  lemma {:induction false} CheckCompletes(s: State, t: nat, k: nat, render: Bdd -> Expr)
    requires Reached(s, render) && t in s.workers && s.workers[t].passed + k == Stats(s.workers[t].stage)
    requires OnPaths(s, s.workers[t]) && (Stats(s.workers[t].stage) == 4 ==> OnCompanions(s, s.workers[t]))
    ensures Reached(SetWorker(s, t, s.workers[t].(passed := Stats(s.workers[t].stage))), render)
    decreases k
  {
    var w := s.workers[t];
    var done := SetWorker(s, t, w.(passed := Stats(w.stage)));
    if k == 0 {
      assert done == s;
    } else {
      StatOnce(s, t, render);
      var w1 := w.(passed := w.passed + 1);
      CheckCompletes(SetWorker(s, t, w1), t, k - 1, render);
      assert SetWorker(SetWorker(s, t, w1), t, w1.(passed := Stats(w.stage))) == done;
    }
  }

  // ---- Its steps, one by one

  lemma OpenStep(s: State, t: nat, render: Bdd -> Expr)
    requires Reached(s, render) && At(s, t, Starting) && CALLER in s.names
    ensures Reached(SetWorker(s, t, To(s.workers[t], Opened).(main := s.names[CALLER], sql := 0)), render)
  {
    ReachableIsGood(s, render);
    Then(s, OpenDb(t, 0), render);
  }

  lemma SqliteStep(s: State, t: nat, render: Bdd -> Expr)
    requires Reached(s, render) && At(s, t, Opened) && CALLER in s.names
    requires s.workers[t].sql == 0 && s.workers[t].main == s.names[CALLER] && s.workers[t].main in s.files
    ensures Reached(SetWorker(s, t, To(s.workers[t], SqliteNamed).(mainId := s.files[s.workers[t].main])), render)
  {
    ReachableIsGood(s, render);
    Then(s, StatSqlite(t), render);
  }

  lemma CallerStep(s: State, t: nat, render: Bdd -> Expr)
    requires Reached(s, render) && At(s, t, SqliteNamed) && OnPaths(s, s.workers[t])
    ensures Reached(Advance(s, t, MainRecorded), render)
  {
    ReachableIsGood(s, render);
    Then(s, StatCaller(t), render);
  }

  const EMPTY_DB := Db(map[], {}, 0)

  lemma SchemaStep(s: State, t: nat, render: Bdd -> Expr)
    requires Reached(s, render) && CheckedAt(s, t, MainRecorded) && s.workers[t].sql == 0
    requires WalOf(0) in s.names && ShmOf(0) in s.names && NextView(s, t) !in s.dbs
    ensures var w := To(s.workers[t], Initialised).(wal := s.names[WalOf(0)], shm := s.names[ShmOf(0)]);
            Reached(SetWorker(SetDb(s, ViewOf(w), EMPTY_DB), t, w), render)
  {
    ReachableIsGood(s, render);
    Then(s, InitSchema(t, false, EMPTY_DB), render);
    var w := To(s.workers[t], Initialised).(wal := s.names[WalOf(0)], shm := s.names[ShmOf(0)]);
    assert Forged(s, ViewOf(w), EMPTY_DB) == {};
    assert InitStep(s, t, false, EMPTY_DB, render) == SetWorker(SetDb(s, ViewOf(w), EMPTY_DB), t, w);
  }

  lemma WalStep(s: State, t: nat, render: Bdd -> Expr)
    requires Reached(s, render) && At(s, t, Initialised) && s.workers[t].sql == 0
    requires WalOf(0) in s.names && s.workers[t].wal == s.names[WalOf(0)] && s.workers[t].wal in s.files
    ensures Reached(SetWorker(s, t, To(s.workers[t], WalTracked).(walId := s.files[s.workers[t].wal])), render)
  {
    ReachableIsGood(s, render);
    Then(s, TrackWal(t), render);
  }

  lemma ShmStep(s: State, t: nat, render: Bdd -> Expr)
    requires Reached(s, render) && At(s, t, WalTracked) && s.workers[t].sql == 0
    requires ShmOf(0) in s.names && s.workers[t].shm == s.names[ShmOf(0)] && s.workers[t].shm in s.files
    ensures Reached(SetWorker(s, t, To(s.workers[t], Ready).(shmId := s.files[s.workers[t].shm])), render)
  {
    ReachableIsGood(s, render);
    Then(s, TrackShm(t), render);
  }

  lemma AdmitEmpty(s: State, t: nat, render: Bdd -> Expr) returns (w: Worker, db: Db)
    requires Reached(s, render) && At(s, t, Checked) && ViewOf(s.workers[t]) in s.dbs
    requires s.dbs[ViewOf(s.workers[t])] == EMPTY_DB
    ensures w == To(s.workers[t], Registered).(row := 1)
    ensures Reached(SetWorker(SetDb(s, ViewOf(w), db), t, w), render)
  {
    ReachableIsGood(s, render);
    var answering := set q | q in s.live :: q.pid;
    assert Present(s, t);
    var row, cleaned := AdmitCases(s, t, answering, render);
    assert cleaned == EMPTY_DB;
    CanStartIff(cleaned, s.workers[t].test.labels, row.filter, render);
    TwoWrites(s, t, cleaned, row);
    db := Register(cleaned, row, s.workers[t].test.labels);
    w := To(s.workers[t], Registered).(row := 1);
    Then(s, Admit(t, answering), render);
  }

  // ---- Its way to the test body

  /** The same test of the same process. */
  predicate SameTest(w: Worker, v: Worker) { w.test == v.test && w.proc == v.proc }

  lemma Opens(s: State, t: nat, render: Bdd -> Expr) returns (w: Worker)
    requires Reached(s, render) && At(s, t, Starting) && CALLER in s.names
    ensures w.stage == MainRecorded && w.passed == 2 && SameTest(w, s.workers[t])
    ensures OnPaths(s, w) && Reached(SetWorker(s, t, w), render)
  {
    OpenStep(s, t, render);
    var w1 := To(s.workers[t], Opened).(main := s.names[CALLER], sql := 0);
    var s1 := SetWorker(s, t, w1);
    SqliteStep(s1, t, render);
    var w2 := To(w1, SqliteNamed).(mainId := s.files[w1.main]);
    var s2 := SetWorker(s1, t, w2);
    CallerStep(s2, t, render);
    var w3 := To(w2, MainRecorded);
    var s3 := SetWorker(s2, t, w3);
    CheckCompletes(s3, t, 2, render);
    w := w3.(passed := 2);
    assert SetWorker(s3, t, w) == SetWorker(s, t, w);
  }

  /** The worker at the head of the admission loop, its check made, with nothing in its tables. */
  lemma Initialises(s: State, t: nat, render: Bdd -> Expr) returns (w: Worker)
    requires Reached(s, render) && CheckedAt(s, t, MainRecorded) && OnPaths(s, s.workers[t])
    requires WalOf(0) in s.names && ShmOf(0) in s.names && NextView(s, t) !in s.dbs
    ensures w.stage == Ready && w.passed == 4 && SameTest(w, s.workers[t])
    ensures OnPaths(s, w) && OnCompanions(s, w)
    ensures Reached(SetWorker(SetDb(s, ViewOf(w), EMPTY_DB), t, w), render)
  {
    SchemaStep(s, t, render);
    var w1 := To(s.workers[t], Initialised).(wal := s.names[WalOf(0)], shm := s.names[ShmOf(0)]);
    var base := SetDb(s, ViewOf(w1), EMPTY_DB);
    var s1 := SetWorker(base, t, w1);
    WalStep(s1, t, render);
    var w2 := To(w1, WalTracked).(walId := s.files[w1.wal]);
    var s2 := SetWorker(s1, t, w2);
    ShmStep(s2, t, render);
    var w3 := To(w2, Ready).(shmId := s.files[w2.shm]);
    var s3 := SetWorker(s2, t, w3);
    CheckCompletes(s3, t, 4, render);
    w := w3.(passed := 4);
    assert SetWorker(s3, t, w) == SetWorker(base, t, w);
  }

  lemma Admits(s: State, t: nat, render: Bdd -> Expr) returns (w: Worker, db: Db)
    requires Reached(s, render) && CheckedAt(s, t, Ready)
    requires OnPaths(s, s.workers[t]) && OnCompanions(s, s.workers[t])
    requires ViewOf(s.workers[t]) in s.dbs && s.dbs[ViewOf(s.workers[t])] == EMPTY_DB
    ensures w.stage == Running && SameTest(w, s.workers[t])
    ensures OnPaths(s, w) && OnCompanions(s, w) && ViewOf(w) == ViewOf(s.workers[t])
    ensures Reached(SetWorker(SetDb(s, ViewOf(w), db), t, w), render)
  {
    ReachableIsGood(s, render);
    Then(s, LoopCheck(t), render);
    var w1 := To(s.workers[t], Checked);
    var s1 := SetWorker(s, t, w1);
    var w2;
    w2, db := AdmitEmpty(s1, t, render);
    var base := SetDb(s, ViewOf(w2), db);
    var s2 := SetWorker(base, t, w2);
    assert SetWorker(SetDb(s1, ViewOf(w2), db), t, w2) == s2;
    CheckCompletes(s2, t, 4, render);
    var s3 := SetWorker(base, t, w2.(passed := 4));
    assert SetWorker(s2, t, w2.(passed := 4)) == s3;
    ReachableIsGood(s3, render);
    Then(s3, PostCommit(t), render);
    w := To(w2, Running);
    assert Advance(s3, t, Running) == SetWorker(base, t, w);
  }

  /** Nothing but worker `t` and the tables of its view has changed, and its body runs on what the paths name. */
  ghost predicate RunsAlone(s: State, after: State, t: nat) {
    && after.names == s.names && after.files == s.files && after.live == s.live && after.abandoned == s.abandoned
    && At(after, t, Running) && t in s.workers && after.workers == s.workers[t := after.workers[t]]
    && after.workers[t].test == s.workers[t].test
    && OnPaths(s, after.workers[t]) && OnCompanions(s, after.workers[t])
    && after.dbs.Keys == s.dbs.Keys + {ViewOf(after.workers[t])}
  }

  /**
   From every reachable state, a test whose paths nobody touches comes to run if
   its view is opened for the first time and holds nothing.
   */
  lemma NewViewRuns(s: State, t: nat, render: Bdd -> Expr) returns (after: State)
    requires Reached(s, render) && At(s, t, Starting)
    requires CALLER in s.names && WalOf(0) in s.names && ShmOf(0) in s.names
    requires View(s.names[CALLER], s.names[WalOf(0)], s.names[ShmOf(0)]) !in s.dbs
    ensures Reached(after, render) && RunsAlone(s, after, t)
  {
    var w1 := Opens(s, t, render);
    var s1 := SetWorker(s, t, w1);
    var w2 := Initialises(s1, t, render);
    var s2 := SetWorker(SetDb(s1, ViewOf(w2), EMPTY_DB), t, w2);
    var w3, db := Admits(s2, t, render);
    after := SetWorker(SetDb(s2, ViewOf(w3), db), t, w3);
  }

  // ---- The split

  const PATHS: map<Name, nat> := map[CALLER := 0, WalOf(0) := 1, ShmOf(0) := 2]
  const SWAPPED: map<Name, nat> := map[CALLER := 0, WalOf(0) := 3, ShmOf(0) := 4]
  const FILES: map<nat, Id> := map[0 := Id(0, 0), 1 := Id(0, 1), 2 := Id(0, 2), 3 := Id(0, 3), 4 := Id(0, 4)]
  const START := State(PATHS, FILES, map[], {}, map[], {})
  const PROC := Proc(1, 0)
  const ALONE := Test("alone", {}, SERIAL_ALL)

  ghost predicate DistinctIds(s: State) {
    forall f, g :: f in s.files && g in s.files && s.files[f] == s.files[g] ==> f == g
  }

  function NewWorker(): Worker {
    Worker(PROC, ALONE, Starting, 0, 0, 0, 0, Id(0, 0), Id(0, 0), Id(0, 0), 0, 0)
  }

  lemma StartIsInitial()
    ensures Init(START)
  {
    assert DistinctIds(START);
  }

  lemma StartsReached(render: Bdd -> Expr)
    requires IsRenderer(render)
    ensures Reached(START, render)
  {
    StartIsInitial();
    assert EndsIn([START], [], START, render);
  }

  lemma Starts(render: Bdd -> Expr)
    requires IsRenderer(render)
    ensures Reached(START.(live := {PROC}, workers := map[0 := NewWorker()]), render)
  {
    StartsReached(render);
    ReachableIsGood(START, render);
    Then(START, Spawn(PROC), render);
    var s1 := START.(live := {PROC});
    assert Exec(START, Spawn(PROC), render) == s1;
    ReachableIsGood(s1, render);
    Then(s1, Submit(0, PROC, ALONE), render);
    assert SetWorker(s1, 0, NewWorker()) == START.(live := {PROC}, workers := map[0 := NewWorker()]);
  }

  /** The outside actor puts other companions at the paths, and a second test is submitted. */
  lemma Swaps(s: State, render: Bdd -> Expr) returns (after: State)
    requires Reached(s, render) && s.files == FILES && PROC in s.live && 1 !in s.workers
    ensures after == SetWorker(s.(names := SWAPPED), 1, NewWorker()) && Reached(after, render)
  {
    ReachableIsGood(s, render);
    assert DistinctIds(s);
    var s1 := s.(names := SWAPPED);
    assert NamesFiles(s1) && HeldInFiles(s1);
    Then(s, External(SWAPPED, FILES), render);
    assert Exec(s, External(SWAPPED, FILES), render) == s1;
    ReachableIsGood(s1, render);
    Then(s1, Submit(1, PROC, ALONE), render);
    after := SetWorker(s1, 1, NewWorker());
  }

  /**
   Two bodies, each serial with everything, run at once on one main file: the
   companions were swapped after the first had begun. Sharing the companions is
   therefore what exclusion needs.
   */
  lemma SwappedCompanionsSplit(render: Bdd -> Expr) returns (s: State)
    requires IsRenderer(render)
    ensures Reachable(s, render) && At(s, 0, Running) && At(s, 1, Running)
    ensures s.workers[0].main == s.workers[1].main && !SameView(s, 0, 1)
    ensures Conflict(s.workers[0].test, s.workers[1].test)
  {
    Starts(render);
    var s0 := START.(live := {PROC}, workers := map[0 := NewWorker()]);
    var s1 := NewViewRuns(s0, 0, render);
    var s2 := Swaps(s1, render);
    s := NewViewRuns(s2, 1, render);
    assert s.workers[0] == s1.workers[0];
  }
}
