/**
 What the invariant means for whole runs of the protocol.
 */
module ProtocolSafety {
  import opened Diagram
  import opened LabelExpr
  import opened Canonical
  import opened SerialFilter
  import opened Instance
  import opened Tables
  import opened Protocol
  import opened ProtocolInvariant

  // ---- Runs

  ghost predicate Steps(s: State, l: Label, after: State, render: Bdd -> Expr)
    requires IsRenderer(render)
  {
    && WellFormed(s) && Enabled(s, l)
    && Filtered(s)
    && after == Exec(s, l, render)
  }

  /** States with the labels between them, from an initial state on. */
  ghost predicate IsRun(states: seq<State>, labels: seq<Label>, render: Bdd -> Expr)
    requires IsRenderer(render)
  {
    && |states| == |labels| + 1
    && Init(states[0])
    && forall i :: 0 <= i < |labels| ==> Steps(states[i], labels[i], states[i + 1], render)
  }

  lemma {:induction false} RunInvariant(states: seq<State>, labels: seq<Label>, i: nat, render: Bdd -> Expr)
    requires IsRenderer(render) && IsRun(states, labels, render) && i < |states|
    ensures Inv(states[i], render)
  {
    if i == 0 {
      assert Init(states[0]);
    } else {
      RunInvariant(states, labels, i - 1, render);
      assert Steps(states[i - 1], labels[i - 1], states[i], render);
      StepsKeep(states[i - 1], labels[i - 1], states[i], render);
    }
  }

  lemma StepsKeep(s: State, l: Label, after: State, render: Bdd -> Expr)
    requires IsRenderer(render) && Inv(s, render) && Steps(s, l, after, render)
    ensures Inv(after, render)
  {
    StepKeeps(s, l, render);
  }

  /** Every enabled step can be taken from every reached state. */
  lemma RunExtends(states: seq<State>, labels: seq<Label>, l: Label, render: Bdd -> Expr)
    requires IsRenderer(render) && IsRun(states, labels, render)
    requires WellFormed(states[|labels|]) ==> Enabled(states[|labels|], l)
    ensures exists after :: Steps(states[|labels|], l, after, render) && IsRun(states + [after], labels + [l], render)
  {
    var last := states[|labels|];
    RunInvariant(states, labels, |labels|, render);
    FiltersValid(last, render);
    var after := Exec(last, l, render);
    assert Steps(last, l, after, render);
    var states1, labels1 := states + [after], labels + [l];
    forall i | 0 <= i < |labels1| ensures Steps(states1[i], labels1[i], states1[i + 1], render) {
      if i < |labels| { assert Steps(states[i], labels[i], states[i + 1], render); }
    }
  }

  // ---- Mutual exclusion

  /**
   In every state of every run, two test bodies whose connections hold the same
   main, -wal and -shm files do not conflict: neither filter selects the other
   test's labels, and neither test is serial with everything.
   */
  lemma MutualExclusion(states: seq<State>, labels: seq<Label>, i: nat, t: nat, u: nat, render: Bdd -> Expr)
    requires IsRenderer(render) && IsRun(states, labels, render) && i < |states|
    requires At(states[i], t, Running) && At(states[i], u, Running) && t != u
    requires SameView(states[i], t, u)
    ensures !Selects(states[i].workers[t].test.filter, states[i].workers[u].test.labels)
    ensures !Selects(states[i].workers[u].test.filter, states[i].workers[t].test.labels)
    ensures states[i].workers[t].test.filter != SERIAL_ALL
  {
    RunInvariant(states, labels, i, render);
    assert Holds(states[i], t) && Holds(states[i], u);
  }

  // ---- Identities

  /**
   What one passed stat means at its instant: the caller's path, and the paths of
   the companions, named the connection's own files. SQLite's own stat compares
   the inode number only.
   */
  lemma StatMeans(s: State, t: nat, k: nat, render: Bdd -> Expr)
    requires Inv(s, render) && t in s.workers && k < Stats(s.workers[t].stage)
    ensures s.workers[t].main in s.files
    ensures StatPasses(s, s.workers[t], k) ==> NamesOwn(s, s.workers[t], k)
  {
    var w := s.workers[t];
    assert WorkerOk(s, t, w, render);
    assert Keeps(w, w.main) && Held(s, w.main);
    if StatPasses(s, w, k) {
      if k == 1 {
        LinkedInUse(s, CALLER);
      } else if k == 2 {
        assert Keeps(w, w.wal) && Held(s, w.wal);
        LinkedInUse(s, WalOf(w.sql));
      } else if k == 3 {
        assert Keeps(w, w.shm) && Held(s, w.shm);
        LinkedInUse(s, ShmOf(w.sql));
      }
    }
  }

  /** The path of stat `k` names the connection's own file; for SQLite's own, one with its inode number. */
  ghost predicate NamesOwn(s: State, w: Worker, k: nat)
    requires NamesFiles(s) && w.main in s.files
  {
    match k
    case 0 => Path(w.sql) in s.names && s.files[s.names[Path(w.sql)]].ino == s.files[w.main].ino
    case 1 => CALLER in s.names && s.names[CALLER] == w.main
    case 2 => WalOf(w.sql) in s.names && s.names[WalOf(w.sql)] == w.wal
    case _ => ShmOf(w.sql) in s.names && s.names[ShmOf(w.sql)] == w.shm
  }

  /** A check counts up only by its own stats. */
  lemma CountsUp(s: State, l: Label, t: nat, render: Bdd -> Expr)
    requires IsRenderer(render) && WellFormed(s) && Enabled(s, l)
    requires Filtered(s)
    requires t in Exec(s, l, render).workers && Exec(s, l, render).workers[t].passed > 0
    ensures t in s.workers
    ensures var w, after := s.workers[t], Exec(s, l, render).workers[t];
            || after == w
            || (&& l == StatPath(t) && w.passed < Stats(w.stage) && after == w.(passed := w.passed + 1)
                && w.main in s.files && StatPasses(s, w, w.passed))
  {
    if l.Admit? {
      assert Present(s, l.t);
      AdmitWorkers(s, l.t, l.answering, t, render);
    } else if l.InitSchema? {
      InitSchemaWorkers(s, l.t, l.scrub, l.content, t, render);
    } else {
      OthersCountUp(s, l, t, render);
    }
  }

  lemma OthersCountUp(s: State, l: Label, t: nat, render: Bdd -> Expr)
    requires IsRenderer(render) && WellFormed(s) && Enabled(s, l) && !l.Admit? && !l.InitSchema?
    requires Filtered(s)
    requires t in Exec(s, l, render).workers && Exec(s, l, render).workers[t].passed > 0
    ensures t in s.workers
    ensures var w, after := s.workers[t], Exec(s, l, render).workers[t];
            || after == w
            || (&& l == StatPath(t) && w.passed < Stats(w.stage) && after == w.(passed := w.passed + 1)
                && w.main in s.files && StatPasses(s, w, w.passed))
  {
    if l.StatPath? {
      assert Keeps(s.workers[l.t], s.workers[l.t].main);
    } else if l.StatSqlite? || l.StatCaller? || l.TrackWal? || l.TrackShm? {
      RecordingCounts(s, l, t, render);
    } else if OnlyAdvances(l) {
      AdvancingCounts(s, l, t, render);
    }
  }

  lemma RecordingCounts(s: State, l: Label, t: nat, render: Bdd -> Expr)
    requires IsRenderer(render) && WellFormed(s) && Enabled(s, l)
    requires l.StatSqlite? || l.StatCaller? || l.TrackWal? || l.TrackShm?
    requires Filtered(s)
    ensures var after := Exec(s, l, render);
            t in after.workers ==>
              t in s.workers && (after.workers[t] == s.workers[t] ||
                                 (after.workers[t].passed == 0 && !Gated(after.workers[t].stage)))
  {
  }

  /**
   Whatever is swapped meanwhile, each stat a check has passed had an instant,
   within that check, at which its path named the connection's own file.
   */
  lemma {:induction false} MovedCheckMeans(states: seq<State>, labels: seq<Label>, j: nat, t: nat, k: nat,
                                           render: Bdd -> Expr) returns (i: nat)
    requires IsRenderer(render) && IsRun(states, labels, render) && j < |states|
    requires t in states[j].workers && k < states[j].workers[t].passed
    ensures i < j && labels[i] == StatPath(t) && t in states[i].workers
    ensures states[i].workers[t] == states[j].workers[t].(passed := k)
    ensures NamesFiles(states[i]) && states[i].workers[t].main in states[i].files
    ensures NamesOwn(states[i], states[i].workers[t], k)
  {
    assert j > 0 by { assert Init(states[0]); }
    var s, l := states[j - 1], labels[j - 1];
    assert Steps(s, l, states[j], render);
    RunInvariant(states, labels, j - 1, render);
    CountsUp(s, l, t, render);
    if s.workers[t] != states[j].workers[t] && k == s.workers[t].passed {
      i := j - 1;
      StatMeans(s, t, k, render);
    } else {
      i := MovedCheckMeans(states, labels, j - 1, t, k, render);
    }
  }

  /** Opening either fails or records the identity of the files the connection holds, whatever is swapped meanwhile. */
  lemma RecordedIdentity(states: seq<State>, labels: seq<Label>, i: nat, t: nat, render: Bdd -> Expr)
    requires IsRenderer(render) && IsRun(states, labels, render) && i < |states|
    requires t in states[i].workers && KnowsShm(states[i].workers[t].stage)
    ensures var s, w := states[i], states[i].workers[t];
            && w.main in s.files && w.wal in s.files && w.shm in s.files
            && w.mainId == s.files[w.main] && w.walId == s.files[w.wal] && w.shmId == s.files[w.shm]
  {
    RunInvariant(states, labels, i, render);
    assert WorkerOk(states[i], t, states[i].workers[t], render);
  }

  /** A transaction leaves other workers alone and its own worker registered or back in the loop. */
  lemma AdmitWorkers(s: State, t: nat, answering: set<nat>, u: nat, render: Bdd -> Expr)
    requires IsRenderer(render) && t in s.workers
    requires ViewOf(s.workers[t]) in s.dbs && ValidSerial(s.workers[t].test.filter)
    ensures var after := AdmitStep(s, t, answering, render);
            && after.workers.Keys == s.workers.Keys
            && after.abandoned == s.abandoned
            && (u in s.workers && u != t ==> after.workers[u] == s.workers[u])
            && (after.workers[t].stage == Registered || after.workers[t].stage == Ready) && after.workers[t].passed == 0
            && after.workers[t].test == s.workers[t].test && ViewOf(after.workers[t]) == ViewOf(s.workers[t])
            && after.workers[t].sql == s.workers[t].sql && after.names == s.names
  {
  }

  lemma InitSchemaWorkers(s: State, t: nat, scrub: bool, content: Db, u: nat, render: Bdd -> Expr)
    requires t in s.workers
    ensures var after := InitStep(s, t, scrub, content, render);
            && after.workers.Keys == s.workers.Keys
            && after.abandoned == s.abandoned + Forged(s, NextView(s, t), content)
            && (u in s.workers && u != t ==> after.workers[u] == s.workers[u])
            && after.workers[t].stage == Initialised && after.workers[t].passed == 0 && after.names == s.names
            && after.workers[t].sql == s.workers[t].sql && ViewOf(after.workers[t]) == NextView(s, t)
  {
  }

  // ---- Where a check has to be passed

  /** Stages that only a completed moved check leads to: a transaction, a body, a DELETE, and the end. */
  predicate Gated(g: Stage) { g.Checked? || g.Running? || g.DropChecked? || g.Finished? }

  /** The stage whose check is in front of a gated one. */
  function GateOf(g: Stage): Stage
    requires Gated(g)
  {
    match g
    case Checked => Ready
    case Running => Registered
    case DropChecked => Dropping
    case Finished => Deleted
  }

  function GateLabel(g: Stage, t: nat): Label
    requires Gated(g)
  {
    match g
    case Checked => LoopCheck(t)
    case Running => PostCommit(t)
    case DropChecked => DropCheck(t)
    case Finished => PostDelete(t)
  }

  /** Only a completed check leads to a gated stage; once there, a worker's files stay as they are. */
  lemma BecomesGated(s: State, l: Label, t: nat, g: Stage, render: Bdd -> Expr)
    requires IsRenderer(render) && WellFormed(s) && Enabled(s, l) && Filtered(s) && Gated(g)
    requires At(Exec(s, l, render), t, g)
    ensures || (t in s.workers && s.workers[t] == Exec(s, l, render).workers[t])
            || (&& l == GateLabel(g, t) && CheckedAt(s, t, GateOf(g))
                && Exec(s, l, render).workers[t] == To(s.workers[t], g))
  {
    if l.Admit? {
      assert Present(s, l.t);
      AdmitWorkers(s, l.t, l.answering, t, render);
    } else if l.InitSchema? {
      InitSchemaWorkers(s, l.t, l.scrub, l.content, t, render);
    } else if l != GateLabel(g, t) {
      OthersKeepGated(s, l, t, g, render);
    }
  }

  lemma OthersKeepGated(s: State, l: Label, t: nat, g: Stage, render: Bdd -> Expr)
    requires IsRenderer(render) && WellFormed(s) && Enabled(s, l) && Filtered(s) && Gated(g)
    requires !l.Admit? && !l.InitSchema? && l != GateLabel(g, t)
    requires At(Exec(s, l, render), t, g)
    ensures t in s.workers && s.workers[t] == Exec(s, l, render).workers[t]
  {
    if l.StatPath? {
      PathOutcome(s, l.t, render);
    } else if l.StatSqlite? || l.StatCaller? || l.TrackWal? || l.TrackShm? {
      RecordingCounts(s, l, t, render);
    } else if OnlyAdvances(l) {
      AdvancingCounts(s, l, t, render);
    }
  }

  lemma AdvancingCounts(s: State, l: Label, t: nat, render: Bdd -> Expr)
    requires IsRenderer(render) && WellFormed(s) && Enabled(s, l) && OnlyAdvances(l)
    requires Filtered(s)
    ensures var after := Exec(s, l, render);
            t in after.workers ==>
              && t in s.workers
              && (|| after.workers[t] == s.workers[t]
                  || (&& after.workers[t].passed == 0
                      && (Gated(after.workers[t].stage) ==> l == GateLabel(after.workers[t].stage, t))))
  {
  }

  /** The step by which a worker came to a gated stage. */
  lemma {:induction false} GatedSince(states: seq<State>, labels: seq<Label>, j: nat, t: nat, g: Stage,
                                      render: Bdd -> Expr) returns (i: nat)
    requires IsRenderer(render) && IsRun(states, labels, render) && j < |states| && Gated(g) && At(states[j], t, g)
    ensures i < j && labels[i] == GateLabel(g, t) && CheckedAt(states[i], t, GateOf(g))
    ensures To(states[i].workers[t], g) == states[j].workers[t]
  {
    assert j > 0 by { assert Init(states[0]); }
    var s, l := states[j - 1], labels[j - 1];
    assert Steps(s, l, states[j], render);
    BecomesGated(s, l, t, g, render);
    if t in s.workers && s.workers[t] == states[j].workers[t] {
      i := GatedSince(states, labels, j - 1, t, g, render);
    } else {
      i := j - 1;
    }
  }

  /** At three instants, in order, the caller's, -wal and -shm paths named the files of worker `w` at this stage. */
  ghost predicate CheckedAtInstants(states: seq<State>, t: nat, g: Stage, w: Worker, main: nat, wal: nat, shm: nat) {
    && main < wal < shm < |states|
    && At(states[main], t, g) && At(states[wal], t, g) && At(states[shm], t, g)
    && CALLER in states[main].names && states[main].names[CALLER] == w.main
    && WalOf(w.sql) in states[wal].names && states[wal].names[WalOf(w.sql)] == w.wal
    && ShmOf(w.sql) in states[shm].names && states[shm].names[ShmOf(w.sql)] == w.shm
  }

  /** Whoever is at a gated stage has had, at the stage before it, an instant for each path. */
  lemma GateWasChecked(states: seq<State>, labels: seq<Label>, j: nat, t: nat, g: Stage, render: Bdd -> Expr)
    returns (main: nat, wal: nat, shm: nat)
    requires IsRenderer(render) && IsRun(states, labels, render) && j < |states| && Gated(g) && At(states[j], t, g)
    ensures shm < j && CheckedAtInstants(states, t, GateOf(g), states[j].workers[t], main, wal, shm)
  {
    var post := GatedSince(states, labels, j, t, g, render);
    shm := MovedCheckMeans(states, labels, post, t, 3, render);
    wal := MovedCheckMeans(states, labels, shm, t, 2, render);
    main := MovedCheckMeans(states, labels, wal, t, 1, render);
  }

  /**
   Every admission transaction and every DELETE is preceded by such a check of
   its own, and every schema write by one of the main file.
   */
  lemma WritesWereChecked(states: seq<State>, labels: seq<Label>, j: nat, t: nat, render: Bdd -> Expr)
    returns (main: nat, wal: nat, shm: nat)
    requires IsRenderer(render) && IsRun(states, labels, render) && j < |labels|
    requires (labels[j].Admit? || labels[j].Delete? || labels[j].InitSchema?) && labels[j].t == t
    ensures t in states[j].workers && main < j
    ensures labels[j].Admit? ==> CheckedAtInstants(states, t, Ready, states[j].workers[t], main, wal, shm)
    ensures labels[j].Delete? ==> CheckedAtInstants(states, t, Dropping, states[j].workers[t], main, wal, shm)
    ensures labels[j].InitSchema? ==>
              && At(states[main], t, MainRecorded) && CALLER in states[main].names
              && states[main].names[CALLER] == states[j].workers[t].main
  {
    assert Steps(states[j], labels[j], states[j + 1], render);
    if labels[j].InitSchema? {
      main := MovedCheckMeans(states, labels, j, t, 1, render);
      wal, shm := 0, 0;
    } else {
      main, wal, shm := GateWasChecked(states, labels, j, t, states[j].workers[t].stage, render);
    }
  }

  /**
   `coordinate` returns only after a moved check that followed its COMMIT, and at
   its first instant the committed row was in the tables.
   */
  lemma RunningWasChecked(states: seq<State>, labels: seq<Label>, j: nat, t: nat, render: Bdd -> Expr)
    returns (main: nat, wal: nat, shm: nat)
    requires IsRenderer(render) && IsRun(states, labels, render) && j < |states| && At(states[j], t, Running)
    ensures shm < j && CheckedAtInstants(states, t, Registered, states[j].workers[t], main, wal, shm)
    ensures ViewOf(states[main].workers[t]) in states[main].dbs
    ensures RowPresent(states[main], t, states[main].workers[t], render)
  {
    main, wal, shm := GateWasChecked(states, labels, j, t, Running, render);
    RunInvariant(states, labels, main, render);
    assert WorkerOk(states[main], t, states[main].workers[t], render);
  }

  // ---- Rows

  /** A row, wherever it is, is explained by at most one guard. */
  lemma OneGuardPerRow(s: State, t: nat, u: nat, v: View, id: nat, render: Bdd -> Expr)
    requires Inv(s, render) && Holder(s, t, v, id) && Holder(s, u, v, id)
    ensures t == u
  {
    assert WorkerOk(s, t, s.workers[t], render);
    assert WorkerOk(s, u, s.workers[u], render);
  }

  /** A guard's DELETE removes the row that guard inserted and nothing else. */
  lemma DeleteRemovesOwnRow(s: State, t: nat, render: Bdd -> Expr)
    requires Inv(s, render) && At(s, t, DropChecked)
    ensures ViewOf(s.workers[t]) in s.dbs
    ensures var w := s.workers[t];
            var before, after := s.dbs[ViewOf(w)], DeleteStep(s, t).dbs[ViewOf(w)];
            && w.row in before.running && before.running[w.row].origin == t
            && after.running == before.running - {w.row}
            && (forall id :: id != w.row ==> LabelsOf(after, id) == LabelsOf(before, id))
            && LabelsOf(after, w.row) == {}
    ensures DeleteStep(s, t).dbs.Keys == s.dbs.Keys
    ensures forall v :: v in s.dbs && v != ViewOf(s.workers[t]) ==> DeleteStep(s, t).dbs[v] == s.dbs[v]
  {
    var w := s.workers[t];
    assert WorkerOk(s, t, w, render);
    DeleteKeeps(s.dbs[ViewOf(w)], {w.row});
  }

  /** The row `id` of view `v` is there before a step and gone after it. */
  ghost predicate Leaves(s: State, after: State, v: View, id: nat) {
    && v in s.dbs && id in s.dbs[v].running
    && v in after.dbs && id !in after.dbs[v].running
  }

  /**
   In every run, across deleted, replaced and recreated files, a row leaves its
   table only by its own guard's DELETE or because its process is dead.
   */
  lemma RowsLeaveOnlyByOwner(states: seq<State>, labels: seq<Label>, i: nat, v: View, id: nat, render: Bdd -> Expr)
    requires IsRenderer(render) && IsRun(states, labels, render) && i < |labels|
    requires Leaves(states[i], states[i + 1], v, id)
    ensures var row := states[i].dbs[v].running[id];
            || (labels[i] == Delete(row.origin) && Holder(states[i], row.origin, v, id))
            || (labels[i].Admit? && forall p :: p in states[i].live ==> row.instance != InstanceId(p))
  {
    RunInvariant(states, labels, i, render);
    assert Steps(states[i], labels[i], states[i + 1], render);
    LeavesByOwner(states[i], labels[i], states[i + 1], v, id, render);
  }

  /** The same of one step. */
  lemma LeavesByOwner(s: State, l: Label, after: State, v: View, id: nat, render: Bdd -> Expr)
    requires IsRenderer(render) && Inv(s, render) && Steps(s, l, after, render) && Leaves(s, after, v, id)
    ensures var row := s.dbs[v].running[id];
            || (l == Delete(row.origin) && Holder(s, row.origin, v, id))
            || (l.Admit? && forall p :: p in s.live ==> row.instance != InstanceId(p))
  {
    if l.Delete? {
      DeleteLeaves(s, l.t, v, id, render);
    } else if l.Admit? {
      AdmitLeaves(s, l.t, l.answering, v, id, render);
    } else {
      OthersKeepRows(s, l, v, id, render);
    }
  }

  lemma DeleteLeaves(s: State, t: nat, v: View, id: nat, render: Bdd -> Expr)
    requires Inv(s, render) && At(s, t, DropChecked) && ViewOf(s.workers[t]) in s.dbs
    requires Leaves(s, DeleteStep(s, t), v, id)
    ensures s.dbs[v].running[id].origin == t && Holder(s, t, v, id)
  {
    DeleteRemovesOwnRow(s, t, render);
  }

  lemma OthersKeepRows(s: State, l: Label, v: View, id: nat, render: Bdd -> Expr)
    requires IsRenderer(render) && WellFormed(s) && Enabled(s, l) && !l.Delete? && !l.Admit?
    requires Filtered(s)
    ensures !Leaves(s, Exec(s, l, render), v, id)
  {
  }

  lemma AdmitLeaves(s: State, t: nat, answering: set<nat>, v: View, id: nat, render: Bdd -> Expr)
    requires IsRenderer(render) && Inv(s, render) && At(s, t, Checked)
    requires ViewOf(s.workers[t]) in s.dbs && ValidSerial(s.workers[t].test.filter)
    requires forall q :: q in s.live ==> q.pid in answering
    requires Leaves(s, AdmitStep(s, t, answering, render), v, id)
    ensures forall p :: p in s.live ==> s.dbs[v].running[id].instance != InstanceId(p)
  {
    var row, cleaned := AdmitCases(s, t, answering, render);
    forall p | p in s.live ensures s.dbs[v].running[id].instance != InstanceId(p) {
      if s.dbs[v].running[id].instance == InstanceId(p) && v == ViewOf(s.workers[t]) {
        CleanSparesLive(s.dbs[v], row.instance, answering, p, id);
      }
    }
  }

  // ---- Who blocks whom

  /**
   The operating system's answers are about the processes in question: a row whose
   PID answers belongs to a live process. Only a PID taken over by an unrelated
   process breaks this.
   */
  ghost predicate NoPidReuse(s: State, db: Db, answering: set<nat>) {
    forall id, pid :: id in db.running && PidOf(db.running[id].instance) == Some(pid) && pid in answering ==>
                      exists p :: p in s.live && db.running[id].instance == InstanceId(p)
  }

  /** What the tables of a waiter hold once stale rows are cleaned. */
  lemma CleanedRows(s: State, t: nat, answering: set<nat>, cleaned: Db, id: nat, render: Bdd -> Expr)
    requires IsRenderer(render) && Inv(s, render) && At(s, t, Checked) && ViewOf(s.workers[t]) in s.dbs
    requires cleaned == Clean(s.dbs[ViewOf(s.workers[t])], InstanceId(s.workers[t].proc), answering)
    requires NoPidReuse(s, s.dbs[ViewOf(s.workers[t])], answering) && id in cleaned.running
    ensures Explained(s, ViewOf(s.workers[t]), id)
    ensures LabelsOf(cleaned, id) == LabelsOf(s.dbs[ViewOf(s.workers[t])], id)
  {
    var v := ViewOf(s.workers[t]);
    var db := s.dbs[v];
    var ours := InstanceId(s.workers[t].proc);
    assert WorkerOk(s, t, s.workers[t], render);
    CleanExactly(db, ours, answering, id);
    var p :| p in s.live && db.running[id].instance == InstanceId(p);
    assert RowOfProc(s, v, id, p);
    DeleteKeeps(db, set k | k in db.running && IsStale(db.running[k].instance, ours, answering));
  }

  /** A waiter that is sent back has a conflicting row in the cleaned table. */
  lemma BlockingRow(s: State, t: nat, answering: set<nat>, render: Bdd -> Expr) returns (cleaned: Db, id: nat)
    requires IsRenderer(render) && t in s.workers
    requires ViewOf(s.workers[t]) in s.dbs && ValidSerial(s.workers[t].test.filter)
    requires At(AdmitStep(s, t, answering, render), t, Ready)
    ensures ToStorage(s.workers[t].test.filter, render).Ok?
    ensures cleaned == Clean(s.dbs[ViewOf(s.workers[t])], InstanceId(s.workers[t].proc), answering)
    ensures id in cleaned.running
    ensures RowConflicts(cleaned, id, s.workers[t].test.labels, ToStorage(s.workers[t].test.filter, render).value)
  {
    var row;
    row, cleaned := AdmitCases(s, t, answering, render);
    CanStartIff(cleaned, s.workers[t].test.labels, row.filter, render);
    id :| id in cleaned.running && RowConflicts(cleaned, id, s.workers[t].test.labels, row.filter);
  }

  /** Worker `u` is registered through the waiter's view and its test conflicts. */
  ghost predicate Opposed(s: State, t: nat, u: nat)
    requires t in s.workers
  {
    Holds(s, u) && SameView(s, u, t) && Conflict(s.workers[t].test, s.workers[u].test)
  }

  /** A row left behind in the waiter's tables survives the cleaning and conflicts with the waiter. */
  ghost predicate LeftoverConflicts(s: State, t: nat, answering: set<nat>, render: Bdd -> Expr)
    requires t in s.workers && ViewOf(s.workers[t]) in s.dbs && ToStorage(s.workers[t].test.filter, render).Ok?
  {
    var w := s.workers[t];
    var cleaned := Clean(s.dbs[ViewOf(w)], InstanceId(w.proc), answering);
    exists id :: (ViewOf(w), id) in s.abandoned && id in cleaned.running
                 && RowConflicts(cleaned, id, w.test.labels, ToStorage(w.test.filter, render).value)
  }

  /**
   A waiter is sent back only because of a conflicting test still registered
   through the same view, or a conflicting row that was left behind there.
   */
  lemma BlockedByGuard(s: State, t: nat, answering: set<nat>, render: Bdd -> Expr)
    requires IsRenderer(render) && Inv(s, render) && At(s, t, Checked)
    requires ViewOf(s.workers[t]) in s.dbs && ValidSerial(s.workers[t].test.filter)
    requires NoPidReuse(s, s.dbs[ViewOf(s.workers[t])], answering)
    requires At(AdmitStep(s, t, answering, render), t, Ready)
    ensures ToStorage(s.workers[t].test.filter, render).Ok?
    ensures LeftoverConflicts(s, t, answering, render) || exists u :: Opposed(s, t, u)
  {
    var cleaned, id := BlockingRow(s, t, answering, render);
    CleanedRows(s, t, answering, cleaned, id, render);
    if (ViewOf(s.workers[t]), id) in s.abandoned {
      assert LeftoverConflicts(s, t, answering, render);
    } else {
      var u :| Holder(s, u, ViewOf(s.workers[t]), id);
      GuardConflicts(s, t, u, cleaned, id, render);
      assert Opposed(s, t, u);
    }
  }

  /** A conflict with a guard's row is a conflict with the guard's test. */
  lemma GuardConflicts(s: State, t: nat, u: nat, cleaned: Db, id: nat, render: Bdd -> Expr)
    requires IsRenderer(render) && Inv(s, render) && t in s.workers && ValidSerial(s.workers[t].test.filter)
    requires Holder(s, u, ViewOf(s.workers[t]), id) && ViewOf(s.workers[t]) in s.dbs
    requires ToStorage(s.workers[t].test.filter, render).Ok?
    requires id in cleaned.running && cleaned.running[id] == s.dbs[ViewOf(s.workers[t])].running[id]
    requires LabelsOf(cleaned, id) == LabelsOf(s.dbs[ViewOf(s.workers[t])], id)
    requires RowConflicts(cleaned, id, s.workers[t].test.labels, ToStorage(s.workers[t].test.filter, render).value)
    ensures Conflict(s.workers[t].test, s.workers[u].test)
  {
    var w, v := s.workers[t], s.workers[u];
    assert WorkerOk(s, u, v, render);
    StoredFilter(w, render);
    StoredFilter(v, render);
    var mine, theirs := ToStorage(w.test.filter, render).value, ToStorage(v.test.filter, render).value;
    assert Selects(mine, v.test.labels) == Selects(w.test.filter, v.test.labels);
    assert Selects(theirs, w.test.labels) == Selects(v.test.filter, w.test.labels);
  }

  /** With nobody registered through its view and nothing left behind there, every waiter is admitted. */
  lemma EmptyAdmits(s: State, t: nat, answering: set<nat>, render: Bdd -> Expr)
    requires IsRenderer(render) && Inv(s, render) && At(s, t, Checked)
    requires ViewOf(s.workers[t]) in s.dbs && ValidSerial(s.workers[t].test.filter)
    requires NoPidReuse(s, s.dbs[ViewOf(s.workers[t])], answering)
    requires forall id :: (ViewOf(s.workers[t]), id) !in s.abandoned
    requires forall u :: Holds(s, u) ==> !SameView(s, u, t)
    ensures At(AdmitStep(s, t, answering, render), t, Registered)
  {
    var row, cleaned := AdmitCases(s, t, answering, render);
    if !At(AdmitStep(s, t, answering, render), t, Registered) {
      BlockedByGuard(s, t, answering, render);
    }
  }

  /** The step is a cleanup that failed, or opens a view that brings in rows of live processes. */
  ghost predicate LeavesRowsBehind(s: State, l: Label)
    requires NamesFiles(s)
  {
    || (&& l.StatPath? && At(s, l.t, Dropping) && s.workers[l.t].main in s.files
        && !StatPasses(s, s.workers[l.t], s.workers[l.t].passed))
    || (l.Panic? && At(s, l.t, DropChecked))
    || (l.InitSchema? && l.t in s.workers && Forged(s, NextView(s, l.t), l.content) != {})
  }

  /** Only a failed cleanup, or rows that a new view brings in, leave a row behind. */
  lemma AbandonedOnlyByFailure(s: State, l: Label, render: Bdd -> Expr)
    requires IsRenderer(render) && Inv(s, render) && Enabled(s, l)
    requires Filtered(s)
    ensures Exec(s, l, render).abandoned == s.abandoned || LeavesRowsBehind(s, l)
  {
    if l.Admit? {
      assert WorkerOk(s, l.t, s.workers[l.t], render);
      assert Present(s, l.t);
      AdmitWorkers(s, l.t, l.answering, l.t, render);
    } else if l.InitSchema? {
      InitSchemaWorkers(s, l.t, l.scrub, l.content, l.t, render);
    } else {
      OthersAbandon(s, l, render);
    }
  }

  lemma OthersAbandon(s: State, l: Label, render: Bdd -> Expr)
    requires IsRenderer(render) && WellFormed(s) && Enabled(s, l) && !l.Admit? && !l.InitSchema?
    requires Filtered(s)
    ensures Exec(s, l, render).abandoned == s.abandoned || LeavesRowsBehind(s, l)
  {
    if l.StatPath? { assert Keeps(s.workers[l.t], s.workers[l.t].main); }
  }

  /** In a run without failed cleanups and without rows brought in, no row is ever left behind. */
  lemma {:induction false} NothingLeftBehind(states: seq<State>, labels: seq<Label>, i: nat, render: Bdd -> Expr)
    requires IsRenderer(render) && IsRun(states, labels, render) && i < |states|
    requires forall k :: 0 <= k < i ==> NamesFiles(states[k]) && !LeavesRowsBehind(states[k], labels[k])
    ensures states[i].abandoned == {}
  {
    if i == 0 {
      assert Init(states[0]);
    } else {
      NothingLeftBehind(states, labels, i - 1, render);
      RunInvariant(states, labels, i - 1, render);
      assert Steps(states[i - 1], labels[i - 1], states[i], render);
      AbandonedOnlyByFailure(states[i - 1], labels[i - 1], render);
    }
  }

  /**
   No phantom blockers: in such a run, a waiter is sent back exactly when a
   conflicting test is registered through the same view by a live process.
   */
  lemma WaitsExactlyForConflicts(states: seq<State>, labels: seq<Label>, i: nat, t: nat, answering: set<nat>,
                                 render: Bdd -> Expr)
    requires IsRenderer(render) && IsRun(states, labels, render) && i < |states|
    requires forall k :: 0 <= k < i ==> NamesFiles(states[k]) && !LeavesRowsBehind(states[k], labels[k])
    requires At(states[i], t, Checked) && ValidSerial(states[i].workers[t].test.filter)
    requires ViewOf(states[i].workers[t]) in states[i].dbs
    requires forall q :: q in states[i].live ==> q.pid in answering
    requires NoPidReuse(states[i], states[i].dbs[ViewOf(states[i].workers[t])], answering)
    ensures At(AdmitStep(states[i], t, answering, render), t, Ready) <==>
            exists u :: Opposed(states[i], t, u)
  {
    RunInvariant(states, labels, i, render);
    NothingLeftBehind(states, labels, i, render);
    WaitsForConflicts(states[i], t, answering, render);
  }

  /** The same of one state with nothing left behind. */
  lemma WaitsForConflicts(s: State, t: nat, answering: set<nat>, render: Bdd -> Expr)
    requires IsRenderer(render) && Inv(s, render) && s.abandoned == {}
    requires At(s, t, Checked) && ValidSerial(s.workers[t].test.filter) && ViewOf(s.workers[t]) in s.dbs
    requires forall q :: q in s.live ==> q.pid in answering
    requires NoPidReuse(s, s.dbs[ViewOf(s.workers[t])], answering)
    ensures At(AdmitStep(s, t, answering, render), t, Ready) <==>
            exists u :: Opposed(s, t, u)
  {
    if At(AdmitStep(s, t, answering, render), t, Ready) {
      BlockedByGuard(s, t, answering, render);
    }
    forall u | Opposed(s, t, u) ensures At(AdmitStep(s, t, answering, render), t, Ready) {
      ConflictWaits(s, t, answering, u, render);
    }
  }

  /** A registered conflicting test sends the waiter back. */
  lemma ConflictWaits(s: State, t: nat, answering: set<nat>, u: nat, render: Bdd -> Expr)
    requires IsRenderer(render) && Inv(s, render) && At(s, t, Checked) && Holds(s, u)
    requires ValidSerial(s.workers[t].test.filter) && ViewOf(s.workers[t]) in s.dbs
    requires forall q :: q in s.live ==> q.pid in answering
    requires SameView(s, u, t) && Conflict(s.workers[t].test, s.workers[u].test)
    ensures At(AdmitStep(s, t, answering, render), t, Ready)
  {
    AdmitKeeps(s, t, answering, render);
    AdmittedWould(s, t, answering, u, render);
  }

  /** If a conflicting test is registered, registering would break exclusion. */
  lemma AdmittedWould(s: State, t: nat, answering: set<nat>, u: nat, render: Bdd -> Expr)
    requires IsRenderer(render) && t in s.workers && u in s.workers && u != t && Holds(s, u)
    requires ViewOf(s.workers[t]) in s.dbs && ValidSerial(s.workers[t].test.filter)
    requires SameView(s, u, t) && Conflict(s.workers[t].test, s.workers[u].test)
    requires Exclusive(AdmitStep(s, t, answering, render))
    ensures At(AdmitStep(s, t, answering, render), t, Ready)
  {
    AdmitWorkers(s, t, answering, u, render);
    NotBothRegistered(s, AdmitStep(s, t, answering, render), t, u);
  }

  /** Where exclusion holds, a conflicting test is not registered beside another. */
  lemma NotBothRegistered(s: State, after: State, t: nat, u: nat)
    requires t in s.workers && u in s.workers && t in after.workers && u in after.workers && u != t && Holds(s, u)
    requires after.workers[u] == s.workers[u] && after.workers[t].test == s.workers[t].test
    requires ViewOf(after.workers[t]) == ViewOf(s.workers[t]) && SameView(s, u, t)
    requires Conflict(s.workers[t].test, s.workers[u].test) && Exclusive(after)
    ensures !Holds(after, t)
  {
    assert Holds(after, u) && SameView(after, t, u);
  }

  // ---- Runs that nobody disturbs

  /** The worker holds what the paths name. */
  ghost predicate FromPaths(s: State, w: Worker) {
    && (HoldsMain(w.stage) ==> Path(w.sql) in s.names && w.main == s.names[Path(w.sql)])
    && (HoldsCompanions(w.stage) ==>
          && WalOf(w.sql) in s.names && w.wal == s.names[WalOf(w.sql)]
          && ShmOf(w.sql) in s.names && w.shm == s.names[ShmOf(w.sql)])
  }

  /** `v` has the files `w` had, or fewer. */
  predicate NoMoreFiles(w: Worker, v: Worker) {
    && v.sql == w.sql && ViewOf(v) == ViewOf(w)
    && (HoldsMain(v.stage) ==> HoldsMain(w.stage)) && (HoldsCompanions(v.stage) ==> HoldsCompanions(w.stage))
  }

  ghost predicate FollowsIn(s: State, after: State, t: nat) {
    after.names == s.names && (t in after.workers ==> t in s.workers && NoMoreFiles(s.workers[t], after.workers[t]))
  }

  lemma AdvancingFollows(s: State, l: Label, t: nat, render: Bdd -> Expr)
    requires IsRenderer(render) && WellFormed(s) && Enabled(s, l) && OnlyAdvances(l)
    requires Filtered(s)
    ensures FollowsIn(s, Exec(s, l, render), t)
  {
  }

  lemma RecordingFollows(s: State, l: Label, t: nat, render: Bdd -> Expr)
    requires IsRenderer(render) && WellFormed(s) && Enabled(s, l)
    requires l.StatSqlite? || l.StatCaller? || l.TrackWal? || l.TrackShm?
    requires Filtered(s)
    ensures FollowsIn(s, Exec(s, l, render), t)
  {
  }

  lemma OthersFollow(s: State, l: Label, t: nat, render: Bdd -> Expr)
    requires IsRenderer(render) && WellFormed(s) && Enabled(s, l)
    requires l.Spawn? || l.StatPath? || l.Delete? || l.Panic? || l.Crash?
    requires Filtered(s)
    ensures FollowsIn(s, Exec(s, l, render), t)
  {
    if l.StatPath? { PathOutcome(s, l.t, render); }
  }

  /** What a worker newly holds is what the paths name. */
  lemma OpeningFollows(s: State, l: Label, t: nat, render: Bdd -> Expr)
    requires IsRenderer(render) && WellFormed(s) && Enabled(s, l) && (l.Submit? || l.OpenDb?)
    requires Filtered(s)
    requires t in s.workers ==> FromPaths(s, s.workers[t])
    ensures var after := Exec(s, l, render);
            after.names == s.names && (t in after.workers ==> FromPaths(s, after.workers[t]))
  {
  }

  lemma FollowsPaths(s: State, l: Label, t: nat, render: Bdd -> Expr)
    requires IsRenderer(render) && WellFormed(s) && Enabled(s, l) && !l.External?
    requires Filtered(s)
    requires t in s.workers ==> FromPaths(s, s.workers[t])
    ensures var after := Exec(s, l, render);
            after.names == s.names && (t in after.workers ==> FromPaths(s, after.workers[t]))
  {
    if l.Admit? {
      assert Present(s, l.t);
      AdmitWorkers(s, l.t, l.answering, t, render);
    } else if l.InitSchema? {
      InitSchemaWorkers(s, l.t, l.scrub, l.content, t, render);
    } else if l.Submit? || l.OpenDb? {
      OpeningFollows(s, l, t, render);
    } else if OnlyAdvances(l) {
      AdvancingFollows(s, l, t, render);
    } else if OpensOrChecks(l) && !l.StatPath? {
      RecordingFollows(s, l, t, render);
    } else {
      OthersFollow(s, l, t, render);
    }
  }

  lemma {:induction false} UndisturbedPaths(states: seq<State>, labels: seq<Label>, i: nat, render: Bdd -> Expr)
    requires IsRenderer(render) && IsRun(states, labels, render) && i < |states|
    requires forall k :: 0 <= k < i ==> !labels[k].External?
    ensures forall t :: t in states[i].workers ==> FromPaths(states[i], states[i].workers[t])
  {
    if i == 0 {
      assert Init(states[0]);
    } else {
      UndisturbedPaths(states, labels, i - 1, render);
      assert Steps(states[i - 1], labels[i - 1], states[i], render);
      forall t | t in states[i].workers ensures FromPaths(states[i], states[i].workers[t]) {
        FollowsPaths(states[i - 1], labels[i - 1], t, render);
      }
    }
  }

  /**
   Until somebody outside touches the paths, tests that reach the database by one
   path share all its files, so no two conflicting bodies run at once.
   */
  lemma UndisturbedExclusion(states: seq<State>, labels: seq<Label>, i: nat, t: nat, u: nat, render: Bdd -> Expr)
    requires IsRenderer(render) && IsRun(states, labels, render) && i < |states|
    requires forall k :: 0 <= k < i ==> !labels[k].External?
    requires At(states[i], t, Running) && At(states[i], u, Running) && t != u
    requires states[i].workers[t].sql == states[i].workers[u].sql
    ensures !Conflict(states[i].workers[t].test, states[i].workers[u].test)
  {
    UndisturbedPaths(states, labels, i, render);
    assert FromPaths(states[i], states[i].workers[t]) && FromPaths(states[i], states[i].workers[u]);
    RunInvariant(states, labels, i, render);
    assert Holds(states[i], t) && Holds(states[i], u) && SameView(states[i], t, u);
  }
}
