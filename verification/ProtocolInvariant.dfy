/**
 Every step of the protocol keeps the invariant.
 */
module ProtocolInvariant {
  import opened Diagram
  import opened LabelExpr
  import opened Canonical
  import opened SerialFilter
  import opened Instance
  import opened Tables
  import opened Database
  import opened Protocol

  // ---- Carrying the invariant over

  /** Whoever is registered afterwards was registered before, for the same test, file and row. */
  ghost predicate NoNewHolder(s: State, after: State) {
    forall t :: Holds(after, t) ==>
      Holds(s, t) && ViewOf(after.workers[t]) == ViewOf(s.workers[t]) && after.workers[t].row == s.workers[t].row
      && after.workers[t].test == s.workers[t].test
  }

  /** A row of a live process is listed as abandoned, or was one before and kept its explanation. */
  ghost predicate RowCarried(s: State, after: State, v: View, id: nat, p: Proc) {
    || (v, id) in after.abandoned
    || (&& RowOfProc(s, v, id, p) && p in s.live
        && (v, id) !in s.abandoned
        && forall t :: Holder(s, t, v, id) ==> Holder(after, t, v, id))
  }

  lemma CarryExclusive(s: State, after: State)
    requires Exclusive(s) && NoNewHolder(s, after)
    ensures Exclusive(after)
  {
    forall t, u | Holds(after, t) && Holds(after, u) && t != u && SameView(after, t, u)
      ensures !Conflict(after.workers[t].test, after.workers[u].test)
    {
      assert Holds(s, t) && Holds(s, u) && SameView(s, t, u);
    }
  }

  lemma CarryExact(s: State, after: State)
    requires Exact(s)
    requires forall v: View, id: nat, p :: RowOfProc(after, v, id, p) && p in after.live
                                           ==> RowCarried(s, after, v, id, p)
    ensures Exact(after)
  {
    forall v: View, id: nat, p | RowOfProc(after, v, id, p) && p in after.live ensures Explained(after, v, id) {
      assert RowCarried(s, after, v, id, p);
      if (v, id) !in after.abandoned {
        assert Explained(s, v, id);
        var t :| Holder(s, t, v, id);
        assert Holder(after, t, v, id);
      }
    }
  }

  lemma Carry(s: State, after: State, render: Bdd -> Expr)
    requires Inv(s, render)
    requires FilesOk(after) && ProcessesOk(after) && WorkersOk(after, render)
    requires NoNewHolder(s, after)
    requires forall v: View, id: nat, p :: RowOfProc(after, v, id, p) && p in after.live
                                           ==> RowCarried(s, after, v, id, p)
    ensures Inv(after, render)
  {
    CarryExclusive(s, after);
    CarryExact(s, after);
  }

  /** Files stay in order when nothing new comes into use and databases stay consistent. */
  lemma CarryFiles(s: State, after: State)
    requires FilesOk(s) && NamesFiles(after) && HeldViews(after)
    requires forall f :: f in s.files ==> f in after.files && after.files[f] == s.files[f]
    requires forall v :: v in after.dbs ==> Consistent(after.dbs[v])
    requires forall f :: InUse(after, f) ==> InUse(s, f)
    ensures FilesOk(after)
  {
    forall u, f: nat | u in after.workers && Keeps(after.workers[u], f) ensures f in after.files {
      assert Held(after, f) && InUse(s, f);
      InUseInFiles(s, f);
    }
    forall f: nat | InUse(after, f) ensures f in s.files { InUseInFiles(s, f); }
  }

  lemma SameUse(s: State, after: State)
    requires after.names == s.names && after.workers == s.workers
    ensures forall f :: InUse(after, f) == InUse(s, f)
  {
    forall f: nat ensures InUse(after, f) == InUse(s, f) {
      assert Linked(after, f) == Linked(s, f);
      assert Held(after, f) == Held(s, f);
    }
  }

  // ---- Steps that only move one worker along

  /** `t` goes on as `w`, keeping no file it could not get at and taking over no row. */
  ghost predicate MovesTo(s: State, t: nat, w: Worker, extra: set<(View, nat)>, render: Bdd -> Expr) {
    && WorkerOk(s, t, w, render)
    && (forall f :: Keeps(w, f) ==> InUse(s, f))
    && (HoldsRow(w.stage) ==>
          Holds(s, t) && ViewOf(w) == ViewOf(s.workers[t]) && w.row == s.workers[t].row && w.test == s.workers[t].test)
    && (Holds(s, t) && !HoldsRow(w.stage) ==> (ViewOf(s.workers[t]), s.workers[t].row) in extra)
  }

  function Moved(s: State, t: nat, w: Worker, extra: set<(View, nat)>): State {
    s.(workers := s.workers[t := w], abandoned := s.abandoned + extra)
  }

  lemma InUseInFiles(s: State, f: nat)
    requires NamesFiles(s) && HeldInFiles(s) && InUse(s, f)
    ensures f in s.files
  {
  }

  lemma MoveFiles(s: State, t: nat, w: Worker, extra: set<(View, nat)>)
    requires FilesOk(s) && forall f :: Keeps(w, f) ==> InUse(s, f)
    requires HoldsCompanions(w.stage) ==> ViewOf(w) in s.dbs
    ensures FilesOk(Moved(s, t, w, extra))
  {
    var after := Moved(s, t, w, extra);
    forall f: nat | InUse(after, f) ensures InUse(s, f) {
      if !Linked(after, f) {
        var u :| u in after.workers && Keeps(after.workers[u], f);
        if u != t { assert Keeps(s.workers[u], f); }
      } else {
        assert Linked(s, f);
      }
    }
    CarryFiles(s, after);
  }

  lemma MoveWorkers(s: State, t: nat, w: Worker, extra: set<(View, nat)>, render: Bdd -> Expr)
    requires WorkersOk(s, render) && WorkerOk(s, t, w, render)
    ensures WorkersOk(Moved(s, t, w, extra), render)
  {
    var after := Moved(s, t, w, extra);
    forall u | u in after.workers ensures WorkerOk(after, u, after.workers[u], render) {
      if u != t { assert WorkerOk(s, u, s.workers[u], render); }
    }
  }

  lemma MoveKeeps(s: State, t: nat, w: Worker, extra: set<(View, nat)>, render: Bdd -> Expr)
    requires Inv(s, render) && MovesTo(s, t, w, extra, render)
    ensures Inv(Moved(s, t, w, extra), render)
  {
    var after := Moved(s, t, w, extra);
    MoveFiles(s, t, w, extra);
    MoveWorkers(s, t, w, extra, render);
    forall v: View, id: nat, p | RowOfProc(after, v, id, p) && p in after.live ensures RowCarried(s, after, v, id, p) {
      assert RowOfProc(s, v, id, p);
    }
    Carry(s, after, render);
  }

  lemma SameFiles(s: State, t: nat, w: Worker)
    requires t in s.workers
    requires forall f :: Keeps(w, f) ==> Keeps(s.workers[t], f)
    ensures forall f :: Keeps(w, f) ==> InUse(s, f)
  {
    forall f | Keeps(w, f) ensures InUse(s, f) { assert Held(s, f); }
  }

  /** A worker that keeps no more than it kept. */
  lemma HoldFiles(s: State, t: nat, w: Worker)
    requires FilesOk(s) && t in s.workers && (HoldsCompanions(w.stage) ==> ViewOf(w) in s.dbs)
    requires forall f :: Keeps(w, f) ==> Keeps(s.workers[t], f)
    ensures FilesOk(Moved(s, t, w, {}))
  {
    SameFiles(s, t, w);
    MoveFiles(s, t, w, {});
  }

  /** The worker is done with the protocol; a row it held is listed as abandoned. */
  lemma FailKeeps(s: State, t: nat, extra: set<(View, nat)>, render: Bdd -> Expr)
    requires Inv(s, render) && t in s.workers
    requires extra == if HoldsRow(s.workers[t].stage) then {(ViewOf(s.workers[t]), s.workers[t].row)} else {}
    ensures Inv(Moved(s, t, To(s.workers[t], Failed), extra), render)
  {
    assert WorkerOk(s, t, s.workers[t], render);
    MoveKeeps(s, t, To(s.workers[t], Failed), extra, render);
  }

  lemma UnwindKeeps(s: State, t: nat, render: Bdd -> Expr)
    requires Inv(s, render) && t in s.workers && IsActive(s.workers[t].stage)
    ensures Inv(Unwind(s, t), render)
  {
    var w := s.workers[t];
    if w.stage == Registered {
      AdvanceStage(s, t, Dropping, render);
    } else if HoldsRow(w.stage) {
      FailKeeps(s, t, {(ViewOf(w), w.row)}, render);
    } else {
      FailKeeps(s, t, {}, render);
      assert Unwind(s, t) == Moved(s, t, To(w, Failed), {});
    }
  }

  lemma AdvanceKeeps(s: State, t: nat, w: Worker, render: Bdd -> Expr)
    requires Inv(s, render) && t in s.workers && WorkerOk(s, t, w, render)
    requires forall f :: Keeps(w, f) ==> InUse(s, f)
    requires HoldsRow(w.stage) == HoldsRow(s.workers[t].stage)
    requires HoldsRow(w.stage) ==>
               ViewOf(w) == ViewOf(s.workers[t]) && w.row == s.workers[t].row && w.test == s.workers[t].test
    ensures Inv(SetWorker(s, t, w), render)
  {
    MoveKeeps(s, t, w, {}, render);
    assert SetWorker(s, t, w) == Moved(s, t, w, {});
  }

  /** A stage that keeps no more files, records no more and holds a row as before. */
  lemma AdvanceStage(s: State, t: nat, next: Stage, render: Bdd -> Expr)
    requires Inv(s, render) && t in s.workers
    requires (s.workers[t].stage, next) in
             {(Ready, Checked), (Checked, Ready), (Registered, Running), (Registered, Dropping), (Running, Dropping),
              (Dropping, DropChecked), (DropChecked, Dropping), (Deleted, Finished), (MainRecorded, MainRecorded)}
    ensures Inv(Advance(s, t, next), render)
  {
    var w := s.workers[t];
    assert WorkerOk(s, t, w, render);
    var w1 := To(w, next);
    SameFiles(s, t, w1);
    AdvanceKeeps(s, t, w1, render);
  }

  /** One more stat of a moved check. */
  lemma StatKeeps(s: State, t: nat, n: nat, render: Bdd -> Expr)
    requires Inv(s, render) && t in s.workers
    ensures Inv(SetWorker(s, t, s.workers[t].(passed := n)), render)
  {
    var w := s.workers[t];
    assert WorkerOk(s, t, w, render);
    var w1 := w.(passed := n);
    SameFiles(s, t, w1);
    AdvanceKeeps(s, t, w1, render);
  }

  // ---- Steps that write to a database

  /** The filter a worker stored is in storage form and selects what the declared one does. */
  lemma StoredFilter(w: Worker, render: Bdd -> Expr)
    requires IsRenderer(render) && ValidSerial(w.test.filter)
    ensures ToStorage(w.test.filter, render).Ok?
    ensures Stored(ToStorage(w.test.filter, render).value, render)
    ensures ValidSerial(ToStorage(w.test.filter, render).value)
    ensures SameSelection(ToStorage(w.test.filter, render).value, w.test.filter)
  {
    StorageKeepsSelection(w.test.filter, render);
    var g := StorageForm(w.test.filter, render);
  }

  /** Replacing the tables of one view touches no name, no file and no other view. */
  lemma SetDbFiles(s: State, v: View, db: Db)
    requires FilesOk(s) && Consistent(db)
    ensures FilesOk(SetDb(s, v, db))
  {
    SameUse(s, SetDb(s, v, db));
    CarryFiles(s, SetDb(s, v, db));
  }

  /** The registered rows of view `v` are in `db` as they are in `was`. */
  ghost predicate RowsStay(s: State, v: View, was: Db, db: Db) {
    forall t :: Holds(s, t) && ViewOf(s.workers[t]) == v ==> RowStays(was, db, s.workers[t].row)
  }

  ghost predicate RowStays(was: Db, db: Db, id: nat) {
    && id in was.running && id in db.running && db.running[id] == was.running[id]
    && LabelsOf(db, id) == LabelsOf(was, id)
  }

  /** Rewriting tables so that every registered row stays and no live row appears keeps the invariant. */
  lemma RewriteKeeps(s: State, v: View, db: Db, render: Bdd -> Expr)
    requires Inv(s, render) && v in s.dbs && Consistent(db) && RowsStay(s, v, s.dbs[v], db)
    requires forall id :: id in db.running ==>
               id in s.dbs[v].running && db.running[id].instance == s.dbs[v].running[id].instance
    ensures Inv(SetDb(s, v, db), render)
  {
    var after := SetDb(s, v, db);
    SetDbFiles(s, v, db);
    forall t | t in after.workers ensures WorkerOk(after, t, after.workers[t], render) {
      var w := s.workers[t];
      assert WorkerOk(s, t, w, render);
      if HoldsRow(w.stage) && ViewOf(w) == v { assert Holds(s, t) && RowStays(s.dbs[v], db, w.row); }
    }
    forall u: View, id: nat, p | RowOfProc(after, u, id, p) && p in after.live ensures RowCarried(s, after, u, id, p) {
      assert RowOfProc(s, u, id, p);
    }
    Carry(s, after, render);
  }

  lemma ScrubKeeps(s: State, v: View, render: Bdd -> Expr)
    requires IsRenderer(render) && Inv(s, render) && v in s.dbs
    ensures Inv(SetDb(s, v, Scrub(s.dbs[v], render)), render)
  {
    var db := s.dbs[v];
    var scrubbed := Scrub(db, render);
    forall t | Holds(s, t) && ViewOf(s.workers[t]) == v ensures RowStays(db, scrubbed, s.workers[t].row) {
      var w := s.workers[t];
      assert WorkerOk(s, t, w, render);
      StoredFilter(w, render);
      StoredIsFixed(RowOf(t, w, render).filter, render);
    }
    RewriteKeeps(s, v, scrubbed, render);
  }

  /** Cleaning never removes a row of a live process. */
  lemma CleanSparesLive(db: Db, ours: string, answering: set<nat>, p: Proc, id: nat)
    requires Consistent(db) && id in db.running && db.running[id].instance == InstanceId(p)
    requires 0 < p.pid < PID_LIMIT && p.pid in answering
    ensures id in Clean(db, ours, answering).running
    ensures LabelsOf(Clean(db, ours, answering), id) == LabelsOf(db, id)
  {
    PidRoundTrip(p);
    DeleteKeeps(db, set k | k in db.running && IsStale(db.running[k].instance, ours, answering));
  }

  lemma CleanKeeps(s: State, v: View, ours: string, answering: set<nat>, render: Bdd -> Expr)
    requires IsRenderer(render) && Inv(s, render) && v in s.dbs
    requires forall q :: q in s.live ==> q.pid in answering
    ensures Inv(SetDb(s, v, Clean(s.dbs[v], ours, answering)), render)
    ensures Consistent(Clean(s.dbs[v], ours, answering))
  {
    var db := s.dbs[v];
    var cleaned := Clean(db, ours, answering);
    DeleteKeeps(db, set k | k in db.running && IsStale(db.running[k].instance, ours, answering));
    forall t | Holds(s, t) && ViewOf(s.workers[t]) == v ensures RowStays(db, cleaned, s.workers[t].row) {
      var w := s.workers[t];
      assert WorkerOk(s, t, w, render);
      CleanSparesLive(db, ours, answering, w.proc, w.row);
    }
    RewriteKeeps(s, v, cleaned, render);
  }

  /** An admitted candidate conflicts with no test registered through the same view. */
  lemma AdmittedIsExclusive(s: State, t: nat, u: nat, render: Bdd -> Expr)
    requires IsRenderer(render) && Inv(s, render)
    requires t in s.workers && ViewOf(s.workers[t]) in s.dbs && ValidSerial(s.workers[t].test.filter)
    requires ToStorage(s.workers[t].test.filter, render).Ok?
    requires ValidSerial(ToStorage(s.workers[t].test.filter, render).value)
    requires CanStart(s.dbs[ViewOf(s.workers[t])], s.workers[t].test.labels,
                      ToStorage(s.workers[t].test.filter, render).value, render)
    requires Holds(s, u) && SameView(s, u, t)
    ensures !Conflict(s.workers[t].test, s.workers[u].test)
  {
    var w, v := s.workers[t], s.workers[u];
    var db := s.dbs[ViewOf(w)];
    assert WorkerOk(s, u, v, render);
    StoredFilter(w, render);
    StoredFilter(v, render);
    var mine, theirs := ToStorage(w.test.filter, render).value, ToStorage(v.test.filter, render).value;
    CanStartIff(db, w.test.labels, mine, render);
    assert !RowConflicts(db, v.row, w.test.labels, mine);
    assert Selects(mine, v.test.labels) == Selects(w.test.filter, v.test.labels);
    assert Selects(theirs, w.test.labels) == Selects(v.test.filter, w.test.labels);
  }

  /** The state right after the candidate's row is committed. */
  function WithRow(s: State, t: nat, row: Row): State
    requires t in s.workers && ViewOf(s.workers[t]) in s.dbs
  {
    Committed(s, t, s.dbs[ViewOf(s.workers[t])], row)
  }

  lemma WithRowFiles(s: State, t: nat, row: Row, render: Bdd -> Expr)
    requires FilesOk(s) && At(s, t, Checked) && ViewOf(s.workers[t]) in s.dbs
    ensures FilesOk(WithRow(s, t, row))
  {
    var w := s.workers[t];
    var db := s.dbs[ViewOf(w)];
    RegisterKeeps(db, row, w.test.labels);
    var s1 := SetDb(s, ViewOf(w), Register(db, row, w.test.labels));
    SetDbFiles(s, ViewOf(w), Register(db, row, w.test.labels));
    var w1 := To(w, Registered).(row := db.lastId + 1);
    HoldFiles(s1, t, w1);
    assert WithRow(s, t, row) == Moved(s1, t, w1, {});
  }

  lemma WithRowOwn(s: State, t: nat, row: Row, render: Bdd -> Expr)
    requires FilesOk(s) && At(s, t, Checked) && ViewOf(s.workers[t]) in s.dbs
    requires WorkerOk(s, t, s.workers[t], render)
    requires ToStorage(s.workers[t].test.filter, render).Ok? && row == RowOf(t, s.workers[t], render)
    ensures WorkerOk(WithRow(s, t, row), t, WithRow(s, t, row).workers[t], render)
  {
    RegisterKeeps(s.dbs[ViewOf(s.workers[t])], row, s.workers[t].test.labels);
  }

  lemma WithRowOther(s: State, t: nat, row: Row, u: nat, render: Bdd -> Expr)
    requires FilesOk(s) && At(s, t, Checked) && ViewOf(s.workers[t]) in s.dbs
    requires u in s.workers && u != t && WorkerOk(s, u, s.workers[u], render)
    ensures WorkerOk(WithRow(s, t, row), u, WithRow(s, t, row).workers[u], render)
  {
    RegisterKeeps(s.dbs[ViewOf(s.workers[t])], row, s.workers[t].test.labels);
  }

  lemma WithRowWorkers(s: State, t: nat, row: Row, render: Bdd -> Expr)
    requires FilesOk(s) && WorkersOk(s, render) && At(s, t, Checked) && ViewOf(s.workers[t]) in s.dbs
    requires ToStorage(s.workers[t].test.filter, render).Ok? && row == RowOf(t, s.workers[t], render)
    ensures WorkersOk(WithRow(s, t, row), render)
  {
    var after := WithRow(s, t, row);
    forall u | u in after.workers ensures WorkerOk(after, u, after.workers[u], render) {
      if u == t { WithRowOwn(s, t, row, render); } else { WithRowOther(s, t, row, u, render); }
    }
  }

  lemma WithRowExclusive(s: State, t: nat, row: Row)
    requires Exclusive(s) && At(s, t, Checked) && ViewOf(s.workers[t]) in s.dbs
    requires forall u :: Holds(s, u) && SameView(s, u, t) ==>
                         !Conflict(s.workers[t].test, s.workers[u].test)
    ensures Exclusive(WithRow(s, t, row))
  {
    var after := WithRow(s, t, row);
    forall u, v | Holds(after, u) && Holds(after, v) && u != v && SameView(after, u, v)
      ensures !Conflict(after.workers[u].test, after.workers[v].test)
    {
      if u != t { assert Holds(s, u); }
      if v != t { assert Holds(s, v); }
    }
  }

  lemma WithRowExact(s: State, t: nat, row: Row)
    requires Exact(s) && At(s, t, Checked) && ViewOf(s.workers[t]) in s.dbs
    ensures Exact(WithRow(s, t, row))
  {
    var after := WithRow(s, t, row);
    forall v: View, k: nat, p | RowOfProc(after, v, k, p) && p in after.live ensures Explained(after, v, k) {
      if v == ViewOf(s.workers[t]) && k == after.workers[t].row {
        assert Holder(after, t, v, k);
      } else {
        assert RowOfProc(s, v, k, p) && Explained(s, v, k);
        if (v, k) !in s.abandoned {
          var u :| Holder(s, u, v, k);
          assert Holder(after, u, v, k);
        }
      }
    }
  }

  /** Inserting the row of an admitted candidate keeps the invariant. */
  lemma RegisterStep(s: State, t: nat, row: Row, render: Bdd -> Expr)
    requires Inv(s, render) && At(s, t, Checked) && ViewOf(s.workers[t]) in s.dbs
    requires ToStorage(s.workers[t].test.filter, render).Ok? && row == RowOf(t, s.workers[t], render)
    requires forall u :: Holds(s, u) && SameView(s, u, t) ==>
                         !Conflict(s.workers[t].test, s.workers[u].test)
    ensures Inv(WithRow(s, t, row), render)
  {
    WithRowFiles(s, t, row, render);
    WithRowWorkers(s, t, row, render);
    WithRowExclusive(s, t, row);
    WithRowExact(s, t, row);
  }

  lemma AdmittedStep(s: State, t: nat, row: Row, render: Bdd -> Expr)
    requires IsRenderer(render) && Inv(s, render) && At(s, t, Checked)
    requires ViewOf(s.workers[t]) in s.dbs && ValidSerial(s.workers[t].test.filter)
    requires ToStorage(s.workers[t].test.filter, render).Ok? && row == RowOf(t, s.workers[t], render)
    requires ValidSerial(row.filter)
    requires CanStart(s.dbs[ViewOf(s.workers[t])], s.workers[t].test.labels, row.filter, render)
    ensures Inv(WithRow(s, t, row), render)
  {
    forall u | Holds(s, u) && SameView(s, u, t)
      ensures !Conflict(s.workers[t].test, s.workers[u].test)
    {
      AdmittedIsExclusive(s, t, u, render);
    }
    RegisterStep(s, t, row, render);
  }

  /** Cleaning and registering are one write. */
  lemma TwoWrites(s: State, t: nat, cleaned: Db, row: Row)
    requires t in s.workers && ViewOf(s.workers[t]) in s.dbs
    ensures WithRow(SetDb(s, ViewOf(s.workers[t]), cleaned), t, row) == Committed(s, t, cleaned, row)
  {
    var w := s.workers[t];
    var db1 := Register(cleaned, row, w.test.labels);
    assert SetDb(SetDb(s, ViewOf(w), cleaned), ViewOf(w), db1) == SetDb(s, ViewOf(w), db1);
  }

  lemma CleanThenRegister(s: State, t: nat, answering: set<nat>, row: Row, cleaned: Db, render: Bdd -> Expr)
    requires IsRenderer(render) && Inv(s, render) && At(s, t, Checked)
    requires forall q :: q in s.live ==> q.pid in answering
    requires ViewOf(s.workers[t]) in s.dbs && ValidSerial(s.workers[t].test.filter)
    requires ToStorage(s.workers[t].test.filter, render).Ok? && row == RowOf(t, s.workers[t], render)
    requires ValidSerial(row.filter)
    requires cleaned == Clean(s.dbs[ViewOf(s.workers[t])], row.instance, answering)
    requires CanStart(cleaned, s.workers[t].test.labels, row.filter, render)
    ensures Inv(WithRow(SetDb(s, ViewOf(s.workers[t]), cleaned), t, row), render)
  {
    CleanKeeps(s, ViewOf(s.workers[t]), row.instance, answering, render);
    AdmittedStep(SetDb(s, ViewOf(s.workers[t]), cleaned), t, row, render);
  }

  /** The transaction either goes back to the loop or cleans and registers. */
  lemma AdmitCases(s: State, t: nat, answering: set<nat>, render: Bdd -> Expr) returns (row: Row, cleaned: Db)
    requires IsRenderer(render) && t in s.workers
    requires ViewOf(s.workers[t]) in s.dbs && ValidSerial(s.workers[t].test.filter)
    ensures ToStorage(s.workers[t].test.filter, render).Ok? && row == RowOf(t, s.workers[t], render)
    ensures ValidSerial(row.filter)
    ensures cleaned == Clean(s.dbs[ViewOf(s.workers[t])], row.instance, answering)
    ensures AdmitStep(s, t, answering, render) ==
            if CanStart(cleaned, s.workers[t].test.labels, row.filter, render)
            then WithRow(SetDb(s, ViewOf(s.workers[t]), cleaned), t, row)
            else Advance(s, t, Ready)
  {
    StoredFilter(s.workers[t], render);
    row := RowOf(t, s.workers[t], render);
    cleaned := Clean(s.dbs[ViewOf(s.workers[t])], row.instance, answering);
    TwoWrites(s, t, cleaned, row);
  }

  lemma AdmitKeeps(s: State, t: nat, answering: set<nat>, render: Bdd -> Expr)
    requires IsRenderer(render) && Inv(s, render) && At(s, t, Checked)
    requires forall q :: q in s.live ==> q.pid in answering
    requires ViewOf(s.workers[t]) in s.dbs && ValidSerial(s.workers[t].test.filter)
    ensures Inv(AdmitStep(s, t, answering, render), render)
  {
    var row, cleaned := AdmitCases(s, t, answering, render);
    if CanStart(cleaned, s.workers[t].test.labels, row.filter, render) {
      CleanThenRegister(s, t, answering, row, cleaned, render);
    } else {
      AdvanceStage(s, t, Ready, render);
    }
  }

  /** A worker's own DELETE: the row leaves with the registration. */
  lemma DeleteStepKeeps(s: State, t: nat, render: Bdd -> Expr)
    requires IsRenderer(render) && Inv(s, render) && At(s, t, DropChecked) && ViewOf(s.workers[t]) in s.dbs
    ensures Inv(DeleteStep(s, t), render)
  {
    // As far as the rest is concerned, first give the row up, then rewrite the tables.
    var w := s.workers[t];
    var s1 := Moved(s, t, To(w, Deleted), {(ViewOf(w), w.row)});
    var db1 := Unregister(s.dbs[ViewOf(w)], w.row);
    GivenUp(s, t, render);
    RowDeleted(s, s1, t, render);
    var s2 := SetDb(s1, ViewOf(w), db1);
    assert DeleteStep(s, t) == s2.(abandoned := s.abandoned);
    ForgetDeleted(s2, DeleteStep(s, t), ViewOf(w), w.row, render);
  }

  lemma RowDeleted(s: State, s1: State, t: nat, render: Bdd -> Expr)
    requires Inv(s, render) && At(s, t, DropChecked) && ViewOf(s.workers[t]) in s.dbs
    requires s1 == Moved(s, t, To(s.workers[t], Deleted), {(ViewOf(s.workers[t]), s.workers[t].row)}) && Inv(s1, render)
    ensures var v := ViewOf(s.workers[t]);
            Inv(SetDb(s1, v, Unregister(s.dbs[v], s.workers[t].row)), render)
  {
    var w := s.workers[t];
    var db := s.dbs[ViewOf(w)];
    var db1 := Unregister(db, w.row);
    DeleteKeeps(db, {w.row});
    OtherRowsStay(s, t, render);
    forall u | Holds(s1, u) && ViewOf(s1.workers[u]) == ViewOf(w) ensures RowStays(db, db1, s1.workers[u].row) {
      assert Holds(s, u) && u != t && SameView(s, u, t);
    }
    RewriteKeeps(s1, ViewOf(w), db1, render);
  }

  lemma GivenUp(s: State, t: nat, render: Bdd -> Expr)
    requires Inv(s, render) && At(s, t, DropChecked)
    ensures var w := s.workers[t]; Inv(Moved(s, t, To(w, Deleted), {(ViewOf(w), w.row)}), render)
  {
    var w := s.workers[t];
    assert WorkerOk(s, t, w, render);
    SameFiles(s, t, To(w, Deleted));
    MoveKeeps(s, t, To(w, Deleted), {(ViewOf(w), w.row)}, render);
  }

  /** Deleting one guard's row touches no other guard's. */
  lemma OtherRowsStay(s: State, t: nat, render: Bdd -> Expr)
    requires Inv(s, render) && At(s, t, DropChecked) && ViewOf(s.workers[t]) in s.dbs
    ensures var db := s.dbs[ViewOf(s.workers[t])];
            forall u :: Holds(s, u) && u != t && SameView(s, u, t) ==>
              RowStays(db, Unregister(db, s.workers[t].row), s.workers[u].row)
  {
    var w := s.workers[t];
    var db := s.dbs[ViewOf(w)];
    assert WorkerOk(s, t, w, render);
    DeleteKeeps(db, {w.row});
    forall u | Holds(s, u) && u != t && SameView(s, u, t)
      ensures RowStays(db, Unregister(db, w.row), s.workers[u].row)
    {
      assert WorkerOk(s, u, s.workers[u], render);
    }
  }

  /** An abandoned row that no longer exists need not be listed. */
  lemma ForgetDeleted(s: State, after: State, v: View, id: nat, render: Bdd -> Expr)
    requires Inv(s, render) && after == s.(abandoned := after.abandoned)
    requires s.abandoned == after.abandoned + {(v, id)}
    requires v in s.dbs && id !in s.dbs[v].running
    ensures Inv(after, render)
  {
    SameUse(s, after);
    CarryFiles(s, after);
    forall t | t in after.workers ensures WorkerOk(after, t, after.workers[t], render) {
      assert WorkerOk(s, t, s.workers[t], render);
    }
    forall u: View, k: nat, p | RowOfProc(after, u, k, p) && p in after.live ensures RowCarried(s, after, u, k, p) {
      assert RowOfProc(s, u, k, p);
    }
    Carry(s, after, render);
  }

  // ---- Processes and the outside actor

  lemma SpawnKeeps(s: State, p: Proc, render: Bdd -> Expr)
    requires Inv(s, render) && Enabled(s, Spawn(p))
    ensures Inv(s.(live := s.live + {p}), render)
  {
    var after := s.(live := s.live + {p});
    SameUse(s, after);
    CarryFiles(s, after);
    forall t | t in after.workers ensures WorkerOk(after, t, after.workers[t], render) {
      assert WorkerOk(s, t, s.workers[t], render);
    }
    forall v: View, id: nat, q | RowOfProc(after, v, id, q) && q in after.live ensures RowCarried(s, after, v, id, q) {
      assert RowOfProc(s, v, id, q) && q != p;
    }
    Carry(s, after, render);
  }

  lemma CrashFiles(s: State, p: Proc)
    requires FilesOk(s)
    ensures FilesOk(AfterCrash(s, p))
  {
    var after := AfterCrash(s, p);
    forall f: nat | InUse(after, f) ensures InUse(s, f) {
      if !Linked(after, f) {
        var u :| u in after.workers && Keeps(after.workers[u], f);
        assert Keeps(s.workers[u], f);
      } else {
        assert Linked(s, f);
      }
    }
    CarryFiles(s, after);
  }

  lemma CrashWorkers(s: State, p: Proc, render: Bdd -> Expr)
    requires WorkersOk(s, render)
    ensures WorkersOk(AfterCrash(s, p), render)
  {
    var after := AfterCrash(s, p);
    forall t | t in after.workers ensures WorkerOk(after, t, after.workers[t], render) {
      assert WorkerOk(s, t, s.workers[t], render);
    }
  }

  /** A surviving process's guards survive. */
  lemma CrashSparesOthers(s: State, p: Proc, t: nat, v: View, id: nat, q: Proc, render: Bdd -> Expr)
    requires WorkersOk(s, render) && Holder(s, t, v, id) && RowOfProc(s, v, id, q) && q != p
    ensures Holder(AfterCrash(s, p), t, v, id)
  {
    assert WorkerOk(s, t, s.workers[t], render);
    if s.workers[t].proc == p { InstanceInjective(p, q); }
  }

  lemma CrashKeeps(s: State, p: Proc, render: Bdd -> Expr)
    requires Inv(s, render)
    ensures Inv(AfterCrash(s, p), render)
  {
    var after := AfterCrash(s, p);
    CrashFiles(s, p);
    CrashWorkers(s, p, render);
    forall v: View, id: nat, q | RowOfProc(after, v, id, q) && q in after.live ensures RowCarried(s, after, v, id, q) {
      assert RowOfProc(s, v, id, q);
      forall t | Holder(s, t, v, id) ensures Holder(after, t, v, id) {
        CrashSparesOthers(s, p, t, v, id, q, render);
      }
    }
    Carry(s, after, render);
  }

  lemma ExternalFiles(s: State, names: map<Name, nat>, files: map<nat, Id>)
    requires FilesOk(s) && Enabled(s, External(names, files))
    ensures FilesOk(s.(names := names, files := files))
  {
    var after := s.(names := names, files := files);
    forall u, f: nat | u in after.workers && Keeps(after.workers[u], f) ensures f in after.files {
      assert Keeps(s.workers[u], f);
    }
    forall u | u in after.workers && HoldsCompanions(after.workers[u].stage)
      ensures ViewOf(after.workers[u]) in after.dbs
    {
      assert ViewOf(s.workers[u]) in s.dbs;
    }
  }

  lemma ExternalWorkers(s: State, names: map<Name, nat>, files: map<nat, Id>, render: Bdd -> Expr)
    requires WorkersOk(s, render) && forall f :: f in s.files ==> f in files && files[f] == s.files[f]
    ensures WorkersOk(s.(names := names, files := files), render)
  {
    var after := s.(names := names, files := files);
    forall t | t in after.workers ensures WorkerOk(after, t, after.workers[t], render) {
      assert WorkerOk(s, t, s.workers[t], render);
    }
  }

  lemma ExternalKeeps(s: State, names: map<Name, nat>, files: map<nat, Id>, render: Bdd -> Expr)
    requires Inv(s, render) && Enabled(s, External(names, files))
    ensures Inv(s.(names := names, files := files), render)
  {
    var after := s.(names := names, files := files);
    ExternalFiles(s, names, files);
    ExternalWorkers(s, names, files, render);
    forall v: View, id: nat, p | RowOfProc(after, v, id, p) && p in after.live ensures RowCarried(s, after, v, id, p) {
      assert RowOfProc(s, v, id, p);
    }
    Carry(s, after, render);
  }

  // ---- Opening a connection

  lemma LinkedInUse(s: State, n: Name)
    requires NamesFiles(s) && n in s.names
    ensures InUse(s, s.names[n]) && s.names[n] in s.files
  {
    assert Linked(s, s.names[n]);
  }

  lemma SubmitKeeps(s: State, t: nat, p: Proc, test: Test, render: Bdd -> Expr)
    requires Inv(s, render) && Enabled(s, Submit(t, p, test))
    ensures Inv(SetWorker(s, t, Worker(p, test, Starting, 0, 0, 0, 0, Id(0, 0), Id(0, 0), Id(0, 0), 0, 0)), render)
  {
    var w := Worker(p, test, Starting, 0, 0, 0, 0, Id(0, 0), Id(0, 0), Id(0, 0), 0, 0);
    MoveKeeps(s, t, w, {}, render);
    assert SetWorker(s, t, w) == Moved(s, t, w, {});
  }

  lemma OpenKeeps(s: State, t: nat, sql: nat, render: Bdd -> Expr)
    requires Inv(s, render) && Enabled(s, OpenDb(t, sql))
    ensures Inv(SetWorker(s, t, To(s.workers[t], Opened).(main := s.names[Path(sql)], sql := sql)), render)
  {
    assert WorkerOk(s, t, s.workers[t], render);
    LinkedInUse(s, Path(sql));
    AdvanceKeeps(s, t, To(s.workers[t], Opened).(main := s.names[Path(sql)], sql := sql), render);
  }

  /** Recording an identity read from the connection's own file. */
  lemma RecordKeeps(s: State, t: nat, w: Worker, render: Bdd -> Expr)
    requires Inv(s, render) && t in s.workers
    requires var v := s.workers[t];
             || (v.stage == Opened && v.main in s.files && w == To(v, SqliteNamed).(mainId := s.files[v.main]))
             || (v.stage == SqliteNamed && w == To(v, MainRecorded))
             || (v.stage == Initialised && v.wal in s.files && w == To(v, WalTracked).(walId := s.files[v.wal]))
             || (v.stage == WalTracked && v.shm in s.files && w == To(v, Ready).(shmId := s.files[v.shm]))
    ensures Inv(SetWorker(s, t, w), render)
  {
    assert WorkerOk(s, t, s.workers[t], render);
    SameFiles(s, t, w);
    AdvanceKeeps(s, t, w, render);
  }

  /** Opening a view for the first time, whatever it holds. */
  lemma OpenViewKeeps(s: State, v: View, content: Db, render: Bdd -> Expr)
    requires Inv(s, render) && Consistent(content)
    ensures Inv(OpenView(s, v, content), render)
  {
    if v !in s.dbs {
      var after := OpenView(s, v, content);
      SetDbFiles(s, v, content);
      var mid := SetDb(s, v, content);
      SameUse(mid, after);
      CarryFiles(mid, after);
      forall t | t in after.workers ensures WorkerOk(after, t, after.workers[t], render) {
        assert WorkerOk(s, t, s.workers[t], render);
      }
      forall u: View, id: nat, p | RowOfProc(after, u, id, p) && p in after.live
        ensures RowCarried(s, after, u, id, p)
      {
        if u == v {
          assert (v, id) in Forged(s, v, content);
        } else {
          assert RowOfProc(s, u, id, p);
        }
      }
      Carry(s, after, render);
    }
  }

  lemma InitSchemaKeeps(s: State, t: nat, render: Bdd -> Expr)
    requires Inv(s, render) && At(s, t, MainRecorded) && NextView(s, t) in s.dbs
    requires WalOf(s.workers[t].sql) in s.names && ShmOf(s.workers[t].sql) in s.names
    ensures var v := NextView(s, t);
            Inv(SetWorker(s, t, To(s.workers[t], Initialised).(wal := v.wal, shm := v.shm)), render)
  {
    var w := s.workers[t];
    LinkedInUse(s, WalOf(w.sql));
    LinkedInUse(s, ShmOf(w.sql));
    var w1 := To(w, Initialised).(wal := s.names[WalOf(w.sql)], shm := s.names[ShmOf(w.sql)]);
    assert WorkerOk(s, t, w, render);
    SameFiles(s, t, w);
    AdvanceKeeps(s, t, w1, render);
  }

  // ---- Every step

  lemma FiltersValid(s: State, render: Bdd -> Expr)
    requires WorkersOk(s, render)
    ensures Filtered(s)
  {
    forall t | Present(s, t) ensures ValidSerial(s.workers[t].test.filter) {
      assert WorkerOk(s, t, s.workers[t], render);
    }
  }

  ghost predicate CanStep(s: State, l: Label, render: Bdd -> Expr) {
    && IsRenderer(render) && Inv(s, render) && Enabled(s, l)
    && Filtered(s)
  }

  lemma StatStep(s: State, l: Label, render: Bdd -> Expr)
    requires CanStep(s, l, render) && (l.StatSqlite? || l.StatCaller?)
    ensures Inv(Exec(s, l, render), render)
  {
    var w := s.workers[l.t];
    assert Keeps(w, w.main);
    UnwindKeeps(s, l.t, render);
    if l.StatSqlite? {
      RecordKeeps(s, l.t, To(w, SqliteNamed).(mainId := s.files[w.main]), render);
    } else {
      RecordKeeps(s, l.t, To(w, MainRecorded), render);
    }
  }

  lemma TrackWalStep(s: State, t: nat, render: Bdd -> Expr)
    requires CanStep(s, TrackWal(t), render)
    ensures Inv(Exec(s, TrackWal(t), render), render)
  {
    var w := s.workers[t];
    assert Keeps(w, w.wal);
    UnwindKeeps(s, t, render);
    RecordKeeps(s, t, To(w, WalTracked).(walId := s.files[w.wal]), render);
  }

  lemma TrackShmStep(s: State, t: nat, render: Bdd -> Expr)
    requires CanStep(s, TrackShm(t), render)
    ensures Inv(Exec(s, TrackShm(t), render), render)
  {
    var w := s.workers[t];
    assert Keeps(w, w.shm);
    UnwindKeeps(s, t, render);
    RecordKeeps(s, t, To(w, Ready).(shmId := s.files[w.shm]), render);
  }

  lemma InitSchemaStep(s: State, t: nat, scrub: bool, content: Db, render: Bdd -> Expr)
    requires CanStep(s, InitSchema(t, scrub, content), render)
    ensures Inv(InitStep(s, t, scrub, content, render), render)
  {
    var v := NextView(s, t);
    OpenViewKeeps(s, v, content, render);
    var s1 := OpenView(s, v, content);
    ScrubKeeps(s1, v, render);
    var s2 := if scrub then SetDb(s1, v, Scrub(s1.dbs[v], render)) else s1;
    InitSchemaKeeps(s2, t, render);
  }

  /** What a stat leads to. */
  lemma PathOutcome(s: State, t: nat, render: Bdd -> Expr)
    requires IsRenderer(render) && WellFormed(s) && Enabled(s, StatPath(t))
    requires Filtered(s)
    ensures var after := Exec(s, StatPath(t), render);
            after == SetWorker(s, t, s.workers[t].(passed := s.workers[t].passed + 1)) || after == Unwind(s, t)
  {
    assert Keeps(s.workers[t], s.workers[t].main);
  }

  lemma PathStep(s: State, t: nat, render: Bdd -> Expr)
    requires CanStep(s, StatPath(t), render)
    ensures Inv(Exec(s, StatPath(t), render), render)
  {
    PathOutcome(s, t, render);
    UnwindKeeps(s, t, render);
    StatKeeps(s, t, s.workers[t].passed + 1, render);
  }

  lemma StageStep(s: State, l: Label, render: Bdd -> Expr)
    requires CanStep(s, l, render) && OnlyAdvances(l)
    ensures Inv(Exec(s, l, render), render)
  {
    var next := Exec(s, l, render).workers[l.t].stage;
    AdvanceStage(s, l.t, next, render);
    assert Exec(s, l, render) == Advance(s, l.t, next);
  }

  lemma WriteStep(s: State, l: Label, render: Bdd -> Expr)
    requires CanStep(s, l, render) && (l.Admit? || l.Delete?)
    ensures Inv(Exec(s, l, render), render)
  {
    assert WorkerOk(s, l.t, s.workers[l.t], render);
    if l.Admit? {
      AdmitKeeps(s, l.t, l.answering, render);
    } else {
      DeleteStepKeeps(s, l.t, render);
    }
  }

  lemma OtherStep(s: State, l: Label, render: Bdd -> Expr)
    requires CanStep(s, l, render)
    requires l.Spawn? || l.Submit? || l.OpenDb? || l.Panic? || l.Crash? || l.External?
    ensures Inv(Exec(s, l, render), render)
  {
    match l {
      case Spawn(p) => SpawnKeeps(s, p, render);
      case Submit(t, p, test) => SubmitKeeps(s, t, p, test, render);
      case OpenDb(t, sql) => OpenKeeps(s, t, sql, render);
      case Panic(t) => UnwindKeeps(s, t, render);
      case Crash(p) => CrashKeeps(s, p, render);
      case External(names, files) => ExternalKeeps(s, names, files, render);
    }
  }

  /** The invariant is inductive. */
  lemma StepKeeps(s: State, l: Label, render: Bdd -> Expr)
    requires IsRenderer(render) && Inv(s, render) && Enabled(s, l)
    requires Filtered(s)
    ensures Inv(Exec(s, l, render), render)
  {
    if l.Admit? || l.Delete? {
      WriteStep(s, l, render);
    } else if OnlyAdvances(l) {
      StageStep(s, l, render);
    } else if OpensOrChecks(l) {
      OpeningStep(s, l, render);
    } else {
      OtherStep(s, l, render);
    }
  }

  lemma OpeningStep(s: State, l: Label, render: Bdd -> Expr)
    requires CanStep(s, l, render) && OpensOrChecks(l)
    ensures Inv(Exec(s, l, render), render)
  {
    match l {
      case InitSchema(t, scrub, content) => InitSchemaStep(s, t, scrub, content, render);
      case TrackWal(t) => TrackWalStep(s, t, render);
      case TrackShm(t) => TrackShmStep(s, t, render);
      case StatPath(t) => PathStep(s, t, render);
      case _ => StatStep(s, l, render);
    }
  }
}
