/**
 The cross-process admission protocol as a labelled transition system: any number
 of processes and test threads, each somewhere between opening the database and
 dropping its registration, and an outside actor who may delete, replace or
 retarget any path between any two steps.

 An exclusive SQLite transaction is one step. `SQLITE_BUSY` is a step back to the
 retry. A connection keeps the files it opened, whatever the paths name later.
 */
module Protocol {
  import opened Diagram
  import opened LabelExpr
  import opened Canonical
  import opened SerialFilter
  import opened Instance
  import opened Tables
  import opened Database

  /** Device and inode number. */
  datatype Id = Id(dev: nat, ino: nat)

  /** A database path, or the name of a `-wal` or `-shm` companion derived from one. */
  datatype Name = Path(n: nat) | WalOf(n: nat) | ShmOf(n: nat)

  /** The path every caller passes to `coordinate`. */
  const CALLER := Path(0)

  datatype Stage =
    | Starting      // about to open
    | Opened        // connection open, nothing recorded
    | SqliteNamed   // identity read from the connection, SQLite's own path agrees
    | MainRecorded  // the caller's path agrees too
    | Initialised   // schema in place, `-wal` and `-shm` open
    | WalTracked
    | Ready         // top of the admission loop
    | Checked       // moved check passed, transaction next
    | Registered    // committed, second moved check next
    | Running       // `coordinate` returned, the test body runs
    | Dropping      // guard being dropped, moved check next
    | DropChecked   // DELETE next
    | Deleted       // last moved check next
    | Finished
    | Failed
    | Crashed

  /** One test thread: its connection's files, the identities it recorded, its row, its moved check. */
  datatype Worker = Worker(
    proc: Proc, test: Test, stage: Stage,
    main: nat, sql: nat, wal: nat, shm: nat,
    mainId: Id, walId: Id, shmId: Id, row: nat,
    passed: nat)    // stats of the current moved check that have passed

  /**
   The files a connection reads and locks through. In WAL mode a commit lands in
   the -wal file and the write lock is in the -shm file, so connections that
   share only the main file see different tables.
   */
  datatype View = View(main: nat, wal: nat, shm: nat)

  function ViewOf(w: Worker): View { View(w.main, w.wal, w.shm) }

  /**
   All files, alive or unlinked, with their identities; the tables seen through
   each view opened so far; and, in `abandoned`, rows of live processes that no
   guard will delete.
   */
  datatype State = State(
    names: map<Name, nat>, files: map<nat, Id>, dbs: map<View, Db>,
    live: set<Proc>, workers: map<nat, Worker>, abandoned: set<(View, nat)>)

  predicate HoldsMain(g: Stage) { !g.Starting? && IsActive(g) }

  predicate KnowsMain(g: Stage) { HoldsMain(g) && !g.Opened? }

  predicate HoldsCompanions(g: Stage) { KnowsMain(g) && !g.SqliteNamed? && !g.MainRecorded? }

  predicate KnowsWal(g: Stage) { HoldsCompanions(g) && !g.Initialised? }

  predicate KnowsShm(g: Stage) { KnowsWal(g) && !g.WalTracked? }

  predicate HoldsRow(g: Stage) { g.Registered? || g.Running? || g.Dropping? || g.DropChecked? }

  predicate IsActive(g: Stage) { !g.Finished? && !g.Failed? && !g.Crashed? }

  predicate At(s: State, t: nat, g: Stage) { t in s.workers && s.workers[t].stage == g }

  // ---- Files

  ghost predicate NamesFiles(s: State) {
    forall n :: n in s.names ==> s.names[n] in s.files
  }

  ghost predicate Linked(s: State, f: nat) {
    exists n :: n in s.names && s.names[n] == f
  }

  predicate Keeps(w: Worker, f: nat) {
    (HoldsMain(w.stage) && w.main == f) || (HoldsCompanions(w.stage) && (w.wal == f || w.shm == f))
  }

  ghost predicate Held(s: State, f: nat) {
    exists t :: t in s.workers && Keeps(s.workers[t], f)
  }

  ghost predicate InUse(s: State, f: nat) { Linked(s, f) || Held(s, f) }

  ghost predicate HeldInFiles(s: State) {
    forall t, f :: t in s.workers && Keeps(s.workers[t], f) ==> f in s.files
  }

  /** The view of every open database is known. */
  ghost predicate HeldViews(s: State) {
    forall t :: t in s.workers && HoldsCompanions(s.workers[t].stage) ==> ViewOf(s.workers[t]) in s.dbs
  }

  ghost predicate WellFormed(s: State) { NamesFiles(s) && HeldInFiles(s) && HeldViews(s) }

  /** The kernel reuses an inode number only once nothing links to or holds the old file. */
  ghost predicate KernelIds(s: State)
    requires NamesFiles(s) && HeldInFiles(s)
  {
    forall f, g :: InUse(s, f) && InUse(s, g) && f in s.files && g in s.files && s.files[f] == s.files[g]
                   ==> f == g
  }

  /** `FileIdentity::of`. */
  ghost function Resolve(s: State, n: Name): Option<Id>
    requires NamesFiles(s)
  {
    if n in s.names then Some(s.files[s.names[n]]) else None
  }

  /**
   The stats of `has_moved`, each at an instant of its own: SQLite's check of its
   path compares inode numbers only, the others the recorded identities.
   */
  ghost predicate StatPasses(s: State, w: Worker, k: nat)
    requires NamesFiles(s) && w.main in s.files
  {
    match k
    case 0 => Resolve(s, Path(w.sql)).Some? && Resolve(s, Path(w.sql)).value.ino == s.files[w.main].ino
    case 1 => Resolve(s, CALLER) == Some(w.mainId)
    case 2 => Resolve(s, WalOf(w.sql)) == Some(w.walId)
    case _ => Resolve(s, ShmOf(w.sql)) == Some(w.shmId)
  }

  /** How many stats the check at this stage makes; companions count once they are recorded. */
  function Stats(g: Stage): nat {
    if g.MainRecorded? then 2
    else if g.Ready? || g.Registered? || g.Dropping? || g.Deleted? then 4
    else 0
  }

  /** The moved check of this stage is complete. */
  predicate CheckedAt(s: State, t: nat, g: Stage) {
    At(s, t, g) && s.workers[t].passed == Stats(g)
  }

  /** On to a stage, with no stat of its check made. */
  function To(w: Worker, g: Stage): Worker { w.(stage := g, passed := 0) }

  // ---- Steps

  datatype Label =
    | Spawn(p: Proc)
    | Submit(t: nat, p: Proc, test: Test)
    | OpenDb(t: nat, sql: nat)
    | StatSqlite(t: nat)
    | StatCaller(t: nat)
    | InitSchema(t: nat, scrub: bool, content: Db)   // what a view never opened before holds
    | TrackWal(t: nat)
    | TrackShm(t: nat)
    | StatPath(t: nat)
    | LoopCheck(t: nat)
    | Admit(t: nat, answering: set<nat>)
    | Busy(t: nat)
    | PostCommit(t: nat)
    | BodyEnds(t: nat)
    | DropCheck(t: nat)
    | Delete(t: nat)
    | PostDelete(t: nat)
    | Panic(t: nat)
    | Crash(p: Proc)
    | External(names: map<Name, nat>, files: map<nat, Id>)

  /** No table anywhere has a row of this process. */
  ghost predicate Unrecorded(s: State, p: Proc) {
    forall v, id :: v in s.dbs && id in s.dbs[v].running ==> s.dbs[v].running[id].instance != InstanceId(p)
  }

  /** Any names, any new files; the kernel keeps its numbers. */
  ghost predicate MaySwap(s: State, names: map<Name, nat>, files: map<nat, Id>)
    requires NamesFiles(s) && HeldInFiles(s)
  {
    var after := s.(names := names, files := files);
    && (forall f :: f in s.files ==> f in files && files[f] == s.files[f])
    && NamesFiles(after) && KernelIds(after)
  }

  /** A PID is unique among live processes and an instance id is never used twice. */
  ghost predicate MaySpawn(s: State, p: Proc) {
    0 < p.pid < PID_LIMIT && (forall q :: q in s.live ==> q.pid != p.pid) && Unrecorded(s, p)
  }

  /** The operating system never reports a live process dead. */
  ghost predicate SoundAnswer(s: State, answering: set<nat>) {
    forall q :: q in s.live ==> q.pid in answering
  }

  ghost predicate Enabled(s: State, l: Label)
    requires NamesFiles(s) && HeldInFiles(s)
  {
    match l
    case Spawn(p) => MaySpawn(s, p)
    // `validate_serial_filters` has checked every filter at startup.
    case Submit(t, p, test) => t !in s.workers && p in s.live && ValidSerial(test.filter)
    // SQLite resolves the caller's path to one of its own and opens that, at another instant.
    case OpenDb(t, sql) =>
      At(s, t, Starting) && Path(sql) in s.names
    case StatSqlite(t) => At(s, t, Opened)
    case StatCaller(t) => At(s, t, SqliteNamed)
    case InitSchema(t, _, content) =>
      && CheckedAt(s, t, MainRecorded) && Consistent(content)
      && WalOf(s.workers[t].sql) in s.names && ShmOf(s.workers[t].sql) in s.names
    case TrackWal(t) => At(s, t, Initialised)
    case TrackShm(t) => At(s, t, WalTracked)
    case StatPath(t) => t in s.workers && s.workers[t].passed < Stats(s.workers[t].stage)
    case LoopCheck(t) => CheckedAt(s, t, Ready)
    case Admit(t, answering) => At(s, t, Checked) && SoundAnswer(s, answering)
    case Busy(t) => At(s, t, Checked) || At(s, t, DropChecked) || CheckedAt(s, t, MainRecorded)
    case PostCommit(t) => CheckedAt(s, t, Registered)
    case BodyEnds(t) => At(s, t, Running)
    case DropCheck(t) => CheckedAt(s, t, Dropping)
    case Delete(t) => At(s, t, DropChecked)
    case PostDelete(t) => CheckedAt(s, t, Deleted)
    case Panic(t) =>
      At(s, t, DropChecked) || (t in s.workers && IsActive(s.workers[t].stage) && !HoldsRow(s.workers[t].stage))
    case Crash(p) => p in s.live
    case External(names, files) => MaySwap(s, names, files)
  }

  function SetWorker(s: State, t: nat, w: Worker): State {
    s.(workers := s.workers[t := w])
  }

  function SetDb(s: State, v: View, db: Db): State {
    s.(dbs := s.dbs[v := db])
  }

  /** The row a worker inserts: the storage form of its filter, under its process's instance. */
  function RowOf(t: nat, w: Worker, render: Bdd -> Expr): Row
    requires ToStorage(w.test.filter, render).Ok?
  {
    Row(InstanceId(w.proc), w.test.name, ToStorage(w.test.filter, render).value, t)
  }

  /** Where a failed check or an error leaves a worker; a registered one unwinds through its guard. */
  function Unwind(s: State, t: nat): State
    requires t in s.workers
  {
    var w := s.workers[t];
    if w.stage == Registered then SetWorker(s, t, To(w, Dropping))
    else if HoldsRow(w.stage) then
      SetWorker(s, t, To(w, Failed)).(abandoned := s.abandoned + {(ViewOf(w), w.row)})
    else SetWorker(s, t, To(w, Failed))
  }

  /** A path agrees and the worker goes on, or it does not and the worker unwinds. */
  function Accept(s: State, t: nat, agrees: bool, w: Worker): State
    requires t in s.workers
  {
    if agrees then SetWorker(s, t, w) else Unwind(s, t)
  }

  function Advance(s: State, t: nat, g: Stage): State
    requires t in s.workers
  {
    SetWorker(s, t, To(s.workers[t], g))
  }

  /** The candidate's row has been inserted into these tables and committed. */
  function Committed(s: State, t: nat, db: Db, row: Row): State
    requires t in s.workers
  {
    var w := s.workers[t];
    SetWorker(SetDb(s, ViewOf(w), Register(db, row, w.test.labels)), t, To(w, Registered).(row := db.lastId + 1))
  }

  /** The admission transaction: exactly what `Connection.Attempt` does when no statement fails. */
  ghost function AdmitStep(s: State, t: nat, answering: set<nat>, render: Bdd -> Expr): State
    requires IsRenderer(render) && t in s.workers
    requires ViewOf(s.workers[t]) in s.dbs && ValidSerial(s.workers[t].test.filter)
  {
    var w := s.workers[t];
    StorageKeepsSelection(w.test.filter, render);
    var row := RowOf(t, w, render);
    var cleaned := Clean(s.dbs[ViewOf(w)], row.instance, answering);
    if CanStart(cleaned, w.test.labels, row.filter, render)
    then Committed(s, t, cleaned, row) else Advance(s, t, Ready)
  }

  /** The guard's DELETE, through its own connection. */
  function DeleteStep(s: State, t: nat): State
    requires t in s.workers && ViewOf(s.workers[t]) in s.dbs
  {
    var w := s.workers[t];
    SetWorker(SetDb(s, ViewOf(w), Unregister(s.dbs[ViewOf(w)], w.row)), t, To(w, Deleted))
  }

  function AfterCrash(s: State, p: Proc): State {
    s.(live := s.live - {p},
       workers := map t | t in s.workers ::
         if s.workers[t].proc == p && IsActive(s.workers[t].stage) then To(s.workers[t], Crashed)
         else s.workers[t])
  }

  /** The view a worker gets if it opens the companions now. */
  function NextView(s: State, t: nat): View
    requires t in s.workers
  {
    var w := s.workers[t];
    View(w.main, if WalOf(w.sql) in s.names then s.names[WalOf(w.sql)] else 0,
         if ShmOf(w.sql) in s.names then s.names[ShmOf(w.sql)] else 0)
  }

  /** Rows of live processes that a view opened for the first time brings along. */
  ghost function Forged(s: State, v: View, content: Db): set<(View, nat)> {
    if v in s.dbs then {}
    else set id, p | id in content.running && p in s.live && content.running[id].instance == InstanceId(p) :: (v, id)
  }

  /** The tables are there to be used through this view. */
  ghost function OpenView(s: State, v: View, content: Db): State {
    if v in s.dbs then s else SetDb(s, v, content).(abandoned := s.abandoned + Forged(s, v, content))
  }

  ghost function InitStep(s: State, t: nat, scrub: bool, content: Db, render: Bdd -> Expr): State
    requires t in s.workers
  {
    var v := NextView(s, t);
    var s1 := OpenView(s, v, content);
    var s2 := if scrub then SetDb(s1, v, Scrub(s1.dbs[v], render)) else s1;
    SetWorker(s2, t, To(s.workers[t], Initialised).(wal := v.wal, shm := v.shm))
  }

  /** Steps that go to the next stage and do nothing else. */
  predicate OnlyAdvances(l: Label) {
    l.LoopCheck? || l.PostCommit? || l.DropCheck? || l.PostDelete? || l.Busy? || l.BodyEnds?
  }

  /** Steps that open files or compare paths with them. */
  predicate OpensOrChecks(l: Label) {
    l.StatSqlite? || l.StatCaller? || l.InitSchema? || l.TrackWal? || l.TrackShm? || l.StatPath?
  }

  predicate Present(s: State, t: nat) { t in s.workers }

  /** Every submitted test has a valid filter. */
  ghost predicate Filtered(s: State) {
    forall t {:trigger Present(s, t)} :: Present(s, t) ==> ValidSerial(s.workers[t].test.filter)
  }

  ghost function Exec(s: State, l: Label, render: Bdd -> Expr): State
    requires WellFormed(s) && Enabled(s, l) && IsRenderer(render) && Filtered(s)
  {
    match l
    case Spawn(p) => s.(live := s.live + {p})
    case Submit(t, p, test) =>
      SetWorker(s, t, Worker(p, test, Starting, 0, 0, 0, 0, Id(0, 0), Id(0, 0), Id(0, 0), 0, 0))
    case OpenDb(t, sql) =>
      SetWorker(s, t, To(s.workers[t], Opened).(main := s.names[Path(sql)], sql := sql))
    case StatSqlite(t) =>
      var w := s.workers[t];
      assert Keeps(w, w.main);
      Accept(s, t, Resolve(s, Path(w.sql)) == Some(s.files[w.main]), To(w, SqliteNamed).(mainId := s.files[w.main]))
    case StatCaller(t) =>
      var w := s.workers[t];
      Accept(s, t, Resolve(s, CALLER) == Some(w.mainId), To(w, MainRecorded))
    case InitSchema(t, scrub, content) => InitStep(s, t, scrub, content, render)
    case TrackWal(t) =>
      var w := s.workers[t];
      assert Keeps(w, w.wal);
      Accept(s, t, Resolve(s, WalOf(w.sql)) == Some(s.files[w.wal]), To(w, WalTracked).(walId := s.files[w.wal]))
    case TrackShm(t) =>
      var w := s.workers[t];
      assert Keeps(w, w.shm);
      Accept(s, t, Resolve(s, ShmOf(w.sql)) == Some(s.files[w.shm]), To(w, Ready).(shmId := s.files[w.shm]))
    case StatPath(t) =>
      var w := s.workers[t];
      assert Keeps(w, w.main);
      Accept(s, t, StatPasses(s, w, w.passed), w.(passed := w.passed + 1))
    case LoopCheck(t) => Advance(s, t, Checked)
    case Admit(t, answering) => assert Present(s, t); AdmitStep(s, t, answering, render)
    case Busy(t) =>
      var g := s.workers[t].stage;
      Advance(s, t, if g == Checked then Ready else if g == DropChecked then Dropping else MainRecorded)
    case PostCommit(t) => Advance(s, t, Running)
    case BodyEnds(t) => Advance(s, t, Dropping)
    case DropCheck(t) => Advance(s, t, DropChecked)
    case Delete(t) => DeleteStep(s, t)
    case PostDelete(t) => Advance(s, t, Finished)
    case Panic(t) => Unwind(s, t)
    case Crash(p) => AfterCrash(s, p)
    case External(names, files) => s.(names := names, files := files)
  }

  // ---- What every step keeps

  ghost predicate FilesOk(s: State) {
    && WellFormed(s) && KernelIds(s)
    && forall v :: v in s.dbs ==> Consistent(s.dbs[v])
  }

  ghost predicate ProcessesOk(s: State) {
    && (forall p :: p in s.live ==> 0 < p.pid < PID_LIMIT)
    && (forall p, q :: p in s.live && q in s.live && p.pid == q.pid ==> p == q)
  }

  /** What a worker recorded is the identity of the files its connection holds open. */
  ghost predicate Recorded(s: State, w: Worker)
    requires HoldsMain(w.stage) ==> w.main in s.files
    requires HoldsCompanions(w.stage) ==> w.wal in s.files && w.shm in s.files
  {
    && (KnowsMain(w.stage) ==> w.mainId == s.files[w.main])
    && (KnowsWal(w.stage) ==> w.walId == s.files[w.wal])
    && (KnowsShm(w.stage) ==> w.shmId == s.files[w.shm])
  }

  /** A registered worker's row is in its tables, as it inserted it. */
  ghost predicate RowPresent(s: State, t: nat, w: Worker, render: Bdd -> Expr)
    requires ViewOf(w) in s.dbs
  {
    var db := s.dbs[ViewOf(w)];
    && ToStorage(w.test.filter, render).Ok?
    && w.row in db.running
    && db.running[w.row] == RowOf(t, w, render)
    && LabelsOf(db, w.row) == w.test.labels
  }

  ghost predicate WorkerOk(s: State, t: nat, w: Worker, render: Bdd -> Expr) {
    && ValidSerial(w.test.filter)
    && (IsActive(w.stage) ==> w.proc in s.live)
    && (HoldsMain(w.stage) ==> w.main in s.files)
    && (HoldsCompanions(w.stage) ==> w.wal in s.files && w.shm in s.files && ViewOf(w) in s.dbs)
    && Recorded(s, w)
    && (HoldsRow(w.stage) ==> RowPresent(s, t, w, render))
  }

  ghost predicate WorkersOk(s: State, render: Bdd -> Expr) {
    forall t :: t in s.workers ==> WorkerOk(s, t, s.workers[t], render)
  }

  /** Worker `t` is registered through view `v` under row `id`. */
  ghost predicate Holder(s: State, t: nat, v: View, id: nat) {
    t in s.workers && HoldsRow(s.workers[t].stage) && ViewOf(s.workers[t]) == v && s.workers[t].row == id
  }

  ghost predicate Holds(s: State, t: nat) {
    t in s.workers && HoldsRow(s.workers[t].stage)
  }

  ghost predicate SameView(s: State, t: nat, u: nat)
    requires t in s.workers && u in s.workers
  {
    ViewOf(s.workers[t]) == ViewOf(s.workers[u])
  }

  /** Two tests registered through one view do not conflict. */
  ghost predicate Exclusive(s: State) {
    forall t, u :: Holds(s, t) && Holds(s, u) && t != u && SameView(s, t, u) ==>
                   !Conflict(s.workers[t].test, s.workers[u].test)
  }

  ghost predicate Explained(s: State, v: View, id: nat) {
    (v, id) in s.abandoned || exists t :: Holder(s, t, v, id)
  }

  predicate RowOfProc(s: State, v: View, id: nat, p: Proc) {
    v in s.dbs && id in s.dbs[v].running && s.dbs[v].running[id].instance == InstanceId(p)
  }

  /** Every row of a live process belongs to a guard or is listed as abandoned. */
  ghost predicate Exact(s: State) {
    forall v, id, p :: RowOfProc(s, v, id, p) && p in s.live ==> Explained(s, v, id)
  }

  ghost predicate Inv(s: State, render: Bdd -> Expr) {
    FilesOk(s) && ProcessesOk(s) && WorkersOk(s, render) && Exclusive(s) && Exact(s)
  }

  ghost predicate Init(s: State) {
    && s.workers == map[] && s.live == {} && s.abandoned == {}
    && FilesOk(s)
  }
}
