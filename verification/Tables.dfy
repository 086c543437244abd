/**
 The coordination database as a value: the `running` and `labels` tables, and
 what each statement that `coordinate` and the guard issue does to them.
 */
module Tables {
  import opened LabelExpr
  import opened Diagram
  import opened Syntax
  import opened Canonical
  import opened SerialFilter
  import opened Instance

  /** A `running` row. `origin` names the registration that inserted it; no statement reads it. */
  datatype Row = Row(instance: string, name: string, filter: string, origin: nat)

  /** Both tables and the AUTOINCREMENT counter. Label rows are (running_id, label) pairs. */
  datatype Db = Db(running: map<nat, Row>, labels: set<(nat, string)>, lastId: nat)

  datatype Test = Test(name: string, labels: set<string>, filter: string)

  /** Ids stay within the counter and label rows refer to existing rows. */
  predicate Consistent(db: Db) {
    && (forall id :: id in db.running ==> id <= db.lastId)
    && (forall l :: l in db.labels ==> l.0 in db.running)
  }

  function LabelsOf(db: Db, id: nat): set<string> {
    set l | l in db.labels && l.0 == id :: l.1
  }

  function Elems(names: seq<string>): set<string> {
    set n | n in names
  }

  // ---- Statements

  /** `DELETE FROM running WHERE id IN ids`, with the cascade to `labels`. */
  function DeleteIds(db: Db, ids: set<nat>): Db {
    db.(running := db.running - ids, labels := set l | l in db.labels && l.0 !in ids)
  }

  function Unregister(db: Db, id: nat): Db {
    DeleteIds(db, {id})
  }

  predicate IsStale(instance: string, ours: string, answering: set<nat>) {
    && instance != ours
    && (PidOf(instance).None? || !PidAlive(PidOf(instance).value, answering))
  }

  function Clean(db: Db, ours: string, answering: set<nat>): Db {
    DeleteIds(db, set id | id in db.running && IsStale(db.running[id].instance, ours, answering))
  }

  function Register(db: Db, row: Row, labels: set<string>): Db {
    var id := db.lastId + 1;
    Db(db.running[id := row], db.labels + (set l | l in labels :: (id, l)), id)
  }

  // ---- The admission question

  /** The WHERE fragment of `to_sql_expr`, as SQLite reads it. */
  datatype Sql =
    | HasLabel(name: string) | OneEqOne | OneEqZero
    | SqlNot(x: Sql) | SqlAnd(a: Sql, b: Sql) | SqlOr(a: Sql, b: Sql)

  function ToSql(e: Expr): Sql {
    match e
    case Terminal(n) => HasLabel(n)
    case Const(v) => if v then OneEqOne else OneEqZero
    case Not(x) => SqlNot(ToSql(x))
    case And(a, b) => SqlAnd(ToSql(a), ToSql(b))
    case Or(a, b) => SqlOr(ToSql(a), ToSql(b))
  }

  /** The fragment on the row `r` with `r.id = id`; a label test is an EXISTS over `labels`. */
  predicate Where(q: Sql, db: Db, id: nat) {
    match q
    case HasLabel(n) => exists l :: l in db.labels && l.0 == id && l.1 == n
    case OneEqOne => true
    case OneEqZero => false
    case SqlNot(x) => !Where(x, db, id)
    case SqlAnd(a, b) => Where(a, db, id) && Where(b, db, id)
    case SqlOr(a, b) => Where(a, db, id) || Where(b, db, id)
  }

  predicate GlobalRunning(db: Db) {
    exists id :: id in db.running && db.running[id].filter == SERIAL_ALL
  }

  /** A stored filter that does not parse is passed over. */
  predicate FilterMatches(f: string, labels: set<string>, render: Bdd -> Expr) {
    Parse(f, render).Ok? && Eval(Parse(f, render).value, labels)
  }

  predicate RowSelects(row: Row, labels: set<string>, render: Bdd -> Expr) {
    row.filter != SERIAL_NONE && row.filter != SERIAL_ALL && FilterMatches(row.filter, labels, render)
  }

  /** `can_start`, questions (a) to (d) in order. */
  predicate CanStart(db: Db, labels: set<string>, filter: string, render: Bdd -> Expr)
    requires filter == SERIAL_NONE || filter == SERIAL_ALL || Parse(filter, render).Ok?
  {
    if GlobalRunning(db) then false
    else if exists id :: id in db.running && RowSelects(db.running[id], labels, render) then false
    else if filter == SERIAL_ALL then |db.running| == 0
    else if filter == SERIAL_NONE then true
    else
      var q := ToSql(Parse(filter, render).value);
      !exists id :: id in db.running && Where(q, db, id)
  }

  /** Neither test may run while the other does. */
  predicate Conflict(a: Test, b: Test) {
    Selects(a.filter, b.labels) || Selects(b.filter, a.labels)
  }

  predicate RowConflicts(db: Db, id: nat, labels: set<string>, filter: string)
    requires id in db.running
  {
    Selects(db.running[id].filter, labels) || Selects(filter, LabelsOf(db, id))
  }

  lemma {:induction false} SqlMeaning(e: Expr, db: Db, id: nat)
    ensures Where(ToSql(e), db, id) == Eval(e, LabelsOf(db, id))
  {
    match e
    case Terminal(n) =>
      if n in LabelsOf(db, id) {
        var l :| l in db.labels && l.0 == id && l.1 == n;
      }
    case Const(_) =>
    case Not(x) => SqlMeaning(x, db, id);
    case And(a, b) => SqlMeaning(a, db, id); SqlMeaning(b, db, id);
    case Or(a, b) => SqlMeaning(a, db, id); SqlMeaning(b, db, id);
  }

  lemma MatchesIsSelects(f: string, labels: set<string>, render: Bdd -> Expr)
    requires IsRenderer(render) && f != SERIAL_NONE && f != SERIAL_ALL
    ensures FilterMatches(f, labels, render) == Selects(f, labels)
  {
    if ParseRaw(f).Ok? {
      CanonicalMeaning(ParseRaw(f).value, render);
      assert Eval(Canonicalize(ParseRaw(f).value, render), labels) == Eval(ParseRaw(f).value, labels);
    }
  }

  lemma RowSelectsIsSelects(row: Row, labels: set<string>, render: Bdd -> Expr)
    requires IsRenderer(render)
    ensures row.filter != SERIAL_ALL ==> RowSelects(row, labels, render) == Selects(row.filter, labels)
  {
    if row.filter != SERIAL_NONE && row.filter != SERIAL_ALL {
      MatchesIsSelects(row.filter, labels, render);
    }
  }

  /** Questions (c) and (d) find exactly the rows whose labels the candidate's filter selects. */
  lemma OwnFilterQuestion(db: Db, filter: string, id: nat, render: Bdd -> Expr)
    requires IsRenderer(render) && ValidSerial(filter) && filter != SERIAL_NONE && filter != SERIAL_ALL
    ensures Where(ToSql(Parse(filter, render).value), db, id) == Selects(filter, LabelsOf(db, id))
  {
    SqlMeaning(Parse(filter, render).value, db, id);
    MatchesIsSelects(filter, LabelsOf(db, id), render);
  }

  /** `can_start` answers true exactly when no running row conflicts with the candidate. */
  lemma CanStartIff(db: Db, labels: set<string>, filter: string, render: Bdd -> Expr)
    requires IsRenderer(render) && ValidSerial(filter)
    ensures CanStart(db, labels, filter, render) <==>
            forall id :: id in db.running ==> !RowConflicts(db, id, labels, filter)
  {
    forall id | id in db.running
      ensures db.running[id].filter == SERIAL_ALL ==> RowConflicts(db, id, labels, filter)
      ensures RowSelects(db.running[id], labels, render) ==> RowConflicts(db, id, labels, filter)
      ensures RowConflicts(db, id, labels, filter) ==>
                db.running[id].filter == SERIAL_ALL || RowSelects(db.running[id], labels, render)
                || Selects(filter, LabelsOf(db, id))
    {
      RowSelectsIsSelects(db.running[id], labels, render);
    }
    if filter == SERIAL_ALL {
      if |db.running| != 0 {
        assert db.running.Keys != {};
        var id :| id in db.running;
        assert RowConflicts(db, id, labels, filter);
      } else {
        assert db.running.Keys == {};
      }
    } else if filter != SERIAL_NONE {
      var q := ToSql(Parse(filter, render).value);
      forall id ensures Where(q, db, id) == Selects(filter, LabelsOf(db, id)) {
        OwnFilterQuestion(db, filter, id, render);
      }
    }
  }

  // ---- What the statements keep

  lemma DeleteKeeps(db: Db, ids: set<nat>)
    requires Consistent(db)
    ensures Consistent(DeleteIds(db, ids))
    ensures forall id :: id in DeleteIds(db, ids).running <==> id in db.running && id !in ids
    ensures forall id :: id !in ids ==> LabelsOf(DeleteIds(db, ids), id) == LabelsOf(db, id)
    ensures forall id :: id in ids ==> LabelsOf(DeleteIds(db, ids), id) == {}
  {
    forall id | id !in ids ensures LabelsOf(DeleteIds(db, ids), id) == LabelsOf(db, id) {
      forall x ensures x in LabelsOf(DeleteIds(db, ids), id) <==> x in LabelsOf(db, id) {
        if x in LabelsOf(db, id) { assert (id, x) in db.labels; }
      }
    }
  }

  lemma RegisterKeeps(db: Db, row: Row, labels: set<string>)
    requires Consistent(db)
    ensures Consistent(Register(db, row, labels)) && db.lastId + 1 !in db.running
    ensures LabelsOf(Register(db, row, labels), db.lastId + 1) == labels
    ensures forall id :: id in db.running ==> LabelsOf(Register(db, row, labels), id) == LabelsOf(db, id)
  {
    var id := db.lastId + 1;
    var after := Register(db, row, labels);
    forall x ensures x in LabelsOf(after, id) <==> x in labels {
      if x in labels { assert (id, x) in after.labels; }
    }
    forall k | k in db.running ensures LabelsOf(after, k) == LabelsOf(db, k) {
      forall x ensures x in LabelsOf(after, k) <==> x in LabelsOf(db, k) {
        if x in LabelsOf(db, k) { assert (k, x) in after.labels; }
      }
    }
  }

  /** Registering and then unregistering the new id leaves both tables as they were. */
  lemma UnregisterUndoes(db: Db, row: Row, labels: set<string>)
    requires Consistent(db)
    ensures Unregister(Register(db, row, labels), db.lastId + 1) == db.(lastId := db.lastId + 1)
  {
    var id := db.lastId + 1;
    var after := Unregister(Register(db, row, labels), id);
    assert after.running == db.running;
    forall l ensures l in after.labels <==> l in db.labels {}
    assert after.labels == db.labels;
  }

  // ---- Cleaning

  /** Cleaning keeps exactly our own rows and those whose PID could be a process's and answers. */
  lemma CleanExactly(db: Db, ours: string, answering: set<nat>, id: nat)
    requires id in db.running
    ensures id in Clean(db, ours, answering).running <==>
            || db.running[id].instance == ours
            || exists pid :: PidOf(db.running[id].instance) == Some(pid) && 0 < pid < 0x8000_0000 && pid in answering
  {
    var instance := db.running[id].instance;
    if PidOf(instance).Some? { assert PidOf(instance) == Some(PidOf(instance).value); }
  }

  /** A row of a process whose PID does not answer goes, with its labels. */
  lemma CleanRemovesDead(db: Db, ours: string, answering: set<nat>, id: nat, p: Proc)
    requires Consistent(db) && id in db.running && db.running[id].instance == InstanceId(p)
    requires InstanceId(p) != ours && p.pid !in answering
    ensures id !in Clean(db, ours, answering).running && LabelsOf(Clean(db, ours, answering), id) == {}
  {
    PidRoundTrip(p);
    DeleteKeeps(db, set k | k in db.running && IsStale(db.running[k].instance, ours, answering));
  }

  /** A foreign row whose text before the colon is no number goes too. */
  lemma CleanRemovesGarbage(db: Db, ours: string, answering: set<nat>, id: nat, head: string, tail: string, k: nat)
    requires Consistent(db) && id in db.running && db.running[id].instance == head + ":" + tail != ours
    requires (forall i :: 0 <= i < |head| ==> head[i] != ':')
    requires head == "" || (k < |head| && !('0' <= head[k] <= '9') && (k == 0 ==> head[0] != '+'))
    ensures id !in Clean(db, ours, answering).running && LabelsOf(Clean(db, ours, answering), id) == {}
  {
    NotANumber(head, tail, k);
    DeleteKeeps(db, set j | j in db.running && IsStale(db.running[j].instance, ours, answering));
  }
}
