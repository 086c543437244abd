/**
 The database file behind one connection, updated in place statement by
 statement, and the admission transaction with its rollback.
 */
module Database {
  import opened LabelExpr
  import opened Diagram
  import opened Canonical
  import opened SerialFilter
  import opened Instance
  import opened Tables

  const SCHEMA_VERSION := 1

  // ---- Schema scrub, version 0 to 1

  /** A parseable filter is rewritten to its storage form; anything else is left alone. */
  function ScrubRow(row: Row, render: Bdd -> Expr): Row {
    if row.filter == SERIAL_NONE || row.filter == SERIAL_ALL || ToStorage(row.filter, render).Err? then row
    else row.(filter := ToStorage(row.filter, render).value)
  }

  function Scrub(db: Db, render: Bdd -> Expr): Db {
    db.(running := map id | id in db.running :: ScrubRow(db.running[id], render))
  }

  lemma ScrubRowKeeps(row: Row, render: Bdd -> Expr)
    requires IsRenderer(render)
    ensures SameSelection(ScrubRow(row, render).filter, row.filter)
    ensures ScrubRow(ScrubRow(row, render), render) == ScrubRow(row, render)
    ensures ScrubRow(row, render) != row <==> ValidSerial(row.filter) && !Stored(row.filter, render)
  {
    if ValidSerial(row.filter) {
      StorageKeepsSelection(row.filter, render);
      StorageIdempotent(row.filter, render);
      var g := StorageForm(row.filter, render);
      if Stored(row.filter, render) { StoredIsFixed(row.filter, render); }
    }
  }

  /** The scrub changes no admission answer. */
  lemma ScrubKeepsAdmission(db: Db, labels: set<string>, filter: string, render: Bdd -> Expr)
    requires IsRenderer(render) && ValidSerial(filter)
    ensures CanStart(Scrub(db, render), labels, filter, render) == CanStart(db, labels, filter, render)
  {
    var after := Scrub(db, render);
    CanStartIff(db, labels, filter, render);
    CanStartIff(after, labels, filter, render);
    forall id | id in db.running
      ensures RowConflicts(after, id, labels, filter) == RowConflicts(db, id, labels, filter)
    {
      ScrubRowKeeps(db.running[id], render);
      assert LabelsOf(after, id) == LabelsOf(db, id);
    }
  }

  /** Asking with the storage form of a candidate's filter is asking with the filter. */
  lemma StorageKeepsCandidate(db: Db, labels: set<string>, filter: string, render: Bdd -> Expr)
    requires IsRenderer(render) && ValidSerial(filter)
    ensures ToStorage(filter, render).Ok? && ValidSerial(ToStorage(filter, render).value)
    ensures CanStart(db, labels, ToStorage(filter, render).value, render) == CanStart(db, labels, filter, render)
  {
    StorageKeepsSelection(filter, render);
    var stored := ToStorage(filter, render).value;
    CanStartIff(db, labels, filter, render);
    CanStartIff(db, labels, stored, render);
    forall id | id in db.running ensures RowConflicts(db, id, labels, stored) == RowConflicts(db, id, labels, filter) {
      assert Selects(stored, LabelsOf(db, id)) == Selects(filter, LabelsOf(db, id));
    }
  }

  /** The scrub rewrites exactly the rows whose filter parses and is not in storage form, once. */
  lemma ScrubExactly(db: Db, render: Bdd -> Expr)
    requires IsRenderer(render)
    ensures Scrub(Scrub(db, render), render) == Scrub(db, render)
    ensures forall id :: id in db.running ==>
              (Scrub(db, render).running[id] != db.running[id] <==>
               ValidSerial(db.running[id].filter) && !Stored(db.running[id].filter, render))
  {
    var after := Scrub(db, render);
    forall id | id in db.running
      ensures Scrub(after, render).running[id] == after.running[id]
      ensures after.running[id] != db.running[id] <==>
              ValidSerial(db.running[id].filter) && !Stored(db.running[id].filter, render)
    {
      ScrubRowKeeps(db.running[id], render);
    }
    assert Scrub(after, render).running == after.running;
  }

  // ---- The connection's view

  /** The statements of one admission attempt, for naming the one that fails. */
  datatype Statement = BeginExclusive | CleanUp | AskCanStart | RollbackTx | InsertRow | InsertLabel | CommitTx

  /** The transaction comes to this statement, given the answer of `can_start`. */
  predicate Executes(st: Statement, admitted: bool, names: seq<string>) {
    match st
    case BeginExclusive => true
    case CleanUp => true
    case AskCanStart => true
    case RollbackTx => !admitted
    case InsertRow => admitted
    case InsertLabel => admitted && names != []
    case CommitTx => admitted
  }

  datatype Outcome = Admitted(id: nat) | Blocked | Errored

  class Connection {
    var running: map<nat, Row>
    var labels: set<(nat, string)>
    var lastId: nat
    var version: int

    constructor (db: Db, version: int)
      ensures State() == db && this.version == version
    {
      this.running, this.labels, this.lastId := db.running, db.labels, db.lastId;
      this.version := version;
    }

    ghost function State(): Db
      reads this
    {
      Db(running, labels, lastId)
    }

    /** `clean_stale_entries`: one DELETE per stale instance found. */
    method CleanStale(ours: string, answering: set<nat>)
      modifies this`running, this`labels
      ensures State() == Clean(old(State()), ours, answering)
    {
      ghost var before := State();
      ghost var all := StaleInstances(before, ours, answering);
      var todo := set id | id in running && IsStale(running[id].instance, ours, answering) :: running[id].instance;
      assert todo == all;
      assert State() == DeleteInstances(before, all - todo) by {
        assert running == before.running - InstanceRows(before, {});
        assert all - todo == {};
        assert labels == DeleteIds(before, InstanceRows(before, {})).labels;
      }
      while todo != {}
        invariant todo <= all
        invariant State() == DeleteInstances(before, all - todo)
        decreases |todo|
      {
        var iid :| iid in todo;
        var gone := set id | id in running && running[id].instance == iid;
        DeleteTwice(before, all - todo, iid);
        running, labels := running - gone, set l | l in labels && l.0 !in gone;
        assert all - (todo - {iid}) == (all - todo) + {iid};
        todo := todo - {iid};
      }
      assert all - todo == all;
      CleanIsByInstance(before, ours, answering);
    }

    /** `register`, inside the caller's transaction: the row, then its label rows. */
    method RegisterTest(row: Row, names: seq<string>) returns (id: nat)
      modifies this`running, this`labels, this`lastId
      ensures id == old(lastId) + 1
      ensures State() == Register(old(State()), row, Elems(names))
    {
      id := lastId + 1;
      running, lastId := running[id := row], id;
      for i := 0 to |names|
        invariant running == old(running)[id := row] && lastId == id
        invariant labels == old(labels) + (set n | n in names[..i] :: (id, n))
      {
        assert (set n | n in names[..i + 1] :: (id, n)) == (set n | n in names[..i] :: (id, n)) + {(id, names[i])} by {
          assert names[..i + 1] == names[..i] + [names[i]];
        }
        labels := labels + {(id, names[i])};
      }
      assert names[..|names|] == names;
      assert (set n | n in Elems(names) :: (id, n)) == (set n | n in names :: (id, n));
    }

    /**
     One pass of `coordinate`'s transaction. `fault` is the statement that
     fails, if any; whatever was done before it is rolled back.
     */
    method Attempt(row: Row, names: seq<string>, answering: set<nat>, fault: Option<Statement>,
                   render: Bdd -> Expr)
      returns (r: Outcome)
      requires row.filter == SERIAL_NONE || row.filter == SERIAL_ALL || Parse(row.filter, render).Ok?
      modifies this`running, this`labels, this`lastId
      ensures r == Errored ==> State() == old(State())
      ensures r == Blocked ==> State() == old(State())
      ensures r != Errored ==>
                var cleaned := Clean(old(State()), row.instance, answering);
                if CanStart(cleaned, Elems(names), row.filter, render)
                then r == Admitted(cleaned.lastId + 1) && State() == Register(cleaned, row, Elems(names))
                else r == Blocked
      ensures r == Errored <==>
                && fault.Some?
                && var cleaned := Clean(old(State()), row.instance, answering);
                   Executes(fault.value, CanStart(cleaned, Elems(names), row.filter, render), names)
    {
      var running0, labels0, lastId0 := running, labels, lastId;
      if fault == Some(BeginExclusive) { return Errored; }
      CleanStale(row.instance, answering);
      if fault == Some(CleanUp) || fault == Some(AskCanStart) {
        running, labels := running0, labels0;
        return Errored;
      }
      var ok := CanStart(Db(running, labels, lastId), Elems(names), row.filter, render);
      if !ok {
        running, labels := running0, labels0;
        return if fault == Some(RollbackTx) then Errored else Blocked;
      }
      var id := RegisterTest(row, names);
      if fault == Some(InsertRow) || (fault == Some(InsertLabel) && names != []) || fault == Some(CommitTx) {
        running, labels, lastId := running0, labels0, lastId0;
        return Errored;
      }
      return Admitted(id);
    }

    /** The guard's DELETE takes the row with its labels and leaves every other row and its labels alone. */
    method UnregisterTest(id: nat)
      requires Consistent(State())
      modifies this`running, this`labels
      ensures Consistent(State()) && State() == Unregister(old(State()), id)
      ensures running == old(running) - {id} && LabelsOf(State(), id) == {}
      ensures forall k :: k != id ==> LabelsOf(State(), k) == LabelsOf(old(State()), k)
    {
      DeleteKeeps(State(), {id});
      running, labels := running - {id}, set l | l in labels && l.0 !in {id};
    }

    /**
     `migrate_schema`. `meanwhile` is what others have committed, if anything, by
     the time the write lock is there and the version is read again. `stopAt` is
     the row at whose UPDATE a failing check or statement panics, which rolls the
     transaction back.
     */
    method Migrate(meanwhile: Option<(Db, int)>, stopAt: Option<nat>, render: Bdd -> Expr) returns (done: bool)
      modifies this
      ensures old(version) >= SCHEMA_VERSION ==> done && State() == old(State()) && version == old(version)
      ensures old(version) == 0 && meanwhile.None? && stopAt.None? ==>
                done && version == 1 && State() == Scrub(old(State()), render)
      ensures old(version) == 1 ==> State() == old(State())
      ensures old(version) < SCHEMA_VERSION ==>
                var (db, v) := if meanwhile.Some? then meanwhile.value else (old(State()), old(version));
                if v >= SCHEMA_VERSION then done && State() == db && version == v
                else if done then State() == Scrub(db, render) && version == SCHEMA_VERSION
                else State() == db && version == v
      ensures !done <==>
                && old(version) < SCHEMA_VERSION && stopAt.Some?
                && (var (db, v) := if meanwhile.Some? then meanwhile.value else (old(State()), old(version));
                    v < SCHEMA_VERSION && stopAt.value in db.running
                    && ScrubRow(db.running[stopAt.value], render) != db.running[stopAt.value])
    {
      if version >= SCHEMA_VERSION { return true; }
      if meanwhile.Some? {
        running, labels, lastId := meanwhile.value.0.running, meanwhile.value.0.labels, meanwhile.value.0.lastId;
        version := meanwhile.value.1;
      }
      if version >= SCHEMA_VERSION { return true; }
      done := ScrubRows(stopAt, render);
      if done { version := SCHEMA_VERSION; }
    }

    /** `scrub_serial_filters_v1`, row by row. */
    method ScrubRows(stopAt: Option<nat>, render: Bdd -> Expr) returns (done: bool)
      modifies this`running
      ensures State() == if done then Scrub(old(State()), render) else old(State())
      ensures !done <==>
                && stopAt.Some? && stopAt.value in old(running)
                && ScrubRow(old(running)[stopAt.value], render) != old(running)[stopAt.value]
    {
      ghost var before := State();
      var start := running;
      var todo := set id | id in running && running[id].filter != SERIAL_NONE && running[id].filter != SERIAL_ALL;
      while todo != {}
        invariant todo <= running.Keys == before.running.Keys
        invariant forall id :: id in todo ==> running[id] == before.running[id]
        invariant forall id :: id in running && id !in todo ==> running[id] == ScrubRow(before.running[id], render)
        invariant stopAt.Some? && stopAt.value in running && stopAt.value !in todo ==>
                    ScrubRow(before.running[stopAt.value], render) == before.running[stopAt.value]
        decreases |todo|
      {
        var id :| id in todo;
        var canonical := ToStorage(running[id].filter, render);
        if canonical.Ok? && canonical.value != running[id].filter {
          if stopAt == Some(id) {
            running := start;
            return false;
          }
          running := running[id := running[id].(filter := canonical.value)];
        }
        todo := todo - {id};
      }
      assert running == Scrub(before, render).running;
      return true;
    }
  }

  // ---- Deleting instance by instance

  ghost function StaleInstances(db: Db, ours: string, answering: set<nat>): set<string> {
    set id | id in db.running && IsStale(db.running[id].instance, ours, answering) :: db.running[id].instance
  }

  ghost function InstanceRows(db: Db, instances: set<string>): set<nat> {
    set id | id in db.running && db.running[id].instance in instances
  }

  ghost function DeleteInstances(db: Db, instances: set<string>): Db {
    DeleteIds(db, InstanceRows(db, instances))
  }

  lemma DeleteTwice(db: Db, gone: set<string>, iid: string)
    ensures DeleteInstances(DeleteInstances(db, gone), {iid}) == DeleteInstances(db, gone + {iid})
    ensures DeleteInstances(DeleteInstances(db, gone), {iid}) ==
            var d := DeleteInstances(db, gone);
            DeleteIds(d, set id | id in d.running && d.running[id].instance == iid)
  {
    var d := DeleteInstances(db, gone);
    assert InstanceRows(d, {iid}) == set id | id in d.running && d.running[id].instance == iid;
    var once := DeleteInstances(d, {iid});
    var both := DeleteInstances(db, gone + {iid});
    assert once.running == both.running;
    forall l ensures l in once.labels <==> l in both.labels {
      if l in db.labels && l.0 in db.running {
        assert l.0 in InstanceRows(db, gone + {iid}) <==>
               l.0 in InstanceRows(db, gone) || l.0 in InstanceRows(d, {iid});
      }
    }
    assert once.labels == both.labels;
  }

  lemma CleanIsByInstance(db: Db, ours: string, answering: set<nat>)
    ensures DeleteInstances(db, StaleInstances(db, ours, answering)) == Clean(db, ours, answering)
  {
    assert InstanceRows(db, StaleInstances(db, ours, answering)) ==
           set id | id in db.running && IsStale(db.running[id].instance, ours, answering);
  }
}
