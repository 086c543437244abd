/**
 Publishing the database file on Unix: open, recheck, create a temporary file,
 set and verify its mode, rename it in without replacing. Any number of workers
 take these steps in any interleaving, any of them may crash, and something
 outside deletes the path at will. Whether workers hold the init lock around the
 loop is a parameter, so that what the lock is for can be stated.
 */
module Publish {
  import opened Instance
  import opened FreshNumbers

  type Mode = bv12

  const MODE_0600: Mode := 0x180
  const MODE_0666: Mode := 0x1B6

  predicate WorldWritable(m: Mode) { m & MODE_0666 == MODE_0666 }

  /** Owner, group and everyone else may each read and write. */
  lemma WritableByAll(m: Mode)
    ensures WorldWritable(m) <==>
            && m & 0x100 != 0 && m & 0x080 != 0 && m & 0x020 != 0 && m & 0x010 != 0 && m & 0x004 != 0 && m & 0x002 != 0
  {
  }

  datatype Stage =
    | Out
    | Opening
    | Rechecking             // the open reported that it could not
    | Looking                // nothing was there: into the publish step
    | Creating
    | Created(temp: nat)
    | Chmodded(temp: nat)
    | Verified(temp: nat)
    | Connected(inode: nat)
    | Panicked
    | Dead

  predicate HasTemp(g: Stage) { g.Created? || g.Chmodded? || g.Verified? }

  /** Within the open/recheck/publish loop. */
  predicate Inside(g: Stage) {
    g.Opening? || g.Rechecking? || g.Looking? || g.Creating? || HasTemp(g)
  }

  /** Temporary names are numbered; an inode number indexes `modes`. */
  datatype State = State(
    found: Option<nat>,     // the file at the path when the run began, of any mode
    target: Option<nat>,    // the file there now
    temps: map<nat, nat>,
    modes: seq<Mode>,
    stages: seq<Stage>,
    stray: set<nat>)        // temporary names left behind by crashes and failed removals

  datatype Event =
    | Enter(w: nat)
    | Open(w: nat, refused: bool)       // refused: no permission for the file there
    | Recheck(w: nat)
    | Look(w: nat)
    | Create(w: nat, name: nat)
    | Chmod(w: nat, got: Mode)          // the mode the file system then reports
    | Verify(w: nat, removed: bool)     // removed: so is the temporary file, where it has to go
    | Rename(w: nat, removed: bool)
    | Leave(w: nat)
    | Fault(w: nat, removed: bool)      // a system call fails for a reason of its own
    | Crash(w: nat)
    | Delete                            // from outside

  predicate Enabled(locking: bool, s: State, e: Event) {
    e.Delete? || (
      e.w < |s.stages| &&
      var g := s.stages[e.w];
      match e
      case Enter(w) => g.Out? && (locking ==> forall u :: 0 <= u < |s.stages| ==> !Inside(s.stages[u]))
      // A file with all 0666 bits is refused to nobody.
      case Open(_, refused) =>
        g.Opening? &&
        (refused ==> s.target.Some? && s.target.value < |s.modes| && !WorldWritable(s.modes[s.target.value]))
      case Recheck(_) => g.Rechecking?
      case Look(_) => g.Looking?
      case Create(_, _) => g.Creating?
      case Chmod(_, _) => g.Created?
      case Verify(_, _) => g.Chmodded?
      case Rename(_, _) => g.Verified?
      case Leave(_) => g.Connected?
      case Fault(_, _) => g.Opening? || g.Creating? || HasTemp(g)
      case Crash(_) => !g.Dead?)
  }

  function Move(s: State, w: nat, g: Stage): State
    requires w < |s.stages|
  {
    s.(stages := s.stages[w := g])
  }

  /** The worker's temporary file, if it has one, is removed or stays behind. */
  function GiveUp(s: State, w: nat, removed: bool, g: Stage): State
    requires w < |s.stages|
  {
    if !HasTemp(s.stages[w]) then Move(s, w, g)
    else if removed then Move(s.(temps := s.temps - {s.stages[w].temp}), w, g)
    else Move(s.(stray := s.stray + {s.stages[w].temp}), w, g)
  }

  /** The files that the step names exist. */
  predicate Ready(s: State, e: Event) {
    && (s.target.Some? ==> s.target.value < |s.modes|)
    && (!e.Delete? && e.w < |s.stages| && HasTemp(s.stages[e.w]) ==>
          s.stages[e.w].temp in s.temps && s.temps[s.stages[e.w].temp] < |s.modes|)
  }

  function Exec(locking: bool, s: State, e: Event): State
    requires Enabled(locking, s, e) && Ready(s, e)
  {
    match e
    case Enter(w) => Move(s, w, Opening)
    case Open(w, refused) =>
      Move(s, w, if s.target.Some? && !refused then Connected(s.target.value) else Rechecking)
    case Recheck(w) => Move(s, w, if s.target.None? then Looking else Panicked)
    case Look(w) => Move(s, w, if s.target.Some? then Opening else Creating)
    case Create(w, name) =>
      if name in s.temps then s
      else Move(s.(temps := s.temps[name := |s.modes|], modes := s.modes + [MODE_0600]), w, Created(name))
    case Chmod(w, got) =>
      var name := s.stages[w].temp;
      Move(s.(modes := s.modes[s.temps[name] := got]), w, Chmodded(name))
    case Verify(w, removed) =>
      var name := s.stages[w].temp;
      if WorldWritable(s.modes[s.temps[name]]) then Move(s, w, Verified(name))
      else GiveUp(s, w, removed, Panicked)
    case Rename(w, removed) =>
      var name := s.stages[w].temp;
      if s.target.None? then Move(s.(target := Some(s.temps[name]), temps := s.temps - {name}), w, Opening)
      else GiveUp(s, w, removed, Opening)
    case Leave(w) => Move(s, w, Out)
    case Fault(w, removed) => GiveUp(s, w, removed, Panicked)
    case Crash(w) => GiveUp(s, w, false, Dead)
    case Delete => s.(target := None)
  }

  // ---- Invariants, with or without the lock

  ghost predicate Holds(s: State, w: nat, name: nat) {
    w < |s.stages| && HasTemp(s.stages[w]) && s.stages[w].temp == name
  }

  /** Every temporary file is a worker's own or was left behind, and none is or was the visible file. */
  ghost predicate StateOk(s: State) {
    && (s.target.Some? ==> s.target.value < |s.modes|) && (s.found.Some? ==> s.found.value < |s.modes|)
    && (forall n :: n in s.temps ==>
          s.temps[n] < |s.modes| && s.target != Some(s.temps[n]) && s.found != Some(s.temps[n]))
    && (forall n, m :: n in s.temps && m in s.temps && n != m ==> s.temps[n] != s.temps[m])
    && (forall w :: 0 <= w < |s.stages| && HasTemp(s.stages[w]) ==>
          s.stages[w].temp in s.temps && s.stages[w].temp !in s.stray)
    && (forall w, u :: 0 <= w < u < |s.stages| && HasTemp(s.stages[w]) && HasTemp(s.stages[u]) ==>
          s.stages[w].temp != s.stages[u].temp)
    && (forall n :: n in s.stray ==> n in s.temps)
    && (forall n :: n in s.temps ==> n in s.stray || exists w: nat :: Holds(s, w, n))
  }

  /** The file is the one found there, or everyone can write it. */
  ghost predicate FoundOrWritable(s: State, inode: nat) {
    inode < |s.modes| && (s.found == Some(inode) || WorldWritable(s.modes[inode]))
  }

  /** What has been published, verified or connected to can be written by everyone. */
  ghost predicate ModesOk(s: State)
    requires StateOk(s)
  {
    && (s.target.Some? ==> FoundOrWritable(s, s.target.value))
    && (forall w: nat, n: nat :: Holds(s, w, n) && s.stages[w].Verified? ==> WorldWritable(s.modes[s.temps[n]]))
    && (forall w: nat :: w < |s.stages| && s.stages[w].Connected? ==>
          FoundOrWritable(s, s.stages[w].inode) && forall n :: n in s.temps ==> s.temps[n] != s.stages[w].inode)
  }

  ghost predicate Inv(s: State) { StateOk(s) && ModesOk(s) }

  ghost predicate Init(s: State) {
    && s.temps == map[] && s.stray == {}
    && (forall w :: 0 <= w < |s.stages| ==> s.stages[w] == Out)
    && s.found == s.target && (s.target.Some? ==> s.target.value < |s.modes|)
  }

  /** A step that only moves one worker, to a stage that brings no obligation. */
  lemma PlainMove(s: State, w: nat, g: Stage)
    requires Inv(s) && w < |s.stages| && !HasTemp(s.stages[w]) && !HasTemp(g)
    requires g.Connected? ==> s.target == Some(g.inode)
    ensures Inv(Move(s, w, g))
  {
    var s' := Move(s, w, g);
    SameHolds(s, s', w);
  }

  lemma SameHolds(s: State, s': State, w: nat)
    requires w < |s.stages| == |s'.stages| && s'.stages == s.stages[w := s'.stages[w]]
    requires HasTemp(s.stages[w]) == HasTemp(s'.stages[w])
    requires HasTemp(s.stages[w]) ==> s.stages[w].temp == s'.stages[w].temp
    ensures forall u: nat, n: nat :: Holds(s', u, n) <==> Holds(s, u, n)
  {
  }

  lemma CreateKeeps(locking: bool, s: State, w: nat, name: nat)
    requires Inv(s) && Enabled(locking, s, Create(w, name))
    ensures Inv(Exec(locking, s, Create(w, name)))
  {
    if name !in s.temps {
      var s' := Exec(locking, s, Create(w, name));
      forall u: nat, n: nat ensures Holds(s', u, n) <==> Holds(s, u, n) || (u == w && n == name) {}
      assert Holds(s', w, name);
    }
  }

  lemma ChmodKeeps(locking: bool, s: State, w: nat, got: Mode)
    requires Inv(s) && Enabled(locking, s, Chmod(w, got))
    ensures Holds(s, w, s.stages[w].temp) && Inv(Exec(locking, s, Chmod(w, got)))
  {
    assert Holds(s, w, s.stages[w].temp);
    var s' := Exec(locking, s, Chmod(w, got));
    SameHolds(s, s', w);
  }

  lemma RemovedKeeps(s: State, w: nat, g: Stage)
    requires Inv(s) && w < |s.stages| && HasTemp(s.stages[w]) && !HasTemp(g) && !g.Connected?
    ensures Inv(GiveUp(s, w, true, g))
  {
    var s' := GiveUp(s, w, true, g);
    assert Holds(s, w, s.stages[w].temp);
    forall u: nat, n: nat ensures Holds(s', u, n) <==> Holds(s, u, n) && u != w {}
  }

  lemma LeftKeeps(s: State, w: nat, g: Stage)
    requires Inv(s) && w < |s.stages| && HasTemp(s.stages[w]) && !HasTemp(g) && !g.Connected?
    ensures Inv(GiveUp(s, w, false, g))
  {
    var s' := GiveUp(s, w, false, g);
    assert Holds(s, w, s.stages[w].temp);
    forall u: nat, n: nat ensures Holds(s', u, n) <==> Holds(s, u, n) && u != w {}
  }

  /** The worker gives its temporary file up. */
  lemma GiveUpKeeps(s: State, w: nat, removed: bool, g: Stage)
    requires Inv(s) && w < |s.stages| && HasTemp(s.stages[w]) && !HasTemp(g) && !g.Connected?
    ensures Inv(GiveUp(s, w, removed, g))
  {
    if removed { RemovedKeeps(s, w, g); } else { LeftKeeps(s, w, g); }
  }

  lemma RenameKeeps(locking: bool, s: State, e: Event)
    requires Inv(s) && Enabled(locking, s, e) && e.Rename? && s.target.None?
    ensures Ready(s, e) && Inv(Exec(locking, s, e))
  {
    var name := s.stages[e.w].temp;
    assert Holds(s, e.w, name);
    var s' := Exec(locking, s, e);
    forall u: nat, n: nat ensures Holds(s', u, n) <==> Holds(s, u, n) && u != e.w {}
  }

  lemma VerifyKeeps(locking: bool, s: State, e: Event)
    requires Inv(s) && Enabled(locking, s, e) && e.Verify?
    requires WorldWritable(s.modes[s.temps[s.stages[e.w].temp]])
    ensures Ready(s, e) && Inv(Exec(locking, s, e))
  {
    assert Holds(s, e.w, s.stages[e.w].temp);
    SameHolds(s, Exec(locking, s, e), e.w);
  }

  lemma DeleteKeeps(s: State)
    requires Inv(s)
    ensures Inv(s.(target := None))
  {
    var s' := s.(target := None);
    forall u: nat, n: nat ensures Holds(s', u, n) <==> Holds(s, u, n) {}
  }

  lemma PlainStep(locking: bool, s: State, e: Event)
    requires Inv(s) && Enabled(locking, s, e) && Ready(s, e)
    requires e.Enter? || e.Open? || e.Recheck? || e.Look? || e.Leave?
    ensures Inv(Exec(locking, s, e))
  {
    PlainMove(s, e.w, Exec(locking, s, e).stages[e.w]);
  }

  lemma EndStep(locking: bool, s: State, e: Event)
    requires Inv(s) && Enabled(locking, s, e) && Ready(s, e) && (e.Fault? || e.Crash?)
    ensures Inv(Exec(locking, s, e))
  {
    var g := if e.Fault? then Panicked else Dead;
    if !HasTemp(s.stages[e.w]) {
      PlainMove(s, e.w, g);
    } else {
      GiveUpKeeps(s, e.w, e.Fault? && e.removed, g);
    }
  }

  lemma StepKeeps(locking: bool, s: State, e: Event)
    requires Inv(s) && Enabled(locking, s, e)
    ensures Ready(s, e) && Inv(Exec(locking, s, e))
  {
    match e
    case Create(w, name) => CreateKeeps(locking, s, w, name);
    case Chmod(w, got) => ChmodKeeps(locking, s, w, got);
    case Verify(w, removed) =>
      if WorldWritable(s.modes[s.temps[s.stages[w].temp]]) {
        VerifyKeeps(locking, s, e);
      } else {
        GiveUpKeeps(s, w, removed, Panicked);
      }
    case Rename(w, removed) =>
      if s.target.None? { RenameKeeps(locking, s, e); } else { GiveUpKeeps(s, w, removed, Opening); }
    case Delete => DeleteKeeps(s);
    case Fault(_, _) => EndStep(locking, s, e);
    case Crash(_) => EndStep(locking, s, e);
    case _ => PlainStep(locking, s, e);
  }

  // ---- Runs

  ghost predicate IsRun(locking: bool, states: seq<State>, events: seq<Event>) {
    && |states| == |events| + 1 && Init(states[0])
    && forall i :: 0 <= i < |events| ==>
         Enabled(locking, states[i], events[i]) && Ready(states[i], events[i])
         && states[i + 1] == Exec(locking, states[i], events[i])
  }

  lemma {:induction false} RunInvariant(locking: bool, states: seq<State>, events: seq<Event>, i: nat)
    requires IsRun(locking, states, events) && i < |states|
    ensures Inv(states[i])
  {
    if i > 0 {
      RunInvariant(locking, states, events, i - 1);
      assert states[i - 1 + 1] == Exec(locking, states[i - 1], events[i - 1]);
      StepKeeps(locking, states[i - 1], events[i - 1]);
    }
  }

  /**
   Locked or not: whatever is visible at the path, or connected to, has all 0666
   bits or is the file that was there at the start; what a rename makes visible
   has them.
   */
  lemma VisibleIsWorldWritable(locking: bool, states: seq<State>, events: seq<Event>, i: nat)
    requires IsRun(locking, states, events) && i < |states|
    ensures var s := states[i];
            && s.found == states[0].target
            && (s.target.Some? ==> FoundOrWritable(s, s.target.value))
            && forall w :: 0 <= w < |s.stages| && s.stages[w].Connected? ==> FoundOrWritable(s, s.stages[w].inode)
    ensures i < |events| && events[i].Rename? && states[i].target.None? ==>
              var s' := states[i + 1];
              s'.target.Some? && s'.target.value < |s'.modes| && WorldWritable(s'.modes[s'.target.value])
  {
    FoundIsFixed(locking, states, events, i);
    RunInvariant(locking, states, events, i);
    if i < |events| && events[i].Rename? {
      var s, w := states[i], events[i].w;
      assert Holds(s, w, s.stages[w].temp);
      assert states[i + 1] == Exec(locking, s, events[i]);
    }
  }

  lemma {:induction false} FoundIsFixed(locking: bool, states: seq<State>, events: seq<Event>, i: nat)
    requires IsRun(locking, states, events) && i < |states|
    ensures states[i].found == states[0].target
  {
    if i > 0 {
      FoundIsFixed(locking, states, events, i - 1);
      assert states[i - 1 + 1] == Exec(locking, states[i - 1], events[i - 1]);
    }
  }

  /** Locked or not: only the deletion from outside ever changes the file at the path or its mode. */
  lemma WinnerIsKept(locking: bool, states: seq<State>, events: seq<Event>, i: nat)
    requires IsRun(locking, states, events) && i < |events| && !events[i].Delete? && states[i].target.Some?
    ensures states[i + 1].target == states[i].target
    ensures var inode := states[i].target.value;
            && inode < |states[i].modes| && inode < |states[i + 1].modes|
            && states[i + 1].modes[inode] == states[i].modes[inode]
  {
    RunInvariant(locking, states, events, i);
    var s := states[i];
    var e := events[i];
    assert states[i + 1] == Exec(locking, s, e);
    if e.Chmod? { assert Holds(s, e.w, s.stages[e.w].temp); }
  }

  /** The fast path: a publisher that finds a file there goes back to opening it and creates nothing. */
  lemma FastPath(locking: bool, states: seq<State>, events: seq<Event>, i: nat)
    requires IsRun(locking, states, events) && i < |events| && events[i].Look? && states[i].target.Some?
    ensures states[i + 1].temps == states[i].temps && states[i + 1].modes == states[i].modes
    ensures states[i + 1].target == states[i].target && states[i + 1].stages[events[i].w].Opening?
  {
    assert states[i + 1] == Exec(locking, states[i], events[i]);
  }

  /** A crash, or a temporary file that could not be removed. */
  predicate LeavesTemp(e: Event) {
    e.Crash? || ((e.Verify? || e.Rename? || e.Fault?) && !e.removed)
  }

  /** Locked or not: but for such events every temporary file belongs to a worker still publishing it. */
  lemma TempsAccounted(locking: bool, states: seq<State>, events: seq<Event>, i: nat)
    requires IsRun(locking, states, events) && i < |states|
    requires forall k :: 0 <= k < |events| ==> !LeavesTemp(events[k])
    ensures states[i].stray == {}
    ensures forall n :: n in states[i].temps ==> exists w: nat :: Holds(states[i], w, n)
    ensures (forall w :: 0 <= w < |states[i].stages| ==> !Inside(states[i].stages[w])) ==> states[i].temps == map[]
  {
    NoStray(locking, states, events, i);
    RunInvariant(locking, states, events, i);
    var s := states[i];
    if forall w :: 0 <= w < |s.stages| ==> !Inside(s.stages[w]) {
      if n :| n in s.temps {
        var w: nat :| Holds(s, w, n);
        assert Inside(s.stages[w]);
      }
    }
  }

  lemma {:induction false} NoStray(locking: bool, states: seq<State>, events: seq<Event>, i: nat)
    requires IsRun(locking, states, events) && i < |states|
    requires forall k :: 0 <= k < |events| ==> !LeavesTemp(events[k])
    ensures states[i].stray == {}
  {
    if i > 0 {
      NoStray(locking, states, events, i - 1);
      assert states[i - 1 + 1] == Exec(locking, states[i - 1], events[i - 1]);
    }
  }

  // ---- What the lock adds

  /** One worker at a time is in the loop, and once it publishes the path is empty. */
  ghost predicate Exclusive(s: State) {
    && (forall u, w :: 0 <= u < |s.stages| && 0 <= w < |s.stages| && Inside(s.stages[u]) && Inside(s.stages[w])
                       ==> u == w)
    && forall w :: 0 <= w < |s.stages| && Publishing(s.stages[w]) ==> s.target.None?
  }

  predicate Publishing(g: Stage) { Inside(g) && !g.Opening? && !g.Rechecking? }

  /** An open that failed found nothing there. */
  ghost predicate FailedForAbsence(s: State) {
    forall w :: 0 <= w < |s.stages| && s.stages[w].Rechecking? ==> s.target.None?
  }

  ghost predicate NonePanicked(s: State) {
    forall w :: 0 <= w < |s.stages| ==> !s.stages[w].Panicked?
  }

  /** No system call fails on its own account, and the file system keeps modes. */
  predicate Healthy(e: Event) {
    !e.Fault? && (e.Chmod? ==> WorldWritable(e.got))
  }

  predicate Refused(e: Event) { e.Open? && e.refused }

  /** A file whose mode was set by a healthy file system passes its check. */
  ghost predicate ChmodWorked(s: State) {
    forall w: nat, n: nat :: Holds(s, w, n) && s.stages[w].Chmodded? && n in s.temps && s.temps[n] < |s.modes|
                             ==> WorldWritable(s.modes[s.temps[n]])
  }

  /** The acting worker was inside already, or entered an empty loop. */
  lemma StaysAlone(s: State, e: Event, u: nat, w: nat)
    requires Inv(s) && Enabled(true, s, e) && Ready(s, e) && Exclusive(s) && !e.Delete?
    requires u < |s.stages| && w < |s.stages|
    requires Inside(Exec(true, s, e).stages[u]) && Inside(Exec(true, s, e).stages[w])
    ensures u == w
  {
    var s' := Exec(true, s, e);
    assert u != e.w ==> s'.stages[u] == s.stages[u];
    assert w != e.w ==> s'.stages[w] == s.stages[w];
  }

  /** The path is empty while a worker publishes. */
  lemma StaysEmpty(s: State, e: Event, w: nat)
    requires Inv(s) && Enabled(true, s, e) && Ready(s, e) && Exclusive(s) && w < |s.stages|
    requires Publishing(Exec(true, s, e).stages[w])
    ensures Exec(true, s, e).target.None?
  {
    if !e.Delete? && w != e.w {
      assert Exec(true, s, e).stages[w] == s.stages[w];
      assert Inside(s.stages[w]);
    }
  }

  lemma ExclusiveStep(s: State, e: Event)
    requires Inv(s) && Enabled(true, s, e) && Exclusive(s)
    ensures Ready(s, e) && Exclusive(Exec(true, s, e))
  {
    StepKeeps(true, s, e);
    var s' := Exec(true, s, e);
    forall u, w | 0 <= u < |s'.stages| && 0 <= w < |s'.stages| && Inside(s'.stages[u]) && Inside(s'.stages[w])
      ensures u == w
    {
      if !e.Delete? { StaysAlone(s, e, u, w); }
    }
    forall w | 0 <= w < |s'.stages| && Publishing(s'.stages[w]) ensures s'.target.None? {
      StaysEmpty(s, e, w);
    }
  }

  /** No step but its own touches a worker's temporary file. */
  lemma OthersLeaveTemp(s: State, e: Event, w: nat, n: nat)
    requires Inv(s) && Enabled(true, s, e) && Ready(s, e) && (e.Delete? || w != e.w)
    requires Holds(Exec(true, s, e), w, n)
    ensures var s' := Exec(true, s, e);
            && Holds(s, w, n) && s'.stages[w] == s.stages[w] && n in s'.temps && s'.temps[n] == s.temps[n]
            && s.temps[n] < |s'.modes| && s'.modes[s.temps[n]] == s.modes[s.temps[n]]
  {
    assert Holds(s, w, n);
    if !e.Delete? && HasTemp(s.stages[e.w]) { assert Holds(s, e.w, s.stages[e.w].temp); }
  }

  lemma ChmodStep(s: State, e: Event)
    requires Inv(s) && Enabled(true, s, e) && ChmodWorked(s) && Healthy(e)
    ensures Ready(s, e) && ChmodWorked(Exec(true, s, e))
  {
    var s' := Exec(true, s, e);
    forall w: nat, n: nat | Holds(s', w, n) && s'.stages[w].Chmodded? && n in s'.temps && s'.temps[n] < |s'.modes|
      ensures WorldWritable(s'.modes[s'.temps[n]])
    {
      if e.Delete? || w != e.w { OthersLeaveTemp(s, e, w, n); }
    }
  }

  /** On a healthy file system the one way to panic is a recheck that finds a file. */
  lemma CalmStep(s: State, e: Event)
    requires Inv(s) && Enabled(true, s, e) && ChmodWorked(s) && Healthy(e) && NonePanicked(s)
    ensures Ready(s, e) && (NonePanicked(Exec(true, s, e)) <==> !(e.Recheck? && s.target.Some?))
  {
    if e.Verify? { assert Holds(s, e.w, s.stages[e.w].temp); }
    if e.Recheck? && s.target.Some? { assert Exec(true, s, e).stages[e.w].Panicked?; }
  }

  lemma AbsenceStep(s: State, e: Event)
    requires Inv(s) && Enabled(true, s, e) && Exclusive(s) && FailedForAbsence(s) && !Refused(e)
    ensures Ready(s, e) && FailedForAbsence(Exec(true, s, e))
  {
    var s' := Exec(true, s, e);
    forall w | 0 <= w < |s'.stages| && s'.stages[w].Rechecking? ensures s'.target.None? {
      if !e.Delete? { assert w != e.w ==> s'.stages[w] == s.stages[w]; }
    }
  }

  lemma {:induction false} LockedRun(states: seq<State>, events: seq<Event>, i: nat)
    requires IsRun(true, states, events) && i < |states| && forall k :: 0 <= k < |events| ==> Healthy(events[k])
    ensures Exclusive(states[i]) && ChmodWorked(states[i])
  {
    LockedExclusive(states, events, i);
    if i > 0 {
      LockedRun(states, events, i - 1);
      RunInvariant(true, states, events, i - 1);
      assert states[i - 1 + 1] == Exec(true, states[i - 1], events[i - 1]);
      ChmodStep(states[i - 1], events[i - 1]);
    }
  }

  /**
   Under the lock nobody panics, however often the path is deleted and whoever
   crashes, as long as nobody is refused the file there.
   */
  lemma {:induction false} NoPanicUnderLock(states: seq<State>, events: seq<Event>, i: nat)
    requires IsRun(true, states, events) && i < |states|
    requires forall k :: 0 <= k < |events| ==> Healthy(events[k]) && !Refused(events[k])
    ensures NonePanicked(states[i]) && FailedForAbsence(states[i])
  {
    if i > 0 {
      var s, e := states[i - 1], events[i - 1];
      NoPanicUnderLock(states, events, i - 1);
      LockedRun(states, events, i - 1);
      RunInvariant(true, states, events, i - 1);
      assert states[i - 1 + 1] == Exec(true, s, e);
      AbsenceStep(s, e);
      CalmStep(s, e);
    }
  }

  /** Only the file found at the start can be refused, and only if it lacks some of the 0666 bits. */
  lemma OnlyFoundIsRefused(states: seq<State>, events: seq<Event>, i: nat)
    requires IsRun(true, states, events) && i < |events| && Refused(events[i])
    ensures states[i].target.Some? && states[i].target == states[0].target
  {
    VisibleIsWorldWritable(true, states, events, i);
  }

  /** The file found at the start keeps its mode, also once it is no longer at the path. */
  lemma {:induction false} FoundKeepsMode(locking: bool, states: seq<State>, events: seq<Event>, i: nat)
    requires IsRun(locking, states, events) && i < |states| && states[0].target.Some?
    ensures var inode := states[0].target.value;
            inode < |states[0].modes| && inode < |states[i].modes| && states[i].modes[inode] == states[0].modes[inode]
  {
    RunInvariant(locking, states, events, i);
    if i > 0 {
      FoundKeepsMode(locking, states, events, i - 1);
      FoundIsFixed(locking, states, events, i - 1);
      RunInvariant(locking, states, events, i - 1);
      var s, e := states[i - 1], events[i - 1];
      assert states[i - 1 + 1] == Exec(locking, s, e);
      if e.Chmod? { assert Holds(s, e.w, s.stages[e.w].temp); }
    }
  }

  /**
   In terms of the start alone: if nothing is at the path, or the file there has
   all 0666 bits, no healthy run under the lock panics.
   */
  lemma NoPanicFromGoodStart(states: seq<State>, events: seq<Event>, i: nat)
    requires IsRun(true, states, events) && i < |states|
    requires forall k :: 0 <= k < |events| ==> Healthy(events[k])
    requires states[0].target.Some? ==> states[0].target.value < |states[0].modes|
                                        && WorldWritable(states[0].modes[states[0].target.value])
    ensures NonePanicked(states[i])
  {
    forall k | 0 <= k < |events| ensures !Refused(events[k]) {
      assert states[k + 1] == Exec(true, states[k], events[k]);
      if Refused(events[k]) {
        OnlyFoundIsRefused(states, events, k);
        FoundKeepsMode(true, states, events, k);
      }
    }
    NoPanicUnderLock(states, events, i);
  }

  /** Under the lock no rename is ever lost. */
  lemma {:induction false} LockedExclusive(states: seq<State>, events: seq<Event>, i: nat)
    requires IsRun(true, states, events) && i < |states|
    ensures Exclusive(states[i])
  {
    if i == 0 {
      assert Init(states[0]);
    } else {
      LockedExclusive(states, events, i - 1);
      RunInvariant(true, states, events, i - 1);
      assert states[i - 1 + 1] == Exec(true, states[i - 1], events[i - 1]);
      ExclusiveNext(states[i - 1], events[i - 1], states[i]);
    }
  }

  lemma ExclusiveNext(s: State, e: Event, s': State)
    requires Inv(s) && Enabled(true, s, e) && Ready(s, e) && s' == Exec(true, s, e) && Exclusive(s)
    ensures Exclusive(s')
  {
    ExclusiveStep(s, e);
  }

  lemma RenameWins(states: seq<State>, events: seq<Event>, i: nat)
    requires IsRun(true, states, events) && i < |events| && events[i].Rename?
    ensures states[i].target.None? && states[i + 1].target.Some?
  {
    LockedExclusive(states, events, i);
    assert states[i + 1] == Exec(true, states[i], events[i]);
  }

  /** A run without the lock and without system faults, and the state it ends in. */
  ghost predicate LeadsTo(states: seq<State>, events: seq<Event>, s: State) {
    IsRun(false, states, events) && (forall k :: 0 <= k < |events| ==> Healthy(events[k])) && states[|events|] == s
  }

  lemma Then(states: seq<State>, events: seq<Event>, s: State, e: Event, s': State)
    returns (states': seq<State>, events': seq<Event>)
    requires LeadsTo(states, events, s) && Enabled(false, s, e) && Ready(s, e) && Healthy(e) && s' == Exec(false, s, e)
    ensures LeadsTo(states', events', s')
  {
    states', events' := states + [s'], events + [e];
    forall i | 0 <= i < |events'|
      ensures Enabled(false, states'[i], events'[i]) && Ready(states'[i], events'[i])
              && states'[i + 1] == Exec(false, states'[i], events'[i])
    {
      if i < |events| { assert states[i + 1] == Exec(false, states[i], events[i]); }
    }
  }

  const EMPTY_DIR := State(None, None, map[], [], [Out, Out], {})

  lemma FirstSeesNothing() returns (states: seq<State>, events: seq<Event>)
    ensures LeadsTo(states, events, EMPTY_DIR.(stages := [Rechecking, Opening]))
  {
    var s := EMPTY_DIR;
    states, events := [s], [];
    var a, b := s.(stages := [Opening, Out]), s.(stages := [Rechecking, Out]);
    states, events := Then(states, events, s, Enter(0), a);
    states, events := Then(states, events, a, Open(0, false), b);
    states, events := Then(states, events, b, Enter(1), s.(stages := [Rechecking, Opening]));
  }

  lemma SecondSeesNothing() returns (states: seq<State>, events: seq<Event>)
    ensures LeadsTo(states, events, EMPTY_DIR.(stages := [Rechecking, Creating]))
  {
    var s := EMPTY_DIR;
    states, events := FirstSeesNothing();
    var a, b := s.(stages := [Rechecking, Opening]), s.(stages := [Rechecking, Rechecking]);
    var c, d := s.(stages := [Rechecking, Looking]), s.(stages := [Rechecking, Creating]);
    states, events := Then(states, events, a, Open(1, false), b);
    states, events := Then(states, events, b, Recheck(1), c);
    states, events := Then(states, events, c, Look(1), d);
  }

  /** Without the lock, a publisher that comes between a failed open and its recheck causes a panic. */
  lemma PanicsWithoutLock() returns (states: seq<State>, events: seq<Event>, last: State)
    ensures LeadsTo(states, events, last) && !NonePanicked(last)
  {
    assert WorldWritable(MODE_0666);
    states, events := SecondSeesNothing();
    var a := EMPTY_DIR.(stages := [Rechecking, Creating]);
    var b := State(None, None, map[0 := 0], [MODE_0600], [Rechecking, Created(0)], {});
    var c := State(None, None, map[0 := 0], [MODE_0666], [Rechecking, Chmodded(0)], {});
    var d := c.(stages := [Rechecking, Verified(0)]);
    var e := State(None, Some(0), map[], [MODE_0666], [Rechecking, Opening], {});
    last := e.(stages := [Panicked, Opening]);
    states, events := Then(states, events, a, Create(1, 0), b);
    states, events := Then(states, events, b, Chmod(1, MODE_0666), c);
    states, events := Then(states, events, c, Verify(1, true), d);
    states, events := Then(states, events, d, Rename(1, true), e);
    states, events := Then(states, events, e, Recheck(0), last);
    assert last.stages[0].Panicked?;
  }

  // ---- The loop ends once the path is left alone

  /** How many steps of its own a worker is from being connected. */
  function Rank(s: State, w: nat): nat
    requires w < |s.stages|
  {
    match s.stages[w]
    case Opening => if s.target.Some? then 1 else 8
    case Rechecking => 7
    case Looking => 6
    case Creating => 5
    case Created(_) => 4
    case Chmodded(_) => 3
    case Verified(_) => 2
    case _ => 0
  }

  /** Under the lock, each of a worker's own steps brings it nearer, save a candidate name already taken. */
  lemma StepsGetNearer(s: State, e: Event)
    requires Inv(s) && Exclusive(s) && FailedForAbsence(s) && ChmodWorked(s)
    requires Enabled(true, s, e) && Healthy(e) && !Refused(e)
    requires !e.Delete? && !e.Crash? && Inside(s.stages[e.w]) && !(e.Create? && e.name in s.temps)
    ensures Rank(Exec(true, s, e), e.w) < Rank(s, e.w)
    ensures Rank(Exec(true, s, e), e.w) == 0 ==> Exec(true, s, e).stages[e.w].Connected?
  {
    if HasTemp(s.stages[e.w]) { assert Holds(s, e.w, s.stages[e.w].temp); }
  }

  /** A worker in the loop can always take such a step. */
  lemma CanGetNearer(s: State, w: nat) returns (e: Event)
    requires Inv(s) && w < |s.stages| && Inside(s.stages[w])
    ensures Enabled(true, s, e) && Healthy(e) && !Refused(e) && !e.Delete? && !e.Crash? && e.w == w
    ensures !(e.Create? && e.name in s.temps)
  {
    assert WorldWritable(MODE_0666);
    match s.stages[w]
    case Opening => e := Open(w, false);
    case Rechecking => e := Recheck(w);
    case Looking => e := Look(w);
    case Creating =>
      var name := UnusedNumber(s.temps.Keys);
      e := Create(w, name);
    case Created(_) => e := Chmod(w, MODE_0666);
    case Chmodded(_) => e := Verify(w, true);
    case Verified(_) => e := Rename(w, true);
  }
}
