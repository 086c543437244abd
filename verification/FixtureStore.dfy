/**
 The two fixture caches: the per-test store, filled by recursive setup and torn
 down when the test scope drops, and the process store with its name index.
 A boxed value is known by its address, here a number never used twice.
 */
module FixtureStore {
  import opened FixtureGraph
  import opened Instance

  datatype Entry = Entry(name: string, ptr: nat)

  /** Some entry before position `k` has this name. */
  ghost predicate Listed(entries: seq<Entry>, k: int, name: string) {
    exists j :: 0 <= j < k <= |entries| && entries[j].name == name
  }

  ghost predicate UniqueNames(entries: seq<Entry>) {
    forall i, j :: 0 <= i < j < |entries| ==> entries[i].name != entries[j].name
  }

  /** No two values share an address, and all addresses have been given out. */
  ghost predicate Distinct(entries: seq<Entry>, next: nat) {
    && (forall i :: 0 <= i < |entries| ==> entries[i].ptr < next)
    && forall i, j :: 0 <= i < j < |entries| ==> entries[i].ptr != entries[j].ptr
  }

  /** Every dependency cached in the same store sits below its dependent. */
  ghost predicate DepsBelow(reg: Registry, scope: Scope, entries: seq<Entry>) {
    forall i, d :: 0 <= i < |entries| && Edge(reg, entries[i].name, d) && d in reg && reg[d].scope == scope
                   ==> Listed(entries, i, d)
  }

  lemma DepsBelowSnoc(reg: Registry, scope: Scope, entries: seq<Entry>, e: Entry)
    requires DepsBelow(reg, scope, entries)
    requires forall d :: Edge(reg, e.name, d) && d in reg && reg[d].scope == scope ==> Listed(entries, |entries|, d)
    ensures DepsBelow(reg, scope, entries + [e])
  {
    var longer := entries + [e];
    forall i, d | 0 <= i < |longer| && Edge(reg, longer[i].name, d) && d in reg && reg[d].scope == scope
      ensures Listed(longer, i, d)
    {
      if i < |entries| { assert Listed(entries, i, d); }
      var j :| 0 <= j < i && entries[j].name == d;
      assert longer[j].name == d;
    }
  }

  // ---- Teardown order

  /** Addresses last in, first out. */
  function Backwards(entries: seq<Entry>): (r: seq<nat>)
    ensures |r| == |entries| && forall k :: 0 <= k < |r| ==> r[k] == entries[|entries| - 1 - k].ptr
  {
    if entries == [] then [] else [entries[|entries| - 1].ptr] + Backwards(entries[..|entries| - 1])
  }

  /** The value at `a` is freed in step `i` and in no other. */
  ghost predicate FreedAt(freed: seq<nat>, i: int, a: nat) {
    0 <= i < |freed| && freed[i] == a && forall k :: 0 <= k < |freed| && k != i ==> freed[k] != a
  }

  ghost predicate FreedBefore(freed: seq<nat>, a: nat, b: nat) {
    exists i, j :: i < j && FreedAt(freed, i, a) && FreedAt(freed, j, b)
  }

  lemma FreedOnce(entries: seq<Entry>, next: nat, i: nat)
    requires Distinct(entries, next) && i < |entries|
    ensures FreedAt(Backwards(entries), |entries| - 1 - i, entries[i].ptr)
  {
  }

  /** Freeing backwards frees each cached value once, and a dependent before its dependency. */
  lemma TeardownOrder(reg: Registry, scope: Scope, entries: seq<Entry>, next: nat, i: nat, d: string)
    requires DepsBelow(reg, scope, entries) && Distinct(entries, next) && UniqueNames(entries)
    requires i < |entries| && Edge(reg, entries[i].name, d) && d in reg && reg[d].scope == scope
    ensures exists j :: 0 <= j < i && entries[j].name == d
                        && FreedBefore(Backwards(entries), entries[i].ptr, entries[j].ptr)
  {
    assert Listed(entries, i, d);
    var j :| 0 <= j < i && entries[j].name == d;
    FreedOnce(entries, next, i);
    FreedOnce(entries, next, j);
  }

  // ---- What a request demands

  /** A request for this fixture sets nothing up here: it is cached, or the process store's business. */
  ghost predicate Stops(reg: Registry, cached: set<string>, x: string) {
    x in reg && (reg[x].scope == Process || (reg[x].scope == TestScope && x in cached))
  }

  /** A chain of requests from `name`, each made by the setup of the one before. */
  ghost predicate Demands(reg: Registry, cached: set<string>, name: string, p: seq<string>) {
    IsChain(reg, p) && p[0] == name && forall i :: 0 <= i < |p| - 1 ==> !Stops(reg, cached, p[i])
  }

  /** A request for this fixture panics by itself: it is unknown, or it has to be made and that fails. */
  ghost predicate Breaks(reg: Registry, cached: set<string>, fails: set<string>, x: string) {
    x !in reg || (x in fails && !(reg[x].scope == TestScope && x in cached))
  }

  /** Nothing demanded by `name` breaks, and the test-scoped part of it is now cached. */
  ghost predicate Settled(reg: Registry, cached: set<string>, fails: set<string>, now: set<string>, name: string) {
    forall p :: Demands(reg, cached, name, p) ==>
      var x := p[|p| - 1];
      !Breaks(reg, cached, fails, x) && (reg[x].scope == TestScope ==> x in now)
  }

  /** Something demanded by `name` breaks. */
  ghost predicate Doomed(reg: Registry, cached: set<string>, fails: set<string>, name: string) {
    exists p :: Demands(reg, cached, name, p) && Breaks(reg, cached, fails, p[|p| - 1])
  }

  ghost predicate Demanded(reg: Registry, cached: set<string>, name: string, x: string) {
    exists p :: Demands(reg, cached, name, p) && p[|p| - 1] == x
  }

  ghost function NamesOf(entries: seq<Entry>): set<string> {
    set i | 0 <= i < |entries| :: entries[i].name
  }

  lemma DemandsTail(reg: Registry, cached: set<string>, name: string, p: seq<string>, k: nat)
    requires Demands(reg, cached, name, p) && k < |p|
    ensures Demands(reg, cached, p[k], p[k..])
  {
    var q := p[k..];
    forall i | 0 <= i < |q| - 1 ensures Edge(reg, q[i], q[i + 1]) && !Stops(reg, cached, q[i]) {
      assert Edge(reg, p[k + i], p[k + i + 1]);
    }
  }

  lemma DemandsCons(reg: Registry, cached: set<string>, name: string, p: seq<string>)
    requires p != [] && Demands(reg, cached, p[0], p) && Edge(reg, name, p[0]) && !Stops(reg, cached, name)
    ensures Demands(reg, cached, name, [name] + p)
  {
    var q := [name] + p;
    forall i | 0 <= i < |q| - 1 ensures Edge(reg, q[i], q[i + 1]) && !Stops(reg, cached, q[i]) {
      if i > 0 { assert Edge(reg, p[i - 1], p[i - 1 + 1]); }
    }
  }

  /** What is demanded of a fuller store is demanded of the emptier one. */
  lemma DemandsOfLess(reg: Registry, cached: set<string>, more: set<string>, name: string, p: seq<string>)
    requires cached <= more && Demands(reg, more, name, p)
    ensures Demands(reg, cached, name, p)
  {
  }

  lemma DoomedOfLess(reg: Registry, cached: set<string>, more: set<string>, fails: set<string>,
                     name: string, dep: string)
    requires cached <= more && Doomed(reg, more, fails, dep) && Edge(reg, name, dep) && !Stops(reg, cached, name)
    ensures Doomed(reg, cached, fails, name)
  {
    var p :| Demands(reg, more, dep, p) && Breaks(reg, more, fails, p[|p| - 1]);
    DemandsOfLess(reg, cached, more, dep, p);
    DemandsCons(reg, cached, name, p);
    var q := [name] + p;
    assert q[|q| - 1] == p[|p| - 1];
  }

  /** The first place, if any, where the chain meets something cached meanwhile. */
  lemma FirstMeeting(p: seq<string>, met: set<string>) returns (k: nat)
    ensures k <= |p| && (k < |p| ==> p[k] in met) && forall i :: 0 <= i < k ==> p[i] !in met
  {
    k := 0;
    while k < |p| && p[k] !in met
      invariant k <= |p| && forall i :: 0 <= i < k ==> p[i] !in met
    {
      k := k + 1;
    }
  }

  /** If what was cached meanwhile is settled, so is whatever is settled on top of it. */
  lemma SettledOfLess(reg: Registry, cached: set<string>, more: set<string>, fails: set<string>,
                      now: set<string>, name: string)
    requires cached <= more && Settled(reg, more, fails, now, name)
    requires forall x :: x in more && x !in cached ==> Settled(reg, cached, fails, now, x)
    ensures Settled(reg, cached, fails, now, name)
  {
    forall p | Demands(reg, cached, name, p)
      ensures !Breaks(reg, cached, fails, p[|p| - 1])
      ensures reg[p[|p| - 1]].scope == TestScope ==> p[|p| - 1] in now
    {
      var k := FirstMeeting(p, more - cached);
      if k < |p| {
        DemandsTail(reg, cached, name, p, k);
        assert p[k..][|p[k..]| - 1] == p[|p| - 1];
      } else {
        assert Demands(reg, more, name, p);
      }
    }
  }

  lemma SettledGrows(reg: Registry, cached: set<string>, fails: set<string>, now: set<string>, later: set<string>,
                     name: string)
    requires Settled(reg, cached, fails, now, name) && now <= later
    ensures Settled(reg, cached, fails, later, name)
  {
  }

  /** A fixture whose dependencies are settled, and whose own setup works, is settled. */
  lemma SettledBySetup(reg: Registry, cached: set<string>, fails: set<string>, now: set<string>, name: string)
    requires name in reg && name !in fails && (reg[name].scope == TestScope ==> name in now)
    requires forall d :: Edge(reg, name, d) ==> Settled(reg, cached, fails, now, d)
    ensures Settled(reg, cached, fails, now, name)
  {
    forall p | Demands(reg, cached, name, p)
      ensures !Breaks(reg, cached, fails, p[|p| - 1])
      ensures reg[p[|p| - 1]].scope == TestScope ==> p[|p| - 1] in now
    {
      if |p| > 1 {
        assert Edge(reg, p[0], p[0 + 1]);
        DemandsTail(reg, cached, name, p, 1);
        assert p[1..][|p[1..]| - 1] == p[|p| - 1];
      }
    }
  }

  lemma SettledIsNotDoomed(reg: Registry, cached: set<string>, fails: set<string>, now: set<string>, name: string)
    requires Settled(reg, cached, fails, now, name)
    ensures !Doomed(reg, cached, fails, name) && name in reg && (reg[name].scope == TestScope ==> name in now)
  {
    assert Demands(reg, cached, name, [name]);
  }

  /** In a validated registry without failing setups every request succeeds. */
  lemma NothingDoomed(reg: Registry, cached: set<string>, name: string)
    requires DepsExist(reg) && name in reg
    ensures !Doomed(reg, cached, {}, name)
  {
    forall p | Demands(reg, cached, name, p) ensures p[|p| - 1] in reg { ChainRegistered(reg, p); }
  }

  lemma ChainRegistered(reg: Registry, p: seq<string>)
    requires DepsExist(reg) && IsChain(reg, p) && p[0] in reg
    ensures p[|p| - 1] in reg
  {
    if |p| > 1 { assert Edge(reg, p[|p| - 2], p[|p| - 2 + 1]); }
  }

  /** A failing dependency that has to be set up dooms the request. */
  lemma FailingDependencyDooms(reg: Registry, cached: set<string>, fails: set<string>, name: string, d: string)
    requires Edge(reg, name, d) && reg[name].scope != Process && name !in cached && d in fails && d !in cached
    ensures Doomed(reg, cached, fails, name)
  {
    assert Demands(reg, cached, name, [name, d]);
  }

  /** A request that stops at once is settled unless it breaks. */
  lemma StoppedIsSettled(reg: Registry, cached: set<string>, fails: set<string>, name: string)
    requires Stops(reg, cached, name) && !Breaks(reg, cached, fails, name)
    ensures Settled(reg, cached, fails, cached, name)
  {
    forall p | Demands(reg, cached, name, p) ensures |p| == 1 {}
  }

  lemma BreaksIsDoomed(reg: Registry, cached: set<string>, fails: set<string>, name: string)
    requires Breaks(reg, cached, fails, name)
    ensures Doomed(reg, cached, fails, name)
  {
    assert Demands(reg, cached, name, [name]);
  }

  // ---- What a request does to the store

  /** One more entry, put there by a setup that the request for `name` demanded. */
  ghost predicate AddedFor(reg: Registry, fails: set<string>, cached: set<string>, now: set<string>,
                           name: string, x: string) {
    x in reg && reg[x].scope == TestScope && Demanded(reg, cached, name, x) && Settled(reg, cached, fails, now, x)
  }

  /** Only demanded fixtures were added, none of them one of the `open` setups. */
  ghost predicate Grown(reg: Registry, fails: set<string>, before: seq<Entry>, after: seq<Entry>, floor: nat,
                        name: string, open: seq<string>) {
    && before <= after
    && forall i :: |before| <= i < |after| ==>
         && after[i].name !in open && after[i].ptr >= floor
         && AddedFor(reg, fails, NamesOf(before), NamesOf(after), name, after[i].name)
  }

  lemma NamesGrow(a: seq<Entry>, b: seq<Entry>)
    requires a <= b
    ensures NamesOf(a) <= NamesOf(b)
    ensures forall x :: x in NamesOf(b) && x !in NamesOf(a) ==> exists i :: |a| <= i < |b| && b[i].name == x
  {
    forall x | x in NamesOf(a) ensures x in NamesOf(b) {
      var i :| 0 <= i < |a| && a[i].name == x;
      assert b[i].name == x;
    }
    forall x | x in NamesOf(b) && x !in NamesOf(a) ensures exists i :: |a| <= i < |b| && b[i].name == x {
      var i :| 0 <= i < |b| && b[i].name == x;
    }
  }

  /** Fixtures cached for `name` so far stay settled when the store grows. */
  lemma EarlierStaySettled(reg: Registry, fails: set<string>, a: seq<Entry>, b: seq<Entry>, c: seq<Entry>,
                           floor: nat, name: string, open: seq<string>)
    requires Grown(reg, fails, a, b, floor, name, open) && b <= c
    ensures forall x :: x in NamesOf(b) && x !in NamesOf(a) ==> Settled(reg, NamesOf(a), fails, NamesOf(c), x)
  {
    NamesGrow(a, b);
    NamesGrow(b, c);
    forall x | x in NamesOf(b) && x !in NamesOf(a) ensures Settled(reg, NamesOf(a), fails, NamesOf(c), x) {
      var i :| |a| <= i < |b| && b[i].name == x;
      assert AddedFor(reg, fails, NamesOf(a), NamesOf(b), name, b[i].name);
      SettledGrows(reg, NamesOf(a), fails, NamesOf(b), NamesOf(c), x);
    }
  }

  lemma DemandedThrough(reg: Registry, cached: set<string>, more: set<string>, name: string, dep: string, x: string)
    requires cached <= more && Demanded(reg, more, dep, x) && Edge(reg, name, dep) && !Stops(reg, cached, name)
    ensures Demanded(reg, cached, name, x)
  {
    var p :| Demands(reg, more, dep, p) && p[|p| - 1] == x;
    DemandsOfLess(reg, cached, more, dep, p);
    DemandsCons(reg, cached, name, p);
    var q := [name] + p;
    assert q[|q| - 1] == x;
  }

  /** The setup of `name` has requested `dep` next. */
  lemma GrownByDependency(reg: Registry, fails: set<string>, a: seq<Entry>, b: seq<Entry>, c: seq<Entry>,
                          floor: nat, floor': nat, name: string, dep: string, open: seq<string>)
    requires Grown(reg, fails, a, b, floor, name, open) && Grown(reg, fails, b, c, floor', dep, open)
    requires floor <= floor' && Edge(reg, name, dep) && !Stops(reg, NamesOf(a), name)
    ensures Grown(reg, fails, a, c, floor, name, open)
  {
    NamesGrow(a, b);
    NamesGrow(b, c);
    EarlierStaySettled(reg, fails, a, b, c, floor, name, open);
    forall i | |a| <= i < |c|
      ensures c[i].name !in open && c[i].ptr >= floor
      ensures AddedFor(reg, fails, NamesOf(a), NamesOf(c), name, c[i].name)
    {
      if i < |b| {
        assert AddedFor(reg, fails, NamesOf(a), NamesOf(b), name, b[i].name);
        SettledGrows(reg, NamesOf(a), fails, NamesOf(b), NamesOf(c), b[i].name);
      } else {
        assert AddedFor(reg, fails, NamesOf(b), NamesOf(c), dep, c[i].name);
        DemandedThrough(reg, NamesOf(a), NamesOf(b), name, dep, c[i].name);
        SettledOfLess(reg, NamesOf(a), NamesOf(b), fails, NamesOf(c), c[i].name);
      }
    }
  }

  /** The setup of `name` itself has been cached. */
  lemma GrownBySetup(reg: Registry, fails: set<string>, a: seq<Entry>, b: seq<Entry>, floor: nat, e: Entry,
                     stack: seq<string>)
    requires Grown(reg, fails, a, b, floor, e.name, stack + [e.name]) && e.ptr >= floor && e.name !in stack
    requires Settled(reg, NamesOf(a), fails, NamesOf(b + [e]), e.name)
    requires e.name in reg && reg[e.name].scope == TestScope
    ensures Grown(reg, fails, a, b + [e], floor, e.name, stack)
  {
    var c := b + [e];
    NamesGrow(b, c);
    assert Demands(reg, NamesOf(a), e.name, [e.name]);
    forall i | |a| <= i < |c|
      ensures c[i].name !in stack && c[i].ptr >= floor
      ensures AddedFor(reg, fails, NamesOf(a), NamesOf(c), e.name, c[i].name)
    {
      if i < |b| {
        assert AddedFor(reg, fails, NamesOf(a), NamesOf(b), e.name, b[i].name);
        SettledGrows(reg, NamesOf(a), fails, NamesOf(b), NamesOf(c), b[i].name);
      }
    }
  }

  /** One round of the prologue: `dep` has been requested, with this outcome. */
  lemma Requested(reg: Registry, fails: set<string>, a: seq<Entry>, b: seq<Entry>, c: seq<Entry>,
                  floor: nat, floor': nat, name: string, open: seq<string>, k: nat, ok: bool)
    requires name in reg && k < |reg[name].deps| && floor <= floor' && !Stops(reg, NamesOf(a), name)
    requires Grown(reg, fails, a, b, floor, name, open) && Grown(reg, fails, b, c, floor', reg[name].deps[k], open)
    requires forall m :: 0 <= m < k ==> Settled(reg, NamesOf(a), fails, NamesOf(b), reg[name].deps[m])
    requires ok ==> Settled(reg, NamesOf(b), fails, NamesOf(c), reg[name].deps[k])
    requires !ok ==> Doomed(reg, NamesOf(b), fails, reg[name].deps[k])
    ensures Grown(reg, fails, a, c, floor, name, open)
    ensures ok ==> forall m :: 0 <= m < k + 1 ==> Settled(reg, NamesOf(a), fails, NamesOf(c), reg[name].deps[m])
    ensures !ok ==> Doomed(reg, NamesOf(a), fails, name)
  {
    var dep := reg[name].deps[k];
    assert Edge(reg, name, dep);
    GrownByDependency(reg, fails, a, b, c, floor, floor', name, dep, open);
    NamesGrow(a, b);
    NamesGrow(b, c);
    if ok {
      EarlierStaySettled(reg, fails, a, b, c, floor, name, open);
      SettledOfLess(reg, NamesOf(a), NamesOf(b), fails, NamesOf(c), dep);
      forall m | 0 <= m < k ensures Settled(reg, NamesOf(a), fails, NamesOf(c), reg[name].deps[m]) {
        SettledGrows(reg, NamesOf(a), fails, NamesOf(b), NamesOf(c), reg[name].deps[m]);
      }
    } else {
      DoomedOfLess(reg, NamesOf(a), NamesOf(b), fails, name, dep);
    }
  }

  // ---- Per-test store

  /** Thread-local; `next` is the allocator's. */
  class TestStore {
    var entries: seq<Entry>
    var next: nat

    ghost predicate Valid(reg: Registry)
      reads this
    {
      UniqueNames(entries) && Distinct(entries, next) && DepsBelow(reg, TestScope, entries)
    }

    constructor ()
      ensures entries == [] && forall reg :: Valid(reg)
    {
      entries, next := [], 0;
    }

    method Find(name: string) returns (r: Option<nat>)
      ensures r.Some? <==> name in NamesOf(entries)
      ensures r.Some? ==> Entry(name, r.value) in entries
    {
      for i := 0 to |entries|
        invariant forall k :: 0 <= k < i ==> entries[k].name != name
      {
        if entries[i].name == name { return Some(entries[i].ptr); }
      }
      return None;
    }

    /**
     A request for a fixture: the cached value, or a setup that first requests
     each dependency and then runs its body. `fails` are the fixtures whose own
     setup, or whose request to the process store, fails. None is a panic, which
     unwinds to the test: it happens exactly when something that has to be
     requested is unknown or fails. `stack` is the chain of setups now open.
     */
    method Get(reg: Registry, name: string, fails: set<string>, ghost stack: seq<string>) returns (r: Option<nat>)
      requires Valid(reg) && Acyclic(reg) && OpenCalls(reg, stack, name)
      modifies this
      ensures Valid(reg) && next >= old(next)
      ensures Grown(reg, fails, old(entries), entries, old(next), name, stack)
      ensures r.None? <==> Doomed(reg, NamesOf(old(entries)), fails, name)
      ensures name !in reg || (name in fails && name !in NamesOf(old(entries))) ==> r.None?
      ensures r.Some? ==> Settled(reg, NamesOf(old(entries)), fails, NamesOf(entries), name) && name in reg
      ensures r.Some? && reg[name].scope == TestScope ==> Entry(name, r.value) in entries
      ensures Stops(reg, NamesOf(old(entries)), name) ==> entries == old(entries)
      ensures r.Some? && reg[name].scope == TestScope && name !in NamesOf(old(entries)) ==>
                entries != old(entries) && entries[|entries| - 1] == Entry(name, r.value)
      decreases Universe(reg) - Elements(stack), 1
    {
      r := None;
      ghost var cached := NamesOf(entries);
      if name in fails && name !in cached { BreaksIsDoomed(reg, cached, fails, name); }
      if name !in reg {
        BreaksIsDoomed(reg, cached, fails, name);
        return None;
      }
      var def := reg[name];
      if def.scope == TestScope {
        r := Find(name);
      } else if def.scope == Process && name !in fails {
        var shared: nat := *;
        r := Some(shared);
      }
      if r.Some? {
        StoppedIsSettled(reg, cached, fails, name);
        SettledIsNotDoomed(reg, cached, fails, cached, name);
        return;
      }
      if def.scope == Process {
        BreaksIsDoomed(reg, cached, fails, name);
        return None;
      }
      r := SetUp(reg, name, fails, stack);
    }

    /** A setup: the prologue, then the body. */
    method SetUp(reg: Registry, name: string, fails: set<string>, ghost stack: seq<string>) returns (r: Option<nat>)
      requires Valid(reg) && Acyclic(reg) && OpenCalls(reg, stack, name) && name in reg
      requires !Stops(reg, NamesOf(entries), name)
      modifies this
      ensures Valid(reg) && next >= old(next)
      ensures Grown(reg, fails, old(entries), entries, old(next), name, stack)
      ensures r.None? <==> Doomed(reg, NamesOf(old(entries)), fails, name)
      ensures r.Some? ==> Settled(reg, NamesOf(old(entries)), fails, NamesOf(entries), name)
      ensures r.Some? && reg[name].scope == TestScope ==>
                entries != old(entries) && entries[|entries| - 1] == Entry(name, r.value)
      decreases Universe(reg) - Elements(stack), 0
    {
      NotOpen(reg, stack, name);
      ghost var cached := NamesOf(entries);
      var done := Dependencies(reg, name, fails, stack);
      if !done { return None; }
      if name in fails {
        BreaksIsDoomed(reg, cached, fails, name);
        return None;
      }
      var raw := next;
      next := next + 1;
      if reg[name].scope == TestScope {
        Push(reg, Entry(name, raw), fails, old(entries), old(next), stack);
      } else {
        SettledBySetup(reg, cached, fails, NamesOf(entries), name);
      }
      SettledIsNotDoomed(reg, cached, fails, NamesOf(entries), name);
      return Some(raw);
    }

    method Push(reg: Registry, e: Entry, ghost fails: set<string>, ghost before: seq<Entry>, ghost floor: nat,
                ghost stack: seq<string>)
      requires Valid(reg) && Distinct(entries, e.ptr) && floor <= e.ptr < next
      requires e.name in reg && reg[e.name].scope == TestScope && e.name !in fails
      requires e.name !in stack && e.name !in NamesOf(before)
      requires Grown(reg, fails, before, entries, floor, e.name, stack + [e.name])
      requires forall d :: Edge(reg, e.name, d) ==> Settled(reg, NamesOf(before), fails, NamesOf(entries), d)
      modifies this`entries
      ensures Valid(reg) && entries == old(entries) + [e]
      ensures Grown(reg, fails, before, entries, floor, e.name, stack)
      ensures Settled(reg, NamesOf(before), fails, NamesOf(entries), e.name)
    {
      ghost var cached, after := NamesOf(before), entries + [e];
      NamesGrow(entries, after);
      forall d | Edge(reg, e.name, d) ensures Settled(reg, cached, fails, NamesOf(after), d) && d in reg
        ensures reg[d].scope == TestScope ==> Listed(entries, |entries|, d)
      {
        SettledIsNotDoomed(reg, cached, fails, NamesOf(entries), d);
        SettledGrows(reg, cached, fails, NamesOf(entries), NamesOf(after), d);
      }
      assert after[|entries|].name == e.name;
      SettledBySetup(reg, cached, fails, NamesOf(after), e.name);
      NotListed(before, entries, e.name, stack + [e.name]);
      GrownBySetup(reg, fails, before, entries, floor, e, stack);
      DepsBelowSnoc(reg, TestScope, entries, e);
      entries := entries + [e];
    }

    /**
     The generated prologue of a setup: request each dependency in turn. It
     succeeds with everything they demand settled, or has met something doomed.
     */
    method Dependencies(reg: Registry, name: string, fails: set<string>, ghost stack: seq<string>)
      returns (ok: bool)
      requires Valid(reg) && Acyclic(reg) && OpenCalls(reg, stack, name) && name in reg && name !in stack
      requires !Stops(reg, NamesOf(entries), name)
      modifies this
      ensures Valid(reg) && next >= old(next)
      ensures Grown(reg, fails, old(entries), entries, old(next), name, stack + [name])
      ensures ok ==> forall d :: Edge(reg, name, d) ==> Settled(reg, NamesOf(old(entries)), fails, NamesOf(entries), d)
      ensures !ok ==> Doomed(reg, NamesOf(old(entries)), fails, name)
      decreases Universe(reg) - Elements(stack + [name]), 2
    {
      NotOpen(reg, stack, name);
      var deps := reg[name].deps;
      ghost var open := stack + [name];
      for k := 0 to |deps|
        invariant Valid(reg) && next >= old(next)
        invariant Grown(reg, fails, old(entries), entries, old(next), name, open)
        invariant forall m :: 0 <= m < k ==> Settled(reg, NamesOf(old(entries)), fails, NamesOf(entries), deps[m])
      {
        ghost var before, floor := entries, next;
        PushCall(reg, stack, name, deps[k]);
        var d := Get(reg, deps[k], fails, open);
        Requested(reg, fails, old(entries), before, entries, old(next), floor, name, open, k, d.Some?);
        if d.None? { return false; }
      }
      return true;
    }

    /** `TestScope::drop`: the addresses in the order they are freed. */
    method Drop(reg: Registry) returns (freed: seq<nat>)
      requires Valid(reg)
      modifies this
      ensures entries == [] && next == old(next) && Valid(reg)
      ensures freed == Backwards(old(entries))
      ensures forall i, d :: 0 <= i < |old(entries)| && Edge(reg, old(entries)[i].name, d)
                             && d in reg && reg[d].scope == TestScope
                ==> exists j :: 0 <= j < i && old(entries)[j].name == d
                                && FreedBefore(freed, old(entries)[i].ptr, old(entries)[j].ptr)
    {
      freed := [];
      while entries != []
        invariant next == old(next)
        invariant freed + Backwards(entries) == Backwards(old(entries))
        decreases |entries|
      {
        var last := entries[|entries| - 1];
        entries := entries[..|entries| - 1];
        freed := freed + [last.ptr];
      }
      ghost var cached := old(entries);
      forall i, d | 0 <= i < |cached| && Edge(reg, cached[i].name, d) && d in reg && reg[d].scope == TestScope
        ensures exists j :: 0 <= j < i && cached[j].name == d
                            && FreedBefore(Backwards(cached), cached[i].ptr, cached[j].ptr)
      {
        TeardownOrder(reg, TestScope, cached, next, i, d);
      }
    }
  }

  /** In an acyclic graph no setup is open twice. */
  lemma NotOpen(reg: Registry, stack: seq<string>, name: string)
    requires Acyclic(reg) && OpenCalls(reg, stack, name) && name in reg
    ensures name !in stack && name in Universe(reg)
    ensures Elements(stack) <= Universe(reg) && Elements(stack + [name]) == Elements(stack) + {name}
  {
    if name in stack {
      var cycle := ClosesCycle(reg, stack, name);
    }
  }

  lemma NotListed(a: seq<Entry>, b: seq<Entry>, name: string, open: seq<string>)
    requires a <= b && name !in NamesOf(a) && name in open
    requires forall i :: |a| <= i < |b| ==> b[i].name !in open
    ensures forall i :: 0 <= i < |b| ==> b[i].name != name
  {
    forall i | 0 <= i < |b| ensures b[i].name != name {
      if i < |a| { assert a[i].name == b[i].name; }
    }
  }

  // ---- Process store

  datatype Store = Store(entries: seq<Entry>, index: map<string, nat>)

  const EMPTY := Store([], map[])

  /** Index and entries agree; in particular there is one entry per name. */
  ghost predicate Agree(s: Store) {
    && (forall i :: 0 <= i < |s.entries| ==> s.entries[i].name in s.index && s.index[s.entries[i].name] == i)
    && forall n :: n in s.index ==> s.index[n] < |s.entries| && s.entries[s.index[n]].name == n
  }

  function Cached(s: Store, name: string): nat
    requires Agree(s) && name in s.index
  {
    s.entries[s.index[name]].ptr
  }

  function Insert(s: Store, name: string, ptr: nat): Store {
    Store(s.entries + [Entry(name, ptr)], s.index[name := |s.entries|])
  }

  lemma InsertAgrees(s: Store, name: string, ptr: nat)
    requires Agree(s) && name !in s.index
    ensures Agree(Insert(s, name, ptr)) && Cached(Insert(s, name, ptr), name) == ptr
    ensures forall n :: n in s.index ==>
              n in Insert(s, name, ptr).index && Cached(Insert(s, name, ptr), n) == Cached(s, n)
  {
  }

  /** What the mutex protects; each method is one critical section. */
  class ProcessStore {
    var entries: seq<Entry>
    var index: map<string, nat>

    function Value(): Store
      reads this
    {
      Store(entries, index)
    }

    constructor ()
      ensures Value() == EMPTY && Agree(Value())
    {
      entries, index := [], map[];
    }

    /** Second look under the lock: a value that lost the race is freed, and the winner's is returned. */
    method Publish(name: string, raw: nat) returns (ptr: nat, freed: seq<nat>)
      requires Agree(Value())
      modifies this
      ensures Agree(Value()) && name in index && ptr == Cached(Value(), name)
      ensures name in old(index) ==> Value() == old(Value()) && freed == [raw]
      ensures name !in old(index) ==> Value() == Insert(old(Value()), name, raw) && ptr == raw && freed == []
    {
      freed := [];
      if name in index {
        freed := [raw];
        return entries[index[name]].ptr, freed;
      }
      InsertAgrees(Value(), name, raw);
      var idx := |entries|;
      entries := entries + [Entry(name, raw)];
      index := index[name := idx];
      ptr := raw;
    }

    method Cleanup() returns (freed: seq<nat>)
      modifies this
      ensures Value() == EMPTY && Agree(Value())
      ensures freed == Backwards(old(entries))
    {
      freed := [];
      while entries != []
        invariant freed + Backwards(entries) == Backwards(old(entries))
        decreases |entries|
      {
        var last := entries[|entries| - 1];
        entries := entries[..|entries| - 1];
        freed := freed + [last.ptr];
      }
      index := map[];
    }
  }
}
