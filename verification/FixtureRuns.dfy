/**
 Racing requests for process-scoped fixtures. Any number of threads run nested
 setups without the lock; looking up, publishing and cleaning up hold it and are
 one step each. A setup may fail at any point, unwinding its thread to the test.
 */
module FixtureRuns {
  import opened FixtureGraph
  import opened FixtureStore
  import opened Instance

  /** A setup in progress: the dependencies received so far, and the boxed value once there is one. */
  datatype Frame = Frame(name: string, got: seq<nat>, built: Option<nat>)

  /** Where a value is: cached under a name, held by the thread that built it, or freed. */
  datatype Place = InStore(name: string) | Held(thread: nat) | Gone

  datatype State = State(
    store: Store,
    stacks: seq<seq<Frame>>,   // per thread, innermost setup last
    heap: seq<Place>,          // one place for every value ever built
    freed: seq<nat>,           // in the order of freeing
    lost: set<nat>,            // values that lost a race
    handed: set<nat>,          // values ever returned to a caller
    inUse: set<nat>)           // values returned since the last cleanup

  datatype Event = Request(t: nat, name: string) | Build(t: nat) | Fail(t: nat) | Publish(t: nat) | Cleanup

  /** The registry has been validated. */
  ghost predicate Sound(reg: Registry) {
    DepsExist(reg) && ScopesOk(reg) && Acyclic(reg)
  }

  predicate IsProcess(reg: Registry, name: string) {
    name in reg && reg[name].scope == Process
  }

  function Top(stack: seq<Frame>): Frame
    requires stack != []
  {
    stack[|stack| - 1]
  }

  function Pop(stack: seq<Frame>): seq<Frame>
    requires stack != []
  {
    stack[..|stack| - 1]
  }

  // ---- Steps

  /** A request comes from a test, or is the next dependency of the innermost setup. */
  predicate MayRequest(reg: Registry, stack: seq<Frame>, name: string) {
    IsProcess(reg, name) &&
    (stack == [] ||
     (var f := Top(stack);
      f.built.None? && f.name in reg && |f.got| < |reg[f.name].deps| && reg[f.name].deps[|f.got|] == name))
  }

  predicate MayBuild(reg: Registry, stack: seq<Frame>) {
    stack != [] && Top(stack).built.None? && Top(stack).name in reg && |Top(stack).got| == |reg[Top(stack).name].deps|
  }

  predicate Enabled(reg: Registry, s: State, e: Event) {
    match e
    case Request(t, name) => t < |s.stacks| && MayRequest(reg, s.stacks[t], name)
    case Build(t) => t < |s.stacks| && MayBuild(reg, s.stacks[t])
    case Fail(t) => t < |s.stacks| && s.stacks[t] != [] && Top(s.stacks[t]).built.None?
    case Publish(t) => t < |s.stacks| && s.stacks[t] != [] && Top(s.stacks[t]).built.Some?
    case Cleanup => forall t :: 0 <= t < |s.stacks| ==> s.stacks[t] == []
  }

  /** The value reaches the setup that asked for it, if any. */
  function Receive(stack: seq<Frame>, ptr: nat): seq<Frame> {
    if stack == [] then []
    else Pop(stack) + [Top(stack).(got := Top(stack).got + [ptr])]
  }

  function Deliver(s: State, t: nat, stack: seq<Frame>, ptr: nat): State
    requires t < |s.stacks|
  {
    s.(stacks := s.stacks[t := Receive(stack, ptr)], handed := s.handed + {ptr}, inUse := s.inUse + {ptr})
  }

  function Exec(reg: Registry, s: State, e: Event): State
    requires Enabled(reg, s, e) && Agree(s.store)
    requires e.Publish? ==> Top(s.stacks[e.t]).built.value < |s.heap|
  {
    match e
    case Request(t, name) =>
      if name in s.store.index then Deliver(s, t, s.stacks[t], Cached(s.store, name))
      else s.(stacks := s.stacks[t := s.stacks[t] + [Frame(name, [], None)]])
    case Build(t) =>
      var f := Top(s.stacks[t]);
      s.(stacks := s.stacks[t := Pop(s.stacks[t]) + [f.(built := Some(|s.heap|))]],
         heap := s.heap + [Held(t)])
    case Fail(t) => s.(stacks := s.stacks[t := []])
    case Publish(t) =>
      var f, below := Top(s.stacks[t]), Pop(s.stacks[t]);
      var raw := f.built.value;
      if f.name in s.store.index then
        Deliver(s.(heap := s.heap[raw := Gone], freed := s.freed + [raw], lost := s.lost + {raw}),
                t, below, Cached(s.store, f.name))
      else
        Deliver(s.(store := Insert(s.store, f.name, raw), heap := s.heap[raw := InStore(f.name)]),
                t, below, raw)
    case Cleanup =>
      s.(store := EMPTY, heap := seq(|s.heap|, i => Gone), freed := s.freed + Backwards(s.store.entries), inUse := {})
  }

  // ---- Invariant

  /** The setup has received exactly the cached values of its first dependencies. */
  ghost predicate FrameOk(reg: Registry, store: Store, f: Frame)
    requires Agree(store)
  {
    && IsProcess(reg, f.name)
    && |f.got| <= |reg[f.name].deps|
    && (f.built.Some? ==> |f.got| == |reg[f.name].deps|)
    && forall m :: 0 <= m < |f.got| ==>
         reg[f.name].deps[m] in store.index && Cached(store, reg[f.name].deps[m]) == f.got[m]
  }

  /** Each setup but the innermost is waiting for the one above it. */
  ghost predicate Nested(reg: Registry, stack: seq<Frame>) {
    forall k :: 0 <= k < |stack| - 1 ==> Awaits(reg, stack[k], stack[k + 1])
  }

  ghost predicate Awaits(reg: Registry, f: Frame, g: Frame) {
    f.built.None? && f.name in reg && |f.got| < |reg[f.name].deps| && reg[f.name].deps[|f.got|] == g.name
  }

  ghost predicate StackOk(reg: Registry, store: Store, stack: seq<Frame>)
    requires Agree(store)
  {
    Nested(reg, stack) && forall k :: 0 <= k < |stack| ==> FrameOk(reg, store, stack[k])
  }

  ghost predicate StoreOk(reg: Registry, s: State) {
    && Agree(s.store)
    && DepsBelow(reg, Process, s.store.entries)
    && forall i :: 0 <= i < |s.store.entries| ==> IsProcess(reg, s.store.entries[i].name)
  }

  ghost predicate Holds(s: State, t: nat, p: nat) {
    t < |s.stacks| && s.stacks[t] != [] && Top(s.stacks[t]).built == Some(p)
  }

  /** Every value built is in exactly one place. */
  ghost predicate HeapOk(s: State)
    requires Agree(s.store)
  {
    && (forall n :: n in s.store.index ==> Cached(s.store, n) < |s.heap| && s.heap[Cached(s.store, n)] == InStore(n))
    && (forall p: nat, n :: p < |s.heap| && s.heap[p] == InStore(n) ==> n in s.store.index && Cached(s.store, n) == p)
    && (forall t: nat, p: nat :: Holds(s, t, p) ==> p < |s.heap| && s.heap[p] == Held(t))
    && (forall p: nat, t: nat :: p < |s.heap| && s.heap[p] == Held(t) ==> Holds(s, t, p))
  }

  ghost predicate FreedOk(s: State) {
    && (forall p: nat :: p in s.freed <==> p < |s.heap| && s.heap[p] == Gone)
    && forall i, j :: 0 <= i < j < |s.freed| ==> s.freed[i] != s.freed[j]
  }

  ghost predicate HandedOk(s: State) {
    && (forall p: nat :: p in s.inUse ==> p < |s.heap| && s.heap[p].InStore?)
    && (forall p: nat :: p in s.handed ==> p < |s.heap| && !s.heap[p].Held? && p !in s.lost)
    && (forall p: nat :: p in s.lost ==> p < |s.heap| && s.heap[p] == Gone)
  }

  ghost predicate Inv(reg: Registry, s: State) {
    && StoreOk(reg, s)
    && (forall t :: 0 <= t < |s.stacks| ==> StackOk(reg, s.store, s.stacks[t]))
    && HeapOk(s) && FreedOk(s) && HandedOk(s)
  }

  ghost predicate Init(s: State) {
    && s.store == EMPTY && s.heap == [] && s.freed == [] && s.lost == {} && s.handed == {} && s.inUse == {}
    && forall t :: 0 <= t < |s.stacks| ==> s.stacks[t] == []
  }

  // ---- Every step keeps the invariant

  /** Values already cached stay cached, so what a setup has received stays right. */
  lemma StackSurvives(reg: Registry, a: Store, b: Store, stack: seq<Frame>)
    requires Agree(a) && Agree(b) && StackOk(reg, a, stack)
    requires forall n :: n in a.index ==> n in b.index && Cached(b, n) == Cached(a, n)
    ensures StackOk(reg, b, stack)
  {
    forall k | 0 <= k < |stack| ensures FrameOk(reg, b, stack[k]) {
      assert FrameOk(reg, a, stack[k]);
    }
  }

  lemma PopOk(reg: Registry, store: Store, stack: seq<Frame>)
    requires Agree(store) && StackOk(reg, store, stack) && stack != []
    ensures StackOk(reg, store, Pop(stack))
    ensures Pop(stack) != [] ==> Awaits(reg, Top(Pop(stack)), Top(stack))
  {
    var below := Pop(stack);
    forall k | 0 <= k < |below| - 1 ensures Awaits(reg, below[k], below[k + 1]) {
      assert Awaits(reg, stack[k], stack[k + 1]);
    }
    if below != [] { assert Awaits(reg, stack[|below| - 1], stack[|below| - 1 + 1]); }
  }

  lemma PushOk(reg: Registry, store: Store, stack: seq<Frame>, f: Frame)
    requires Agree(store) && StackOk(reg, store, stack) && FrameOk(reg, store, f)
    requires stack != [] ==> Awaits(reg, Top(stack), f)
    ensures StackOk(reg, store, stack + [f])
  {
    var longer := stack + [f];
    forall k | 0 <= k < |longer| - 1 ensures Awaits(reg, longer[k], longer[k + 1]) {
      if k < |stack| - 1 { assert Awaits(reg, stack[k], stack[k + 1]); }
    }
  }

  lemma ReceiveOk(reg: Registry, store: Store, stack: seq<Frame>, name: string)
    requires Agree(store) && StackOk(reg, store, stack) && name in store.index
    requires stack != [] ==> MayRequest(reg, stack, name)
    ensures StackOk(reg, store, Receive(stack, Cached(store, name)))
    ensures stack != [] ==>
              Receive(stack, Cached(store, name)) != [] && Top(Receive(stack, Cached(store, name))).built.None?
  {
    if stack != [] {
      var f := Top(stack);
      var g := f.(got := f.got + [Cached(store, name)]);
      assert FrameOk(reg, store, f);
      PopOk(reg, store, stack);
      PushOk(reg, store, Pop(stack), g);
    }
  }

  lemma HitKeeps(reg: Registry, s: State, t: nat, name: string)
    requires Inv(reg, s) && Enabled(reg, s, Request(t, name)) && name in s.store.index
    ensures Inv(reg, Exec(reg, s, Request(t, name)))
  {
    var s' := Exec(reg, s, Request(t, name));
    ReceiveOk(reg, s.store, s.stacks[t], name);
    HeldUnchanged(s, s', t);
  }

  lemma MissKeeps(reg: Registry, s: State, t: nat, name: string)
    requires Inv(reg, s) && Enabled(reg, s, Request(t, name)) && name !in s.store.index
    ensures Inv(reg, Exec(reg, s, Request(t, name)))
  {
    var s' := Exec(reg, s, Request(t, name));
    PushOk(reg, s.store, s.stacks[t], Frame(name, [], None));
    HeldUnchanged(s, s', t);
  }

  lemma FailKeeps(reg: Registry, s: State, t: nat)
    requires Inv(reg, s) && Enabled(reg, s, Fail(t))
    ensures Inv(reg, Exec(reg, s, Fail(t)))
  {
    HeldUnchanged(s, Exec(reg, s, Fail(t)), t);
  }

  /** A thread that holds no value before or after leaves every holding as it was. */
  lemma HeldUnchanged(s: State, s': State, t: nat)
    requires t < |s.stacks| && |s'.stacks| == |s.stacks| && s'.stacks == s.stacks[t := s'.stacks[t]]
    requires s.stacks[t] != [] ==> Top(s.stacks[t]).built.None?
    requires s'.stacks[t] != [] ==> Top(s'.stacks[t]).built.None?
    ensures forall u: nat, p: nat :: Holds(s', u, p) <==> Holds(s, u, p)
  {
  }

  lemma BuildKeeps(reg: Registry, s: State, t: nat)
    requires Inv(reg, s) && Enabled(reg, s, Build(t))
    ensures Inv(reg, Exec(reg, s, Build(t)))
  {
    var s' := Exec(reg, s, Build(t));
    var stack := s.stacks[t];
    var f := Top(stack).(built := Some(|s.heap|));
    assert FrameOk(reg, s.store, Top(stack));
    PopOk(reg, s.store, stack);
    PushOk(reg, s.store, Pop(stack), f);
    assert Top(s'.stacks[t]) == f;
    forall u: nat, p: nat ensures Holds(s', u, p) <==> (Holds(s, u, p) && u != t) || (u == t && p == |s.heap|) {}
  }

  /** After publishing, the thread holds nothing. */
  lemma ReleasedHold(s: State, s': State, t: nat, raw: nat)
    requires t < |s.stacks| && |s'.stacks| == |s.stacks| && s'.stacks == s.stacks[t := s'.stacks[t]]
    requires Holds(s, t, raw)
    requires s'.stacks[t] != [] ==> Top(s'.stacks[t]).built.None?
    ensures forall u: nat, p: nat :: Holds(s', u, p) <==> Holds(s, u, p) && u != t
  {
  }

  lemma LoseStacks(reg: Registry, s: State, t: nat)
    requires Inv(reg, s) && Enabled(reg, s, Publish(t)) && Top(s.stacks[t]).name in s.store.index
    ensures Top(s.stacks[t]).built.value < |s.heap|
    ensures var s' := Exec(reg, s, Publish(t));
            && StackOk(reg, s.store, s'.stacks[t])
            && (s'.stacks[t] != [] ==> Top(s'.stacks[t]).built.None?)
  {
    var stack := s.stacks[t];
    assert Holds(s, t, Top(stack).built.value);
    PopOk(reg, s.store, stack);
    ReceiveOk(reg, s.store, Pop(stack), Top(stack).name);
  }

  /** A losing value goes from its builder to the freed ones. */
  ghost predicate Loses(s: State, s': State, t: nat, name: string, raw: nat)
    requires Agree(s.store) && name in s.store.index
  {
    && Holds(s, t, raw) && raw < |s.heap| && s'.store == s.store
    && s'.heap == s.heap[raw := Gone] && s'.freed == s.freed + [raw] && s'.lost == s.lost + {raw}
    && s'.handed == s.handed + {Cached(s.store, name)} && s'.inUse == s.inUse + {Cached(s.store, name)}
    && forall u: nat, p: nat :: Holds(s', u, p) <==> Holds(s, u, p) && u != t
  }

  lemma LoseHeap(s: State, s': State, t: nat, name: string, raw: nat)
    requires Agree(s.store) && HeapOk(s) && name in s.store.index && Loses(s, s', t, name, raw)
    ensures HeapOk(s')
  {
  }

  lemma LoseFreed(s: State, s': State, t: nat, name: string, raw: nat)
    requires Agree(s.store) && HeapOk(s) && FreedOk(s) && name in s.store.index && Loses(s, s', t, name, raw)
    ensures FreedOk(s')
  {
  }

  lemma LoseHanded(s: State, s': State, t: nat, name: string, raw: nat)
    requires Agree(s.store) && HeapOk(s) && HandedOk(s) && name in s.store.index && Loses(s, s', t, name, raw)
    ensures HandedOk(s')
  {
  }

  lemma LoseKeeps(reg: Registry, s: State, t: nat)
    requires Inv(reg, s) && Enabled(reg, s, Publish(t)) && Top(s.stacks[t]).name in s.store.index
    ensures Top(s.stacks[t]).built.value < |s.heap| && Inv(reg, Exec(reg, s, Publish(t)))
  {
    LoseStacks(reg, s, t);
    var f := Top(s.stacks[t]);
    var raw := f.built.value;
    var s' := Exec(reg, s, Publish(t));
    ReleasedHold(s, s', t, raw);
    LoseHeap(s, s', t, f.name, raw);
    LoseFreed(s, s', t, f.name, raw);
    LoseHanded(s, s', t, f.name, raw);
  }

  /** The dependencies of a finished setup are all cached. */
  lemma BuiltDeps(reg: Registry, s: State, f: Frame)
    requires Sound(reg) && StoreOk(reg, s) && FrameOk(reg, s.store, f) && f.built.Some?
    ensures forall d :: Edge(reg, f.name, d) ==> Listed(s.store.entries, |s.store.entries|, d)
  {
    forall d | Edge(reg, f.name, d) ensures Listed(s.store.entries, |s.store.entries|, d) {
      var m :| 0 <= m < |f.got| && reg[f.name].deps[m] == d;
      assert s.store.entries[s.store.index[d]].name == d;
    }
  }

  lemma WinStore(reg: Registry, s: State, f: Frame, raw: nat)
    requires Sound(reg) && StoreOk(reg, s) && FrameOk(reg, s.store, f) && f.built.Some? && f.name !in s.store.index
    ensures StoreOk(reg, s.(store := Insert(s.store, f.name, raw)))
  {
    BuiltDeps(reg, s, f);
    InsertAgrees(s.store, f.name, raw);
    DepsBelowSnoc(reg, Process, s.store.entries, Entry(f.name, raw));
  }

  lemma WinStacks(reg: Registry, s: State, t: nat)
    requires Sound(reg) && Inv(reg, s) && Enabled(reg, s, Publish(t)) && Top(s.stacks[t]).name !in s.store.index
    ensures Top(s.stacks[t]).built.value < |s.heap|
    ensures var s' := Exec(reg, s, Publish(t));
            && StoreOk(reg, s')
            && (forall u :: 0 <= u < |s'.stacks| ==> StackOk(reg, s'.store, s'.stacks[u]))
            && (s'.stacks[t] != [] ==> Top(s'.stacks[t]).built.None?)
  {
    var stack := s.stacks[t];
    var f := Top(stack);
    var raw := f.built.value;
    assert Holds(s, t, raw);
    var s' := Exec(reg, s, Publish(t));
    WinStore(reg, s, f, raw);
    InsertAgrees(s.store, f.name, raw);
    forall u | 0 <= u < |s.stacks| ensures StackOk(reg, s'.store, s.stacks[u]) {
      StackSurvives(reg, s.store, s'.store, s.stacks[u]);
    }
    PopOk(reg, s'.store, stack);
    ReceiveOk(reg, s'.store, Pop(stack), f.name);
  }

  lemma WinHeap(s: State, s': State, t: nat, name: string, raw: nat)
    requires Agree(s.store) && HeapOk(s) && FreedOk(s) && HandedOk(s) && Holds(s, t, raw) && name !in s.store.index
    requires raw < |s.heap| && Agree(s'.store) && s'.store == Insert(s.store, name, raw)
    requires s'.heap == s.heap[raw := InStore(name)] && s'.freed == s.freed && s'.lost == s.lost
    requires s'.handed == s.handed + {raw} && s'.inUse == s.inUse + {raw}
    requires forall u: nat, p: nat :: Holds(s', u, p) <==> Holds(s, u, p) && u != t
    ensures HeapOk(s') && FreedOk(s') && HandedOk(s')
  {
    InsertAgrees(s.store, name, raw);
  }

  lemma WinKeeps(reg: Registry, s: State, t: nat)
    requires Sound(reg) && Inv(reg, s) && Enabled(reg, s, Publish(t)) && Top(s.stacks[t]).name !in s.store.index
    ensures Top(s.stacks[t]).built.value < |s.heap| && Inv(reg, Exec(reg, s, Publish(t)))
  {
    WinStacks(reg, s, t);
    var f := Top(s.stacks[t]);
    var raw := f.built.value;
    var s' := Exec(reg, s, Publish(t));
    ReleasedHold(s, s', t, raw);
    WinHeap(s, s', t, f.name, raw);
  }

  lemma BackwardsStored(s: State, k: nat)
    requires Agree(s.store) && HeapOk(s) && k < |s.store.entries|
    ensures var p := Backwards(s.store.entries)[k];
            p < |s.heap| && s.heap[p] == InStore(s.store.entries[|s.store.entries| - 1 - k].name)
  {
    assert s.store.entries[|s.store.entries| - 1 - k].name in s.store.index;
  }

  /** Cleanup frees everything still allocated. */
  lemma CleanupFreesAll(s: State, p: nat)
    requires Agree(s.store) && HeapOk(s) && FreedOk(s) && (forall t: nat, q: nat :: !Holds(s, t, q))
    ensures p in s.freed + Backwards(s.store.entries) <==> p < |s.heap|
  {
    var entries, back := s.store.entries, Backwards(s.store.entries);
    if p < |s.heap| {
      if s.heap[p].InStore? {
        var i := s.store.index[s.heap[p].name];
        assert back[|entries| - 1 - i] == p;
      }
      assert s.heap[p].Held? ==> Holds(s, s.heap[p].thread, p);
    }
    if p in back {
      var k :| 0 <= k < |back| && back[k] == p;
      BackwardsStored(s, k);
    }
  }

  /** Cleanup frees nothing that was freed before, and nothing twice. */
  lemma CleanupFreesOnce(s: State, i: nat, j: nat)
    requires Agree(s.store) && HeapOk(s) && FreedOk(s) && i < j < |s.freed| + |s.store.entries|
    ensures (s.freed + Backwards(s.store.entries))[i] != (s.freed + Backwards(s.store.entries))[j]
  {
    if j >= |s.freed| {
      BackwardsStored(s, j - |s.freed|);
      if i >= |s.freed| {
        BackwardsStored(s, i - |s.freed|);
      } else {
        assert s.freed[i] in s.freed;
      }
    }
  }

  lemma CleanupKeeps(reg: Registry, s: State)
    requires Inv(reg, s) && Enabled(reg, s, Cleanup)
    ensures Inv(reg, Exec(reg, s, Cleanup))
  {
    var s' := Exec(reg, s, Cleanup);
    forall p: nat ensures p in s'.freed <==> p < |s.heap| { CleanupFreesAll(s, p); }
    forall i, j | 0 <= i < j < |s'.freed| ensures s'.freed[i] != s'.freed[j] { CleanupFreesOnce(s, i, j); }
  }

  lemma StepKeeps(reg: Registry, s: State, e: Event)
    requires Sound(reg) && Inv(reg, s) && Enabled(reg, s, e)
    ensures (e.Publish? ==> Top(s.stacks[e.t]).built.value < |s.heap|) && Inv(reg, Exec(reg, s, e))
  {
    match e
    case Request(t, name) =>
      if name in s.store.index { HitKeeps(reg, s, t, name); } else { MissKeeps(reg, s, t, name); }
    case Build(t) => BuildKeeps(reg, s, t);
    case Fail(t) => FailKeeps(reg, s, t);
    case Publish(t) =>
      if Top(s.stacks[t]).name in s.store.index { LoseKeeps(reg, s, t); } else { WinKeeps(reg, s, t); }
    case Cleanup => CleanupKeeps(reg, s);
  }

  // ---- Runs

  ghost predicate Step(reg: Registry, s: State, e: Event, s': State) {
    && Enabled(reg, s, e) && Agree(s.store)
    && (e.Publish? ==> Top(s.stacks[e.t]).built.value < |s.heap|)
    && s' == Exec(reg, s, e)
  }

  ghost predicate IsRun(reg: Registry, states: seq<State>, events: seq<Event>) {
    && |states| == |events| + 1 && Init(states[0])
    && forall i :: 0 <= i < |events| ==> Step(reg, states[i], events[i], states[i + 1])
  }

  lemma {:induction false} RunInvariant(reg: Registry, states: seq<State>, events: seq<Event>, i: nat)
    requires Sound(reg) && IsRun(reg, states, events) && i < |states|
    ensures Inv(reg, states[i])
  {
    if i > 0 {
      RunInvariant(reg, states, events, i - 1);
      assert Step(reg, states[i - 1], events[i - 1], states[i - 1 + 1]);
      StepKeeps(reg, states[i - 1], events[i - 1]);
    }
  }

  // ---- What every run guarantees

  /** At most one entry per name, index and entries agreeing, and dependencies below dependents. */
  lemma StoreOrdered(reg: Registry, states: seq<State>, events: seq<Event>, i: nat)
    requires Sound(reg) && IsRun(reg, states, events) && i < |states|
    ensures var store := states[i].store;
            && Agree(store) && UniqueNames(store.entries)
            && forall k, d :: 0 <= k < |store.entries| && Edge(reg, store.entries[k].name, d)
                              ==> d in store.index && store.index[d] < k
  {
    RunInvariant(reg, states, events, i);
    var store := states[i].store;
    forall k, d | 0 <= k < |store.entries| && Edge(reg, store.entries[k].name, d)
      ensures d in store.index && store.index[d] < k
    {
      assert IsProcess(reg, store.entries[k].name);
      assert d in reg && reg[d].scope == Process;
      assert Listed(store.entries, k, d);
    }
  }

  /** Nothing is freed twice in a whole run; a loser's value is freed and never handed out. */
  lemma LosersNeverEscape(reg: Registry, states: seq<State>, events: seq<Event>, i: nat)
    requires Sound(reg) && IsRun(reg, states, events) && i < |states|
    ensures var s := states[i];
            && (forall a, b :: 0 <= a < b < |s.freed| ==> s.freed[a] != s.freed[b])
            && s.lost !! s.handed && forall p :: p in s.lost ==> p in s.freed
  {
    RunInvariant(reg, states, events, i);
  }

  /** A value a caller may still use has not been freed, and is the one cached under its name. */
  lemma NoUseAfterFree(reg: Registry, states: seq<State>, events: seq<Event>, i: nat, p: nat)
    requires Sound(reg) && IsRun(reg, states, events) && i < |states| && p in states[i].inUse
    ensures p !in states[i].freed
    ensures exists n :: n in states[i].store.index && Agree(states[i].store) && Cached(states[i].store, n) == p
  {
    RunInvariant(reg, states, events, i);
    var s := states[i];
    assert s.heap[p].InStore?;
    assert s.heap[p].name in s.store.index;
  }

  /** Everyone who asks for a fixture between two cleanups gets the same value. */
  lemma SameValueForAll(reg: Registry, s: State, e: Event, s': State, name: string)
    requires Sound(reg) && Inv(reg, s) && Step(reg, s, e, s') && !e.Cleanup? && name in s.store.index
    ensures Agree(s'.store) && name in s'.store.index && Cached(s'.store, name) == Cached(s.store, name)
  {
    if e.Publish? && Top(s.stacks[e.t]).name !in s.store.index {
      InsertAgrees(s.store, Top(s.stacks[e.t]).name, Top(s.stacks[e.t]).built.value);
    }
  }

  /** Every value ever built has been freed. */
  ghost predicate NothingAllocated(s: State) {
    forall p: nat :: p < |s.heap| ==> s.heap[p] == Gone && p in s.freed
  }

  lemma CleanupFreesEverything(reg: Registry, states: seq<State>, events: seq<Event>, i: nat)
    requires Sound(reg) && IsRun(reg, states, events) && i < |events| && events[i] == Cleanup
    ensures NothingAllocated(states[i + 1])
  {
    RunInvariant(reg, states, events, i + 1);
    assert Step(reg, states[i], events[i], states[i + 1]);
  }

  /** Cleanup frees a cached fixture exactly once in the whole run, and before each of its dependencies. */
  lemma CleanupOrder(reg: Registry, states: seq<State>, events: seq<Event>, i: nat, a: string, b: string)
    requires Sound(reg) && IsRun(reg, states, events) && i < |events| && events[i] == Cleanup
    requires Edge(reg, a, b) && a in states[i].store.index
    ensures Agree(states[i].store) && b in states[i].store.index
    ensures FreedBefore(states[i + 1].freed, Cached(states[i].store, a), Cached(states[i].store, b))
  {
    StoreOrdered(reg, states, events, i);
    LosersNeverEscape(reg, states, events, i + 1);
    assert Step(reg, states[i], events[i], states[i + 1]);
    var s, freed := states[i], states[i + 1].freed;
    assert s.store.entries[s.store.index[a]].name == a;
    FreedPosition(s, freed, a);
    FreedPosition(s, freed, b);
  }

  lemma FreedPosition(s: State, freed: seq<nat>, name: string)
    requires Agree(s.store) && name in s.store.index
    requires freed == s.freed + Backwards(s.store.entries)
    requires forall i, j :: 0 <= i < j < |freed| ==> freed[i] != freed[j]
    ensures FreedAt(freed, |freed| - 1 - s.store.index[name], Cached(s.store, name))
  {
    var k := |freed| - 1 - s.store.index[name];
    assert freed[k] == Backwards(s.store.entries)[|s.store.entries| - 1 - s.store.index[name]];
  }

  /** Nested setups follow the dependency graph, so a validated registry bounds their depth. */
  lemma DepthBounded(reg: Registry, states: seq<State>, events: seq<Event>, i: nat, t: nat)
    requires Sound(reg) && IsRun(reg, states, events) && i < |states| && t < |states[i].stacks|
    ensures |states[i].stacks[t]| <= |reg|
  {
    RunInvariant(reg, states, events, i);
    var stack := states[i].stacks[t];
    if stack != [] {
      var p := seq(|stack|, k requires 0 <= k < |stack| => stack[k].name);
      forall k | 0 <= k < |p| - 1 ensures Edge(reg, p[k], p[k + 1]) {
        assert Awaits(reg, stack[k], stack[k + 1]);
      }
      assert FrameOk(reg, states[i].store, stack[0]);
      ChainsAreShort(reg, p);
    }
  }

  // ---- What a request does

  /** The value reaches the setup that asked, or the test if none did, and counts as handed out. */
  ghost predicate HandedTo(s: State, s': State, t: nat, waiting: seq<Frame>, ptr: nat) {
    && t < |s.stacks| == |s'.stacks| && s'.stacks == s.stacks[t := s'.stacks[t]]
    && ptr in s'.handed && ptr in s'.inUse && s.handed <= s'.handed
    && |s'.stacks[t]| == |waiting|
    && (waiting != [] ==>
          && Pop(s'.stacks[t]) == Pop(waiting) && Top(s'.stacks[t]).name == Top(waiting).name
          && Top(s'.stacks[t]).got == Top(waiting).got + [ptr] && Top(s'.stacks[t]).built == Top(waiting).built)
  }

  lemma ReceiveShape(stack: seq<Frame>, ptr: nat)
    requires stack != []
    ensures var r := Receive(stack, ptr);
            && |r| == |stack| && Pop(r) == Pop(stack) && Top(r) == Top(stack).(got := Top(stack).got + [ptr])
  {
  }

  /** A request for a cached fixture sets nothing up: the cached value goes straight to who asked. */
  lemma CachedRequest(reg: Registry, states: seq<State>, events: seq<Event>, i: nat, t: nat, name: string)
    requires Sound(reg) && IsRun(reg, states, events) && i < |events| && events[i] == Request(t, name)
    requires name in states[i].store.index
    ensures Agree(states[i].store)
    ensures var s, s' := states[i], states[i + 1];
            && s'.store == s.store && s'.heap == s.heap && s'.freed == s.freed && s'.lost == s.lost
            && t < |s.stacks| && HandedTo(s, s', t, s.stacks[t], Cached(s.store, name))
  {
    assert Step(reg, states[i], events[i], states[i + 1]);
    var s := states[i];
    if s.stacks[t] != [] { ReceiveShape(s.stacks[t], Cached(s.store, name)); }
  }

  /** A request for a fixture not cached opens a setup and does nothing else. */
  lemma UncachedRequest(reg: Registry, states: seq<State>, events: seq<Event>, i: nat, t: nat, name: string)
    requires IsRun(reg, states, events) && i < |events| && events[i] == Request(t, name)
    requires name !in states[i].store.index
    ensures t < |states[i].stacks|
    ensures states[i + 1] == states[i].(stacks := states[i].stacks[t := states[i].stacks[t] + [Frame(name, [], None)]])
  {
    assert Step(reg, states[i], events[i], states[i + 1]);
  }

  /** Publishing hands out the cached value: the thread's own if it won, the winner's if it lost. */
  lemma PublishHands(reg: Registry, states: seq<State>, events: seq<Event>, i: nat, t: nat)
    requires Sound(reg) && IsRun(reg, states, events) && i < |events| && events[i] == Publish(t)
    ensures t < |states[i].stacks| && states[i].stacks[t] != [] && Top(states[i].stacks[t]).built.Some?
    ensures var s, s' := states[i], states[i + 1];
            var f, waiting := Top(s.stacks[t]), Pop(s.stacks[t]);
            && Agree(s.store) && Agree(s'.store) && f.name in s'.store.index
            && HandedTo(s, s', t, waiting, Cached(s'.store, f.name))
            && (f.name in s.store.index ==>
                  s'.store == s.store && f.built.value in s'.lost && f.built.value in s'.freed)
            && (f.name !in s.store.index ==> Cached(s'.store, f.name) == f.built.value && s'.freed == s.freed)
  {
    RunInvariant(reg, states, events, i);
    RunInvariant(reg, states, events, i + 1);
    assert Step(reg, states[i], events[i], states[i + 1]);
    var s := states[i];
    var f, waiting := Top(s.stacks[t]), Pop(s.stacks[t]);
    if f.name !in s.store.index { InsertAgrees(s.store, f.name, f.built.value); }
    if waiting != [] { ReceiveShape(waiting, Cached(states[i + 1].store, f.name)); }
  }

  // ---- When a setup starts

  /** A setup that is open was there before with the same name, or was just requested. */
  lemma FrameBefore(reg: Registry, s: State, e: Event, s': State, t: nat, d: nat)
    requires Step(reg, s, e, s') && t < |s'.stacks| && d < |s'.stacks[t]|
    ensures |s.stacks| == |s'.stacks|
    ensures || (d < |s.stacks[t]| && s.stacks[t][d].name == s'.stacks[t][d].name)
            || (d == |s.stacks[t]| && e == Request(t, s'.stacks[t][d].name) && s'.stacks[t][d].name !in s.store.index)
  {
  }

  /**
   Every open setup was started by a request at a moment when its fixture was not
   cached, and has been open ever since.
   */
  lemma {:induction false} StartedUncached(reg: Registry, states: seq<State>, events: seq<Event>, j: nat, t: nat,
                                           d: nat) returns (i: nat)
    requires IsRun(reg, states, events) && j < |states| && t < |states[j].stacks| && d < |states[j].stacks[t]|
    ensures i < j && events[i] == Request(t, states[j].stacks[t][d].name)
    ensures states[j].stacks[t][d].name !in states[i].store.index
    ensures forall m :: i < m <= j ==> t < |states[m].stacks| && d < |states[m].stacks[t]|
                                       && states[m].stacks[t][d].name == states[j].stacks[t][d].name
  {
    assert j > 0;
    assert Step(reg, states[j - 1], events[j - 1], states[j - 1 + 1]);
    FrameBefore(reg, states[j - 1], events[j - 1], states[j], t, d);
    if d < |states[j - 1].stacks[t]| && states[j - 1].stacks[t][d].name == states[j].stacks[t][d].name {
      i := StartedUncached(reg, states, events, j - 1, t, d);
    } else {
      i := j - 1;
    }
  }

  /** A name comes into the index only by a publication of that name. */
  lemma EntersByPublish(reg: Registry, s: State, e: Event, s': State, name: string)
    requires Step(reg, s, e, s') && name !in s.store.index && name in s'.store.index
    ensures e.Publish? && Top(s.stacks[e.t]).name == name
  {
  }

  lemma {:induction false} EnteredBetween(reg: Registry, states: seq<State>, events: seq<Event>, i: nat, j: nat,
                                          name: string) returns (k: nat)
    requires IsRun(reg, states, events) && i < j < |states|
    requires name !in states[i].store.index && name in states[j].store.index
    ensures i <= k < j && name !in states[k].store.index && name in states[k + 1].store.index
    ensures events[k].Publish? && events[k].t < |states[k].stacks| && states[k].stacks[events[k].t] != []
    ensures Top(states[k].stacks[events[k].t]).name == name
  {
    if name !in states[j - 1].store.index {
      k := j - 1;
      assert Step(reg, states[k], events[k], states[k + 1]);
      EntersByPublish(reg, states[k], events[k], states[k + 1], name);
    } else {
      k := EnteredBetween(reg, states, events, i, j - 1, name);
    }
  }

  /**
   A value loses only a real race: its setup was started before the winner was
   published, when the fixture was not cached.
   */
  lemma LosersStartedEarlier(reg: Registry, states: seq<State>, events: seq<Event>, j: nat, t: nat)
    returns (start: nat, won: nat)
    requires IsRun(reg, states, events) && j < |events| && events[j] == Publish(t)
    requires t < |states[j].stacks| && states[j].stacks[t] != []
    requires Top(states[j].stacks[t]).name in states[j].store.index
    ensures var name := Top(states[j].stacks[t]).name;
            && start < won < j && events[start] == Request(t, name) && name !in states[start].store.index
            && events[won].Publish? && events[won].t < |states[won].stacks| && states[won].stacks[events[won].t] != []
            && Top(states[won].stacks[events[won].t]).name == name
            && name !in states[won].store.index && name in states[won + 1].store.index
  {
    var name := Top(states[j].stacks[t]).name;
    start := StartedUncached(reg, states, events, j, t, |states[j].stacks[t]| - 1);
    won := EnteredBetween(reg, states, events, start, j, name);
  }
}
