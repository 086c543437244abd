/**
 From components to named groups: sorting, naming and listing, and why the
 result depends only on the tests and not on their order.
 */
module Grouping {
  import opened LabelExpr
  import opened Diagram
  import opened Syntax
  import opened Canonical
  import opened Tables
  import opened Groups

  // ---- Order of member keys

  predicate KeyLt(a: Key, b: Key) {
    StrLt(a.0, b.0) || (a.0 == b.0 && StrLt(a.1, b.1))
  }

  lemma KeyTotal(a: Key, b: Key)
    ensures a == b || KeyLt(a, b) || KeyLt(b, a)
  {
    StrLtTotal(a.0, b.0);
    StrLtTotal(a.1, b.1);
  }

  lemma KeyTransitive(a: Key, b: Key, c: Key)
    requires KeyLt(a, b) && KeyLt(b, c)
    ensures KeyLt(a, c)
  {
    if StrLt(a.0, b.0) && StrLt(b.0, c.0) { StrLtTransitive(a.0, b.0, c.0); }
    StrLtIrreflexive(a.0);
    if a.0 == b.0 == c.0 { StrLtTransitive(a.1, b.1, c.1); }
  }

  lemma KeyIrreflexive(a: Key)
    ensures !KeyLt(a, a)
  {
    StrLtIrreflexive(a.0);
    StrLtIrreflexive(a.1);
  }

  predicate StrictlySorted(s: seq<Key>) {
    forall i, j :: 0 <= i < j < |s| ==> KeyLt(s[i], s[j])
  }

  function InsertKey(k: Key, s: seq<Key>): seq<Key> {
    if s == [] || !KeyLt(s[0], k) then [k] + s else [s[0]] + InsertKey(k, s[1..])
  }

  function SortKeys(s: seq<Key>): seq<Key> {
    if s == [] then [] else InsertKey(s[0], SortKeys(s[1..]))
  }

  lemma {:induction false} InsertSorts(k: Key, s: seq<Key>)
    requires StrictlySorted(s) && k !in s
    ensures StrictlySorted(InsertKey(k, s))
    ensures forall x :: x in InsertKey(k, s) <==> x == k || x in s
  {
    if s == [] {
    } else if !KeyLt(s[0], k) {
      KeyTotal(k, s[0]);
      forall j | 0 <= j < |s| ensures KeyLt(k, s[j]) {
        if j > 0 { KeyTransitive(k, s[0], s[j]); }
      }
    } else {
      InsertSorts(k, s[1..]);
      var r := InsertKey(k, s[1..]);
      forall j | 0 <= j < |r| ensures KeyLt(s[0], r[j]) {
        assert r[j] in r;
        if r[j] != k {
          var m :| 0 <= m < |s[1..]| && s[1..][m] == r[j];
          assert s[m + 1] == r[j];
        }
      }
      assert forall x :: x in s <==> x == s[0] || x in s[1..];
    }
  }

  ghost predicate AllDistinct(s: seq<Key>) {
    forall i, j :: 0 <= i < j < |s| ==> s[i] != s[j]
  }

  lemma {:induction false} SortSorts(s: seq<Key>)
    requires AllDistinct(s)
    ensures StrictlySorted(SortKeys(s))
    ensures forall x :: x in SortKeys(s) <==> x in s
  {
    if s != [] {
      SortSorts(s[1..]);
      assert s[0] !in s[1..];
      InsertSorts(s[0], SortKeys(s[1..]));
      assert forall x :: x in s <==> x == s[0] || x in s[1..];
    }
  }

  lemma SomeElement<T>(s: seq<T>)
    ensures s != [] ==> exists x :: x in s
  {
    if s != [] { assert s[0] in s; }
  }

  /** A strictly sorted list is determined by its elements. */
  lemma {:induction false} SortedUnique(s: seq<Key>, t: seq<Key>)
    requires StrictlySorted(s) && StrictlySorted(t)
    requires forall x :: x in s <==> x in t
    ensures s == t
  {
    SomeElement(t);
    if s != [] {
      assert s[0] in s && t != [];
      assert t[0] in t;
      LeastIsFirst(s, t[0]);
      LeastIsFirst(t, s[0]);
      KeyIrreflexive(s[0]);
      if s[0] != t[0] { KeyTransitive(s[0], t[0], s[0]); }
      forall x ensures x in s[1..] <==> x in t[1..] {
        HeadIsGone(s);
        HeadIsGone(t);
        assert x in s <==> x == s[0] || x in s[1..];
        assert x in t <==> x == t[0] || x in t[1..];
      }
      SortedUnique(s[1..], t[1..]);
    }
  }

  lemma LeastIsFirst(s: seq<Key>, x: Key)
    requires StrictlySorted(s) && x in s
    ensures x == s[0] || KeyLt(s[0], x)
  {
  }

  lemma HeadIsGone(s: seq<Key>)
    requires StrictlySorted(s) && s != []
    ensures s[0] !in s[1..]
  {
    if s[0] in s[1..] {
      var j :| 0 <= j < |s[1..]| && s[1..][j] == s[0];
      assert KeyLt(s[0], s[j + 1]);
      KeyIrreflexive(s[0]);
    }
  }

  // ---- Names

  const PREFIX := "@tool:skuld:skuld_group_"

  /** What is hashed: each member's two fields, each followed by a NUL. */
  function Encode(members: seq<Key>): string {
    if members == [] then "" else members[0].0 + ['\0'] + (members[0].1 + ['\0'] + Encode(members[1..]))
  }

  function GroupName(members: seq<Key>, hash: string -> string): string {
    PREFIX + hash(Encode(members))
  }

  predicate NulFree(members: seq<Key>) {
    forall i :: 0 <= i < |members| ==> '\0' !in members[i].0 && '\0' !in members[i].1
  }

  lemma ShorterFieldDiffers(a: string, x: string, b: string, y: string)
    requires '\0' !in b && |a| < |b|
    ensures a + ['\0'] + x != b + ['\0'] + y
  {
    var s, t := a + ['\0'] + x, b + ['\0'] + y;
    assert s[|a|] == '\0' && t[|a|] == b[|a|] && b[|a|] in b;
  }

  lemma FieldInjective(a: string, x: string, b: string, y: string)
    requires '\0' !in a && '\0' !in b && a + ['\0'] + x == b + ['\0'] + y
    ensures a == b && x == y
  {
    if |a| != |b| {
      if |a| < |b| { ShorterFieldDiffers(a, x, b, y); } else { ShorterFieldDiffers(b, y, a, x); }
    } else {
      var s, t := a + ['\0'] + x, b + ['\0'] + y;
      assert s[..|a|] == a && t[..|a|] == b && s[|a| + 1..] == x && t[|a| + 1..] == y;
    }
  }

  /** Member lists without NUL bytes are encoded injectively. */
  lemma {:induction false} EncodeInjective(ms: seq<Key>, ns: seq<Key>)
    requires NulFree(ms) && NulFree(ns) && Encode(ms) == Encode(ns)
    ensures ms == ns
  {
    if ms != [] && ns != [] {
      var m, n := ms[0], ns[0];
      FieldInjective(m.0, m.1 + ['\0'] + Encode(ms[1..]), n.0, n.1 + ['\0'] + Encode(ns[1..]));
      FieldInjective(m.1, Encode(ms[1..]), n.1, Encode(ns[1..]));
      EncodeInjective(ms[1..], ns[1..]);
      assert ms == [m] + ms[1..] && ns == [n] + ns[1..];
    }
  }

  // ---- Listing by name

  predicate NamesSorted(gs: seq<Group>) {
    forall i, j :: 0 <= i < j < |gs| ==> StrLt(gs[i].name, gs[j].name)
  }

  /** `by_name.insert` into an ordered map, for a name it does not have yet. */
  function InsertGroup(g: Group, gs: seq<Group>): seq<Group> {
    if gs == [] || StrLt(g.name, gs[0].name) then [g] + gs else [gs[0]] + InsertGroup(g, gs[1..])
  }

  predicate HasName(gs: seq<Group>, name: string) {
    exists i :: 0 <= i < |gs| && gs[i].name == name
  }

  lemma {:induction false} InsertGroupSorts(g: Group, gs: seq<Group>)
    requires NamesSorted(gs) && !HasName(gs, g.name)
    ensures NamesSorted(InsertGroup(g, gs))
    ensures forall x :: x in InsertGroup(g, gs) <==> x == g || x in gs
  {
    if gs == [] {
    } else if StrLt(g.name, gs[0].name) {
      forall j | 0 <= j < |gs| ensures StrLt(g.name, gs[j].name) {
        if j > 0 { StrLtTransitive(g.name, gs[0].name, gs[j].name); }
      }
    } else {
      StrLtTotal(g.name, gs[0].name);
      InsertGroupSorts(g, gs[1..]);
      var r := InsertGroup(g, gs[1..]);
      forall j | 0 <= j < |r| ensures StrLt(gs[0].name, r[j].name) {
        assert r[j] in r;
        if r[j] != g {
          var m :| 0 <= m < |gs[1..]| && gs[1..][m] == r[j];
          assert gs[m + 1] == r[j];
        }
      }
      assert forall x :: x in gs <==> x == gs[0] || x in gs[1..];
    }
  }

  /** A list of groups sorted by name is determined by its elements. */
  lemma {:induction false} ListingUnique(gs: seq<Group>, hs: seq<Group>)
    requires NamesSorted(gs) && NamesSorted(hs)
    requires forall x :: x in gs <==> x in hs
    ensures gs == hs
  {
    SomeElement(hs);
    if gs != [] {
      assert gs[0] in gs && hs != [];
      assert hs[0] in hs;
      StrLtIrreflexive(gs[0].name);
      if gs[0] != hs[0] { StrLtTransitive(gs[0].name, hs[0].name, gs[0].name); }
      forall x ensures x in gs[1..] <==> x in hs[1..] {
        assert x in gs <==> x == gs[0] || x in gs[1..];
        assert x in hs <==> x == hs[0] || x in hs[1..];
        FirstIsGone(gs);
        FirstIsGone(hs);
      }
      ListingUnique(gs[1..], hs[1..]);
    }
  }

  lemma FirstIsGone(gs: seq<Group>)
    requires NamesSorted(gs) && gs != []
    ensures gs[0] !in gs[1..]
  {
    if gs[0] in gs[1..] {
      var j :| 0 <= j < |gs[1..]| && gs[1..][j] == gs[0];
      assert StrLt(gs[0].name, gs[j + 1].name);
      StrLtIrreflexive(gs[0].name);
    }
  }

  // ---- build_groups

  function KeysOf(tests: seq<Meta>, indices: seq<nat>): seq<Key>
    requires forall k :: 0 <= k < |indices| ==> indices[k] < |tests|
  {
    seq(|indices|, k requires 0 <= k < |indices| => KeyOf(tests[indices[k]]))
  }

  function MembersOf(tests: seq<Meta>, indices: seq<nat>): seq<Key>
    requires forall k :: 0 <= k < |indices| ==> indices[k] < |tests|
  {
    SortKeys(KeysOf(tests, indices))
  }

  ghost predicate DistinctTests(tests: seq<Meta>) {
    forall i, j :: 0 <= i < j < |tests| ==> KeyOf(tests[i]) != KeyOf(tests[j])
  }

  /** `g` lists exactly the tests connected to test `i`, in order, under the name derived from them. */
  ghost predicate IsGroupOf(tests: seq<Meta>, i: nat, g: Group, hash: string -> string, render: Bdd -> Expr) {
    && StrictlySorted(g.members)
    && (forall k :: k in g.members <==> MemberOf(tests, i, k, render))
    && g.name == GroupName(g.members, hash)
  }

  ghost predicate MemberOf(tests: seq<Meta>, i: nat, k: Key, render: Bdd -> Expr) {
    exists j :: 0 <= j < |tests| && Connected(tests, i, j, render) && KeyOf(tests[j]) == k
  }

  ghost predicate HasPartner(tests: seq<Meta>, i: nat, render: Bdd -> Expr) {
    exists j :: 0 <= j < |tests| && j != i && Connected(tests, i, j, render)
  }

  /** The groups are exactly the components of more than one test, listed by name. */
  ghost predicate IsGrouping(tests: seq<Meta>, gs: seq<Group>, hash: string -> string, render: Bdd -> Expr) {
    && NamesSorted(gs)
    && forall g :: g in gs <==> IsSomeGroup(tests, g, hash, render)
  }

  ghost predicate IsSomeGroup(tests: seq<Meta>, g: Group, hash: string -> string, render: Bdd -> Expr) {
    exists i :: 0 <= i < |tests| && HasPartner(tests, i, render) && IsGroupOf(tests, i, g, hash, render)
  }

  /** The group made from the class of representative `r`. */
  ghost function GroupFor(tests: seq<Meta>, rep: seq<nat>, r: nat, hash: string -> string): Group
    requires |rep| == |tests|
  {
    var members := MembersOf(tests, Class(rep, r, |rep|));
    Group(GroupName(members, hash), members)
  }

  ghost predicate MadeBelow(tests: seq<Meta>, rep: seq<nat>, q: nat, g: Group, hash: string -> string)
    requires |rep| == |tests|
  {
    exists r :: 0 <= r < q && |Class(rep, r, |rep|)| > 1 && g == GroupFor(tests, rep, r, hash)
  }

  /** Two classes whose groups would get one name. */
  ghost predicate Clash(tests: seq<Meta>, rep: seq<nat>, q: nat, r: nat, hash: string -> string)
    requires |rep| == |tests|
  {
    && |Class(rep, q, |rep|)| > 1 && |Class(rep, r, |rep|)| > 1
    && GroupFor(tests, rep, q, hash).name == GroupFor(tests, rep, r, hash).name
    && GroupFor(tests, rep, q, hash).members != GroupFor(tests, rep, r, hash).members
  }

  /** `by_name.insert` with the assertion that follows a collision. */
  function AddGroup(g: Group, gs: seq<Group>): Result<seq<Group>> {
    if HasName(gs, g.name) then if g in gs then Ok(gs) else Err
    else Ok(InsertGroup(g, gs))
  }

  lemma AddGroupKeeps(g: Group, gs: seq<Group>)
    requires NamesSorted(gs)
    ensures AddGroup(g, gs).Ok? ==>
              && NamesSorted(AddGroup(g, gs).value)
              && forall x :: x in AddGroup(g, gs).value <==> x == g || x in gs
    ensures AddGroup(g, gs).Err? ==> exists h :: h in gs && h.name == g.name && h.members != g.members
  {
    if HasName(gs, g.name) {
      var i :| 0 <= i < |gs| && gs[i].name == g.name;
      assert gs[i] in gs;
    } else {
      InsertGroupSorts(g, gs);
    }
  }

  /** `result` lists the groups of all classes below `q`, or two of them clash. */
  ghost predicate ListsBelow(tests: seq<Meta>, rep: seq<nat>, q: nat, result: Result<seq<Group>>,
                             hash: string -> string)
    requires |rep| == |tests|
  {
    match result
    case Ok(gs) => NamesSorted(gs) && forall g :: g in gs <==> MadeBelow(tests, rep, q, g, hash)
    case Err => exists a, b :: 0 <= a < q && 0 <= b < q && Clash(tests, rep, a, b, hash)
  }

  lemma ListNext(tests: seq<Meta>, rep: seq<nat>, r: nat, gs: seq<Group>, hash: string -> string)
    requires |rep| == |tests| && ListsBelow(tests, rep, r, Ok(gs), hash)
    ensures |Class(rep, r, |rep|)| > 1 ==>
              ListsBelow(tests, rep, r + 1, AddGroup(GroupFor(tests, rep, r, hash), gs), hash)
    ensures |Class(rep, r, |rep|)| <= 1 ==> ListsBelow(tests, rep, r + 1, Ok(gs), hash)
  {
    forall g ensures MadeBelow(tests, rep, r + 1, g, hash) <==>
                     || MadeBelow(tests, rep, r, g, hash)
                     || (|Class(rep, r, |rep|)| > 1 && g == GroupFor(tests, rep, r, hash))
    {
      MadeNext(tests, rep, r, g, hash);
    }
    if |Class(rep, r, |rep|)| > 1 {
      var g := GroupFor(tests, rep, r, hash);
      AddGroupKeeps(g, gs);
      if AddGroup(g, gs).Err? {
        var h :| h in gs && h.name == g.name && h.members != g.members;
        var q :| 0 <= q < r && |Class(rep, q, |rep|)| > 1 && h == GroupFor(tests, rep, q, hash);
        assert Clash(tests, rep, q, r, hash);
      }
    }
  }

  lemma MadeNext(tests: seq<Meta>, rep: seq<nat>, r: nat, g: Group, hash: string -> string)
    requires |rep| == |tests|
    ensures MadeBelow(tests, rep, r + 1, g, hash) <==>
            || MadeBelow(tests, rep, r, g, hash)
            || (|Class(rep, r, |rep|)| > 1 && g == GroupFor(tests, rep, r, hash))
  {
    if MadeBelow(tests, rep, r, g, hash) {
      var q :| 0 <= q < r && |Class(rep, q, |rep|)| > 1 && g == GroupFor(tests, rep, q, hash);
      assert 0 <= q < r + 1;
    }
  }

  lemma ClashStays(tests: seq<Meta>, rep: seq<nat>, q: nat, n: nat, hash: string -> string)
    requires |rep| == |tests| && q <= n && ListsBelow(tests, rep, q, Err, hash)
    ensures ListsBelow(tests, rep, n, Err, hash)
  {
  }

  /** The loop over components; `Err` is the failed assertion about two member sets under one name. */
  method ListGroups(tests: seq<Meta>, hash: string -> string, render: Bdd -> Expr)
    returns (result: Result<seq<Group>>, ghost rep: seq<nat>)
    requires IsRenderer(render)
    ensures IsPartition(tests, rep, render) && forall i :: 0 <= i < |rep| ==> rep[i] < |rep|
    ensures ListsBelow(tests, rep, |tests|, result, hash)
  {
    var reps := Classify(tests, render);
    rep := reps;
    var components := Components(reps);
    var byName: seq<Group> := [];
    for r := 0 to |tests|
      invariant ListsBelow(tests, reps, r, Ok(byName), hash)
    {
      ListNext(tests, reps, r, byName, hash);
      if r in components && |components[r]| > 1 {
        var members := MembersOf(tests, components[r]);
        var added := AddGroup(Group(GroupName(members, hash), members), byName);
        if added.Err? {
          ClashStays(tests, reps, r + 1, |tests|, hash);
          return Err, reps;
        }
        byName := added.value;
      } else {
        SmallClass(reps, r, components);
      }
    }
    return Ok(byName), reps;
  }

  lemma SmallClass(rep: seq<nat>, r: nat, components: map<nat, seq<nat>>)
    requires components.Keys == set i | 0 <= i < |rep| :: rep[i]
    requires forall q :: q in components ==> components[q] == Class(rep, q, |rep|)
    requires r !in components || |components[r]| <= 1
    ensures |Class(rep, r, |rep|)| <= 1
  {
    if r !in components {
      forall i | 0 <= i < |rep| ensures rep[i] != r { assert rep[i] in components; }
      EmptyClass(rep, r, |rep|);
    }
  }

  // ---- What the result means

  lemma ClassIsComponent(tests: seq<Meta>, rep: seq<nat>, i: nat, render: Bdd -> Expr)
    requires IsPartition(tests, rep, render) && i < |tests|
    ensures forall j: nat :: j in Class(rep, rep[i], |rep|) <==> j < |tests| && Connected(tests, i, j, render)
    ensures |Class(rep, rep[i], |rep|)| > 1 <==> HasPartner(tests, i, render)
  {
    var c := Class(rep, rep[i], |rep|);
    ClassMembers(rep, rep[i], |rep|);
    assert i in c;
    if |c| > 1 {
      var j := if c[0] == i then c[1] else c[0];
      assert j in c && j != i;
    }
    if HasPartner(tests, i, render) {
      var j :| 0 <= j < |tests| && j != i && Connected(tests, i, j, render);
      assert j in c;
    }
  }

  lemma GroupForIsGroupOf(tests: seq<Meta>, rep: seq<nat>, i: nat, hash: string -> string, render: Bdd -> Expr)
    requires IsPartition(tests, rep, render) && DistinctTests(tests) && i < |tests|
    ensures IsGroupOf(tests, i, GroupFor(tests, rep, rep[i], hash), hash, render)
  {
    var c := Class(rep, rep[i], |rep|);
    ClassMembers(rep, rep[i], |rep|);
    ClassIsComponent(tests, rep, i, render);
    var keys := KeysOf(tests, c);
    forall a, b | 0 <= a < b < |keys| ensures keys[a] != keys[b] {
      assert c[a] < c[b];
      assert KeyOf(tests[c[a]]) != KeyOf(tests[c[b]]);
    }
    SortSorts(keys);
    forall k ensures k in keys <==> MemberOf(tests, i, k, render) {
      if k in keys {
        var a :| 0 <= a < |keys| && keys[a] == k;
        assert c[a] in c;
      }
      if MemberOf(tests, i, k, render) {
        var j :| 0 <= j < |tests| && Connected(tests, i, j, render) && KeyOf(tests[j]) == k;
        assert j in c;
        var a :| 0 <= a < |c| && c[a] == j;
        assert keys[a] == k;
      }
    }
  }

  /** A component has one group. */
  lemma GroupUnique(tests: seq<Meta>, i: nat, g: Group, h: Group, hash: string -> string, render: Bdd -> Expr)
    requires IsGroupOf(tests, i, g, hash, render) && IsGroupOf(tests, i, h, hash, render)
    ensures g == h
  {
    SortedUnique(g.members, h.members);
  }

  /** A listing of all classes' groups is exactly the components of more than one test. */
  lemma ListingIsGrouping(tests: seq<Meta>, rep: seq<nat>, gs: seq<Group>, hash: string -> string, render: Bdd -> Expr)
    requires IsPartition(tests, rep, render) && DistinctTests(tests) && ListsBelow(tests, rep, |tests|, Ok(gs), hash)
    requires forall i :: 0 <= i < |rep| ==> rep[i] < |rep|
    ensures IsGrouping(tests, gs, hash, render)
  {
    forall g ensures g in gs <==> IsSomeGroup(tests, g, hash, render) {
      if g in gs {
        assert MadeBelow(tests, rep, |tests|, g, hash);
        var r :| 0 <= r < |tests| && |Class(rep, r, |rep|)| > 1 && g == GroupFor(tests, rep, r, hash);
        ClassMembers(rep, r, |rep|);
        var i := Class(rep, r, |rep|)[0];
        assert i in Class(rep, r, |rep|);
        ClassIsComponent(tests, rep, i, render);
        GroupForIsGroupOf(tests, rep, i, hash, render);
      }
      if IsSomeGroup(tests, g, hash, render) {
        var i :| 0 <= i < |tests| && HasPartner(tests, i, render) && IsGroupOf(tests, i, g, hash, render);
        ClassIsComponent(tests, rep, i, render);
        GroupForIsGroupOf(tests, rep, i, hash, render);
        GroupUnique(tests, i, g, GroupFor(tests, rep, rep[i], hash), hash, render);
        assert MadeBelow(tests, rep, |tests|, g, hash);
      }
    }
  }

  /** No two member lists that occur hash alike. */
  ghost predicate CollisionFree(tests: seq<Meta>, hash: string -> string, render: Bdd -> Expr) {
    forall g, h | IsSomeGroup(tests, g, hash, render) && IsSomeGroup(tests, h, hash, render) ::
      hash(Encode(g.members)) == hash(Encode(h.members)) ==> Encode(g.members) == Encode(h.members)
  }

  ghost predicate NulFreeTests(tests: seq<Meta>) {
    forall i :: 0 <= i < |tests| ==> '\0' !in tests[i].binary && '\0' !in tests[i].name
  }

  lemma GroupNulFree(tests: seq<Meta>, g: Group, hash: string -> string, render: Bdd -> Expr)
    requires NulFreeTests(tests) && IsSomeGroup(tests, g, hash, render)
    ensures NulFree(g.members)
  {
    var i :| 0 <= i < |tests| && HasPartner(tests, i, render) && IsGroupOf(tests, i, g, hash, render);
    forall k | 0 <= k < |g.members| ensures '\0' !in g.members[k].0 && '\0' !in g.members[k].1 {
      assert g.members[k] in g.members && MemberOf(tests, i, g.members[k], render);
    }
  }

  lemma PrefixCancels(a: string, b: string)
    requires PREFIX + a == PREFIX + b
    ensures a == b
  {
    assert (PREFIX + a)[|PREFIX|..] == a && (PREFIX + b)[|PREFIX|..] == b;
  }

  /** With distinct, NUL-free names and no hash collision, the assertion never fires. */
  lemma NoClash(tests: seq<Meta>, rep: seq<nat>, q: nat, r: nat, hash: string -> string, render: Bdd -> Expr)
    requires IsPartition(tests, rep, render) && DistinctTests(tests) && NulFreeTests(tests)
    requires CollisionFree(tests, hash, render)
    ensures !Clash(tests, rep, q, r, hash)
  {
    if Clash(tests, rep, q, r, hash) {
      var g, h := GroupFor(tests, rep, q, hash), GroupFor(tests, rep, r, hash);
      ClassGroupOccurs(tests, rep, q, hash, render);
      ClassGroupOccurs(tests, rep, r, hash, render);
      PrefixCancels(hash(Encode(g.members)), hash(Encode(h.members)));
      GroupNulFree(tests, g, hash, render);
      GroupNulFree(tests, h, hash, render);
      EncodeInjective(g.members, h.members);
    }
  }

  lemma ClassGroupOccurs(tests: seq<Meta>, rep: seq<nat>, r: nat, hash: string -> string, render: Bdd -> Expr)
    requires IsPartition(tests, rep, render) && DistinctTests(tests) && |Class(rep, r, |rep|)| > 1
    ensures IsSomeGroup(tests, GroupFor(tests, rep, r, hash), hash, render)
  {
    ClassMembers(rep, r, |rep|);
    var i := Class(rep, r, |rep|)[0];
    assert i in Class(rep, r, |rep|);
    ClassIsComponent(tests, rep, i, render);
    GroupForIsGroupOf(tests, rep, i, hash, render);
  }

  /** `build_groups`: exactly the components of the conflict relation with more than one test. */
  method BuildGroups(tests: seq<Meta>, hash: string -> string, render: Bdd -> Expr)
    returns (result: Result<seq<Group>>)
    requires IsRenderer(render)
    ensures DistinctTests(tests) && result.Ok? ==> IsGrouping(tests, result.value, hash, render)
    ensures DistinctTests(tests) && NulFreeTests(tests) && CollisionFree(tests, hash, render) ==> result.Ok?
  {
    ghost var rep;
    result, rep := ListGroups(tests, hash, render);
    if DistinctTests(tests) {
      if result.Ok? {
        ListingIsGrouping(tests, rep, result.value, hash, render);
      } else if NulFreeTests(tests) && CollisionFree(tests, hash, render) {
        forall a, b | 0 <= a < |tests| && 0 <= b < |tests| ensures !Clash(tests, rep, a, b, hash) {
          NoClash(tests, rep, a, b, hash, render);
        }
      }
    }
  }

  // ---- Order independence

  /** `other[i]` is `tests[at[i]]`, every index used once. */
  ghost predicate Permutes(tests: seq<Meta>, other: seq<Meta>, at: seq<nat>) {
    && |tests| == |other| == |at|
    && (forall i :: 0 <= i < |at| ==> at[i] < |tests| && other[i] == tests[at[i]])
    && (forall i, j :: 0 <= i < j < |at| ==> at[i] != at[j])
    && (forall j :: 0 <= j < |tests| ==> Hits(at, j))
  }

  ghost predicate Hits(at: seq<nat>, j: nat) {
    exists i :: 0 <= i < |at| && at[i] == j
  }

  lemma ConnectedCarries(tests: seq<Meta>, other: seq<Meta>, at: seq<nat>, a: nat, b: nat, render: Bdd -> Expr)
    requires |at| == |other| && a < |other| && b < |other|
    requires forall i :: 0 <= i < |at| ==> at[i] < |tests| && other[i] == tests[at[i]]
    requires Connected(other, a, b, render)
    ensures Connected(tests, at[a], at[b], render)
  {
    var p :| Joined(other, p, a, b, render);
    var q := seq(|p|, k requires 0 <= k < |p| => at[p[k]]);
    assert Joined(tests, q, at[a], at[b], render);
  }

  lemma Inverse(tests: seq<Meta>, other: seq<Meta>, at: seq<nat>) returns (back: seq<nat>)
    requires Permutes(tests, other, at)
    ensures |back| == |tests|
    ensures forall j :: 0 <= j < |tests| ==> back[j] < |other| && at[back[j]] == j && tests[j] == other[back[j]]
    ensures forall i :: 0 <= i < |at| ==> back[at[i]] == i
  {
    back := [];
    for n := 0 to |tests|
      invariant |back| == n
      invariant forall j :: 0 <= j < n ==> back[j] < |other| && at[back[j]] == j
    {
      assert Hits(at, n);
      var i :| 0 <= i < |at| && at[i] == n;
      back := back + [i];
    }
  }

  /** Test `at[i]` of the one order has the group test `i` has in the other. */
  lemma GroupCarries(tests: seq<Meta>, other: seq<Meta>, at: seq<nat>, back: seq<nat>, i: nat, g: Group,
                     hash: string -> string, render: Bdd -> Expr)
    requires |at| == |other| && |back| == |tests| && i < |other|
    requires forall k :: 0 <= k < |at| ==> at[k] < |tests| && other[k] == tests[at[k]] && back[at[k]] == k
    requires forall j :: 0 <= j < |tests| ==> back[j] < |other| && tests[j] == other[back[j]] && at[back[j]] == j
    requires HasPartner(other, i, render) && IsGroupOf(other, i, g, hash, render)
    ensures HasPartner(tests, at[i], render) && IsGroupOf(tests, at[i], g, hash, render)
  {
    var j :| 0 <= j < |other| && j != i && Connected(other, i, j, render);
    ConnectedCarries(tests, other, at, i, j, render);
    assert at[j] != at[i] by { assert back[at[i]] == i && back[at[j]] == j; }
    forall k ensures MemberOf(other, i, k, render) <==> MemberOf(tests, at[i], k, render) {
      if MemberOf(other, i, k, render) {
        var m :| 0 <= m < |other| && Connected(other, i, m, render) && KeyOf(other[m]) == k;
        ConnectedCarries(tests, other, at, i, m, render);
        assert KeyOf(tests[at[m]]) == k;
      }
      if MemberOf(tests, at[i], k, render) {
        var m :| 0 <= m < |tests| && Connected(tests, at[i], m, render) && KeyOf(tests[m]) == k;
        ConnectedCarries(other, tests, back, at[i], m, render);
        assert KeyOf(other[back[m]]) == k;
      }
    }
  }

  /** Whatever the order of the input, the groups are the same, name for name and member for member. */
  lemma OrderIndependent(tests: seq<Meta>, other: seq<Meta>, at: seq<nat>, gs: seq<Group>, hs: seq<Group>,
                         hash: string -> string, render: Bdd -> Expr)
    requires Permutes(tests, other, at)
    requires IsGrouping(tests, gs, hash, render) && IsGrouping(other, hs, hash, render)
    ensures gs == hs
  {
    var back := Inverse(tests, other, at);
    forall g ensures g in gs <==> g in hs {
      if g in hs {
        var i :| 0 <= i < |other| && HasPartner(other, i, render) && IsGroupOf(other, i, g, hash, render);
        GroupCarries(tests, other, at, back, i, g, hash, render);
      }
      if g in gs {
        var i :| 0 <= i < |tests| && HasPartner(tests, i, render) && IsGroupOf(tests, i, g, hash, render);
        GroupCarries(other, tests, back, at, i, g, hash, render);
      }
    }
    ListingUnique(gs, hs);
  }

  // ---- Groups and admission

  ghost predicate ShareGroup(gs: seq<Group>, a: Meta, b: Meta) {
    exists g :: g in gs && KeyOf(a) in g.members && KeyOf(b) in g.members
  }

  /** Two different tests that conflict are members of one group. */
  lemma ConflictSharesGroup(tests: seq<Meta>, gs: seq<Group>, i: nat, j: nat,
                            hash: string -> string, render: Bdd -> Expr)
    requires IsRenderer(render) && DistinctTests(tests)
    requires IsGrouping(tests, gs, hash, render)
    requires i < |tests| && j < |tests| && i != j && Conflicts(tests[i], tests[j], render)
    ensures ShareGroup(gs, tests[i], tests[j])
  {
    ConnectedEdge(tests, i, j, render);
    ConnectedSelf(tests, i, render);
    var rep := PartitionExists(tests, render);
    var g := GroupFor(tests, rep, rep[i], hash);
    GroupForIsGroupOf(tests, rep, i, hash, render);
    assert HasPartner(tests, i, render);
    assert IsSomeGroup(tests, g, hash, render);
    assert MemberOf(tests, i, KeyOf(tests[i]), render) && MemberOf(tests, i, KeyOf(tests[j]), render);
    assert g in gs;
  }

  /** The running rows are those of the tests `at` names, none sharing a group with test `i`. */
  ghost predicate Schedules(tests: seq<Meta>, gs: seq<Group>, i: nat, db: Db, at: map<nat, nat>)
    requires i < |tests|
  {
    forall id :: id in db.running ==>
      && id in at && at[id] < |tests| && at[id] != i
      && db.running[id].filter == tests[at[id]].filter && LabelsOf(db, id) == tests[at[id]].labels
      && !ShareGroup(gs, tests[i], tests[at[id]])
  }

  /** A schedule that never overlaps two members of one group is never sent back by `can_start`. */
  lemma GroupsAdmit(tests: seq<Meta>, gs: seq<Group>, i: nat, db: Db, at: map<nat, nat>,
                    hash: string -> string, render: Bdd -> Expr)
    requires IsRenderer(render) && DistinctTests(tests) && Collected(tests)
    requires IsGrouping(tests, gs, hash, render)
    requires i < |tests| && Schedules(tests, gs, i, db, at)
    ensures CanStart(db, tests[i].labels, tests[i].filter, render)
  {
    CanStartIff(db, tests[i].labels, tests[i].filter, render);
    forall id | id in db.running ensures !RowConflicts(db, id, tests[i].labels, tests[i].filter) {
      var j := at[id];
      ConflictsIsConflict(tests[i], tests[j], render);
      if Conflicts(tests[i], tests[j], render) {
        ConflictSharesGroup(tests, gs, i, j, hash, render);
      }
    }
  }

  // ---- A pair

  /** What the group of two tests looks like in full, for arbitrary names and whichever comes first in the input. */
  lemma PairGroup(a: Meta, b: Meta, swapped: bool, gs: seq<Group>, hash: string -> string, render: Bdd -> Expr)
    requires IsRenderer(render) && Conflicts(a, b, render)
    requires Before(a.binary, b.binary) || (a.binary == b.binary && Before(a.name, b.name))
    requires IsGrouping(if swapped then [b, a] else [a, b], gs, hash, render)
    ensures gs == [Group("@tool:skuld:skuld_group_"
                         + hash(a.binary + "\0" + a.name + "\0" + b.binary + "\0" + b.name + "\0"),
                         [(a.binary, a.name), (b.binary, b.name)])]
  {
    var tests := if swapped then [b, a] else [a, b];
    var members := [KeyOf(a), KeyOf(b)];
    StrLtIsBefore(a.binary, b.binary);
    StrLtIsBefore(a.name, b.name);
    PairConnected(tests, render, a, b);
    PairText(a, b);
    var g := Group(GroupName(members, hash), members);
    forall i | 0 <= i < 2 ensures IsGroupOf(tests, i, g, hash, render) && HasPartner(tests, i, render) {
      PairMembers(tests, i, a, b, render);
      assert Connected(tests, i, 1 - i, render);
    }
    assert IsGroupOf(tests, 0, g, hash, render) && HasPartner(tests, 0, render);
    assert IsSomeGroup(tests, g, hash, render);
    forall h | h in gs ensures h == g {
      var i :| 0 <= i < |tests| && HasPartner(tests, i, render) && IsGroupOf(tests, i, h, hash, render);
      GroupUnique(tests, i, g, h, hash, render);
    }
    assert g in gs;
    OnlyOne(gs, g);
  }

  lemma PairConnected(tests: seq<Meta>, render: Bdd -> Expr, a: Meta, b: Meta)
    requires IsRenderer(render) && Conflicts(a, b, render) && (tests == [a, b] || tests == [b, a])
    ensures forall i, j :: 0 <= i < 2 && 0 <= j < 2 ==> Connected(tests, i, j, render)
  {
    ConflictsIsConflict(a, b, render);
    ConnectedSelf(tests, 0, render);
    ConnectedSelf(tests, 1, render);
    ConnectedEdge(tests, 0, 1, render);
    ConnectedEdge(tests, 1, 0, render);
  }

  lemma PairMembers(tests: seq<Meta>, i: nat, a: Meta, b: Meta, render: Bdd -> Expr)
    requires i < 2 && (tests == [a, b] || tests == [b, a])
    requires forall i, j :: 0 <= i < 2 && 0 <= j < 2 ==> Connected(tests, i, j, render)
    ensures forall k :: k in [KeyOf(a), KeyOf(b)] <==> MemberOf(tests, i, k, render)
  {
    assert Connected(tests, i, 0, render) && Connected(tests, i, 1, render);
    assert MemberOf(tests, i, KeyOf(tests[0]), render) && MemberOf(tests, i, KeyOf(tests[1]), render);
  }

  lemma PairText(a: Meta, b: Meta)
    ensures Encode([KeyOf(a), KeyOf(b)]) == a.binary + "\0" + a.name + "\0" + b.binary + "\0" + b.name + "\0"
  {
    var x, y := KeyOf(a), KeyOf(b);
    assert [x, y][1..] == [y] && [y][1..] == [];
    assert Encode([y]) == y.0 + ['\0'] + (y.1 + ['\0'] + "");
    assert "\0" == ['\0'];
  }

  lemma TwoDiffer(gs: seq<Group>)
    requires NamesSorted(gs) && |gs| > 1
    ensures gs[0] != gs[1]
  {
    StrLtIrreflexive(gs[0].name);
  }

  lemma OnlyOne(gs: seq<Group>, g: Group)
    requires NamesSorted(gs) && g in gs && forall h :: h in gs ==> h == g
    ensures gs == [g]
  {
    forall i | 0 <= i < |gs| ensures gs[i] == g { assert gs[i] in gs; }
    assert |gs| <= 1 by {
      if |gs| > 1 { TwoDiffer(gs); }
    }
  }
}
