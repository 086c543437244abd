/**
 The release check: the version tags nearest to HEAD, found by a breadth-first
 search that stops at tagged commits, and the rule for the next version.
 */
module NearestTags {
  import opened Instance

  datatype Version = Version(major: nat, minor: nat, patch: nat)

  datatype Tag = Tag(name: string, sha: nat, version: Version)

  /** Commits known to the repository with their parents, and the version tags by commit. */
  datatype Repo = Repo(parents: map<nat, seq<nat>>, tags: map<nat, seq<Tag>>)

  predicate Parent(repo: Repo, c: nat, p: nat) {
    c in repo.parents && p in repo.parents[c]
  }

  // ---- Paths through the history

  ghost predicate IsPath(repo: Repo, p: seq<nat>) {
    p != [] && forall i :: 0 <= i < |p| - 1 ==> Parent(repo, p[i], p[i + 1])
  }

  ghost predicate PathTo(repo: Repo, p: seq<nat>, from: nat, to: nat) {
    IsPath(repo, p) && p[0] == from && p[|p| - 1] == to
  }

  /** All commits of the path before its end are untagged. */
  ghost predicate Open(repo: Repo, p: seq<nat>) {
    forall i :: 0 <= i < |p| - 1 ==> p[i] !in repo.tags
  }

  ghost predicate OpenTo(repo: Repo, head: nat, c: nat) {
    exists p :: PathTo(repo, p, head, c) && Open(repo, p)
  }

  ghost predicate Ancestor(repo: Repo, c: nat, d: nat) {
    exists p :: PathTo(repo, p, d, c)
  }

  /** A tagged commit that some path from HEAD reaches before any other tag. */
  ghost predicate Nearest(repo: Repo, head: nat, c: nat) {
    c in repo.tags && OpenTo(repo, head, c)
  }

  lemma PathSnoc(repo: Repo, p: seq<nat>, c: nat)
    requires IsPath(repo, p) && Parent(repo, p[|p| - 1], c)
    ensures IsPath(repo, p + [c])
  {
    var q := p + [c];
    forall i | 0 <= i < |q| - 1 ensures Parent(repo, q[i], q[i + 1]) {
      if i < |p| - 1 { assert Parent(repo, p[i], p[i + 1]); }
    }
  }

  lemma PathSlice(repo: Repo, p: seq<nat>, i: nat, j: nat)
    requires IsPath(repo, p) && i < j <= |p|
    ensures IsPath(repo, p[i..j])
  {
    var q := p[i..j];
    forall k | 0 <= k < |q| - 1 ensures Parent(repo, q[k], q[k + 1]) {
      assert Parent(repo, p[i + k], p[i + k + 1]);
    }
  }

  /** `q` starts where `p` ends. */
  lemma PathJoin(repo: Repo, p: seq<nat>, q: seq<nat>)
    requires IsPath(repo, p) && IsPath(repo, q) && p[|p| - 1] == q[0]
    ensures PathTo(repo, p + q[1..], p[0], q[|q| - 1])
  {
    var r := p + q[1..];
    forall k | 0 <= k < |r| - 1 ensures Parent(repo, r[k], r[k + 1]) {
      if k < |p| - 1 {
        assert Parent(repo, p[k], p[k + 1]);
      } else {
        assert Parent(repo, q[k - |p| + 1], q[k - |p| + 1 + 1]);
      }
    }
  }

  // ---- The search

  /** The tags of the given commits, in order. */
  function TagsOf(repo: Repo, commits: seq<nat>): seq<Tag> {
    if commits == [] then []
    else
      var c := commits[|commits| - 1];
      TagsOf(repo, commits[..|commits| - 1]) + (if c in repo.tags then repo.tags[c] else [])
  }

  lemma {:induction false} TagsOfExactly(repo: Repo, commits: seq<nat>, t: Tag)
    ensures t in TagsOf(repo, commits) <==> exists c :: c in commits && c in repo.tags && t in repo.tags[c]
  {
    if commits != [] {
      var most, last := commits[..|commits| - 1], commits[|commits| - 1];
      TagsOfExactly(repo, most, t);
      assert commits == most + [last];
    }
  }

  ghost predicate Explored(repo: Repo, visited: set<nat>, queue: seq<nat>) {
    forall c, p :: c in visited && c !in repo.tags && Parent(repo, c, p) ==> p in visited || p in queue
  }

  ghost predicate AllOpen(repo: Repo, head: nat, visited: set<nat>, queue: seq<nat>) {
    forall c :: c in visited || c in queue ==> OpenTo(repo, head, c)
  }

  /** The tagged commits seen so far, once each, and their tags. */
  ghost predicate Recorded(repo: Repo, visited: set<nat>, found: seq<nat>, nearest: seq<Tag>) {
    && (forall c :: c in found <==> c in visited && c in repo.tags)
    && (forall i, j :: 0 <= i < j < |found| ==> found[i] != found[j])
    && nearest == TagsOf(repo, found)
  }

  lemma OpenParent(repo: Repo, head: nat, c: nat, parent: nat)
    requires OpenTo(repo, head, c) && c !in repo.tags && Parent(repo, c, parent)
    ensures OpenTo(repo, head, parent)
  {
    var p :| PathTo(repo, p, head, c) && Open(repo, p);
    PathSnoc(repo, p, parent);
    assert PathTo(repo, p + [parent], head, parent) && Open(repo, p + [parent]);
  }

  lemma RecordSnoc(repo: Repo, visited: set<nat>, found: seq<nat>, nearest: seq<Tag>, c: nat)
    requires Recorded(repo, visited, found, nearest) && c !in visited && c in repo.tags
    ensures Recorded(repo, visited + {c}, found + [c], nearest + repo.tags[c])
  {
    assert (found + [c])[..|found|] == found;
  }

  /** Once the queue is empty, everything an open path leads to has been visited. */
  lemma {:induction false} SearchComplete(repo: Repo, visited: set<nat>, p: seq<nat>, i: nat)
    requires Explored(repo, visited, []) && IsPath(repo, p) && Open(repo, p) && p[0] in visited && i < |p|
    ensures p[i] in visited
  {
    if i > 0 {
      SearchComplete(repo, visited, p, i - 1);
      assert Parent(repo, p[i - 1], p[i - 1 + 1]);
    }
  }

  /** The parents not yet visited, appended to the queue. */
  method Enqueue(parents: seq<nat>, visited: set<nat>, queue: seq<nat>) returns (queue': seq<nat>)
    ensures forall c :: c in queue' <==> c in queue || (c in parents && c !in visited)
    ensures queue <= queue'
  {
    queue' := queue;
    for k := 0 to |parents|
      invariant queue <= queue'
      invariant forall c :: c in queue' <==> c in queue || (c in parents[..k] && c !in visited)
    {
      if parents[k] !in visited { queue' := queue' + [parents[k]]; }
      assert parents[..k + 1] == parents[..k] + [parents[k]];
    }
    assert parents[..|parents|] == parents;
  }

  /**
   `nearest_ancestor_version_tags`: the tags of exactly the nearest commits, each
   commit's tags once and in their own order. `found` lists those commits.
   */
  method NearestAncestorTags(repo: Repo, head: Option<nat>) returns (nearest: seq<Tag>, ghost found: seq<nat>)
    ensures head.None? ==> nearest == []
    ensures head.Some? ==>
              && nearest == TagsOf(repo, found)
              && (forall i, j :: 0 <= i < j < |found| ==> found[i] != found[j])
              && (forall c :: c in found <==> Nearest(repo, head.value, c))
    ensures forall t :: t in nearest <==>
                        head.Some? && exists c :: Nearest(repo, head.value, c) && t in repo.tags[c]
  {
    nearest, found := [], [];
    if head.None? { return; }
    var visited: set<nat> := {};
    var queue := [head.value];
    assert PathTo(repo, [head.value], head.value, head.value) && Open(repo, [head.value]);
    while queue != []
      invariant AllOpen(repo, head.value, visited, queue)
      invariant Explored(repo, visited, queue)
      invariant Recorded(repo, visited, found, nearest)
      invariant head.value in visited || head.value in queue
      decreases repo.parents.Keys - visited, |queue|
    {
      var id, rest := queue[0], queue[1..];
      assert queue == [id] + rest;
      queue := rest;
      if id in visited { continue; }
      if id in repo.tags {
        RecordSnoc(repo, visited, found, nearest, id);
        visited, found, nearest := visited + {id}, found + [id], nearest + repo.tags[id];
        continue;
      }
      visited := visited + {id};
      if id !in repo.parents { continue; }
      queue := Enqueue(repo.parents[id], visited, queue);
      forall c | c in queue ensures OpenTo(repo, head.value, c) {
        if c !in rest { OpenParent(repo, head.value, id, c); }
      }
    }
    forall c ensures c in found <==> Nearest(repo, head.value, c) {
      if Nearest(repo, head.value, c) {
        var p :| PathTo(repo, p, head.value, c) && Open(repo, p);
        SearchComplete(repo, visited, p, |p| - 1);
      }
    }
    forall t ensures t in nearest <==> exists c :: Nearest(repo, head.value, c) && t in repo.tags[c] {
      TagsOfExactly(repo, found, t);
    }
  }

  // ---- What the nearest commits are

  lemma {:induction false} FirstTagged(repo: Repo, p: seq<nat>, k: nat) returns (i: nat)
    requires k < |p| && p[k] in repo.tags
    ensures i <= k && p[i] in repo.tags && forall m :: 0 <= m < i ==> p[m] !in repo.tags
  {
    i := k;
    if m :| 0 <= m < k && p[m] in repo.tags {
      i := FirstTagged(repo, p, m);
    }
  }

  /** Nothing tagged is missed: every tagged ancestor lies behind, or at, a nearest commit. */
  lemma TaggedAncestorsCovered(repo: Repo, head: nat, c: nat) returns (n: nat)
    requires c in repo.tags && Ancestor(repo, c, head)
    ensures Nearest(repo, head, n) && Ancestor(repo, c, n)
  {
    var p :| PathTo(repo, p, head, c);
    var i := FirstTagged(repo, p, |p| - 1);
    n := p[i];
    var front, back := p[..i + 1], p[i..];
    PathSlice(repo, p, 0, i + 1);
    PathSlice(repo, p, i, |p|);
    assert front == p[0..i + 1] && back == p[i..|p|];
    assert PathTo(repo, front, head, n) && Open(repo, front);
    assert PathTo(repo, back, n, c);
  }

  /** Commits cannot be their own proper ancestors. */
  ghost predicate Dag(repo: Repo) {
    forall p :: IsPath(repo, p) && |p| > 1 ==> p[0] != p[|p| - 1]
  }

  /** The module documentation's set: tagged ancestors of HEAD with no tagged descendant in HEAD's history. */
  ghost predicate Documented(repo: Repo, head: nat, c: nat) {
    && c in repo.tags && Ancestor(repo, c, head)
    && forall d :: d in repo.tags && d != c && Ancestor(repo, d, head) ==> !Ancestor(repo, c, d)
  }

  lemma DocumentedAreNearest(repo: Repo, head: nat, c: nat)
    requires Documented(repo, head, c)
    ensures Nearest(repo, head, c)
  {
    var n := TaggedAncestorsCovered(repo, head, c);
    assert Ancestor(repo, n, head);
  }

  /** Some path from HEAD to this commit passes another tag on its way. */
  ghost predicate HiddenPath(repo: Repo, head: nat, c: nat) {
    exists p :: PathTo(repo, p, head, c) && !Open(repo, p)
  }

  /** The search reports a commit against the documentation exactly when a second path to it passes a tag. */
  lemma OverreportedIff(repo: Repo, head: nat, c: nat)
    requires Dag(repo) && Nearest(repo, head, c)
    ensures Documented(repo, head, c) <==> !HiddenPath(repo, head, c)
  {
    if HiddenPath(repo, head, c) {
      var p :| PathTo(repo, p, head, c) && !Open(repo, p);
      var i :| 0 <= i < |p| - 1 && p[i] in repo.tags;
      SplitPath(repo, p, i);
      PathSlice(repo, p, i, |p|);
      assert p[i..|p|][0] != c;
    } else {
      assert Ancestor(repo, c, head);
      forall d | d in repo.tags && d != c && Ancestor(repo, d, head) ensures !Ancestor(repo, c, d) {
        if Ancestor(repo, c, d) { HidesBehind(repo, head, d, c); }
      }
    }
  }

  lemma SplitPath(repo: Repo, p: seq<nat>, i: nat)
    requires IsPath(repo, p) && i < |p|
    ensures Ancestor(repo, p[i], p[0]) && Ancestor(repo, p[|p| - 1], p[i])
  {
    PathSlice(repo, p, 0, i + 1);
    PathSlice(repo, p, i, |p|);
    assert PathTo(repo, p[0..i + 1], p[0], p[i]);
    assert PathTo(repo, p[i..|p|], p[i], p[|p| - 1]);
  }

  lemma HidesBehind(repo: Repo, head: nat, d: nat, c: nat)
    requires d in repo.tags && d != c && Ancestor(repo, d, head) && Ancestor(repo, c, d)
    ensures HiddenPath(repo, head, c)
  {
    var p :| PathTo(repo, p, head, d);
    var q :| PathTo(repo, q, d, c);
    PathJoin(repo, p, q);
    assert (p + q[1..])[|p| - 1] in repo.tags;
    assert !Open(repo, p + q[1..]);
  }

  /**
   The search returns the documented set if and only if no commit it returns is
   an ancestor of another one it returns.
   */
  lemma MatchesDocumentationIff(repo: Repo, head: nat)
    requires Dag(repo)
    ensures (forall c :: Nearest(repo, head, c) <==> Documented(repo, head, c)) <==>
            (forall n, c :: Nearest(repo, head, n) && Nearest(repo, head, c) && n != c ==> !Ancestor(repo, c, n))
  {
    if forall n, c :: Nearest(repo, head, n) && Nearest(repo, head, c) && n != c ==> !Ancestor(repo, c, n) {
      forall c ensures Nearest(repo, head, c) <==> Documented(repo, head, c) {
        if Documented(repo, head, c) { DocumentedAreNearest(repo, head, c); }
        if Nearest(repo, head, c) {
          assert Ancestor(repo, c, head);
          forall d | d in repo.tags && d != c && Ancestor(repo, d, head) ensures !Ancestor(repo, c, d) {
            if Ancestor(repo, c, d) { AncestorOfNearest(repo, head, c, d); }
          }
        }
      }
    }
    if forall c :: Nearest(repo, head, c) <==> Documented(repo, head, c) {
      forall n, c | Nearest(repo, head, n) && Nearest(repo, head, c) && n != c ensures !Ancestor(repo, c, n) {
        assert Documented(repo, head, c);
        assert Ancestor(repo, n, head);
      }
    }
  }

  /**
   The same over the history alone: no tagged commit is reached from HEAD both by
   an open path and by one that passes another tag.
   */
  lemma MatchesUnlessBypassed(repo: Repo, head: nat)
    requires Dag(repo)
    ensures (forall c :: Nearest(repo, head, c) <==> Documented(repo, head, c)) <==>
            (forall c :: c in repo.tags && OpenTo(repo, head, c) ==> !HiddenPath(repo, head, c))
  {
    forall c ensures Documented(repo, head, c) ==> Nearest(repo, head, c) {
      if Documented(repo, head, c) { DocumentedAreNearest(repo, head, c); }
    }
    forall c | Nearest(repo, head, c) ensures Documented(repo, head, c) <==> !HiddenPath(repo, head, c) {
      OverreportedIff(repo, head, c);
    }
  }

  lemma AncestorOfNearest(repo: Repo, head: nat, c: nat, d: nat)
    requires Dag(repo) && d in repo.tags && d != c && Ancestor(repo, d, head) && Ancestor(repo, c, d)
    ensures exists n :: Nearest(repo, head, n) && n != c && Ancestor(repo, c, n)
  {
    var n := TaggedAncestorsCovered(repo, head, d);
    var p :| PathTo(repo, p, n, d);
    var q :| PathTo(repo, q, d, c);
    PathJoin(repo, p, q);
    assert |p + q[1..]| > 1;
  }

  /** A merge of an untagged and a tagged branch over a tagged base. */
  const DIAMOND := Repo(
    map[0 := [], 1 := [0], 2 := [0], 3 := [1, 2]],
    map[0 := [Tag("v1.0.0", 0, Version(1, 0, 0))], 2 := [Tag("v1.1.0", 2, Version(1, 1, 0))]])

  /** The base is reported although the tagged branch descends from it. */
  lemma DiamondContradictsDocumentation()
    ensures Nearest(DIAMOND, 3, 0) && Nearest(DIAMOND, 3, 2) && !Documented(DIAMOND, 3, 0)
  {
    assert PathTo(DIAMOND, [3, 1, 0], 3, 0) && Open(DIAMOND, [3, 1, 0]);
    assert PathTo(DIAMOND, [3, 2], 3, 2) && Open(DIAMOND, [3, 2]);
    assert PathTo(DIAMOND, [2, 0], 2, 0);
    assert Ancestor(DIAMOND, 2, 3) && Ancestor(DIAMOND, 0, 2);
  }

  // ---- The version rule

  predicate Less(a: Version, b: Version) {
    a.major < b.major ||
    (a.major == b.major && (a.minor < b.minor || (a.minor == b.minor && a.patch < b.patch)))
  }

  predicate IsValidNext(tag: Version, cur: Version) {
    || cur == tag
    || (cur.major == tag.major && cur.minor == tag.minor && cur.patch == tag.patch + 1)
    || (cur.major == tag.major && cur.minor == tag.minor + 1 && cur.patch == 0)
    || (cur.major == tag.major + 1 && cur.minor == 0 && cur.patch == 0)
  }

  datatype Level = Major | Minor | Patch

  /** `b` comes after `a` and differs from it at this level or a higher one. */
  predicate Later(a: Version, b: Version, level: Level) {
    Less(a, b) &&
    match level
    case Patch => true
    case Minor => (a.major, a.minor) != (b.major, b.minor)
    case Major => a.major != b.major
  }

  ghost predicate Earliest(a: Version, b: Version, level: Level) {
    Later(a, b, level) && forall c :: Later(a, c, level) ==> c == b || Less(b, c)
  }

  /** A valid next version is the same one, or the very first one at some level. */
  lemma ValidNextIff(tag: Version, cur: Version)
    ensures IsValidNext(tag, cur) <==> cur == tag || exists level :: Earliest(tag, cur, level)
  {
    var patch := Version(tag.major, tag.minor, tag.patch + 1);
    var minor := Version(tag.major, tag.minor + 1, 0);
    var major := Version(tag.major + 1, 0, 0);
    assert Earliest(tag, patch, Patch) && Earliest(tag, minor, Minor) && Earliest(tag, major, Major);
    if level :| Earliest(tag, cur, level) {
      match level
      case Patch => assert Later(tag, patch, Patch);
      case Minor => assert Later(tag, minor, Minor);
      case Major => assert Later(tag, major, Major);
    }
  }

  /** `validate_cargo_against_nearest`; false is an error. */
  method Validate(cargo: Version, nearest: seq<Tag>, exact: bool) returns (ok: bool)
    ensures exact ==> (ok <==> exists t :: t in nearest && t.version == cargo)
    ensures !exact ==> (ok <==> nearest == [] || exists t :: t in nearest && IsValidNext(t.version, cargo))
  {
    if nearest == [] { return !exact; }
    for k := 0 to |nearest|
      invariant forall i :: 0 <= i < k ==>
                  if exact then nearest[i].version != cargo else !IsValidNext(nearest[i].version, cargo)
    {
      if (if exact then nearest[k].version == cargo else IsValidNext(nearest[k].version, cargo)) {
        assert nearest[k] in nearest;
        return true;
      }
    }
    return false;
  }

  /** `validate_against_tag`, from the workspace version on. */
  method ValidateAgainstTag(repo: Repo, head: Option<nat>, cargo: Version, exact: bool) returns (ok: bool)
    requires forall c :: c in repo.tags ==> repo.tags[c] != []
    ensures exact ==>
              (ok <==> head.Some? &&
                       exists c, t :: Nearest(repo, head.value, c) && t in repo.tags[c] && t.version == cargo)
    ensures !exact ==>
              (ok <==> (head.None? || forall c :: c in repo.tags ==> !Ancestor(repo, c, head.value))
                       || exists c, t :: Nearest(repo, head.value, c) && t in repo.tags[c]
                                         && IsValidNext(t.version, cargo))
  {
    ghost var found;
    var nearest;
    nearest, found := NearestAncestorTags(repo, head);
    ok := Validate(cargo, nearest, exact);
    if head.Some? { EmptyIff(repo, head.value, nearest); }
  }

  /** Nothing is found only where no ancestor is tagged. */
  lemma EmptyIff(repo: Repo, head: nat, nearest: seq<Tag>)
    requires forall c :: c in repo.tags ==> repo.tags[c] != []
    requires forall t :: t in nearest <==> exists c :: Nearest(repo, head, c) && t in repo.tags[c]
    ensures nearest == [] <==> forall c :: c in repo.tags ==> !Ancestor(repo, c, head)
  {
    if c :| c in repo.tags && Ancestor(repo, c, head) {
      var n := TaggedAncestorsCovered(repo, head, c);
      assert repo.tags[n][0] in nearest;
    }
    if nearest != [] {
      assert nearest[0] in nearest;
      var c :| Nearest(repo, head, c) && nearest[0] in repo.tags[c];
      assert Ancestor(repo, c, head);
    }
  }
}
