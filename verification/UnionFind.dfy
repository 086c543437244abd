/**
 Disjoint sets over 0..n, kept in two arrays: union by rank, find by walking up.
 */
module UnionFind {

  /** `parent` is a forest whose roots are the representatives; ranks grow on the way up. */
  ghost predicate Forest(parent: seq<nat>, rank: seq<nat>, rep: seq<nat>, height: nat) {
    && |parent| == |rank| == |rep|
    && (forall i :: 0 <= i < |rep| ==> rep[i] < |rep| && parent[i] < |rep|)
    && (forall i :: 0 <= i < |rep| ==> parent[rep[i]] == rep[i])
    && (forall i :: 0 <= i < |rep| ==> rep[parent[i]] == rep[i])
    && (forall i :: 0 <= i < |rep| && parent[i] == i ==> rep[i] == i)
    && (forall i :: 0 <= i < |rep| && parent[i] != i ==> rank[i] < rank[parent[i]])
    && (forall i :: 0 <= i < |rep| ==> rank[i] <= height)
  }

  function Relabel(rep: seq<nat>, low: nat, top: nat): seq<nat> {
    seq(|rep|, i requires 0 <= i < |rep| => if rep[i] == low then top else rep[i])
  }

  /** Hanging one root below another of no smaller rank leaves a forest. */
  lemma LinkRoots(parent: seq<nat>, rank: seq<nat>, rep: seq<nat>, height: nat, low: nat, top: nat)
    requires Forest(parent, rank, rep, height) && low < |rep| && top < |rep| && low != top
    requires parent[low] == low && parent[top] == top && rank[low] <= rank[top]
    ensures rank[low] < rank[top] ==> Forest(parent[low := top], rank, Relabel(rep, low, top), height)
    ensures Forest(parent[low := top], rank[top := rank[top] + 1], Relabel(rep, low, top), height + 1)
  {
  }

  class Partition {
    var parent: seq<nat>
    var rank: seq<nat>
    /** The representative of every element. */
    ghost var rep: seq<nat>
    /** A bound on all ranks, which the walk up cannot pass. */
    ghost var height: nat

    ghost predicate Valid()
      reads this
    {
      Forest(parent, rank, rep, height)
    }

    constructor (n: nat)
      ensures Valid() && |rep| == n && forall i :: 0 <= i < n ==> rep[i] == i
    {
      parent := seq(n, i => i);
      rank := seq(n, _ => 0);
      rep := seq(n, i => i);
      height := 0;
    }

    method Find(x: nat) returns (r: nat)
      requires Valid() && x < |rep|
      ensures r == rep[x] && r < |rep| && parent[r] == r
    {
      r := x;
      while parent[r] != r
        invariant r < |rep| && rep[r] == rep[x]
        decreases height - rank[r]
      {
        r := parent[r];
      }
    }

    /** `find` of every element in turn. */
    method FindAll() returns (found: seq<nat>)
      requires Valid()
      ensures found == rep && forall i :: 0 <= i < |rep| ==> rep[i] < |rep|
    {
      found := [];
      for i := 0 to |parent|
        invariant found == rep[..i]
      {
        var r := Find(i);
        found := found + [r];
      }
    }

    /** The class of one becomes part of the class of the other; every other class stays. */
    method Union(x: nat, y: nat)
      requires Valid() && x < |rep| && y < |rep|
      modifies this
      ensures Valid()
      ensures || rep == Relabel(old(rep), old(rep)[x], old(rep)[y])
              || rep == Relabel(old(rep), old(rep)[y], old(rep)[x])
    {
      var xr := Find(x);
      var yr := Find(y);
      if xr == yr {
        assert rep == Relabel(rep, xr, yr);
        return;
      }
      if rank[xr] < rank[yr] {
        Hang(xr, yr);
      } else {
        Hang(yr, xr);
      }
    }

    /** Root `low` goes below root `top`, whose rank grows on a tie. */
    method Hang(low: nat, top: nat)
      requires Valid() && low < |rep| && top < |rep| && low != top
      requires parent[low] == low && parent[top] == top && rank[low] <= rank[top]
      modifies this
      ensures Valid() && rep == Relabel(old(rep), low, top)
    {
      LinkRoots(parent, rank, rep, height, low, top);
      if rank[low] == rank[top] {
        parent, rank, rep, height := parent[low := top], rank[top := rank[top] + 1], Relabel(rep, low, top), height + 1;
      } else {
        parent, rep := parent[low := top], Relabel(rep, low, top);
      }
    }
  }

  /** After a union, two elements share a class iff they did, or each was in one of the two classes. */
  lemma UnionClasses(before: seq<nat>, after: seq<nat>, x: nat, y: nat, a: nat, b: nat)
    requires x < |before| && y < |before| && a < |before| && b < |before|
    requires after == Relabel(before, before[x], before[y]) || after == Relabel(before, before[y], before[x])
    ensures after[a] == after[b] <==>
            || before[a] == before[b]
            || (before[a] == before[x] && before[b] == before[y])
            || (before[a] == before[y] && before[b] == before[x])
  {
  }
}
