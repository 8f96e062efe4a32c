/** Union-find with path compression over node indices, the smaller root always surviving. */
module UnionFind {

  /** Parents never exceed their index, which is why every chase up the tree stops. */
  ghost predicate Descending(p: seq<nat>) {
    forall x :: 0 <= x < |p| ==> p[x] <= x
  }

  ghost function Root(p: seq<nat>, x: nat): (r: nat)
    requires Descending(p) && x < |p|
    ensures r <= x
    decreases x
  {
    if p[x] == x then x else Root(p, p[x])
  }

  lemma {:induction false} RootIsRoot(p: seq<nat>, x: nat)
    requires Descending(p) && x < |p|
    ensures p[Root(p, x)] == Root(p, x)
    ensures Root(p, Root(p, x)) == Root(p, x)
    decreases x
  {
    if p[x] != x {
      RootIsRoot(p, p[x]);
    }
  }

  /** Pointing a node straight at its root changes no root. */
  lemma {:induction false} CompressKeepsRoots(p: seq<nat>, c: nat, y: nat)
    requires Descending(p) && c < |p| && y < |p|
    ensures Descending(p[c := Root(p, c)])
    ensures Root(p[c := Root(p, c)], y) == Root(p, y)
    decreases y
  {
    RootIsRoot(p, c);
    if y == c {
      if p[c] != c {
        CompressKeepsRoots(p, c, Root(p, c));
      }
    } else if p[y] != y {
      CompressKeepsRoots(p, c, p[y]);
    }
  }

  /** Pointing one root at a smaller one merges their two trees and nothing else. */
  lemma {:induction false} MergeRoots(p: seq<nat>, lo: nat, hi: nat, y: nat)
    requires Descending(p) && lo < hi < |p| && y < |p|
    requires p[lo] == lo && p[hi] == hi
    ensures Descending(p[hi := lo])
    ensures Root(p[hi := lo], y) == if Root(p, y) == hi then lo else Root(p, y)
    decreases y
  {
    if y != hi && p[y] != y {
      MergeRoots(p, lo, hi, p[y]);
    }
  }

  // ---- what union-find is for: connectivity ----

  ghost predicate Joined(edges: seq<(nat, nat)>, a: nat, b: nat) {
    (a, b) in edges || (b, a) in edges
  }

  ghost predicate IsWalk(edges: seq<(nat, nat)>, w: seq<nat>, i: nat, j: nat) {
    && w != [] && w[0] == i && w[|w| - 1] == j
    && forall k :: 0 <= k < |w| - 1 ==> Joined(edges, w[k], w[k + 1])
  }

  /** Two indices are linked when a walk along the edges, in either direction, joins them. */
  ghost predicate Linked(edges: seq<(nat, nat)>, i: nat, j: nat) {
    exists w :: IsWalk(edges, w, i, j)
  }

  ghost function WalkOf(edges: seq<(nat, nat)>, i: nat, j: nat): (w: seq<nat>)
    requires Linked(edges, i, j)
    ensures IsWalk(edges, w, i, j)
  {
    var w :| IsWalk(edges, w, i, j);
    w
  }

  lemma LinkedRefl(edges: seq<(nat, nat)>, i: nat)
    ensures Linked(edges, i, i)
  {
    assert IsWalk(edges, [i], i, i);
  }

  lemma LinkedTrans(edges: seq<(nat, nat)>, i: nat, m: nat, j: nat)
    requires Linked(edges, i, m) && Linked(edges, m, j)
    ensures Linked(edges, i, j)
  {
    var v, w := WalkOf(edges, i, m), WalkOf(edges, m, j);
    var u := v + w[1..];
    forall k | 0 <= k < |u| - 1
      ensures Joined(edges, u[k], u[k + 1])
    {
      if k >= |v| - 1 {
        var l := k - (|v| - 1);
        assert u[k] == w[l] && u[k + 1] == w[l + 1];
      }
    }
    assert IsWalk(edges, u, i, j);
  }

  lemma LinkedStep(edges: seq<(nat, nat)>, i: nat, m: nat, j: nat)
    requires Linked(edges, i, m) && Joined(edges, m, j)
    ensures Linked(edges, i, j)
  {
    assert IsWalk(edges, [m, j], m, j);
    LinkedTrans(edges, i, m, j);
  }

  lemma LinkedSymm(edges: seq<(nat, nat)>, i: nat, j: nat)
    requires Linked(edges, i, j)
    ensures Linked(edges, j, i)
  {
    var w := WalkOf(edges, i, j);
    var u := seq(|w|, k requires 0 <= k < |w| => w[|w| - 1 - k]);
    forall k | 0 <= k < |u| - 1
      ensures Joined(edges, u[k], u[k + 1])
    {
      var l := |w| - 2 - k;
      assert Joined(edges, w[l], w[l + 1]);
    }
    assert IsWalk(edges, u, j, i);
  }

  lemma LinkedMore(edges: seq<(nat, nat)>, e: (nat, nat), i: nat, j: nat)
    requires Linked(edges, i, j)
    ensures Linked(edges + [e], i, j)
  {
    var w := WalkOf(edges, i, j);
    forall k | 0 <= k < |w| - 1
      ensures Joined(edges + [e], w[k], w[k + 1])
    {
      assert Joined(edges, w[k], w[k + 1]);
    }
    assert IsWalk(edges + [e], w, i, j);
  }

  ghost predicate LinkedVia(edges: seq<(nat, nat)>, a: nat, b: nat, i: nat, j: nat) {
    Linked(edges, i, j) || (Linked(edges, i, a) && Linked(edges, b, j)) || (Linked(edges, i, b) && Linked(edges, a, j))
  }

  lemma {:induction false} WalkViaEdge(edges: seq<(nat, nat)>, a: nat, b: nat, w: seq<nat>, i: nat, j: nat)
    requires IsWalk(edges + [(a, b)], w, i, j)
    ensures LinkedVia(edges, a, b, i, j)
    decreases |w|
  {
    LinkedRefl(edges, i);
    if |w| > 1 {
      var m := w[|w| - 2];
      WalkViaEdge(edges, a, b, w[..|w| - 1], i, m);
      assert Joined(edges + [(a, b)], w[|w| - 2], w[|w| - 2 + 1]);
      LinkedRefl(edges, j);
      if Joined(edges, m, j) {
        if Linked(edges, i, m) {
          LinkedStep(edges, i, m, j);
        } else if Linked(edges, b, m) && Linked(edges, i, a) {
          LinkedStep(edges, b, m, j);
        } else {
          LinkedStep(edges, a, m, j);
        }
      }
    }
  }

  /** One more edge links exactly what it bridges. */
  lemma LinkedSnoc(edges: seq<(nat, nat)>, a: nat, b: nat, i: nat, j: nat)
    ensures Linked(edges + [(a, b)], i, j) <==> LinkedVia(edges, a, b, i, j)
  {
    var more := edges + [(a, b)];
    if Linked(more, i, j) {
      WalkViaEdge(edges, a, b, WalkOf(more, i, j), i, j);
    }
    assert (a, b) in more;
    if Linked(edges, i, j) {
      LinkedMore(edges, (a, b), i, j);
    } else if Linked(edges, i, a) && Linked(edges, b, j) {
      LinkedMore(edges, (a, b), i, a);
      LinkedMore(edges, (a, b), b, j);
      LinkedStep(more, i, a, b);
      LinkedTrans(more, i, b, j);
    } else if Linked(edges, i, b) && Linked(edges, a, j) {
      LinkedMore(edges, (a, b), i, b);
      LinkedMore(edges, (a, b), a, j);
      LinkedStep(more, i, b, a);
      LinkedTrans(more, i, a, j);
    }
  }

  /** The forest answers connectivity of the edges united so far. */
  ghost predicate Represents(p: seq<nat>, edges: seq<(nat, nat)>) {
    && Descending(p)
    && forall i, j :: 0 <= i < |p| && 0 <= j < |p| ==> (Root(p, i) == Root(p, j) <==> Linked(edges, i, j))
  }

  lemma {:induction false} WithoutEdges(w: seq<nat>, i: nat, j: nat)
    requires IsWalk([], w, i, j)
    ensures i == j
  {
    assert |w| > 1 ==> !Joined([], w[0], w[0 + 1]);
  }

  /** The fresh forest represents the empty edge list. */
  lemma FreshRepresents(p: seq<nat>)
    requires forall x :: 0 <= x < |p| ==> p[x] == x
    ensures Represents(p, [])
  {
    forall i, j | 0 <= i < |p| && 0 <= j < |p|
      ensures Root(p, i) == Root(p, j) <==> Linked([], i, j)
    {
      LinkedRefl([], i);
      if Linked([], i, j) {
        WithoutEdges(WalkOf([], i, j), i, j);
      }
    }
  }

  /** Merging the two roots of an edge represents one more edge. */
  lemma UnionRepresents(p: seq<nat>, edges: seq<(nat, nat)>, a: nat, b: nat, p': seq<nat>)
    requires Represents(p, edges) && a < |p| && b < |p|
    requires var ra, rb := Root(p, a), Root(p, b);
      p' == if ra == rb then p else if ra < rb then p[rb := ra] else p[ra := rb]
    ensures Represents(p', edges + [(a, b)])
  {
    var ra, rb := Root(p, a), Root(p, b);
    RootIsRoot(p, a);
    RootIsRoot(p, b);
    forall i, j | 0 <= i < |p'| && 0 <= j < |p'|
      ensures Descending(p')
      ensures Root(p', i) == Root(p', j) <==> Linked(edges + [(a, b)], i, j)
    {
      LinkedSnoc(edges, a, b, i, j);
      if ra < rb {
        MergeRoots(p, ra, rb, i);
        MergeRoots(p, ra, rb, j);
      } else if rb < ra {
        MergeRoots(p, rb, ra, i);
        MergeRoots(p, rb, ra, j);
      }
    }
  }

  /** The root of an index is the least index linked to it, whatever the order of the unions. */
  lemma RootIsLeast(p: seq<nat>, edges: seq<(nat, nat)>, i: nat, j: nat)
    requires Represents(p, edges) && i < |p| && j < |p|
    ensures Linked(edges, i, Root(p, i))
    ensures Linked(edges, i, j) ==> Root(p, i) <= j
  {
    RootIsRoot(p, i);
  }

  class Dsu {
    const parent: array<nat>
    /** The edges united so far. */
    ghost var edges: seq<(nat, nat)>

    ghost predicate Valid()
      reads this, parent
    {
      Represents(parent[..], edges)
    }

    constructor (n: nat)
      ensures Valid() && fresh(parent) && parent.Length == n && edges == []
    {
      parent := new nat[n](i => i);
      edges := [];
      new;
      FreshRepresents(parent[..]);
    }

    /** The root of `x`; every node on the way is pointed at it. */
    method Find(x: nat) returns (r: nat)
      requires Valid() && x < parent.Length
      modifies parent
      ensures Valid() && r == old(Root(parent[..], x))
      ensures forall y :: 0 <= y < parent.Length ==> Root(parent[..], y) == old(Root(parent[..], y))
    {
      ghost var p := parent[..];
      r := x;
      while parent[r] != r
        invariant r < parent.Length && Root(p, r) == Root(p, x)
        decreases r
      {
        r := parent[r];
      }
      RootIsRoot(p, x);
      var c: nat := x;
      while parent[c] != c
        invariant c < parent.Length && Descending(parent[..])
        invariant forall y :: 0 <= y < parent.Length ==> Root(parent[..], y) == Root(p, y)
        invariant Root(p, c) == r
        decreases c
      {
        var n := parent[c];
        ghost var q := parent[..];
        forall y | 0 <= y < parent.Length
          ensures Descending(q[c := r]) && Root(q[c := r], y) == Root(p, y)
        {
          CompressKeepsRoots(q, c, y);
        }
        parent[c] := r;
        assert parent[..] == q[c := r];
        c := n;
      }
    }

    method Union(a: nat, b: nat)
      requires Valid() && a < parent.Length && b < parent.Length
      modifies this, parent
      ensures Valid() && edges == old(edges) + [(a, b)]
    {
      var ra := Find(a);
      var rb := Find(b);
      ghost var p := parent[..];
      if ra != rb {
        parent[if ra < rb then rb else ra] := if ra < rb then ra else rb;
      }
      UnionRepresents(p, edges, a, b, parent[..]);
      edges := edges + [(a, b)];
    }
  }
}
