/** Reachability over the links of an object graph. Every walk of the model is
    judged against `Reach`, which knows nothing about queues, dates or marks. */
module Reachability {

  /** Object ids are opaque: two ids are either equal or not. */
  type Hash = nat

  /** The id that names nothing. */
  const ZERO_HASH: Hash := 0

  /** The links leaving each object of a graph. */
  type Edges = map<Hash, set<Hash>>

  function Targets(e: Edges, x: Hash): set<Hash> {
    if x in e then e[x] else {}
  }

  ghost predicate IsPath(e: Edges, p: seq<Hash>) {
    && |p| > 0
    && forall i :: 0 <= i < |p| - 1 ==> p[i + 1] in Targets(e, p[i])
  }

  ghost predicate Connects(e: Edges, p: seq<Hash>, x: Hash, y: Hash) {
    IsPath(e, p) && p[0] == x && p[|p| - 1] == y
  }

  /** There is a chain of zero or more links from x to y. */
  ghost predicate Reach(e: Edges, x: Hash, y: Hash) {
    exists p :: Connects(e, p, x, y)
  }

  ghost predicate ReachFrom(e: Edges, roots: set<Hash>, y: Hash) {
    exists x :: x in roots && Reach(e, x, y)
  }

  /** No two different objects reach each other. Holds in every object database,
      where an id is computed from the ids it links to. */
  ghost predicate Acyclic(e: Edges) {
    forall x, y :: Reach(e, x, y) && Reach(e, y, x) ==> x == y
  }

  ghost predicate Closed(e: Edges, s: iset<Hash>) {
    forall x, y :: x in s && y in Targets(e, x) ==> y in s
  }

  lemma ReachRefl(e: Edges, x: Hash)
    ensures Reach(e, x, x)
  {
    assert Connects(e, [x], x, x);
  }

  lemma ReachStep(e: Edges, x: Hash, y: Hash, z: Hash)
    requires Reach(e, x, y) && z in Targets(e, y)
    ensures Reach(e, x, z)
  {
    var p :| Connects(e, p, x, y);
    var q := p + [z];
    assert forall i :: 0 <= i < |q| - 1 ==> q[i + 1] in Targets(e, q[i]);
    assert Connects(e, q, x, z);
  }

  lemma ReachEdge(e: Edges, x: Hash, y: Hash)
    requires y in Targets(e, x)
    ensures Reach(e, x, y)
  {
    ReachRefl(e, x);
    ReachStep(e, x, x, y);
  }

  lemma ReachTrans(e: Edges, x: Hash, y: Hash, z: Hash)
    requires Reach(e, x, y) && Reach(e, y, z)
    ensures Reach(e, x, z)
  {
    var s := iset u | Reach(e, x, u);
    forall u, v | u in s && v in Targets(e, u)
      ensures v in s
    {
      ReachStep(e, x, u, v);
    }
    ReachStaysInClosed(e, s, y, z);
  }

  /** A set closed under links holds everything reachable from its members. All
      completeness proofs of the model are instances of this lemma. */
  lemma ReachStaysInClosed(e: Edges, s: iset<Hash>, x: Hash, y: Hash)
    requires Closed(e, s) && x in s && Reach(e, x, y)
    ensures y in s
  {
    var p :| Connects(e, p, x, y);
    PathStaysInClosed(e, s, p);
  }

  lemma {:induction false} PathStaysInClosed(e: Edges, s: iset<Hash>, p: seq<Hash>)
    requires Closed(e, s) && IsPath(e, p) && p[0] in s
    ensures p[|p| - 1] in s
  {
    if |p| > 1 {
      assert p[1] in Targets(e, p[0]);
      var q := p[1..];
      forall i | 0 <= i < |q| - 1
        ensures q[i + 1] in Targets(e, q[i])
      {
        assert p[i + 1 + 1] in Targets(e, p[i + 1]);
      }
      PathStaysInClosed(e, s, q);
    }
  }

  /** With more links more is reached. */
  lemma ReachMono(e: Edges, e': Edges, x: Hash, y: Hash)
    requires (forall u :: Targets(e, u) <= Targets(e', u)) && Reach(e, x, y)
    ensures Reach(e', x, y)
  {
    var s := iset u | Reach(e', x, u);
    ReachRefl(e', x);
    forall u, v | u in s && v in Targets(e, u)
      ensures v in s
    {
      assert v in Targets(e', u);
      ReachStep(e', x, u, v);
    }
    ReachStaysInClosed(e, s, x, y);
  }

  lemma ReachFromRoot(e: Edges, roots: set<Hash>, x: Hash)
    requires x in roots
    ensures ReachFrom(e, roots, x)
  {
    ReachRefl(e, x);
  }

  lemma ReachFromStep(e: Edges, roots: set<Hash>, y: Hash, z: Hash)
    requires ReachFrom(e, roots, y) && z in Targets(e, y)
    ensures ReachFrom(e, roots, z)
  {
    var x :| x in roots && Reach(e, x, y);
    ReachStep(e, x, y, z);
  }

  lemma ReachFromStaysInClosed(e: Edges, s: iset<Hash>, roots: set<Hash>, y: Hash)
    requires Closed(e, s) && (forall x :: x in roots ==> x in s) && ReachFrom(e, roots, y)
    ensures y in s
  {
    var x :| x in roots && Reach(e, x, y);
    ReachStaysInClosed(e, s, x, y);
  }

  /** A set without one of the elements of another set that it is part of is smaller. */
  lemma Smaller(a: set<Hash>, b: set<Hash>, x: Hash)
    requires a <= b && x in b && x !in a
    ensures |a| < |b|
  {
    assert b == (b - a) + a && x in b - a;
  }
}
