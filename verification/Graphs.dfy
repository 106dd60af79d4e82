/** Walks in a finite graph; record types form such a graph through their fields. */
module Graphs {
  type Graph = map<nat, set<nat>>

  ghost predicate Edge(g: Graph, a: nat, b: nat) {
    a in g && b in g[a]
  }

  /** Consecutive nodes of `p` are joined by edges. */
  ghost predicate Walk(g: Graph, p: seq<nat>) {
    && |p| > 0
    && forall i {:trigger p[i]} :: 0 <= i < |p| - 1 ==> Edge(g, p[i], p[i + 1])
  }

  ghost predicate WalkBetween(g: Graph, p: seq<nat>, a: nat, b: nat) {
    Walk(g, p) && p[0] == a && p[|p| - 1] == b
  }

  /** A walk of at least one edge leads from `a` to `b`. */
  ghost predicate Reaches(g: Graph, a: nat, b: nat) {
    exists p :: |p| >= 2 && WalkBetween(g, p, a, b)
  }

  ghost predicate Acyclic(g: Graph) {
    forall a :: !Reaches(g, a, a)
  }

  lemma WalkTail(g: Graph, p: seq<nat>)
    requires Walk(g, p) && |p| > 1
    ensures Walk(g, p[1..]) && Edge(g, p[0], p[1])
  {
  }

  lemma WalkPrepend(g: Graph, a: nat, p: seq<nat>)
    requires Walk(g, p) && Edge(g, a, p[0])
    ensures Walk(g, [a] + p)
  {
  }

  /** Two walks that meet in a node join into one. */
  lemma WalkJoin(g: Graph, p: seq<nat>, q: seq<nat>)
    requires Walk(g, p) && Walk(g, q) && p[|p| - 1] == q[0]
    ensures Walk(g, p + q[1..])
  {
  }

  lemma ReachesEdge(g: Graph, a: nat, b: nat)
    requires Edge(g, a, b)
    ensures Reaches(g, a, b)
  {
    assert WalkBetween(g, [a, b], a, b);
  }

  lemma ReachesTrans(g: Graph, a: nat, b: nat, c: nat)
    requires Reaches(g, a, b) && Reaches(g, b, c)
    ensures Reaches(g, a, c)
  {
    var p :| |p| >= 2 && WalkBetween(g, p, a, b);
    var q :| |q| >= 2 && WalkBetween(g, q, b, c);
    WalkJoin(g, p, q);
    assert WalkBetween(g, p + q[1..], a, c);
  }

  /** A cycle can be walked as often as wanted. */
  lemma {:induction false} Pump(g: Graph, cycle: seq<nat>, n: nat) returns (p: seq<nat>)
    requires |cycle| >= 2 && WalkBetween(g, cycle, cycle[0], cycle[0])
    ensures Walk(g, p) && p[0] == cycle[0] && |p| > n
  {
    if n == 0 {
      p := cycle;
    } else {
      var q := Pump(g, cycle, n - 1);
      WalkJoin(g, cycle, q);
      p := cycle + q[1..];
    }
  }

  /** A bound on the length of all walks from a node rules out cycles through it. */
  lemma BoundedMeansAcyclicAt(g: Graph, a: nat, bound: nat)
    requires forall p :: Walk(g, p) && p[0] == a ==> |p| <= bound
    ensures !Reaches(g, a, a)
  {
    if Reaches(g, a, a) {
      var c :| |c| >= 2 && WalkBetween(g, c, a, a);
      var p := Pump(g, c, bound);
      assert false;
    }
  }
}
