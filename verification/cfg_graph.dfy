/** Control-flow graphs, paths and cycles. Blocks are numbered and block 0 is the entry;
    successor lists may repeat a block. */
module CfgGraph {

  datatype Graph = Graph(succ: seq<seq<nat>>)
  {
    predicate Valid() {
      && |succ| > 0
      && forall b, i :: 0 <= b < |succ| && 0 <= i < |succ[b]| ==> succ[b][i] < |succ|
    }

    predicate Edge(a: nat, b: nat) {
      a < |succ| && b in succ[a]
    }
  }

  ghost predicate IsPath(g: Graph, p: seq<nat>) {
    |p| > 0 && forall i :: 0 <= i < |p| - 1 ==> g.Edge(p[i], p[i + 1])
  }

  ghost predicate PathFromTo(g: Graph, p: seq<nat>, a: nat, b: nat) {
    IsPath(g, p) && p[0] == a && p[|p| - 1] == b
  }

  ghost predicate Reaches(g: Graph, a: nat, b: nat) {
    exists p :: PathFromTo(g, p, a, b)
  }

  /** By at least one edge. */
  ghost predicate ReachesByEdge(g: Graph, a: nat, b: nat) {
    exists p :: PathFromTo(g, p, a, b) && |p| > 1
  }

  lemma ReachesRefl(g: Graph, a: nat)
    ensures Reaches(g, a, a)
  {
    assert PathFromTo(g, [a], a, a);
  }

  lemma JoinPaths(g: Graph, p: seq<nat>, q: seq<nat>, a: nat, b: nat, c: nat)
    requires PathFromTo(g, p, a, b) && PathFromTo(g, q, b, c)
    ensures PathFromTo(g, p + q[1..], a, c)
  {
    var r := p + q[1..];
    forall i | 0 <= i < |r| - 1
      ensures g.Edge(r[i], r[i + 1])
    {
      if i < |p| - 1 {
        assert r[i] == p[i] && r[i + 1] == p[i + 1];
      } else {
        assert r[i] == q[i - |p| + 1] && r[i + 1] == q[i - |p| + 2];
      }
    }
  }

  lemma ReachesTrans(g: Graph, a: nat, b: nat, c: nat)
    requires Reaches(g, a, b) && Reaches(g, b, c)
    ensures Reaches(g, a, c)
  {
    var p :| PathFromTo(g, p, a, b);
    var q :| PathFromTo(g, q, b, c);
    JoinPaths(g, p, q, a, b, c);
  }

  lemma EdgeReaches(g: Graph, a: nat, b: nat)
    requires g.Edge(a, b)
    ensures Reaches(g, a, b) && ReachesByEdge(g, a, b)
  {
    assert PathFromTo(g, [a, b], a, b);
  }

  /** A path of at least one edge starts with an edge. */
  lemma FirstEdge(g: Graph, a: nat, b: nat)
    requires ReachesByEdge(g, a, b)
    ensures exists s :: g.Edge(a, s) && Reaches(g, s, b)
  {
    var p :| PathFromTo(g, p, a, b) && |p| > 1;
    var q := p[1..];
    assert IsPath(g, q) by {
      forall i | 0 <= i < |q| - 1
        ensures g.Edge(q[i], q[i + 1])
      {
        assert q[i] == p[i + 1] && q[i + 1] == p[i + 2];
      }
    }
    assert PathFromTo(g, q, p[1], b);
    assert g.Edge(p[0], p[1]);
  }

  lemma LastEdge(g: Graph, a: nat, b: nat)
    requires ReachesByEdge(g, a, b)
    ensures exists s :: g.Edge(s, b)
  {
    var p :| PathFromTo(g, p, a, b) && |p| > 1;
    assert g.Edge(p[|p| - 2], p[|p| - 2 + 1]);
  }

  /** A set that contains the start and is closed under edges contains the end of every path. */
  lemma {:induction false} ClosedSet(g: Graph, s: set<nat>, p: seq<nat>, a: nat, b: nat)
    requires PathFromTo(g, p, a, b) && a in s
    requires forall u, v :: u in s && g.Edge(u, v) ==> v in s
    ensures b in s
    decreases |p|
  {
    if |p| > 1 {
      var q := p[..|p| - 1];
      assert IsPath(g, q) by {
        forall i | 0 <= i < |q| - 1
          ensures g.Edge(q[i], q[i + 1])
        {
          assert g.Edge(p[i], p[i + 1]);
        }
      }
      ClosedSet(g, s, q, a, p[|p| - 2]);
      assert g.Edge(p[|p| - 2], p[|p| - 2 + 1]);
    }
  }
}
