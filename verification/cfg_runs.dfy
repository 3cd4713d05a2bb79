/** Executions, instruction by instruction, and how they go through the blocks. */
module CfgRuns {
  import opened CfgGraph

  /** Instruction `index` of a block; a block has size[block] of them, the last a terminator. */
  datatype Inst = Inst(block: nat, index: nat)

  /** One step of execution: the next instruction, or the first one of a successor. */
  predicate Follows(g: Graph, size: seq<nat>, x: Inst, y: Inst) {
    && x.block < |size|
    && if x.index + 1 < size[x.block] then y == Inst(x.block, x.index + 1)
       else g.Edge(x.block, y.block) && y.index == 0
  }

  ghost predicate IsRun(g: Graph, size: seq<nat>, e: seq<Inst>, x: Inst, y: Inst) {
    && |e| > 0 && e[0] == x && e[|e| - 1] == y
    && forall i :: 0 <= i < |e| - 1 ==> Follows(g, size, e[i], e[i + 1])
  }

  /** Execution starting at x may come to y; x itself counts. */
  ghost predicate ExecReaches(g: Graph, size: seq<nat>, x: Inst, y: Inst) {
    exists e :: IsRun(g, size, e, x, y)
  }

  /** A run stays in the block and moves down it, or follows at least one edge. */
  lemma {:induction false} RunByBlocks(g: Graph, size: seq<nat>, e: seq<Inst>, x: Inst, y: Inst)
    requires IsRun(g, size, e, x, y)
    ensures (x.block == y.block && x.index <= y.index) || ReachesByEdge(g, x.block, y.block)
    decreases |e|
  {
    if |e| > 1 {
      var d, z := e[..|e| - 1], e[|e| - 2];
      forall i | 0 <= i < |d| - 1
        ensures Follows(g, size, d[i], d[i + 1])
      {
        assert Follows(g, size, e[i], e[i + 1]);
      }
      RunByBlocks(g, size, d, x, z);
      assert Follows(g, size, e[|e| - 2], e[|e| - 2 + 1]);
      if z.index + 1 >= size[z.block] {
        EdgeReaches(g, z.block, y.block);
        if z.block != x.block || !(x.index <= z.index) {
          AppendEdge(g, x.block, z.block, y.block);
        }
      }
    }
  }

  lemma AppendEdge(g: Graph, a: nat, b: nat, c: nat)
    requires ReachesByEdge(g, a, b) && g.Edge(b, c)
    ensures ReachesByEdge(g, a, c)
  {
    var p :| PathFromTo(g, p, a, b) && |p| > 1;
    assert PathFromTo(g, [b, c], b, c);
    JoinPaths(g, p, [b, c], a, b, c);
  }

  // ---- runs from paths -----------------------------------------------------------------------

  lemma RunStep(g: Graph, size: seq<nat>, x: Inst, y: Inst, z: Inst)
    requires ExecReaches(g, size, x, y) && Follows(g, size, y, z)
    ensures ExecReaches(g, size, x, z)
  {
    var e :| IsRun(g, size, e, x, y);
    var d := e + [z];
    forall i | 0 <= i < |d| - 1
      ensures Follows(g, size, d[i], d[i + 1])
    {
      if i < |e| - 1 {
        assert Follows(g, size, e[i], e[i + 1]);
      }
    }
    assert IsRun(g, size, d, x, z);
  }

  /** Down a block. */
  lemma {:induction false} RunDown(g: Graph, size: seq<nat>, b: nat, i: nat, j: nat)
    requires b < |size| && i <= j < size[b]
    ensures ExecReaches(g, size, Inst(b, i), Inst(b, j))
    decreases j
  {
    if i == j {
      assert IsRun(g, size, [Inst(b, i)], Inst(b, i), Inst(b, i));
    } else {
      RunDown(g, size, b, i, j - 1);
      RunStep(g, size, Inst(b, i), Inst(b, j - 1), Inst(b, j));
    }
  }

  lemma {:induction false} RunOn(g: Graph, size: seq<nat>, x: Inst, b: nat, i: nat)
    requires ExecReaches(g, size, x, Inst(b, 0)) && b < |size| && i < size[b]
    ensures ExecReaches(g, size, x, Inst(b, i))
  {
    if i > 0 {
      RunOn(g, size, x, b, i - 1);
      RunStep(g, size, x, Inst(b, i - 1), Inst(b, i));
    }
  }

  /** Every block has an instruction, and ends with a terminator. */
  predicate Filled(g: Graph, size: seq<nat>) {
    |size| == |g.succ| && forall b :: 0 <= b < |size| ==> size[b] > 0
  }

  /** Along a path of at least one edge. */
  lemma {:induction false} RunAlong(g: Graph, size: seq<nat>, p: seq<nat>, x: Inst, b: nat)
    requires g.Valid() && Filled(g, size) && PathFromTo(g, p, x.block, b) && |p| > 1
    requires x.block < |size| && x.index < size[x.block]
    ensures b < |size| && ExecReaches(g, size, x, Inst(b, 0))
    decreases |p|
  {
    var q, last := p[..|p| - 1], |p| - 2;
    var z := p[last];
    assert g.Edge(p[last], p[last + 1]);
    if |p| == 2 {
      RunDown(g, size, z, x.index, size[z] - 1);
    } else {
      forall i | 0 <= i < |q| - 1
        ensures g.Edge(q[i], q[i + 1])
      {
        assert g.Edge(p[i], p[i + 1]);
      }
      RunAlong(g, size, q, x, z);
      RunOn(g, size, x, z, size[z] - 1);
    }
    EdgeInGraph(g, z, b);
    RunStep(g, size, x, Inst(z, size[z] - 1), Inst(b, 0));
  }

  lemma EdgeInGraph(g: Graph, a: nat, b: nat)
    requires g.Valid() && g.Edge(a, b)
    ensures b < |g.succ|
  {
    var i :| 0 <= i < |g.succ[a]| && g.succ[a][i] == b;
    assert g.succ[a][i] < |g.succ|;
  }

  /** An execution leads to an instruction if and only if it is further down the block, or some path of at
      least one edge leads to its block. */
  lemma ExecIffPath(g: Graph, size: seq<nat>, x: Inst, y: Inst)
    requires g.Valid() && Filled(g, size) && x.block < |size| && x.index < size[x.block]
    requires y.block < |size| && y.index < size[y.block]
    ensures ExecReaches(g, size, x, y) <==> (x.block == y.block && x.index <= y.index) || ReachesByEdge(g, x.block, y.block)
  {
    if ExecReaches(g, size, x, y) {
      var e :| IsRun(g, size, e, x, y);
      RunByBlocks(g, size, e, x, y);
    }
    if x.block == y.block && x.index <= y.index {
      RunDown(g, size, x.block, x.index, y.index);
    }
    if ReachesByEdge(g, x.block, y.block) {
      var p :| PathFromTo(g, p, x.block, y.block) && |p| > 1;
      RunAlong(g, size, p, x, y.block);
      RunOn(g, size, x, y.block, y.index);
    }
  }
}
