/** The conservative reachability queries: a worklist walk that uses dominators, skips whole
    loops, and gives up after a fixed number of blocks. */
module CfgReachability {
  import opened CfgGraph
  import opened CfgRuns

  datatype Option<T> = None | Some(value: T)

  /** What a dominator tree promises: every path from the entry to a reachable block passes
      through each of its dominators. */
  datatype DomTree = DomTree(reachable: set<nat>, dominance: set<(nat, nat)>)
  {
    ghost predicate Valid(g: Graph) {
      && (forall b: nat :: b in reachable <==> Reaches(g, 0, b))
      && forall a: nat, b: nat, p :: (a, b) in dominance && b in reachable && PathFromTo(g, p, 0, b) ==> a in p
    }
  }

  /** Loops are numbered. */
  datatype LoopInfo = LoopInfo(loopFor: map<nat, nat>, parent: map<nat, nat>, depth: map<nat, nat>, exits: map<nat, seq<nat>>)
  {
    predicate Nested() {
      && (forall b :: b in loopFor ==> loopFor[b] in depth)
      && forall l :: l in parent ==> l in depth && parent[l] in depth && depth[parent[l]] < depth[l]
    }

    /** The loop at the root of l's nest. */
    function Root(l: nat): nat
      requires Nested() && l in depth
      decreases depth[l]
    {
      if l in parent then Root(parent[l]) else l
    }

    function Outermost(b: nat): Option<nat>
      requires Nested()
    {
      if b in loopFor then Some(Root(loopFor[b])) else None
    }

    /** What loop analysis promises: a loop's blocks reach each other by at least one edge, and
        its exit blocks are exactly the successors outside it. */
    ghost predicate Valid(g: Graph) {
      && Nested()
      && (forall a, b :: a in loopFor && b in loopFor && Outermost(a) == Outermost(b) ==> ReachesByEdge(g, a, b))
      && (forall b :: b in loopFor ==> Root(loopFor[b]) in exits)
      && (forall b, v :: b in loopFor && g.Edge(b, v) && Outermost(v) != Outermost(b) ==> v in exits[Root(loopFor[b])])
      && (forall l, v :: l in exits && v in exits[l] ==> exists u :: u in loopFor && Root(loopFor[u]) == l && g.Edge(u, v))
    }
  }

  /** getOutermostLoop */
  method GetOutermostLoop(li: LoopInfo, bb: nat) returns (loop: Option<nat>)
    requires li.Nested()
    ensures loop == li.Outermost(bb)
  {
    if bb !in li.loopFor {
      return None;
    }
    var l := li.loopFor[bb];
    while l in li.parent
      invariant l in li.depth && li.Root(l) == li.Root(li.loopFor[bb])
      decreases li.depth[l]
    {
      l := li.parent[l];
    }
    loop := Some(l);
  }

  /** loopContainsBoth */
  method LoopContainsBoth(li: LoopInfo, bb1: nat, bb2: nat) returns (r: bool)
    requires li.Nested()
    ensures r <==> li.Outermost(bb1).Some? && li.Outermost(bb1) == li.Outermost(bb2)
  {
    var l1 := GetOutermostLoop(li, bb1);
    var l2 := GetOutermostLoop(li, bb2);
    r := l1.Some? && l1 == l2;
  }

  ghost predicate ReachedFrom(g: Graph, start: seq<nat>, b: nat) {
    exists a :: a in start && Reaches(g, a, b)
  }

  lemma ReachedStep(g: Graph, start: seq<nat>, b: nat, c: nat)
    requires ReachedFrom(g, start, b) && Reaches(g, b, c)
    ensures ReachedFrom(g, start, c)
  {
    var a :| a in start && Reaches(g, a, b);
    ReachesTrans(g, a, b, c);
  }

  /** A reachable block's dominator can reach it. */
  lemma DominatorReaches(g: Graph, dt: DomTree, a: nat, b: nat)
    requires dt.Valid(g) && (a, b) in dt.dominance && b in dt.reachable
    ensures Reaches(g, a, b)
  {
    var p :| PathFromTo(g, p, 0, b);
    assert a in p;
    var i :| 0 <= i < |p| && p[i] == a;
    var q := p[i..];
    forall j | 0 <= j < |q| - 1
      ensures g.Edge(q[j], q[j + 1])
    {
      assert g.Edge(p[i + j], p[i + j + 1]);
    }
    assert PathFromTo(g, q, a, b);
  }

  /** All of a loop's exits can be reached from any of its blocks. */
  lemma ExitReached(g: Graph, li: LoopInfo, b: nat, v: nat)
    requires li.Valid(g) && b in li.loopFor && v in li.exits[li.Root(li.loopFor[b])]
    ensures Reaches(g, b, v)
  {
    var u :| u in li.loopFor && li.Root(li.loopFor[u]) == li.Root(li.loopFor[b]) && g.Edge(u, v);
    assert ReachesByEdge(g, b, u);
    EdgeReaches(g, u, v);
    ReachesTrans(g, b, u, v);
  }

  /** The blocks that a visited block stands for: itself, or its whole outermost loop. */
  ghost predicate StandsFor(li: Option<LoopInfo>, v: nat, b: nat)
    requires li.Some? ==> li.value.Nested()
  {
    v == b || (li.Some? && li.value.Outermost(v).Some? && li.value.Outermost(v) == li.value.Outermost(b))
  }

  /** Where the walk goes on from a visited block has been visited too, or is still to be. */
  ghost predicate Expanded(g: Graph, li: Option<LoopInfo>, v: nat, visited: set<nat>, worklist: seq<nat>)
    requires li.Some? ==> li.value.Nested()
  {
    if li.Some? && li.value.Outermost(v).Some? then
      forall x :: li.value.Outermost(v).value in li.value.exits && x in li.value.exits[li.value.Outermost(v).value] ==> x in visited || x in worklist
    else forall x :: g.Edge(v, x) ==> x in visited || x in worklist
  }

  /** When the worklist is empty no path leads from a visited block to a block that none stands for. */
  lemma WalkComplete(g: Graph, li: Option<LoopInfo>, visited: set<nat>, start: nat, stop: nat)
    requires li.Some? ==> li.value.Valid(g)
    requires forall v :: v in visited ==> Expanded(g, li, v, visited, [])
    requires forall v :: v in visited ==> !StandsFor(li, v, stop)
    requires start in visited
    ensures !Reaches(g, start, stop)
  {
    if Reaches(g, start, stop) {
      var p :| PathFromTo(g, p, start, stop);
      PathCovered(g, li, visited, p, start, stop);
    }
  }

  lemma {:induction false} PathCovered(g: Graph, li: Option<LoopInfo>, visited: set<nat>, p: seq<nat>, a: nat, b: nat)
    requires li.Some? ==> li.value.Valid(g)
    requires forall v :: v in visited ==> Expanded(g, li, v, visited, [])
    requires PathFromTo(g, p, a, b) && a in visited
    ensures exists v :: v in visited && StandsFor(li, v, b)
    decreases |p|
  {
    if |p| == 1 {
      assert StandsFor(li, a, b);
    } else {
      var q, c := p[..|p| - 1], p[|p| - 2];
      forall i | 0 <= i < |q| - 1
        ensures g.Edge(q[i], q[i + 1])
      {
        assert g.Edge(p[i], p[i + 1]);
      }
      PathCovered(g, li, visited, q, a, c);
      var v :| v in visited && StandsFor(li, v, c);
      assert g.Edge(p[|p| - 2], p[|p| - 2 + 1]);
      assert Expanded(g, li, v, visited, []);
      if li.Some? && li.value.Outermost(v).Some? {
        assert c in li.value.loopFor;
        if li.value.Outermost(b) == li.value.Outermost(v) {
          assert StandsFor(li, v, b);
        } else {
          assert b in visited && StandsFor(li, b, b);
        }
      } else {
        assert b in visited && StandsFor(li, b, b);
      }
    }
  }

  /** Between two iterations of the walk from `start` to `stop`. */
  ghost predicate Walk(g: Graph, li: Option<LoopInfo>, start: seq<nat>, stop: nat, visited: set<nat>, worklist: seq<nat>)
    requires li.Some? ==> li.value.Nested()
  {
    && (forall b :: b in visited || b in worklist ==> b < |g.succ| && ReachedFrom(g, start, b))
    && (forall b :: b in start ==> b in visited || b in worklist)
    && (forall v :: v in visited ==> Expanded(g, li, v, visited, worklist) && !StandsFor(li, v, stop))
  }

  lemma WalkStart(g: Graph, li: Option<LoopInfo>, start: seq<nat>, stop: nat)
    requires li.Some? ==> li.value.Nested()
    requires forall b :: b in start ==> b < |g.succ|
    ensures Walk(g, li, start, stop, {}, start)
  {
    forall b | b in start
      ensures ReachedFrom(g, start, b)
    {
      ReachesRefl(g, b);
    }
  }

  /** A block taken from the worklist, visited now or before, is no longer needed there. */
  lemma StillExpanded(g: Graph, li: Option<LoopInfo>, v: nat, visited: set<nat>, worklist: seq<nat>, visited': set<nat>, worklist': seq<nat>)
    requires li.Some? ==> li.value.Nested()
    requires Expanded(g, li, v, visited, worklist)
    requires forall x :: x in visited || x in worklist ==> x in visited' || x in worklist'
    ensures Expanded(g, li, v, visited', worklist')
  {
  }

  lemma WalkDrop(g: Graph, li: Option<LoopInfo>, start: seq<nat>, stop: nat, visited: set<nat>, worklist: seq<nat>, bb: nat)
    requires li.Some? ==> li.value.Nested()
    requires Walk(g, li, start, stop, visited, worklist + [bb]) && bb in visited
    ensures Walk(g, li, start, stop, visited, worklist)
  {
    assert bb in worklist + [bb];
    assert forall x :: x in worklist + [bb] <==> x in worklist || x == bb;
    forall v | v in visited
      ensures Expanded(g, li, v, visited, worklist)
    {
      StillExpanded(g, li, v, visited, worklist + [bb], visited, worklist);
    }
  }

  /** Visiting bb and appending what the walk goes on to. */
  lemma WalkVisit(g: Graph, li: Option<LoopInfo>, start: seq<nat>, stop: nat, visited: set<nat>, worklist: seq<nat>, bb: nat, next: seq<nat>)
    requires g.Valid() && (li.Some? ==> li.value.Valid(g))
    requires Walk(g, li, start, stop, visited, worklist + [bb]) && !StandsFor(li, bb, stop)
    requires next == if li.Some? && bb in li.value.loopFor then li.value.exits[li.value.Root(li.value.loopFor[bb])] else g.succ[bb]
    ensures Walk(g, li, start, stop, visited + {bb}, worklist + next)
  {
    assert bb in worklist + [bb];
    assert forall x :: x in worklist + [bb] <==> x in worklist || x == bb;
    forall v | v in visited + {bb}
      ensures Expanded(g, li, v, visited + {bb}, worklist + next) && !StandsFor(li, v, stop)
    {
      if v != bb {
        StillExpanded(g, li, v, visited, worklist + [bb], visited + {bb}, worklist + next);
      }
    }
    forall x | x in next
      ensures x < |g.succ| && ReachedFrom(g, start, x)
    {
      if li.Some? && bb in li.value.loopFor {
        ExitReached(g, li.value, bb, x);
        var u :| u in li.value.loopFor && li.value.Root(li.value.loopFor[u]) == li.value.Root(li.value.loopFor[bb]) && g.Edge(u, x);
        var i :| 0 <= i < |g.succ[u]| && g.succ[u][i] == x;
        assert g.succ[u][i] < |g.succ|;
      } else {
        var i :| 0 <= i < |g.succ[bb]| && g.succ[bb][i] == x;
        assert g.succ[bb][i] < |g.succ|;
        EdgeReaches(g, bb, x);
      }
      ReachedStep(g, start, bb, x);
    }
  }

  lemma WalkDone(g: Graph, li: Option<LoopInfo>, start: seq<nat>, stop: nat, visited: set<nat>)
    requires li.Some? ==> li.value.Valid(g)
    requires Walk(g, li, start, stop, visited, [])
    ensures !ReachedFrom(g, start, stop)
  {
    forall a | a in start
      ensures !Reaches(g, a, stop)
    {
      WalkComplete(g, li, visited, a, stop);
    }
  }

  lemma Bounded(visited: set<nat>, n: nat)
    requires forall b :: b in visited ==> b < n
    ensures |visited| <= n
    decreases n
  {
    if n == 0 {
      assert visited == {};
    } else {
      Bounded(visited - {n - 1}, n - 1);
      assert |visited| <= |visited - {n - 1}| + 1 by {
        assert visited <= (visited - {n - 1}) + {n - 1};
        SubsetSize(visited, (visited - {n - 1}) + {n - 1});
      }
    }
  }

  lemma SubsetSize(a: set<nat>, b: set<nat>)
    requires a <= b
    ensures |a| <= |b|
    decreases a
  {
    if a != {} {
      var x :| x in a;
      SubsetSize(a - {x}, b - {x});
    }
  }

  /** The walk stops for one of three reasons, each of which means a path. */
  lemma FoundPath(g: Graph, dt: Option<DomTree>, li: Option<LoopInfo>, start: seq<nat>, bb: nat, stop: nat)
    requires dt.Some? ==> dt.value.Valid(g) && stop in dt.value.reachable
    requires li.Some? ==> li.value.Valid(g)
    requires ReachedFrom(g, start, bb)
    requires StandsFor(li, bb, stop) || (dt.Some? && (bb, stop) in dt.value.dominance)
    ensures ReachedFrom(g, start, stop)
  {
    if bb == stop {
    } else if dt.Some? && (bb, stop) in dt.value.dominance {
      DominatorReaches(g, dt.value, bb, stop);
      ReachedStep(g, start, bb, stop);
    } else {
      assert ReachesByEdge(g, bb, stop);
      ReachedStep(g, start, bb, stop);
    }
  }

  const LIMIT: nat := 32

  /** Why the walk gives up: so many blocks were reached from the start, none of which settles the
      question, being the stop block, dominating it, or sharing an outermost loop with it. */
  ghost predicate Undecided(g: Graph, dt: Option<DomTree>, li: Option<LoopInfo>, start: seq<nat>, stop: nat, seen: set<nat>)
    requires li.Some? ==> li.value.Nested()
  {
    forall b :: b in seen ==> ReachedFrom(g, start, b) && Unsettling(dt, li, stop, b)
  }

  ghost predicate Unsettling(dt: Option<DomTree>, li: Option<LoopInfo>, stop: nat, b: nat)
    requires li.Some? ==> li.value.Nested()
  {
    !StandsFor(li, b, stop) && (dt.Some? && stop in dt.value.reachable ==> (b, stop) !in dt.value.dominance)
  }

  /** isPotentiallyReachableFromMany: `false` is always right, and so is `true` unless the visit
      limit decided it, which takes so many blocks that settle nothing. */
  method IsPotentiallyReachableFromMany(g: Graph, worklist0: seq<nat>, stop: nat, dt0: Option<DomTree>, li: Option<LoopInfo>)
    returns (r: bool, ghost gaveUp: bool, ghost seen: set<nat>)
    requires g.Valid() && worklist0 != [] && forall b :: b in worklist0 ==> b < |g.succ|
    requires dt0.Some? ==> dt0.value.Valid(g)
    requires li.Some? ==> li.value.Valid(g)
    ensures !r ==> !ReachedFrom(g, worklist0, stop)
    ensures r && !gaveUp ==> ReachedFrom(g, worklist0, stop)
    ensures li.Some? ==> li.value.Nested()
    ensures gaveUp ==> r && |seen| == 32 <= |g.succ| && stop !in seen && forall s :: s in seen ==> ReachedFrom(g, worklist0, s)
    ensures gaveUp && li.Some? ==> forall s :: s in seen && s in li.value.loopFor ==> li.value.Outermost(s) != li.value.Outermost(stop)
    ensures gaveUp && dt0.Some? && stop in dt0.value.reachable ==> forall s :: s in seen ==> (s, stop) !in dt0.value.dominance
    ensures |g.succ| < 32 ==> (r <==> ReachedFrom(g, worklist0, stop))
  {
    hide Walk, LoopInfo.Valid, LoopInfo.Nested, DomTree.Valid, Expanded, ReachedFrom, LoopInfo.Root, Graph.Valid, Undecided;
    var worklist, dt := worklist0, dt0;
    if dt.Some? && stop !in dt.value.reachable {
      dt := None;
    }
    gaveUp, seen := false, {};
    var limit := LIMIT;
    var visited: set<nat> := {};
    ghost var all := set b: nat {:trigger b in visited} | b < |g.succ|;
    NestedOf(g, li);
    NothingSeen(g, dt0, li, worklist0, stop);
    WalkStart(g, li, worklist0, stop);
    var more := true;
    while more
      invariant more <==> worklist != []
      invariant visited <= all
      invariant Walk(g, li, worklist0, stop, visited, worklist)
      invariant 0 < limit && |visited| + limit == LIMIT
      invariant Undecided(g, dt0, li, worklist0, stop, visited)
      decreases all - visited, |worklist|
    {
      var bb := worklist[|worklist| - 1];
      assert worklist[..|worklist| - 1] + [bb] == worklist;
      worklist := worklist[..|worklist| - 1];
      WalkTop(g, li, worklist0, stop, visited, worklist, bb);
      if bb in visited {
        WalkDrop(g, li, worklist0, stop, visited, worklist, bb);
      } else {
        visited := visited + {bb};
        if bb == stop {
          return true, false, {};
        }
        if dt.Some? && (bb, stop) in dt.value.dominance {
          FoundPath(g, dt, li, worklist0, bb, stop);
          return true, false, {};
        }
        var both := false;
        if li.Some? {
          both := LoopContainsBoth(li.value, bb, stop);
        }
        if both {
          FoundPath(g, dt, li, worklist0, bb, stop);
          return true, false, {};
        }
        OneSeen(g, dt0, li, worklist0, stop, visited - {bb}, bb);
        assert visited - {bb} + {bb} == visited;
        limit := limit - 1;
        if limit == 0 {
          Bounded(visited, |g.succ|);
          UndecidedMeans(g, dt0, li, worklist0, stop, visited);
          return true, true, visited;
        }
        var outer := None;
        if li.Some? {
          outer := GetOutermostLoop(li.value, bb);
        }
        ghost var w := worklist;
        if outer.Some? {
          ExitsKnown(g, li.value, bb);
          worklist := worklist + li.value.exits[outer.value];
          WalkVisit(g, li, worklist0, stop, visited - {bb}, w, bb, li.value.exits[outer.value]);
        } else {
          worklist := worklist + g.succ[bb];
          WalkVisit(g, li, worklist0, stop, visited - {bb}, w, bb, g.succ[bb]);
        }
        assert visited - {bb} + {bb} == visited;
      }
      more := worklist != [];
    }
    WalkDone(g, li, worklist0, stop, visited);
    r := false;
  }

  lemma NothingSeen(g: Graph, dt: Option<DomTree>, li: Option<LoopInfo>, start: seq<nat>, stop: nat)
    requires li.Some? ==> li.value.Nested()
    ensures Undecided(g, dt, li, start, stop, {})
  {
  }

  lemma UndecidedMeans(g: Graph, dt: Option<DomTree>, li: Option<LoopInfo>, start: seq<nat>, stop: nat, seen: set<nat>)
    requires li.Some? ==> li.value.Nested()
    requires Undecided(g, dt, li, start, stop, seen)
    ensures stop !in seen && forall s :: s in seen ==> ReachedFrom(g, start, s)
    ensures li.Some? ==> forall s :: s in seen && s in li.value.loopFor ==> li.value.Outermost(s) != li.value.Outermost(stop)
    ensures dt.Some? && stop in dt.value.reachable ==> forall s :: s in seen ==> (s, stop) !in dt.value.dominance
  {
    hide ReachedFrom;
  }

  lemma OneSeen(g: Graph, dt: Option<DomTree>, li: Option<LoopInfo>, start: seq<nat>, stop: nat, seen: set<nat>, b: nat)
    requires li.Some? ==> li.value.Nested()
    requires Undecided(g, dt, li, start, stop, seen) && ReachedFrom(g, start, b) && Unsettling(dt, li, stop, b)
    ensures Undecided(g, dt, li, start, stop, seen + {b})
  {
  }

  lemma NestedOf(g: Graph, li: Option<LoopInfo>)
    requires li.Some? ==> li.value.Valid(g)
    ensures li.Some? ==> li.value.Nested()
  {
  }

  lemma ExitsKnown(g: Graph, li: LoopInfo, b: nat)
    requires li.Valid(g) && b in li.loopFor
    ensures li.Root(li.loopFor[b]) in li.exits
  {
  }

  lemma WalkTop(g: Graph, li: Option<LoopInfo>, start: seq<nat>, stop: nat, visited: set<nat>, worklist: seq<nat>, bb: nat)
    requires li.Some? ==> li.value.Nested()
    requires Walk(g, li, start, stop, visited, worklist + [bb])
    ensures bb < |g.succ| && ReachedFrom(g, start, bb)
  {
    assert bb in worklist + [bb];
  }

  /** The query between two blocks. */
  method IsPotentiallyReachable(g: Graph, a: nat, b: nat, dt: Option<DomTree>, li: Option<LoopInfo>)
    returns (r: bool, ghost gaveUp: bool, ghost seen: set<nat>)
    requires g.Valid() && a < |g.succ|
    requires dt.Some? ==> dt.value.Valid(g)
    requires li.Some? ==> li.value.Valid(g)
    ensures !r ==> !Reaches(g, a, b)
    ensures r && !gaveUp ==> Reaches(g, a, b)
    ensures li.Some? ==> li.value.Nested()
    ensures gaveUp ==> r && |seen| == 32 <= |g.succ| && b !in seen && forall s :: s in seen ==> Reaches(g, a, s)
    ensures gaveUp && li.Some? ==> forall s :: s in seen && s in li.value.loopFor ==> li.value.Outermost(s) != li.value.Outermost(b)
    ensures gaveUp && dt.Some? && b in dt.value.reachable ==> forall s :: s in seen ==> (s, b) !in dt.value.dominance
    ensures |g.succ| < 32 ==> (r <==> Reaches(g, a, b))
  {
    var worklist := [a];
    r, gaveUp, seen := IsPotentiallyReachableFromMany(g, worklist, b, dt, li);
    forall c
      ensures ReachedFrom(g, [a], c) <==> Reaches(g, a, c)
    {
      FromOne(g, a, c);
    }
  }

  lemma FromOne(g: Graph, a: nat, b: nat)
    ensures ReachedFrom(g, [a], b) <==> Reaches(g, a, b)
  {
    if Reaches(g, a, b) {
      assert a in [a];
    }
  }

  // ---- instructions ----------------------------------------------------------------

  /** The entry block has no predecessors, so nothing else leads to it. */
  lemma NothingReachesEntry(g: Graph, a: nat)
    requires forall b :: !g.Edge(b, 0)
    ensures !ReachesByEdge(g, a, 0)
  {
    if ReachesByEdge(g, a, 0) {
      LastEdge(g, a, 0);
    }
  }

  /** The query between two instructions: `false` means that no execution from a comes to b, and `true`
      that one does, unless the visit limit decided it, or a stands in the entry block and b does not. */
  method IsPotentiallyReachableInst(g: Graph, size: seq<nat>, a: Inst, b: Inst, dt: Option<DomTree>, li: Option<LoopInfo>)
    returns (r: bool, ghost gaveUp: bool, ghost seen: set<nat>)
    requires g.Valid() && Filled(g, size) && a.block < |size| && a.index < size[a.block]
    requires b.block < |size| && b.index < size[b.block]
    requires forall x :: !g.Edge(x, 0)
    requires dt.Some? ==> dt.value.Valid(g)
    requires li.Some? ==> li.value.Valid(g)
    ensures !r ==> !ExecReaches(g, size, a, b)
    ensures r && !gaveUp ==> ExecReaches(g, size, a, b) || (a.block == 0 && b.block != 0)
    ensures li.Some? ==> li.value.Nested()
    ensures gaveUp ==> r && |seen| == 32 <= |g.succ| && b.block !in seen && forall s :: s in seen ==> Reaches(g, a.block, s)
    ensures gaveUp && li.Some? ==> forall s :: s in seen && s in li.value.loopFor ==> li.value.Outermost(s) != li.value.Outermost(b.block)
    ensures gaveUp && dt.Some? && b.block in dt.value.reachable ==> forall s :: s in seen ==> (s, b.block) !in dt.value.dominance
    ensures |g.succ| < 32 ==> (r <==> ExecReaches(g, size, a, b) || (a.block == 0 && b.block != 0))
  {
    hide LoopInfo.Valid, LoopInfo.Nested, DomTree.Valid, ReachesByEdge, Reaches, ReachedFrom, Undecided, Unsettling, ExecReaches, Filled;
    ExecIffPath(g, size, a, b);
    FilledSize(g, size);
    NestedOf(g, li);
    gaveUp, seen := false, {};
    var worklist: seq<nat> := [];
    if a.block == b.block {
      if li.Some? && a.block in li.value.loopFor {
        LoopReachesItself(g, li.value, a.block);
        return true, gaveUp, seen;
      }
      var i := a.index;
      while i != size[a.block]
        invariant a.index <= i <= size[a.block]
        invariant b.index < a.index || i <= b.index
      {
        if i == b.index {
          return true, gaveUp, seen;
        }
        i := i + 1;
      }
      if a.block == 0 {
        NothingReachesEntry(g, 0);
        return false, gaveUp, seen;
      }
      worklist := g.succ[a.block];
      if worklist == [] {
        NoSuccessors(g, a.block, b.block);
        return false, gaveUp, seen;
      }
      SuccessorsValid(g, a.block);
    } else {
      worklist := [a.block];
    }
    if a.block == 0 {
      return true, gaveUp, seen;
    }
    if b.block == 0 {
      NothingReachesEntry(g, a.block);
      return false, gaveUp, seen;
    }
    r, gaveUp, seen := IsPotentiallyReachableFromMany(g, worklist, b.block, dt, li);
    FromManyIffByEdge(g, a.block, b.block, worklist);
    forall s | ReachedFrom(g, worklist, s)
      ensures Reaches(g, a.block, s)
    {
      FromBlock(g, a.block, worklist, s);
    }
  }

  lemma FilledSize(g: Graph, size: seq<nat>)
    requires Filled(g, size)
    ensures |size| == |g.succ|
  {
  }

  lemma LoopReachesItself(g: Graph, li: LoopInfo, b: nat)
    requires li.Valid(g) && b in li.loopFor
    ensures ReachesByEdge(g, b, b)
  {
  }

  lemma FromBlock(g: Graph, a: nat, worklist: seq<nat>, b: nat)
    requires a < |g.succ| && (worklist == [a] || worklist == g.succ[a]) && ReachedFrom(g, worklist, b)
    ensures Reaches(g, a, b)
  {
    var x :| x in worklist && Reaches(g, x, b);
    if worklist != [a] {
      EdgeReaches(g, a, x);
      ReachesTrans(g, a, x, b);
    }
  }

  lemma NoSuccessors(g: Graph, a: nat, b: nat)
    requires a < |g.succ| && g.succ[a] == []
    ensures !ReachesByEdge(g, a, b)
  {
    if ReachesByEdge(g, a, b) {
      FirstEdge(g, a, b);
    }
  }

  lemma SuccessorsValid(g: Graph, a: nat)
    requires g.Valid() && a < |g.succ|
    ensures forall b :: b in g.succ[a] ==> b < |g.succ|
  {
    forall b | b in g.succ[a]
      ensures b < |g.succ|
    {
      var i :| 0 <= i < |g.succ[a]| && g.succ[a][i] == b;
      assert g.succ[a][i] < |g.succ|;
    }
  }

  /** From the block itself, if it is not the stop block, or from its successors. */
  lemma FromManyIffByEdge(g: Graph, a: nat, b: nat, worklist: seq<nat>)
    requires a < |g.succ| && if a == b then worklist == g.succ[a] else worklist == [a]
    ensures ReachedFrom(g, worklist, b) <==> ReachesByEdge(g, a, b)
  {
    if ReachesByEdge(g, a, b) {
      if a == b {
        FirstEdge(g, a, b);
      } else {
        assert a in worklist && Reaches(g, a, b);
      }
    }
    if x :| x in worklist && Reaches(g, x, b) {
      if a == b {
        EdgeThenPath(g, a, x, b);
      } else {
        var p :| PathFromTo(g, p, a, b);
        assert |p| > 1;
      }
    }
  }

  lemma EdgeThenPath(g: Graph, a: nat, x: nat, b: nat)
    requires g.Edge(a, x) && Reaches(g, x, b)
    ensures ReachesByEdge(g, a, b)
  {
    var p :| PathFromTo(g, p, x, b);
    assert PathFromTo(g, [a, x], a, x);
    JoinPaths(g, [a, x], p, a, x, b);
  }
}
