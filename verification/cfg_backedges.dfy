/** FindFunctionBackedges: a depth-first search with an explicit stack of successor
    iterators, which reports every edge to a block that is still on the stack. */
module CfgBackedges {
  import opened CfgGraph
  import opened CfgSearch

  /** Each stacked block was found through the successor its predecessor looked at last. */
  ghost predicate Chained(g: Graph, stack: seq<Frame>) {
    && (forall i :: 0 <= i < |stack| ==> stack[i].0 < |g.succ| && stack[i].1 <= |g.succ[stack[i].0]|)
    && forall i :: 0 <= i < |stack| - 1 ==> 0 < stack[i].1 && stack[i + 1].0 == g.succ[stack[i].0][stack[i].1 - 1]
  }

  ghost predicate OnStack(stack: seq<Frame>, b: nat) {
    exists i :: 0 <= i < |stack| && stack[i].0 == b
  }

  lemma {:induction false} StackPath(g: Graph, stack: seq<Frame>, i: nat, j: nat)
    requires Chained(g, stack) && i <= j < |stack|
    ensures Reaches(g, stack[i].0, stack[j].0)
    decreases j - i
  {
    if i == j {
      ReachesRefl(g, stack[i].0);
    } else {
      StackPath(g, stack, i, j - 1);
      assert stack[j - 1 + 1].0 == stack[j].0;
      EdgeReaches(g, stack[j - 1].0, stack[j].0);
      ReachesTrans(g, stack[i].0, stack[j - 1].0, stack[j].0);
    }
  }

  /** Finished blocks in the order in which they were popped. */
  ghost predicate Before(order: seq<nat>, v: nat, u: nat) {
    exists i, j :: 0 <= i < j < |order| && order[i] == v && order[j] == u
  }

  /** The edge is reported, or its target was finished first. */
  ghost predicate Settled(order: seq<nat>, found: seq<(nat, nat)>, u: nat, v: nat) {
    (u, v) in found || Before(order, v, u)
  }

  /** An edge leaving a stacked block that has been looked at: reported, or its target is finished,
      or it is the edge to the block above. */
  ghost predicate Seen(order: seq<nat>, found: seq<(nat, nat)>, stack: seq<Frame>, i: nat, v: nat)
    requires i < |stack|
  {
    (stack[i].0, v) in found || v in order || (i + 1 < |stack| && stack[i + 1].0 == v)
  }

  ghost predicate Reported(g: Graph, found: seq<(nat, nat)>) {
    forall e :: e in found ==> g.Edge(e.0, e.1) && Reaches(g, e.1, e.0) && Reaches(g, 0, e.0)
  }

  /** The stack, the visited blocks and the finished blocks fit together. */
  ghost predicate Shape(g: Graph, visited: set<nat>, inStack: set<nat>, stack: seq<Frame>, order: seq<nat>) {
    && Chained(g, stack)
    && (forall i, j :: 0 <= i < j < |stack| ==> stack[i].0 != stack[j].0)
    && (forall b :: b in inStack <==> OnStack(stack, b))
    && (forall b :: b in visited <==> b in inStack || b in order)
    && (forall b :: b in order ==> b !in inStack && b < |g.succ|)
    && (forall i, j :: 0 <= i < j < |order| ==> order[i] != order[j])
    && (forall b :: b in visited ==> Reaches(g, 0, b))
  }

  /** The block is that of frame i or of one below it. */
  ghost predicate UpTo(stack: seq<Frame>, i: nat, v: nat)
    requires i < |stack|
  {
    exists j :: 0 <= j <= i && stack[j].0 == v
  }

  /** Of a finished block, each edge is reported as often as it is listed, unless its target was
      finished first. */
  ghost predicate DoneCounts(g: Graph, order: seq<nat>, found: seq<(nat, nat)>, u: nat)
    requires u < |g.succ|
  {
    forall v: nat :: multiset(found)[(u, v)] == if Before(order, v, u) then 0 else multiset(g.succ[u])[v]
  }

  /** Of a stacked block, each edge to a block up to it, as often as it has been looked at. */
  ghost predicate OpenCounts(g: Graph, stack: seq<Frame>, found: seq<(nat, nat)>, i: nat)
    requires i < |stack| && stack[i].0 < |g.succ| && stack[i].1 <= |g.succ[stack[i].0]|
  {
    forall v: nat :: multiset(found)[(stack[i].0, v)] ==
                     if UpTo(stack, i, v) then multiset(g.succ[stack[i].0][..stack[i].1])[v] else 0
  }

  ghost predicate Counts(g: Graph, stack: seq<Frame>, order: seq<nat>, found: seq<(nat, nat)>) {
    && Frames(g, stack)
    && (forall u :: u in order ==> u < |g.succ| && DoneCounts(g, order, found, u))
    && (forall i :: 0 <= i < |stack| ==> OpenCounts(g, stack, found, i))
    && (forall e :: e in found ==> e.0 in order || OnStack(stack, e.0))
  }

  /** Every edge looked at is accounted for. */
  ghost predicate Accounted(g: Graph, stack: seq<Frame>, order: seq<nat>, found: seq<(nat, nat)>) {
    && (forall i :: 0 <= i < |stack| ==> stack[i].0 < |g.succ| && stack[i].1 <= |g.succ[stack[i].0]|)
    && (forall u, v :: u in order && g.Edge(u, v) ==> Settled(order, found, u, v))
    && (forall i, k :: 0 <= i < |stack| && 0 <= k < stack[i].1 ==> Seen(order, found, stack, i, g.succ[stack[i].0][k]))
  }

  ghost predicate State(g: Graph, visited: set<nat>, inStack: set<nat>, stack: seq<Frame>, order: seq<nat>, found: seq<(nat, nat)>) {
    && Shape(g, visited, inStack, stack, order)
    && Accounted(g, stack, order, found)
    && Reported(g, found)
    && Counts(g, stack, order, found)
    && (forall e :: e in found ==> e.1 in visited)
  }

  /** What the search gives: order lists the reachable blocks once each, and every edge between
      them that is not reported leads to an earlier block. */
  ghost predicate BackedgesOf(g: Graph, order: seq<nat>, found: seq<(nat, nat)>) {
    && (forall i, j :: 0 <= i < j < |order| ==> order[i] != order[j])
    && (forall b :: b in order <==> Reaches(g, 0, b))
    && (forall u, v :: u in order && g.Edge(u, v) ==> Settled(order, found, u, v))
    && Reported(g, found)
    && (forall u :: u in order ==> u < |g.succ| && DoneCounts(g, order, found, u))
  }

  function Bumped(stack: seq<Frame>): (s: seq<Frame>)
    requires stack != []
    ensures |s| == |stack|
  {
    var top := |stack| - 1;
    stack[top := (stack[top].0, stack[top].1 + 1)]
  }

  /** The next successor of the top block. */
  function Upcoming(g: Graph, stack: seq<Frame>): nat
    requires stack != []
    requires stack[|stack| - 1].0 < |g.succ| && stack[|stack| - 1].1 < |g.succ[stack[|stack| - 1].0]|
  {
    g.succ[stack[|stack| - 1].0][stack[|stack| - 1].1]
  }

  predicate More(g: Graph, stack: seq<Frame>) {
    stack != [] && stack[|stack| - 1].0 < |g.succ| && stack[|stack| - 1].1 < |g.succ[stack[|stack| - 1].0]|
  }

  lemma BumpedShape(g: Graph, visited: set<nat>, inStack: set<nat>, stack: seq<Frame>, order: seq<nat>)
    requires Shape(g, visited, inStack, stack, order) && More(g, stack)
    ensures Shape(g, visited, inStack, Bumped(stack), order)
  {
    var s := Bumped(stack);
    forall i | 0 <= i < |stack|
      ensures s[i].0 == stack[i].0
    {}
    forall b
      ensures OnStack(s, b) <==> OnStack(stack, b)
    {
      if OnStack(s, b) {
        var i :| 0 <= i < |s| && s[i].0 == b;
        assert stack[i].0 == b;
      }
      if OnStack(stack, b) {
        var i :| 0 <= i < |stack| && stack[i].0 == b;
        assert s[i].0 == b;
      }
    }
    forall i | 0 <= i < |s| - 1
      ensures 0 < s[i].1 && s[i + 1].0 == g.succ[s[i].0][s[i].1 - 1]
    {
      assert s[i] == stack[i] && s[i + 1].0 == stack[i + 1].0;
    }
  }

  /** The next successor has been visited before: report the edge if it is still on the stack. */
  lemma Skip(g: Graph, visited: set<nat>, inStack: set<nat>, stack: seq<Frame>, order: seq<nat>, found: seq<(nat, nat)>,
             found': seq<(nat, nat)>)
    requires g.Valid() && State(g, visited, inStack, stack, order, found) && More(g, stack)
    requires Upcoming(g, stack) in visited
    requires found' == if Upcoming(g, stack) in inStack then found + [(stack[|stack| - 1].0, Upcoming(g, stack))] else found
    ensures State(g, visited, inStack, Bumped(stack), order, found')
  {
    hide Shape, Accounted, Reported, Counts, OnStack;
    BumpedShape(g, visited, inStack, stack, order);
    SkipReports(g, visited, inStack, stack, order, found, found');
    UpcomingKnown(g, visited, inStack, stack, order);
    SkipAccounts(g, visited, inStack, stack, order, found, found');
    SkipCounts(g, visited, inStack, stack, order, found, found');
  }

  lemma UpcomingKnown(g: Graph, visited: set<nat>, inStack: set<nat>, stack: seq<Frame>, order: seq<nat>)
    requires Shape(g, visited, inStack, stack, order) && More(g, stack)
    ensures Upcoming(g, stack) in visited <==> Upcoming(g, stack) in inStack || Upcoming(g, stack) in order
  {
  }

  lemma FoundMore(found: seq<(nat, nat)>, e: (nat, nat), e': (nat, nat))
    ensures multiset(found + [e])[e'] == multiset(found)[e'] + if e' == e then 1 else 0
  {
  }

  lemma TakeMore(s: seq<nat>, k: nat, v: nat)
    requires k < |s|
    ensures multiset(s[..k + 1])[v] == multiset(s[..k])[v] + if s[k] == v then 1 else 0
  {
    assert s[..k + 1] == s[..k] + [s[k]];
  }

  lemma BumpedUpTo(stack: seq<Frame>, i: nat, v: nat)
    requires i < |stack|
    ensures UpTo(Bumped(stack), i, v) <==> UpTo(stack, i, v)
  {
    var s := Bumped(stack);
    assert forall j :: 0 <= j < |stack| ==> s[j].0 == stack[j].0;
    if UpTo(stack, i, v) {
      var j :| 0 <= j <= i && stack[j].0 == v;
      assert s[j].0 == v;
    }
    if UpTo(s, i, v) {
      var j :| 0 <= j <= i && s[j].0 == v;
      assert stack[j].0 == v;
    }
  }

  lemma BumpedOnStack(stack: seq<Frame>, v: nat)
    requires stack != []
    ensures OnStack(Bumped(stack), v) <==> OnStack(stack, v)
    ensures OnStack(stack, v) <==> UpTo(stack, |stack| - 1, v)
  {
    BumpedUpTo(stack, |stack| - 1, v);
    assert OnStack(Bumped(stack), v) <==> UpTo(Bumped(stack), |stack| - 1, v);
  }

  /** The stack and the finished blocks are apart. */
  lemma OpenNotDone(g: Graph, visited: set<nat>, inStack: set<nat>, stack: seq<Frame>, order: seq<nat>)
    requires Shape(g, visited, inStack, stack, order)
    ensures forall i :: 0 <= i < |stack| ==> stack[i].0 in inStack && stack[i].0 !in order
    ensures forall b :: OnStack(stack, b) <==> b in inStack
    ensures forall b :: b in order ==> b < |g.succ| && b !in inStack
    ensures forall i, j :: 0 <= i < j < |stack| ==> stack[i].0 != stack[j].0
  {
    forall i | 0 <= i < |stack|
      ensures stack[i].0 in inStack
    {
      assert OnStack(stack, stack[i].0);
    }
  }

  lemma SkipCounts(g: Graph, visited: set<nat>, inStack: set<nat>, stack: seq<Frame>, order: seq<nat>, found: seq<(nat, nat)>,
                   found': seq<(nat, nat)>)
    requires Shape(g, visited, inStack, stack, order) && Counts(g, stack, order, found) && More(g, stack)
    requires found' == if Upcoming(g, stack) in inStack then found + [(stack[|stack| - 1].0, Upcoming(g, stack))] else found
    ensures Counts(g, Bumped(stack), order, found')
  {
    hide Shape, Before, OnStack, UpTo;
    var top, s, v := |stack| - 1, Bumped(stack), Upcoming(g, stack);
    var x := stack[top].0;
    OpenNotDone(g, visited, inStack, stack, order);
    BumpedOnStack(stack, v);
    forall u, w: nat
      ensures multiset(found')[(u, w)] == multiset(found)[(u, w)] + if u == x && w == v && v in inStack then 1 else 0
    {
      FoundMore(found, (x, v), (u, w));
    }
    forall u | u in order
      ensures DoneCounts(g, order, found', u)
    {
      assert DoneCounts(g, order, found, u);
    }
    forall i | 0 <= i < |s|
      ensures OpenCounts(g, s, found', i)
    {
      assert OpenCounts(g, stack, found, i);
      forall w: nat
        ensures multiset(found')[(s[i].0, w)] == if UpTo(s, i, w) then multiset(g.succ[s[i].0][..s[i].1])[w] else 0
      {
        BumpedUpTo(stack, i, w);
        if i == top {
          TakeMore(g.succ[x], stack[top].1, w);
        }
      }
    }
    forall e | e in found'
      ensures e.0 in order || OnStack(s, e.0)
    {
      BumpedOnStack(stack, e.0);
    }
  }

  lemma SkipReports(g: Graph, visited: set<nat>, inStack: set<nat>, stack: seq<Frame>, order: seq<nat>, found: seq<(nat, nat)>,
                    found': seq<(nat, nat)>)
    requires g.Valid() && Shape(g, visited, inStack, stack, order) && Reported(g, found) && More(g, stack)
    requires found' == if Upcoming(g, stack) in inStack then found + [(stack[|stack| - 1].0, Upcoming(g, stack))] else found
    ensures Reported(g, found')
  {
    var top, v := |stack| - 1, Upcoming(g, stack);
    if v in inStack {
      assert OnStack(stack, v);
      var i :| 0 <= i < |stack| && stack[i].0 == v;
      StackPath(g, stack, i, top);
      assert OnStack(stack, stack[top].0);
    }
  }

  lemma SkipAccounts(g: Graph, visited: set<nat>, inStack: set<nat>, stack: seq<Frame>, order: seq<nat>, found: seq<(nat, nat)>,
                     found': seq<(nat, nat)>)
    requires g.Valid() && Accounted(g, stack, order, found) && More(g, stack)
    requires Upcoming(g, stack) in inStack || Upcoming(g, stack) in order
    requires found' == if Upcoming(g, stack) in inStack then found + [(stack[|stack| - 1].0, Upcoming(g, stack))] else found
    ensures Accounted(g, Bumped(stack), order, found')
  {
    var top := |stack| - 1;
    forall i, k | 0 <= i < |stack| && 0 <= k < Bumped(stack)[i].1
      ensures Seen(order, found', Bumped(stack), i, g.succ[Bumped(stack)[i].0][k])
    {
      if i < top || k < stack[top].1 {
        assert Seen(order, found, stack, i, g.succ[stack[i].0][k]);
      }
    }
    forall u, v | u in order && g.Edge(u, v)
      ensures Settled(order, found', u, v)
    {
      assert Settled(order, found, u, v);
    }
  }

  /** The next successor is new: it goes on the stack. */
  lemma Push(g: Graph, visited: set<nat>, inStack: set<nat>, stack: seq<Frame>, order: seq<nat>, found: seq<(nat, nat)>)
    requires g.Valid() && State(g, visited, inStack, stack, order, found) && More(g, stack)
    requires Upcoming(g, stack) !in visited
    ensures State(g, visited + {Upcoming(g, stack)}, inStack + {Upcoming(g, stack)},
                  Bumped(stack) + [(Upcoming(g, stack), 0)], order, found)
  {
    hide Shape, Accounted, Reported, Counts, OnStack;
    BumpedShape(g, visited, inStack, stack, order);
    PushShape(g, visited, inStack, Bumped(stack), order, Upcoming(g, stack));
    PushAccounts(g, stack, order, found, Upcoming(g, stack));
    PushCounts(g, visited, inStack, stack, order, found, Upcoming(g, stack));
  }

  lemma PushUpTo(stack: seq<Frame>, i: nat, v: nat, w: nat)
    requires i < |stack|
    ensures UpTo(stack + [(v, 0)], i, w) <==> UpTo(stack, i, w)
  {
    var s := stack + [(v, 0)];
    if UpTo(stack, i, w) {
      var j :| 0 <= j <= i && stack[j].0 == w;
      assert s[j].0 == w;
    }
    if UpTo(s, i, w) {
      var j :| 0 <= j <= i && s[j].0 == w;
      assert stack[j].0 == w;
    }
  }

  lemma PushCounts(g: Graph, visited: set<nat>, inStack: set<nat>, stack: seq<Frame>, order: seq<nat>, found: seq<(nat, nat)>, v: nat)
    requires g.Valid() && Shape(g, visited, inStack, stack, order) && Counts(g, stack, order, found) && More(g, stack)
    requires v == Upcoming(g, stack) && v !in visited
    ensures Counts(g, Bumped(stack) + [(v, 0)], order, found)
  {
    hide Shape, Before, OnStack, UpTo;
    var top, b := |stack| - 1, Bumped(stack);
    var x, s := stack[top].0, b + [(v, 0)];
    OpenNotDone(g, visited, inStack, stack, order);
    UpcomingKnown(g, visited, inStack, stack, order);
    BumpedOnStack(stack, v);
    PushOnStack(b, v);
    forall i | 0 <= i < |s|
      ensures OpenCounts(g, s, found, i)
    {
      if i <= top {
        assert OpenCounts(g, stack, found, i);
        forall w: nat
          ensures multiset(found)[(s[i].0, w)] == if UpTo(s, i, w) then multiset(g.succ[s[i].0][..s[i].1])[w] else 0
        {
          PushUpTo(b, i, v, w);
          BumpedUpTo(stack, i, w);
          if i == top {
            TakeMore(g.succ[x], stack[top].1, w);
          }
        }
      } else {
        assert s[i] == (v, 0) && g.succ[v][..0] == [];
        assert forall w: nat :: (v, w) !in found;
      }
    }
    forall e | e in found
      ensures e.0 in order || OnStack(s, e.0)
    {
      BumpedOnStack(stack, e.0);
    }
  }

  lemma PushOnStack(stack: seq<Frame>, v: nat)
    ensures forall b :: OnStack(stack + [(v, 0)], b) <==> OnStack(stack, b) || b == v
  {
    var s := stack + [(v, 0)];
    assert s[|stack|].0 == v;
    forall b
      ensures OnStack(s, b) <==> OnStack(stack, b) || b == v
    {
      if OnStack(stack, b) {
        var i :| 0 <= i < |stack| && stack[i].0 == b;
        assert s[i].0 == b;
      }
      if OnStack(s, b) && b != v {
        var i :| 0 <= i < |s| && s[i].0 == b;
        assert stack[i].0 == b;
      }
    }
  }

  lemma PushShape(g: Graph, visited: set<nat>, inStack: set<nat>, stack: seq<Frame>, order: seq<nat>, v: nat)
    requires g.Valid() && Shape(g, visited, inStack, stack, order) && stack != [] && v !in visited
    requires 0 < stack[|stack| - 1].1 && v == g.succ[stack[|stack| - 1].0][stack[|stack| - 1].1 - 1]
    ensures Shape(g, visited + {v}, inStack + {v}, stack + [(v, 0)], order)
  {
    var x := stack[|stack| - 1].0;
    PushOnStack(stack, v);
    assert OnStack(stack, x) && !OnStack(stack, v);
    hide OnStack, Reaches;
    EdgeReaches(g, x, v);
    ReachesTrans(g, 0, x, v);
  }

  lemma PushAccounts(g: Graph, stack: seq<Frame>, order: seq<nat>, found: seq<(nat, nat)>, v: nat)
    requires g.Valid() && Accounted(g, stack, order, found) && More(g, stack) && v == Upcoming(g, stack)
    ensures Accounted(g, Bumped(stack) + [(v, 0)], order, found)
  {
    var top, s := |stack| - 1, Bumped(stack) + [(v, 0)];
    forall i, k | 0 <= i < |s| && 0 <= k < s[i].1
      ensures Seen(order, found, s, i, g.succ[s[i].0][k])
    {
      if i < top || k < stack[top].1 {
        assert Seen(order, found, stack, i, g.succ[stack[i].0][k]);
        assert i + 1 < |stack| ==> s[i + 1].0 == stack[i + 1].0;
      }
    }
  }

  lemma BeforeExtends(order: seq<nat>, x: nat, v: nat, u: nat)
    requires Before(order, v, u) || (u == x && v in order)
    ensures Before(order + [x], v, u)
  {
    var o := order + [x];
    if Before(order, v, u) {
      var i, j :| 0 <= i < j < |order| && order[i] == v && order[j] == u;
      assert o[i] == v && o[j] == u;
    } else {
      var i :| 0 <= i < |order| && order[i] == v;
      assert o[i] == v && o[|order|] == u;
    }
  }

  /** The top block has no successor left: it is finished. */
  lemma Pop(g: Graph, visited: set<nat>, inStack: set<nat>, stack: seq<Frame>, order: seq<nat>, found: seq<(nat, nat)>)
    requires g.Valid() && State(g, visited, inStack, stack, order, found) && stack != [] && !More(g, stack)
    ensures State(g, visited, inStack - {stack[|stack| - 1].0}, stack[..|stack| - 1], order + [stack[|stack| - 1].0], found)
  {
    hide Shape, Accounted, Reported, Counts;
    PopShape(g, visited, inStack, stack, order);
    PopAccounts(g, stack, order, found);
    PopCounts(g, visited, inStack, stack, order, found);
  }

  lemma BeforeLast(order: seq<nat>, x: nat, v: nat, u: nat)
    requires x !in order
    ensures Before(order + [x], v, u) <==> if u == x then v in order else Before(order, v, u)
  {
    var o := order + [x];
    if Before(order, v, u) || (u == x && v in order) {
      BeforeExtends(order, x, v, u);
    }
    if Before(o, v, u) {
      var i, j :| 0 <= i < j < |o| && o[i] == v && o[j] == u;
      assert order[i] == v;
      if u != x {
        assert order[j] == u;
      }
    }
  }

  /** Below the top the stack is the same. */
  lemma PopUpTo(stack: seq<Frame>, i: nat, v: nat)
    requires i < |stack| - 1
    ensures UpTo(stack[..|stack| - 1], i, v) <==> UpTo(stack, i, v)
  {
    var s := stack[..|stack| - 1];
    if UpTo(stack, i, v) {
      var j :| 0 <= j <= i && stack[j].0 == v;
      assert s[j].0 == v;
    }
    if UpTo(s, i, v) {
      var j :| 0 <= j <= i && s[j].0 == v;
      assert stack[j].0 == v;
    }
  }

  lemma PopCounts(g: Graph, visited: set<nat>, inStack: set<nat>, stack: seq<Frame>, order: seq<nat>, found: seq<(nat, nat)>)
    requires Shape(g, visited, inStack, stack, order) && Counts(g, stack, order, found) && stack != [] && !More(g, stack)
    requires Accounted(g, stack, order, found)
    ensures Counts(g, stack[..|stack| - 1], order + [stack[|stack| - 1].0], found)
  {
    hide Shape, Before, OnStack, UpTo, Accounted;
    var top := |stack| - 1;
    var x, s, o := stack[top].0, stack[..top], order + [stack[top].0];
    OpenNotDone(g, visited, inStack, stack, order);
    forall u | u in o
      ensures u < |g.succ| && DoneCounts(g, o, found, u)
    {
      if u in order {
        assert DoneCounts(g, order, found, u);
        forall v: nat
          ensures Before(o, v, u) <==> Before(order, v, u)
        {
          BeforeLast(order, x, v, u);
        }
      } else {
        PopTopCounts(g, visited, inStack, stack, order, found);
      }
    }
    forall i | 0 <= i < |s|
      ensures OpenCounts(g, s, found, i)
    {
      assert OpenCounts(g, stack, found, i);
      forall v: nat
        ensures UpTo(s, i, v) <==> UpTo(stack, i, v)
      {
        PopUpTo(stack, i, v);
      }
    }
    forall e | e in found
      ensures e.0 in o || OnStack(s, e.0)
    {
      if OnStack(stack, e.0) && e.0 != x {
        StaysOnStack(stack, e.0);
      }
    }
  }

  lemma StaysOnStack(stack: seq<Frame>, v: nat)
    requires OnStack(stack, v) && v != stack[|stack| - 1].0
    ensures OnStack(stack[..|stack| - 1], v)
  {
    var i :| 0 <= i < |stack| && stack[i].0 == v;
    assert stack[..|stack| - 1][i].0 == v;
  }

  lemma PopTopCounts(g: Graph, visited: set<nat>, inStack: set<nat>, stack: seq<Frame>, order: seq<nat>, found: seq<(nat, nat)>)
    requires Shape(g, visited, inStack, stack, order) && Counts(g, stack, order, found) && stack != [] && !More(g, stack)
    requires Accounted(g, stack, order, found)
    ensures DoneCounts(g, order + [stack[|stack| - 1].0], found, stack[|stack| - 1].0)
  {
    hide Shape, Before, OnStack, UpTo, Accounted;
    var top := |stack| - 1;
    var x := stack[top].0;
    OpenNotDone(g, visited, inStack, stack, order);
    assert OpenCounts(g, stack, found, top);
    assert g.succ[x][..stack[top].1] == g.succ[x];
    forall v: nat
      ensures multiset(found)[(x, v)] == if Before(order + [x], v, x) then 0 else multiset(g.succ[x])[v]
    {
      BeforeLast(order, x, v, x);
      BumpedOnStack(stack, v);
      if v in g.succ[x] {
        TopSeen(g, stack, order, found, v);
      }
    }
  }

  lemma TopSeen(g: Graph, stack: seq<Frame>, order: seq<nat>, found: seq<(nat, nat)>, v: nat)
    requires Accounted(g, stack, order, found) && stack != [] && !More(g, stack) && v in g.succ[stack[|stack| - 1].0]
    ensures (stack[|stack| - 1].0, v) in found || v in order
  {
    var top := |stack| - 1;
    var k :| 0 <= k < |g.succ[stack[top].0]| && g.succ[stack[top].0][k] == v;
    assert Seen(order, found, stack, top, g.succ[stack[top].0][k]);
  }

  lemma PopShape(g: Graph, visited: set<nat>, inStack: set<nat>, stack: seq<Frame>, order: seq<nat>)
    requires Shape(g, visited, inStack, stack, order) && stack != []
    ensures Shape(g, visited, inStack - {stack[|stack| - 1].0}, stack[..|stack| - 1], order + [stack[|stack| - 1].0])
  {
    var x, s, o := stack[|stack| - 1].0, stack[..|stack| - 1], order + [stack[|stack| - 1].0];
    assert OnStack(stack, x);
    forall b
      ensures OnStack(s, b) <==> b in inStack - {x}
    {
      if b in inStack && b != x {
        var i :| 0 <= i < |stack| && stack[i].0 == b;
        assert s[i].0 == b;
      }
      if OnStack(s, b) {
        var i :| 0 <= i < |s| && s[i].0 == b;
        assert stack[i].0 == b;
      }
    }
    assert forall b :: b in o <==> b in order || b == x;
  }

  lemma PopAccounts(g: Graph, stack: seq<Frame>, order: seq<nat>, found: seq<(nat, nat)>)
    requires g.Valid() && Accounted(g, stack, order, found) && stack != [] && !More(g, stack)
    ensures Accounted(g, stack[..|stack| - 1], order + [stack[|stack| - 1].0], found)
  {
    var top := |stack| - 1;
    var x, s, o := stack[top].0, stack[..top], order + [stack[top].0];
    assert forall b :: b in o <==> b in order || b == x;
    forall u: nat, v: nat | u in o && g.Edge(u, v)
      ensures Settled(o, found, u, v)
    {
      if u in order {
        assert Settled(order, found, u, v);
        if (u, v) !in found {
          BeforeExtends(order, x, v, u);
        }
      } else {
        var k :| 0 <= k < |g.succ[x]| && g.succ[x][k] == v;
        assert Seen(order, found, stack, top, g.succ[stack[top].0][k]);
        if (u, v) !in found {
          BeforeExtends(order, x, v, u);
        }
      }
    }
    forall i, k | 0 <= i < |s| && 0 <= k < s[i].1
      ensures Seen(o, found, s, i, g.succ[s[i].0][k])
    {
      assert Seen(order, found, stack, i, g.succ[stack[i].0][k]);
    }
  }

  lemma Initial(g: Graph)
    requires g.Valid()
    ensures State(g, {0}, {0}, [(0, 0)], [], [])
  {
    var stack: seq<Frame> := [(0, 0)];
    ReachesRefl(g, 0);
    assert stack[0].0 == 0 && OnStack(stack, 0);
  }

  lemma TopFrame(g: Graph, visited: set<nat>, inStack: set<nat>, stack: seq<Frame>, order: seq<nat>, found: seq<(nat, nat)>)
    requires State(g, visited, inStack, stack, order, found) && stack != []
    ensures stack[|stack| - 1].0 < |g.succ| && stack[|stack| - 1].1 <= |g.succ[stack[|stack| - 1].0]|
  {
  }

  /** At the end everything reachable has been finished. */
  lemma Finished(g: Graph, visited: set<nat>, inStack: set<nat>, order: seq<nat>, found: seq<(nat, nat)>)
    requires State(g, visited, inStack, [], order, found) && 0 in visited
    ensures BackedgesOf(g, order, found)
  {
    assert forall b :: !OnStack([], b);
    assert inStack == {};
    var s := set b | b in order;
    forall b | Reaches(g, 0, b)
      ensures b in order
    {
      var p :| PathFromTo(g, p, 0, b);
      forall u: nat, v: nat | u in s && g.Edge(u, v)
        ensures v in s
      {
        assert Settled(order, found, u, v);
      }
      ClosedSet(g, s, p, 0, b);
    }
  }

  /** The rest of the search, from a stack. */
  ghost function Onward(g: Graph, visited: set<nat>, stack: seq<Frame>, order: seq<nat>, found: seq<(nat, nat)>): Search
    requires g.Valid() && Frames(g, stack) && Search(visited, order, found).Within(g)
  {
    Unwind(g, stack, Search(visited, order, found))
  }

  lemma StartsWhole(g: Graph)
    requires g.Valid()
    ensures Frames(g, [(0, 0)]) && Onward(g, {0}, [(0, 0)], [], []) == Whole(g)
  {
    assert [] + [(0, 0)] == [(0, 0)];
    UnwindTop(g, [], 0, 0, Search({0}, [], []));
    assert PathOf([]) + {0} == {0};
  }

  lemma EndsWhole(g: Graph, visited: set<nat>, order: seq<nat>, found: seq<(nat, nat)>)
    requires g.Valid() && Search(visited, order, found).Within(g)
    ensures Onward(g, visited, [], order, found) == Search(visited, order, found)
  {
  }

  lemma StackSplits(stack: seq<Frame>)
    requires stack != []
    ensures var top := |stack| - 1;
            && stack == stack[..top] + [(stack[top].0, stack[top].1)]
            && Bumped(stack) == stack[..top] + [(stack[top].0, stack[top].1 + 1)]
  {
  }

  lemma OnPath(g: Graph, visited: set<nat>, inStack: set<nat>, stack: seq<Frame>, order: seq<nat>)
    requires Shape(g, visited, inStack, stack, order) && stack != []
    ensures PathOf(stack[..|stack| - 1]) + {stack[|stack| - 1].0} == inStack
  {
    var top := |stack| - 1;
    var p := PathOf(stack[..top]) + {stack[top].0};
    forall b
      ensures b in p <==> OnStack(stack, b)
    {
      if OnStack(stack, b) && b != stack[top].0 {
        StaysOnStack(stack, b);
      }
      if b in PathOf(stack[..top]) {
        var i :| 0 <= i < top && stack[..top][i].0 == b;
        assert stack[i].0 == b;
      }
      assert OnStack(stack, stack[top].0);
    }
  }

  lemma OnwardSkip(g: Graph, visited: set<nat>, inStack: set<nat>, stack: seq<Frame>, order: seq<nat>, found: seq<(nat, nat)>,
                   found': seq<(nat, nat)>)
    requires g.Valid() && Shape(g, visited, inStack, stack, order) && Frames(g, stack) && More(g, stack)
    requires Search(visited, order, found).Within(g) && Upcoming(g, stack) in visited && Frames(g, Bumped(stack))
    requires found' == if Upcoming(g, stack) in inStack then found + [(stack[|stack| - 1].0, Upcoming(g, stack))] else found
    ensures Onward(g, visited, Bumped(stack), order, found') == Onward(g, visited, stack, order, found)
  {
    hide Shape, Unwind, Visit;
    var top := |stack| - 1;
    StackSplits(stack);
    OnPath(g, visited, inStack, stack, order);
    UnwindSkip(g, stack[..top], stack[top].0, stack[top].1, Search(visited, order, found), Search(visited, order, found'));
  }

  lemma OnwardPush(g: Graph, visited: set<nat>, stack: seq<Frame>, order: seq<nat>, found: seq<(nat, nat)>, v: nat)
    requires g.Valid() && Frames(g, stack) && More(g, stack) && Search(visited, order, found).Within(g)
    requires v == Upcoming(g, stack) && v !in visited && v < |g.succ| && Frames(g, Bumped(stack) + [(v, 0)])
    ensures Onward(g, visited + {v}, Bumped(stack) + [(v, 0)], order, found) == Onward(g, visited, stack, order, found)
  {
    hide Unwind, Visit;
    var top := |stack| - 1;
    StackSplits(stack);
    var b := Bumped(stack);
    assert Frames(g, b) by {
      assert forall i :: 0 <= i < |b| ==> (b + [(v, 0)])[i] == b[i];
    }
    UnwindPush(g, stack[..top], stack[top].0, stack[top].1, Search(visited, order, found));
  }

  lemma OnwardPop(g: Graph, visited: set<nat>, stack: seq<Frame>, order: seq<nat>, found: seq<(nat, nat)>)
    requires g.Valid() && Frames(g, stack) && stack != [] && !More(g, stack) && Search(visited, order, found).Within(g)
    ensures Frames(g, stack[..|stack| - 1])
    ensures Onward(g, visited, stack[..|stack| - 1], order + [stack[|stack| - 1].0], found) == Onward(g, visited, stack, order, found)
  {
    hide Unwind, Visit;
    var top := |stack| - 1;
    StackSplits(stack);
    UnwindPop(g, stack[..top], stack[top].0, stack[top].1, Search(visited, order, found));
  }

  method FindFunctionBackedges(g: Graph, result0: seq<(nat, nat)>) returns (result: seq<(nat, nat)>, ghost order: seq<nat>)
    requires g.Valid()
    ensures result0 <= result
    ensures BackedgesOf(g, order, result[|result0|..])
    ensures result == result0 + Whole(g).found && order == Whole(g).order
  {
    hide Shape, Accounted, Reported, Counts, BackedgesOf, Reaches, OnStack, Onward, Visit, Whole;
    result, order := result0, [];
    var bb: nat := 0;
    if g.succ[bb] == [] {
      order := [0];
      OnlyEntry(g);
      WholeOfEntry(g);
      assert result[|result0|..] == [];
      return;
    }
    var visited: set<nat>, inStack: set<nat>, stack: seq<Frame> := {bb}, {bb}, [(bb, 0)];
    ghost var all := set b: nat {:trigger b in visited} | b < |g.succ|;
    ghost var found: seq<(nat, nat)> := [];
    Initial(g);
    StartsWhole(g);
    while stack != []
      invariant 0 in visited && visited <= all
      invariant result == result0 + found
      invariant State(g, visited, inStack, stack, order, found)
      invariant Frames(g, stack) && Search(visited, order, found).Within(g)
      invariant Onward(g, visited, stack, order, found) == Whole(g)
      decreases all - visited, |stack|
    {
      TopFrame(g, visited, inStack, stack, order, found);
      var parent: nat := stack[|stack| - 1].0;
      var foundNew := false;
      ghost var visited0, height, before := visited, |stack|, stack;
      while !foundNew && stack[|stack| - 1].1 != |g.succ[parent]|
        invariant |stack| == height > 0 && stack[height - 1].0 == parent < |g.succ|
        invariant stack[height - 1].1 <= |g.succ[parent]|
        invariant result == result0 + found
        invariant !foundNew ==> visited == visited0 && State(g, visited, inStack, stack, order, found)
        invariant Search(visited0, order, found).Within(g)
        invariant !foundNew ==> Frames(g, stack) && Onward(g, visited, stack, order, found) == Whole(g)
        invariant foundNew ==> Frames(g, before) && Onward(g, visited0, before, order, found) == Whole(g)
        invariant foundNew ==>
                    && State(g, visited0, inStack, before, order, found) && More(g, before) && stack == Bumped(before)
                    && bb == Upcoming(g, before) && bb !in visited0 && visited == visited0 + {bb}
        decreases !foundNew, |g.succ[parent]| - stack[|stack| - 1].1
      {
        before := stack;
        bb := Upcoming(g, stack);
        stack := Bumped(stack);
        if bb !in visited {
          visited := visited + {bb};
          foundNew := true;
        } else {
          ghost var found0 := found;
          if bb in inStack {
            result := result + [(parent, bb)];
            found := found + [(parent, bb)];
          }
          Skip(g, visited, inStack, before, order, found0, found);
          StateFrames(g, visited, inStack, stack, order, found);
          OnwardSkip(g, visited, inStack, before, order, found0, found);
        }
      }
      if foundNew {
        Push(g, visited0, inStack, before, order, found);
        StateFrames(g, visited, inStack + {bb}, stack + [(bb, 0)], order, found);
        OnwardPush(g, visited0, before, order, found, bb);
        inStack := inStack + {bb};
        stack := stack + [(bb, 0)];
      } else {
        Pop(g, visited, inStack, stack, order, found);
        OnwardPop(g, visited, stack, order, found);
        order := order + [parent];
        inStack := inStack - {parent};
        stack := stack[..|stack| - 1];
      }
    }
    Finished(g, visited, inStack, order, found);
    EndsWhole(g, visited, order, found);
    assert result[|result0|..] == found;
  }

  lemma StateFrames(g: Graph, visited: set<nat>, inStack: set<nat>, stack: seq<Frame>, order: seq<nat>, found: seq<(nat, nat)>)
    requires State(g, visited, inStack, stack, order, found)
    ensures Frames(g, stack)
  {
  }

  lemma WholeOfEntry(g: Graph)
    requires g.Valid() && g.succ[0] == []
    ensures Whole(g).found == [] && Whole(g).order == [0]
  {
  }

  lemma OnlyEntry(g: Graph)
    requires g.Valid() && g.succ[0] == []
    ensures BackedgesOf(g, [0], [])
  {
    forall b | Reaches(g, 0, b)
      ensures b == 0
    {
      var p :| PathFromTo(g, p, 0, b);
      ClosedSet(g, {0}, p, 0, b);
    }
    ReachesRefl(g, 0);
  }

  // ---- what the reported edges mean ------------------------------------------------

  lemma BeforeTrans(order: seq<nat>, a: nat, b: nat, c: nat)
    requires forall i, j :: 0 <= i < j < |order| ==> order[i] != order[j]
    requires Before(order, a, b) && Before(order, b, c)
    ensures Before(order, a, c) && a != c
  {
    var i, j :| 0 <= i < j < |order| && order[i] == a && order[j] == b;
    var k, l :| 0 <= k < l < |order| && order[k] == b && order[l] == c;
    assert j == k;
  }

  /** An edge between reachable blocks is reported if and only if its target was not finished before its
      source; then it is reported once for each time that it is listed. Nothing else is reported. */
  lemma ReportedIff(g: Graph, order: seq<nat>, found: seq<(nat, nat)>, u: nat, v: nat)
    requires BackedgesOf(g, order, found)
    ensures (u, v) in found <==> Reaches(g, 0, u) && g.Edge(u, v) && !Before(order, v, u)
    ensures (u, v) in found ==> multiset(found)[(u, v)] == multiset(g.succ[u])[v]
  {
    hide Before, Reaches;
    if u in order {
      assert DoneCounts(g, order, found, u);
      assert g.Edge(u, v) <==> multiset(g.succ[u])[v] > 0;
    }
    assert (u, v) in found <==> multiset(found)[(u, v)] > 0;
  }

  ghost predicate Avoids(p: seq<nat>, found: seq<(nat, nat)>) {
    forall i :: 0 <= i < |p| - 1 ==> (p[i], p[i + 1]) !in found
  }

  /** Along a path without reported edges the search finished later blocks first. */
  lemma {:induction false} PathGoesBack(g: Graph, order: seq<nat>, found: seq<(nat, nat)>, p: seq<nat>)
    requires BackedgesOf(g, order, found)
    requires IsPath(g, p) && |p| > 1 && p[0] in order && Avoids(p, found)
    ensures Before(order, p[|p| - 1], p[0]) && p[|p| - 1] != p[0]
    decreases |p|
  {
    var q := p[..|p| - 1];
    var last := |p| - 2;
    assert g.Edge(p[last], p[last + 1]) && (p[last], p[last + 1]) !in found;
    if |p| > 2 {
      forall i | 0 <= i < |q| - 1
        ensures g.Edge(q[i], q[i + 1]) && (q[i], q[i + 1]) !in found
      {
        assert g.Edge(p[i], p[i + 1]) && (p[i], p[i + 1]) !in found;
      }
      PathGoesBack(g, order, found, q);
      assert Settled(order, found, p[last], p[last + 1]);
      BeforeTrans(order, p[last + 1], p[last], p[0]);
    } else {
      assert Settled(order, found, p[0], p[1]);
    }
  }

  /** Deleting the reported edges leaves no cycle among the reachable blocks. */
  lemma EveryCycleIsCut(g: Graph, order: seq<nat>, found: seq<(nat, nat)>, p: seq<nat>)
    requires BackedgesOf(g, order, found)
    requires IsPath(g, p) && |p| > 1 && p[0] == p[|p| - 1] && Reaches(g, 0, p[0])
    ensures exists i :: 0 <= i < |p| - 1 && (p[i], p[i + 1]) in found
  {
    if Avoids(p, found) {
      PathGoesBack(g, order, found, p);
    }
  }

  /** Nothing is reported exactly when the reachable part of the function is acyclic. */
  lemma NoneIffAcyclic(g: Graph, order: seq<nat>, found: seq<(nat, nat)>)
    requires BackedgesOf(g, order, found)
    ensures found == [] <==> forall b: nat :: Reaches(g, 0, b) ==> !ReachesByEdge(g, b, b)
  {
    if found == [] {
      forall b: nat | Reaches(g, 0, b)
        ensures !ReachesByEdge(g, b, b)
      {
        if ReachesByEdge(g, b, b) {
          var p :| PathFromTo(g, p, b, b) && |p| > 1;
          EveryCycleIsCut(g, order, found, p);
        }
      }
    } else {
      var e := found[0];
      assert e in found;
      var q :| PathFromTo(g, q, e.1, e.0);
      var p := [e.0, e.1];
      assert PathFromTo(g, p, e.0, e.1);
      JoinPaths(g, p, q, e.0, e.1, e.0);
      assert PathFromTo(g, p + q[1..], e.0, e.0) && |p + q[1..]| > 1;
      assert ReachesByEdge(g, e.0, e.0);
    }
  }
}
