/** Depth-first search as a recursive function: what the search with an explicit stack must find, in
    the same order. */
module CfgSearch {
  import opened CfgGraph

  /** A block and the index of its next successor to look at. */
  type Frame = (nat, nat)

  /** The visited blocks, the finished ones in their order, and the edges found to lead to a block on
      the path to where the search is. */
  datatype Search = Search(visited: set<nat>, order: seq<nat>, found: seq<(nat, nat)>)
  {
    ghost predicate Within(g: Graph) {
      forall b :: b in visited ==> b < |g.succ|
    }
  }

  predicate IsBlock(g: Graph, b: nat) {
    b < |g.succ|
  }

  ghost function Blocks(g: Graph): set<nat> {
    set b: nat | b < |g.succ| && IsBlock(g, b)
  }

  /** The successors of u from the k-th on, and what they lead to; then u is finished. The path holds
      the blocks that the search came through, u among them. */
  ghost function Visit(g: Graph, path: set<nat>, u: nat, k: nat, s: Search): (r: Search)
    requires g.Valid() && u < |g.succ| && k <= |g.succ[u]| && s.Within(g)
    ensures r.Within(g) && s.visited <= r.visited
    decreases Blocks(g) - s.visited, |g.succ[u]| - k
  {
    if k == |g.succ[u]| then s.(order := s.order + [u])
    else
      var v := g.succ[u][k];
      if v !in s.visited then
        var deeper := Visit(g, path + {v}, v, 0, s.(visited := s.visited + {v}));
        assert Blocks(g) - deeper.visited < Blocks(g) - s.visited by {
          assert v in deeper.visited && v in Blocks(g);
        }
        Visit(g, path, u, k + 1, deeper)
      else if v in path then Visit(g, path, u, k + 1, s.(found := s.found + [(u, v)]))
      else Visit(g, path, u, k + 1, s)
  }

  ghost function Whole(g: Graph): Search
    requires g.Valid()
  {
    Visit(g, {0}, 0, 0, Search({0}, [], []))
  }

  // ---- with a stack ------------------------------------------------------------------------

  ghost function PathOf(stack: seq<Frame>): set<nat> {
    set i | 0 <= i < |stack| :: stack[i].0
  }

  ghost predicate Frames(g: Graph, stack: seq<Frame>) {
    forall i :: 0 <= i < |stack| ==> stack[i].0 < |g.succ| && stack[i].1 <= |g.succ[stack[i].0]|
  }

  /** What comes of a stack: all its blocks are visited on and finished, from the top down. */
  ghost function Unwind(g: Graph, stack: seq<Frame>, s: Search): Search
    requires g.Valid() && Frames(g, stack) && s.Within(g)
    decreases |stack|
  {
    if stack == [] then s
    else
      var top := |stack| - 1;
      Unwind(g, stack[..top], Visit(g, PathOf(stack), stack[top].0, stack[top].1, s))
  }

  lemma UnwindTop(g: Graph, below: seq<Frame>, u: nat, k: nat, s: Search)
    requires g.Valid() && Frames(g, below + [(u, k)]) && s.Within(g) && u < |g.succ| && k <= |g.succ[u]|
    ensures Frames(g, below)
    ensures Unwind(g, below + [(u, k)], s) == Unwind(g, below, Visit(g, PathOf(below) + {u}, u, k, s))
  {
    hide Visit;
    var stack := below + [(u, k)];
    assert stack[..|stack| - 1] == below && stack[|stack| - 1] == (u, k);
    assert PathOf(stack) == PathOf(below) + {u} by {
      assert forall i :: 0 <= i < |below| ==> stack[i] == below[i];
    }
    forall i | 0 <= i < |below|
      ensures below[i].0 < |g.succ| && below[i].1 <= |g.succ[below[i].0]|
    {
      assert stack[i] == below[i];
    }
  }

  /** The next successor has been visited: it is passed, and the edge is found if it is on the path. */
  lemma UnwindSkip(g: Graph, below: seq<Frame>, u: nat, k: nat, s: Search, s': Search)
    requires g.Valid() && Frames(g, below + [(u, k)]) && s.Within(g) && u < |g.succ| && k < |g.succ[u]| && s'.Within(g)
    requires g.succ[u][k] in s.visited && Frames(g, below + [(u, k + 1)])
    requires s' == if g.succ[u][k] in PathOf(below) + {u} then s.(found := s.found + [(u, g.succ[u][k])]) else s
    ensures Unwind(g, below + [(u, k + 1)], s') == Unwind(g, below + [(u, k)], s)
  {
    hide Unwind;
    UnwindTop(g, below, u, k, s);
    UnwindTop(g, below, u, k + 1, s');
  }

  /** It is new: the search goes on from there. */
  lemma UnwindPush(g: Graph, below: seq<Frame>, u: nat, k: nat, s: Search)
    requires g.Valid() && Frames(g, below + [(u, k)]) && s.Within(g) && u < |g.succ| && k < |g.succ[u]|
    requires g.succ[u][k] !in s.visited && g.succ[u][k] < |g.succ|
    requires Frames(g, below + [(u, k + 1)]) && Frames(g, below + [(u, k + 1)] + [(g.succ[u][k], 0)])
    ensures Unwind(g, below + [(u, k + 1)] + [(g.succ[u][k], 0)], s.(visited := s.visited + {g.succ[u][k]})) ==
            Unwind(g, below + [(u, k)], s)
  {
    hide Unwind;
    var v := g.succ[u][k];
    var next := s.(visited := s.visited + {v});
    var stack := below + [(u, k + 1)];
    assert PathOf(stack) == PathOf(below) + {u} by {
      assert forall i :: 0 <= i < |below| ==> stack[i] == below[i];
      assert stack[|below|] == (u, k + 1);
    }
    UnwindTop(g, stack, v, 0, next);
    UnwindTop(g, below, u, k + 1, Visit(g, PathOf(below) + {u} + {v}, v, 0, next));
    UnwindTop(g, below, u, k, s);
  }

  /** None is left: the block is finished. */
  lemma UnwindPop(g: Graph, below: seq<Frame>, u: nat, k: nat, s: Search)
    requires g.Valid() && Frames(g, below + [(u, k)]) && s.Within(g) && u < |g.succ| && k == |g.succ[u]|
    ensures Frames(g, below) && Unwind(g, below, s.(order := s.order + [u])) == Unwind(g, below + [(u, k)], s)
  {
    hide Unwind;
    UnwindTop(g, below, u, k, s);
  }
}
