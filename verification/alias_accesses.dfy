/** What a tracker knows after a list of accesses, in terms of the accesses alone: how each set is
    accessed, which pointers are in may-alias sets, and when the tracker saturates. */
module AliasAccesses {
  import opened AliasSets
  import opened AliasChanges
  import opened AliasView
  import opened AliasExact
  import opened AliasFrames
  import opened AliasSizes

  /** What an instruction does with memory: a plain load or store, or something else. */
  datatype Access = Load(ptr: Ptr) | Store(ptr: Ptr) | Other(inst: Inst)
  {
    function Node(): Node {
      if Other? then I(inst) else P(ptr)
    }
  }

  function NodesOf(accesses: seq<Access>): set<Node> {
    set x | x in accesses :: x.Node()
  }

  function PtrsOf(accesses: seq<Access>): set<Ptr> {
    set x | x in accesses && !x.Other? :: x.ptr
  }

  predicate Plain(accesses: seq<Access>) {
    forall x :: x in accesses ==> !x.Other?
  }

  // ---- how sets are accessed -----------------------------------------------------------------

  /** A set is read if one of its pointers is loaded, or it has an instruction; and written if one of
      its pointers is stored to, or one of its instructions writes. */
  ghost predicate FlagsAt(o: Oracle, c: Cell, log: seq<Access>) {
    && (c.isRef <==> c.unknown != [] || exists p :: p in c.ptrs && Load(p) in log)
    && (c.isMod <==> (exists i :: i in c.unknown && o.writes(i)) || exists p :: p in c.ptrs && Store(p) in log)
  }

  ghost predicate Flags(o: Oracle, v: View, log: seq<Access>) {
    forall s {:trigger v[s]} :: s in v ==> FlagsAt(o, v[s], log)
  }

  lemma JoinFlags(o: Oracle, x: Cell, y: Cell, log: seq<Access>)
    requires FlagsAt(o, x, log) && FlagsAt(o, y, log)
    ensures FlagsAt(o, Join(o, x, y), log)
  {
    var c := Join(o, x, y);
    assert forall p :: p in c.ptrs <==> p in x.ptrs || p in y.ptrs;
    assert forall i :: i in c.unknown <==> i in x.unknown || i in y.unknown;
  }

  lemma {:induction false} SweepFlags(o: Oracle, v: View, ids: seq<SetId>, n: Node, found: Option<SetId>, log: seq<Access>)
    requires (found.Some? ==> found.value in v) && Flags(o, v, log)
    ensures Flags(o, Sweep(o, v, ids, n, found).0, log)
  {
    hide FlagsAt, Hits;
    if ids != [] {
      if ids[0] !in v || !Hits(o, v[ids[0]], n) || found == Some(ids[0]) {
        SweepFlags(o, v, ids[1..], n, found, log);
      } else if found == None {
        SweepFlags(o, v, ids[1..], n, Some(ids[0]), log);
      } else {
        JoinFlags(o, v[found.value], v[ids[0]], log);
        SweepFlags(o, JoinAt(o, v, found.value, ids[0]), ids[1..], n, found, log);
      }
    }
  }

  lemma WithFlags(o: Oracle, c: Cell, n: Node, log: seq<Access>)
    requires FlagsAt(o, c, log) && (n.P? ==> Load(n.ptr) !in log && Store(n.ptr) !in log)
    ensures FlagsAt(o, With(o, c, n, n.I? && o.writes(n.inst)), log)
  {
    var d := With(o, c, n, n.I? && o.writes(n.inst));
    assert forall p :: p in d.ptrs <==> p in c.ptrs || n == P(p);
    assert forall i :: i in d.unknown <==> i in c.unknown || n == I(i);
    if n.I? {
      assert n.inst in d.unknown;
    }
  }

  /** A node that is new to the log comes to a set without changing how that is accessed; an instruction
      counts at once. */
  lemma AddedFlags(o: Oracle, v: View, ids: seq<SetId>, next: SetId, n: Node, log: seq<Access>)
    requires Flags(o, v, log) && (n.P? ==> Load(n.ptr) !in log && Store(n.ptr) !in log)
    ensures Flags(o, Added(o, v, ids, next, n, n.I? && o.writes(n.inst)), log)
  {
    hide FlagsAt;
    var (w, found) := Sweep(o, v, ids, n, None);
    SweepFlags(o, v, ids, n, None, log);
    NothingFlags(o, log);
    WithFlags(o, if found.Some? then w[found.value] else NOTHING, n, log);
  }

  lemma NothingFlags(o: Oracle, log: seq<Access>)
    ensures FlagsAt(o, NOTHING, log)
  {
  }

  /** The access of a pointer counts for its set. */
  lemma AccessedFlags(o: Oracle, v: View, s: SetId, x: Access, log: seq<Access>)
    requires Flags(o, v, log) && Disjoint(v) && s in v && !x.Other? && x.ptr in v[s].ptrs
    ensures Flags(o, Accessed(v, s, x.Load?, x.Store?), log + [x])
  {
    var w := Accessed(v, s, x.Load?, x.Store?);
    assert forall y :: y in log + [x] <==> y in log || y == x;
    forall t | t in w
      ensures FlagsAt(o, w[t], log + [x])
    {
      assert FlagsAt(o, v[t], log);
      if t != s {
        assert x.ptr !in v[t].ptrs;
      }
    }
  }

  lemma OtherFlags(o: Oracle, v: View, i: Inst, log: seq<Access>)
    requires Flags(o, v, log)
    ensures Flags(o, v, log + [Other(i)])
  {
    forall s | s in v
      ensures FlagsAt(o, v[s], log + [Other(i)])
    {
      assert FlagsAt(o, v[s], log);
    }
  }

  // ---- may-alias sets ------------------------------------------------------------------------

  /** A may-alias set has an instruction, or two pointers that need not alias. */
  ghost predicate DoubtAt(o: Oracle, c: Cell) {
    && (c.ptrs != [] || c.unknown != [])
    && (c.may ==> c.unknown != [] || exists p, q :: p in c.ptrs && q in c.ptrs && p != q && o.alias(p, q) != MustAlias)
  }

  ghost predicate Doubts(o: Oracle, v: View) {
    forall s {:trigger v[s]} :: s in v ==> DoubtAt(o, v[s])
  }

  /** No pointer is in two cells. */
  ghost predicate Shares(v: View) {
    exists s, t, p :: s in v && t in v && s != t && p in v[s].ptrs && p in v[t].ptrs
  }

  lemma JoinDoubt(o: Oracle, x: Cell, y: Cell)
    requires DoubtAt(o, x) && DoubtAt(o, y) && forall p :: !(p in x.ptrs && p in y.ptrs)
    ensures DoubtAt(o, Join(o, x, y))
  {
    var c := Join(o, x, y);
    assert forall p :: p in x.ptrs || p in y.ptrs ==> p in c.ptrs;
    if x.ptrs != [] && y.ptrs != [] {
      assert x.ptrs[0] in c.ptrs && y.ptrs[0] in c.ptrs && x.ptrs[0] != y.ptrs[0];
    }
  }

  lemma JoinShares(o: Oracle, v: View, s: SetId, t: SetId)
    requires !Shares(v) && s in v && t in v && s != t
    ensures !Shares(JoinAt(o, v, s, t))
  {
    var w := JoinAt(o, v, s, t);
    forall a, b, p | a in w && b in w && a != b
      ensures !(p in w[a].ptrs && p in w[b].ptrs)
    {
      assert !(p in v[a].ptrs && p in v[b].ptrs) && !(p in v[t].ptrs && p in v[b].ptrs) && !(p in v[a].ptrs && p in v[t].ptrs);
    }
  }

  lemma {:induction false} SweepDoubts(o: Oracle, v: View, ids: seq<SetId>, n: Node, found: Option<SetId>)
    requires (found.Some? ==> found.value in v) && Doubts(o, v) && !Shares(v)
    ensures Doubts(o, Sweep(o, v, ids, n, found).0) && !Shares(Sweep(o, v, ids, n, found).0)
  {
    hide DoubtAt, Hits;
    if ids != [] {
      if ids[0] !in v || !Hits(o, v[ids[0]], n) || found == Some(ids[0]) {
        SweepDoubts(o, v, ids[1..], n, found);
      } else if found == None {
        SweepDoubts(o, v, ids[1..], n, Some(ids[0]));
      } else {
        JoinDoubt(o, v[found.value], v[ids[0]]);
        JoinShares(o, v, found.value, ids[0]);
        SweepDoubts(o, JoinAt(o, v, found.value, ids[0]), ids[1..], n, found);
      }
    }
  }

  lemma WithDoubt(o: Oracle, c: Cell, n: Node, writes: bool)
    requires (c == NOTHING || DoubtAt(o, c)) && !c.Holds(n)
    ensures DoubtAt(o, With(o, c, n, writes))
  {
    var d := With(o, c, n, writes);
    assert forall p :: p in d.ptrs <==> p in c.ptrs || n == P(p);
    if n.P? && c.ptrs != [] {
      assert c.ptrs[0] in d.ptrs && n.ptr in d.ptrs && c.ptrs[0] != n.ptr;
    }
  }

  lemma AddedDoubts(o: Oracle, v: View, ids: seq<SetId>, next: SetId, n: Node, writes: bool)
    requires Doubts(o, v) && Disjoint(v) && (n.P? ==> !Tracked(v, n))
    ensures Doubts(o, Added(o, v, ids, next, n, writes))
  {
    hide DoubtAt;
    var (w, found) := Sweep(o, v, ids, n, None);
    SweepDoubts(o, v, ids, n, None);
    SweepTracks(o, v, ids, n, None, n);
    if n.P? {
      assert found.Some? ==> !w[found.value].Holds(n);
      WithDoubt(o, if found.Some? then w[found.value] else NOTHING, n, writes);
    } else {
      InstDoubt(o, if found.Some? then w[found.value] else NOTHING, n.inst, writes);
    }
  }

  lemma InstDoubt(o: Oracle, c: Cell, i: Inst, writes: bool)
    ensures DoubtAt(o, With(o, c, I(i), writes))
  {
  }

  lemma AccessedDoubts(o: Oracle, v: View, s: SetId, ref: bool, mod: bool)
    requires Doubts(o, v) && s in v
    ensures Doubts(o, Accessed(v, s, ref, mod))
  {
    forall t | t in v
      ensures DoubtAt(o, Accessed(v, s, ref, mod)[t])
    {
      assert DoubtAt(o, v[t]);
    }
  }

  // ---- which pointers are in may-alias sets --------------------------------------------------

  function Nodes(ptrs: set<Ptr>): set<Node> {
    set p | p in ptrs :: P(p)
  }

  /** The pointer is in one component with another one that it need not alias. */
  ghost predicate Unsure(o: Oracle, ptrs: set<Ptr>, p: Ptr) {
    exists q :: q in ptrs && q != p && o.alias(p, q) != MustAlias && Reaches(o, Nodes(ptrs), P(p), P(q))
  }

  ghost function AllUnsure(o: Oracle, ptrs: set<Ptr>): set<Ptr> {
    set p | p in ptrs && Unsure(o, ptrs, p)
  }

  lemma MayPtrsAreUnsure(o: Oracle, v: View, ptrs: set<Ptr>)
    requires o.Good() && Exact(o, v) && Doubts(o, v) && Tracks(v, Nodes(ptrs))
    ensures MayPtrs(v) == AllUnsure(o, ptrs)
  {
    hide Exact, Reaches, DoubtAt, Oracle.Good;
    forall p | p in MayPtrs(v)
      ensures p in AllUnsure(o, ptrs)
    {
      var s :| s in v && v[s].may && p in v[s].ptrs;
      var q := OtherInDoubt(o, v, ptrs, s, p);
      assert v[s].Holds(P(p)) && v[s].Holds(P(q));
      assert Tracked(v, P(p)) && Tracked(v, P(q));
      SetsAreComponents(o, v, Nodes(ptrs), P(p), P(q));
    }
    forall p | p in AllUnsure(o, ptrs)
      ensures p in MayPtrs(v)
    {
      var q :| q in ptrs && q != p && o.alias(p, q) != MustAlias && Reaches(o, Nodes(ptrs), P(p), P(q));
      SetsAreComponents(o, v, Nodes(ptrs), P(p), P(q));
      MayWithBoth(o, v, p, q);
    }
  }

  lemma MayWithBoth(o: Oracle, v: View, p: Ptr, q: Ptr)
    requires Exact(o, v) && p != q && o.alias(p, q) != MustAlias && Together(v, P(p), P(q))
    ensures p in MayPtrs(v)
  {
    var s :| s in v && v[s].Holds(P(p)) && v[s].Holds(P(q));
    assert CellOk(o, v[s]);
  }

  lemma OtherInDoubt(o: Oracle, v: View, ptrs: set<Ptr>, s: SetId, p: Ptr) returns (q: Ptr)
    requires o.Good() && Doubts(o, v) && Tracks(v, Nodes(ptrs)) && s in v && v[s].may && p in v[s].ptrs
    ensures q in v[s].ptrs && q != p && o.alias(p, q) != MustAlias
  {
    assert DoubtAt(o, v[s]);
    if v[s].unknown != [] {
      assert v[s].Holds(I(v[s].unknown[0]));
      assert Tracked(v, I(v[s].unknown[0]));
      assert false;
    }
    var x, y :| x in v[s].ptrs && y in v[s].ptrs && x != y && o.alias(x, y) != MustAlias;
    if p == x {
      q := y;
    } else if p == y {
      q := x;
    } else {
      q := if o.alias(p, x) != MustAlias then x else y;
      assert o.alias(x, p) == o.alias(p, x);
    }
  }

  lemma UnsureGrows(o: Oracle, ptrs: set<Ptr>, more: set<Ptr>)
    requires ptrs <= more
    ensures AllUnsure(o, ptrs) <= AllUnsure(o, more) && |AllUnsure(o, ptrs)| <= |AllUnsure(o, more)|
  {
    forall p | p in AllUnsure(o, ptrs)
      ensures p in AllUnsure(o, more)
    {
      var q :| q in ptrs && q != p && o.alias(p, q) != MustAlias && Reaches(o, Nodes(ptrs), P(p), P(q));
      var path :| Linking(o, Nodes(ptrs), P(p), P(q), path);
      assert Linking(o, Nodes(more), P(p), P(q), path);
      assert Reaches(o, Nodes(more), P(p), P(q));
    }
    FewerPtrs(AllUnsure(o, ptrs), AllUnsure(o, more));
  }

  // ---- the tracker after a list of accesses --------------------------------------------------

  ghost predicate Quiet(o: Oracle, a: Arena, total: int, log: seq<Access>) {
    Flags(o, ViewOf(a), log) && Doubts(o, ViewOf(a)) && SizesOk(a) && Gap(a, total) >= 0
  }

  /** A saturated tracker was given more pointers than the threshold; after loads and stores alone it is
      saturated just when more of them than that are unsure. */
  ghost predicate Sums(o: Oracle, a: Arena, total: int, threshold: int, log: seq<Access>) {
    && Tracks(ViewOf(a), NodesOf(log))
    && (a.any == None ==> Quiet(o, a, total, log))
    && (a.any.Some? ==> |PtrsOf(log)| > threshold)
    && (o.Good() && Plain(log) ==>
          && (a.any == None ==> Exact(o, ViewOf(a)) && Gap(a, total) == 0)
          && (a.any.Some? <==> log != [] && |AllUnsure(o, PtrsOf(log))| > threshold))
  }

  lemma NothingSums(o: Oracle, a: Arena, threshold: int)
    requires a == Arena(map[], [], 0, map[], None)
    ensures Sums(o, a, 0, threshold, [])
  {
    NothingSized(a);
    NothingExact(o);
  }

  lemma MorePtrs(log: seq<Access>, x: Access)
    ensures PtrsOf(log + [x]) == PtrsOf(log) + (if x.Other? then {} else {x.ptr})
    ensures NodesOf(log + [x]) == NodesOf(log) + {x.Node()}
    ensures |PtrsOf(log)| <= |PtrsOf(log + [x])|
    ensures Plain(log + [x]) <==> Plain(log) && !x.Other?
  {
    assert forall y :: y in log + [x] <==> y in log || y == x;
    FewerPtrs(PtrsOf(log), PtrsOf(log + [x]));
  }

  lemma PlainNodes(log: seq<Access>)
    requires Plain(log)
    ensures NodesOf(log) == Nodes(PtrsOf(log))
  {
    assert forall x :: x in log ==> x.ptr in PtrsOf(log) && x.Node() == P(x.ptr);
  }

  lemma MayPtrsAmong(v: View, log: seq<Access>)
    requires Tracks(v, NodesOf(log))
    ensures |MayPtrs(v)| <= |PtrsOf(log)|
  {
    forall p | p in MayPtrs(v)
      ensures p in PtrsOf(log)
    {
      var s :| s in v && v[s].may && p in v[s].ptrs;
      assert v[s].Holds(P(p));
      assert Tracked(v, P(p));
    }
    FewerPtrs(MayPtrs(v), PtrsOf(log));
  }

  /** With the pointer in its set, before that is marked as accessed. */
  lemma GotSums(o: Oracle, a: Arena, total: int, threshold: int, log: seq<Access>, x: Access)
    requires a.Inv(None, None) && a.any == None && Sums(o, a, total, threshold, log) && !x.Other?
    ensures var g := Got(o, a, x.ptr);
            && Flags(o, g, log) && Doubts(o, g) && |MayPtrs(g)| <= |PtrsOf(log + [x])|
            && (o.Good() && Plain(log) ==> |MayPtrs(g)| == |AllUnsure(o, PtrsOf(log + [x]))|)
  {
    hide Arena.Inv, ViewOf, Exact, Added, Oracle.Good, Flags, Doubts, Disjoint, MayPtrs, AllUnsure, SizesOk;
    var p, g := x.ptr, Got(o, a, x.ptr);
    RecsTracked(a, p);
    ViewOk(a);
    MorePtrs(log, x);
    GotTracks(o, a, p);
    if p !in a.recs {
      NotInLog(ViewOf(a), log, p);
      AddedFlags(o, ViewOf(a), a.order, a.next, P(p), log);
      AddedDoubts(o, ViewOf(a), a.order, a.next, P(p), false);
    }
    assert Tracks(g, NodesOf(log + [x]));
    MayPtrsAmong(g, log + [x]);
    if o.Good() && Plain(log) {
      PlainNodes(log + [x]);
      MayPtrsAreUnsure(o, g, PtrsOf(log + [x]));
    }
  }

  lemma ViewOk(a: Arena)
    requires a.Inv(None, None)
    ensures Disjoint(ViewOf(a))
  {
    ViewDisjoint(a);
  }

  lemma NotInLog(v: View, log: seq<Access>, p: Ptr)
    requires Tracks(v, NodesOf(log)) && !Tracked(v, P(p))
    ensures Load(p) !in log && Store(p) !in log
  {
    assert Load(p) in log ==> Load(p).Node() in NodesOf(log);
    assert Store(p) in log ==> Store(p).Node() in NodesOf(log);
  }

  /** addPointer, for a load or a store. */
  lemma PointerSums(o: Oracle, a: Arena, total: int, b: Arena, total': int, threshold: int, log: seq<Access>, x: Access, s: SetId)
    requires a.Inv(None, None) && b.Inv(None, None) && Sums(o, a, total, threshold, log) && !x.Other?
    requires Grows(ViewOf(a), ViewOf(b), P(x.ptr)) && (a.any.Some? ==> b.any == a.any)
    requires s in ViewOf(b) && x.ptr in ViewOf(b)[s].ptrs
    requires b.any == None ==> s in Got(o, a, x.ptr) && ViewOf(b) == Accessed(Got(o, a, x.ptr), s, x.Load?, x.Store?)
    requires o.Good() && Exact(o, ViewOf(a)) && b.any == None ==> Exact(o, ViewOf(b))
    requires a.any == None && SizesOk(a) ==>
               && (b.any.Some? <==> |MayPtrs(Got(o, a, x.ptr))| - Gap(a, total) > threshold)
               && (b.any == None ==> SizesOk(b) && Gap(b, total') == Gap(a, total))
    ensures Sums(o, b, total', threshold, log + [x])
  {
    hide Arena.Inv, ViewOf, Exact, Oracle.Good, Flags, Doubts, Disjoint, MayPtrs, AllUnsure, SizesOk, Got, Gap, Accessed;
    MorePtrs(log, x);
    UnsureGrows(o, PtrsOf(log), PtrsOf(log + [x]));
    if a.any == None {
      GotSums(o, a, total, threshold, log, x);
      if b.any == None {
        var g := Got(o, a, x.ptr);
        GotDisjoint(g, ViewOf(b), s, x);
        ViewOk(b);
        AccessedFlags(o, g, s, x, log);
        AccessedDoubts(o, g, s, x.Load?, x.Store?);
      }
    }
  }

  lemma GotDisjoint(g: View, v: View, s: SetId, x: Access)
    requires s in g && v == Accessed(g, s, x.Load?, x.Store?)
    ensures Disjoint(v) ==> Disjoint(g)
    ensures s in v && v[s].ptrs == g[s].ptrs
  {
    if Disjoint(v) {
      assert forall t :: t in g ==> t in v && v[t].ptrs == g[t].ptrs;
    }
  }

  /** addUnknown. */
  lemma OtherSums(o: Oracle, a: Arena, total: int, b: Arena, total': int, threshold: int, log: seq<Access>, i: Inst)
    requires a.Inv(None, None) && Sums(o, a, total, threshold, log)
    requires b.any == a.any && Grows(ViewOf(a), ViewOf(b), I(i))
    requires ViewOf(b) == Added(o, ViewOf(a), a.order, a.next, I(i), o.writes(i))
    requires SizesOk(a) ==> SizesOk(b) && Gap(b, total') >= Gap(a, total)
    ensures Sums(o, b, total', threshold, log + [Other(i)])
  {
    hide Arena.Inv, ViewOf, Exact, Oracle.Good, Flags, Doubts, Disjoint, AllUnsure, SizesOk, Gap, Added;
    MorePtrs(log, Other(i));
    if a.any == None {
      ViewOk(a);
      AddedFlags(o, ViewOf(a), a.order, a.next, I(i), log);
      OtherFlags(o, ViewOf(b), i, log);
      AddedDoubts(o, ViewOf(a), a.order, a.next, I(i), o.writes(i));
    }
  }
}
