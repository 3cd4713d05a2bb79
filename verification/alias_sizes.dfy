/** The sizes that the tracker keeps, and their total: as long as only pointers are added, it is the
    number of pointers in may-alias sets, which is what the saturation threshold is about. */
module AliasSizes {
  import opened AliasSets
  import opened AliasChanges
  import opened AliasView
  import opened AliasExact
  import opened AliasFrames

  ghost predicate SizeOk(a: Arena, s: SetId)
    requires s in a.sets
  {
    a.sets[s].forward == None ==> a.sets[s].size == |a.sets[s].ptrs|
  }

  ghost predicate SizesOk(a: Arena) {
    forall s {:trigger SizeOk(a, s)} :: s in a.sets ==> SizeOk(a, s)
  }

  /** The pointers in may-alias sets. */
  function MayPtrs(v: View): set<Ptr> {
    set s, p | s in v && v[s].may && p in v[s].ptrs :: p
  }

  /** By how much the total falls short of their number. */
  ghost function Gap(a: Arena, total: int): int {
    |MayPtrs(ViewOf(a))| - total
  }

  lemma TidiedSizes(a: Arena, b: Arena)
    requires Tidied(a, b) && SizesOk(a)
    ensures SizesOk(b)
  {
    forall s | s in b.sets
      ensures SizeOk(b, s)
    {
      assert SetTidied(a, b, s) && SizeOk(a, s);
    }
  }

  lemma ErasedSizes(a: Arena, s: SetId)
    requires s in a.sets && SizesOk(a)
    ensures a.sets[s].ptrs == [] && a.sets[s].forward == None ==> a.sets[s].size == 0
    ensures SizesOk(Erase(a, s))
  {
    assert SizeOk(a, s);
    forall t | t in Erase(a, s).sets
      ensures SizeOk(Erase(a, s), t)
    {
      assert SizeOk(a, t);
    }
  }

  lemma RefSizes(a: Arena, s: SetId, n: int)
    requires s in a.sets
    ensures SizesOk(SetRef(a, s, n)) <==> SizesOk(a)
  {
    var b := SetRef(a, s, n);
    forall t | t in a.sets
      ensures SizeOk(b, t) <==> SizeOk(a, t)
    {
    }
    if SizesOk(a) {
      forall t | t in b.sets
        ensures SizeOk(b, t)
      {
        assert SizeOk(a, t);
      }
    }
    if SizesOk(b) {
      forall t | t in a.sets
        ensures SizeOk(a, t)
      {
        assert SizeOk(b, t);
      }
    }
  }

  lemma OnlySetSizes(a: Arena, b: Arena, s: SetId)
    requires OnlySet(a, b, s) && SizesOk(a)
    requires b.sets[s].size - |b.sets[s].ptrs| == a.sets[s].size - |a.sets[s].ptrs|
    ensures SizesOk(b)
  {
    assert SizeOk(a, s);
    forall t | t in b.sets
      ensures SizeOk(b, t)
    {
      assert SizeOk(a, t);
    }
  }

  lemma AddedSetSizes(a: Arena, b: Arena, s: SetId)
    requires SetAdded(a, b, s) && SizesOk(a) && b.sets[s].size == 0
    ensures SizesOk(b)
  {
    forall t | t in b.sets
      ensures SizeOk(b, t)
    {
      if t != s {
        assert SizeOk(a, t);
      }
    }
  }

  lemma MergedSizes(a: Arena, b: Arena, s: SetId, t: SetId, may: bool)
    requires Mergeable(a, s, t) && Merged(a, b, s, t, may) && SizesOk(a)
    requires b.sets[s].size == a.sets[s].size + (if a.sets[t].ptrs != [] then a.sets[t].size else 0)
    ensures SizesOk(b)
    ensures a.sets[s].size == |a.sets[s].ptrs| && a.sets[t].size == |a.sets[t].ptrs|
  {
    assert SizeOk(a, s) && SizeOk(a, t);
    forall x | x in b.sets
      ensures SizeOk(b, x)
    {
      assert SizeOk(a, x);
    }
  }

  // ---- how many pointers are in may-alias sets ---------------------------------------------------

  /** No pointer is in two cells, or twice in one. */
  ghost predicate Disjoint(v: View) {
    && (forall s {:trigger v[s]} :: s in v ==> NoDup(v[s].ptrs))
    && forall s, t, p {:trigger p in v[s].ptrs, p in v[t].ptrs} :: s in v && t in v && p in v[s].ptrs && p in v[t].ptrs ==> s == t
  }

  lemma ViewDisjoint(a: Arena)
    requires a.Forwards() && a.Recorded()
    ensures Disjoint(ViewOf(a))
  {
    forall s | s in ViewOf(a)
      ensures NoDup(ViewOf(a)[s].ptrs)
    {
      assert a.PointersOk(s);
    }
    forall s, t, p | s in ViewOf(a) && t in ViewOf(a) && p in ViewOf(a)[s].ptrs && p in ViewOf(a)[t].ptrs
      ensures s == t
    {
      assert a.PointersOk(s) && a.PointersOk(t);
    }
  }

  function Members(ptrs: seq<Ptr>): set<Ptr> {
    set p | p in ptrs
  }

  lemma {:induction false} MembersSize(ptrs: seq<Ptr>)
    requires NoDup(ptrs)
    ensures |Members(ptrs)| == |ptrs|
  {
    if ptrs != [] {
      var rest, last := ptrs[..|ptrs| - 1], ptrs[|ptrs| - 1];
      MembersSize(rest);
      assert ptrs == rest + [last];
      assert last !in rest;
      assert Members(ptrs) == Members(rest) + {last};
    }
  }

  /** How many pointers come to be in a may-alias set when c becomes part of one. */
  function Gain(may: bool, c: Cell): nat {
    if may && !c.may then |c.ptrs| else 0
  }

  lemma MayPtrsJoin(v: View, s: SetId, t: SetId, may: bool)
    requires Disjoint(v) && s in v && t in v && s != t && (v[s].may || v[t].may ==> may)
    ensures |MayPtrs((v - {t})[s := JoinCells(v[s], v[t], may)])| == |MayPtrs(v)| + Gain(may, v[s]) + Gain(may, v[t])
  {
    var w := (v - {t})[s := JoinCells(v[s], v[t], may)];
    var x := if may && !v[s].may then Members(v[s].ptrs) else {};
    var y := if may && !v[t].may then Members(v[t].ptrs) else {};
    MembersSize(v[s].ptrs);
    MembersSize(v[t].ptrs);
    assert MayPtrs(v) !! x && MayPtrs(v) !! y && x !! y;
    assert MayPtrs(w) == MayPtrs(v) + x + y by {
      JoinedMayPtrs(v, s, t, may);
    }
  }

  lemma JoinedMayPtrs(v: View, s: SetId, t: SetId, may: bool)
    requires s in v && t in v && s != t && (v[s].may || v[t].may ==> may)
    ensures MayPtrs((v - {t})[s := JoinCells(v[s], v[t], may)]) ==
            MayPtrs(v) + (if may && !v[s].may then Members(v[s].ptrs) else {}) + (if may && !v[t].may then Members(v[t].ptrs) else {})
  {
    var w := (v - {t})[s := JoinCells(v[s], v[t], may)];
    var more := (if may && !v[s].may then Members(v[s].ptrs) else {}) + (if may && !v[t].may then Members(v[t].ptrs) else {});
    forall p
      ensures p in MayPtrs(w) <==> p in MayPtrs(v) || p in more
    {
      if p in MayPtrs(v) {
        var u :| u in v && v[u].may && p in v[u].ptrs;
        var u' := if u == t then s else u;
        assert w[u'].may && p in w[u'].ptrs;
      }
      if p in more {
        assert w[s].may && p in w[s].ptrs;
      }
      if p in MayPtrs(w) {
        var u :| u in w && w[u].may && p in w[u].ptrs;
        if u == s {
          assert p in v[s].ptrs || p in v[t].ptrs;
        }
      }
    }
  }

  /** The cell c at s, which may be new, gets the pointer p. */
  lemma MayPtrsAdd(v: View, s: SetId, c: Cell, d: Cell, p: Ptr)
    requires Disjoint(v) && !Tracked(v, P(p)) && (if s in v then c == v[s] else c.ptrs == [])
    requires d.ptrs == c.ptrs + [p] && (c.may ==> d.may)
    ensures |MayPtrs(v[s := d])| == |MayPtrs(v)| + Gain(d.may, c) + (if d.may then 1 else 0)
  {
    var w := v[s := d];
    var x := if d.may && !c.may then Members(c.ptrs) else {};
    if s in v {
      MembersSize(c.ptrs);
    }
    assert forall u :: u in v ==> !v[u].Holds(P(p));
    assert MayPtrs(v) !! x && p !in MayPtrs(v) && p !in x;
    AddedMayPtrs(v, s, c, d, p);
  }

  lemma AddedMayPtrs(v: View, s: SetId, c: Cell, d: Cell, p: Ptr)
    requires (if s in v then c == v[s] else c.ptrs == []) && d.ptrs == c.ptrs + [p] && (c.may ==> d.may)
    ensures MayPtrs(v[s := d]) == MayPtrs(v) + (if d.may && !c.may then Members(c.ptrs) else {}) + (if d.may then {p} else {})
  {
    var w := v[s := d];
    var more := (if d.may && !c.may then Members(c.ptrs) else {}) + (if d.may then {p} else {});
    forall q
      ensures q in MayPtrs(w) <==> q in MayPtrs(v) || q in more
    {
      if q in MayPtrs(v) {
        var u :| u in v && v[u].may && q in v[u].ptrs;
        assert w[u].may && q in w[u].ptrs;
      }
      if q in more {
        assert w[s].may && q in w[s].ptrs;
      }
      if q in MayPtrs(w) {
        var u :| u in w && w[u].may && q in w[u].ptrs;
        if u == s {
          assert q in c.ptrs || q == p;
        }
      }
    }
  }

  lemma AccessedMayPtrs(v: View, s: SetId, ref: bool, mod: bool)
    requires s in v
    ensures MayPtrs(Accessed(v, s, ref, mod)) == MayPtrs(v)
  {
    var w := Accessed(v, s, ref, mod);
    assert forall t :: t in v ==> t in w && w[t].may == v[t].may && w[t].ptrs == v[t].ptrs;
  }

  // ---- the tracker's steps -------------------------------------------------------------------

  lemma StillSized(a: Arena, b: Arena)
    requires Tidied(a, b)
    ensures SizesOk(a) ==> SizesOk(b)
  {
    if SizesOk(a) {
      TidiedSizes(a, b);
    }
  }

  lemma SizeKnown(a: Arena, s: SetId)
    requires SizesOk(a) && s in a.sets && a.sets[s].forward == None
    ensures a.sets[s].size == |a.sets[s].ptrs|
  {
    assert SizeOk(a, s);
  }

  /** addPointer, as a whole. */
  lemma PointerPut(o: Oracle, a: Arena, b: Arena, s: SetId, p: Ptr, known: bool, young: Option<SetId>)
    requires a.Inv(None, young) && young in {None, Some(s)} && p !in a.recs && s in a.sets && a.sets[s].forward == None
    requires var x := a.sets[s];
             b == a.(sets := a.sets[s := x.(ptrs := x.ptrs + [p], size := x.size + 1, refCount := x.refCount + 1,
                                            may := MayWith(o, CellOf(x), p, known))],
                     recs := a.recs[p := s])
    ensures b.Inv(None, None) && ViewOf(b) == ViewOf(a)[s := WithPointer(o, CellOf(a.sets[s]), p, known)]
    ensures SizesOk(a) ==> SizesOk(b) && a.sets[s].size == |a.sets[s].ptrs|
  {
    hide Arena.Inv, ViewOf, SizesOk;
    assert PointerAdded(a, b, s, p, MayWith(o, CellOf(a.sets[s]), p, known));
    PointerAddedKeeps(a, b, s, p, MayWith(o, CellOf(a.sets[s]), p, known), young);
    OnlySetView(a, b, s);
    if SizesOk(a) {
      SizeKnown(a, s);
      OnlySetSizes(a, b, s);
    }
  }

  /** addUnknownInst, as a whole. */
  lemma InstPut(a: Arena, b: Arena, s: SetId, i: Inst, writes: bool, young: Option<SetId>)
    requires a.Inv(None, young) && young in {None, Some(s)} && s in a.sets && a.sets[s].forward == None
    requires var x := a.sets[s];
             b == a.(sets := a.sets[s := x.(unknown := x.unknown + [i], may := true, isRef := true, isMod := x.isMod || writes,
                                            refCount := if x.unknown == [] then x.refCount + 1 else x.refCount)])
    ensures b.Inv(None, None) && ViewOf(b) == ViewOf(a)[s := WithInst(CellOf(a.sets[s]), i, writes)]
    ensures SizesOk(a) ==> SizesOk(b)
  {
    hide Arena.Inv, ViewOf, SizesOk;
    assert InstAdded(a, b, s, i, writes);
    InstAddedKeeps(a, b, s, i, writes, young);
    OnlySetView(a, b, s);
    if SizesOk(a) {
      OnlySetSizes(a, b, s);
    }
  }

  /** Instructions put pointers in may-alias sets, and take none out. */
  lemma InstMayPtrs(v: View, s: SetId, c: Cell, i: Inst, writes: bool)
    requires if s in v then c == v[s] else c.ptrs == []
    ensures |MayPtrs(v[s := WithInst(c, i, writes)])| >= |MayPtrs(v)|
  {
    var w := v[s := WithInst(c, i, writes)];
    forall p | p in MayPtrs(v)
      ensures p in MayPtrs(w)
    {
      var t :| t in v && v[t].may && p in v[t].ptrs;
      assert w[t].may && p in w[t].ptrs;
    }
    FewerPtrs(MayPtrs(v), MayPtrs(w));
  }

  lemma FewerPtrs(x: set<Ptr>, y: set<Ptr>)
    requires x <= y
    ensures |x| <= |y|
  {
    assert y == x + (y - x);
  }

  lemma JoinSized(o: Oracle, a: Arena, s: SetId, t: SetId)
    requires a.Inv(None, None) && s in ViewOf(a) && t in ViewOf(a) && s != t
    requires s in a.sets && t in a.sets && ViewOf(a)[s] == CellOf(a.sets[s]) && ViewOf(a)[t] == CellOf(a.sets[t])
    ensures var x, y := CellOf(a.sets[s]), CellOf(a.sets[t]);
            |MayPtrs((ViewOf(a) - {t})[s := Join(o, x, y)])| ==
            |MayPtrs(ViewOf(a))| + Gain(JoinMay(o, x, y), x) + Gain(JoinMay(o, x, y), y)
  {
    hide ViewOf, MayPtrs, Gain;
    ViewDisjoint(a);
    MayPtrsJoin(ViewOf(a), s, t, JoinMay(o, ViewOf(a)[s], ViewOf(a)[t]));
  }

  lemma AddSized(o: Oracle, a: Arena, s: SetId, c: Cell, p: Ptr, young: Option<SetId>)
    requires a.Inv(None, young) && p !in a.recs && (if s in ViewOf(a) then c == ViewOf(a)[s] else c.ptrs == [])
    ensures |MayPtrs(ViewOf(a)[s := WithPointer(o, c, p, false)])| ==
            |MayPtrs(ViewOf(a))| + Gain(MayWith(o, c, p, false), c) + (if MayWith(o, c, p, false) then 1 else 0)
  {
    hide MayPtrs, Gain;
    ViewDisjoint(a);
    forall t | t in ViewOf(a)
      ensures p !in ViewOf(a)[t].ptrs
    {
      assert a.PointersOk(t);
    }
    MayPtrsAdd(ViewOf(a), s, c, WithPointer(o, c, p, false), p);
  }

  lemma NothingSized(a: Arena)
    requires a == Arena(map[], [], 0, map[], None)
    ensures ViewOf(a) == map[] && SizesOk(a) && Gap(a, 0) == 0
  {
    assert MayPtrs(map[]) == {};
  }

  // ---- deleting the last ---------------------------------------------------------------------

  lemma DeletedHolds(v: View, p: Ptr, s: SetId, n: Node)
    requires s in v && NoDup(v[s].ptrs)
    ensures s in Deleted(v, p) && Deleted(v, p)[s].Holds(n) <==> v[s].Holds(n) && n != P(p)
  {
    RemoveOne(v[s].ptrs, p);
    if v[s].Holds(n) && n != P(p) && v[s].ptrs == [p] {
      assert v[s].unknown != [];
    }
  }

  /** What is tracked after p has been deleted. */
  lemma DeletedTracks(v: View, p: Ptr, n: Node)
    requires Disjoint(v)
    ensures Tracked(Deleted(v, p), n) <==> Tracked(v, n) && n != P(p)
  {
    hide Deleted;
    DeletedKeys(v, p);
    forall s | s in v
      ensures s in Deleted(v, p) && Deleted(v, p)[s].Holds(n) <==> v[s].Holds(n) && n != P(p)
    {
      DeletedHolds(v, p, s, n);
    }
  }

  /** Deleting p leaves nothing just when nothing else is tracked. */
  lemma NothingLeft(a: Arena, p: Ptr)
    requires a.Inv(None, None)
    ensures Deleted(ViewOf(a), p) == map[] <==> forall n :: Tracked(ViewOf(a), n) ==> n == P(p)
    ensures forall n :: Tracked(Deleted(ViewOf(a), p), n) <==> Tracked(ViewOf(a), n) && n != P(p)
  {
    var v := ViewOf(a);
    ViewDisjoint(a);
    forall n
      ensures Tracked(Deleted(v, p), n) <==> Tracked(v, n) && n != P(p)
    {
      DeletedTracks(v, p, n);
    }
    if Deleted(v, p) != map[] {
      var s :| s in Deleted(v, p);
      SomeHeld(v, p, s);
    }
  }

  lemma SomeHeld(v: View, p: Ptr, s: SetId)
    requires s in Deleted(v, p) && (v[s].ptrs != [] || v[s].unknown != [])
    ensures exists n :: Tracked(Deleted(v, p), n)
  {
    var c := Deleted(v, p)[s];
    RemoveSome(v[s].ptrs, p);
    if c.ptrs != [] {
      assert c.Holds(P(c.ptrs[0]));
      assert Tracked(Deleted(v, p), P(c.ptrs[0]));
    } else {
      assert c.Holds(I(c.unknown[0]));
      assert Tracked(Deleted(v, p), I(c.unknown[0]));
    }
  }

  lemma BothTracked(v: View, w: View, u: View, p: Ptr, q: Ptr)
    requires v == map[] && Grows(v, w, P(p)) && Grows(w, u, P(q))
    ensures forall n :: Tracked(u, n) <==> n == P(p) || n == P(q)
  {
  }

  /** Pointers that may but need not alias are in one may-alias set. */
  lemma BothInMaySet(o: Oracle, v: View, p: Ptr, q: Ptr)
    requires o.Good() && Exact(o, v) && p != q && o.alias(p, q) == MayAlias
    requires forall n :: Tracked(v, n) <==> n == P(p) || n == P(q)
    ensures |MayPtrs(v)| > 0
  {
    hide Exact, Together, Reaches;
    var nodes := {P(p), P(q)};
    assert Linking(o, nodes, P(p), P(q), [P(p), P(q)]);
    assert Reaches(o, nodes, P(p), P(q)) by {
      ReachesBy(o, nodes, P(p), P(q), [P(p), P(q)]);
    }
    SetsAreComponents(o, v, nodes, P(p), P(q));
    TogetherInMaySet(o, v, p, q);
  }

  lemma ReachesBy(o: Oracle, nodes: set<Node>, n: Node, m: Node, path: seq<Node>)
    requires Linking(o, nodes, n, m, path)
    ensures Reaches(o, nodes, n, m)
  {
  }

  lemma TogetherInMaySet(o: Oracle, v: View, p: Ptr, q: Ptr)
    requires Exact(o, v) && p != q && o.alias(p, q) == MayAlias && Together(v, P(p), P(q))
    ensures |MayPtrs(v)| > 0
  {
    var s :| s in v && v[s].Holds(P(p)) && v[s].Holds(P(q));
    assert CellOk(o, v[s]);
    assert v[s].may && p in v[s].ptrs;
    assert p in MayPtrs(v);
  }
}
