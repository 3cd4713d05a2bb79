/** What the methods of the tracker leave alone, and what they do to the view as a whole. */
module AliasFrames {
  import opened AliasSets
  import opened AliasChanges
  import opened AliasView
  import opened AliasExact

  ghost predicate Untouched(a: Arena, b: Arena, t: SetId)
    requires t in a.sets
  {
    t in b.sets && b.sets[t] == a.sets[t]
  }

  /** Sets above a rank are not touched. */
  ghost predicate Above(a: Arena, b: Arena, rank: nat) {
    forall t {:trigger Untouched(a, b, t)} :: t in a.sets && a.Rank(t) > rank ==> Untouched(a, b, t)
  }

  lemma AboveTrans(a: Arena, b: Arena, c: Arena, low: nat, high: nat)
    requires Above(a, b, low) && Above(b, c, high) && b.any == a.any
    ensures Above(a, c, if low < high then high else low)
  {
    forall t | t in a.sets && a.Rank(t) > if low < high then high else low
      ensures Untouched(a, c, t)
    {
      assert Untouched(a, b, t) && Untouched(b, c, t);
    }
  }

  lemma AboveRefl(a: Arena, rank: nat)
    ensures Above(a, a, rank)
  {
  }

  lemma AboveAt(a: Arena, b: Arena, rank: nat, t: SetId)
    requires Above(a, b, rank) && t in a.sets && a.Rank(t) > rank
    ensures t in b.sets && b.sets[t] == a.sets[t]
  {
    assert Untouched(a, b, t);
  }

  lemma RedirectedAbove(a: Arena, b: Arena, s: SetId, d: SetId)
    requires Redirected(a, b, s, d) && a.Rank(d) < a.Rank(s)
    ensures Above(a, b, a.Rank(s))
  {
    forall t | t in a.sets && a.Rank(t) > a.Rank(s)
      ensures Untouched(a, b, t)
    {
    }
  }

  lemma TidiedTarget(a: Arena, b: Arena, s: SetId)
    requires Tidied(a, b) && s in a.sets && s in b.sets
    ensures b.Target(s) == a.Target(s) && (b.sets[s].forward == None <==> a.sets[s].forward == None)
  {
    assert SetTidied(a, b, s);
  }

  lemma RecordKnown(a: Arena, p: Ptr)
    requires a.Forwards() && a.Recorded() && p in a.recs
    ensures a.recs[p] in a.sets && p in a.sets[a.Target(a.recs[p])].ptrs
  {
    assert a.RecordOk(p);
  }

  /** What merging t into s does to the list of sets. */
  ghost predicate MergedFrame(a: Arena, b: Arena, s: SetId, t: SetId) {
    && a.Forwards() && b.Forwards() && b.sets.Keys <= a.sets.Keys
    && (forall x {:trigger MergeTargetOk(a, b, s, t, x)} :: x in b.sets ==> MergeTargetOk(a, b, s, t, x))
    && (forall x {:trigger Untouched(a, b, x)} :: x in a.sets && x != s && a.Rank(x) > a.Rank(t) ==> Untouched(a, b, x))
  }

  lemma MergedTargets(a: Arena, b: Arena, c: Arena, s: SetId, t: SetId, may: bool)
    requires a.Forwards() && b.Forwards() && Mergeable(a, s, t) && Merged(a, b, s, t, may)
    requires Tidied(b, c) && Above(b, c, b.Rank(t))
    ensures MergedFrame(a, c, s, t)
  {
    forall x | x in c.sets
      ensures MergeTargetOk(a, c, s, t, x)
    {
      MergeTarget(a, b, s, t, may, x);
      assert SetTidied(b, c, x);
    }
    forall x | x in a.sets && x != s && a.Rank(x) > a.Rank(t)
      ensures Untouched(a, c, x)
    {
      assert Untouched(b, c, x);
    }
  }

  lemma IsMerged(a: Arena, b: Arena, s: SetId, t: SetId, merged: ASet, emptied: ASet, may: bool)
    requires Mergeable(a, s, t) && b == a.(sets := a.sets[s := merged][t := emptied])
    requires var x, y := a.sets[s], a.sets[t];
             && merged == ASet(x.ptrs + y.ptrs, merged.size, x.forward, x.unknown + y.unknown, merged.refCount,
                               x.aliasAny, x.isRef || y.isRef, x.isMod || y.isMod, may)
             && merged.refCount == x.refCount + 1 + (if x.unknown == [] && y.unknown != [] then 1 else 0)
             && emptied == y.(ptrs := [], size := emptied.size, unknown := [], forward := Some(s))
             && (x.may || y.may ==> may)
    ensures Merged(a, b, s, t, may)
  {
  }

  /** A live must-alias set has a pointer. */
  lemma MustHolds(a: Arena, s: SetId)
    requires a.Inv(None, None) && a.Live(s) && !a.sets[s].may
    ensures a.sets[s].ptrs != []
  {
    LiveIsShown(a, s, None);
    assert a.FlagsOk(s);
  }

  lemma MustHasNoInst(a: Arena, s: SetId)
    requires a.Flagged() && s in a.sets && !a.sets[s].may
    ensures a.sets[s].unknown == []
  {
    assert a.FlagsOk(s);
  }

  /** In a saturated tracker only the one set is shown. */
  predicate OneSet(a: Arena) {
    a.any.Some? ==> ViewOf(a).Keys <= {a.any.value} && forall s :: s in ViewOf(a) ==> ViewOf(a)[s].isRef && ViewOf(a)[s].isMod
  }

  lemma StillOneSet(a: Arena, b: Arena)
    requires OneSet(a) && b.any == a.any && ViewOf(b) == ViewOf(a)
    ensures OneSet(b)
  {
  }

  lemma NextUnused(a: Arena)
    requires a.Inv(None, None)
    ensures a.next !in a.sets
  {
  }

  lemma AllListed(a: Arena)
    requires a.Inv(None, None)
    ensures forall j :: 0 <= j < |a.order| ==> a.order[j] in a.sets
    ensures forall j, k :: 0 <= j < k < |a.order| ==> a.order[j] < a.order[k]
  {
    assert forall j :: 0 <= j < |a.order| ==> a.order[j] in a.order;
  }

  lemma ShownIsLive(a: Arena, s: SetId)
    requires a.Inv(None, None) && (s in a.sets || s in ViewOf(a))
    ensures s in a.sets && (s in ViewOf(a) <==> a.sets[s].forward == None)
    ensures s in ViewOf(a) ==> ViewOf(a)[s] == CellOf(a.sets[s])
  {
    if a.sets[s].forward == None {
      LiveIsShown(a, s, None);
    }
  }

  lemma FrameAbove(a: Arena, b: Arena, s: SetId, t: SetId)
    requires MergedFrame(a, b, s, t) && a.any == None
    ensures forall x :: x in a.sets && x > t && x != s ==> x in b.sets
  {
    forall x | x in a.sets && x > t && x != s
      ensures x in b.sets
    {
      assert Untouched(a, b, x);
    }
  }

  lemma AnyBelow(a: Arena)
    requires a.Flagged()
    ensures a.any.Some? ==> a.any.value < a.next
  {
  }

  lemma TidiedRecs(a: Arena, b: Arena)
    requires Tidied(a, b)
    ensures b.recs.Keys == a.recs.Keys && b.any == a.any && b.next == a.next
  {
  }

  lemma SaturatedSweep(o: Oracle, a: Arena, n: Node)
    requires a.Inv(None, None) && OneSet(a) && a.any.Some? && a.any.value in a.sets
    ensures a.any.value in ViewOf(a) && ViewOf(a)[a.any.value].wide && ViewOf(a)[a.any.value].may
    ensures Sweep(o, ViewOf(a), a.order, n, None) == (ViewOf(a), a.any)
  {
    var s := a.any.value;
    ShownIsLive(a, s);
    assert a.FlagsOk(s);
    SweepSaturated(o, ViewOf(a), a.order, n, s, false);
  }

  lemma ViewFlags(a: Arena)
    requires a.Inv(None, None)
    ensures forall s {:trigger ViewOf(a)[s]} :: s in ViewOf(a) ==>
      (ViewOf(a)[s].wide <==> a.any == Some(s)) && (ViewOf(a)[s].wide ==> ViewOf(a)[s].may) &&
      (!ViewOf(a)[s].may ==> ViewOf(a)[s].ptrs != [])
  {
    forall s | s in ViewOf(a)
      ensures ViewOf(a)[s].wide <==> a.any == Some(s)
      ensures ViewOf(a)[s].wide ==> ViewOf(a)[s].may
      ensures !ViewOf(a)[s].may ==> ViewOf(a)[s].ptrs != []
    {
      assert a.FlagsOk(s);
    }
  }

  lemma ViewMeets(o: Oracle, a: Arena, p: Ptr)
    requires a.Inv(None, None)
    ensures var (w, r) := Sweep(o, ViewOf(a), a.order, P(p), None); r.Some? ==> FirstMeets(o, w[r.value], p)
  {
    hide Arena.Inv, ViewOf;
    ViewFlags(a);
    SweepMeets(o, ViewOf(a), a.order, p, None);
  }

  // ---- merging all sets ------------------------------------------------------------

  /** c holds everything and is taken to alias anything. */
  ghost predicate AllIn(v: View, c: Cell) {
    c.may && c.wide && c.isRef && c.isMod && forall n :: c.Holds(n) <==> Tracked(v, n)
  }

  /** The first i sets of the list have been merged into the new set s. */
  ghost predicate Absorbed(a: Arena, b: Arena, s: SetId, i: nat) {
    && b.Forwards() && i <= |a.order|
    && s == a.next && s in b.sets && b.sets[s].forward == None && b.any == Some(s)
    && (i > 0 ==> b.sets[s].refCount > 0)
    && b.sets[s].may && b.sets[s].isRef && b.sets[s].isMod
    && (forall j {:trigger a.order[j]} :: i <= j < |a.order| ==>
          a.order[j] in a.sets && a.order[j] in b.sets && b.sets[a.order[j]] == a.sets[a.order[j]])
    && (forall x {:trigger x in b.sets} :: x in b.sets && x != s ==> x in a.order)
    && (forall j {:trigger a.order[j]} :: 0 <= j < i && a.order[j] in b.sets ==> b.Target(a.order[j]) == s)
    && forall n {:trigger Tracked(ViewOf(b), n)} :: Tracked(ViewOf(b), n) <==> Tracked(ViewOf(a), n)
  }

  lemma StartAbsorbing(a: Arena, b: Arena, s: SetId)
    requires a.Inv(None, None) && SetAdded(a, b, s) && b.any == Some(s)
    requires b.sets[s].may && b.sets[s].isRef && b.sets[s].isMod
    ensures b.Inv(None, Some(s)) && Absorbed(a, b, s, 0)
  {
    SetAddedKeeps(a, b, s);
    SetAddedView(a, b, s);
    AllListed(a);
  }

  lemma Matured(b: Arena, s: SetId)
    requires b.Inv(None, Some(s)) && s in b.sets && b.sets[s].refCount > 0
    ensures b.Inv(None, None)
  {
    forall t | t in b.sets
      ensures b.CountOk(t, None, None)
    {
      assert b.CountOk(t, None, Some(s));
    }
  }

  lemma Ripe(b: Arena, s: SetId)
    requires b.Inv(None, None)
    ensures b.Inv(None, Some(s))
  {
    forall t | t in b.sets
      ensures b.CountOk(t, None, Some(s))
    {
      assert b.CountOk(t, None, None);
    }
  }

  lemma NextAbsorbed(a: Arena, b: Arena, s: SetId, i: nat)
    requires a.Inv(None, None) && b.Inv(None, Some(s)) && Absorbed(a, b, s, i) && i < |a.order|
    ensures var cur := a.order[i];
            && s in b.sets && b.sets[s].may && cur in b.sets
            && (b.sets[cur].forward == None ==> Mergeable(b, s, cur))
            && (b.sets[cur].forward.Some? ==>
                  && b.sets[cur].forward.value in b.sets && b.sets[cur].forward != Some(s)
                  && b.Target(cur) == s && b.sets[s].refCount > 0 && cur != s)
  {
    var cur := a.order[i];
    assert cur in a.order;
    assert a.ForwardOk(cur) && b.ForwardOk(cur);
    if b.sets[cur].forward.Some? {
      var f := b.sets[cur].forward.value;
      assert f in a.order;
      var k :| 0 <= k < |a.order| && a.order[k] == f;
      assert k < i;
      assert b.Target(a.order[k]) == s;
    }
  }

  lemma AbsorbForwarder(a: Arena, b: Arena, c: Arena, d: Arena, s: SetId, i: nat)
    requires a.Inv(None, None) && Absorbed(a, b, s, i) && i < |a.order| && a.order[i] in b.sets
    requires b.sets[a.order[i]].forward.Some? && b.Target(a.order[i]) == s
    requires Redirected(b, c, a.order[i], s) && Tidied(b, c) && Tidied(c, d) && d.Inv(None, None)
    requires b.sets[a.order[i]].forward.value in b.sets && Above(c, d, b.Rank(b.sets[a.order[i]].forward.value))
    requires b.sets[a.order[i]].forward != Some(s)
    ensures Absorbed(a, d, s, i + 1)
  {
    hide Tidied, Above, Redirected, Shown, ViewOf, Arena.Listed, Arena.Recorded, Arena.Counted, Arena.Flagged;
    TidiedTrans(b, c, d);
    TidiedView(b, d);
    UnabsorbedStay(a, b, c, d, s, i);
    PositiveRef(d, s);
    TidiedAt(b, d, s);
    forall j | 0 <= j < i + 1 && a.order[j] in d.sets
      ensures d.Target(a.order[j]) == s
    {
      TidiedAt(b, d, a.order[j]);
    }
  }

  lemma TidiedAt(a: Arena, b: Arena, s: SetId)
    requires Tidied(a, b)
    ensures b.sets.Keys <= a.sets.Keys && b.any == a.any
    ensures s in b.sets ==> Kept(a.sets[s], b.sets[s]) && b.Target(s) == a.Target(s)
  {
    assert s in a.sets ==> SetTidied(a, b, s);
  }

  lemma UnabsorbedStay(a: Arena, b: Arena, c: Arena, d: Arena, s: SetId, i: nat)
    requires a.Inv(None, None) && Absorbed(a, b, s, i) && i < |a.order| && a.order[i] in b.sets
    requires b.sets[a.order[i]].forward.Some? && b.Target(a.order[i]) == s && Tidied(b, c) && Tidied(c, d)
    requires Redirected(b, c, a.order[i], s)
    requires b.sets[a.order[i]].forward.value in b.sets && Above(c, d, b.Rank(b.sets[a.order[i]].forward.value))
    requires b.sets[a.order[i]].forward != Some(s)
    ensures s in d.sets
    ensures forall j {:trigger a.order[j]} :: i + 1 <= j < |a.order| ==>
              a.order[j] in a.sets && a.order[j] in d.sets && d.sets[a.order[j]] == a.sets[a.order[j]]
  {
    hide Arena.Recorded, Arena.Counted, Arena.Flagged;
    var cur := a.order[i];
    assert b.ForwardOk(cur);
    AllListed(a);
    assert Untouched(c, d, cur);
    TidiedAt(b, c, cur);
    TidiedAt(c, d, cur);
    forall j | i + 1 <= j < |a.order|
      ensures a.order[j] in a.sets && a.order[j] in d.sets && d.sets[a.order[j]] == a.sets[a.order[j]]
    {
      assert Untouched(c, d, a.order[j]);
    }
  }

  lemma AbsorbSet(o: Oracle, a: Arena, b: Arena, c: Arena, s: SetId, i: nat)
    requires a.Inv(None, None) && Absorbed(a, b, s, i) && i < |a.order| && a.order[i] in b.sets && s in b.sets
    requires b.Inv(None, Some(s)) && Mergeable(b, s, a.order[i])
    requires MergedFrame(b, c, s, a.order[i]) && c.Inv(None, None) && c.any == b.any
    requires ViewOf(c) == AbsorbedView(o, b, s, a.order[i])
    ensures Absorbed(a, c, s, i + 1)
  {
    hide MergedFrame, Arena.Listed, Arena.Recorded, Arena.Counted, Arena.Flagged, Shown;
    AbsorbTargets(a, b, c, s, i);
    AbsorbTracks(o, b, c, s, a.order[i]);
    ShownIsLive(c, s);
    PositiveRef(c, s);
  }

  lemma PositiveRef(a: Arena, s: SetId)
    requires a.Inv(None, None) && s in a.sets
    ensures a.sets[s].refCount > 0
  {
    assert a.CountOk(s, None, None);
  }

  lemma AbsorbTargets(a: Arena, b: Arena, c: Arena, s: SetId, i: nat)
    requires a.Inv(None, None) && Absorbed(a, b, s, i) && i < |a.order| && Mergeable(b, s, a.order[i])
    requires MergedFrame(b, c, s, a.order[i])
    ensures forall j {:trigger a.order[j]} :: i + 1 <= j < |a.order| ==>
              a.order[j] in a.sets && a.order[j] in c.sets && c.sets[a.order[j]] == a.sets[a.order[j]]
    ensures forall j {:trigger a.order[j]} :: 0 <= j < i + 1 && a.order[j] in c.sets ==> c.Target(a.order[j]) == s
    ensures forall x {:trigger x in c.sets} :: x in c.sets && x != s ==> x in a.order
  {
    AllListed(a);
    forall j | i + 1 <= j < |a.order|
      ensures a.order[j] in a.sets && a.order[j] in c.sets && c.sets[a.order[j]] == a.sets[a.order[j]]
    {
      assert Untouched(b, c, a.order[j]);
    }
    forall j | 0 <= j < i + 1 && a.order[j] in c.sets
      ensures c.Target(a.order[j]) == s
    {
      assert MergeTargetOk(b, c, s, a.order[i], a.order[j]);
    }
    forall x | x in c.sets && x != s
      ensures x in a.order
    {
      assert x in b.sets;
    }
  }

  lemma AbsorbTracks(o: Oracle, b: Arena, c: Arena, s: SetId, t: SetId)
    requires Mergeable(b, s, t) && b.Inv(None, Some(s)) && ViewOf(c) == AbsorbedView(o, b, s, t)
    ensures forall n {:trigger Tracked(ViewOf(c), n)} :: Tracked(ViewOf(c), n) <==> Tracked(ViewOf(b), n)
  {
    LiveIsShown(b, t, Some(s));
    var v, w := ViewOf(b), ViewOf(c);
    forall n
      ensures Tracked(w, n) <==> Tracked(v, n)
    {
      if x :| x in v && v[x].Holds(n) {
        assert w[if x == t then s else x].Holds(n);
      }
      if x :| x in w && w[x].Holds(n) {
        assert x != s ==> v[x].Holds(n);
        assert x == s ==> CellOf(b.sets[s]).Holds(n) || v[t].Holds(n);
        assert CellOf(b.sets[s]).Holds(n) ==> s in v && v[s].Holds(n);
      }
    }
  }

  function AbsorbedView(o: Oracle, b: Arena, s: SetId, t: SetId): View
    requires s in b.sets && t in b.sets
  {
    (ViewOf(b) - {t})[s := Join(o, CellOf(b.sets[s]), CellOf(b.sets[t]))]
  }

  lemma AbsorbedTarget(a: Arena, b: Arena, s: SetId, x: SetId)
    requires Absorbed(a, b, s, |a.order|) && x in b.sets
    ensures b.Target(x) == s
  {
    if x != s {
      var k :| 0 <= k < |a.order| && a.order[k] == x;
      assert b.Target(a.order[k]) == s;
    }
  }

  lemma AllAbsorbed(a: Arena, b: Arena, s: SetId)
    requires a.Inv(None, None) && a.order != [] && b.Inv(None, Some(s)) && Absorbed(a, b, s, |a.order|)
    ensures b.Inv(None, None) && OneSet(b) && b.any == Some(s) && s in b.sets
    ensures ViewOf(b).Keys == {s} && AllIn(ViewOf(a), ViewOf(b)[s])
  {
    Matured(b, s);
    ShownIsLive(b, s);
    assert b.FlagsOk(s);
    forall x | x in ViewOf(b)
      ensures x == s
    {
      AbsorbedTarget(a, b, s, x);
    }
    assert forall n :: Tracked(ViewOf(b), n) <==> ViewOf(b)[s].Holds(n);
  }

  lemma IsRedirected(a: Arena, b: Arena, s: SetId, d: SetId)
    requires s in a.sets && d in a.sets && s != d && b == Redirect(a, s, d)
    ensures Redirected(a, b, s, d)
  {
  }

  // ---- views of whole operations ---------------------------------------------------

  lemma RecsTracked(a: Arena, p: Ptr)
    requires a.Inv(None, None)
    ensures Tracked(ViewOf(a), P(p)) <==> p in a.recs
  {
    if p in a.recs {
      assert a.RecordOk(p);
      ShownIsLive(a, a.Target(a.recs[p]));
    }
    if s :| s in ViewOf(a) && ViewOf(a)[s].Holds(P(p)) {
      assert a.PointersOk(s);
    }
  }

  lemma InOrder(a: Arena, s: SetId)
    requires a.Inv(None, None) && s in a.sets
    ensures s in a.order
  {
  }

  lemma ViewInOrder(a: Arena)
    requires a.Inv(None, None)
    ensures ViewOf(a).Keys <= (set s | s in a.order) && a.next !in ViewOf(a)
  {
    forall s | s in ViewOf(a)
      ensures s in a.order
    {
      InOrder(a, s);
    }
  }

  /** The view after GetAliasSetFor. */
  function Got(o: Oracle, a: Arena, p: Ptr): View {
    if p in a.recs then ViewOf(a) else Added(o, ViewOf(a), a.order, a.next, P(p), false)
  }

  /** GetAliasSetFor keeps the view exact and tracks the pointer. */
  lemma GotTracks(o: Oracle, a: Arena, p: Ptr)
    requires a.Inv(None, None)
    ensures Grows(ViewOf(a), Got(o, a, p), P(p))
    ensures o.Good() && Exact(o, ViewOf(a)) ==> Exact(o, Got(o, a, p))
  {
    hide Arena.Inv, ViewOf, Exact, Added, Oracle.Good;
    RecsTracked(a, p);
    if p !in a.recs {
      ViewInOrder(a);
      AddedTracks(o, ViewOf(a), a.order, a.next, P(p), false);
      if o.Good() && Exact(o, ViewOf(a)) {
        AddedExact(o, ViewOf(a), a.order, a.next, P(p), false);
      }
    }
  }

  lemma GrownTracks(v: View, w: View, n: Node)
    requires Grows(v, w, n)
    ensures Tracked(w, n)
  {
  }

  lemma AllInTracks(v: View, w: View, s: SetId)
    requires w.Keys == {s} && AllIn(v, w[s])
    ensures SameTracked(v, w)
  {
  }

  lemma SaturatedIsShown(a: Arena)
    requires a.Inv(None, None) && OneSet(a)
    ensures a.any.Some? ==> (a.any.value in a.sets <==> ViewOf(a) != map[])
  {
    if a.any.Some? && a.any.value in a.sets {
      ShownIsLive(a, a.any.value);
    }
    if a.any.Some? && ViewOf(a) != map[] {
      var s :| s in ViewOf(a);
      ShownIsLive(a, s);
    }
  }

  lemma DeletedView(a: Arena, b: Arena, s: SetId, p: Ptr)
    requires a.Inv(None, None) && PointerRemoved(a, b, s, p)
    ensures ViewOf(b) == Deleted(ViewOf(a), p)
  {
    hide Arena.Inv, Shown;
    forall t | t in a.sets
      ensures t in ViewOf(b) <==> t in Deleted(ViewOf(a), p)
      ensures t in ViewOf(b) ==> ViewOf(b)[t] == Deleted(ViewOf(a), p)[t]
    {
      DeletedAt(a, b, s, p, t);
    }
  }

  lemma DeletedAt(a: Arena, b: Arena, s: SetId, p: Ptr, t: SetId)
    requires a.Inv(None, None) && PointerRemoved(a, b, s, p) && t in a.sets
    ensures Shown(b.sets[t]) <==> Shown(a.sets[t]) && (a.sets[t].ptrs != [p] || a.sets[t].unknown != [])
    ensures CellOf(b.sets[t]) == CellOf(a.sets[t]).(ptrs := Remove(a.sets[t].ptrs, p))
  {
    assert a.RecordOk(p) && a.PointersOk(t);
    if t == s {
      RemoveAll(a.sets[s].ptrs, p);
    } else {
      RemoveNone(a.sets[t].ptrs, p);
    }
  }

  lemma {:induction false} RemoveNone(ptrs: seq<Ptr>, p: Ptr)
    requires p !in ptrs
    ensures Remove(ptrs, p) == ptrs
  {
    if ptrs != [] {
      RemoveNone(ptrs[1..], p);
    }
  }

  lemma RemoveAll(ptrs: seq<Ptr>, p: Ptr)
    requires p in ptrs
    ensures Remove(ptrs, p) == [] <==> ptrs == [p]
  {
  }

  lemma ShownSound(o: Oracle, a: Arena, p: Ptr)
    ensures Sound(o, ViewOf(a)) ==> Sound(o, Deleted(ViewOf(a), p))
  {
    if Sound(o, ViewOf(a)) {
      DeletedKeepsSound(o, ViewOf(a), p);
    }
  }

  lemma DeletedKeys(v: View, p: Ptr)
    ensures Deleted(v, p).Keys <= v.Keys
    ensures forall s :: s in Deleted(v, p) ==> Deleted(v, p)[s].isRef == v[s].isRef && Deleted(v, p)[s].isMod == v[s].isMod
  {
  }

  lemma CopiedView(o: Oracle, a: Arena, s: SetId, from: Ptr, to: Ptr)
    requires a.Inv(None, None) && s in ViewOf(a) && from in ViewOf(a)[s].ptrs
    ensures Copied(o, ViewOf(a), from, to) == ViewOf(a)[s := WithPointer(o, ViewOf(a)[s], to, true)]
  {
    forall t | t in ViewOf(a)
      ensures from in ViewOf(a)[t].ptrs <==> t == s
    {
      assert a.PointersOk(t) && a.PointersOk(s);
    }
  }

  lemma TargetLive(a: Arena, s: SetId)
    requires a.Forwards() && s in a.sets && a.sets[s].forward == None
    ensures a.Target(s) == s
  {
  }

  lemma ForwardRank(a: Arena, s: SetId)
    requires a.Forwards() && s in a.sets && a.sets[s].forward.Some?
    ensures a.sets[s].forward.value in a.sets && a.Rank(a.sets[s].forward.value) < a.Rank(s)
    ensures a.Target(s) == a.Target(a.sets[s].forward.value)
  {
    assert a.ForwardOk(s);
  }

  lemma DropForward(a: Arena, s: SetId)
    requires a.Inv(Some(s), None) && s in a.sets && a.sets[s].refCount == 1
    ensures Above(a, Erase(a, s), a.Rank(s))
    ensures var f := a.sets[s].forward; f.Some? ==> f.value in Erase(a, s).sets && a.Rank(f.value) < a.Rank(s)
  {
    if a.sets[s].forward.Some? {
      ForwardRank(a, s);
    }
    forall t | t in a.sets && a.Rank(t) > a.Rank(s)
      ensures Untouched(a, Erase(a, s), t)
    {
    }
  }

  lemma OwedHasRef(a: Arena, s: SetId)
    requires a.Inv(Some(s), None) && s in a.sets
    ensures a.sets[s].refCount > 0
  {
    assert a.CountOk(s, Some(s), None);
  }

  lemma SetRefAbove(a: Arena, s: SetId, n: int)
    requires s in a.sets
    ensures Above(a, SetRef(a, s, n), a.Rank(s))
  {
    forall t | t in a.sets && a.Rank(t) > a.Rank(s)
      ensures Untouched(a, SetRef(a, s, n), t)
    {
    }
  }
}
