/** What merging, adding and deleting do to the nodes of an alias set tracker, and that its
    invariants survive. */
module AliasChanges {
  import opened AliasSets

  // ---- merging ---------------------------------------------------------------------

  /** mergeSetIn up to its last line: s takes over what t holds, and t forwards to s. */
  ghost predicate Merged(a: Arena, b: Arena, s: SetId, t: SetId, may: bool) {
    && s in a.sets && t in a.sets && s != t
    && b.sets.Keys == a.sets.Keys && b.recs == a.recs && b.order == a.order && b.next == a.next && b.any == a.any
    && b.sets[s].ptrs == a.sets[s].ptrs + a.sets[t].ptrs
    && b.sets[s].unknown == a.sets[s].unknown + a.sets[t].unknown
    && b.sets[s].refCount == a.sets[s].refCount + 1 +
                             (if a.sets[s].unknown == [] && a.sets[t].unknown != [] then 1 else 0)
    && b.sets[s].forward == a.sets[s].forward
    && b.sets[s].aliasAny == a.sets[s].aliasAny
    && b.sets[s].isRef == (a.sets[s].isRef || a.sets[t].isRef)
    && b.sets[s].isMod == (a.sets[s].isMod || a.sets[t].isMod)
    && b.sets[s].may == may && (a.sets[s].may || a.sets[t].may ==> may)
    && b.sets[t].ptrs == [] && b.sets[t].unknown == [] && b.sets[t].forward == Some(s)
    && b.sets[t].refCount == a.sets[t].refCount && b.sets[t].aliasAny == a.sets[t].aliasAny
    && b.sets[t].may == a.sets[t].may
    && forall x :: x in a.sets && x != s && x != t ==> b.sets[x] == a.sets[x]
  }

  /** Which sets mergeSetIn is called on: both live, and the first earlier in the list or the
      one set of a saturated tracker. */
  predicate Mergeable(a: Arena, s: SetId, t: SetId) {
    && s in a.sets && t in a.sets && a.sets[s].forward == None && a.sets[t].forward == None
    && a.any != Some(t) && (s < t || a.any == Some(s)) && s != t
  }

  ghost predicate MergeTargetOk(a: Arena, b: Arena, s: SetId, t: SetId, x: SetId)
    requires a.Forwards() && b.Forwards()
  {
    x in a.sets && x in b.sets && b.Target(x) == if a.Target(x) == t then s else a.Target(x)
  }

  lemma MergeShape(a: Arena, b: Arena, s: SetId, t: SetId, may: bool)
    requires a.Forwards() && a.Flagged() && Mergeable(a, s, t) && Merged(a, b, s, t, may)
    ensures b.Forwards() && b.Flagged()
  {
    forall x | x in b.sets
      ensures b.ForwardOk(x) && b.FlagsOk(x)
    {
      assert a.ForwardOk(x) && a.FlagsOk(x) && a.FlagsOk(s) && a.FlagsOk(t);
    }
  }

  lemma {:induction false} MergeTarget(a: Arena, b: Arena, s: SetId, t: SetId, may: bool, x: SetId)
    requires a.Forwards() && b.Forwards() && Mergeable(a, s, t) && Merged(a, b, s, t, may) && x in a.sets
    ensures MergeTargetOk(a, b, s, t, x)
    decreases a.Rank(x)
  {
    assert a.ForwardOk(x) && b.ForwardOk(x);
    if a.sets[x].forward.Some? {
      MergeTarget(a, b, s, t, may, a.sets[x].forward.value);
    }
  }

  lemma MergeRecord(a: Arena, b: Arena, s: SetId, t: SetId, may: bool, p: Ptr)
    requires a.Forwards() && b.Forwards() && Merged(a, b, s, t, may) && p in a.recs && a.RecordOk(p)
    requires MergeTargetOk(a, b, s, t, a.recs[p])
    ensures b.RecordOk(p)
  {
  }

  lemma MergePointers(a: Arena, b: Arena, s: SetId, t: SetId, may: bool, x: SetId)
    requires a.Forwards() && b.Forwards() && Merged(a, b, s, t, may) && x in b.sets && a.PointersOk(x)
    requires a.PointersOk(s) && a.PointersOk(t)
    requires forall y {:trigger MergeTargetOk(a, b, s, t, y)} :: y in a.sets ==> MergeTargetOk(a, b, s, t, y)
    ensures b.PointersOk(x)
  {
    forall p | p in b.sets[x].ptrs
      ensures p in b.recs && b.recs[p] in b.sets && b.Target(b.recs[p]) == x
    {
      if x == s {
        assert p in a.sets[s].ptrs || p in a.sets[t].ptrs;
      }
      assert MergeTargetOk(a, b, s, t, a.recs[p]);
    }
    if x == s {
      MergeNoDup(a, s, t);
    }
  }

  lemma MergeNoDup(a: Arena, s: SetId, t: SetId)
    requires a.Forwards() && s in a.sets && t in a.sets && s != t && a.PointersOk(s) && a.PointersOk(t)
    ensures NoDup(a.sets[s].ptrs + a.sets[t].ptrs)
  {
    var x, y := a.sets[s].ptrs, a.sets[t].ptrs;
    forall i, j | 0 <= i < j < |x + y|
      ensures (x + y)[i] != (x + y)[j]
    {
      if i < |x| <= j {
        assert x[i] in x && y[j - |x|] in y;
      }
    }
  }

  lemma MergeRecorded(a: Arena, b: Arena, s: SetId, t: SetId, may: bool)
    requires a.Forwards() && b.Forwards() && Mergeable(a, s, t) && Merged(a, b, s, t, may) && a.Recorded()
    ensures b.Recorded()
  {
    hide MergeTargetOk;
    forall x | x in a.sets
      ensures MergeTargetOk(a, b, s, t, x)
    {
      MergeTarget(a, b, s, t, may, x);
    }
    forall p | p in b.recs
      ensures b.RecordOk(p)
    {
      assert a.RecordOk(p);
      MergeRecord(a, b, s, t, may, p);
    }
    forall x | x in b.sets
      ensures b.PointersOk(x)
    {
      assert a.PointersOk(x) && a.PointersOk(s) && a.PointersOk(t);
      MergePointers(a, b, s, t, may, x);
    }
  }

  /** Every set is counted right after the merge, but the merged set keeps the reference that its
      instructions held. */
  lemma MergeCounted(a: Arena, b: Arena, s: SetId, t: SetId, may: bool, young: Option<SetId>)
    requires Mergeable(a, s, t) && Merged(a, b, s, t, may) && a.Counted(None, young) && young in {None, Some(s)}
    ensures b.Counted(if a.sets[t].unknown != [] then Some(t) else None, None)
  {
    var owed := if a.sets[t].unknown != [] then Some(t) else None;
    forall x | x in b.sets
      ensures b.CountOk(x, owed, None)
    {
      assert a.CountOk(x, None, young);
      assert b.Namers(x) == a.Namers(x);
      MergeForwarders(a, b, s, t, may, x);
    }
  }

  lemma MergeForwarders(a: Arena, b: Arena, s: SetId, t: SetId, may: bool, x: SetId)
    requires Mergeable(a, s, t) && Merged(a, b, s, t, may) && x in a.sets
    ensures |b.Forwarders(x)| == |a.Forwarders(x)| + (if x == s then 1 else 0)
  {
    if x == s {
      assert t !in a.Forwarders(x);
      assert b.Forwarders(x) == a.Forwarders(x) + {t};
    } else {
      assert b.Forwarders(x) == a.Forwarders(x);
    }
  }

  lemma MergeKeeps(a: Arena, b: Arena, s: SetId, t: SetId, may: bool, young: Option<SetId>)
    requires a.Inv(None, young) && young in {None, Some(s)}
    requires Mergeable(a, s, t) && Merged(a, b, s, t, may)
    ensures b.Inv(if a.sets[t].unknown != [] then Some(t) else None, None)
  {
    hide Arena.Listed, Arena.Recorded, Arena.Counted, Arena.Flagged, Arena.Forwards, Mergeable;
    MergeShape(a, b, s, t, may);
    MergeRecorded(a, b, s, t, may);
    MergeCounted(a, b, s, t, may, young);
    ListedSame(a, b);
  }

  // ---- adding ----------------------------------------------------------------------

  /** Only the set s changes, and it keeps what it is in the tracker. */
  ghost predicate OnlySet(a: Arena, b: Arena, s: SetId) {
    && s in a.sets && a.sets[s].forward == None
    && b.sets.Keys == a.sets.Keys && b.order == a.order && b.next == a.next && b.any == a.any
    && b.sets[s].forward == None && b.sets[s].aliasAny == a.sets[s].aliasAny
    && forall t :: t in a.sets && t != s ==> b.sets[t] == a.sets[t]
  }

  lemma OnlySetShape(a: Arena, b: Arena, s: SetId)
    requires a.Forwards() && a.Flagged() && OnlySet(a, b, s)
    requires (!b.sets[s].may ==> b.sets[s].unknown == []) && (a.sets[s].may ==> b.sets[s].may)
    ensures b.Forwards() && b.Flagged()
    ensures forall t :: t in a.sets ==> b.Target(t) == a.Target(t)
    ensures forall t :: t in a.sets ==> b.Forwarders(t) == a.Forwarders(t)
  {
    forall t | t in b.sets
      ensures b.ForwardOk(t) && b.FlagsOk(t)
    {
      assert a.ForwardOk(t) && a.FlagsOk(t) && a.FlagsOk(s);
    }
    forall t | t in a.sets
      ensures b.Target(t) == a.Target(t)
    {
      TargetSame(a, b, t);
    }
  }

  /** addPointer: the record of p, until then without a set, comes to name s. */
  ghost predicate PointerAdded(a: Arena, b: Arena, s: SetId, p: Ptr, may: bool) {
    && OnlySet(a, b, s)
    && p !in a.recs && b.recs == a.recs[p := s]
    && b.sets[s].ptrs == a.sets[s].ptrs + [p] && b.sets[s].unknown == a.sets[s].unknown
    && b.sets[s].refCount == a.sets[s].refCount + 1
    && b.sets[s].isRef == a.sets[s].isRef && b.sets[s].isMod == a.sets[s].isMod
    && b.sets[s].may == may && (a.sets[s].may ==> may)
  }

  lemma PointerAddedKeeps(a: Arena, b: Arena, s: SetId, p: Ptr, may: bool, young: Option<SetId>)
    requires a.Inv(None, young) && young in {None, Some(s)} && PointerAdded(a, b, s, p, may)
    ensures b.Inv(None, None)
  {
    hide Arena.Listed, Arena.Recorded, Arena.Counted, Arena.Flagged, Arena.Forwards;
    FlagsKnown(a, s);
    OnlySetShape(a, b, s);
    PointerAddedRecorded(a, b, s, p, may);
    PointerAddedCounted(a, b, s, p, may, young);
    ListedSame(a, b);
  }

  lemma FlagsKnown(a: Arena, s: SetId)
    requires a.Flagged() && s in a.sets
    ensures a.FlagsOk(s)
  {
  }

  lemma PointerAddedRecorded(a: Arena, b: Arena, s: SetId, p: Ptr, may: bool)
    requires a.Forwards() && a.Recorded() && b.Forwards() && PointerAdded(a, b, s, p, may)
    requires forall t :: t in a.sets ==> b.Target(t) == a.Target(t)
    ensures b.Recorded()
  {
    hide Arena.Forwards, Arena.RecordOk, Arena.PointersOk;
    forall q | q in b.recs
      ensures b.RecordOk(q)
    {
      PointerAddedRecord(a, b, s, p, may, q);
    }
    forall t | t in b.sets
      ensures b.PointersOk(t)
    {
      PointerAddedPointers(a, b, s, p, may, t);
    }
  }

  lemma PointerAddedRecord(a: Arena, b: Arena, s: SetId, p: Ptr, may: bool, q: Ptr)
    requires a.Forwards() && b.Forwards() && PointerAdded(a, b, s, p, may) && q in b.recs && (q != p ==> a.RecordOk(q))
    requires forall t :: t in a.sets ==> b.Target(t) == a.Target(t)
    ensures b.RecordOk(q)
  {
    hide Arena.Forwards;
    if q == p {
      assert b.sets[s].ptrs[|a.sets[s].ptrs|] == p;
    }
  }

  lemma PointerAddedPointers(a: Arena, b: Arena, s: SetId, p: Ptr, may: bool, t: SetId)
    requires a.Forwards() && b.Forwards() && PointerAdded(a, b, s, p, may) && t in b.sets && a.PointersOk(t)
    requires forall t :: t in a.sets ==> b.Target(t) == a.Target(t)
    ensures b.PointersOk(t)
  {
    hide Arena.Forwards;
    assert p !in a.sets[t].ptrs;
  }

  lemma PointerAddedCounted(a: Arena, b: Arena, s: SetId, p: Ptr, may: bool, young: Option<SetId>)
    requires a.Counted(None, young) && young in {None, Some(s)} && PointerAdded(a, b, s, p, may)
    requires forall t :: t in a.sets ==> b.Forwarders(t) == a.Forwarders(t)
    ensures b.Counted(None, None)
  {
    hide Arena.Namers;
    forall t | t in b.sets
      ensures b.CountOk(t, None, None)
    {
      assert a.CountOk(t, None, young);
      NamersGrow(a, b, s, p, t);
    }
  }

  lemma NamersGrow(a: Arena, b: Arena, s: SetId, p: Ptr, t: SetId)
    requires p !in a.recs && b.recs == a.recs[p := s]
    ensures |b.Namers(t)| == |a.Namers(t)| + (if t == s then 1 else 0)
  {
    if t == s {
      assert b.Namers(t) == a.Namers(t) + {p};
    } else {
      assert b.Namers(t) == a.Namers(t);
    }
  }

  /** addUnknownInst: the first instruction of a set holds one reference to it. */
  ghost predicate InstAdded(a: Arena, b: Arena, s: SetId, i: Inst, writes: bool) {
    && OnlySet(a, b, s) && b.recs == a.recs
    && b.sets[s].ptrs == a.sets[s].ptrs && b.sets[s].unknown == a.sets[s].unknown + [i]
    && b.sets[s].refCount == a.sets[s].refCount + (if a.sets[s].unknown == [] then 1 else 0)
    && b.sets[s].isRef && b.sets[s].isMod == (a.sets[s].isMod || writes)
    && b.sets[s].may
  }

  lemma InstAddedKeeps(a: Arena, b: Arena, s: SetId, i: Inst, writes: bool, young: Option<SetId>)
    requires a.Inv(None, young) && young in {None, Some(s)} && InstAdded(a, b, s, i, writes)
    ensures b.Inv(None, None)
  {
    hide Arena.Listed, Arena.Recorded, Arena.Counted, Arena.Flagged, Arena.Forwards;
    FlagsKnown(a, s);
    OnlySetShape(a, b, s);
    InstAddedRecorded(a, b, s, i, writes);
    InstAddedCounted(a, b, s, i, writes, young);
    ListedSame(a, b);
  }

  lemma InstAddedRecorded(a: Arena, b: Arena, s: SetId, i: Inst, writes: bool)
    requires a.Forwards() && a.Recorded() && b.Forwards() && InstAdded(a, b, s, i, writes)
    requires forall t :: t in a.sets ==> b.Target(t) == a.Target(t)
    ensures b.Recorded()
  {
    hide Arena.Forwards;
    forall q | q in b.recs
      ensures b.RecordOk(q)
    {
      assert a.RecordOk(q);
    }
    forall t | t in b.sets
      ensures b.PointersOk(t)
    {
      assert a.PointersOk(t);
    }
  }

  lemma InstAddedCounted(a: Arena, b: Arena, s: SetId, i: Inst, writes: bool, young: Option<SetId>)
    requires a.Counted(None, young) && young in {None, Some(s)} && InstAdded(a, b, s, i, writes)
    requires forall t :: t in a.sets ==> b.Forwarders(t) == a.Forwarders(t)
    ensures b.Counted(None, None)
  {
    forall t | t in b.sets
      ensures b.CountOk(t, None, None)
    {
      assert a.CountOk(t, None, young);
      assert b.Namers(t) == a.Namers(t);
    }
  }

  /** The access kinds of a set grow. */
  ghost predicate AccessAdded(a: Arena, b: Arena, s: SetId, ref: bool, mod: bool) {
    && OnlySet(a, b, s) && b.recs == a.recs
    && b.sets[s] == a.sets[s].(isRef := a.sets[s].isRef || ref, isMod := a.sets[s].isMod || mod)
  }

  lemma AccessAddedKeeps(a: Arena, b: Arena, s: SetId, ref: bool, mod: bool)
    requires a.Inv(None, None) && AccessAdded(a, b, s, ref, mod)
    ensures b.Inv(None, None)
  {
    hide Arena.Listed, Arena.Recorded, Arena.Counted, Arena.Flagged, Arena.Forwards;
    FlagsKnown(a, s);
    OnlySetShape(a, b, s);
    AccessAddedRecorded(a, b, s, ref, mod);
    AccessAddedCounted(a, b, s, ref, mod);
    ListedSame(a, b);
  }

  lemma AccessAddedRecorded(a: Arena, b: Arena, s: SetId, ref: bool, mod: bool)
    requires a.Forwards() && a.Recorded() && b.Forwards() && AccessAdded(a, b, s, ref, mod)
    requires forall t :: t in a.sets ==> b.Target(t) == a.Target(t)
    ensures b.Recorded()
  {
    hide Arena.Forwards;
    forall q | q in b.recs
      ensures b.RecordOk(q)
    {
      assert a.RecordOk(q);
    }
    forall t | t in b.sets
      ensures b.PointersOk(t)
    {
      assert a.PointersOk(t);
    }
  }

  lemma AccessAddedCounted(a: Arena, b: Arena, s: SetId, ref: bool, mod: bool)
    requires a.Counted(None, None) && AccessAdded(a, b, s, ref, mod)
    requires forall t :: t in a.sets ==> b.Forwarders(t) == a.Forwarders(t)
    ensures b.Counted(None, None)
  {
    forall t | t in b.sets
      ensures b.CountOk(t, None, None)
    {
      assert a.CountOk(t, None, None);
      assert b.Namers(t) == a.Namers(t);
    }
  }

  /** push_back(new AliasSet()): at the end of the list, with no reference yet. */
  ghost predicate SetAdded(a: Arena, b: Arena, s: SetId) {
    && s == a.next && b.next == a.next + 1 && b.order == a.order + [s] && b.recs == a.recs
    && b.sets.Keys == a.sets.Keys + {s}
    && b.sets[s].ptrs == [] && b.sets[s].unknown == [] && b.sets[s].forward == None && b.sets[s].refCount == 0
    && b.sets[s].aliasAny == (b.any == Some(s)) && (b.any == Some(s) ==> b.sets[s].may)
    && (b.any == a.any || (a.any == None && b.any == Some(s)))
    && forall t :: t in a.sets ==> b.sets[t] == a.sets[t]
  }

  lemma SetAddedKeeps(a: Arena, b: Arena, s: SetId)
    requires a.Inv(None, None) && SetAdded(a, b, s)
    ensures b.Inv(None, Some(s))
    ensures forall t :: t in a.sets ==> b.Target(t) == a.Target(t)
  {
    hide Arena.Listed, Arena.Recorded, Arena.Counted, Arena.Flagged, Arena.Forwards;
    SetAddedListed(a, b, s);
    SetAddedShape(a, b, s);
    SetAddedTargets(a, b, s);
    SetAddedRecorded(a, b, s);
    SetAddedCounted(a, b, s);
  }

  lemma SetAddedListed(a: Arena, b: Arena, s: SetId)
    requires a.Listed() && SetAdded(a, b, s)
    ensures b.Listed() && s !in a.sets
  {
    assert forall i :: 0 <= i < |a.order| ==> a.order[i] in a.order;
    assert b.order[|a.order|] == s;
  }

  lemma SetAddedShape(a: Arena, b: Arena, s: SetId)
    requires a.Listed() && a.Forwards() && a.Flagged() && SetAdded(a, b, s) && s !in a.sets
    ensures b.Forwards() && b.Flagged()
  {
    forall t | t in b.sets
      ensures b.ForwardOk(t) && b.FlagsOk(t)
    {
      if t != s {
        assert a.ForwardOk(t) && a.FlagsOk(t);
      }
    }
  }

  lemma SetAddedTargets(a: Arena, b: Arena, s: SetId)
    requires a.Forwards() && b.Forwards() && SetAdded(a, b, s) && s !in a.sets
    ensures forall t :: t in a.sets ==> b.Target(t) == a.Target(t)
  {
    forall t | t in a.sets
      ensures b.Target(t) == a.Target(t)
    {
      SetAddedTarget(a, b, s, t);
    }
  }

  lemma {:induction false} SetAddedTarget(a: Arena, b: Arena, s: SetId, t: SetId)
    requires a.Forwards() && b.Forwards() && SetAdded(a, b, s) && s !in a.sets && t in a.sets
    ensures b.Target(t) == a.Target(t)
    decreases a.Rank(t)
  {
    assert a.ForwardOk(t) && b.ForwardOk(t);
    if a.sets[t].forward.Some? {
      SetAddedTarget(a, b, s, a.sets[t].forward.value);
    }
  }

  lemma SetAddedRecorded(a: Arena, b: Arena, s: SetId)
    requires a.Forwards() && b.Forwards() && SetAdded(a, b, s) && s !in a.sets && a.Recorded()
    requires forall t :: t in a.sets ==> b.Target(t) == a.Target(t)
    ensures b.Recorded()
  {
    hide Arena.Forwards;
    forall q | q in b.recs
      ensures b.RecordOk(q)
    {
      assert a.RecordOk(q);
    }
    forall t | t in b.sets
      ensures b.PointersOk(t)
    {
      if t != s {
        assert a.PointersOk(t);
      }
    }
  }

  lemma SetAddedCounted(a: Arena, b: Arena, s: SetId)
    requires a.Forwards() && a.Recorded() && SetAdded(a, b, s) && s !in a.sets && a.Counted(None, None)
    ensures b.Counted(None, Some(s))
  {
    forall t | t in b.sets
      ensures b.CountOk(t, None, Some(s))
    {
      assert b.Namers(t) == a.Namers(t);
      if t != s {
        assert a.CountOk(t, None, None);
        assert b.Forwarders(t) == a.Forwarders(t);
      } else {
        assert forall p :: p in a.recs ==> a.RecordOk(p);
        assert forall x :: x in a.sets ==> a.ForwardOk(x);
        assert b.Forwarders(t) == {} && b.Namers(t) == {};
      }
    }
  }

  // ---- deleting --------------------------------------------------------------------

  function Remove(ptrs: seq<Ptr>, p: Ptr): seq<Ptr> {
    if ptrs == [] then []
    else if ptrs[0] == p then ptrs[1..]
    else [ptrs[0]] + Remove(ptrs[1..], p)
  }

  lemma {:induction false} RemoveOne(ptrs: seq<Ptr>, p: Ptr)
    requires NoDup(ptrs)
    ensures NoDup(Remove(ptrs, p))
    ensures forall q :: q in Remove(ptrs, p) <==> q in ptrs && q != p
  {
    if ptrs != [] {
      var rest := ptrs[1..];
      assert ptrs == [ptrs[0]] + rest;
      assert NoDup(rest);
      assert ptrs[0] !in rest;
      RemoveOne(rest, p);
    }
  }

  /** deleteValue up to the last two steps. The set still has the reference of the record. */
  ghost predicate PointerRemoved(a: Arena, b: Arena, s: SetId, p: Ptr) {
    && OnlySet(a, b, s)
    && p in a.recs && a.recs[p] == s && b.recs == a.recs - {p}
    && b.sets[s].ptrs == Remove(a.sets[s].ptrs, p) && b.sets[s].unknown == a.sets[s].unknown
    && b.sets[s].refCount == a.sets[s].refCount && b.sets[s].may == a.sets[s].may
    && b.sets[s].isRef == a.sets[s].isRef && b.sets[s].isMod == a.sets[s].isMod
  }

  lemma PointerRemovedKeeps(a: Arena, b: Arena, s: SetId, p: Ptr)
    requires a.Inv(None, None) && PointerRemoved(a, b, s, p)
    ensures b.Inv(Some(s), None)
  {
    hide Arena.Listed, Arena.Recorded, Arena.Counted, Arena.Flagged, Arena.Forwards;
    FlagsKnown(a, s);
    OnlySetShape(a, b, s);
    PointerRemovedRecorded(a, b, s, p);
    PointerRemovedCounted(a, b, s, p);
    ListedSame(a, b);
  }

  lemma PointerRemovedRecorded(a: Arena, b: Arena, s: SetId, p: Ptr)
    requires a.Forwards() && a.Recorded() && b.Forwards() && PointerRemoved(a, b, s, p)
    requires forall t :: t in a.sets ==> b.Target(t) == a.Target(t)
    ensures b.Recorded()
  {
    hide Arena.Forwards;
    assert a.PointersOk(s) && a.RecordOk(p);
    RemoveOne(a.sets[s].ptrs, p);
    forall q | q in b.recs
      ensures b.RecordOk(q)
    {
      assert a.RecordOk(q);
    }
    forall t | t in b.sets
      ensures b.PointersOk(t)
    {
      assert a.PointersOk(t);
    }
  }

  lemma PointerRemovedCounted(a: Arena, b: Arena, s: SetId, p: Ptr)
    requires a.Counted(None, None) && PointerRemoved(a, b, s, p)
    requires forall t :: t in a.sets ==> b.Forwarders(t) == a.Forwarders(t)
    ensures b.Counted(Some(s), None)
  {
    hide Arena.Namers;
    forall t | t in b.sets
      ensures b.CountOk(t, Some(s), None)
    {
      assert a.CountOk(t, None, None);
      NamersShrink(a, b, p, t);
    }
  }

  lemma NamersShrink(a: Arena, b: Arena, p: Ptr, t: SetId)
    requires p in a.recs && b.recs == a.recs - {p}
    ensures |b.Namers(t)| == |a.Namers(t)| - (if t == a.recs[p] then 1 else 0)
  {
    if t == a.recs[p] {
      assert p in a.Namers(t);
      assert b.Namers(t) == a.Namers(t) - {p};
    } else {
      assert b.Namers(t) == a.Namers(t);
    }
  }
}
