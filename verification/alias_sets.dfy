/** The nodes of an alias set tracker as values: alias sets named by number, in list order,
    with forwarding, reference counts and pointer records. */
module AliasSets {

  type Ptr = nat
  type Inst = nat
  type SetId = nat

  datatype Option<T> = None | Some(value: T)

  datatype AliasResult = NoAlias | MayAlias | PartialAlias | MustAlias

  /** What is put into a tracker: pointers, and instructions without a specific address. */
  datatype Node = P(ptr: Ptr) | I(inst: Inst)

  /** The alias analysis, at one access size per pointer. */
  datatype Oracle = Oracle(alias: (Ptr, Ptr) -> AliasResult, touches: (Inst, Ptr) -> bool,
                           clash: (Inst, Inst) -> bool, writes: Inst -> bool)
  {
    predicate Linked(n: Node, m: Node) {
      match (n, m)
      case (P(p), P(q)) => alias(p, q) != NoAlias
      case (P(p), I(i)) => touches(i, p)
      case (I(i), P(p)) => touches(i, p)
      case (I(i), I(j)) => clash(i, j)
    }

    /** Aliasing is symmetric, must-alias is transitive, and pointers that must alias alias the same others. */
    ghost predicate Good() {
      && (forall p, q :: alias(p, q) == alias(q, p))
      && (forall i, j :: clash(i, j) == clash(j, i))
      && (forall p, q, r :: alias(p, q) == MustAlias && alias(q, r) == MustAlias && p != r ==> alias(p, r) == MustAlias)
      && (forall p, q, r :: alias(p, q) == MustAlias ==> (alias(p, r) == NoAlias <==> alias(q, r) == NoAlias))
    }
  }

  /** class AliasSet. `size` is the SetSize field, which is not always the number of pointers. */
  datatype ASet = ASet(ptrs: seq<Ptr>, size: int, forward: Option<SetId>, unknown: seq<Inst>, refCount: int,
                       aliasAny: bool, isRef: bool, isMod: bool, may: bool)

  const EMPTY: ASet := ASet([], 0, None, [], 0, false, false, false, false)

  ghost predicate NoDup(s: seq<Ptr>) {
    forall i, j :: 0 <= i < j < |s| ==> s[i] != s[j]
  }

  /** The tracker. recs maps a pointer to the set that its record names; sets that have been
      merged away stay in the list while something refers to them. */
  datatype Arena = Arena(sets: map<SetId, ASet>, order: seq<SetId>, next: SetId, recs: map<Ptr, SetId>, any: Option<SetId>)
  {
    /** Forwarding leads to an earlier set in the list, or to the one set of a saturated tracker. */
    predicate ForwardOk(s: SetId)
      requires s in sets
    {
      sets[s].forward.Some? ==>
        var f := sets[s].forward.value; f in sets && f != s && (f < s || any == Some(f))
    }

    ghost predicate Forwards() {
      && (forall s {:trigger ForwardOk(s)} :: s in sets ==> ForwardOk(s))
      && (any.Some? && any.value in sets ==> sets[any.value].forward == None)
    }

    function Rank(s: SetId): nat {
      if any == Some(s) then 0 else s + 1
    }

    /** getForwardedTarget, without the path compression. */
    ghost function Target(s: SetId): (t: SetId)
      requires Forwards() && s in sets
      ensures t in sets && sets[t].forward == None
      decreases Rank(s)
    {
      assert ForwardOk(s);
      if sets[s].forward.Some? then Target(sets[s].forward.value) else s
    }

    ghost predicate Live(s: SetId) {
      s in sets && sets[s].forward == None
    }

    ghost function Namers(s: SetId): set<Ptr> {
      set p | p in recs && recs[p] == s
    }

    ghost function Forwarders(s: SetId): set<SetId> {
      set t | t in sets && sets[t].forward == Some(s)
    }

    ghost function Count(s: SetId): nat
      requires s in sets
    {
      |Namers(s)| + |Forwarders(s)| + if sets[s].unknown != [] then 1 else 0
    }

    ghost predicate Listed() {
      && (forall i, j :: 0 <= i < j < |order| ==> order[i] < order[j])
      && (forall s :: s in order <==> s in sets)
      && (forall s :: s in sets ==> s < next)
    }

    /** The record of p names a set that leads to the one that holds p. */
    ghost predicate RecordOk(p: Ptr)
      requires Forwards() && p in recs
    {
      recs[p] in sets && p in sets[Target(recs[p])].ptrs
    }

    ghost predicate PointersOk(s: SetId)
      requires Forwards() && s in sets
    {
      && (forall p :: p in sets[s].ptrs ==> p in recs && recs[p] in sets && Target(recs[p]) == s)
      && NoDup(sets[s].ptrs)
    }

    /** The reference count is exact, but for one reference that may be owed; and positive, but
        in a set just created. */
    ghost predicate CountOk(s: SetId, owed: Option<SetId>, young: Option<SetId>)
      requires s in sets
    {
      && sets[s].refCount == Count(s) + (if owed == Some(s) then 1 else 0)
      && (young == Some(s) || sets[s].refCount > 0)
    }

    predicate FlagsOk(s: SetId)
      requires s in sets
    {
      && (sets[s].forward.Some? ==> sets[s].ptrs == [] && sets[s].unknown == [])
      && (!sets[s].may ==> sets[s].unknown == [])
      && (sets[s].aliasAny <==> any == Some(s))
      && (any == Some(s) ==> sets[s].may)
    }

    ghost predicate Recorded()
      requires Forwards()
    {
      && (forall p {:trigger RecordOk(p)} :: p in recs ==> RecordOk(p))
      && (forall s {:trigger PointersOk(s)} :: s in sets ==> PointersOk(s))
    }

    ghost predicate Counted(owed: Option<SetId>, young: Option<SetId>) {
      && (forall s {:trigger CountOk(s, owed, young)} :: s in sets ==> CountOk(s, owed, young))
      && (owed.Some? ==> owed.value in sets)
    }

    ghost predicate Flagged() {
      && (forall s {:trigger FlagsOk(s)} :: s in sets ==> FlagsOk(s))
      && (any.Some? ==> any.value < next)
    }

    ghost predicate Inv(owed: Option<SetId>, young: Option<SetId>) {
      Listed() && Forwards() && Recorded() && Counted(owed, young) && Flagged()
    }
  }

  /** The same set but for its reference count and where it forwards to. */
  predicate Kept(x: ASet, y: ASet) {
    y == x.(refCount := y.refCount, forward := y.forward) && (x.forward == None <==> y.forward == None)
  }

  ghost predicate SetTidied(a: Arena, b: Arena, s: SetId)
    requires a.Forwards() && b.Forwards() && s in a.sets
  {
    if s in b.sets then Kept(a.sets[s], b.sets[s]) && b.Target(s) == a.Target(s)
    else a.sets[s].ptrs == [] && a.sets[s].unknown == []
  }

  ghost predicate RecordTidied(a: Arena, b: Arena, p: Ptr)
    requires a.Forwards() && b.Forwards() && p in a.recs && p in b.recs
  {
    a.recs[p] in a.sets && b.recs[p] in b.sets && b.Target(b.recs[p]) == a.Target(a.recs[p])
  }

  /** Housekeeping: references move along forwarding, and sets that hold nothing may disappear. */
  ghost predicate Tidied(a: Arena, b: Arena) {
    && a.Forwards() && b.Forwards()
    && b.any == a.any && b.next == a.next && b.recs.Keys == a.recs.Keys && b.sets.Keys <= a.sets.Keys
    && (forall s {:trigger SetTidied(a, b, s)} :: s in a.sets ==> SetTidied(a, b, s))
    && (forall p {:trigger RecordTidied(a, b, p)} :: p in a.recs ==> RecordTidied(a, b, p))
  }

  lemma TidiedRefl(a: Arena)
    requires a.Forwards() && a.Recorded()
    ensures Tidied(a, a)
  {
    forall p | p in a.recs
      ensures RecordTidied(a, a, p)
    {
      assert a.RecordOk(p);
    }
  }

  lemma TidiedTrans(a: Arena, b: Arena, c: Arena)
    requires Tidied(a, b) && Tidied(b, c)
    ensures Tidied(a, c)
  {
    forall s | s in a.sets
      ensures SetTidied(a, c, s)
    {
      assert SetTidied(a, b, s);
      if s in b.sets {
        assert SetTidied(b, c, s);
      }
    }
    forall p | p in a.recs
      ensures RecordTidied(a, c, p)
    {
      assert RecordTidied(a, b, p) && RecordTidied(b, c, p);
    }
  }

  /** A set that nothing refers to holds no pointer. */
  lemma UnreferencedIsEmpty(a: Arena, s: SetId)
    requires a.Forwards() && a.Recorded() && s in a.sets
    requires a.Namers(s) == {} && a.Forwarders(s) == {}
    ensures a.sets[s].ptrs == []
  {
    assert a.PointersOk(s);
    if a.sets[s].ptrs != [] {
      var p := a.sets[s].ptrs[0];
      assert p in a.sets[s].ptrs;
      assert a.recs[p] == s ==> p in a.Namers(s);
      LastForwarder(a, a.recs[p], s);
    }
  }

  lemma {:induction false} LastForwarder(a: Arena, r: SetId, s: SetId)
    requires a.Forwards() && r in a.sets && a.Target(r) == s
    ensures r == s || a.Forwarders(s) != {}
    decreases a.Rank(r)
  {
    assert a.ForwardOk(r);
    if a.sets[r].forward.Some? {
      var f := a.sets[r].forward.value;
      LastForwarder(a, f, s);
      if f == s {
        assert r in a.Forwarders(s);
      }
    }
  }

  // ---- reference counts ------------------------------------------------------------

  /** Forwarding decides the targets. */
  lemma {:induction false} TargetSame(a: Arena, b: Arena, s: SetId)
    requires a.Forwards() && b.Forwards() && s in b.sets
    requires a.any == b.any
    requires forall t :: t in b.sets ==> t in a.sets && a.sets[t].forward == b.sets[t].forward
    ensures b.Target(s) == a.Target(s)
    decreases a.Rank(s)
  {
    assert a.ForwardOk(s) && b.ForwardOk(s);
    if b.sets[s].forward.Some? {
      TargetSame(a, b, b.sets[s].forward.value);
    }
  }

  function SetRef(a: Arena, s: SetId, n: int): Arena
    requires s in a.sets
  {
    a.(sets := a.sets[s := a.sets[s].(refCount := n)])
  }

  /** The reference that was owed is given back, and others remain. */
  lemma DropKeeps(a: Arena, s: SetId)
    requires a.Inv(Some(s), None) && a.sets[s].refCount > 1
    ensures SetRef(a, s, a.sets[s].refCount - 1).Inv(None, None)
    ensures Tidied(a, SetRef(a, s, a.sets[s].refCount - 1))
  {
    var b := SetRef(a, s, a.sets[s].refCount - 1);
    SameButCounts(a, b);
    forall t | t in b.sets
      ensures b.CountOk(t, None, None)
    {
      assert a.CountOk(t, Some(s), None);
      assert b.Namers(t) == a.Namers(t) && b.Forwarders(t) == a.Forwarders(t);
    }
  }

  /** Housekeeping keeps the records right. */
  lemma RecordsFollow(a: Arena, b: Arena)
    requires Tidied(a, b) && a.Recorded()
    ensures b.Recorded()
  {
    forall p | p in b.recs
      ensures b.RecordOk(p)
    {
      assert a.RecordOk(p) && RecordTidied(a, b, p) && SetTidied(a, b, b.Target(b.recs[p]));
    }
    forall t | t in b.sets
      ensures b.PointersOk(t)
    {
      assert a.PointersOk(t) && SetTidied(a, b, t);
      forall p | p in b.sets[t].ptrs
        ensures p in b.recs && b.recs[p] in b.sets && b.Target(b.recs[p]) == t
      {
        assert RecordTidied(a, b, p);
      }
    }
  }

  /** The records stay right when they, the targets and what the sets hold do not change. */
  lemma RecordsSame(a: Arena, b: Arena)
    requires a.Forwards() && b.Forwards() && a.Recorded()
    requires b.recs == a.recs && b.sets.Keys == a.sets.Keys && b.any == a.any && b.next == a.next
    requires forall t {:trigger SetTidied(a, b, t)} :: t in a.sets ==> SetTidied(a, b, t)
    ensures b.Recorded() && Tidied(a, b)
  {
    forall p | p in a.recs
      ensures RecordTidied(a, b, p)
    {
      assert a.RecordOk(p) && SetTidied(a, b, a.recs[p]);
    }
    RecordsFollow(a, b);
  }

  ghost predicate OnlyCounts(a: Arena, b: Arena) {
    && b.sets.Keys == a.sets.Keys && b.any == a.any && b.next == a.next && b.order == a.order
    && forall s :: s in a.sets ==> b.sets[s] == a.sets[s].(refCount := b.sets[s].refCount)
  }

  lemma OnlyCountsShape(a: Arena, b: Arena)
    requires a.Forwards() && a.Flagged() && OnlyCounts(a, b)
    ensures b.Forwards() && b.Flagged()
  {
    forall t | t in b.sets
      ensures b.ForwardOk(t) && b.FlagsOk(t)
    {
      assert a.ForwardOk(t) && a.FlagsOk(t);
    }
  }

  lemma OnlyCountsTargets(a: Arena, b: Arena)
    requires a.Forwards() && b.Forwards() && OnlyCounts(a, b)
    ensures forall t {:trigger SetTidied(a, b, t)} :: t in a.sets ==> SetTidied(a, b, t)
  {
    forall t | t in a.sets
      ensures SetTidied(a, b, t)
    {
      TargetSame(a, b, t);
    }
  }

  /** Reference counts matter to nothing but themselves. */
  lemma SameButCounts(a: Arena, b: Arena)
    requires a.Listed() && a.Forwards() && a.Recorded() && a.Flagged()
    requires OnlyCounts(a, b) && b.recs == a.recs
    ensures b.Listed() && b.Forwards() && b.Recorded() && b.Flagged() && Tidied(a, b)
  {
    hide Arena.Forwards, Arena.Recorded, Arena.Flagged, Tidied;
    OnlyCountsShape(a, b);
    OnlyCountsTargets(a, b);
    RecordsSame(a, b);
  }

  function Without(order: seq<SetId>, s: SetId): seq<SetId> {
    if order == [] then []
    else if order[0] == s then Without(order[1..], s)
    else [order[0]] + Without(order[1..], s)
  }

  lemma {:induction false} WithoutListed(order: seq<SetId>, s: SetId)
    requires forall i, j :: 0 <= i < j < |order| ==> order[i] < order[j]
    ensures forall i, j :: 0 <= i < j < |Without(order, s)| ==> Without(order, s)[i] < Without(order, s)[j]
    ensures forall t :: t in Without(order, s) <==> t in order && t != s
  {
    if order != [] {
      var rest, out := order[1..], Without(order[1..], s);
      WithoutListed(rest, s);
      assert order == [order[0]] + rest;
      forall i | 0 <= i < |out|
        ensures order[0] < out[i]
      {
        assert out[i] in rest;
        var j :| 0 <= j < |rest| && rest[j] == out[i];
        assert order[j + 1] == out[i];
      }
    }
  }

  function Erase(a: Arena, s: SetId): Arena {
    a.(sets := a.sets - {s}, order := Without(a.order, s))
  }

  /** The last reference is given back: the set is erased, and the set it forwarded to is owed one. */
  lemma DropErases(a: Arena, s: SetId)
    requires a.Inv(Some(s), None) && a.sets[s].refCount == 1
    ensures a.sets[s].ptrs == [] && a.sets[s].unknown == []
    ensures Erase(a, s).Inv(a.sets[s].forward, None)
    ensures Tidied(a, Erase(a, s))
  {
    var b, f := Erase(a, s), a.sets[s].forward;
    assert a.CountOk(s, Some(s), None) && a.ForwardOk(s);
    assert a.Namers(s) == {} && a.Forwarders(s) == {};
    UnreferencedIsEmpty(a, s);
    WithoutListed(a.order, s);
    EraseUnreferenced(a, s);
    RecordsFollow(a, b);
    forall t | t in b.sets
      ensures b.CountOk(t, f, None)
    {
      assert a.CountOk(t, Some(s), None);
      assert b.Namers(t) == a.Namers(t);
      assert b.Forwarders(t) == a.Forwarders(t) - {s};
    }
  }

  lemma EraseUnreferenced(a: Arena, s: SetId)
    requires a.Forwards() && a.Recorded() && a.Flagged() && s in a.sets
    requires a.Namers(s) == {} && a.Forwarders(s) == {} && a.sets[s].ptrs == [] && a.sets[s].unknown == []
    ensures var b := Erase(a, s); b.Forwards() && b.Flagged() && Tidied(a, b)
  {
    var b := Erase(a, s);
    forall t | t in b.sets
      ensures b.ForwardOk(t) && b.FlagsOk(t)
    {
      assert a.ForwardOk(t) && a.FlagsOk(t);
      assert b.sets[t].forward == Some(s) ==> t in a.Forwarders(s);
    }
    forall t | t in a.sets
      ensures SetTidied(a, b, t)
    {
      if t != s {
        TargetSame(a, b, t);
      }
    }
    forall p | p in a.recs
      ensures RecordTidied(a, b, p)
    {
      assert a.RecordOk(p) && SetTidied(a, b, a.recs[p]);
      assert a.recs[p] == s ==> p in a.Namers(s);
    }
  }

  // ---- path compression ------------------------------------------------------------

  /** Pointing a forwarding set straight at its target. */
  function Redirect(a: Arena, s: SetId, d: SetId): (b: Arena)
    requires s in a.sets && d in a.sets && s != d
    ensures Redirected(a, b, s, d)
  {
    a.(sets := a.sets[d := a.sets[d].(refCount := a.sets[d].refCount + 1)][s := a.sets[s].(forward := Some(d))])
  }

  ghost predicate Redirected(a: Arena, b: Arena, s: SetId, d: SetId) {
    && s in a.sets && d in a.sets && s != d
    && b.sets.Keys == a.sets.Keys && b.recs == a.recs && b.order == a.order && b.next == a.next && b.any == a.any
    && b.sets[s] == a.sets[s].(forward := Some(d))
    && b.sets[d] == a.sets[d].(refCount := a.sets[d].refCount + 1)
    && forall t :: t in a.sets && t != s && t != d ==> b.sets[t] == a.sets[t]
  }

  lemma RedirectKeeps(a: Arena, b: Arena, s: SetId)
    requires a.Inv(None, None) && s in a.sets && a.sets[s].forward.Some?
    requires a.sets[s].forward != Some(a.Target(s))
    requires Redirected(a, b, s, a.Target(s))
    ensures b.Inv(a.sets[s].forward, None)
    ensures Tidied(a, b)
  {
    hide Arena.Listed, Arena.Recorded, Tidied, Arena.Counted, Arena.Flagged, Arena.Forwards, Arena.Target;
    TargetSmaller(a, s);
    ForwardKnown(a, s);
    var d, f := a.Target(s), a.sets[s].forward.value;
    RedirectShape(a, b, s);
    RedirectTargets(a, b, s);
    RecordsSame(a, b);
    RedirectCounts(a, b, s, d, f);
    ListedSame(a, b);
  }

  lemma ListedSame(a: Arena, b: Arena)
    requires a.Listed() && b.sets.Keys == a.sets.Keys && b.order == a.order && b.next == a.next
    ensures b.Listed()
  {
  }

  lemma ForwardKnown(a: Arena, s: SetId)
    requires a.Forwards() && s in a.sets && a.sets[s].forward.Some?
    ensures a.sets[s].forward.value in a.sets
  {
    assert a.ForwardOk(s);
  }

  lemma RedirectShape(a: Arena, b: Arena, s: SetId)
    requires a.Forwards() && a.Flagged() && s in a.sets && a.sets[s].forward.Some?
    requires a.Target(s) != s && (a.Target(s) < s || a.any == Some(a.Target(s)))
    requires Redirected(a, b, s, a.Target(s))
    ensures b.Forwards() && b.Flagged()
  {
    forall t | t in b.sets
      ensures b.ForwardOk(t) && b.FlagsOk(t)
    {
      assert a.ForwardOk(t) && a.FlagsOk(t);
    }
  }

  lemma RedirectTargets(a: Arena, b: Arena, s: SetId)
    requires a.Forwards() && b.Forwards() && s in a.sets && a.sets[s].forward.Some? && a.Target(s) != s
    requires Redirected(a, b, s, a.Target(s))
    ensures forall t {:trigger SetTidied(a, b, t)} :: t in a.sets ==> SetTidied(a, b, t)
  {
    hide Arena.Forwards, Arena.Target;
    forall t | t in a.sets
      ensures SetTidied(a, b, t)
    {
      RedirectTarget(a, b, s, t);
    }
  }

  lemma RedirectCounts(a: Arena, b: Arena, s: SetId, d: SetId, f: SetId)
    requires a.Counted(None, None) && f in a.sets && d != f && Redirected(a, b, s, d)
    requires a.sets[s].forward == Some(f)
    ensures b.Counted(Some(f), None)
  {
    forall t | t in b.sets
      ensures b.CountOk(t, Some(f), None)
    {
      assert a.CountOk(t, None, None);
      RedirectForwarders(a, b, s, d, f, t);
      assert b.Namers(t) == a.Namers(t);
    }
  }

  lemma RedirectForwarders(a: Arena, b: Arena, s: SetId, d: SetId, f: SetId, t: SetId)
    requires f in a.sets && t in a.sets && d != f && Redirected(a, b, s, d)
    requires a.sets[s].forward == Some(f)
    ensures |b.Forwarders(t)| == |a.Forwarders(t)| + (if t == d then 1 else 0) - (if t == f then 1 else 0)
  {
    if t == d {
      assert b.Forwarders(t) == a.Forwarders(t) + {s};
    } else if t == f {
      assert s in a.Forwarders(t);
      assert b.Forwarders(t) == a.Forwarders(t) - {s};
    } else {
      assert b.Forwarders(t) == a.Forwarders(t);
    }
  }

  lemma {:induction false} TargetSmaller(a: Arena, s: SetId)
    requires a.Forwards() && s in a.sets && a.sets[s].forward.Some?
    ensures a.Target(s) != s && (a.Target(s) < s || a.any == Some(a.Target(s)))
    decreases a.Rank(s)
  {
    assert a.ForwardOk(s);
    var f := a.sets[s].forward.value;
    if a.sets[f].forward.Some? {
      TargetSmaller(a, f);
    }
  }

  lemma {:induction false} RedirectTarget(a: Arena, b: Arena, s: SetId, t: SetId)
    requires a.Forwards() && b.Forwards() && t in b.sets && s in a.sets && a.sets[s].forward.Some?
    requires Redirected(a, b, s, a.Target(s))
    ensures b.Target(t) == a.Target(t)
    decreases a.Rank(t)
  {
    assert a.ForwardOk(t) && b.ForwardOk(t) && a.ForwardOk(s);
    if t == s {
      assert b.sets[a.Target(s)].forward == None;
    } else if a.sets[t].forward.Some? {
      RedirectTarget(a, b, s, a.sets[t].forward.value);
    }
  }

  /** Pointing a pointer record straight at its target. */
  function Rename(a: Arena, p: Ptr, d: SetId): Arena
    requires d in a.sets
  {
    a.(sets := a.sets[d := a.sets[d].(refCount := a.sets[d].refCount + 1)], recs := a.recs[p := d])
  }

  lemma RenameKeeps(a: Arena, p: Ptr)
    requires a.Inv(None, None) && p in a.recs && a.recs[p] in a.sets
    requires a.recs[p] != a.Target(a.recs[p])
    ensures Rename(a, p, a.Target(a.recs[p])).Inv(Some(a.recs[p]), None)
    ensures Tidied(a, Rename(a, p, a.Target(a.recs[p])))
  {
    hide Arena.Recorded, Tidied, Arena.Counted, Arena.Flagged, Arena.Forwards;
    var b := Rename(a, p, a.Target(a.recs[p]));
    OnlyCountsShape(a, b);
    OnlyCountsTargets(a, b);
    RenameRecords(a, b, p);
    RenameCounts(a, p, a.Target(a.recs[p]));
  }

  lemma RenameRecords(a: Arena, b: Arena, p: Ptr)
    requires a.Forwards() && b.Forwards() && a.Recorded() && OnlyCounts(a, b) && p in a.recs && a.recs[p] in a.sets
    requires b.recs == a.recs[p := a.Target(a.recs[p])]
    requires forall t {:trigger SetTidied(a, b, t)} :: t in a.sets ==> SetTidied(a, b, t)
    ensures b.Recorded() && Tidied(a, b)
  {
    forall q | q in a.recs
      ensures RecordTidied(a, b, q)
    {
      assert a.RecordOk(q) && SetTidied(a, b, a.recs[q]) && SetTidied(a, b, a.Target(a.recs[q]));
    }
    RecordsFollow(a, b);
  }

  lemma RenameCounts(a: Arena, p: Ptr, d: SetId)
    requires a.Counted(None, None) && p in a.recs && a.recs[p] in a.sets && d in a.sets && d != a.recs[p]
    ensures Rename(a, p, d).Counted(Some(a.recs[p]), None)
  {
    hide Arena.Namers;
    var r, b := a.recs[p], Rename(a, p, d);
    forall t | t in b.sets
      ensures b.CountOk(t, Some(r), None)
    {
      assert a.CountOk(t, None, None);
      assert b.Forwarders(t) == a.Forwarders(t);
      NamersMove(a, b, p, d, t);
    }
  }

  lemma NamersMove(a: Arena, b: Arena, p: Ptr, d: SetId, t: SetId)
    requires p in a.recs && d != a.recs[p] && b.recs == a.recs[p := d]
    ensures |b.Namers(t)| == |a.Namers(t)| + (if t == d then 1 else 0) - (if t == a.recs[p] then 1 else 0)
  {
    if t == d {
      assert b.Namers(t) == a.Namers(t) + {p};
    } else if t == a.recs[p] {
      assert p in a.Namers(t);
      assert b.Namers(t) == a.Namers(t) - {p};
    } else {
      assert b.Namers(t) == a.Namers(t);
    }
  }
}
