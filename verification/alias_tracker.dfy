/** class AliasSetTracker, with the methods of class AliasSet and of its pointer records. A set is
    named by a number; numbers grow along the list of sets. Where the source drops a reference
    before it stores the new one, or erases a set after it lets go of the set that it forwards to,
    the two steps are swapped here; nothing reads the one while doing the other. */
module AliasTracker {
  import opened AliasSets
  import opened AliasChanges
  import opened AliasView
  import opened AliasExact
  import opened AliasFrames
  import opened AliasSizes
  import opened AliasAccesses

  class AliasSetTracker {
    const oracle: Oracle
    const threshold: int

    var sets: map<SetId, ASet>
    var order: seq<SetId>
    var next: SetId
    var recs: map<Ptr, SetId>
    var total: int
    var anyAS: Option<SetId>

    constructor (oracle: Oracle, threshold: int)
      ensures A() == Arena(map[], [], 0, map[], None)
      ensures this.oracle == oracle && this.threshold == threshold && total == 0
    {
      this.oracle := oracle;
      this.threshold := threshold;
      sets, order, next, recs, total, anyAS := map[], [], 0, map[], 0, None;
    }

    function A(): Arena
      reads this
    {
      Arena(sets, order, next, recs, anyAS)
    }

    // ---- references ----------------------------------------------------------------

    /** The set is erased before it lets go of the set that it forwards to. */
    method RemoveAliasSet(s: SetId)
      requires s in sets && sets[s].refCount == 0 && SetRef(A(), s, 1).Inv(Some(s), None)
      modifies this
      ensures A().Inv(None, None) && Tidied(SetRef(old(A()), s, 1), A())
      ensures recs == old(recs) && anyAS == old(anyAS) && next == old(next)
      ensures Above(SetRef(old(A()), s, 1), A(), old(A()).Rank(s))
      ensures old(SizesOk(A())) ==> total == old(total)
      decreases sets.Keys, 0
    {
      hide Arena.Inv, Tidied, Above, SizesOk;
      ghost var a := SetRef(A(), s, 1);
      var forward := sets[s].forward;
      if forward == None && sets[s].may {
        total := total - sets[s].size;
      }
      DropErases(a, s);
      DropForward(a, s);
      RefSizes(old(A()), s, 1);
      if SizesOk(a) {
        ErasedSizes(a, s);
      }
      sets, order := sets - {s}, Without(order, s);
      ghost var b := A();
      assert b == Erase(a, s);
      if forward.Some? {
        DropRef(forward.value);
        AboveTrans(a, b, A(), a.Rank(s), a.Rank(forward.value));
        TidiedTrans(a, b, A());
      }
    }

    method DropRef(s: SetId)
      requires A().Inv(Some(s), None) && s in sets
      modifies this
      ensures A().Inv(None, None) && Tidied(old(A()), A())
      ensures recs == old(recs) && anyAS == old(anyAS) && next == old(next)
      ensures Above(old(A()), A(), old(A()).Rank(s))
      ensures old(SizesOk(A())) ==> total == old(total)
      decreases sets.Keys, 1
    {
      hide Arena.Inv, Tidied, Above, SizesOk;
      ghost var a := A();
      OwedHasRef(a, s);
      sets := sets[s := sets[s].(refCount := sets[s].refCount - 1)];
      if sets[s].refCount == 0 {
        assert SetRef(A(), s, 1).sets == a.sets;
        assert sets.Keys == a.sets.Keys;
        RefSizes(a, s, 0);
        RemoveAliasSet(s);
      } else {
        DropKeeps(a, s);
        SetRefAbove(a, s, sets[s].refCount);
      }
    }

    /** The collapsing of union-find: every set on the way comes to forward to the end. */
    method GetForwardedTarget(s: SetId) returns (dest: SetId)
      requires A().Inv(None, None) && s in sets
      modifies this
      ensures A().Inv(None, None) && Tidied(old(A()), A())
      ensures recs == old(recs) && anyAS == old(anyAS) && next == old(next)
      ensures Above(old(A()), A(), old(A()).Rank(s))
      ensures s in sets && dest == old(A()).Target(s) == A().Target(s)
      ensures sets[s].forward == if dest == s then None else Some(dest)
      ensures old(SizesOk(A())) ==> total == old(total)
      decreases A().Rank(s)
    {
      hide SizesOk, Tidied, Above, Arena.Target, Arena.Listed, Arena.Recorded, Arena.Counted, Arena.Flagged, Arena.Forwards,
           Redirected;
      ghost var a := A();
      if sets[s].forward == None {
        TargetLive(a, s);
        TidiedRefl(a);
        AboveRefl(a, a.Rank(s));
        return s;
      }
      ForwardRank(a, s);
      var forward := sets[s].forward.value;
      dest := GetForwardedTarget(forward);
      ghost var b := A();
      StillSized(a, b);
      AboveAt(a, b, a.Rank(forward), s);
      ForwardRank(b, s);
      if dest == forward {
        TidiedRefl(b);
        AboveRefl(b, b.Rank(s));
      } else {
        TargetSmaller(b, s);
        sets := sets[dest := sets[dest].(refCount := sets[dest].refCount + 1)];
        sets := sets[s := sets[s].(forward := Some(dest))];
        ghost var c := A();
        IsRedirected(b, c, s, dest);
        RedirectKeeps(b, c, s);
        RedirectedAbove(b, c, s, dest);
        TidiedTarget(b, c, s);
        StillSized(b, c);
        DropRef(forward);
        AboveAt(c, A(), c.Rank(forward), s);
        TidiedTarget(c, A(), s);
        AboveTrans(b, c, A(), b.Rank(s), b.Rank(forward));
        TidiedTrans(b, c, A());
      }
      TidiedTrans(a, b, A());
      AboveTrans(a, b, A(), a.Rank(forward), a.Rank(s));
    }

    /** getAliasSet of a pointer record. */
    method GetAliasSet(p: Ptr) returns (s: SetId)
      requires A().Inv(None, None) && p in recs
      modifies this
      ensures A().Inv(None, None) && Tidied(old(A()), A()) && anyAS == old(anyAS) && next == old(next)
      ensures p in recs && recs[p] == s && s in sets && sets[s].forward == None && p in sets[s].ptrs
      ensures old(SizesOk(A())) ==> total == old(total)
    {
      hide SizesOk, Tidied, Above, Arena.Target, Arena.Listed, Arena.Recorded, Arena.Counted, Arena.Flagged, Arena.Forwards;
      ghost var a := A();
      RecordKnown(a, p);
      s := recs[p];
      if sets[s].forward == None {
        TargetLive(a, s);
        TidiedRefl(a);
        return;
      }
      var oldAS := s;
      s := GetForwardedTarget(oldAS);
      ghost var b := A();
      StillSized(a, b);
      recs := recs[p := s];
      sets := sets[s := sets[s].(refCount := sets[s].refCount + 1)];
      assert A() == Rename(b, p, s);
      RenameKeeps(b, p);
      TidiedTrans(a, b, A());
      ghost var c := A();
      StillSized(a, c);
      DropRef(oldAS);
      TidiedTrans(a, c, A());
      RecordKnown(A(), p);
      TidiedTarget(c, A(), s);
      TargetLive(A(), s);
    }

    // ---- class AliasSet ------------------------------------------------------------

    /** mergeSetIn but for its last two lines. */
    method TakeOver(s: SetId, t: SetId) returns (hadUnknown: bool)
      requires s in sets && t in sets && Mergeable(A(), s, t)
      requires !sets[s].may && !sets[t].may ==> sets[s].ptrs != [] && sets[t].ptrs != []
      modifies this
      ensures Merged(old(A()), A(), s, t, JoinMay(oracle, CellOf(old(sets[s])), CellOf(old(sets[t]))))
      ensures hadUnknown <==> old(sets[t].unknown) != []
      ensures s in sets && sets[s].size == old(sets[s].size) + (if old(sets[t].ptrs) != [] then old(sets[t].size) else 0)
      ensures var may := JoinMay(oracle, CellOf(old(sets[s])), CellOf(old(sets[t])));
              total == old(total) + (if may && !old(sets[s].may) then old(sets[s].size) else 0)
                                  + (if may && !old(sets[t].may) then old(sets[t].size) else 0)
    {
      hide Merged, Mergeable;
      ghost var a := A();
      var into, from := sets[s], sets[t];
      var may := into.may || from.may;
      if !may {
        assert into.ptrs != [] && from.ptrs != [];
        if oracle.alias(into.ptrs[0], from.ptrs[0]) != MustAlias {
          may := true;
        }
      }
      assert may == JoinMay(oracle, CellOf(into), CellOf(from));
      if may {
        if !into.may {
          total := total + into.size;
        }
        if !from.may {
          total := total + from.size;
        }
      }
      var refCount, unknown := into.refCount, into.unknown;
      hadUnknown := from.unknown != [];
      if unknown == [] {
        if hadUnknown {
          unknown := from.unknown;
          refCount := refCount + 1;
        }
      } else if hadUnknown {
        unknown := unknown + from.unknown;
      }
      assert unknown == into.unknown + from.unknown;
      var ptrs, size, left := into.ptrs, into.size, from.size;
      if from.ptrs != [] {
        ptrs, size, left := ptrs + from.ptrs, size + left, 0;
      }
      assert ptrs == into.ptrs + from.ptrs;
      var merged := ASet(ptrs, size, into.forward, unknown, refCount + 1, into.aliasAny,
                         into.isRef || from.isRef, into.isMod || from.isMod, may);
      var emptied := from.(ptrs := [], size := left, unknown := [], forward := Some(s));
      sets := sets[s := merged];
      sets := sets[t := emptied];
      IsMerged(a, A(), s, t, merged, emptied, may);
    }

    method MergeSetIn(s: SetId, t: SetId, ghost young: Option<SetId>)
      requires A().Inv(None, young) && young in {None, Some(s)} && Mergeable(A(), s, t)
      requires young == None || sets[s].may
      modifies this
      ensures A().Inv(None, None) && recs == old(recs) && anyAS == old(anyAS) && next == old(next)
      ensures ViewOf(A()) ==
              (ViewOf(old(A())) - {t})[s := Join(oracle, CellOf(old(sets[s])), CellOf(old(sets[t])))]
      ensures MergedFrame(old(A()), A(), s, t)
      ensures old(SizesOk(A())) ==>
                var x, y := CellOf(old(sets[s])), CellOf(old(sets[t]));
                SizesOk(A()) && total == old(total) + Gain(JoinMay(oracle, x, y), x) + Gain(JoinMay(oracle, x, y), y)
    {
      hide SizesOk, Tidied, Above, Arena.Target, Arena.Listed, Arena.Recorded, Arena.Counted, Arena.Flagged, Arena.Forwards,
           ViewOf, MergeTargetOk, Shown, JoinMay;
      ghost var a := A();
      ghost var may := JoinMay(oracle, CellOf(sets[s]), CellOf(sets[t]));
      if !sets[s].may && !sets[t].may {
        MustHolds(a, s);
        MustHolds(a, t);
      }
      LiveIsShown(a, t, young);
      var hadUnknown := TakeOver(s, t);
      ghost var b := A();
      MergeKeeps(a, b, s, t, may, young);
      MergedView(a, b, s, t, may);
      if SizesOk(a) {
        MergedSizes(a, b, s, t, may);
      }
      if hadUnknown {
        DropRef(t);
        TidiedView(b, A());
        StillSized(b, A());
      } else {
        TidiedRefl(b);
        AboveRefl(b, b.Rank(t));
      }
      MergedTargets(a, b, A(), s, t, may);
    }

    /** AliasSet::addPointer, for a pointer whose record names no set yet. */
    method AddToSet(s: SetId, p: Ptr, known: bool, ghost young: Option<SetId>)
      requires A().Inv(None, young) && young in {None, Some(s)} && p !in recs
      requires s in sets && sets[s].forward == None
      requires !sets[s].may && !known && sets[s].ptrs != [] ==> oracle.alias(sets[s].ptrs[0], p) != NoAlias
      modifies this
      ensures A().Inv(None, None) && recs == old(recs)[p := s] && anyAS == old(anyAS) && next == old(next)
      ensures ViewOf(A()) == ViewOf(old(A()))[s := WithPointer(oracle, CellOf(old(sets[s])), p, known)]
      ensures old(SizesOk(A())) ==>
                var c := CellOf(old(sets[s]));
                var may := MayWith(oracle, c, p, known);
                SizesOk(A()) && total == old(total) + Gain(may, c) + (if may then 1 else 0)
    {
      hide Arena.Inv, ViewOf, SizesOk, WithPointer;
      ghost var a := A();
      var aset := sets[s];
      var may := aset.may;
      if !may && !known {
        if aset.ptrs != [] {
          var result := oracle.alias(aset.ptrs[0], p);
          if result != MustAlias {
            may := true;
            total := total + aset.size;
          }
          assert result != NoAlias;
        }
      }
      recs := recs[p := s];
      sets := sets[s := aset.(ptrs := aset.ptrs + [p], size := aset.size + 1, refCount := aset.refCount + 1,
                              may := may)];
      if may {
        total := total + 1;
      }
      assert may == MayWith(oracle, CellOf(aset), p, known);
      PointerPut(oracle, a, A(), s, p, known, young);
    }

    method AddUnknownInst(s: SetId, i: Inst, ghost young: Option<SetId>)
      requires A().Inv(None, young) && young in {None, Some(s)} && s in sets && sets[s].forward == None
      modifies this
      ensures A().Inv(None, None) && recs == old(recs) && anyAS == old(anyAS) && next == old(next)
      ensures ViewOf(A()) == ViewOf(old(A()))[s := WithInst(CellOf(old(sets[s])), i, oracle.writes(i))]
      ensures total == old(total) && (old(SizesOk(A())) ==> SizesOk(A()))
    {
      hide Arena.Inv, ViewOf, SizesOk;
      ghost var a := A();
      var aset := sets[s];
      var refCount := if aset.unknown == [] then aset.refCount + 1 else aset.refCount;
      aset := aset.(refCount := refCount, unknown := aset.unknown + [i]);
      if !oracle.writes(i) {
        aset := aset.(may := true, isRef := true);
      } else {
        aset := aset.(may := true, isRef := true, isMod := true);
      }
      sets := sets[s := aset];
      ghost var b := A();
      InstPut(a, b, s, i, oracle.writes(i), young);
    }

    /** Whether the set may alias the pointer. The source's two assertions hold. */
    method AliasesPointer(s: SetId, p: Ptr) returns (hit: bool)
      requires A().Inv(None, None) && s in sets && sets[s].forward == None
      ensures hit == Hits(oracle, CellOf(sets[s]), P(p))
    {
      hide Arena.Listed, Arena.Forwards, Arena.Recorded, Arena.Counted, Arena.Flagged;
      var aset := sets[s];
      if aset.aliasAny {
        return true;
      }
      if !aset.may {
        MustHolds(A(), s);
        MustHasNoInst(A(), s);
        assert aset.unknown == [];
        assert aset.ptrs != [];
        return oracle.alias(aset.ptrs[0], p) != NoAlias;
      }
      for k := 0 to |aset.ptrs|
        invariant forall j :: 0 <= j < k ==> oracle.alias(p, aset.ptrs[j]) == NoAlias
      {
        if oracle.alias(p, aset.ptrs[k]) != NoAlias {
          return true;
        }
      }
      for k := 0 to |aset.unknown|
        invariant forall j :: 0 <= j < k ==> !oracle.touches(aset.unknown[j], p)
      {
        if oracle.touches(aset.unknown[k], p) {
          return true;
        }
      }
      return false;
    }

    method AliasesUnknownInst(s: SetId, i: Inst) returns (hit: bool)
      requires s in sets && sets[s].forward == None
      ensures hit == Hits(oracle, CellOf(sets[s]), I(i))
    {
      var aset := sets[s];
      if aset.aliasAny {
        return true;
      }
      for k := 0 to |aset.unknown|
        invariant forall j :: 0 <= j < k ==> !oracle.clash(aset.unknown[j], i)
      {
        if oracle.clash(aset.unknown[k], i) {
          return true;
        }
      }
      for k := 0 to |aset.ptrs|
        invariant forall j :: 0 <= j < k ==> !oracle.touches(i, aset.ptrs[j])
      {
        if oracle.touches(i, aset.ptrs[k]) {
          return true;
        }
      }
      return false;
    }

    // ---- class AliasSetTracker -----------------------------------------------------

    ghost predicate Valid()
      reads this
    {
      A().Inv(None, None) && OneSet(A())
    }

    /** mergeAliasSetsForPointer and findAliasSetForUnknownInst, which differ in the test alone. */
    method MergeAliasSetsFor(n: Node) returns (found: Option<SetId>)
      requires Valid()
      modifies this
      ensures Valid() && recs == old(recs) && anyAS == old(anyAS) && next == old(next)
      ensures (ViewOf(A()), found) == Sweep(oracle, ViewOf(old(A())), old(order), n, None)
      ensures old(SizesOk(A())) ==> SizesOk(A()) && Gap(A(), total) == old(Gap(A(), total))
    {
      hide Arena.Inv, ViewOf, MergedFrame, Hits, Shown, SizesOk, MayPtrs, Join;
      found := None;
      var todo, i := order, 0;
      AllListed(A());
      while i < |todo|
        invariant 0 <= i <= |todo|
        invariant Valid() && recs == old(recs) && anyAS == old(anyAS) && next == old(next)
        invariant forall j :: i <= j < |todo| ==> todo[j] in sets
        invariant forall j, k :: 0 <= j < k < |todo| ==> todo[j] < todo[k]
        invariant found.Some? ==> found.value in ViewOf(A()) && forall j :: i <= j < |todo| ==> found.value < todo[j]
        invariant Sweep(oracle, ViewOf(old(A())), todo, n, None) == Sweep(oracle, ViewOf(A()), todo[i..], n, found)
        invariant old(SizesOk(A())) ==> SizesOk(A()) && Gap(A(), total) == old(Gap(A(), total))
      {
        var cur := todo[i];
        assert todo[i..] == [cur] + todo[i + 1..];
        ShownIsLive(A(), cur);
        var hit := false;
        if sets[cur].forward == None {
          match n {
            case P(p) => hit := AliasesPointer(cur, p);
            case I(inst) => hit := AliasesUnknownInst(cur, inst);
          }
        }
        if hit {
          if found == None {
            found := Some(cur);
          } else {
            ghost var a := A();
            ShownIsLive(a, found.value);
            JoinSized(oracle, a, found.value, cur);
            MergeSetIn(found.value, cur, None);
            FrameAbove(a, A(), found.value, cur);
          }
        }
        i := i + 1;
      }
    }

    /** A saturated tracker still has its one set. It loses that set when the last member is
        deleted, and is of no use afterwards. */
    predicate Usable()
      reads this
    {
      anyAS.Some? ==> anyAS.value in sets
    }

    method PushBack(aset: ASet) returns (s: SetId)
      requires Valid() && aset == EMPTY
      modifies this
      ensures A().Inv(None, Some(s)) && OneSet(A()) && s == old(next) && recs == old(recs) && anyAS == old(anyAS)
      ensures s in sets && sets[s] == EMPTY && ViewOf(A()) == ViewOf(old(A())) && s !in ViewOf(A())
      ensures old(SizesOk(A())) ==> SizesOk(A()) && total == old(total)
    {
      hide SizesOk, Arena.Forwards, Arena.Recorded, Arena.Counted, Arena.Flagged, ViewOf, OneSet;
      ghost var a := A();
      s := next;
      sets, order, next := sets[s := aset], order + [s], next + 1;
      assert SetAdded(a, A(), s) by { AnyBelow(a); }
      SetAddedKeeps(a, A(), s);
      SetAddedView(a, A(), s);
      StillOneSet(a, A());
      if SizesOk(a) {
        AddedSetSizes(a, A(), s);
      }
    }

    /** The pointer's set, with the pointer in it: every set that it may alias has been merged. */
    method GetAliasSetFor(p: Ptr) returns (s: SetId)
      requires Valid() && Usable()
      modifies this
      ensures Valid() && Usable() && anyAS == old(anyAS)
      ensures recs.Keys == old(recs.Keys) + {p}
      ensures s in ViewOf(A()) && p in ViewOf(A())[s].ptrs
      ensures ViewOf(A()) == Got(oracle, old(A()), p)
      ensures anyAS == None && old(SizesOk(A())) ==> SizesOk(A()) && Gap(A(), total) == old(Gap(A(), total))
    {
      hide Arena.Inv, ViewOf, Hits, Shown, Tidied, Sweep, SizesOk, MayPtrs, MayWith, Gain;
      ghost var a := A();
      if anyAS.Some? {
        s := anyAS.value;
        SaturatedSweep(oracle, a, P(p));
        ShownIsLive(a, s);
        if p in recs {
          var entryAS := GetAliasSet(p);
          TidiedView(a, A());
          TidiedRecs(a, A());
          ShownIsLive(A(), entryAS);
          assert entryAS == s;
        } else {
          AddToSet(s, p, false, None);
          ShownIsLive(A(), s);
        }
        return;
      }
      if p in recs {
        s := GetAliasSet(p);
        TidiedView(a, A());
        TidiedRecs(a, A());
        ShownIsLive(A(), s);
        StillSized(a, A());
      } else {
        var found := MergeAliasSetsFor(P(p));
        if found.Some? {
          s := found.value;
          ViewMeets(oracle, a, p);
          ShownIsLive(A(), s);
          AddSized(oracle, A(), s, CellOf(sets[s]), p, None);
          AddToSet(s, p, false, None);
        } else {
          s := PushBack(EMPTY);
          AddSized(oracle, A(), s, CellOf(sets[s]), p, Some(s));
          AddToSet(s, p, false, Some(s));
        }
      }
    }

    /** All sets become one, which is taken to alias everything. */
    method MergeAllAliasSets() returns (s: SetId)
      requires Valid() && anyAS == None && total > threshold && order != []
      modifies this
      ensures Valid() && Usable() && anyAS == Some(s) && recs == old(recs)
      ensures ViewOf(A()).Keys == {s} && AllIn(ViewOf(old(A())), ViewOf(A())[s])
    {
      hide Arena.Inv, ViewOf, Shown, Tidied, Absorbed, MergedFrame, Above, Redirected, Mergeable;
      ghost var a := A();
      var todo, i := order, 0;
      s := next;
      sets := sets[s := EMPTY.(may := true, isRef := true, isMod := true, aliasAny := true)];
      order, next, anyAS := order + [s], next + 1, Some(s);
      NextUnused(a);
      assert SetAdded(a, A(), s);
      StartAbsorbing(a, A(), s);
      while i < |todo|
        invariant 0 <= i <= |todo| && todo == a.order && recs == a.recs && anyAS == Some(s)
        invariant A().Inv(None, Some(s)) && Absorbed(a, A(), s, i)
      {
        var cur := todo[i];
        NextAbsorbed(a, A(), s, i);
        if sets[cur].forward.Some? {
          var forward := sets[cur].forward.value;
          ghost var b := A();
          sets := sets[s := sets[s].(refCount := sets[s].refCount + 1)];
          sets := sets[cur := sets[cur].(forward := Some(s))];
          ghost var c := A();
          IsRedirected(b, c, cur, s);
          Matured(b, s);
          RedirectKeeps(b, c, cur);
          DropRef(forward);
          AbsorbForwarder(a, b, c, A(), s, i);
        } else {
          ghost var b := A();
          MergeSetIn(s, cur, Some(s));
          AbsorbSet(oracle, a, b, A(), s, i);
        }
        Ripe(A(), s);
        i := i + 1;
      }
      AllAbsorbed(a, A(), s);
    }

    method AddAccess(s: SetId, ref: bool, mod: bool)
      requires Valid() && Usable() && s in ViewOf(A())
      modifies this
      ensures Valid() && Usable() && anyAS == old(anyAS) && recs == old(recs)
      ensures ViewOf(A()) == Accessed(ViewOf(old(A())), s, ref, mod) && s in sets
      ensures old(SizesOk(A())) ==> SizesOk(A()) && Gap(A(), total) == old(Gap(A(), total))
      ensures total == old(total)
    {
      hide Arena.Inv, ViewOf, SizesOk, MayPtrs;
      ghost var b := A();
      ShownIsLive(b, s);
      sets := sets[s := sets[s].(isRef := sets[s].isRef || ref, isMod := sets[s].isMod || mod)];
      ghost var c := A();
      assert AccessAdded(b, c, s, ref, mod);
      AccessAddedKeeps(b, c, s, ref, mod);
      OnlySetView(b, c, s);
      ShownIsLive(c, s);
      if SizesOk(b) {
        OnlySetSizes(b, c, s);
        AccessedMayPtrs(ViewOf(b), s, ref, mod);
      }
    }

    /** Add the pointer of one access. */
    method AddPointer(p: Ptr, ref: bool, mod: bool) returns (s: SetId)
      requires Valid() && Usable()
      modifies this
      ensures Valid() && Usable() && (old(anyAS).Some? ==> anyAS == old(anyAS))
      ensures recs.Keys == old(recs.Keys) + {p}
      ensures s in ViewOf(A()) && p in ViewOf(A())[s].ptrs
      ensures anyAS == None ==>
                s in Got(oracle, old(A()), p) && ViewOf(A()) == Accessed(Got(oracle, old(A()), p), s, ref, mod)
      ensures (ref ==> ViewOf(A())[s].isRef) && (mod ==> ViewOf(A())[s].isMod)
      ensures Grows(ViewOf(old(A())), ViewOf(A()), P(p))
      ensures oracle.Good() && Exact(oracle, ViewOf(old(A()))) && anyAS == None ==> Exact(oracle, ViewOf(A()))
      ensures old(anyAS == None && SizesOk(A())) ==>
                && (anyAS.Some? <==> |MayPtrs(Got(oracle, old(A()), p))| - old(Gap(A(), total)) > threshold)
                && (anyAS == None ==> SizesOk(A()) && Gap(A(), total) == old(Gap(A(), total)) && total <= threshold)
    {
      hide Arena.Inv, ViewOf, Exact, Added, Oracle.Good, Tracked, Grows, SameTracked, SizesOk, MayPtrs, Got;
      ghost var a := A();
      s := GetAliasSetFor(p);
      ghost var b := A();
      GotTracks(oracle, a, p);
      AddAccess(s, ref, mod);
      ghost var c := A();
      AccessedExact(oracle, ViewOf(b), s, ref, mod);
      GrowsSame(ViewOf(a), ViewOf(b), ViewOf(c), P(p));
      if anyAS == None && total > threshold {
        InOrder(c, s);
        s := MergeAllAliasSets();
        AllInTracks(ViewOf(c), ViewOf(A()), s);
        GrowsSame(ViewOf(a), ViewOf(c), ViewOf(A()), P(p));
        GrownTracks(ViewOf(a), ViewOf(c), P(p));
        assert ViewOf(A())[s].Holds(P(p));
      }
    }

    /** addUnknown, for an instruction that may read or write memory. */
    method AddUnknown(i: Inst)
      requires Valid() && Usable()
      modifies this
      ensures Valid() && Usable() && anyAS == old(anyAS) && recs == old(recs)
      ensures ViewOf(A()) == Added(oracle, ViewOf(old(A())), old(order), old(next), I(i), oracle.writes(i))
      ensures Grows(ViewOf(old(A())), ViewOf(A()), I(i))
      ensures oracle.Good() && Exact(oracle, ViewOf(old(A()))) ==> Exact(oracle, ViewOf(A()))
      ensures old(SizesOk(A())) ==> SizesOk(A()) && Gap(A(), total) >= old(Gap(A(), total))
    {
      hide Arena.Inv, ViewOf, Exact, Oracle.Good, Tracked, Grows, Sweep, Hits, SizesOk, MayPtrs;
      ghost var a := A();
      if anyAS.Some? {
        SaturatedSweep(oracle, a, I(i));
      }
      var found := MergeAliasSetsFor(I(i));
      var s;
      if found.Some? {
        s := found.value;
        ShownIsLive(A(), s);
        InstMayPtrs(ViewOf(A()), s, CellOf(sets[s]), i, oracle.writes(i));
        AddUnknownInst(s, i, None);
      } else {
        s := PushBack(EMPTY);
        InstMayPtrs(ViewOf(A()), s, CellOf(sets[s]), i, oracle.writes(i));
        AddUnknownInst(s, i, Some(s));
      }
      ShownIsLive(A(), s);
      ViewInOrder(a);
      AddedTracks(oracle, ViewOf(a), a.order, a.next, I(i), oracle.writes(i));
      if oracle.Good() && Exact(oracle, ViewOf(a)) {
        AddedExact(oracle, ViewOf(a), a.order, a.next, I(i), oracle.writes(i));
      }
    }

    /** Nothing may alias across sets afterwards if nothing did before; but a set may fall into
        parts that are not merged any more. A saturated tracker loses its set just when the pointer is
        the only thing that it tracks. */
    method DeleteValue(p: Ptr)
      requires Valid()
      modifies this
      ensures Valid() && anyAS == old(anyAS) && recs.Keys == old(recs.Keys) - {p}
      ensures ViewOf(A()) == if p in old(recs) then Deleted(ViewOf(old(A())), p) else ViewOf(old(A()))
      ensures old(anyAS.Some? && Usable()) ==>
                (!Usable() <==> p in old(recs) && forall n :: Tracked(ViewOf(old(A())), n) ==> n == P(p))
      ensures forall n :: Tracked(ViewOf(A()), n) <==> Tracked(ViewOf(old(A())), n) && n != P(p)
      ensures Sound(oracle, ViewOf(old(A()))) ==> Sound(oracle, ViewOf(A()))
    {
      hide Arena.Inv, ViewOf, Sound, Tidied, Deleted, Tracked, SizesOk;
      ghost var a := A();
      RecsTracked(a, p);
      if p !in recs {
        SaturatedIsShown(a);
        return;
      }
      var s := GetAliasSet(p);
      ghost var b := A();
      TidiedView(a, b);
      TidiedRecs(a, b);
      recs := recs - {p};
      var aset := sets[s].(ptrs := Remove(sets[s].ptrs, p));
      if aset.may {
        aset := aset.(size := aset.size - 1);
        total := total - 1;
      }
      sets := sets[s := aset];
      ghost var c := A();
      assert PointerRemoved(b, c, s, p);
      PointerRemovedKeeps(b, c, s, p);
      DeletedView(b, c, s, p);
      DropRef(s);
      TidiedView(c, A());
      ShownSound(oracle, b, p);
      DeletedKeys(ViewOf(a), p);
      NothingLeft(a, p);
      SaturatedIsShown(A());
    }

    method CopyValue(from: Ptr, to: Ptr)
      requires Valid()
      modifies this
      ensures Valid() && anyAS == old(anyAS)
      ensures recs.Keys == if from in old(recs) then old(recs.Keys) + {to} else old(recs.Keys)
      ensures ViewOf(A()) == if from in old(recs) && to !in old(recs) then Copied(oracle, ViewOf(old(A())), from, to)
                             else ViewOf(old(A()))
      ensures from in old(recs) ==> Grows(ViewOf(old(A())), ViewOf(A()), P(to))
      ensures oracle.Good() && Exact(oracle, ViewOf(old(A()))) && Twins(oracle, from, to) ==> Exact(oracle, ViewOf(A()))
    {
      hide Arena.Inv, ViewOf, Exact, Oracle.Good, Tidied, Copied, Twins, Tracked;
      ghost var a := A();
      RecsTracked(a, to);
      RecsTracked(a, from);
      if from !in recs || to in recs {
        return;
      }
      var s := GetAliasSet(from);
      ghost var b := A();
      TidiedView(a, b);
      TidiedRecs(a, b);
      ShownIsLive(b, s);
      AddToSet(s, to, true, None);
      CopiedView(oracle, b, s, from, to);
      CopiedTracks(oracle, ViewOf(b), from, to);
      RecsTracked(b, to);
      if oracle.Good() && Exact(oracle, ViewOf(a)) && Twins(oracle, from, to) {
        CopiedExact(oracle, ViewOf(b), s, from, to);
      }
    }

    /** What is known after a list of accesses. */
    ghost predicate Knows(log: seq<Access>)
      reads this
    {
      Sums(oracle, A(), total, threshold, log)
    }

    /** add(Instruction*), on the access of the instruction. */
    method Add(x: Access, ghost log: seq<Access>)
      requires Valid() && Usable()
      modifies this
      ensures Valid() && Usable() && (old(anyAS).Some? ==> anyAS == old(anyAS))
      ensures Grows(ViewOf(old(A())), ViewOf(A()), x.Node())
      ensures oracle.Good() && Exact(oracle, ViewOf(old(A()))) && anyAS == None ==> Exact(oracle, ViewOf(A()))
      ensures old(Knows(log)) ==> Knows(log + [x])
    {
      hide Arena.Inv, ViewOf, Exact, Oracle.Good, Grows, Sums, Got, Added, SizesOk, MayPtrs, Gap;
      ghost var a, before := A(), total;
      match x {
        case Load(p) =>
          var s := AddPointer(p, true, false);
          if Sums(oracle, a, before, threshold, log) {
            PointerSums(oracle, a, before, A(), total, threshold, log, x, s);
          }
        case Store(p) =>
          var s := AddPointer(p, false, true);
          if Sums(oracle, a, before, threshold, log) {
            PointerSums(oracle, a, before, A(), total, threshold, log, x, s);
          }
        case Other(i) =>
          AddUnknown(i);
          if Sums(oracle, a, before, threshold, log) {
            OtherSums(oracle, a, before, A(), total, threshold, log, i);
          }
      }
    }

    /** add(BasicBlock&), on the accesses of the block's instructions. */
    method AddBlock(block: seq<Access>, ghost nodes: set<Node>, ghost log: seq<Access>)
      requires Valid() && Usable() && Tracks(ViewOf(A()), nodes)
      modifies this
      ensures Valid() && Usable()
      ensures Tracks(ViewOf(A()), nodes + NodesOf(block))
      ensures oracle.Good() && Exact(oracle, ViewOf(old(A()))) && anyAS == None ==> Exact(oracle, ViewOf(A()))
      ensures old(Knows(log)) ==> Knows(log + block)
    {
      hide Arena.Inv, ViewOf, Exact, Oracle.Good, Grows, Tracks, Sums;
      assert nodes + NodesOf(block[..0]) == nodes;
      assert log + block[..0] == log;
      for k := 0 to |block|
        invariant Valid() && Usable()
        invariant Tracks(ViewOf(A()), nodes + NodesOf(block[..k]))
        invariant oracle.Good() && Exact(oracle, ViewOf(old(A()))) && anyAS == None ==> Exact(oracle, ViewOf(A()))
        invariant old(Knows(log)) ==> Knows(log + block[..k])
      {
        ghost var a := A();
        Add(block[k], log + block[..k]);
        GrowsNodes(ViewOf(a), ViewOf(A()), nodes, block, k);
        assert log + block[..k + 1] == log + block[..k] + [block[k]];
      }
      assert block[..|block|] == block;
    }
  }

  lemma GrowsNodes(v: View, w: View, nodes: set<Node>, block: seq<Access>, k: nat)
    requires k < |block| && Grows(v, w, block[k].Node()) && Tracks(v, nodes + NodesOf(block[..k]))
    ensures Tracks(w, nodes + NodesOf(block[..k + 1]))
  {
    assert block[..k + 1] == block[..k] + [block[k]];
    assert NodesOf(block[..k + 1]) == NodesOf(block[..k]) + {block[k].Node()};
  }

  /** With threshold 0, two pointers that may alias saturate the tracker. When both are deleted, the
      last takes the one set with it, which the tracker goes on to point to. */
  method DeleteAll(oracle: Oracle, p: Ptr, q: Ptr) returns (tracker: AliasSetTracker)
    requires oracle.Good() && oracle.alias(p, q) == MayAlias && p != q
    ensures tracker.Valid() && tracker.anyAS.Some? && !tracker.Usable()
  {
    hide Exact, Together, Reaches, Grows, Tracked, Got, MayPtrs, ViewOf, SizesOk;
    tracker := new AliasSetTracker(oracle, 0);
    NothingExact(oracle);
    NothingSized(tracker.A());
    ghost var a := tracker.A();
    var _ := tracker.AddPointer(p, true, false);
    ghost var b := tracker.A();
    var _ := tracker.AddPointer(q, true, false);
    BothTracked(ViewOf(a), ViewOf(b), ViewOf(tracker.A()), p, q);
    if tracker.anyAS == None {
      BothInMaySet(oracle, ViewOf(tracker.A()), p, q);
      assert false;
    }
    DeleteBoth(tracker, p, q);
  }

  method DeleteBoth(tracker: AliasSetTracker, p: Ptr, q: Ptr)
    requires tracker.Valid() && tracker.anyAS.Some? && tracker.Usable() && p != q
    requires forall n :: Tracked(ViewOf(tracker.A()), n) <==> n == P(p) || n == P(q)
    modifies tracker
    ensures tracker.Valid() && tracker.anyAS.Some? && !tracker.Usable()
  {
    hide Tracked, ViewOf, Arena.Inv;
    RecsTracked(tracker.A(), q);
    ghost var v := ViewOf(tracker.A());
    assert Tracked(v, P(q));
    tracker.DeleteValue(p);
    assert forall n :: Tracked(ViewOf(tracker.A()), n) <==> n == P(q);
    tracker.DeleteValue(q);
  }

  /** runOnFunction of the alias set printer. Unless the tracker is saturated its sets are the components
      of the may-alias graph over what the function accesses; a set is a may-alias set just when it has an
      instruction or two pointers that need not alias, and marked as read or written just as its members
      are. It is not saturated while no more pointers are accessed than the threshold, and
      after loads and stores alone it is if and only if more pointers than that share a component with
      another one that they need not alias. */
  method TrackFunction(oracle: Oracle, threshold: int, accesses: seq<Access>) returns (tracker: AliasSetTracker)
    ensures tracker.Valid() && tracker.oracle == oracle && tracker.threshold == threshold
    ensures Tracks(ViewOf(tracker.A()), NodesOf(accesses))
    ensures tracker.anyAS.Some? ==>
      forall s {:trigger ViewOf(tracker.A())[s]} :: s in ViewOf(tracker.A()) ==>
        var c := ViewOf(tracker.A())[s];
        tracker.anyAS == Some(s) && c.wide && c.may && c.isRef && c.isMod
    ensures oracle.Good() && tracker.anyAS == None ==>
      forall n, m :: n != m ==> (Together(ViewOf(tracker.A()), n, m) <==> Reaches(oracle, NodesOf(accesses), n, m))
    ensures tracker.anyAS == None ==>
      forall s {:trigger ViewOf(tracker.A())[s]} :: s in ViewOf(tracker.A()) ==>
        var c := ViewOf(tracker.A())[s];
        && (c.isRef <==> c.unknown != [] || exists p :: p in c.ptrs && Load(p) in accesses)
        && (c.isMod <==> (exists i :: i in c.unknown && oracle.writes(i)) || exists p :: p in c.ptrs && Store(p) in accesses)
    ensures oracle.Good() && tracker.anyAS == None ==>
      forall s {:trigger ViewOf(tracker.A())[s]} :: s in ViewOf(tracker.A()) ==>
        var c := ViewOf(tracker.A())[s];
        c.may <==> c.unknown != [] || exists p, q :: p in c.ptrs && q in c.ptrs && p != q && oracle.alias(p, q) != MustAlias
    ensures |PtrsOf(accesses)| <= threshold ==> tracker.anyAS == None
    ensures oracle.Good() && (forall x :: x in accesses ==> !x.Other?) ==>
      var unsure := set p | p in PtrsOf(accesses) &&
        exists q :: q in PtrsOf(accesses) && q != p && oracle.alias(p, q) != MustAlias && Reaches(oracle, NodesOf(accesses), P(p), P(q));
      (tracker.anyAS.Some? <==> accesses != [] && |unsure| > threshold)
  {
    hide Exact, Reaches, Together, Tracks, Sums;
    tracker := new AliasSetTracker(oracle, threshold);
    NothingExact(oracle);
    assert ViewOf(tracker.A()) == map[];
    assert Tracks(map[], {}) by {
      NothingTracked();
    }
    NothingSums(oracle, tracker.A(), threshold);
    tracker.AddBlock(accesses, {}, []);
    assert {} + NodesOf(accesses) == NodesOf(accesses);
    assert [] + accesses == accesses;
    if oracle.Good() && tracker.anyAS == None {
      forall n, m | n != m
        ensures Together(ViewOf(tracker.A()), n, m) <==> Reaches(oracle, NodesOf(accesses), n, m)
      {
        SetsAreComponents(oracle, ViewOf(tracker.A()), NodesOf(accesses), n, m);
      }
    }
    SumsTell(oracle, tracker.A(), tracker.total, threshold, accesses);
    if tracker.anyAS.Some? {
      OneWideSet(tracker.A());
    }
    if oracle.Good() && tracker.anyAS == None {
      QuietOf(oracle, tracker.A(), tracker.total, threshold, accesses);
      MayIffDoubt(oracle, tracker.A(), tracker.total, accesses);
    }
  }

  lemma NothingTracked()
    ensures Tracks(map[], {})
  {
  }

  lemma OneWideSet(a: Arena)
    requires a.Inv(None, None) && OneSet(a) && a.any.Some?
    ensures forall s {:trigger ViewOf(a)[s]} :: s in ViewOf(a) ==>
      var c := ViewOf(a)[s];
      a.any == Some(s) && c.wide && c.may && c.isRef && c.isMod
  {
    forall s | s in ViewOf(a)
      ensures a.FlagsOk(s)
    {
    }
  }

  lemma MayIffDoubt(oracle: Oracle, a: Arena, total: int, log: seq<Access>)
    requires Exact(oracle, ViewOf(a)) && Quiet(oracle, a, total, log)
    ensures forall s {:trigger ViewOf(a)[s]} :: s in ViewOf(a) ==>
      var c := ViewOf(a)[s];
      c.may <==> c.unknown != [] || exists p, q :: p in c.ptrs && q in c.ptrs && p != q && oracle.alias(p, q) != MustAlias
  {
    hide ViewOf;
    forall s | s in ViewOf(a)
      ensures DoubtAt(oracle, ViewOf(a)[s]) && CellOk(oracle, ViewOf(a)[s])
    {
    }
  }

  lemma QuietOf(oracle: Oracle, a: Arena, total: int, threshold: int, log: seq<Access>)
    requires Sums(oracle, a, total, threshold, log) && a.any == None
    ensures Quiet(oracle, a, total, log)
  {
  }

  lemma SumsTell(oracle: Oracle, a: Arena, total: int, threshold: int, log: seq<Access>)
    requires Sums(oracle, a, total, threshold, log)
    ensures a.any == None ==>
      forall s {:trigger ViewOf(a)[s]} :: s in ViewOf(a) ==>
        var c := ViewOf(a)[s];
        && (c.isRef <==> c.unknown != [] || exists p :: p in c.ptrs && Load(p) in log)
        && (c.isMod <==> (exists i :: i in c.unknown && oracle.writes(i)) || exists p :: p in c.ptrs && Store(p) in log)
    ensures |PtrsOf(log)| <= threshold ==> a.any == None
    ensures oracle.Good() && (forall x :: x in log ==> !x.Other?) ==>
      var unsure := set p | p in PtrsOf(log) &&
        exists q :: q in PtrsOf(log) && q != p && oracle.alias(p, q) != MustAlias && Reaches(oracle, NodesOf(log), P(p), P(q));
      (a.any.Some? <==> log != [] && |unsure| > threshold)
  {
    hide Reaches, ViewOf;
    if a.any == None {
      forall s | s in ViewOf(a)
        ensures FlagsAt(oracle, ViewOf(a)[s], log)
      {
      }
    }
    if oracle.Good() && Plain(log) {
      PlainNodes(log);
      var unsure := set p | p in PtrsOf(log) &&
        exists q :: q in PtrsOf(log) && q != p && oracle.alias(p, q) != MustAlias && Reaches(oracle, NodesOf(log), P(p), P(q));
      assert unsure == AllUnsure(oracle, PtrsOf(log));
    }
  }
}
