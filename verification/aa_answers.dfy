/** What the aggregated analysis answers, in terms of its components, and that the answers are
    right when the components are. */
module AAAnswers {
  import opened AAModel

  /** The first component that knows decides. */
  function AliasOf(aas: seq<AA>, l: Loc, m: Loc): AliasResult {
    if aas == [] then MayAlias
    else if aas[0].alias(l, m) != MayAlias then aas[0].alias(l, m)
    else AliasOf(aas[1..], l, m)
  }

  predicate ConstantOf(aas: seq<AA>, l: Loc) {
    exists k :: 0 <= k < |aas| && aas[k].constant(l, false)
  }

  predicate ArgMod(aas: seq<AA>, c: Call, i: nat) {
    forall k :: 0 <= k < |aas| ==> aas[k].arg(c, i).mod
  }

  predicate ArgRef(aas: seq<AA>, c: Call, i: nat) {
    forall k :: 0 <= k < |aas| ==> aas[k].arg(c, i).ref
  }

  function BehaviorOf(aas: seq<AA>, c: Call): Behavior {
    if aas == [] then UNKNOWN_BEHAVIOR else aas[0].behavior(c).Meet(BehaviorOf(aas[1..], c))
  }

  // ---- a call and a location -----------------------------------------------------------

  predicate Nowhere(b: Behavior) {
    b == DOES_NOT_ACCESS || b == ONLY_INACCESSIBLE
  }

  /** Whether the location may be reached through argument i. */
  predicate ArgMeets(aas: seq<AA>, c: Call, l: Loc, i: nat) {
    i < |c.args| && c.args[i].Pointer? && AliasOf(aas, c.args[i].loc, l) != NoAlias
  }

  predicate ModThroughArg(aas: seq<AA>, c: Call, l: Loc) {
    BehaviorOf(aas, c).DoesAccessArgPointees() && exists i: nat :: i < |c.args| && ArgMeets(aas, c, l, i) && ArgMod(aas, c, i)
  }

  predicate RefThroughArg(aas: seq<AA>, c: Call, l: Loc) {
    BehaviorOf(aas, c).DoesAccessArgPointees() && exists i: nat :: i < |c.args| && ArgMeets(aas, c, l, i) && ArgRef(aas, c, i)
  }

  predicate MayModLoc(aas: seq<AA>, c: Call, l: Loc) {
    var b := BehaviorOf(aas, c);
    && (forall k :: 0 <= k < |aas| ==> aas[k].callLoc(c, l).mod)
    && !Nowhere(b) && b.mod
    && (b.OnlyAccessesInaccessibleOrArgMem() ==> ModThroughArg(aas, c, l))
    && !ConstantOf(aas, l)
  }

  predicate MayRefLoc(aas: seq<AA>, c: Call, l: Loc) {
    var b := BehaviorOf(aas, c);
    && (forall k :: 0 <= k < |aas| ==> aas[k].callLoc(c, l).ref)
    && !Nowhere(b) && (b.ref || !b.mod)
    && (b.OnlyAccessesInaccessibleOrArgMem() ==> RefThroughArg(aas, c, l))
  }

  // ---- two calls -------------------------------------------------------------------------

  /** The second call may access what argument i of it stands for, and the first may write there. */
  predicate SecondArgMod(aas: seq<AA>, c: Call, d: Call, i: nat) {
    i < |d.args| && d.args[i].Pointer? && (ArgMod(aas, d, i) || ArgRef(aas, d, i)) && MayModLoc(aas, c, d.args[i].loc)
  }

  predicate SecondArgRef(aas: seq<AA>, c: Call, d: Call, i: nat) {
    i < |d.args| && d.args[i].Pointer? && ArgMod(aas, d, i) && MayRefLoc(aas, c, d.args[i].loc)
  }

  /** The calls meet at what argument i of the first stands for, not both reading only. */
  predicate FirstArgMeets(aas: seq<AA>, c: Call, d: Call, i: nat) {
    i < |c.args| && c.args[i].Pointer? &&
    var l := c.args[i].loc;
    (ArgMod(aas, c, i) && (MayModLoc(aas, d, l) || MayRefLoc(aas, d, l))) || (ArgRef(aas, c, i) && MayModLoc(aas, d, l))
  }

  predicate Independent(b: Behavior, b': Behavior) {
    b == DOES_NOT_ACCESS || b' == DOES_NOT_ACCESS || (b.OnlyReadsMemory() && b'.OnlyReadsMemory())
  }

  predicate MayModCall(aas: seq<AA>, c: Call, d: Call) {
    var b, b' := BehaviorOf(aas, c), BehaviorOf(aas, d);
    && (forall k :: 0 <= k < |aas| ==> aas[k].callCall(c, d).mod)
    && !Independent(b, b') && b.mod
    && if b'.OnlyAccessesArgPointees() then
         b'.DoesAccessArgPointees() && exists i: nat :: i < |d.args| && SecondArgMod(aas, c, d, i)
       else if b.OnlyAccessesArgPointees() then
         b.DoesAccessArgPointees() && exists i: nat :: i < |c.args| && FirstArgMeets(aas, c, d, i) && ArgMod(aas, c, i)
       else true
  }

  predicate MayRefCall(aas: seq<AA>, c: Call, d: Call) {
    var b, b' := BehaviorOf(aas, c), BehaviorOf(aas, d);
    && (forall k :: 0 <= k < |aas| ==> aas[k].callCall(c, d).ref)
    && !Independent(b, b') && (b.ref || !b.mod)
    && if b'.OnlyAccessesArgPointees() then
         b'.DoesAccessArgPointees() && exists i: nat :: i < |d.args| && SecondArgRef(aas, c, d, i)
       else if b.OnlyAccessesArgPointees() then
         b.DoesAccessArgPointees() && exists i: nat :: i < |c.args| && FirstArgMeets(aas, c, d, i) && ArgRef(aas, c, i)
       else true
  }

  // ---- soundness -------------------------------------------------------------------------

  lemma {:induction false} AliasIsSound(w: World, aas: seq<AA>, l: Loc, m: Loc)
    requires AllSound(w, aas)
    ensures SoundAlias(w, l, m, AliasOf(aas, l, m))
  {
    if aas != [] {
      assert Sound(w, aas[0]);
      assert forall k :: 0 <= k < |aas| - 1 ==> aas[1..][k] == aas[k + 1];
      AliasIsSound(w, aas[1..], l, m);
    }
  }

  lemma {:induction false} BehaviorIsSound(w: World, aas: seq<AA>, c: Call)
    requires AllSound(w, aas)
    ensures SoundBehavior(w, c, BehaviorOf(aas, c))
  {
    if aas != [] {
      assert Sound(w, aas[0]);
      assert forall k :: 0 <= k < |aas| - 1 ==> aas[1..][k] == aas[k + 1];
      BehaviorIsSound(w, aas[1..], c);
    }
  }

  lemma ConstantIsSound(w: World, aas: seq<AA>, l: Loc)
    requires AllSound(w, aas) && ConstantOf(aas, l)
    ensures SoundConstant(w, l)
  {
  }

  lemma ArgIsSound(w: World, aas: seq<AA>, c: Call, i: nat)
    requires AllSound(w, aas)
    ensures SoundArg(w, c, i, ArgMod(aas, c, i), ArgRef(aas, c, i))
  {
    forall a | w.stores(c, Through(i), a)
      ensures ArgMod(aas, c, i)
    {
      assert forall k :: 0 <= k < |aas| ==> Sound(w, aas[k]) && SoundArg(w, c, i, aas[k].arg(c, i).mod, aas[k].arg(c, i).ref);
    }
    forall a | w.loads(c, Through(i), a)
      ensures ArgRef(aas, c, i)
    {
      assert forall k :: 0 <= k < |aas| ==> Sound(w, aas[k]) && SoundArg(w, c, i, aas[k].arg(c, i).mod, aas[k].arg(c, i).ref);
    }
  }

  lemma CallLocComponents(w: World, aas: seq<AA>, c: Call, l: Loc, a: Addr)
    requires AllSound(w, aas) && w.covers(l, a)
    ensures w.Writes(c, a) ==> forall k :: 0 <= k < |aas| ==> aas[k].callLoc(c, l).mod
    ensures w.Reads(c, a) ==> forall k :: 0 <= k < |aas| ==> aas[k].callLoc(c, l).ref
  {
    assert forall k :: 0 <= k < |aas| ==> Sound(w, aas[k]) && SoundCallLoc(w, c, l, aas[k].callLoc(c, l).mod, aas[k].callLoc(c, l).ref);
  }

  /** A call that stays with its arguments and hidden memory comes to a named address through an
      argument that may alias the location. */
  lemma ThroughArg(w: World, aas: seq<AA>, c: Call, l: Loc, v: Via, a: Addr)
    requires AllSound(w, aas) && w.covers(l, a) && w.Touches(c, v, a)
    requires BehaviorOf(aas, c).OnlyAccessesInaccessibleOrArgMem()
    ensures v.Through? && ArgMeets(aas, c, l, v.index) && BehaviorOf(aas, c).DoesAccessArgPointees()
    ensures w.stores(c, v, a) ==> ArgMod(aas, c, v.index)
    ensures w.loads(c, v, a) ==> ArgRef(aas, c, v.index)
  {
    BehaviorIsSound(w, aas, c);
    assert v.Through?;
    AliasIsSound(w, aas, c.args[v.index].loc, l);
    ArgIsSound(w, aas, c, v.index);
  }

  /** If every component analysis is right, so is the answer about a call and a location. */
  lemma CallLocIsSound(w: World, aas: seq<AA>, c: Call, l: Loc)
    requires AllSound(w, aas)
    ensures SoundCallLoc(w, c, l, MayModLoc(aas, c, l), MayRefLoc(aas, c, l))
  {
    BehaviorIsSound(w, aas, c);
    forall a | w.covers(l, a) && w.Writes(c, a)
      ensures MayModLoc(aas, c, l)
    {
      var v :| w.stores(c, v, a);
      assert w.Touches(c, v, a);
      CallLocComponents(w, aas, c, l, a);
      if BehaviorOf(aas, c).OnlyAccessesInaccessibleOrArgMem() {
        ThroughArg(w, aas, c, l, v, a);
      }
      if ConstantOf(aas, l) {
        ConstantIsSound(w, aas, l);
      }
    }
    forall a | w.covers(l, a) && w.Reads(c, a)
      ensures MayRefLoc(aas, c, l)
    {
      var v :| w.loads(c, v, a);
      assert w.Touches(c, v, a);
      CallLocComponents(w, aas, c, l, a);
      if BehaviorOf(aas, c).OnlyAccessesInaccessibleOrArgMem() {
        ThroughArg(w, aas, c, l, v, a);
      }
    }
  }

  lemma CallCallComponents(w: World, aas: seq<AA>, c: Call, d: Call, a: Addr)
    requires AllSound(w, aas)
    ensures w.Writes(c, a) && (w.Reads(d, a) || w.Writes(d, a)) ==> forall k :: 0 <= k < |aas| ==> aas[k].callCall(c, d).mod
    ensures w.Reads(c, a) && w.Writes(d, a) ==> forall k :: 0 <= k < |aas| ==> aas[k].callCall(c, d).ref
  {
    assert forall k :: 0 <= k < |aas| ==>
      Sound(w, aas[k]) && SoundCallCall(w, c, d, aas[k].callCall(c, d).mod, aas[k].callCall(c, d).ref);
  }

  /** A call that stays with its arguments comes to an address through one of them. */
  lemma OnlyThroughArg(w: World, aas: seq<AA>, c: Call, v: Via, a: Addr)
    requires AllSound(w, aas) && w.Touches(c, v, a) && BehaviorOf(aas, c).OnlyAccessesArgPointees()
    ensures v.Through? && v.index < |c.args| && c.args[v.index].Pointer? && w.covers(c.args[v.index].loc, a)
    ensures BehaviorOf(aas, c).DoesAccessArgPointees()
    ensures w.stores(c, v, a) ==> ArgMod(aas, c, v.index)
    ensures w.loads(c, v, a) ==> ArgRef(aas, c, v.index)
  {
    BehaviorIsSound(w, aas, c);
    assert v.Through?;
    ArgIsSound(w, aas, c, v.index);
  }

  /** If every component analysis is right, so is the answer about two calls. */
  lemma CallCallIsSound(w: World, aas: seq<AA>, c: Call, d: Call)
    requires AllSound(w, aas)
    ensures SoundCallCall(w, c, d, MayModCall(aas, c, d), MayRefCall(aas, c, d))
  {
    forall v: Via, u: Via, a: Addr | w.stores(c, v, a) && w.Touches(d, u, a)
      ensures MayModCall(aas, c, d)
    {
      ModFound(w, aas, c, d, v, u, a);
    }
    forall v: Via, u: Via, a: Addr | w.loads(c, v, a) && w.stores(d, u, a)
      ensures MayRefCall(aas, c, d)
    {
      RefFound(w, aas, c, d, v, u, a);
    }
    forall a
      ensures w.Writes(c, a) && (w.Reads(d, a) || w.Writes(d, a)) ==> MayModCall(aas, c, d)
      ensures w.Reads(c, a) && w.Writes(d, a) ==> MayRefCall(aas, c, d)
    {
      if w.Writes(c, a) && (w.Reads(d, a) || w.Writes(d, a)) {
        var v :| w.stores(c, v, a);
        if w.Reads(d, a) {
          var u :| w.loads(d, u, a);
          assert w.Touches(d, u, a);
        } else {
          var u :| w.stores(d, u, a);
          assert w.Touches(d, u, a);
        }
      }
    }
  }

  lemma ModFound(w: World, aas: seq<AA>, c: Call, d: Call, v: Via, u: Via, a: Addr)
    requires AllSound(w, aas) && w.stores(c, v, a) && w.Touches(d, u, a)
    ensures MayModCall(aas, c, d)
  {
    var b, b' := BehaviorOf(aas, c), BehaviorOf(aas, d);
    assert w.Touches(c, v, a) && w.Writes(c, a) && (w.Reads(d, a) || w.Writes(d, a));
    BehaviorIsSound(w, aas, c);
    BehaviorIsSound(w, aas, d);
    CallCallComponents(w, aas, c, d, a);
    if b'.OnlyAccessesArgPointees() {
      OnlyThroughArg(w, aas, d, u, a);
      CallLocIsSound(w, aas, c, d.args[u.index].loc);
      assert SecondArgMod(aas, c, d, u.index);
    } else if b.OnlyAccessesArgPointees() {
      OnlyThroughArg(w, aas, c, v, a);
      CallLocIsSound(w, aas, d, c.args[v.index].loc);
      assert FirstArgMeets(aas, c, d, v.index);
    }
  }

  lemma RefFound(w: World, aas: seq<AA>, c: Call, d: Call, v: Via, u: Via, a: Addr)
    requires AllSound(w, aas) && w.loads(c, v, a) && w.stores(d, u, a)
    ensures MayRefCall(aas, c, d)
  {
    var b, b' := BehaviorOf(aas, c), BehaviorOf(aas, d);
    assert w.Touches(c, v, a) && w.Touches(d, u, a) && w.Reads(c, a) && w.Writes(d, a);
    BehaviorIsSound(w, aas, c);
    BehaviorIsSound(w, aas, d);
    CallCallComponents(w, aas, c, d, a);
    if b'.OnlyAccessesArgPointees() {
      OnlyThroughArg(w, aas, d, u, a);
      CallLocIsSound(w, aas, c, d.args[u.index].loc);
      assert SecondArgRef(aas, c, d, u.index);
    } else if b.OnlyAccessesArgPointees() {
      OnlyThroughArg(w, aas, c, v, a);
      CallLocIsSound(w, aas, d, c.args[v.index].loc);
      assert FirstArgMeets(aas, c, d, v.index);
    }
  }
}
