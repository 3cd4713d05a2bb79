/** class AAResults: the queries, as loops over the component analyses and over arguments. The
    Must bit of the answers is carried along; nothing is claimed of it. */
module AAResultsModel {
  import opened AAModel
  import opened AAAnswers

  class AAResults {
    const aas: seq<AA>

    constructor (aas: seq<AA>)
      ensures this.aas == aas
    {
      this.aas := aas;
    }

    method Alias(l: Loc, m: Loc) returns (r: AliasResult)
      ensures r == AliasOf(aas, l, m)
    {
      assert aas[0..] == aas;
      for k := 0 to |aas|
        invariant AliasOf(aas, l, m) == AliasOf(aas[k..], l, m)
      {
        r := aas[k].alias(l, m);
        if r != MayAlias {
          return;
        }
      }
      return MayAlias;
    }

    method PointsToConstantMemory(l: Loc) returns (r: bool)
      ensures r == ConstantOf(aas, l)
    {
      for k := 0 to |aas|
        invariant forall j :: 0 <= j < k ==> !aas[j].constant(l, false)
      {
        if aas[k].constant(l, false) {
          return true;
        }
      }
      return false;
    }

    method GetArgModRefInfo(c: Call, i: nat) returns (r: ModRefInfo)
      ensures r.mod == ArgMod(aas, c, i) && r.ref == ArgRef(aas, c, i)
    {
      r := MOD_REF;
      for k := 0 to |aas|
        invariant r.mod == forall j :: 0 <= j < k ==> aas[j].arg(c, i).mod
        invariant r.ref == forall j :: 0 <= j < k ==> aas[j].arg(c, i).ref
      {
        r := r.Meet(aas[k].arg(c, i));
        if !r.Any() {
          return NO_MOD_REF;
        }
      }
    }

    method GetModRefBehavior(c: Call) returns (r: Behavior)
      ensures r == BehaviorOf(aas, c)
    {
      assert aas[0..] == aas;
      r := UNKNOWN_BEHAVIOR;
      for k := 0 to |aas|
        invariant BehaviorOf(aas, c) == r.Meet(BehaviorOf(aas[k..], c))
      {
        r := r.Meet(aas[k].behavior(c));
        if r == DOES_NOT_ACCESS {
          return;
        }
      }
    }

    /** getModRefInfo of a call and a location. */
    method CallLoc(c: Call, l: Loc) returns (r: ModRefInfo)
      ensures r.mod == MayModLoc(aas, c, l) && r.ref == MayRefLoc(aas, c, l)
      ensures forall w :: AllSound(w, aas) ==> SoundCallLoc(w, c, l, r.mod, r.ref)
    {
      forall w | AllSound(w, aas)
        ensures SoundCallLoc(w, c, l, MayModLoc(aas, c, l), MayRefLoc(aas, c, l))
      {
        CallLocIsSound(w, aas, c, l);
      }
      r := MOD_REF;
      for k := 0 to |aas|
        invariant r.mod == forall j :: 0 <= j < k ==> aas[j].callLoc(c, l).mod
        invariant r.ref == forall j :: 0 <= j < k ==> aas[j].callLoc(c, l).ref
      {
        r := r.Meet(aas[k].callLoc(c, l));
        if !r.Any() {
          return NO_MOD_REF;
        }
      }

      var mrb := GetModRefBehavior(c);
      if mrb == DOES_NOT_ACCESS || mrb == ONLY_INACCESSIBLE {
        return NO_MOD_REF;
      }
      if mrb.OnlyReadsMemory() {
        r := r.(mod := false);
      } else if mrb.DoesNotReadMemory() {
        r := r.(ref := false);
      }

      if mrb.OnlyAccessesArgPointees() || mrb.OnlyAccessesInaccessibleOrArgMem() {
        var isMustAlias, allArgsMask := true, NO_MOD_REF;
        if mrb.DoesAccessArgPointees() {
          for i := 0 to |c.args|
            invariant allArgsMask.mod == exists j: nat :: j < i && ArgMeets(aas, c, l, j) && ArgMod(aas, c, j)
            invariant allArgsMask.ref == exists j: nat :: j < i && ArgMeets(aas, c, l, j) && ArgRef(aas, c, j)
          {
            if c.args[i].Scalar? {
              continue;
            }
            var argAlias := Alias(c.args[i].loc, l);
            if argAlias != NoAlias {
              var argMask := GetArgModRefInfo(c, i);
              allArgsMask := allArgsMask.Join(argMask);
            }
            isMustAlias := isMustAlias && argAlias == MustAlias;
          }
        }
        if !allArgsMask.Any() {
          return NO_MOD_REF;
        }
        r := r.Meet(allArgsMask);
        r := r.(must := isMustAlias);
      }

      if r.mod {
        var constant := PointsToConstantMemory(l);
        if constant {
          r := r.(mod := false);
        }
      }
    }

    /** getModRefInfo of two calls. */
    method CallCall(c: Call, d: Call) returns (r: ModRefInfo)
      ensures r.mod == MayModCall(aas, c, d) && r.ref == MayRefCall(aas, c, d)
      ensures forall w :: AllSound(w, aas) ==> SoundCallCall(w, c, d, r.mod, r.ref)
    {
      forall w | AllSound(w, aas)
        ensures SoundCallCall(w, c, d, MayModCall(aas, c, d), MayRefCall(aas, c, d))
      {
        CallCallIsSound(w, aas, c, d);
      }
      r := MOD_REF;
      for k := 0 to |aas|
        invariant r.mod == forall j :: 0 <= j < k ==> aas[j].callCall(c, d).mod
        invariant r.ref == forall j :: 0 <= j < k ==> aas[j].callCall(c, d).ref
      {
        r := r.Meet(aas[k].callCall(c, d));
        if !r.Any() {
          return NO_MOD_REF;
        }
      }

      var behavior1 := GetModRefBehavior(c);
      if behavior1 == DOES_NOT_ACCESS {
        return NO_MOD_REF;
      }
      var behavior2 := GetModRefBehavior(d);
      if behavior2 == DOES_NOT_ACCESS {
        return NO_MOD_REF;
      }
      if behavior1.OnlyReadsMemory() && behavior2.OnlyReadsMemory() {
        return NO_MOD_REF;
      }
      if behavior1.OnlyReadsMemory() {
        r := r.(mod := false);
      } else if behavior1.DoesNotReadMemory() {
        r := r.(ref := false);
      }
      if behavior2.OnlyAccessesArgPointees() {
        if !behavior2.DoesAccessArgPointees() {
          return NO_MOD_REF;
        }
        r := ThroughSecond(c, d, r);
      } else if behavior1.OnlyAccessesArgPointees() {
        if !behavior1.DoesAccessArgPointees() {
          return NO_MOD_REF;
        }
        r := ThroughFirst(c, d, r);
      }
    }

    /** The second call comes to memory through its arguments only. */
    method ThroughSecond(c: Call, d: Call, result: ModRefInfo) returns (r: ModRefInfo)
      ensures r.mod == (result.mod && exists i: nat :: i < |d.args| && SecondArgMod(aas, c, d, i))
      ensures r.ref == (result.ref && exists i: nat :: i < |d.args| && SecondArgRef(aas, c, d, i))
    {
      hide MayModLoc, MayRefLoc, ArgMod, ArgRef;
      r := NO_MOD_REF;
      var isMustAlias := true;
      var i := 0;
      while i < |d.args|
        invariant 0 <= i <= |d.args|
        invariant r.mod == (result.mod && exists j: nat :: j < i && SecondArgMod(aas, c, d, j))
        invariant r.ref == (result.ref && exists j: nat :: j < i && SecondArgRef(aas, c, d, j))
      {
        if d.args[i].Pointer? {
          var argLoc := d.args[i].loc;
          var argModRef2 := GetArgModRefInfo(d, i);
          var argMask := NO_MOD_REF;
          if argModRef2.mod {
            argMask := MOD_REF;
          } else if argModRef2.ref {
            argMask := MOD;
          }
          var modRef1 := CallLoc(c, argLoc);
          argMask := argMask.Meet(modRef1);
          isMustAlias := isMustAlias && modRef1.must;
          assert argMask.mod == SecondArgMod(aas, c, d, i) && argMask.ref == SecondArgRef(aas, c, d, i);
          r := r.Join(argMask).Meet(result);
          if r == result {
            if i + 1 != |d.args| {
              isMustAlias := false;
            }
            break;
          }
        }
        i := i + 1;
      }
      if !r.Any() {
        return NO_MOD_REF;
      }
      r := r.(must := isMustAlias);
    }

    /** The first call comes to memory through its arguments only. */
    method ThroughFirst(c: Call, d: Call, result: ModRefInfo) returns (r: ModRefInfo)
      ensures r.mod == (result.mod && exists i: nat :: i < |c.args| && FirstArgMeets(aas, c, d, i) && ArgMod(aas, c, i))
      ensures r.ref == (result.ref && exists i: nat :: i < |c.args| && FirstArgMeets(aas, c, d, i) && ArgRef(aas, c, i))
    {
      hide MayModLoc, MayRefLoc, ArgMod, ArgRef;
      r := NO_MOD_REF;
      var isMustAlias := true;
      var i := 0;
      while i < |c.args|
        invariant 0 <= i <= |c.args|
        invariant r.mod == (result.mod && exists j: nat :: j < i && FirstArgMeets(aas, c, d, j) && ArgMod(aas, c, j))
        invariant r.ref == (result.ref && exists j: nat :: j < i && FirstArgMeets(aas, c, d, j) && ArgRef(aas, c, j))
      {
        if c.args[i].Pointer? {
          var argLoc := c.args[i].loc;
          var argModRef1 := GetArgModRefInfo(c, i);
          var modRef2 := CallLoc(d, argLoc);
          if (argModRef1.mod && modRef2.Any()) || (argModRef1.ref && modRef2.mod) {
            r := r.Join(argModRef1).Meet(result);
          }
          isMustAlias := isMustAlias && modRef2.must;
          if r == result {
            if i + 1 != |c.args| {
              isMustAlias := false;
            }
            break;
          }
        }
        i := i + 1;
      }
      if !r.Any() {
        return NO_MOD_REF;
      }
      r := r.(must := isMustAlias);
    }
  }
}
