/** When the answers must be clear, in terms of what single component analyses say. With the soundness
    of the answers this bounds them from both sides. */
module AAPrecision {
  import opened AAModel
  import opened AAAnswers

  // ---- what some component says ------------------------------------------------------------

  predicate NeverWrites(aas: seq<AA>, c: Call) {
    exists k :: 0 <= k < |aas| && !aas[k].behavior(c).mod
  }

  predicate NeverReads(aas: seq<AA>, c: Call) {
    exists k :: 0 <= k < |aas| && !aas[k].behavior(c).ref
  }

  predicate AvoidsArgs(aas: seq<AA>, c: Call) {
    exists k :: 0 <= k < |aas| && !aas[k].behavior(c).args
  }

  predicate AvoidsHidden(aas: seq<AA>, c: Call) {
    exists k :: 0 <= k < |aas| && !aas[k].behavior(c).hidden
  }

  predicate AvoidsElsewhere(aas: seq<AA>, c: Call) {
    exists k :: 0 <= k < |aas| && !aas[k].behavior(c).elsewhere
  }

  /** Components may share this work. */
  predicate NeverAccesses(aas: seq<AA>, c: Call) {
    NeverWrites(aas, c) && NeverReads(aas, c) && AvoidsArgs(aas, c) && AvoidsHidden(aas, c) && AvoidsElsewhere(aas, c)
  }

  predicate StaysWithArgs(aas: seq<AA>, c: Call) {
    AvoidsHidden(aas, c) && AvoidsElsewhere(aas, c)
  }

  /** Such a call comes to nothing through its arguments. */
  predicate NoArgAccess(aas: seq<AA>, c: Call) {
    AvoidsArgs(aas, c) || (NeverWrites(aas, c) && NeverReads(aas, c))
  }

  predicate ArgUnwritten(aas: seq<AA>, c: Call, i: nat) {
    exists k :: 0 <= k < |aas| && !aas[k].arg(c, i).mod
  }

  predicate ArgUnread(aas: seq<AA>, c: Call, i: nat) {
    exists k :: 0 <= k < |aas| && !aas[k].arg(c, i).ref
  }

  /** A component says so, and those asked before it do not know. */
  predicate SaidApart(aas: seq<AA>, l: Loc, m: Loc) {
    exists k :: 0 <= k < |aas| && aas[k].alias(l, m) == NoAlias && forall j :: 0 <= j < k ==> aas[j].alias(l, m) == MayAlias
  }

  lemma {:induction false} ApartIffSaid(aas: seq<AA>, l: Loc, m: Loc)
    ensures AliasOf(aas, l, m) == NoAlias <==> SaidApart(aas, l, m)
  {
    if aas != [] {
      var rest := aas[1..];
      ApartIffSaid(rest, l, m);
      if AliasOf(aas, l, m) == NoAlias && aas[0].alias(l, m) == MayAlias {
        var k :| 0 <= k < |rest| && rest[k].alias(l, m) == NoAlias && forall j :: 0 <= j < k ==> rest[j].alias(l, m) == MayAlias;
        assert aas[k + 1].alias(l, m) == NoAlias;
        assert forall j :: 0 < j < k + 1 ==> aas[j] == rest[j - 1];
      }
      if k :| 0 <= k < |aas| && aas[k].alias(l, m) == NoAlias && forall j :: 0 <= j < k ==> aas[j].alias(l, m) == MayAlias {
        if k > 0 {
          assert rest[k - 1].alias(l, m) == NoAlias;
          assert forall j :: 0 <= j < k - 1 ==> rest[j] == aas[j + 1];
        }
      }
    }
  }

  lemma {:induction false} BehaviorBits(aas: seq<AA>, c: Call)
    ensures BehaviorOf(aas, c) == Behavior(!NeverWrites(aas, c), !NeverReads(aas, c), !AvoidsArgs(aas, c),
                                           !AvoidsHidden(aas, c), !AvoidsElsewhere(aas, c))
  {
    if aas != [] {
      var rest := aas[1..];
      BehaviorBits(rest, c);
      assert aas == [aas[0]] + rest;
      Split(aas, (aa: AA) => !aa.behavior(c).mod);
      Split(aas, (aa: AA) => !aa.behavior(c).ref);
      Split(aas, (aa: AA) => !aa.behavior(c).args);
      Split(aas, (aa: AA) => !aa.behavior(c).hidden);
      Split(aas, (aa: AA) => !aa.behavior(c).elsewhere);
    }
  }

  lemma Split(aas: seq<AA>, says: AA -> bool)
    requires aas != []
    ensures (exists k :: 0 <= k < |aas| && says(aas[k])) <==>
            says(aas[0]) || exists k :: 0 <= k < |aas[1..]| && says(aas[1..][k])
  {
    if k :| 0 < k < |aas| && says(aas[k]) {
      assert says(aas[1..][k - 1]);
    }
  }

  // ---- a call and a location ---------------------------------------------------------------

  /** Why a call cannot write a location, as far as the components say. */
  predicate CannotWrite(aas: seq<AA>, c: Call, l: Loc) {
    || (exists k :: 0 <= k < |aas| && !aas[k].callLoc(c, l).mod)
    || NeverWrites(aas, c)
    || (exists k :: 0 <= k < |aas| && aas[k].constant(l, false))
    || (AvoidsElsewhere(aas, c) &&
        (AvoidsArgs(aas, c) ||
         forall i: nat :: i < |c.args| && c.args[i].Pointer? ==> SaidApart(aas, c.args[i].loc, l) || ArgUnwritten(aas, c, i)))
  }

  /** Why it cannot read it. A call that never reads does not count if it never writes either. */
  predicate CannotRead(aas: seq<AA>, c: Call, l: Loc) {
    || (exists k :: 0 <= k < |aas| && !aas[k].callLoc(c, l).ref)
    || (NeverReads(aas, c) && !NeverWrites(aas, c))
    || (AvoidsElsewhere(aas, c) &&
        (NoArgAccess(aas, c) ||
         forall i: nat :: i < |c.args| && c.args[i].Pointer? ==> SaidApart(aas, c.args[i].loc, l) || ArgUnread(aas, c, i)))
  }

  lemma ArgAnswers(aas: seq<AA>, c: Call, i: nat)
    ensures ArgMod(aas, c, i) <==> !ArgUnwritten(aas, c, i)
    ensures ArgRef(aas, c, i) <==> !ArgUnread(aas, c, i)
  {
  }

  lemma ThroughArgs(aas: seq<AA>, c: Call, l: Loc)
    ensures (exists i: nat :: i < |c.args| && ArgMeets(aas, c, l, i) && ArgMod(aas, c, i)) <==>
            !forall i: nat :: i < |c.args| && c.args[i].Pointer? ==> SaidApart(aas, c.args[i].loc, l) || ArgUnwritten(aas, c, i)
    ensures (exists i: nat :: i < |c.args| && ArgMeets(aas, c, l, i) && ArgRef(aas, c, i)) <==>
            !forall i: nat :: i < |c.args| && c.args[i].Pointer? ==> SaidApart(aas, c.args[i].loc, l) || ArgUnread(aas, c, i)
  {
    hide AliasOf, SaidApart, ArgMod, ArgRef, ArgUnwritten, ArgUnread;
    forall i: nat | i < |c.args|
      ensures ArgMeets(aas, c, l, i) <==> c.args[i].Pointer? && !SaidApart(aas, c.args[i].loc, l)
      ensures ArgMod(aas, c, i) <==> !ArgUnwritten(aas, c, i)
      ensures ArgRef(aas, c, i) <==> !ArgUnread(aas, c, i)
    {
      if c.args[i].Pointer? {
        ApartIffSaid(aas, c.args[i].loc, l);
      }
      ArgAnswers(aas, c, i);
    }
  }

  lemma CallLocIsPrecise(aas: seq<AA>, c: Call, l: Loc)
    ensures MayModLoc(aas, c, l) <==> !CannotWrite(aas, c, l)
    ensures MayRefLoc(aas, c, l) <==> !CannotRead(aas, c, l)
  {
    hide AliasOf, BehaviorOf, SaidApart, ArgMeets, ArgMod, ArgRef, ArgUnwritten, ArgUnread,
         NeverWrites, NeverReads, AvoidsArgs, AvoidsHidden, AvoidsElsewhere;
    BehaviorBits(aas, c);
    ThroughArgs(aas, c, l);
  }

  /** One component says that the call never writes, another that it never reads, and still it is taken
      to read. */
  lemma NeitherYetReads(a: AA, b: AA, c: Call, l: Loc)
    requires a.behavior(c) == Behavior(false, true, true, true, true) && b.behavior(c) == Behavior(true, false, true, true, true)
    requires a.callLoc(c, l).ref && b.callLoc(c, l).ref
    ensures NeverWrites([a, b], c) && NeverReads([a, b], c) && MayRefLoc([a, b], c, l)
  {
    var aas := [a, b];
    assert !aas[0].behavior(c).mod && !aas[1].behavior(c).ref;
    assert aas[1..] == [b] && [b][1..] == [];
    assert BehaviorOf([b], c) == b.behavior(c).Meet(BehaviorOf([], c));
  }

  // ---- two calls ---------------------------------------------------------------------------

  lemma SecondArgs(aas: seq<AA>, c: Call, d: Call)
    ensures (exists i: nat :: i < |d.args| && SecondArgMod(aas, c, d, i)) <==>
            !forall i: nat :: i < |d.args| && d.args[i].Pointer? ==>
               CannotWrite(aas, c, d.args[i].loc) || (ArgUnwritten(aas, d, i) && ArgUnread(aas, d, i))
    ensures (exists i: nat :: i < |d.args| && SecondArgRef(aas, c, d, i)) <==>
            !forall i: nat :: i < |d.args| && d.args[i].Pointer? ==> CannotRead(aas, c, d.args[i].loc) || ArgUnwritten(aas, d, i)
  {
    hide MayModLoc, MayRefLoc, CannotWrite, CannotRead, ArgMod, ArgRef, ArgUnwritten, ArgUnread;
    forall i: nat | i < |d.args| && d.args[i].Pointer?
      ensures SecondArgMod(aas, c, d, i) <==>
              !(CannotWrite(aas, c, d.args[i].loc) || (ArgUnwritten(aas, d, i) && ArgUnread(aas, d, i)))
      ensures SecondArgRef(aas, c, d, i) <==> !(CannotRead(aas, c, d.args[i].loc) || ArgUnwritten(aas, d, i))
    {
      CallLocIsPrecise(aas, c, d.args[i].loc);
      ArgAnswers(aas, d, i);
    }
  }

  lemma FirstArgs(aas: seq<AA>, c: Call, d: Call)
    ensures (exists i: nat :: i < |c.args| && FirstArgMeets(aas, c, d, i) && ArgMod(aas, c, i)) <==>
            !forall i: nat :: i < |c.args| && c.args[i].Pointer? ==>
               ArgUnwritten(aas, c, i) || (CannotWrite(aas, d, c.args[i].loc) && CannotRead(aas, d, c.args[i].loc))
    ensures (exists i: nat :: i < |c.args| && FirstArgMeets(aas, c, d, i) && ArgRef(aas, c, i)) <==>
            !forall i: nat :: i < |c.args| && c.args[i].Pointer? ==>
               ArgUnread(aas, c, i) ||
               (CannotWrite(aas, d, c.args[i].loc) && (ArgUnwritten(aas, c, i) || CannotRead(aas, d, c.args[i].loc)))
  {
    hide MayModLoc, MayRefLoc, CannotWrite, CannotRead, ArgMod, ArgRef, ArgUnwritten, ArgUnread;
    forall i: nat | i < |c.args| && c.args[i].Pointer?
      ensures MayModLoc(aas, d, c.args[i].loc) <==> !CannotWrite(aas, d, c.args[i].loc)
      ensures MayRefLoc(aas, d, c.args[i].loc) <==> !CannotRead(aas, d, c.args[i].loc)
      ensures ArgMod(aas, c, i) <==> !ArgUnwritten(aas, c, i)
      ensures ArgRef(aas, c, i) <==> !ArgUnread(aas, c, i)
    {
      CallLocIsPrecise(aas, d, c.args[i].loc);
      ArgAnswers(aas, c, i);
    }
  }

  /** The first call is not taken to write what the second accesses if and only if some component says so;
      or the first never writes, or the second never accesses memory; or the second stays with its
      arguments, and at each of them the first cannot write or the second does nothing; or else the first
      stays with its arguments, and at each of them it does not write or the second can do nothing. */
  lemma ModIsPrecise(aas: seq<AA>, c: Call, d: Call)
    ensures !MayModCall(aas, c, d) <==>
            || (exists k :: 0 <= k < |aas| && !aas[k].callCall(c, d).mod)
            || NeverWrites(aas, c) || NeverAccesses(aas, d)
            || (StaysWithArgs(aas, d) &&
                (NoArgAccess(aas, d) ||
                 forall i: nat :: i < |d.args| && d.args[i].Pointer? ==>
                   CannotWrite(aas, c, d.args[i].loc) || (ArgUnwritten(aas, d, i) && ArgUnread(aas, d, i))))
            || (!StaysWithArgs(aas, d) && StaysWithArgs(aas, c) &&
                (NoArgAccess(aas, c) ||
                 forall i: nat :: i < |c.args| && c.args[i].Pointer? ==>
                   ArgUnwritten(aas, c, i) || (CannotWrite(aas, d, c.args[i].loc) && CannotRead(aas, d, c.args[i].loc))))
  {
    hide BehaviorOf, SecondArgMod, SecondArgRef, FirstArgMeets, ArgMod, ArgRef, ArgUnwritten, ArgUnread, CannotWrite, CannotRead,
         NeverWrites, NeverReads, AvoidsArgs, AvoidsHidden, AvoidsElsewhere;
    BehaviorBits(aas, c);
    BehaviorBits(aas, d);
    SecondArgs(aas, c, d);
    FirstArgs(aas, c, d);
  }

  /** It is not taken to read what the second writes if and only if some component says so; or the first
      never reads, or one of them never accesses memory, or neither writes; or the second stays with its
      arguments, and at each of them the first cannot read or the second does not write; or else the first
      stays with its arguments, and at each of them it does not read, or the second cannot write and at
      the most one of them writes and the other reads there. */
  lemma RefIsPrecise(aas: seq<AA>, c: Call, d: Call)
    ensures !MayRefCall(aas, c, d) <==>
            || (exists k :: 0 <= k < |aas| && !aas[k].callCall(c, d).ref)
            || (NeverReads(aas, c) && !NeverWrites(aas, c))
            || NeverAccesses(aas, c) || NeverAccesses(aas, d) || (NeverWrites(aas, c) && NeverWrites(aas, d))
            || (StaysWithArgs(aas, d) &&
                (NoArgAccess(aas, d) ||
                 forall i: nat :: i < |d.args| && d.args[i].Pointer? ==> CannotRead(aas, c, d.args[i].loc) || ArgUnwritten(aas, d, i)))
            || (!StaysWithArgs(aas, d) && StaysWithArgs(aas, c) &&
                (NoArgAccess(aas, c) ||
                 forall i: nat :: i < |c.args| && c.args[i].Pointer? ==>
                   ArgUnread(aas, c, i) ||
                   (CannotWrite(aas, d, c.args[i].loc) && (ArgUnwritten(aas, c, i) || CannotRead(aas, d, c.args[i].loc)))))
  {
    hide BehaviorOf, SecondArgMod, SecondArgRef, FirstArgMeets, ArgMod, ArgRef, ArgUnwritten, ArgUnread, CannotWrite, CannotRead,
         NeverWrites, NeverReads, AvoidsArgs, AvoidsHidden, AvoidsElsewhere;
    BehaviorBits(aas, c);
    BehaviorBits(aas, d);
    SecondArgs(aas, c, d);
    FirstArgs(aas, c, d);
  }
}
