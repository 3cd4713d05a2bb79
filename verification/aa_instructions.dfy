/** The queries about single instructions and about ranges of them. */
module AAInstructions {
  import opened AAModel
  import opened AAAnswers
  import opened AAPrecision
  import opened AAResultsModel

  /** An instruction, as far as memory goes. `ordered` says that its atomic ordering is too strong
      for its address to tell the whole story. */
  datatype Instr = Load(loc: Loc, ordered: bool) | Store(loc: Loc, ordered: bool) | VAArg(loc: Loc)
                 | CmpXchg(loc: Loc, ordered: bool) | RMW(loc: Loc, ordered: bool)
                 | Fence | CatchPad | CatchRet | CallInstr(call: Call) | Plain

  datatype Option<T> = None | Some(value: T)

  /** No location stands for any memory. */
  predicate Covered(w: World, l: Option<Loc>, a: Addr) {
    l.Some? ==> w.covers(l.value, a)
  }

  // ---- what instructions do ----------------------------------------------------------------

  ghost predicate InstrReads(w: World, i: Instr, a: Addr) {
    !w.constant(a) &&
    match i
    case Load(l, ordered) => ordered || w.covers(l, a)
    case Store(_, ordered) => ordered
    case VAArg(l) => w.covers(l, a)
    case CmpXchg(l, ordered) => ordered || w.covers(l, a)
    case RMW(l, ordered) => ordered || w.covers(l, a)
    case CallInstr(c) => w.Reads(c, a)
    case Plain => false
    case _ => true
  }

  ghost predicate InstrWrites(w: World, i: Instr, a: Addr) {
    !w.constant(a) &&
    match i
    case Load(_, ordered) => ordered
    case Store(l, ordered) => ordered || w.covers(l, a)
    case VAArg(l) => w.covers(l, a)
    case CmpXchg(l, ordered) => ordered || w.covers(l, a)
    case RMW(l, ordered) => ordered || w.covers(l, a)
    case CallInstr(c) => w.Writes(c, a)
    case Plain => false
    case _ => true
  }

  /** The instruction writes the location only if `r.mod`, and reads it only if `r.ref`. */
  ghost predicate SoundInstr(w: World, i: Instr, l: Option<Loc>, r: ModRefInfo) {
    forall a :: Covered(w, l, a) ==> (InstrWrites(w, i, a) ==> r.mod) && (InstrReads(w, i, a) ==> r.ref)
  }

  // ---- the queries -------------------------------------------------------------------------

  /** The overloads for loads, stores, va_arg and the atomic instructions. */
  function AccessAt(aas: seq<AA>, i: Instr, l: Option<Loc>): ModRefInfo
    requires i.Load? || i.Store? || i.VAArg? || i.CmpXchg? || i.RMW?
  {
    if !i.VAArg? && i.ordered then MOD_REF
    else
      var plain := match i case Load(_, _) => REF case Store(_, _) => MOD case _ => MOD_REF;
      if l.Some? then
        var ar := AliasOf(aas, i.loc, l.value);
        if ar == NoAlias then NO_MOD_REF
        else if (i.Store? || i.VAArg?) && ConstantOf(aas, l.value) then NO_MOD_REF
        else if ar == MustAlias then plain.(must := true)
        else plain
      else plain
  }

  /** The overloads for fences, catchpad and catchret. */
  function BarrierAt(aas: seq<AA>, i: Instr, l: Option<Loc>): ModRefInfo {
    if l.Some? && ConstantOf(aas, l.value) then if i.Fence? then REF else NO_MOD_REF
    else MOD_REF
  }

  lemma AccessIsSound(w: World, aas: seq<AA>, i: Instr, l: Option<Loc>)
    requires AllSound(w, aas) && (i.Load? || i.Store? || i.VAArg? || i.CmpXchg? || i.RMW?)
    ensures SoundInstr(w, i, l, AccessAt(aas, i, l))
  {
    if l.Some? {
      AliasIsSound(w, aas, i.loc, l.value);
      if ConstantOf(aas, l.value) {
        ConstantIsSound(w, aas, l.value);
      }
    }
  }

  lemma BarrierIsSound(w: World, aas: seq<AA>, i: Instr, l: Option<Loc>)
    requires AllSound(w, aas) && (i.Fence? || i.CatchPad? || i.CatchRet?)
    ensures SoundInstr(w, i, l, BarrierAt(aas, i, l))
  {
    if l.Some? && ConstantOf(aas, l.value) {
      ConstantIsSound(w, aas, l.value);
    }
  }

  lemma CallIsSound(w: World, aas: seq<AA>, c: Call, l: Option<Loc>, r: ModRefInfo)
    requires AllSound(w, aas)
    requires if l.Some? then r.mod == MayModLoc(aas, c, l.value) && r.ref == MayRefLoc(aas, c, l.value)
             else r.mod == BehaviorOf(aas, c).mod && r.ref == BehaviorOf(aas, c).ref
    ensures SoundInstr(w, CallInstr(c), l, r)
  {
    if l.Some? {
      CallLocIsSound(w, aas, c, l.value);
    } else {
      BehaviorIsSound(w, aas, c);
      forall a
        ensures (w.Writes(c, a) ==> r.mod) && (w.Reads(c, a) ==> r.ref)
      {
        if v :| w.stores(c, v, a) {
          assert w.Touches(c, v, a);
        }
        if v :| w.loads(c, v, a) {
          assert w.Touches(c, v, a);
        }
      }
    }
  }

  /** The answer about any instruction, but for its Must bit. */
  function AnswerAt(aas: seq<AA>, i: Instr, l: Option<Loc>): ModRefInfo {
    if i.CallInstr? then
      if l.Some? then MR(MayModLoc(aas, i.call, l.value), MayRefLoc(aas, i.call, l.value), false)
      else MR(BehaviorOf(aas, i.call).mod, BehaviorOf(aas, i.call).ref, false)
    else if i.Plain? then NO_MOD_REF
    else if i.Fence? || i.CatchPad? || i.CatchRet? then BarrierAt(aas, i, l)
    else AccessAt(aas, i, l)
  }

  /** If every component analysis is right, so is the answer about an instruction. */
  lemma InstrIsSound(w: World, aas: seq<AA>, i: Instr, l: Option<Loc>)
    requires AllSound(w, aas)
    ensures SoundInstr(w, i, l, AnswerAt(aas, i, l))
  {
    if i.CallInstr? {
      CallIsSound(w, aas, i.call, l, AnswerAt(aas, i, l));
    } else if i.Plain? {
    } else if i.Fence? || i.CatchPad? || i.CatchRet? {
      BarrierIsSound(w, aas, i, l);
    } else {
      AccessIsSound(w, aas, i, l);
    }
  }

  /** Instruction by instruction, in terms of what components say of the location. */
  lemma AnswerIsPrecise(aas: seq<AA>, i: Instr, l: Loc)
    ensures var r := AnswerAt(aas, i, Some(l));
            var constant := exists k :: 0 <= k < |aas| && aas[k].constant(l, false);
            match i
            case Load(loc, ordered) => (r.mod <==> ordered) && (r.ref <==> ordered || !SaidApart(aas, loc, l))
            case Store(loc, ordered) => (r.mod <==> ordered || !(SaidApart(aas, loc, l) || constant)) && (r.ref <==> ordered)
            case VAArg(loc) => r.mod == r.ref && (r.mod <==> !(SaidApart(aas, loc, l) || constant))
            case CmpXchg(loc, ordered) => r.mod == r.ref && (r.mod <==> ordered || !SaidApart(aas, loc, l))
            case RMW(loc, ordered) => r.mod == r.ref && (r.mod <==> ordered || !SaidApart(aas, loc, l))
            case Fence => (r.mod <==> !constant) && r.ref
            case CatchPad => r.mod == r.ref && (r.mod <==> !constant)
            case CatchRet => r.mod == r.ref && (r.mod <==> !constant)
            case CallInstr(c) => (r.mod <==> !CannotWrite(aas, c, l)) && (r.ref <==> !CannotRead(aas, c, l))
            case Plain => !r.mod && !r.ref
  {
    hide MayModLoc, MayRefLoc, SaidApart, CannotWrite, CannotRead, AliasOf;
    match i
    case CallInstr(c) => CallLocIsPrecise(aas, c, l);
    case Load(loc, _) => ApartIffSaid(aas, loc, l);
    case Store(loc, _) => ApartIffSaid(aas, loc, l);
    case VAArg(loc) => ApartIffSaid(aas, loc, l);
    case CmpXchg(loc, _) => ApartIffSaid(aas, loc, l);
    case RMW(loc, _) => ApartIffSaid(aas, loc, l);
    case _ =>
  }

  /** And without a location. */
  lemma AnywhereIsPrecise(aas: seq<AA>, i: Instr)
    ensures var r := AnswerAt(aas, i, None);
            match i
            case Load(_, ordered) => (r.mod <==> ordered) && r.ref
            case Store(_, ordered) => r.mod && (r.ref <==> ordered)
            case CallInstr(c) => (r.mod <==> !NeverWrites(aas, c)) && (r.ref <==> !NeverReads(aas, c))
            case Plain => !r.mod && !r.ref
            case _ => r.mod && r.ref
  {
    if i.CallInstr? {
      BehaviorBits(aas, i.call);
    }
  }

  /** getModRefInfo of an instruction and a location. */
  method InstrLoc(aa: AAResults, i: Instr, l: Option<Loc>) returns (r: ModRefInfo)
    ensures forall w :: AllSound(w, aa.aas) ==> SoundInstr(w, i, l, r)
    ensures r.mod == AnswerAt(aa.aas, i, l).mod && r.ref == AnswerAt(aa.aas, i, l).ref
  {
    hide MayModLoc, MayRefLoc, AllSound, InstrReads, InstrWrites;
    forall w | AllSound(w, aa.aas)
      ensures SoundInstr(w, i, l, AnswerAt(aa.aas, i, l))
    {
      InstrIsSound(w, aa.aas, i, l);
    }
    if i.CallInstr? {
      if l == None {
        var b := aa.GetModRefBehavior(i.call);
        r := MR(b.mod, b.ref, false);
      } else {
        r := aa.CallLoc(i.call, l.value);
      }
    } else if i.Plain? {
      r := NO_MOD_REF;
    } else if i.Fence? || i.CatchPad? || i.CatchRet? {
      r := BarrierAt(aa.aas, i, l);
    } else {
      r := AccessAt(aa.aas, i, l);
    }
  }

  /** What `mode` asks about does not happen. */
  ghost predicate Spared(w: World, i: Instr, l: Option<Loc>, mode: ModRefInfo) {
    forall a :: Covered(w, l, a) ==> !(mode.mod && InstrWrites(w, i, a)) && !(mode.ref && InstrReads(w, i, a))
  }

  predicate Meets(aas: seq<AA>, i: Instr, l: Option<Loc>, mode: ModRefInfo) {
    AnswerAt(aas, i, l).Meet(mode).Any()
  }

  lemma SparedUnlessMet(w: World, aas: seq<AA>, i: Instr, l: Option<Loc>, mode: ModRefInfo)
    requires AllSound(w, aas) && !Meets(aas, i, l, mode)
    ensures Spared(w, i, l, mode)
  {
    InstrIsSound(w, aas, i, l);
  }

  /** canInstructionRangeModRef, on the instructions of one block. */
  method CanInstructionRangeModRef(aa: AAResults, block: seq<Instr>, first: nat, last: nat, l: Loc, mode: ModRefInfo)
    returns (r: bool)
    requires first <= last < |block|
    ensures r <==> exists k :: first <= k <= last && Meets(aa.aas, block[k], Some(l), mode)
    ensures !r ==> forall w, k :: AllSound(w, aa.aas) && first <= k <= last ==> Spared(w, block[k], Some(l), mode)
  {
    hide AnswerAt, AllSound, Spared;
    for i := first to last + 1
      invariant forall k :: first <= k < i ==> !Meets(aa.aas, block[k], Some(l), mode)
      invariant forall w, k :: AllSound(w, aa.aas) && first <= k < i ==> Spared(w, block[k], Some(l), mode)
    {
      var mr := InstrLoc(aa, block[i], Some(l));
      if mr.Meet(mode).Any() {
        assert Meets(aa.aas, block[i], Some(l), mode);
        return true;
      }
      forall w | AllSound(w, aa.aas)
        ensures Spared(w, block[i], Some(l), mode)
      {
        SparedUnlessMet(w, aa.aas, block[i], Some(l), mode);
      }
    }
    return false;
  }

  /** getModRefInfo of an instruction and a call: an access that the call may also come to
      counts as both. */
  method InstrCall(aa: AAResults, i: Instr, d: Call) returns (r: ModRefInfo)
    requires !i.Plain?
    ensures i.CallInstr? ==> r.mod == MayModCall(aa.aas, i.call, d) && r.ref == MayRefCall(aa.aas, i.call, d)
    ensures i.Fence? || i.CatchPad? || i.CatchRet? ==> r == MOD_REF
    ensures i.Load? || i.Store? || i.VAArg? || i.CmpXchg? || i.RMW? ==>
              && (r.mod <==> MayModLoc(aa.aas, d, i.loc) || MayRefLoc(aa.aas, d, i.loc))
              && (r.ref <==> MayModLoc(aa.aas, d, i.loc) || MayRefLoc(aa.aas, d, i.loc))
              && forall w, v, a :: AllSound(w, aa.aas) && w.covers(i.loc, a) && w.Touches(d, v, a) ==> r.mod
  {
    hide MayModLoc, MayRefLoc, MayModCall, MayRefCall, AllSound;
    if i.CallInstr? {
      r := aa.CallCall(i.call, d);
    } else if i.Fence? || i.CatchPad? || i.CatchRet? {
      r := MOD_REF;
    } else {
      var mr := aa.CallLoc(d, i.loc);
      if mr.Any() {
        r := mr.(mod := true, ref := true);
      } else {
        r := NO_MOD_REF;
      }
    }
  }
}
