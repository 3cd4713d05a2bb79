/** Calls, memory and alias analyses: what programs really do, and when an analysis is right
    about it. */
module AAModel {

  type Addr = nat
  type Loc = nat

  datatype AliasResult = NoAlias | MayAlias | PartialAlias | MustAlias

  datatype Arg = Pointer(loc: Loc) | Scalar

  /** A call, with the memory location that each pointer argument stands for. */
  datatype Call = Call(id: nat, args: seq<Arg>)

  /** class ModRefInfo: `must` is set when bit 2 of the source's number is clear. */
  datatype ModRefInfo = MR(mod: bool, ref: bool, must: bool)
  {
    function Meet(that: ModRefInfo): ModRefInfo {
      MR(mod && that.mod, ref && that.ref, must || that.must)
    }

    function Join(that: ModRefInfo): ModRefInfo {
      MR(mod || that.mod, ref || that.ref, must && that.must)
    }

    predicate Any() {
      mod || ref
    }
  }

  const NO_MOD_REF := MR(false, false, false)
  const MOD_REF := MR(true, true, false)
  const MOD := MR(true, false, false)
  const REF := MR(false, true, false)

  /** FunctionModRefBehavior: whether the call may write and read at all, and where: through its
      pointer arguments, in memory that the program cannot name, and elsewhere. */
  datatype Behavior = Behavior(mod: bool, ref: bool, args: bool, hidden: bool, elsewhere: bool)
  {
    function Meet(that: Behavior): Behavior {
      Behavior(mod && that.mod, ref && that.ref, args && that.args, hidden && that.hidden, elsewhere && that.elsewhere)
    }

    predicate OnlyReadsMemory() { !mod }

    predicate DoesNotReadMemory() { !ref }

    predicate OnlyAccessesArgPointees() { !hidden && !elsewhere }

    predicate DoesAccessArgPointees() { (mod || ref) && args }

    predicate OnlyAccessesInaccessibleOrArgMem() { !elsewhere }
  }

  const DOES_NOT_ACCESS := Behavior(false, false, false, false, false)
  const ONLY_INACCESSIBLE := Behavior(true, true, false, true, false)
  const UNKNOWN_BEHAVIOR := Behavior(true, true, true, true, true)

  /** One component analysis. */
  datatype AA = AA(alias: (Loc, Loc) -> AliasResult, constant: (Loc, bool) -> bool, arg: (Call, nat) -> ModRefInfo,
                   callLoc: (Call, Loc) -> ModRefInfo, callCall: (Call, Call) -> ModRefInfo, behavior: Call -> Behavior)

  // ---- what really happens -----------------------------------------------------------

  /** How a call comes to an address. */
  datatype Via = Through(index: nat) | Hidden | Elsewhere

  /** What locations cover, which memory is constant, and what each call may read and write. As in
      the source, loads of constant memory are not counted as reads. */
  datatype World = World(covers: (Loc, Addr) -> bool, constant: Addr -> bool,
                         loads: (Call, Via, Addr) -> bool, stores: (Call, Via, Addr) -> bool)
  {
    /** Calls come through an argument only to what its location covers, hidden memory is covered
        by no location, and constant memory is not accessed. */
    ghost predicate Real() {
      forall c: Call, v: Via, a: Addr {:trigger Touches(c, v, a)} :: Touches(c, v, a) ==>
        && !constant(a)
        && (v.Through? ==> v.index < |c.args| && c.args[v.index].Pointer? && covers(c.args[v.index].loc, a))
        && (v.Hidden? ==> forall l :: !covers(l, a))
    }

    predicate Touches(c: Call, v: Via, a: Addr) {
      loads(c, v, a) || stores(c, v, a)
    }

    ghost predicate Reads(c: Call, a: Addr) {
      exists v :: loads(c, v, a)
    }

    ghost predicate Writes(c: Call, a: Addr) {
      exists v :: stores(c, v, a)
    }
  }

  ghost predicate SoundAlias(w: World, l: Loc, m: Loc, r: AliasResult) {
    r == NoAlias ==> forall a :: !(w.covers(l, a) && w.covers(m, a))
  }

  ghost predicate SoundConstant(w: World, l: Loc) {
    forall a :: w.covers(l, a) ==> w.constant(a)
  }

  ghost predicate SoundArg(w: World, c: Call, k: nat, mod: bool, ref: bool) {
    forall a :: (w.stores(c, Through(k), a) ==> mod) && (w.loads(c, Through(k), a) ==> ref)
  }

  /** The call writes the location only if `mod`, and reads it only if `ref`. */
  ghost predicate SoundCallLoc(w: World, c: Call, l: Loc, mod: bool, ref: bool) {
    forall a :: w.covers(l, a) ==> (w.Writes(c, a) ==> mod) && (w.Reads(c, a) ==> ref)
  }

  /** `mod` if the first call may write what the second reads or writes, and `ref` if it may read
      what the second writes. */
  ghost predicate SoundCallCall(w: World, c: Call, d: Call, mod: bool, ref: bool) {
    forall a :: (w.Writes(c, a) && (w.Reads(d, a) || w.Writes(d, a)) ==> mod) && (w.Reads(c, a) && w.Writes(d, a) ==> ref)
  }

  ghost predicate SoundBehavior(w: World, c: Call, b: Behavior) {
    forall v: Via, a: Addr {:trigger w.Touches(c, v, a)} :: w.Touches(c, v, a) ==>
      && (w.stores(c, v, a) ==> b.mod) && (w.loads(c, v, a) ==> b.ref)
      && (match v case Through(_) => b.args case Hidden => b.hidden case Elsewhere => b.elsewhere)
  }

  ghost predicate Sound(w: World, aa: AA) {
    && (forall l, m :: SoundAlias(w, l, m, aa.alias(l, m)))
    && (forall l :: aa.constant(l, false) ==> SoundConstant(w, l))
    && (forall c, k :: SoundArg(w, c, k, aa.arg(c, k).mod, aa.arg(c, k).ref))
    && (forall c, l :: SoundCallLoc(w, c, l, aa.callLoc(c, l).mod, aa.callLoc(c, l).ref))
    && (forall c, d :: SoundCallCall(w, c, d, aa.callCall(c, d).mod, aa.callCall(c, d).ref))
    && (forall c :: SoundBehavior(w, c, aa.behavior(c)))
  }

  ghost predicate AllSound(w: World, aas: seq<AA>) {
    w.Real() && forall k :: 0 <= k < |aas| ==> Sound(w, aas[k])
  }
}
