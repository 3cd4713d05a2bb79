/** The functions that the exception demo generates, and what each does when what it invokes throws
    or returns. */
module ExceptionFrames {
  import opened ExceptionTables
  import opened Personality

  // ---- generated blocks ----------------------------------------------------------------------

  datatype Label = Entry | Normal | ExceptionBlock | ExceptionRoute | ExternalException | CatchBlock(index: nat)
                 | FinallyBlock | UnwindResume | EndBlock

  /** The caught flag: not thrown, thrown, caught. */
  const NOT_THROWN := 0
  const THROWN := 1
  const CAUGHT := 2

  datatype Op = StoreLandingPad | StoreFlag(value: nat) | RunCatch(index: nat) | RunFinally | DeleteStored

  datatype Terminator = Branch(to: Label) | Invoke(normal: Label, unwind: Label) | IfOwn(own: Label, other: Label)
                      | SwitchSelector(catches: seq<Label>, otherwise: Label) | SwitchFlag(caught: Label, thrown: Label, otherwise: Label)
                      | Resume | Return

  datatype Block = Block(ops: seq<Op>, term: Terminator)

  function CatchLabels(n: nat): set<Label> {
    set i: nat | i < n :: CatchBlock(i)
  }

  function Labels(n: nat): set<Label> {
    {Entry, Normal, ExceptionBlock, ExceptionRoute, ExternalException, FinallyBlock, UnwindResume, EndBlock} + CatchLabels(n)
  }

  function CatchBlocks(n: nat): (r: seq<Label>)
    ensures |r| == n && forall i :: 0 <= i < n ==> r[i] == CatchBlock(i)
  {
    if n == 0 then [] else CatchBlocks(n - 1) + [CatchBlock(n - 1)]
  }

  /** What createCatchWrappedInvokeFunction puts into each block, for n exceptions to catch. */
  function BlockOf(n: nat, l: Label): Block {
    match l
    case Entry => Block([], Invoke(Normal, ExceptionBlock))
    case Normal => Block([], Branch(FinallyBlock))
    case ExceptionBlock => Block([StoreLandingPad, StoreFlag(THROWN)], IfOwn(ExceptionRoute, ExternalException))
    case ExceptionRoute => Block([], SwitchSelector(CatchBlocks(n), FinallyBlock))
    case ExternalException => Block([], Branch(FinallyBlock))
    case CatchBlock(i) => Block([RunCatch(i), StoreFlag(CAUGHT)], Branch(FinallyBlock))
    case FinallyBlock => Block([RunFinally], SwitchFlag(EndBlock, UnwindResume, EndBlock))
    case UnwindResume => Block([], Resume)
    case EndBlock => Block([DeleteStored], Return)
  }

  ghost predicate Right(n: nat, blocks: map<Label, Block>) {
    forall l :: l in blocks ==> blocks[l] == BlockOf(n, l)
  }

  // ---- running one frame ---------------------------------------------------------------------

  /** What is seen of a frame: a catch block, the finally block, an exception given back. */
  datatype Event = Catches(index: nat) | Finally | Frees(e: Exception)

  datatype Outcome = Returned | Resumed(e: Exception)

  type Done = (seq<Event>, Outcome)

  /** Whether the invoked function throws, the frame's storage (the flag and the stored exception),
      and the landing pad's result. */
  datatype Frame = Frame(throws: bool, flag: nat, stored: Option<Exception>, e: Exception, selector: nat)

  function Perform(f: Frame, op: Op): (Frame, seq<Event>) {
    match op
    case StoreLandingPad => (f.(stored := Some(f.e)), [])
    case StoreFlag(v) => (f.(flag := v), [])
    case RunCatch(i) => (f, [Catches(i)])
    case RunFinally => (f, [Finally])
    case DeleteStored =>
      if f.stored.Some? && f.stored.value.Own? then (f, [Frees(f.stored.value)]) else (f, [])
  }

  function PerformAll(f: Frame, ops: seq<Op>): (Frame, seq<Event>)
    decreases |ops|
  {
    if ops == [] then (f, [])
    else
      var (g, events) := Perform(f, ops[0]);
      var (h, more) := PerformAll(g, ops[1..]);
      (h, events + more)
  }

  /** Where control goes from a block. */
  function Follow(t: Terminator, f: Frame): Option<Label> {
    match t
    case Branch(l) => Some(l)
    case Invoke(normal, unwind) => Some(if f.throws then unwind else normal)
    case IfOwn(own, other) => Some(if f.e.Own? then own else other)
    case SwitchSelector(catches, otherwise) =>
      Some(if 1 <= f.selector <= |catches| then catches[f.selector - 1] else otherwise)
    case SwitchFlag(caught, thrown, otherwise) =>
      Some(if f.flag == CAUGHT then caught else if f.flag == THROWN then thrown else otherwise)
    case _ => None
  }

  /** A frame's run from a block on, up to its return or to the resumption of the exception; none if
      it takes more steps or comes to a block that is not there. */
  function RunFrame(blocks: map<Label, Block>, l: Label, f: Frame, steps: nat): Option<Done>
    decreases steps
  {
    if steps == 0 || l !in blocks then None
    else
      var b := blocks[l];
      var (g, events) := PerformAll(f, b.ops);
      var next := Follow(b.term, g);
      if next == None then Some((events, if b.term.Resume? then Resumed(g.e) else Returned))
      else
        match RunFrame(blocks, next.value, g, steps - 1)
        case None => None
        case Some(r) => Some((events + r.0, r.1))
  }

  const STEPS: nat := 6

  /** The invoked function throws, and the landing pad is entered with this selector. */
  function Thrown(blocks: map<Label, Block>, e: Exception, selector: nat): Option<Done> {
    RunFrame(blocks, Entry, Frame(true, NOT_THROWN, None, e, selector), STEPS)
  }

  /** The invoked function returns. */
  function Passed(blocks: map<Label, Block>): Option<Done> {
    RunFrame(blocks, Entry, Frame(false, NOT_THROWN, None, Foreign, 0), STEPS)
  }

  /** With a clause of its own selected the frame catches, runs its finally block, gives the exception
      back once and returns; with none it runs its finally block and resumes. */
  function Handled(n: nat, e: Exception, selector: nat): Done {
    if e.Own? && 1 <= selector <= n then ([Catches(selector - 1), Finally, Frees(e)], Returned)
    else ([Finally], Resumed(e))
  }

  /** What a function for n exceptions does, whatever is thrown through it. */
  ghost predicate Behaves(n: nat, blocks: map<Label, Block>) {
    && (forall e, selector :: Thrown(blocks, e, selector) == Some(Handled(n, e, selector)))
    && Passed(blocks) == Some(([Finally], Returned))
  }

  // ---- what one frame does -------------------------------------------------------------------

  ghost predicate Built(n: nat, blocks: map<Label, Block>) {
    blocks.Keys == Labels(n) && Right(n, blocks)
  }

  lemma BlockAt(n: nat, blocks: map<Label, Block>, l: Label)
    requires Built(n, blocks) && l in Labels(n)
    ensures l in blocks && blocks[l] == BlockOf(n, l)
  {
  }

  lemma TwoOps(f: Frame, a: Op, b: Op)
    ensures PerformAll(f, []) == (f, [])
    ensures PerformAll(f, [a]) == Perform(f, a)
    ensures PerformAll(f, [a, b]) == (Perform(Perform(f, a).0, b).0, Perform(f, a).1 + Perform(Perform(f, a).0, b).1)
  {
    assert [a][1..] == [];
    assert [a, b][1..] == [b];
    var g, h := Perform(f, a), Perform(Perform(f, a).0, b);
    assert g.1 + [] == g.1 && h.1 + [] == h.1;
    assert PerformAll(g.0, [b]) == h by {
      assert [b][1..] == [];
    }
  }

  /** One step. */
  lemma RunOn(n: nat, blocks: map<Label, Block>, l: Label, f: Frame, steps: nat, g: Frame, events: seq<Event>)
    requires Built(n, blocks) && l in Labels(n) && steps > 0 && PerformAll(f, BlockOf(n, l).ops) == (g, events)
    ensures var next := Follow(BlockOf(n, l).term, g);
            RunFrame(blocks, l, f, steps) ==
            if next == None then Some((events, if BlockOf(n, l).term.Resume? then Resumed(g.e) else Returned))
            else match RunFrame(blocks, next.value, g, steps - 1)
                 case None => None
                 case Some(r) => Some((events + r.0, r.1))
  {
    BlockAt(n, blocks, l);
  }

  lemma FromFinally(n: nat, blocks: map<Label, Block>, f: Frame, steps: nat)
    requires Built(n, blocks) && steps >= 2
    ensures RunFrame(blocks, FinallyBlock, f, steps) ==
            if f.flag == THROWN then Some(([Finally], Resumed(f.e)))
            else Some(([Finally] + Perform(f, DeleteStored).1, Returned))
  {
    hide RunFrame, PerformAll, Built;
    TwoOps(f, RunFinally, RunFinally);
    TwoOps(f, DeleteStored, DeleteStored);
    RunOn(n, blocks, FinallyBlock, f, steps, f, [Finally]);
    if f.flag == THROWN {
      RunOn(n, blocks, UnwindResume, f, steps - 1, f, []);
      assert [Finally] + [] == [Finally];
    } else {
      RunOn(n, blocks, EndBlock, f, steps - 1, f, Perform(f, DeleteStored).1);
    }
  }

  lemma FromCatch(n: nat, blocks: map<Label, Block>, f: Frame, k: nat, steps: nat)
    requires Built(n, blocks) && steps >= 3 && k < n && f.stored == Some(f.e) && f.e.Own?
    ensures RunFrame(blocks, CatchBlock(k), f, steps) == Some(([Catches(k), Finally, Frees(f.e)], Returned))
  {
    hide RunFrame, PerformAll, Built;
    TwoOps(f, RunCatch(k), StoreFlag(CAUGHT));
    var h := f.(flag := CAUGHT);
    assert CatchBlock(k) in Labels(n) by {
      assert CatchBlock(k) in CatchLabels(n);
    }
    assert [Catches(k)] + [] == [Catches(k)];
    RunOn(n, blocks, CatchBlock(k), f, steps, h, [Catches(k)]);
    FromFinally(n, blocks, h, steps - 1);
    assert [Catches(k)] + ([Finally] + [Frees(f.e)]) == [Catches(k), Finally, Frees(f.e)];
  }

  lemma FromRoute(n: nat, blocks: map<Label, Block>, f: Frame, steps: nat)
    requires Built(n, blocks) && steps >= 4 && f.flag == THROWN && f.stored == Some(f.e)
    ensures var l := if f.e.Own? then ExceptionRoute else ExternalException;
            RunFrame(blocks, l, f, steps) == Some(Handled(n, f.e, f.selector))
  {
    hide RunFrame, PerformAll, Built;
    TwoOps(f, RunFinally, RunFinally);
    RunOn(n, blocks, if f.e.Own? then ExceptionRoute else ExternalException, f, steps, f, []);
    assert forall events: seq<Event> :: [] + events == events;
    if f.e.Own? && 1 <= f.selector <= n {
      FromCatch(n, blocks, f, f.selector - 1, steps - 1);
    } else {
      FromFinally(n, blocks, f, steps - 1);
    }
  }

  lemma ThrownThrough(n: nat, blocks: map<Label, Block>, e: Exception, selector: nat)
    requires Built(n, blocks)
    ensures Thrown(blocks, e, selector) == Some(Handled(n, e, selector))
  {
    hide RunFrame, PerformAll, Built;
    var f := Frame(true, NOT_THROWN, None, e, selector);
    var g := Frame(true, THROWN, Some(e), e, selector);
    TwoOps(f, StoreLandingPad, StoreFlag(THROWN));
    assert forall events: seq<Event> :: [] + events == events;
    RunOn(n, blocks, Entry, f, STEPS, f, []);
    RunOn(n, blocks, ExceptionBlock, f, STEPS - 1, g, []);
    FromRoute(n, blocks, g, STEPS - 2);
  }

  lemma PassedBy(n: nat, blocks: map<Label, Block>)
    requires Built(n, blocks)
    ensures Passed(blocks) == Some(([Finally], Returned))
  {
    hide RunFrame, PerformAll, Built;
    var f := Frame(false, NOT_THROWN, None, Foreign, 0);
    TwoOps(f, RunFinally, RunFinally);
    assert forall events: seq<Event> :: [] + events == events;
    RunOn(n, blocks, Entry, f, STEPS, f, []);
    RunOn(n, blocks, Normal, f, STEPS - 1, f, []);
    FromFinally(n, blocks, f, STEPS - 2);
    assert [Finally] + [] == [Finally];
  }

  lemma BuiltBehaves(n: nat, blocks: map<Label, Block>)
    requires Built(n, blocks)
    ensures Behaves(n, blocks)
  {
    hide Built, Thrown, Passed;
    PassedBy(n, blocks);
    forall e, selector
      ensures Thrown(blocks, e, selector) == Some(Handled(n, e, selector))
    {
      ThrownThrough(n, blocks, e, selector);
    }
  }

  // ---- building ------------------------------------------------------------------------------

  /** The builder: blocks are added one after the other, the catch blocks in a loop, and the cases
      of the switch in another. The function then does what it should, whatever is thrown through it:
      it runs its finally block exactly once, and catches and frees just what is selected for it. */
  method CreateCatchWrappedInvokeFunction(n: nat) returns (blocks: map<Label, Block>)
    ensures Behaves(n, blocks)
    ensures Built(n, blocks)
  {
    hide BlockOf, Right, CatchLabels, Labels, Behaves;
    Contents(n);
    AllLabels(n);
    var catchBlocks;
    blocks, catchBlocks := CreateCatchBlocks(n);
    blocks := Add(n, blocks, Entry, Block([], Invoke(Normal, ExceptionBlock)));
    blocks := Add(n, blocks, EndBlock, Block([DeleteStored], Return));
    blocks := Add(n, blocks, Normal, Block([], Branch(FinallyBlock)));
    blocks := Add(n, blocks, UnwindResume, Block([], Resume));
    blocks := Add(n, blocks, ExceptionBlock, Block([StoreLandingPad, StoreFlag(THROWN)], IfOwn(ExceptionRoute, ExternalException)));
    blocks := Add(n, blocks, ExternalException, Block([], Branch(FinallyBlock)));
    var cases := CatchCases(n, catchBlocks);
    blocks := Add(n, blocks, ExceptionRoute, Block([], SwitchSelector(cases, FinallyBlock)));
    BuiltBehaves(n, blocks);
  }

  /** One block more, with what belongs into it. */
  method Add(n: nat, blocks: map<Label, Block>, l: Label, b: Block) returns (more: map<Label, Block>)
    requires Right(n, blocks) && b == BlockOf(n, l)
    ensures Right(n, more) && more.Keys == blocks.Keys + {l}
  {
    more := blocks[l := b];
  }

  /** The finally block and the loop that adds the catch blocks. */
  method CreateCatchBlocks(n: nat) returns (blocks: map<Label, Block>, catchBlocks: seq<Label>)
    ensures Right(n, blocks) && catchBlocks == CatchBlocks(n)
    ensures blocks.Keys == {FinallyBlock} + CatchLabels(n)
  {
    blocks := map[FinallyBlock := Block([RunFinally], SwitchFlag(EndBlock, UnwindResume, EndBlock))];
    catchBlocks := [];
    for i := 0 to n
      invariant catchBlocks == CatchBlocks(i)
      invariant blocks.Keys == {FinallyBlock} + CatchLabels(i)
      invariant Right(n, blocks)
    {
      assert CatchLabels(i + 1) == CatchLabels(i) + {CatchBlock(i)};
      blocks := Add(n, blocks, CatchBlock(i), Block([RunCatch(i), StoreFlag(CAUGHT)], Branch(FinallyBlock)));
      catchBlocks := catchBlocks + [CatchBlock(i)];
    }
  }

  /** The loop that adds the cases of the switch. */
  method CatchCases(n: nat, catchBlocks: seq<Label>) returns (cases: seq<Label>)
    requires |catchBlocks| == n
    ensures cases == catchBlocks
  {
    cases := [];
    for i := 1 to n + 1
      invariant cases == catchBlocks[..i - 1]
    {
      cases := cases + [catchBlocks[i - 1]];
    }
  }

  lemma AllLabels(n: nat)
    ensures {FinallyBlock} + CatchLabels(n) + {Entry} + {EndBlock} + {Normal} + {UnwindResume} + {ExceptionBlock} +
            {ExternalException} + {ExceptionRoute} == Labels(n)
  {
    hide CatchLabels;
  }

  lemma Contents(n: nat)
    ensures BlockOf(n, Entry) == Block([], Invoke(Normal, ExceptionBlock))
    ensures BlockOf(n, Normal) == Block([], Branch(FinallyBlock))
    ensures BlockOf(n, ExceptionBlock) == Block([StoreLandingPad, StoreFlag(THROWN)], IfOwn(ExceptionRoute, ExternalException))
    ensures BlockOf(n, ExceptionRoute) == Block([], SwitchSelector(CatchBlocks(n), FinallyBlock))
    ensures BlockOf(n, ExternalException) == Block([], Branch(FinallyBlock))
    ensures BlockOf(n, FinallyBlock) == Block([RunFinally], SwitchFlag(EndBlock, UnwindResume, EndBlock))
    ensures BlockOf(n, UnwindResume) == Block([], Resume)
    ensures BlockOf(n, EndBlock) == Block([DeleteStored], Return)
  {
  }
}
