/** An exception passing through a stack of generated functions, each with its tables, in the two
    phases of section 1.6 of the Itanium C++ ABI: Exception Handling. */
module ExceptionStack {
  import opened ExceptionTables
  import opened Personality
  import opened ExceptionEmit
  import opened ExceptionFrames

  /** A function on the stack: its tables with the place of the invoke that is active, the types that
      the type offsets lead to, its blocks, and where the landing pad is. */
  datatype Function = Function(lsda: Data, pc: nat, types: nat -> Type, blocks: map<Label, Block>, pad: nat,
                               layout: Layout, offsets: seq<nat>)

  /** The thrower inside has no tables, and the harness outside catches everything, so that the second
      phase always follows. */
  type Stack = seq<Function>

  ghost predicate Readable(f: Function) {
    LaidOut(f.lsda, f.layout) && ListedFor(f.lsda, f.layout, f.pc, f.offsets)
  }

  /** The tables and the blocks are those of a function that catches these types. */
  ghost predicate Describes(f: Function, catches: seq<Type>) {
    && Readable(f)
    && (var site := SiteFor(f.layout.sites, f.pc); site.Some? && site.value.action > 0 && site.value.landingPad == f.pad)
    && ListsCatches(f.offsets, f.types, catches) && Behaves(|catches|, f.blocks)
  }

  ghost predicate AllDescribed(frames: Stack, catches: seq<seq<Type>>) {
    |frames| == |catches| && forall k :: 0 <= k < |frames| ==> Describes(frames[k], catches[k])
  }

  /** What the personality answers for a frame. */
  function Asked(f: Function, e: Exception, searching: bool): Reason {
    Answer(f.layout, f.pc, f.offsets, f.types, e, searching)
  }

  /** Events with the frame that they belong to. */
  type Trace = seq<(nat, Event)>

  function At(j: nat, events: seq<Event>): Trace {
    if events == [] then [] else [(j, events[0])] + At(j, events[1..])
  }

  // ---- the phases ----------------------------------------------------------------------------

  /** Phase 1: the innermost frame that says it has a handler. */
  function Search(frames: Stack, e: Exception): Option<nat> {
    if frames == [] then None
    else if Asked(frames[0], e, true) == HandlerFound then Some(0)
    else match Search(frames[1..], e) case None => None case Some(k) => Some(k + 1)
  }

  /** What a frame does on the personality's answer: what is installed is its landing pad, with the
      selector; without one it is just left. */
  function Entered(f: Function, e: Exception, answer: Reason): Option<Done> {
    match answer
    case InstallContext(pad, selector) => if pad == f.pad then Thrown(f.blocks, e, selector) else None
    case _ => Some(([], Resumed(e)))
  }

  /** Frames from j on, when what they invoked has returned. */
  function Returning(frames: Stack, j: nat): Option<Trace> {
    if frames == [] then Some([])
    else
      var first, rest := Passed(frames[0].blocks), Returning(frames[1..], j + 1);
      if first == None || rest == None then None else Some(At(j, first.value.0) + rest.value)
  }

  /** Phase 2: each frame's landing pad runs with what the personality installs; the exception goes
      on where it is resumed. The flag says that some frame returned. */
  function Unwind(frames: Stack, j: nat, e: Exception): Option<(Trace, bool)> {
    if frames == [] then Some(([], false))
    else
      var here := Entered(frames[0], e, Asked(frames[0], e, false));
      if here == None then None
      else if here.value.1.Returned? then
        match Returning(frames[1..], j + 1)
        case None => None
        case Some(rest) => Some((At(j, here.value.0) + rest, true))
      else
        match Unwind(frames[1..], j + 1, e)
        case None => None
        case Some(more) => Some((At(j, here.value.0) + more.0, more.1))
  }

  // ---- what should be seen -------------------------------------------------------------------

  /** The innermost frame that lists the type. */
  function Catcher(catches: seq<seq<Type>>, e: Exception): (r: Option<nat>)
    ensures r.Some? ==> e.Own? && r.value < |catches| && e.thrown in catches[r.value] &&
                        forall i :: 0 <= i < r.value ==> e.thrown !in catches[i]
    ensures r.None? && e.Own? ==> forall i :: 0 <= i < |catches| ==> e.thrown !in catches[i]
  {
    if catches == [] || e.Foreign? then None
    else if e.thrown in catches[0] then Some(0)
    else match Catcher(catches[1..], e) case None => None case Some(k) => Some(k + 1)
  }

  /** Of several clauses for the type, the first. */
  function FirstClause(catches: seq<Type>, thrown: Type): (k: nat)
    requires thrown in catches
    ensures k < |catches| && catches[k] == thrown && thrown !in catches[..k]
  {
    if catches[0] == thrown then 0
    else
      var k := FirstClause(catches[1..], thrown);
      assert catches[..k + 1] == [catches[0]] + catches[1..][..k];
      k + 1
  }

  /** The finally blocks of m frames from number j on. */
  function Finallies(j: nat, m: nat): Trace
    decreases m
  {
    if m == 0 then [] else [(j, Finally)] + Finallies(j + 1, m - 1)
  }

  /** What is seen of the whole stack, and whether a frame returned. */
  function Seen(catches: seq<seq<Type>>, j: nat, e: Exception): (Trace, bool) {
    match Catcher(catches, e)
    case None => (Finallies(j, |catches|), false)
    case Some(k) => (Finallies(j, k) + Catching(j + k, catches[k], e) + Finallies(j + k + 1, |catches| - k - 1), true)
  }

  function Catching(j: nat, catches: seq<Type>, e: Exception): Trace
    requires e.Own? && e.thrown in catches
  {
    [(j, Catches(FirstClause(catches, e.thrown))), (j, Finally), (j, Frees(e))]
  }

  lemma {:induction false} FinallyAt(j: nat, m: nat)
    ensures |Finallies(j, m)| == m && forall i :: 0 <= i < m ==> Finallies(j, m)[i] == (j + i, Finally)
    decreases m
  {
    if m > 0 {
      FinallyAt(j + 1, m - 1);
    }
  }

  lemma {:induction false} NoCatcher(catches: seq<seq<Type>>, e: Exception)
    requires e.Own? ==> forall k :: 0 <= k < |catches| ==> e.thrown !in catches[k]
    ensures Catcher(catches, e) == None
  {
    if catches != [] && e.Own? {
      forall k | 0 <= k < |catches| - 1
        ensures e.thrown !in catches[1..][k]
      {
        assert catches[1..][k] == catches[k + 1];
      }
      NoCatcher(catches[1..], e);
    }
  }

  lemma {:induction false} CatcherIs(catches: seq<seq<Type>>, e: Exception, k: nat)
    requires e.Own? && k < |catches| && e.thrown in catches[k] && forall i :: 0 <= i < k ==> e.thrown !in catches[i]
    ensures Catcher(catches, e) == Some(k)
  {
    if k > 0 {
      assert catches[1..][k - 1] == catches[k];
      forall i | 0 <= i < k - 1
        ensures e.thrown !in catches[1..][i]
      {
        assert catches[1..][i] == catches[i + 1];
      }
      CatcherIs(catches[1..], e, k - 1);
    }
  }

  /** Event by event, if no frame lists the type or the exception is foreign: each frame's finally block,
      from the inside out. */
  lemma SeenOfNone(catches: seq<seq<Type>>, e: Exception)
    requires e.Own? ==> forall k :: 0 <= k < |catches| ==> e.thrown !in catches[k]
    ensures var (trace, returned) := Seen(catches, 0, e);
            !returned && |trace| == |catches| && forall p :: 0 <= p < |trace| ==> trace[p] == (p, Finally)
  {
    hide Seen, Catching, Catcher, Finallies;
    NoCatcher(catches, e);
    SeenIs(catches, e, 0, 0);
    FinallyAt(0, |catches|);
  }

  /** And if frame k is the innermost one that lists it, first as clause m: that frame catches it, before
      its finally block, and frees it behind that. */
  lemma SeenOfCaught(catches: seq<seq<Type>>, e: Exception, k: nat, m: nat)
    requires e.Own? && k < |catches| && m < |catches[k]| && catches[k][m] == e.thrown
    requires forall i :: 0 <= i < k ==> e.thrown !in catches[i]
    requires forall i :: 0 <= i < m ==> catches[k][i] != e.thrown
    ensures var (trace, returned) := Seen(catches, 0, e);
            && returned && |trace| == |catches| + 2
            && trace[k] == (k, Catches(m)) && trace[k + 1] == (k, Finally) && trace[k + 2] == (k, Frees(e))
            && (forall p :: 0 <= p < k ==> trace[p] == (p, Finally))
            && forall p :: k + 2 < p < |trace| ==> trace[p] == (p - 2, Finally)
  {
    hide Seen, Catcher, Finallies;
    CatcherIs(catches, e, k);
    ClauseIs(catches[k], e.thrown, m);
    SeenIs(catches, e, k, m);
    FinallyAt(0, k);
    FinallyAt(k + 1, |catches| - k - 1);
  }

  lemma SeenIs(catches: seq<seq<Type>>, e: Exception, k: nat, m: nat)
    ensures Catcher(catches, e) == None ==> Seen(catches, 0, e) == (Finallies(0, |catches|), false)
    ensures Catcher(catches, e) == Some(k) && FirstClause(catches[k], e.thrown) == m ==>
              Seen(catches, 0, e) ==
              (Finallies(0, k) + [(k, Catches(m)), (k, Finally), (k, Frees(e))] + Finallies(k + 1, |catches| - k - 1), true)
  {
    hide Finallies, Catcher, FirstClause;
  }

  lemma ClauseIs(catches: seq<Type>, thrown: Type, m: nat)
    requires m < |catches| && catches[m] == thrown && forall i :: 0 <= i < m ==> catches[i] != thrown
    ensures thrown in catches && FirstClause(catches, thrown) == m
  {
    var f := FirstClause(catches, thrown);
    assert forall i :: 0 <= i < f ==> catches[i] in catches[..f];
  }

  // ---- one frame -----------------------------------------------------------------------------

  lemma {:induction false} CatchForIsFirst(catches: seq<Type>, thrown: Type)
    requires thrown in catches
    ensures CatchFor(catches, thrown) == FirstClause(catches, thrown) + 1
  {
    if catches[0] != thrown {
      CatchForIsFirst(catches[1..], thrown);
    }
  }

  /** The walk over a frame's tables finds a handler just when the frame lists the type, and in phase
      2 its landing pad is entered for the first clause that does. */
  lemma FrameAnswers(f: Function, catches: seq<Type>, e: Exception)
    requires Describes(f, catches)
    ensures Asked(f, e, true) == HandlerFound <==> e.Own? && e.thrown in catches
    ensures Asked(f, e, false) ==
            InstallContext(f.pad, if e.Own? && e.thrown in catches then FirstClause(catches, e.thrown) + 1 else 0)
  {
    hide Behaves, Answer, LaidOut, ListedFor, ListsCatches, FirstClause;
    AnswerIsVerdict(f.layout, f.pc, f.offsets, f.types, e, true, catches);
    AnswerIsVerdict(f.layout, f.pc, f.offsets, f.types, e, false, catches);
    if e.Own? && e.thrown in catches {
      CatchForIsFirst(catches, e.thrown);
    }
  }

  lemma FrameEvents(f: Function, catches: seq<Type>, e: Exception)
    requires Describes(f, catches)
    ensures Entered(f, e, Asked(f, e, false)) ==
            Some(if e.Own? && e.thrown in catches then ([Catches(FirstClause(catches, e.thrown)), Finally, Frees(e)], Returned)
                 else ([Finally], Resumed(e)))
  {
    hide Asked, Thrown, FirstClause, Passed;
    FrameAnswers(f, catches, e);
    assert Behaves(|catches|, f.blocks);
  }

  lemma FrameReturns(f: Function, catches: seq<Type>)
    requires Describes(f, catches)
    ensures Passed(f.blocks) == Some(([Finally], Returned))
  {
    hide Thrown, Passed;
  }

  // ---- the stack -----------------------------------------------------------------------------

  /** Phase 1 finds the innermost frame that lists the type. */
  lemma {:induction false} SearchFindsCatcher(frames: Stack, catches: seq<seq<Type>>, e: Exception)
    requires AllDescribed(frames, catches)
    ensures Search(frames, e) == Catcher(catches, e)
  {
    hide Describes, Asked;
    if frames != [] {
      FrameAnswers(frames[0], catches[0], e);
      SearchFindsCatcher(frames[1..], catches[1..], e);
      if e.Foreign? {
        assert Catcher(catches[1..], e) == None;
      }
    }
  }

  lemma {:induction false} AllReturn(frames: Stack, catches: seq<seq<Type>>, j: nat)
    requires AllDescribed(frames, catches)
    ensures Returning(frames, j) == Some(Finallies(j, |frames|))
  {
    hide Describes, Passed;
    if frames != [] {
      FrameReturns(frames[0], catches[0]);
      AllReturn(frames[1..], catches[1..], j + 1);
      OneEvent(j, Finally);
    }
  }

  lemma OneEvent(j: nat, a: Event)
    ensures At(j, [a]) == [(j, a)]
  {
    assert [a][1..] == [];
  }

  lemma ThreeEvents(j: nat, a: Event, b: Event, c: Event)
    ensures At(j, [a, b, c]) == [(j, a), (j, b), (j, c)]
  {
    assert [a, b, c][1..] == [b, c];
    assert [b, c][1..] == [c];
    OneEvent(j, c);
  }

  /** An exception of ours is caught by the innermost frame that lists its type, by the first of
      its clauses that does, and freed there and nowhere else; other exceptions, and foreign ones,
      pass all frames. Each frame runs its finally block exactly once in any case. */
  lemma {:induction false} Unwinds(frames: Stack, catches: seq<seq<Type>>, j: nat, e: Exception)
    requires AllDescribed(frames, catches)
    ensures Unwind(frames, j, e) == Some(Seen(catches, j, e))
  {
    hide Describes, Seen, Entered, Asked;
    if frames == [] {
      NothingSeen(j, e);
    } else {
      FrameEvents(frames[0], catches[0], e);
      if e.Own? && e.thrown in catches[0] {
        AllReturn(frames[1..], catches[1..], j + 1);
        SeenHere(catches, j, e);
      } else {
        Unwinds(frames[1..], catches[1..], j + 1, e);
        SeenFurther(catches, j, e);
      }
    }
  }

  lemma NothingSeen(j: nat, e: Exception)
    ensures Seen([], j, e) == ([], false)
  {
  }

  lemma SeenHere(catches: seq<seq<Type>>, j: nat, e: Exception)
    requires catches != [] && e.Own? && e.thrown in catches[0]
    ensures Seen(catches, j, e) ==
            (At(j, [Catches(FirstClause(catches[0], e.thrown)), Finally, Frees(e)]) + Finallies(j + 1, |catches| - 1), true)
  {
    hide At;
    ThreeEvents(j, Catches(FirstClause(catches[0], e.thrown)), Finally, Frees(e));
    assert Finallies(j, 0) + Catching(j, catches[0], e) == Catching(j, catches[0], e);
  }

  lemma SeenFurther(catches: seq<seq<Type>>, j: nat, e: Exception)
    requires catches != [] && !(e.Own? && e.thrown in catches[0])
    ensures var rest := Seen(catches[1..], j + 1, e); Seen(catches, j, e) == (At(j, [Finally]) + rest.0, rest.1)
  {
    hide At, Catching, Finallies;
    OneEvent(j, Finally);
    var head: Trace := [(j, Finally)];
    match Catcher(catches[1..], e)
    case None =>
      FirstFinally(j, |catches|);
    case Some(k) =>
      assert catches[1..][k] == catches[k + 1];
      FirstFinally(j, k + 1);
      var own, rest := Catching(j + k + 1, catches[k + 1], e), Finallies(j + k + 2, |catches| - k - 2);
      assert head + (Finallies(j + 1, k) + own + rest) == (head + Finallies(j + 1, k)) + own + rest;
  }

  lemma FirstFinally(j: nat, m: nat)
    requires m > 0
    ensures Finallies(j, m) == [(j, Finally)] + Finallies(j + 1, m - 1)
  {
  }

  // ---- by the personality itself -------------------------------------------------------------

  /** The unwinder's two phases, asking the personality about each frame: it walks the frame's bytes. */
  method RaiseException(frames: Stack, e: Exception) returns (found: Option<nat>, seen: Option<(Trace, bool)>)
    requires forall k :: 0 <= k < |frames| ==> Readable(frames[k])
    ensures found == Search(frames, e) && seen == Unwind(frames, 0, e)
    ensures forall catches :: AllDescribed(frames, catches) ==> found == Catcher(catches, e) && seen == Some(Seen(catches, 0, e))
  {
    hide Readable, Describes, Asked;
    found := SearchPhase(frames, e);
    seen := CleanupPhase(frames, e);
    forall catches | AllDescribed(frames, catches)
      ensures Search(frames, e) == Catcher(catches, e) && Unwind(frames, 0, e) == Some(Seen(catches, 0, e))
    {
      SearchFindsCatcher(frames, catches, e);
      Unwinds(frames, catches, 0, e);
    }
  }

  method Ask(f: Function, e: Exception, searching: bool) returns (answer: Reason)
    requires Readable(f)
    ensures answer == Asked(f, e, searching)
  {
    answer := HandleLsda(f.lsda, f.pc, f.types, e, searching, f.layout, f.offsets);
  }

  method SearchPhase(frames: Stack, e: Exception) returns (found: Option<nat>)
    requires forall k :: 0 <= k < |frames| ==> Readable(frames[k])
    ensures found == Search(frames, e)
  {
    hide Readable, Asked;
    assert frames[0..] == frames;
    for k := 0 to |frames|
      invariant Search(frames, e) == (match Search(frames[k..], e) case None => None case Some(i) => Some(k + i))
    {
      var answer := Ask(frames[k], e, true);
      assert frames[k..][1..] == frames[k + 1..];
      if answer == HandlerFound {
        return Some(k);
      }
    }
    return None;
  }

  function Before(trace: Trace, rest: Option<(Trace, bool)>): Option<(Trace, bool)> {
    match rest case None => None case Some(more) => Some((trace + more.0, more.1))
  }

  method CleanupPhase(frames: Stack, e: Exception) returns (seen: Option<(Trace, bool)>)
    requires forall k :: 0 <= k < |frames| ==> Readable(frames[k])
    ensures seen == Unwind(frames, 0, e)
  {
    hide Readable, Asked, Entered, At, Passed;
    var trace: Trace := [];
    NothingBefore(Unwind(frames, 0, e));
    assert frames[0..] == frames;
    for k := 0 to |frames|
      invariant Unwind(frames, 0, e) == Before(trace, Unwind(frames[k..], k, e))
    {
      var answer := Ask(frames[k], e, false);
      var here := Entered(frames[k], e, answer);
      assert frames[k..][1..] == frames[k + 1..];
      if here == None {
        return None;
      }
      var events := At(k, here.value.0);
      if here.value.1.Returned? {
        var rest := Returning(frames[k + 1..], k + 1);
        if rest == None {
          return None;
        }
        assert trace + (events + rest.value) == trace + events + rest.value;
        return Some((trace + events + rest.value, true));
      }
      OneBefore(trace, events, Unwind(frames[k + 1..], k + 1, e));
      trace := trace + events;
    }
    assert trace + [] == trace;
    return Some((trace, false));
  }

  lemma NothingBefore(rest: Option<(Trace, bool)>)
    ensures Before([], rest) == rest
  {
    assert rest.Some? ==> [] + rest.value.0 == rest.value.0;
  }

  lemma OneBefore(trace: Trace, events: Trace, rest: Option<(Trace, bool)>)
    ensures Before(trace, Before(events, rest)) == Before(trace + events, rest)
  {
    assert rest.Some? ==> trace + (events + rest.value.0) == trace + events + rest.value.0;
  }

  // ---- generated functions -------------------------------------------------------------------

  /** A generated function with its tables emitted, for any number of call sites, is described by the
      catches that the active one leads to. */
  lemma GeneratedDescribes(blocks: map<Label, Block>, ttype: Byte, classInfo: nat, sites: seq<Site>, chains: seq<seq<nat>>,
                           k: nat, c: nat, types: nat -> Type, catches: seq<Type>, pc: nat)
    requires Fits(ttype, classInfo, sites) && k < |sites| && c < |chains| && Small(chains[c])
    requires sites[k].landingPad != 0 && sites[k].start <= pc < sites[k].start + sites[k].length
    requires forall j :: 0 <= j < k ==> sites[j].landingPad == 0 || pc < sites[j].start || sites[j].start + sites[j].length <= pc
    requires sites[k].action == ActionFor(chains, c) && ListsCatches(chains[c], types, catches)
    requires Behaves(|catches|, blocks)
    ensures Describes(Function(Emit(ttype, classInfo, sites, chains), pc, types, blocks, sites[k].landingPad,
                               LayoutOf(classInfo, sites), chains[c]), catches)
  {
    hide Behaves, Emit, EmitSites, LaidOut, ListedFor, ListsCatches, Fits;
    EmittedVerdict(ttype, classInfo, sites, chains, k, c, types, catches, pc, Foreign, true);
    SiteForIsFirst(sites, pc, k);
  }
}
