/** The rendezvous of the parallel JIT example: num workers call block, one thread calls
    releaseThreads(num), and a condition variable without spurious wake-ups joins them. */
module Rendezvous {

  // ---- the critical sections ---------------------------------------------------------------

  /** What a critical section leaves behind: the counters, and whether it wakes all who wait and
      goes on, or waits itself. */
  datatype Outcome = Outcome(n: nat, waitFor: nat, unblocks: bool)

  function BlockBody(n: nat, waitFor: nat): Outcome {
    if waitFor > 0 && n + 1 == waitFor then Outcome(0, 0, true) else Outcome(n + 1, waitFor, false)
  }

  function ReleaseBody(n: nat, waitFor: nat, num: nat): Outcome {
    if n >= num then Outcome(0, 0, true) else Outcome(n, num, false)
  }

  /** The object itself; the calls to the mutex and the condition variable are the steps of the
      state machine below. */
  class WaitForThreads {
    var n: nat
    var waitFor: nat

    constructor ()
      ensures n == 0 && waitFor == 0
    {
      n, waitFor := 0, 0;
    }

    method Block() returns (unblocks: bool)
      requires waitFor == 0 || n + 1 <= waitFor
      modifies this
      ensures Outcome(n, waitFor, unblocks) == BlockBody(old(n), old(waitFor))
    {
      n := n + 1;
      assert waitFor == 0 || n <= waitFor;
      unblocks := waitFor > 0 && n == waitFor;
      if unblocks {
        UnblockThreads();
      }
    }

    method ReleaseThreads(num: nat) returns (unblocks: bool)
      modifies this
      ensures Outcome(n, waitFor, unblocks) == ReleaseBody(old(n), old(waitFor), num)
    {
      unblocks := n >= num;
      if unblocks {
        UnblockThreads();
      } else {
        waitFor := num;
      }
    }

    method UnblockThreads()
      modifies this
      ensures n == 0 && waitFor == 0
    {
      n := 0;
      waitFor := 0;
    }
  }

  // ---- all threads together ----------------------------------------------------------------

  /** Where a thread is: before its call, holding the mutex, waiting on the condition, woken and
      in want of the mutex, holding it again, or back from its call. */
  datatype Place = Outside | Inside | Waiting | Woken | Leaving | Done

  datatype Option<T> = None | Some(value: T)

  type Thread = nat

  /** Threads below num are workers; thread num is the one that releases. */
  datatype State = State(n: nat, waitFor: nat, owner: Option<Thread>, places: seq<Place>)

  predicate Init(num: nat, s: State) {
    s.n == 0 && s.waitFor == 0 && s.owner == None && s.places == seq(num + 1, _ => Outside)
  }

  /** The broadcast. */
  function WakeAll(places: seq<Place>): (r: seq<Place>)
    ensures |r| == |places|
    ensures forall t :: 0 <= t < |places| ==> r[t] == if places[t] == Waiting then Woken else places[t]
  {
    seq(|places|, t requires 0 <= t < |places| => if places[t] == Waiting then Woken else places[t])
  }

  function Body(num: nat, s: State, t: Thread): Outcome {
    if t < num then BlockBody(s.n, s.waitFor) else ReleaseBody(s.n, s.waitFor, num)
  }

  /** Waiting gives the mutex back; waking all keeps it. */
  function AfterBody(num: nat, s: State, t: Thread): State
    requires t < |s.places|
  {
    var o := Body(num, s, t);
    if o.unblocks then State(o.n, o.waitFor, s.owner, WakeAll(s.places)[t := Leaving])
    else State(o.n, o.waitFor, None, s.places[t := Waiting])
  }

  predicate Enabled(s: State, t: Thread)
    requires t < |s.places|
  {
    match s.places[t]
    case Outside => s.owner == None
    case Woken => s.owner == None
    case Inside => true
    case Leaving => true
    case _ => false
  }

  function Next(num: nat, s: State, t: Thread): State
    requires t < |s.places| && Enabled(s, t)
  {
    match s.places[t]
    case Outside => s.(owner := Some(t), places := s.places[t := Inside])
    case Woken => s.(owner := Some(t), places := s.places[t := Leaving])
    case Inside => AfterBody(num, s, t)
    case Leaving => s.(owner := None, places := s.places[t := Done])
    case _ => s
  }

  predicate Step(num: nat, s: State, s': State) {
    exists t: Thread :: t < |s.places| && Enabled(s, t) && s' == Next(num, s, t)
  }

  /** No step leads on from the state. */
  predicate Stuck(s: State) {
    forall t: Thread :: t < |s.places| ==> !Enabled(s, t)
  }

  /** The assertion in block, for a worker about to run its critical section. */
  predicate AssertionHolds(num: nat, s: State, t: Thread) {
    t < num && t < |s.places| && s.places[t] == Inside ==> s.waitFor == 0 || s.n + 1 <= s.waitFor
  }

  // ---- the invariant -----------------------------------------------------------------------

  function WaitingBelow(places: seq<Place>, k: nat): (c: nat)
    requires k <= |places|
    ensures c <= k
  {
    if k == 0 then 0 else WaitingBelow(places, k - 1) + (if places[k - 1] == Waiting then 1 else 0)
  }

  predicate Gathering(num: nat, s: State)
    requires |s.places| == num + 1
  {
    && (forall t :: 0 <= t <= num ==> s.places[t] in {Outside, Inside, Waiting})
    && s.n == WaitingBelow(s.places, num)
    && s.waitFor == (if s.places[num] == Waiting then num else 0)
    && (s.places[num] == Waiting ==> s.n < num)
  }

  predicate Released(num: nat, s: State)
    requires |s.places| == num + 1
  {
    && (forall t :: 0 <= t <= num ==> s.places[t] in {Woken, Leaving, Done})
    && s.n == 0 && s.waitFor == 0
  }

  predicate Inv(num: nat, s: State) {
    && |s.places| == num + 1
    && (Gathering(num, s) || Released(num, s))
    && (forall t :: 0 <= t <= num ==> (s.owner == Some(t) <==> s.places[t] in {Inside, Leaving}))
    && (s.owner.Some? ==> s.owner.value <= num)
  }

  lemma {:induction false} WaitingUpdate(places: seq<Place>, k: nat, t: Thread, p: Place)
    requires k <= |places| && t < |places| && places[t] != Waiting
    ensures WaitingBelow(places[t := p], k) == WaitingBelow(places, k) + if t < k && p == Waiting then 1 else 0
  {
    if k > 0 {
      WaitingUpdate(places, k - 1, t, p);
    }
  }

  /** If all but one of the workers could be waiting, and that many are, all the others are. */
  lemma {:induction false} OthersWait(places: seq<Place>, k: nat, t: Thread)
    requires k <= |places| && t < k && places[t] != Waiting
    ensures WaitingBelow(places, k) < k
    ensures WaitingBelow(places, k) == k - 1 ==> forall u :: 0 <= u < k && u != t ==> places[u] == Waiting
  {
    if t < k - 1 {
      OthersWait(places, k - 1, t);
    } else {
      AllWait(places, k - 1);
    }
  }

  lemma {:induction false} AllWait(places: seq<Place>, k: nat)
    requires k <= |places|
    ensures WaitingBelow(places, k) == k <==> forall u :: 0 <= u < k ==> places[u] == Waiting
  {
    if k > 0 {
      AllWait(places, k - 1);
    }
  }

  lemma InitInv(num: nat, s: State)
    requires Init(num, s)
    ensures Inv(num, s)
  {
    NoneWait(s.places, num);
  }

  lemma {:induction false} NoneWait(places: seq<Place>, k: nat)
    requires k <= |places| && forall u :: 0 <= u < k ==> places[u] != Waiting
    ensures WaitingBelow(places, k) == 0
  {
    if k > 0 {
      NoneWait(places, k - 1);
    }
  }

  lemma StepInv(num: nat, s: State, t: Thread)
    requires Inv(num, s) && t <= num && Enabled(s, t)
    ensures Inv(num, Next(num, s, t))
    ensures AssertionHolds(num, s, t)
  {
    match s.places[t]
    case Outside => WaitingUpdate(s.places, num, t, Inside);
    case Inside => BodyInv(num, s, t);
    case _ =>
  }

  lemma BodyInv(num: nat, s: State, t: Thread)
    requires Inv(num, s) && t <= num && s.places[t] == Inside
    ensures Inv(num, AfterBody(num, s, t)) && AssertionHolds(num, s, t)
  {
    WaitingUpdate(s.places, num, t, Waiting);
    if t < num {
      OthersWait(s.places, num, t);
    } else {
      AllWait(s.places, num);
    }
  }

  // ---- runs --------------------------------------------------------------------------------

  predicate Run(num: nat, run: seq<State>) {
    run != [] && Init(num, run[0]) && forall i :: 0 <= i < |run| - 1 ==> Step(num, run[i], run[i + 1])
  }

  lemma {:induction false} RunInv(num: nat, run: seq<State>, i: nat)
    requires Run(num, run) && i < |run|
    ensures Inv(num, run[i])
  {
    if i == 0 {
      InitInv(num, run[0]);
    } else {
      RunInv(num, run, i - 1);
      assert Step(num, run[i - 1], run[i - 1 + 1]);
      var t: Thread :| t < |run[i - 1].places| && Enabled(run[i - 1], t) && run[i] == Next(num, run[i - 1], t);
      StepInv(num, run[i - 1], t);
    }
  }

  /** In every interleaving the assertion in block holds, and as soon as one thread is through,
      every worker has entered and the release has been called. */
  lemma NoneLeavesEarly(num: nat, run: seq<State>, i: nat, t: Thread)
    requires Run(num, run) && i < |run| && t <= num
    ensures |run[i].places| == num + 1 && AssertionHolds(num, run[i], t)
    ensures run[i].places[t] in {Leaving, Done} ==>
              forall u :: 0 <= u <= num ==> run[i].places[u] in {Woken, Leaving, Done}
  {
    RunInv(num, run, i);
    if run[i].places[t] == Inside {
      StepInv(num, run[i], t);
    }
  }

  function Weight(p: Place): nat {
    match p case Outside => 5 case Inside => 4 case Waiting => 3 case Woken => 2 case Leaving => 1 case Done => 0
  }

  function Work(places: seq<Place>): nat {
    if places == [] then 0 else Weight(places[0]) + Work(places[1..])
  }

  lemma {:induction false} WorkDrops(places: seq<Place>, next: seq<Place>)
    requires |places| == |next| && forall t :: 0 <= t < |places| ==> Weight(next[t]) <= Weight(places[t])
    ensures Work(next) <= Work(places)
    ensures (exists t :: 0 <= t < |places| && Weight(next[t]) < Weight(places[t])) ==> Work(next) < Work(places)
  {
    if places != [] {
      var rest, more := places[1..], next[1..];
      WorkDrops(rest, more);
      if t :| 0 <= t < |places| && Weight(next[t]) < Weight(places[t]) && t > 0 {
        assert Weight(more[t - 1]) < Weight(rest[t - 1]);
      }
    }
  }

  lemma StepWorks(num: nat, s: State, t: Thread)
    requires Inv(num, s) && t <= num && Enabled(s, t)
    ensures Work(Next(num, s, t).places) < Work(s.places)
  {
    var next := Next(num, s, t).places;
    assert Weight(next[t]) < Weight(s.places[t]);
    WorkDrops(s.places, next);
  }

  /** Unless all threads are back, one of them can go on. */
  lemma SomeEnabled(num: nat, s: State)
    requires Inv(num, s) && exists t :: 0 <= t <= num && s.places[t] != Done
    ensures exists t: Thread :: t <= num && Enabled(s, t)
  {
    if s.owner.Some? {
      assert Enabled(s, s.owner.value);
    } else if Released(num, s) {
      var t :| 0 <= t <= num && s.places[t] != Done;
      assert Enabled(s, t);
    } else {
      AllWait(s.places, num);
      if s.places[num] != Waiting {
        assert Enabled(s, num);
      } else {
        var t :| 0 <= t < num && s.places[t] != Waiting;
        assert Enabled(s, t);
      }
    }
  }

  lemma {:induction false} RunIsShort(num: nat, run: seq<State>, i: nat)
    requires Run(num, run) && i < |run|
    ensures Work(run[i].places) + i <= 5 * (num + 1)
  {
    if i == 0 {
      FullWork(run[0].places);
    } else {
      RunIsShort(num, run, i - 1);
      RunInv(num, run, i - 1);
      assert Step(num, run[i - 1], run[i - 1 + 1]);
      var t: Thread :| t < |run[i - 1].places| && Enabled(run[i - 1], t) && run[i] == Next(num, run[i - 1], t);
      StepWorks(num, run[i - 1], t);
    }
  }

  lemma {:induction false} FullWork(places: seq<Place>)
    requires forall t :: 0 <= t < |places| ==> places[t] == Outside
    ensures Work(places) == 5 * |places|
  {
    if places != [] {
      FullWork(places[1..]);
    }
  }

  /** No run goes on for ever, and a run that cannot go on has brought every thread back and left
      the object as it was. */
  lemma EveryRunFinishes(num: nat, run: seq<State>)
    requires Run(num, run)
    ensures |run| <= 5 * (num + 1) + 1
    ensures Stuck(run[|run| - 1]) ==>
              var s := run[|run| - 1];
              |s.places| == num + 1 && (forall t :: 0 <= t <= num ==> s.places[t] == Done) && s.n == 0 && s.waitFor == 0
  {
    var s := run[|run| - 1];
    RunIsShort(num, run, |run| - 1);
    RunInv(num, run, |run| - 1);
    if exists t :: 0 <= t <= num && s.places[t] != Done {
      SomeEnabled(num, s);
      var t: Thread :| t <= num && Enabled(s, t);
      assert !Stuck(s);
    }
  }
}
