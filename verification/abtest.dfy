/** abtest.py: which choices of B make the test fail. A test is told which names are picked from
    B, all others being picked from A; it need not answer the same twice. */
module AbTest {

  type Name = string

  /** The answer to test number k, for the names picked from B. */
  type Test = (nat, set<Name>) -> bool

  datatype Entry = Entry(picked: set<Name>, passed: bool, announced: int)

  function Names(partition: seq<Name>): set<Name> {
    set x | x in partition
  }

  /** A log of tests: each entry has the answer that the test gave at that point. */
  ghost predicate Genuine(test: Test, log: seq<Entry>) {
    forall k :: 0 <= k < |log| ==> log[k].passed == test(k, log[k].picked)
  }

  ghost predicate FailedAlone(log: seq<Entry>, x: Name) {
    exists k :: 0 <= k < |log| && log[k].picked == {x} && !log[k].passed
  }

  ghost predicate PassedWith(log: seq<Entry>, x: Name) {
    exists k :: 0 <= k < |log| && x in log[k].picked && log[k].passed
  }

  /** Known good is what passed in some company; what did not was tried alone and failed. */
  ghost predicate Explains(log: seq<Entry>, names: set<Name>, good: set<Name>) {
    && good <= names
    && (forall x :: x in good ==> PassedWith(log, x))
    && (forall x :: x in names - good ==> FailedAlone(log, x))
  }

  /** A test that fails exactly when it picks one of the bad choices from B. */
  ghost predicate BlamesOnly(test: Test, bad: set<Name>) {
    forall k, picked :: test(k, picked) <==> picked !! bad
  }

  lemma GoodIsRest(test: Test, log: seq<Entry>, names: set<Name>, good: set<Name>, bad: set<Name>)
    requires Genuine(test, log) && Explains(log, names, good) && BlamesOnly(test, bad)
    ensures good == names - bad
  {
    forall x | x in names
      ensures x in good <==> x !in bad
    {
      if x in good {
        var k :| 0 <= k < |log| && x in log[k].picked && log[k].passed;
        assert test(k, log[k].picked);
      } else {
        assert FailedAlone(log, x);
        var k :| 0 <= k < |log| && log[k].picked == {x} && !log[k].passed;
        assert !test(k, {x});
      }
    }
  }

  // ---- what holds while testing ------------------------------------------------------------

  /** What is known of the names that are not open any more. */
  ghost predicate Progress(log: seq<Entry>, names: set<Name>, good: set<Name>, open: set<Name>) {
    && good <= names
    && (forall x :: x in good ==> PassedWith(log, x))
    && (forall x :: x in names - good - open ==> FailedAlone(log, x))
  }

  lemma LogGrows(log: seq<Entry>, e: Entry, x: Name)
    ensures PassedWith(log, x) ==> PassedWith(log + [e], x)
    ensures FailedAlone(log, x) ==> FailedAlone(log + [e], x)
    ensures x in e.picked && e.passed ==> PassedWith(log + [e], x)
    ensures e.picked == {x} && !e.passed ==> FailedAlone(log + [e], x)
  {
    var more := log + [e];
    assert more[|log|] == e;
    assert forall k :: 0 <= k < |log| ==> more[k] == log[k];
  }

  /** A test closes what passed, or the one name that failed alone. */
  lemma TestedMore(log: seq<Entry>, names: set<Name>, good: set<Name>, open: set<Name>, left: set<Name>, e: Entry)
    requires Progress(log, names, good, open) && e.picked <= names
    requires if e.passed then open <= left + e.picked else forall x :: x in open - left ==> e.picked == {x}
    ensures Progress(log + [e], names, if e.passed then good + e.picked else good, left)
  {
    forall x
      ensures PassedWith(log, x) ==> PassedWith(log + [e], x)
      ensures FailedAlone(log, x) ==> FailedAlone(log + [e], x)
      ensures x in e.picked && e.passed ==> PassedWith(log + [e], x)
      ensures e.picked == {x} && !e.passed ==> FailedAlone(log + [e], x)
    {
      LogGrows(log, e, x);
    }
  }

  // ---- one by one --------------------------------------------------------------------------

  /** check_sequentially, on the names in sorted order. */
  method CheckSequentially(names: seq<Name>, test: Test) returns (good: set<Name>, log: seq<Entry>)
    ensures Genuine(test, log) && Explains(log, Names(names), good)
    ensures |log| == |names| && forall k :: 0 <= k < |names| ==> log[k].picked == {names[k]}
  {
    good, log := {}, [];
    assert names[0..] == names;
    for n := 0 to |names|
      invariant |log| == n && Genuine(test, log) && forall k :: 0 <= k < n ==> log[k].picked == {names[k]}
      invariant Progress(log, Names(names), good, Names(names[n..]))
    {
      var res := test(n, {names[n]});
      var e := Entry({names[n]}, res, |names| - n);
      assert names[n..] == [names[n]] + names[n + 1..];
      TestedMore(log, Names(names), good, Names(names[n..]), Names(names[n + 1..]), e);
      log := log + [e];
      if res {
        good := good + {names[n]};
      }
    }
  }

  // ---- bisecting ---------------------------------------------------------------------------

  datatype Option<T> = None | Some(value: T)

  /** The names in any of the partitions. */
  function Pool(parts: seq<seq<Name>>): set<Name> {
    if parts == [] then {} else Names(parts[0]) + Pool(parts[1..])
  }

  /** How many tests it may take to be done with a partition that is still to be split. */
  function Cost(partition: seq<Name>): int {
    if |partition| == 1 then 1 else (|partition| - 1) * 2
  }

  function Pending(parts: seq<seq<Name>>): int {
    if parts == [] then 0 else Cost(parts[0]) + Pending(parts[1..])
  }

  lemma {:induction false} PopLast(parts: seq<seq<Name>>)
    requires parts != []
    ensures var last := parts[|parts| - 1]; var rest := parts[..|parts| - 1];
            Pool(parts) == Pool(rest) + Names(last) && Pending(parts) == Pending(rest) + Cost(last)
  {
    if |parts| > 1 {
      PopLast(parts[1..]);
      assert parts[1..][..|parts| - 2] == parts[..|parts| - 1][1..];
    }
  }

  /** The tests run so far never were more than what was announced, with `due` still to come. */
  ghost predicate Bounded(log: seq<Entry>, due: int) {
    forall j :: 0 <= j < |log| ==> log[j].announced >= |log| - j + due
  }

  /** The worst case that is announced with a test: for its partition, the one that comes next, and
      those that are still to be split. */
  function Announced(partition: seq<Name>, upcoming: Option<seq<Name>>, toSplit: seq<seq<Name>>): int {
    |partition| * 2 - 1 + (if upcoming.Some? then |upcoming.value| * 2 - 1 else 0) + Steps(toSplit)
  }

  function Steps(parts: seq<seq<Name>>): int {
    if parts == [] then 0 else (|parts[0]| - 1) * 2 + Steps(parts[1..])
  }

  lemma {:induction false} StepsPending(parts: seq<seq<Name>>)
    requires forall x :: x in parts ==> |x| >= 2
    ensures Steps(parts) == Pending(parts)
  {
    if parts != [] {
      StepsPending(parts[1..]);
    }
  }

  method PendingSteps(parts: seq<seq<Name>>) returns (steps: int)
    requires forall x :: x in parts ==> |x| >= 2
    ensures steps == Pending(parts)
  {
    steps := 0;
    assert parts[0..] == parts;
    for k := 0 to |parts|
      invariant steps + Pending(parts[k..]) == Pending(parts)
    {
      steps := steps + (|parts[k]| - 1) * 2;
    }
  }

  lemma LogOne(test: Test, log: seq<Entry>, e: Entry, due: int)
    requires Genuine(test, log) && Bounded(log, due) && e.passed == test(|log|, e.picked) && e.announced >= due
    ensures Genuine(test, log + [e])
    ensures forall left {:trigger Bounded(log + [e], left)} :: left <= due - 1 ==> Bounded(log + [e], left)
  {
  }

  // ---- how many tests it takes ---------------------------------------------------------------

  /** How many of the names are bad. */
  function BadIn(partition: seq<Name>, bad: set<Name>): nat {
    if partition == [] then 0 else (if partition[0] in bad then 1 else 0) + BadIn(partition[1..], bad)
  }

  /** How often a partition of that size can be halved: the binary logarithm, rounded up. */
  function Halvings(size: nat): nat {
    if size < 2 then 0 else 1 + Halvings((size + 1) / 2)
  }

  /** What a partition that is known to fail may still cost. */
  function Weight(partition: seq<Name>, bad: set<Name>): nat {
    2 * (BadIn(partition, bad) * Halvings(|partition|))
  }

  function Load(parts: seq<seq<Name>>, bad: set<Name>): nat {
    if parts == [] then 0 else Weight(parts[0], bad) + Load(parts[1..], bad)
  }

  /** The same of one that may be good: two tests show that. */
  function Most(partition: seq<Name>, bad: set<Name>): nat {
    2 * ((if BadIn(partition, bad) == 0 then 1 else BadIn(partition, bad)) * Halvings(|partition|))
  }

  lemma {:induction false} LoadLast(parts: seq<seq<Name>>, bad: set<Name>)
    requires parts != []
    ensures var last, rest := parts[|parts| - 1], parts[..|parts| - 1];
            Load(parts, bad) == Load(rest, bad) + Weight(last, bad)
  {
    hide Weight;
    if |parts| > 1 {
      LoadLast(parts[1..], bad);
      assert parts[1..][..|parts| - 2] == parts[..|parts| - 1][1..];
    }
  }

  lemma {:induction false} BadInBoth(a: seq<Name>, b: seq<Name>, bad: set<Name>)
    ensures BadIn(a + b, bad) == BadIn(a, bad) + BadIn(b, bad)
  {
    if a == [] {
      assert a + b == b;
    } else {
      assert (a + b)[1..] == a[1..] + b;
      BadInBoth(a[1..], b, bad);
    }
  }

  lemma {:induction false} BadInSome(partition: seq<Name>, bad: set<Name>)
    ensures BadIn(partition, bad) > 0 <==> !(Names(partition) !! bad)
  {
    if partition != [] {
      BadInSome(partition[1..], bad);
      assert Names(partition) == {partition[0]} + Names(partition[1..]) by {
        assert partition == [partition[0]] + partition[1..];
      }
    }
  }

  lemma {:induction false} HalvingsGrow(a: nat, b: nat)
    requires a <= b
    ensures Halvings(a) <= Halvings(b)
    decreases b
  {
    if a >= 2 {
      HalvingsGrow((a + 1) / 2, (b + 1) / 2);
    }
  }

  /** Two tests pay for a failing partition's own level; what they leave to be split is paid for by the
      levels below. */
  lemma HalfLoad(l: nat, r: nat, b: nat, levels: nat, h: nat, h': nat)
    requires l + r == b && b > 0 && h <= levels && h' <= levels
    ensures 2 + 2 * (l * h) + 2 * (r * h') <= 2 * (b * (levels + 1))
  {
    assert l * h <= l * levels && r * h' <= r * levels;
    assert l * levels + r * levels == b * levels;
    assert b * (levels + 1) == b * levels + b;
  }

  function Queue(parts: seq<seq<Name>>, partition: seq<Name>, passed: bool): seq<seq<Name>> {
    if !passed && |partition| >= 2 then [partition] + parts else parts
  }

  /** Both halves were tested, the first one first, or the whole if it is one name; what failed and can
      be split was queued. */
  ghost predicate Halved(test: Test, partition: seq<Name>, n: nat, before: seq<seq<Name>>, log0: seq<Entry>,
                         after: seq<seq<Name>>, log1: seq<Entry>) {
    var left, right := partition[..|partition| / 2], partition[|partition| / 2..];
    if left == [] then
      && |log1| == |log0| + 1 && log1[..|log0|] == log0 && log1[|log0|].picked == Names(right)
      && after == Queue(before, right, test(n, Names(right)))
    else
      && |log1| == |log0| + 2 && log1[..|log0|] == log0
      && log1[|log0|].picked == Names(left) && log1[|log0| + 1].picked == Names(right)
      && after == Queue(Queue(before, left, test(n, Names(left))), right, test(n + 1, Names(right)))
  }

  lemma IsHalved(test: Test, partition: seq<Name>, n: nat, before: seq<seq<Name>>, log0: seq<Entry>, middle: seq<seq<Name>>,
                 log1: seq<Entry>, after: seq<seq<Name>>, log2: seq<Entry>, e: Entry, e': Entry)
    requires var left, right := partition[..|partition| / 2], partition[|partition| / 2..];
             && e.picked == Names(left) && e'.picked == Names(right) && log2 == log1 + [e']
             && (if left == [] then middle == before && log1 == log0
                 else middle == Queue(before, left, test(n, Names(left))) && log1 == log0 + [e])
             && after == Queue(middle, right, test(n + |log1| - |log0|, Names(right)))
    ensures Halved(test, partition, n, before, log0, after, log2)
  {
    hide Queue, Names;
  }

  lemma TwoHalves(partition: seq<Name>, left: seq<Name>, right: seq<Name>)
    requires left == partition[..|partition| / 2] && right == partition[|partition| / 2..]
    ensures Names(left) + Names(right) == Names(partition) && Names([]) == {}
  {
    assert partition == left + right;
  }

  lemma QueueLoad(test: Test, n: nat, parts: seq<seq<Name>>, partition: seq<Name>, bad: set<Name>)
    requires BlamesOnly(test, bad)
    ensures var q := Queue(parts, partition, test(n, Names(partition)));
            && Load(q, bad) <= Load(parts, bad) + Weight(partition, bad)
            && (BadIn(partition, bad) == 0 ==> q == parts)
            && forall x :: x in q ==> x in parts || BadIn(x, bad) > 0
  {
    hide BadIn, Halvings, Weight, Names;
    var passed := test(n, Names(partition));
    BadInSome(partition, bad);
    if !passed && |partition| >= 2 {
      assert Queue(parts, partition, passed)[1..] == parts;
    }
  }

  lemma Deeper(n: nat, m: nat, l: nat, r: nat)
    requires n >= 2 && m == (n + 1) / 2 && l == n / 2 && r == n - l
    ensures Halvings(n) == Halvings(m) + 1 && Halvings(l) <= Halvings(m) && Halvings(r) == Halvings(m)
  {
    assert r == m && l <= m;
    HalvingsGrow(l, m);
  }

  /** The tests so far and what the queue may still cost are within the whole cost. */
  ghost predicate Paid(names: seq<Name>, bad: set<Name>, tests: nat, parts: seq<seq<Name>>) {
    && (forall x :: x in parts ==> |x| >= 2)
    && if tests == 0 then parts == [names]
       else tests + Load(parts, bad) <= Most(names, bad) && forall x :: x in parts ==> BadIn(x, bad) > 0
  }

  lemma NothingPaid(names: seq<Name>, bad: set<Name>, parts: seq<seq<Name>>)
    requires parts == [names]
    ensures |names| >= 2 ==> Paid(names, bad, 0, parts)
  {
  }

  lemma AllPaid(names: seq<Name>, bad: set<Name>, tests: nat)
    requires Paid(names, bad, tests, [])
    ensures tests <= Most(names, bad)
  {
    hide Most;
    assert Load([], bad) == 0;
  }

  lemma PaidOn(test: Test, names: seq<Name>, partition: seq<Name>, n: nat, before: seq<seq<Name>>, log0: seq<Entry>,
               after: seq<seq<Name>>, log1: seq<Entry>, bad: set<Name>)
    requires BlamesOnly(test, bad) && Paid(names, bad, n, before + [partition]) && n == |log0|
    requires Halved(test, partition, n, before, log0, after, log1) && forall x :: x in after ==> |x| >= 2
    ensures Paid(names, bad, |log1|, after)
  {
    hide BlamesOnly, BadIn, Halvings, Weight, Load, Most, Halved;
    var parts := before + [partition];
    assert parts[..|parts| - 1] == before && parts[|parts| - 1] == partition && partition in parts;
    assert forall x :: x in before ==> x in parts;
    LoadLast(parts, bad);
    if n == 0 {
      assert before == [] && partition == names;
      NoLoad(bad);
    } else {
      MostOfBad(partition, bad);
    }
    SplitLoad(test, partition, n, before, log0, after, log1, bad);
  }

  lemma NoLoad(bad: set<Name>)
    ensures Load([], bad) == 0
  {
  }

  lemma MostOfBad(partition: seq<Name>, bad: set<Name>)
    ensures BadIn(partition, bad) > 0 ==> Most(partition, bad) == Weight(partition, bad)
  {
  }

  lemma SplitLoad(test: Test, partition: seq<Name>, n: nat, before: seq<seq<Name>>, log0: seq<Entry>,
                  after: seq<seq<Name>>, log1: seq<Entry>, bad: set<Name>)
    requires BlamesOnly(test, bad) && |partition| >= 2 && Halved(test, partition, n, before, log0, after, log1)
    requires forall x :: x in before ==> BadIn(x, bad) > 0
    ensures |log1| == |log0| + 2
    ensures forall x :: x in after ==> BadIn(x, bad) > 0
    ensures 2 + Load(after, bad) <= Load(before, bad) + Most(partition, bad)
  {
    hide BlamesOnly, BadIn, Load, Halvings, Weight, Most, Queue, Names;
    var left, right := partition[..|partition| / 2], partition[|partition| / 2..];
    var first := Queue(before, left, test(n, Names(left)));
    QueueLoad(test, n, before, left, bad);
    QueueLoad(test, n + 1, first, right, bad);
    HalvesWeigh(partition, left, right, bad);
  }

  lemma HalvesWeigh(partition: seq<Name>, left: seq<Name>, right: seq<Name>, bad: set<Name>)
    requires |partition| >= 2 && left == partition[..|partition| / 2] && right == partition[|partition| / 2..]
    ensures BadIn(partition, bad) == 0 ==> BadIn(left, bad) == 0 == BadIn(right, bad)
    ensures 2 <= Most(partition, bad)
    ensures BadIn(partition, bad) > 0 ==> 2 + Weight(left, bad) + Weight(right, bad) <= Most(partition, bad)
  {
    hide BadIn, Halvings, Weight, Most;
    var m := (|partition| + 1) / 2;
    assert partition == left + right;
    BadInBoth(left, right, bad);
    Deeper(|partition|, m, |left|, |right|);
    WeighedSum(partition, left, right, bad, Halvings(m));
  }

  lemma WeighedSum(partition: seq<Name>, left: seq<Name>, right: seq<Name>, bad: set<Name>, levels: nat)
    requires BadIn(partition, bad) == BadIn(left, bad) + BadIn(right, bad)
    requires Halvings(|partition|) == levels + 1 && Halvings(|left|) <= levels && Halvings(|right|) <= levels
    ensures 2 <= Most(partition, bad)
    ensures BadIn(partition, bad) > 0 ==> 2 + Weight(left, bad) + Weight(right, bad) <= Most(partition, bad)
  {
    hide BadIn, Halvings;
    var l, r := BadIn(left, bad), BadIn(right, bad);
    if l + r > 0 {
      HalfLoad(l, r, l + r, levels, Halvings(|left|), Halvings(|right|));
    }
  }

  class Bisection {
    const names: seq<Name>
    const test: Test
    var knownGood: set<Name>
    var toSplit: seq<seq<Name>>
    var log: seq<Entry>
    var tests: nat

    constructor (names: seq<Name>, test: Test)
      ensures this.names == names && this.test == test && knownGood == {} && toSplit == [names] && log == [] && tests == 0
    {
      this.names, this.test := names, test;
      knownGood, toSplit, log, tests := {}, [names], [], 0;
    }

    ghost predicate Valid(open: set<Name>, due: int)
      reads this
    {
      && tests == |log| && Genuine(test, log)
      && Progress(log, Names(names), knownGood, open) && open <= Names(names)
      && Bounded(log, due)
    }

    /** test_partition. */
    method TestPartition(partition: seq<Name>, upcoming: Option<seq<Name>>)
      requires partition != [] && (upcoming.Some? ==> upcoming.value != [])
      requires forall x :: x in toSplit ==> |x| >= 2
      requires var u := if upcoming.Some? then upcoming.value else [];
               Valid(Names(partition) + Names(u) + Pool(toSplit),
                     2 * |partition| - 1 + (if upcoming.Some? then 2 * |u| - 1 else 0) + Pending(toSplit))
      modifies this
      ensures var u := if upcoming.Some? then upcoming.value else [];
              Valid(Names(u) + Pool(toSplit), (if upcoming.Some? then 2 * |u| - 1 else 0) + Pending(toSplit))
      ensures tests == old(tests) + 1
      ensures log == old(log) + [Entry(Names(partition), test(old(tests), Names(partition)), Announced(partition, upcoming, old(toSplit)))]
      ensures toSplit == if !test(old(tests), Names(partition)) && |partition| >= 2 then [partition] + old(toSplit) else old(toSplit)
      ensures Pending(toSplit) < Pending(old(toSplit)) + 2 * |partition| - 1
    {
      hide Progress, Genuine, Bounded;
      var maxRemaining := |partition| * 2 - 1;
      ghost var u := [];
      if upcoming.Some? {
        maxRemaining := maxRemaining + |upcoming.value| * 2 - 1;
        u := upcoming.value;
      }
      StepsPending(toSplit);
      var rest := PendingSteps(toSplit);
      maxRemaining := maxRemaining + rest;

      var res := test(tests, Names(partition));
      var e := Entry(Names(partition), res, maxRemaining);
      LogOne(test, log, e, maxRemaining);
      ghost var open := Names(partition) + Names(u) + Pool(toSplit);
      ghost var left := Names(u) + Pool(toSplit);
      if res {
        TestedMore(log, Names(names), knownGood, open, left, e);
        knownGood := knownGood + Names(partition);
      } else if |partition| > 1 {
        TestedMore(log, Names(names), knownGood, open, open, e);
        toSplit := [partition] + toSplit;
        assert toSplit[1..] == old(toSplit);
        assert open == Names(u) + Pool(toSplit);
      } else {
        assert Names(partition) == {partition[0]};
        TestedMore(log, Names(names), knownGood, open, left, e);
      }
      log, tests := log + [e], tests + 1;
    }

    /** The body of the loop of check_bisect, after a partition is popped. */
    method SplitPartition(partition: seq<Name>)
      requires partition != [] && forall x :: x in toSplit ==> |x| >= 2
      requires Valid(Names(partition) + Pool(toSplit), Cost(partition) + Pending(toSplit))
      modifies this
      ensures Valid(Pool(toSplit), Pending(toSplit))
      ensures forall x :: x in toSplit ==> |x| >= 2
      ensures Pending(toSplit) < Pending(old(toSplit)) + Cost(partition)
      ensures Halved(test, partition, old(tests), old(toSplit), old(log), toSplit, log)
    {
      hide Progress, Genuine, Bounded, Explains, Announced, Halved, Names, Pool;
      ghost var n, before, log0 := tests, toSplit, log;
      var middle := |partition| / 2;
      var left, right := partition[..middle], partition[middle..];
      TwoHalves(partition, left, right);
      if |left| > 0 {
        TestPartition(left, Some(right));
      }
      ghost var e, queued, log1 := Entry(Names(left), test(n, Names(left)), Announced(left, Some(right), before)), toSplit, log;
      assert |right| > 0;
      assert Names(right) + Names([]) + Pool(toSplit) == Names(right) + Pool(toSplit);
      TestPartition(right, None);
      IsHalved(test, partition, n, before, log0, queued, log1, toSplit, log, e, log[|log| - 1]);
      assert Names([]) + Pool(toSplit) == Pool(toSplit);
    }

    /** check_bisect. With b bad names it takes at most 2b tests, or 2, for each time that the list can
        be halved. The tests are those of the halves of the partitions that are split, and after the
        whole list these are the ones that failed, in the order in which they did. */
    method Check(ghost bad: set<Name>) returns (ghost splits: seq<seq<Name>>)
      requires knownGood == {} && toSplit == [names] && log == [] && tests == 0
      modifies this
      ensures BlamesOnly(test, bad) && |names| >= 2 ==> |log| <= Most(names, bad)
      ensures Genuine(test, log) && Explains(log, Names(names), knownGood)
      ensures forall j :: 0 <= j < |log| ==> log[j].announced >= |log| - j
      ensures |log| == |Asked(splits)| && forall j :: 0 <= j < |log| ==> log[j].picked == Names(Asked(splits)[j])
      ensures splits == if names == [] then [] else [names] + Failing(test, Asked(splits))
    {
      hide Progress, Genuine, Bounded, Explains, BlamesOnly, BadIn, Halvings, Paid, Halved, InTurn, Names, Pool, Pending, Cost, Most;
      splits := [];
      NothingTested(test, log, Names(names));
      QueueEnds(names);
      if |names| == 0 {
        return;
      }
      NothingPaid(names, bad, toSplit);
      NoneInTurn(test, names, toSplit, log);
      while |toSplit| > 0
        invariant Valid(Pool(toSplit), Pending(toSplit))
        invariant forall x :: x in toSplit ==> |x| >= 2 || (|x| == 1 && |toSplit| == 1)
        invariant BlamesOnly(test, bad) && |names| >= 2 ==> Paid(names, bad, tests, toSplit)
        invariant InTurn(test, names, splits, toSplit, log)
        decreases Pending(toSplit)
      {
        var partition := toSplit[|toSplit| - 1];
        assert partition in toSplit;
        PopLast(toSplit);
        ghost var open, whole := Pool(toSplit), toSplit;
        toSplit := toSplit[..|toSplit| - 1];
        assert toSplit + [partition] == whole;
        assert Names(partition) + Pool(toSplit) == open;
        PendingIsNat(whole);
        PendingIsNat(toSplit);
        ghost var before, log0, n := toSplit, log, tests;
        SplitPartition(partition);
        NextInTurn(test, names, splits, partition, before, log0, toSplit, log);
        splits := splits + [partition];
        if BlamesOnly(test, bad) && |names| >= 2 {
          PaidOn(test, names, partition, n, before, log0, toSplit, log, bad);
        }
      }
      AllTested(log, Names(names), knownGood);
      if BlamesOnly(test, bad) && |names| >= 2 {
        AllPaid(names, bad, tests);
      }
      AllInTurn(test, names, splits, log);
    }
  }

  // ---- in which order ------------------------------------------------------------------------

  function Halves(partition: seq<Name>): seq<seq<Name>> {
    if |partition| < 2 then [partition] else [partition[..|partition| / 2], partition[|partition| / 2..]]
  }

  function Asked(splits: seq<seq<Name>>): seq<seq<Name>> {
    if splits == [] then [] else Asked(splits[..|splits| - 1]) + Halves(splits[|splits| - 1])
  }

  /** Those that fail and can be split. */
  function Failing(test: Test, asked: seq<seq<Name>>): seq<seq<Name>> {
    if asked == [] then []
    else
      var n := |asked| - 1;
      Failing(test, asked[..n]) + if !test(n, Names(asked[n])) && |asked[n]| >= 2 then [asked[n]] else []
  }

  function Reversed(parts: seq<seq<Name>>): seq<seq<Name>> {
    if parts == [] then [] else Reversed(parts[1..]) + [parts[0]]
  }

  lemma {:induction false} ReversedLast(parts: seq<seq<Name>>, last: seq<Name>)
    ensures Reversed(parts + [last]) == [last] + Reversed(parts)
  {
    if parts == [] {
      assert [] + [last] == [last];
    } else {
      assert (parts + [last])[1..] == parts[1..] + [last];
      ReversedLast(parts[1..], last);
    }
  }

  /** What has been split, and what is queued, is the whole list and what has failed since. */
  ghost predicate InTurn(test: Test, names: seq<Name>, splits: seq<seq<Name>>, queue: seq<seq<Name>>, log: seq<Entry>) {
    Queued(test, names, splits, queue, Asked(splits), log)
  }

  ghost predicate Queued(test: Test, names: seq<Name>, splits: seq<seq<Name>>, queue: seq<seq<Name>>, asked: seq<seq<Name>>,
                         log: seq<Entry>) {
    && |log| == |asked| && (forall j :: 0 <= j < |log| ==> log[j].picked == Names(asked[j]))
    && splits + Reversed(queue) == [names] + Failing(test, asked)
  }

  lemma AskOne(test: Test, names: seq<Name>, splits: seq<seq<Name>>, queue: seq<seq<Name>>, asked: seq<seq<Name>>, log: seq<Entry>,
               partition: seq<Name>, e: Entry)
    requires Queued(test, names, splits, queue, asked, log) && e.picked == Names(partition)
    ensures Queued(test, names, splits, Queue(queue, partition, test(|log|, Names(partition))), asked + [partition], log + [e])
  {
    hide Reversed, Failing, Queue, Names;
    FailingLast(test, asked, partition);
    QueueReversed(queue, partition, test(|log|, Names(partition)));
    var x: seq<seq<Name>> := if !test(|log|, Names(partition)) && |partition| >= 2 then [partition] else [];
    assert splits + (Reversed(queue) + x) == (splits + Reversed(queue)) + x;
    assert [names] + (Failing(test, asked) + x) == ([names] + Failing(test, asked)) + x;
  }

  lemma NoneInTurn(test: Test, names: seq<Name>, queue: seq<seq<Name>>, log: seq<Entry>)
    requires queue == [names] && log == []
    ensures InTurn(test, names, [], queue, log)
  {
    assert Asked([]) == [] && Failing(test, []) == [];
    assert Reversed([names]) == Reversed([]) + [names];
  }

  lemma AllInTurn(test: Test, names: seq<Name>, splits: seq<seq<Name>>, log: seq<Entry>)
    requires InTurn(test, names, splits, [], log)
    ensures |log| == |Asked(splits)| && forall j :: 0 <= j < |log| ==> log[j].picked == Names(Asked(splits)[j])
    ensures splits == [names] + Failing(test, Asked(splits))
  {
    assert splits + Reversed([]) == splits;
  }

  lemma FailingLast(test: Test, asked: seq<seq<Name>>, last: seq<Name>)
    ensures Failing(test, asked + [last]) ==
            Failing(test, asked) + if !test(|asked|, Names(last)) && |last| >= 2 then [last] else []
  {
    assert (asked + [last])[..|asked|] == asked;
  }

  lemma QueueReversed(parts: seq<seq<Name>>, partition: seq<Name>, passed: bool)
    ensures Reversed(Queue(parts, partition, passed)) == Reversed(parts) + if !passed && |partition| >= 2 then [partition] else []
  {
    if !passed && |partition| >= 2 {
      assert ([partition] + parts)[1..] == parts;
    }
  }

  lemma AskedLast(splits: seq<seq<Name>>, partition: seq<Name>)
    ensures Asked(splits + [partition]) == Asked(splits) + Halves(partition)
  {
    assert (splits + [partition])[..|splits|] == splits;
  }

  /** The partition is taken from the end of the queue. */
  lemma Popped(test: Test, names: seq<Name>, splits: seq<seq<Name>>, partition: seq<Name>, before: seq<seq<Name>>,
               asked: seq<seq<Name>>, log: seq<Entry>)
    requires Queued(test, names, splits, before + [partition], asked, log)
    ensures Queued(test, names, splits + [partition], before, asked, log)
  {
    hide Reversed, Failing, Names;
    ReversedLast(before, partition);
    assert splits + ([partition] + Reversed(before)) == (splits + [partition]) + Reversed(before);
  }

  lemma LogSplits(log0: seq<Entry>, log1: seq<Entry>)
    requires |log0| < |log1| <= |log0| + 2 && log1[..|log0|] == log0
    ensures |log1| == |log0| + 1 ==> log1 == log0 + [log1[|log0|]]
    ensures |log1| == |log0| + 2 ==> log1 == (log0 + [log1[|log0|]]) + [log1[|log0| + 1]]
  {
  }

  lemma NextInTurn(test: Test, names: seq<Name>, splits: seq<seq<Name>>, partition: seq<Name>, before: seq<seq<Name>>,
                   log0: seq<Entry>, after: seq<seq<Name>>, log1: seq<Entry>)
    requires InTurn(test, names, splits, before + [partition], log0) && partition != []
    requires Halved(test, partition, |log0|, before, log0, after, log1)
    ensures InTurn(test, names, splits + [partition], after, log1)
  {
    hide Queue, Names, Queued, Asked, Halves;
    var left, right := partition[..|partition| / 2], partition[|partition| / 2..];
    var n, asked, now := |log0|, Asked(splits), splits + [partition];
    AskedLast(splits, partition);
    Popped(test, names, splits, partition, before, asked, log0);
    LogSplits(log0, log1);
    AskOne(test, names, now, before, asked, log0, if left == [] then right else left, log1[n]);
    if left == [] {
      WholeHalf(partition, asked);
    } else {
      TwoAsked(partition, asked);
      AskOne(test, names, now, Queue(before, left, test(n, Names(left))), asked + [left], log0 + [log1[n]], right, log1[n + 1]);
    }
  }

  lemma WholeHalf(partition: seq<Name>, asked: seq<seq<Name>>)
    requires partition != [] && partition[..|partition| / 2] == []
    ensures asked + Halves(partition) == asked + [partition[|partition| / 2..]]
  {
  }

  lemma TwoAsked(partition: seq<Name>, asked: seq<seq<Name>>)
    requires partition[..|partition| / 2] != []
    ensures asked + Halves(partition) == asked + [partition[..|partition| / 2]] + [partition[|partition| / 2..]]
  {
  }

  lemma QueueEnds(names: seq<Name>)
    ensures Pool([]) == {} && Pending([]) == 0 && Pool([names]) == Names(names) && (names == [] ==> Names(names) == {})
  {
    assert [names][1..] == [];
  }

  lemma NothingTested(test: Test, log: seq<Entry>, names: set<Name>)
    requires log == []
    ensures Genuine(test, log) && Progress(log, names, {}, names) && (names == {} ==> Explains(log, names, {}))
    ensures forall due :: Bounded(log, due)
  {
  }

  lemma AllTested(log: seq<Entry>, names: set<Name>, good: set<Name>)
    requires Progress(log, names, good, {}) && Bounded(log, 0)
    ensures Explains(log, names, good)
    ensures forall j :: 0 <= j < |log| ==> log[j].announced >= |log| - j
  {
  }

  lemma PendingIsNat(parts: seq<seq<Name>>)
    requires forall x :: x in parts ==> |x| >= 1
    ensures Pending(parts) >= 0
  {
  }

  /** If the test blames certain choices only, both ways find just these. */
  lemma BothFindTheSame(test: Test, names: set<Name>, bad: set<Name>, log: seq<Entry>, good: set<Name>,
                        log': seq<Entry>, good': set<Name>)
    requires BlamesOnly(test, bad)
    requires Genuine(test, log) && Explains(log, names, good) && Genuine(test, log') && Explains(log', names, good')
    ensures good == good' == names - bad
  {
    GoodIsRest(test, log, names, good, bad);
    GoodIsRest(test, log', names, good', bad);
  }
}
