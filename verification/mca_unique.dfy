/** update_mca_test_checks.py: a block from its texts and the prefixes of their runs to the lines of
    the test, and what each run then checks. */
module McaUnique {
  import opened McaBlocks
  import opened McaBreakDown

  // ---- pruning and breaking down fit together --------------------------------------------------

  ghost predicate AllKept(all: RunSets, kept: seq<seq<Prefix>>) {
    |kept| == |all| && forall i :: 0 <= i < |all| ==> KeptOk(all, i, kept[i])
  }

  predicate InEveryRun(all: RunSets, common: Prefix) {
    forall i, r :: 0 <= i < |all| && 0 <= r < |all[i]| ==> common in all[i][r]
  }

  predicate EachRun(all: RunSets) {
    forall i :: 0 <= i < |all| ==> all[i] != []
  }

  /** What pruning keeps is what breaking down needs. */
  lemma KeptIsClear(all: RunSets, kept: seq<seq<Prefix>>, common: Prefix)
    requires |all| >= 2 && EachRun(all) && AllKept(all, kept) && InEveryRun(all, common)
    ensures Clear(kept, common)
  {
    forall t | 0 <= t < |kept|
      ensures Ascending(kept[t]) && common !in kept[t]
    {
      assert KeptOk(all, t, kept[t]);
      var u := if t == 0 then 1 else 0;
      assert all[u] != [] && common in all[u][0];
      assert OfRun(all[u], common);
    }
    forall t, u, p | 0 <= t < u < |kept| && p in kept[t]
      ensures p !in kept[u]
    {
      assert KeptOk(all, t, kept[t]) && KeptOk(all, u, kept[u]);
    }
  }

  // ---- what a run checks -----------------------------------------------------------------------

  /** The lines that a run with these prefixes checks. */
  function RunChecks(lines: seq<Line>, run: set<Prefix>): Text {
    if lines == [] then [] else (if lines[0].0 in run then [lines[0].1] else []) + RunChecks(lines[1..], run)
  }

  predicate Alike(lines: seq<Line>, a: set<Prefix>, b: set<Prefix>) {
    forall k :: 0 <= k < |lines| ==> (lines[k].0 in a <==> lines[k].0 in b)
  }

  lemma {:induction false} SameChecks(lines: seq<Line>, a: set<Prefix>, b: set<Prefix>)
    requires Alike(lines, a, b)
    ensures RunChecks(lines, a) == RunChecks(lines, b)
  {
    if lines != [] {
      assert forall k :: 0 <= k < |lines[1..]| ==> lines[1..][k] == lines[k + 1];
      SameChecks(lines[1..], a, b);
    }
  }

  lemma {:induction false} PairChecks(lines: seq<Line>, p: Prefix, common: Prefix)
    ensures RunChecks(lines, {p, common}) == Checked(lines, p, common)
  {
    if lines != [] {
      PairChecks(lines[1..], p, common);
    }
  }

  lemma {:induction false} LengthSplits(lines: seq<Line>, a: set<Prefix>, b: set<Prefix>)
    requires a !! b
    ensures |RunChecks(lines, a + b)| == |RunChecks(lines, a)| + |RunChecks(lines, b)|
  {
    if lines != [] {
      LengthSplits(lines[1..], a, b);
    }
  }

  lemma {:induction false} NoneChecked(lines: seq<Line>, p: Prefix)
    requires RunChecks(lines, {p}) == []
    ensures forall k :: 0 <= k < |lines| ==> lines[k].0 != p
  {
    if lines != [] {
      NoneChecked(lines[1..], p);
      assert forall k :: 0 < k < |lines| ==> lines[k] == lines[1..][k - 1];
    }
  }

  /** Texts of n lines each, not all the same, and lines that restore each of them. */
  ghost predicate BrokenDown(lines: seq<Line>, texts: seq<Text>, kept: seq<seq<Prefix>>, common: Prefix, n: nat) {
    && |texts| == |kept| && Clear(kept, common) && Restores(lines, texts, kept, common)
    && forall t :: 0 <= t < |texts| ==> |texts[t]| == n && kept[t] != []
  }

  /** A prefix kept for a text has as many lines as any other, next to the common ones. */
  lemma OwnLines(lines: seq<Line>, texts: seq<Text>, kept: seq<seq<Prefix>>, common: Prefix, n: nat, t: nat, p: Prefix)
    requires BrokenDown(lines, texts, kept, common, n) && t < |texts| && p in kept[t]
    ensures RunChecks(lines, {p, common}) == texts[t] && p != common
    ensures |RunChecks(lines, {p})| + |RunChecks(lines, {common})| == n
  {
    PairChecks(lines, p, common);
    LengthSplits(lines, {p}, {common});
    assert {p} + {common} == {p, common};
  }

  lemma SomeDiffer(lines: seq<Line>, texts: seq<Text>, kept: seq<seq<Prefix>>, common: Prefix, n: nat)
    requires BrokenDown(lines, texts, kept, common, n) && |texts| >= 2 && texts[0] != texts[1]
    ensures |RunChecks(lines, {common})| < n
  {
    var p, q := kept[0][0], kept[1][0];
    OwnLines(lines, texts, kept, common, n, 0, p);
    OwnLines(lines, texts, kept, common, n, 1, q);
    if |RunChecks(lines, {common})| == n {
      NoneChecked(lines, p);
      NoneChecked(lines, q);
      SameChecks(lines, {p, common}, {q, common});
    }
  }

  /** Just one of the prefixes kept for the text is a prefix of the run. */
  ghost predicate OneOf(kept: seq<Prefix>, run: set<Prefix>) {
    exists p :: p in kept && p in run && forall q :: q in kept && q in run ==> q == p
  }

  /** A run that printed the text has the common prefix, and none kept for another text. */
  ghost predicate Printed(run: set<Prefix>, kept: seq<seq<Prefix>>, common: Prefix, t: nat) {
    common in run && forall u, p :: 0 <= u < |kept| && u != t && p in kept[u] ==> p !in run
  }

  lemma RunAlike(lines: seq<Line>, kept: seq<seq<Prefix>>, common: Prefix, t: nat, run: set<Prefix>, some: set<Prefix>)
    requires Sourced(lines, kept, common) && t < |kept| && Printed(run, kept, common, t)
    requires common in some && forall p :: p in kept[t] ==> (p in run <==> p in some)
    requires forall p :: p in some ==> p == common || p in kept[t]
    requires common !in kept[t]
    ensures Alike(lines, run, some)
  {
    forall k | 0 <= k < |lines|
      ensures lines[k].0 in run <==> lines[k].0 in some
    {
      if lines[k].0 != common {
        assert OfAny(kept, lines[k].0);
      }
    }
  }

  /** A run checks just the text that it printed if and only if it has exactly one of the prefixes
      kept for this text. */
  lemma ChecksItsText(lines: seq<Line>, texts: seq<Text>, kept: seq<seq<Prefix>>, common: Prefix, n: nat, t: nat, run: set<Prefix>)
    requires BrokenDown(lines, texts, kept, common, n) && Sourced(lines, kept, common)
    requires |texts| >= 2 && texts[0] != texts[1]
    requires t < |texts| && Printed(run, kept, common, t)
    ensures RunChecks(lines, run) == texts[t] <==> OneOf(kept[t], run)
  {
    hide RunChecks, Sourced;
    var mine := set p | p in kept[t] && p in run;
    SomeDiffer(lines, texts, kept, common, n);
    RunAlike(lines, kept, common, t, run, mine + {common});
    SameChecks(lines, run, mine + {common});
    if mine == {} {
      assert {} + {common} == {common};
    } else {
      var p :| p in mine;
      OwnLines(lines, texts, kept, common, n, t, p);
      if mine == {p} {
        assert {p} + {common} == {p, common};
        assert OneOf(kept[t], run);
      } else {
        assert mine - {p} != {} by {
          assert mine == mine - {p} + {p};
        }
        var q :| q in mine - {p};
        OwnLines(lines, texts, kept, common, n, t, q);
        TwiceChecked(lines, mine, p, q, common);
        assert !OneOf(kept[t], run);
      }
    }
  }

  lemma TwiceChecked(lines: seq<Line>, mine: set<Prefix>, p: Prefix, q: Prefix, common: Prefix)
    requires p in mine && q in mine && p != q && common !in mine
    ensures |RunChecks(lines, mine + {common})| >=
            |RunChecks(lines, {p})| + |RunChecks(lines, {q})| + |RunChecks(lines, {common})|
  {
    var rest := mine - {p, q};
    LengthSplits(lines, rest + {p} + {q}, {common});
    LengthSplits(lines, rest + {p}, {q});
    LengthSplits(lines, rest, {p});
    assert rest + {p} + {q} == mine;
  }

  /** Some exclusive prefix is common to all runs of the text; or the run has exclusive prefixes, and
      the first of any other run is not among its own, unless it is its own first. */
  ghost predicate ServedOnce(all: RunSets, t: nat, k: nat)
    requires t < |all| && k < |all[t]|
  {
    || (exists q :: InAllRuns(all, t, q))
    || ((exists p :: ExclusiveIn(all, t, k, p)) &&
        forall r, q :: 0 <= r < |all[t]| && FirstExclusive(all, t, r, q) && q in all[t][k] ==> FirstExclusive(all, t, k, q))
  }

  /** That is when the run has exactly one of the prefixes kept for the text. */
  lemma ServedByOne(all: RunSets, t: nat, k: nat, kept: seq<Prefix>)
    requires t < |all| && k < |all[t]| && KeepsJust(all, t, kept)
    ensures OneOf(kept, all[t][k]) <==> ServedOnce(all, t, k)
  {
    hide Exclusive, Ascending, KeptPrefix, InAllRuns, ExclusiveIn, FirstExclusive;
    if c :| InAllRuns(all, t, c) {
      FirstInAllExists(all, t, c);
      var q :| KeptPrefix(all, t, q) && InAllRuns(all, t, q);
      OnlyKept(all, t, k, q);
    } else if p :| ExclusiveIn(all, t, k, p) {
      FirstExists(all, t, k, p);
      var f :| FirstExclusive(all, t, k, f);
      FirstUnique(all, t, k, f);
      KeptAreFirsts(all, t);
      assert f in kept && f in all[t][k];
    } else {
      forall p | p in kept
        ensures p !in all[t][k]
      {
        NotKept(all, t, k, p);
      }
    }
  }

  lemma OnlyKept(all: RunSets, t: nat, k: nat, q: Prefix)
    requires t < |all| && k < |all[t]| && KeptPrefix(all, t, q) && InAllRuns(all, t, q)
    ensures q in all[t][k] && forall p :: KeptPrefix(all, t, p) ==> p == q
  {
    hide Exclusive;
  }

  lemma KeptAreFirsts(all: RunSets, t: nat)
    requires t < |all| && !exists q :: InAllRuns(all, t, q)
    ensures forall p :: KeptPrefix(all, t, p) <==> exists r :: 0 <= r < |all[t]| && FirstExclusive(all, t, r, p)
    ensures forall p, r :: 0 <= r < |all[t]| && FirstExclusive(all, t, r, p) ==> p in all[t][r]
  {
    hide Exclusive, InAllRuns;
  }

  lemma NotKept(all: RunSets, t: nat, k: nat, p: Prefix)
    requires t < |all| && k < |all[t]| && KeptPrefix(all, t, p) && !ExclusiveIn(all, t, k, p)
    ensures p !in all[t][k]
  {
    KeptIsExclusive(all, t, p);
  }

  lemma FirstUnique(all: RunSets, t: nat, k: nat, f: Prefix)
    requires t < |all| && k < |all[t]| && FirstExclusive(all, t, k, f)
    ensures forall q :: FirstExclusive(all, t, k, q) <==> q == f
  {
  }

  // ---- the block -------------------------------------------------------------------------------

  /** Texts with the prefixes that each is output for, or lines with their prefixes. */
  datatype BlockInfo = Whole(prefixes: seq<seq<Prefix>>) | Broken(lines: seq<Line>)

  predicate Distinct(texts: seq<Text>) {
    forall t, u :: 0 <= t < u < |texts| ==> texts[t] != texts[u]
  }

  predicate SameLength(texts: seq<Text>) {
    forall t :: 0 <= t < |texts| ==> |texts[t]| == |texts[0]|
  }

  predicate ShareFirst(texts: seq<Text>) {
    forall t :: 0 <= t < |texts| ==> texts[t] != [] && texts[0] != [] && texts[t][0] == texts[0][0]
  }

  lemma RunPrinted(all: RunSets, kept: seq<seq<Prefix>>, common: Prefix, t: nat, r: nat)
    requires AllKept(all, kept) && InEveryRun(all, common) && t < |all| && r < |all[t]|
    ensures Printed(all[t][r], kept, common, t)
  {
    forall u, p | 0 <= u < |kept| && u != t && p in kept[u]
      ensures p !in all[t][r]
    {
      assert KeptOk(all, u, kept[u]);
    }
  }

  lemma CapturedKept(all: RunSets, i: nat, kept: seq<Prefix>)
    requires i < |all| && KeptOk(all, i, kept) && exists p :: OfRun(all[i], p) && Exclusive(all, i, p)
    ensures kept != []
  {
    var p :| OfRun(all[i], p) && Exclusive(all, i, p);
    var r :| 0 <= r < |all[i]| && p in all[i][r];
  }

  predicate Uncaptured(texts: seq<Text>, all: RunSets)
    requires |texts| == |all|
  {
    exists i :: 0 <= i < |all| && texts[i] != [] && Nothing(all, i)
  }

  predicate Nothing(all: RunSets, i: nat)
    requires i < |all|
  {
    forall r, p :: 0 <= r < |all[i]| && p in all[i][r] ==> !Exclusive(all, i, p)
  }

  /** The second half of _get_block_infos, for one block number. A text that nothing captures is an
      error. A block with several texts is broken down just when there is a common prefix, they have
      equally many lines and share the first; each run then checks just its own text if and only if
      it is served once. */
  method UniqueBlock(texts: seq<Text>, all: RunSets, common: Option<Prefix>) returns (r: Option<BlockInfo>, ghost kept: seq<seq<Prefix>>)
    requires texts != [] && |texts| == |all| && Distinct(texts) && EachRun(all)
    requires common.Some? ==> InEveryRun(all, common.value)
    ensures r.None? <==> Uncaptured(texts, all)
    ensures r.Some? ==> |kept| == |all| && forall i :: 0 <= i < |all| ==> KeepsJust(all, i, kept[i])
    ensures r.Some? && r.value.Whole? ==> r.value.prefixes == kept
    ensures r.Some? ==> (r.value.Broken? <==> common.Some? && |texts| > 1 && SameLength(texts) && ShareFirst(texts))
    ensures r.Some? && r.value.Broken? ==>
              Restores(r.value.lines, texts, kept, common.value) &&
              forall t, k :: 0 <= t < |all| && 0 <= k < |all[t]| ==>
                (RunChecks(r.value.lines, all[t][k]) == texts[t] <==> ServedOnce(all, t, k))
  {
    hide KeptOk, CommonKept, KeepsJust, Clear, Restores, Exclusive, OneOf, ServedOnce, InEveryRun, RunChecks, Sourced;
    var p := PruneBlock(texts, all);
    kept := [];
    UncapturedMeans(texts, all);
    if p == None {
      return None, kept;
    }
    kept := p.value;
    r := Some(Whole(p.value));
    if common.Some? && |texts| > 1 {
      var same := AllAsLong(texts);
      if same {
        assert texts[0] != texts[1];
        var n := |texts[0]|;
        assert n > 0 && (ShareFirst(texts) <==> Common(texts, 0));
        forall i | 0 <= i < |all|
          ensures kept[i] != []
        {
          assert texts[i] != [];
          assert exists p :: OfRun(all[i], p) && Exclusive(all, i, p);
          CapturedKept(all, i, kept[i]);
        }
        var lines := BreakDownBlock(texts, p.value, common.value, n);
        KeptIsClear(all, kept, common.value);
        if lines != [] {
          assert BrokenDown(lines, texts, kept, common.value, n);
          forall t, k | 0 <= t < |all| && 0 <= k < |all[t]|
            ensures RunChecks(lines, all[t][k]) == texts[t] <==> ServedOnce(all, t, k)
          {
            ServedByOne(all, t, k, kept[t]);
            RunPrinted(all, kept, common.value, t, k);
            ChecksItsText(lines, texts, kept, common.value, n, t, all[t][k]);
          }
          r := Some(Broken(lines));
        }
      }
    }
  }

  /** Three runs that printed one text, a fourth that printed another, and a prefix common to all. The
      first run has the first exclusive prefix of the third besides its own, and does not check just its
      text. */
  method CheckedTwice(texts: seq<Text>) returns (lines: seq<Line>)
    requires |texts| == 2 && Distinct(texts) && SameLength(texts) && ShareFirst(texts)
    ensures RunChecks(lines, {0, 1, 2}) != texts[0]
  {
    hide RunChecks, Restores, Clear;
    var all := [[{0, 1, 2}, {0, 1, 3}, {0, 2, 3}], [{0, 4}]];
    TwoFirsts(all);
    var r, kept := UniqueBlock(texts, all, Some(0));
    lines := r.value.lines;
    assert all[0][0] == {0, 1, 2};
  }

  lemma TwoFirsts(all: RunSets)
    requires all == [[{0, 1, 2}, {0, 1, 3}, {0, 2, 3}], [{0, 4}]]
    ensures InEveryRun(all, 0) && EachRun(all) && !Nothing(all, 0) && !Nothing(all, 1) && !ServedOnce(all, 0, 0)
  {
    forall p
      ensures Exclusive(all, 0, p) <==> p != 0 && p != 4
      ensures Exclusive(all, 1, p) <==> p != 0 && p != 1 && p != 2 && p != 3
    {
      FourRuns(all, p);
    }
    hide Exclusive;
    assert 1 in all[0][0] && Exclusive(all, 0, 1) && 4 in all[1][0] && Exclusive(all, 1, 4);
    forall p
      ensures !InAllRuns(all, 0, p)
    {
      assert p in all[0][0] && p in all[0][1] && p in all[0][2] ==> p == 0;
    }
    assert ExclusiveIn(all, 0, 0, 1);
    assert FirstExclusive(all, 0, 2, 2) && !FirstExclusive(all, 0, 0, 2) && 2 in all[0][0];
  }

  lemma FourRuns(all: RunSets, p: Prefix)
    requires all == [[{0, 1, 2}, {0, 1, 3}, {0, 2, 3}], [{0, 4}]]
    ensures Exclusive(all, 0, p) <==> p != 0 && p != 4
    ensures Exclusive(all, 1, p) <==> p != 0 && p != 1 && p != 2 && p != 3
  {
    assert OfRun(all[1], p) <==> p in all[1][0];
    assert p in all[0][0] || p in all[0][1] || p in all[0][2] ==> OfRun(all[0], p);
    assert Exclusive(all, 0, p) <==> !OfRun(all[1], p);
    assert Exclusive(all, 1, p) <==> !OfRun(all[0], p);
  }

  method AllAsLong(texts: seq<Text>) returns (same: bool)
    requires texts != []
    ensures same == SameLength(texts)
  {
    for t := 0 to |texts|
      invariant forall u :: 0 <= u < t ==> |texts[u]| == |texts[0]|
    {
      if |texts[t]| != |texts[0]| {
        return false;
      }
    }
    return true;
  }

  lemma UncapturedMeans(texts: seq<Text>, all: RunSets)
    requires |texts| == |all|
    ensures Uncaptured(texts, all) <==>
            exists i :: 0 <= i < |all| && texts[i] != [] && forall p :: OfRun(all[i], p) ==> !Exclusive(all, i, p)
  {
    hide Exclusive;
    forall i | 0 <= i < |all|
      ensures Nothing(all, i) <==> forall p :: OfRun(all[i], p) ==> !Exclusive(all, i, p)
    {
      forall p | (forall r, q :: 0 <= r < |all[i]| && q in all[i][r] ==> !Exclusive(all, i, q)) && OfRun(all[i], p)
        ensures !Exclusive(all, i, p)
      {
        var r :| 0 <= r < |all[i]| && p in all[i][r];
      }
    }
  }
}
