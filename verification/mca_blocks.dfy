/** update_mca_test_checks.py: which prefixes are kept for each text of a block, and how texts of
    equal length are broken down into lines. */
module McaBlocks {

  /** Prefixes, numbered in their sorted order. */
  type Prefix = nat

  type Text = seq<string>

  datatype Option<T> = None | Some(value: T)

  // ---- sorted lists of sets ------------------------------------------------------------------

  predicate Ascending(s: seq<Prefix>) {
    forall i, j :: 0 <= i < j < |s| ==> s[i] < s[j]
  }

  predicate Least(s: set<Prefix>, m: Prefix) {
    m in s && forall x :: x in s ==> m <= x
  }

  lemma {:induction false} HasLeast(s: set<Prefix>)
    requires s != {}
    ensures exists m :: Least(s, m)
  {
    var y :| y in s;
    var rest := s - {y};
    assert forall x :: x in s ==> x in rest || x == y;
    if rest == {} {
      assert Least(s, y);
    } else {
      HasLeast(rest);
      var m :| Least(rest, m);
      assert Least(s, if y <= m then y else m);
    }
  }

  lemma NoneAscending()
    ensures Ascending([])
  {
  }

  lemma AscendingMore(r: seq<Prefix>, m: Prefix)
    requires Ascending(r) && forall p :: p in r ==> p < m
    ensures Ascending(r + [m])
  {
    assert forall k :: 0 <= k < |r| ==> r[k] in r;
  }

  method Sorted(s: set<Prefix>) returns (r: seq<Prefix>)
    ensures Ascending(r) && forall p :: p in r <==> p in s
  {
    hide Ascending;
    NoneAscending();
    r := [];
    var rest := s;
    while rest != {}
      invariant Ascending(r) && rest <= s && (forall p :: p in s <==> p in r || p in rest)
      invariant forall p, q :: p in r && q in rest ==> p < q
      decreases |rest|
    {
      HasLeast(rest);
      var m :| Least(rest, m);
      AscendingMore(r, m);
      r, rest := r + [m], rest - {m};
    }
  }

  // ---- pruning -------------------------------------------------------------------------------

  /** For each text of a block, the prefixes of the runs that printed it. */
  type RunSets = seq<seq<set<Prefix>>>

  predicate OfRun(sets: seq<set<Prefix>>, p: Prefix) {
    exists r :: 0 <= r < |sets| && p in sets[r]
  }

  /** No run that printed another text has the prefix. */
  predicate Exclusive(all: RunSets, i: nat, p: Prefix) {
    forall j :: 0 <= j < |all| && j != i ==> !OfRun(all[j], p)
  }

  /** What is kept for text i: prefixes of runs that printed it and of none that printed another;
      and a run has a kept prefix if it has an exclusive one at all. */
  ghost predicate KeptOk(all: RunSets, i: nat, kept: seq<Prefix>)
    requires i < |all|
  {
    && Ascending(kept)
    && (forall p :: p in kept ==> OfRun(all[i], p) && Exclusive(all, i, p))
    && (forall r :: 0 <= r < |all[i]| && (exists p :: p in all[i][r] && Exclusive(all, i, p)) ==>
          exists p :: p in kept && p in all[i][r])
  }

  /** A prefix that would do for all runs of the text makes it the only one kept. */
  ghost predicate CommonKept(all: RunSets, i: nat, kept: seq<Prefix>)
    requires i < |all|
  {
    (exists p :: Exclusive(all, i, p) && forall r :: 0 <= r < |all[i]| ==> p in all[i][r]) ==> |kept| == 1
  }

  /** An exclusive prefix that would do for all runs of the text. */
  predicate InAllRuns(all: RunSets, i: nat, p: Prefix)
    requires i < |all|
  {
    Exclusive(all, i, p) && forall r :: 0 <= r < |all[i]| ==> p in all[i][r]
  }

  predicate ExclusiveIn(all: RunSets, i: nat, r: nat, p: Prefix)
    requires i < |all| && r < |all[i]|
  {
    p in all[i][r] && Exclusive(all, i, p)
  }

  /** The first exclusive prefix of the run. */
  ghost predicate FirstExclusive(all: RunSets, i: nat, r: nat, p: Prefix)
    requires i < |all| && r < |all[i]|
  {
    ExclusiveIn(all, i, r, p) && forall q :: ExclusiveIn(all, i, r, q) ==> p <= q
  }

  /** What the runs keep for text i: the first exclusive prefix that they all have, and if there is
      none, the first of each. */
  ghost predicate KeptPrefix(all: RunSets, i: nat, p: Prefix)
    requires i < |all|
  {
    if exists q :: InAllRuns(all, i, q) then InAllRuns(all, i, p) && forall q :: InAllRuns(all, i, q) ==> p <= q
    else exists r :: 0 <= r < |all[i]| && FirstExclusive(all, i, r, p)
  }

  ghost predicate KeepsJust(all: RunSets, i: nat, kept: seq<Prefix>)
    requires i < |all|
  {
    Ascending(kept) && forall p :: p in kept <==> KeptPrefix(all, i, p)
  }

  method UnionOf(sets: seq<set<Prefix>>) returns (u: set<Prefix>)
    ensures forall p :: p in u <==> OfRun(sets, p)
  {
    u := {};
    for r := 0 to |sets|
      invariant forall p :: p in u <==> exists k :: 0 <= k < r && p in sets[k]
    {
      u := u + sets[r];
    }
  }

  /** The prefixes that text i shares with other texts. */
  method OtherValues(all: RunSets, i: nat) returns (others: set<Prefix>)
    requires i < |all|
    ensures forall p :: p in others <==> !Exclusive(all, i, p)
  {
    others := {};
    for j := 0 to |all|
      invariant forall p :: p in others <==> exists k :: 0 <= k < j && k != i && OfRun(all[k], p)
    {
      if j != i {
        var u := UnionOf(all[j]);
        others := others + u;
      }
    }
  }

  /** The prefixes of each run that printed text i, without those of other texts. */
  ghost predicate Pruned(all: RunSets, i: nat, pruned: seq<set<Prefix>>)
    requires i < |all|
  {
    |pruned| == |all[i]| &&
    forall r, p {:trigger p in pruned[r]} :: 0 <= r < |pruned| ==> (p in pruned[r] <==> p in all[i][r] && Exclusive(all, i, p))
  }

  method PrunedSets(all: RunSets, i: nat) returns (pruned: seq<set<Prefix>>)
    requires i < |all|
    ensures Pruned(all, i, pruned)
  {
    var others := OtherValues(all, i);
    pruned := seq(|all[i]|, r requires 0 <= r < |all[i]| => all[i][r] - others);
  }

  method Intersection(sets: seq<set<Prefix>>) returns (common: set<Prefix>)
    requires sets != []
    ensures forall p :: p in common <==> forall k :: 0 <= k < |sets| ==> p in sets[k]
  {
    common := sets[0];
    for r := 0 to |sets|
      invariant forall p :: p in common <==> p in sets[0] && forall k :: 0 <= k < r ==> p in sets[k]
    {
      common := common * sets[r];
    }
  }

  /** The least elements of the sets that have one. */
  ghost predicate Firsts(sets: seq<set<Prefix>>, current: set<Prefix>) {
    forall p :: p in current <==> exists k :: 0 <= k < |sets| && Least(sets[k], p)
  }

  method FirstOfEach(sets: seq<set<Prefix>>) returns (current: set<Prefix>)
    ensures Firsts(sets, current)
  {
    current := {};
    for r := 0 to |sets|
      invariant forall p :: p in current <==> exists k :: 0 <= k < r && Least(sets[k], p)
    {
      var s := Sorted(sets[r]);
      if s != [] {
        SortedFirst(s, sets[r]);
        current := current + {s[0]};
      }
    }
  }

  lemma SortedFirst(r: seq<Prefix>, s: set<Prefix>)
    requires r != [] && Ascending(r) && forall p :: p in r <==> p in s
    ensures forall p :: Least(s, p) <==> p == r[0]
  {
    assert r[0] in r;
    forall p | p in s
      ensures r[0] <= p
    {
      var k :| 0 <= k < |r| && r[k] == p;
    }
  }

  /** What is kept for one text; none if nothing captures it. */
  method PruneText(all: RunSets, i: nat) returns (kept: seq<Prefix>)
    requires i < |all| && all[i] != []
    ensures KeepsJust(all, i, kept)
    ensures KeptOk(all, i, kept) && CommonKept(all, i, kept)
    ensures kept == [] <==> forall p :: OfRun(all[i], p) ==> !Exclusive(all, i, p)
  {
    hide Pruned, Firsts, KeptOk, CommonKept, Exclusive, OfRun, KeepsJust;
    var pruned := PrunedSets(all, i);
    var common := Intersection(pruned);
    var sets := pruned;
    if common != {} {
      sets := [common];
    }
    var current := FirstOfEach(sets);
    kept := Sorted(current);
    if common != {} {
      OneKept(all, i, pruned, common, current, kept);
    } else {
      ManyKept(all, i, pruned, common, current, kept);
    }
    JustIsOk(all, i, kept);
  }

  lemma OneKept(all: RunSets, i: nat, pruned: seq<set<Prefix>>, common: set<Prefix>, current: set<Prefix>, kept: seq<Prefix>)
    requires i < |all| && all[i] != [] && Pruned(all, i, pruned)
    requires (forall p :: p in common <==> forall k :: 0 <= k < |pruned| ==> p in pruned[k]) && common != {}
    requires Firsts([common], current) && Ascending(kept) && forall p :: p in kept <==> p in current
    ensures KeepsJust(all, i, kept)
  {
    hide Exclusive, Ascending;
    CommonInAll(all, i, pruned, common);
    var c :| c in common;
    assert InAllRuns(all, i, c);
    forall p
      ensures p in current <==> KeptPrefix(all, i, p)
    {
      assert p in current <==> Least([common][0], p);
    }
  }

  lemma CommonInAll(all: RunSets, i: nat, pruned: seq<set<Prefix>>, common: set<Prefix>)
    requires i < |all| && all[i] != [] && Pruned(all, i, pruned)
    requires forall p :: p in common <==> forall k :: 0 <= k < |pruned| ==> p in pruned[k]
    ensures forall p :: p in common <==> InAllRuns(all, i, p)
  {
    hide Exclusive;
    forall p
      ensures p in common <==> InAllRuns(all, i, p)
    {
      if p in common {
        assert p in pruned[0];
        forall r | 0 <= r < |all[i]|
          ensures p in all[i][r]
        {
          assert p in pruned[r];
        }
      }
    }
  }

  lemma ManyKept(all: RunSets, i: nat, pruned: seq<set<Prefix>>, common: set<Prefix>, current: set<Prefix>, kept: seq<Prefix>)
    requires i < |all| && all[i] != [] && Pruned(all, i, pruned)
    requires (forall p :: p in common <==> forall k :: 0 <= k < |pruned| ==> p in pruned[k]) && common == {}
    requires Firsts(pruned, current) && Ascending(kept) && forall p :: p in kept <==> p in current
    ensures KeepsJust(all, i, kept)
  {
    hide Exclusive, Ascending;
    CommonInAll(all, i, pruned, common);
    forall p, r | 0 <= r < |pruned|
      ensures Least(pruned[r], p) <==> FirstExclusive(all, i, r, p)
    {
      assert forall q :: q in pruned[r] <==> ExclusiveIn(all, i, r, q);
    }
  }

  lemma FirstExists(all: RunSets, i: nat, r: nat, p: Prefix)
    requires i < |all| && r < |all[i]| && ExclusiveIn(all, i, r, p)
    ensures exists q :: FirstExclusive(all, i, r, q)
  {
    var s := set q | q in all[i][r] && Exclusive(all, i, q);
    assert p in s;
    HasLeast(s);
    var q :| Least(s, q);
    assert forall x :: ExclusiveIn(all, i, r, x) <==> x in s;
    assert FirstExclusive(all, i, r, q);
  }

  lemma FirstInAllExists(all: RunSets, i: nat, p: Prefix)
    requires i < |all| && all[i] != [] && InAllRuns(all, i, p)
    ensures exists q :: KeptPrefix(all, i, q) && InAllRuns(all, i, q)
  {
    hide Exclusive;
    var s := set q | q in all[i][0] && InAllRuns(all, i, q);
    assert p in s;
    HasLeast(s);
    var q :| Least(s, q);
    assert forall x :: InAllRuns(all, i, x) <==> x in s;
    assert KeptPrefix(all, i, q);
  }

  lemma KeptIsExclusive(all: RunSets, i: nat, p: Prefix)
    requires i < |all| && all[i] != [] && KeptPrefix(all, i, p)
    ensures OfRun(all[i], p) && Exclusive(all, i, p)
  {
    hide Exclusive;
    if InAllRuns(all, i, p) {
      assert p in all[i][0];
    }
  }

  /** A run with an exclusive prefix has a kept one. */
  lemma RunHasKept(all: RunSets, i: nat, r: nat, p: Prefix)
    requires i < |all| && r < |all[i]| && ExclusiveIn(all, i, r, p)
    ensures exists q :: KeptPrefix(all, i, q) && q in all[i][r]
  {
    hide Exclusive;
    if c :| InAllRuns(all, i, c) {
      FirstInAllExists(all, i, c);
      var q :| KeptPrefix(all, i, q) && InAllRuns(all, i, q);
    } else {
      FirstExists(all, i, r, p);
      var q :| FirstExclusive(all, i, r, q);
      assert KeptPrefix(all, i, q);
    }
  }

  lemma JustIsOk(all: RunSets, i: nat, kept: seq<Prefix>)
    requires i < |all| && all[i] != [] && KeepsJust(all, i, kept)
    ensures KeptOk(all, i, kept) && CommonKept(all, i, kept)
    ensures kept == [] <==> forall p :: OfRun(all[i], p) ==> !Exclusive(all, i, p)
  {
    hide KeptPrefix, Exclusive;
    forall p | p in kept
      ensures OfRun(all[i], p) && Exclusive(all, i, p)
    {
      KeptIsExclusive(all, i, p);
    }
    forall r | 0 <= r < |all[i]| && exists p :: p in all[i][r] && Exclusive(all, i, p)
      ensures exists p :: p in kept && p in all[i][r]
    {
      var p :| p in all[i][r] && Exclusive(all, i, p);
      RunHasKept(all, i, r, p);
    }
    if p :| Exclusive(all, i, p) && forall r :: 0 <= r < |all[i]| ==> p in all[i][r] {
      JustOne(all, i, kept, p);
    }
    if kept != [] {
      assert kept[0] in kept;
    }
  }

  lemma JustOne(all: RunSets, i: nat, kept: seq<Prefix>, p: Prefix)
    requires i < |all| && all[i] != [] && KeepsJust(all, i, kept) && InAllRuns(all, i, p)
    ensures |kept| == 1
  {
    hide Exclusive;
    FirstInAllExists(all, i, p);
    var q :| KeptPrefix(all, i, q) && InAllRuns(all, i, q);
    OneListed(kept, q);
  }

  lemma OneListed(r: seq<Prefix>, q: Prefix)
    requires Ascending(r) && forall p :: p in r <==> p in {q}
    ensures r == [q]
  {
    assert q in r;
    assert r[0] in r && r[|r| - 1] in r;
  }

  /** All texts of one block number. A text that no prefix captures is an error. */
  method PruneBlock(texts: seq<Text>, all: RunSets) returns (r: Option<seq<seq<Prefix>>>)
    requires |texts| == |all| && forall i :: 0 <= i < |all| ==> all[i] != []
    ensures r.None? <==> exists i :: 0 <= i < |all| && texts[i] != [] && forall p :: OfRun(all[i], p) ==> !Exclusive(all, i, p)
    ensures r.Some? ==> |r.value| == |all| && forall i :: 0 <= i < |all| ==> KeepsJust(all, i, r.value[i])
    ensures r.Some? ==> forall i :: 0 <= i < |all| ==> KeptOk(all, i, r.value[i]) && CommonKept(all, i, r.value[i])
  {
    hide KeptOk, CommonKept, KeepsJust;
    var block: seq<seq<Prefix>> := [];
    for i := 0 to |all|
      invariant |block| == i
      invariant forall j :: 0 <= j < i ==> KeptOk(all, j, block[j]) && CommonKept(all, j, block[j]) && KeepsJust(all, j, block[j])
      invariant forall j :: 0 <= j < i && texts[j] != [] ==> exists p :: OfRun(all[j], p) && Exclusive(all, j, p)
    {
      var kept := PruneText(all, i);
      if texts[i] != [] && kept == [] {
        return None;
      }
      block := block + [kept];
    }
    return Some(block);
  }
}
