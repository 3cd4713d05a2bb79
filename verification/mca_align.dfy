/** update_mca_test_checks.py: inserting empty blocks until the blocks that several lists share
    stand at the same places. */
module McaAlign {

  type Block = string

  /** The block lists, in the order of their keys. */
  type Lists = seq<seq<Block>>

  function NonEmpty(blocks: seq<Block>): seq<Block> {
    if blocks == [] then []
    else (if blocks[0] != "" then [blocks[0]] else []) + NonEmpty(blocks[1..])
  }

  /** list.index: the place of the first such block. */
  function IndexOf(blocks: seq<Block>, b: Block): (i: nat)
    requires b in blocks
    ensures i < |blocks| && blocks[i] == b && forall j :: 0 <= j < i ==> blocks[j] != b
  {
    if blocks[0] == b then 0 else
      var i := IndexOf(blocks[1..], b);
      assert forall j :: 0 < j < i + 1 ==> blocks[j] == blocks[1..][j - 1];
      i + 1
  }

  /** A non-empty block right behind a non-empty block has not been moved yet. */
  predicate Unanchored(blocks: seq<Block>, i: nat) {
    0 < i < |blocks| && blocks[i] != "" && blocks[i - 1] != ""
  }

  function CountUnanchored(blocks: seq<Block>): nat {
    if |blocks| < 2 then 0
    else (if Unanchored(blocks, |blocks| - 1) then 1 else 0) + CountUnanchored(blocks[..|blocks| - 1])
  }

  function Total(lists: Lists): nat {
    if lists == [] then 0 else CountUnanchored(lists[0]) + Total(lists[1..])
  }

  /** The recorded index of a block; a defaultdict records 0. */
  function Recorded(farthest: map<Block, nat>, b: Block): nat {
    if b in farthest then farthest[b] else 0
  }

  /** No recorded index is short of the first place of its block in any of the lists. */
  ghost predicate Farthest(lists: Lists, farthest: map<Block, nat>) {
    forall k :: 0 <= k < |lists| ==> FarthestIn(lists[k], farthest)
  }

  ghost predicate FarthestIn(blocks: seq<Block>, farthest: map<Block, nat>) {
    forall b :: b in blocks && b != "" ==> IndexOf(blocks, b) <= Recorded(farthest, b)
  }

  ghost predicate Grown(a: map<Block, nat>, b: map<Block, nat>) {
    forall x :: Recorded(a, x) <= Recorded(b, x)
  }

  /** A block that was not moved is before its recorded index. */
  predicate Short(blocks: seq<Block>, farthest: map<Block, nat>, i: nat) {
    Unanchored(blocks, i) && i < Recorded(farthest, blocks[i])
  }

  /** Every block that was not moved is at its recorded index or past it. */
  ghost predicate Settled(blocks: seq<Block>, farthest: map<Block, nat>) {
    forall i :: 0 <= i < |blocks| ==> !Short(blocks, farthest, i)
  }

  /** The lists hold the same blocks as before, with empty blocks added. */
  ghost predicate SameBlocks(a: Lists, b: Lists) {
    |a| == |b| && forall k :: 0 <= k < |a| ==> NonEmpty(a[k]) == NonEmpty(b[k])
  }

  // ---- inserting -----------------------------------------------------------------------------

  function Insert(blocks: seq<Block>, i: nat): seq<Block>
    requires i <= |blocks|
  {
    blocks[..i] + [""] + blocks[i..]
  }

  function Empties(n: nat): seq<Block> {
    seq(n, _ => "")
  }

  /** The block at i moved to index j by empty blocks before it. */
  function MovedTo(blocks: seq<Block>, i: nat, j: nat): seq<Block>
    requires i <= |blocks| && i <= j
  {
    blocks[..i] + Empties(j - i) + blocks[i..]
  }

  lemma MovedOn(blocks: seq<Block>, i: nat, j: nat)
    requires i <= |blocks| && i <= j
    ensures j <= |MovedTo(blocks, i, j)|
    ensures Insert(MovedTo(blocks, i, j), j) == MovedTo(blocks, i, j + 1)
    ensures i < |blocks| ==> MovedTo(blocks, i, j)[j] == blocks[i]
  {
    var m := MovedTo(blocks, i, j);
    assert m[..j] == blocks[..i] + Empties(j - i);
    assert m[j..] == blocks[i..];
    assert Empties(j - i) + [""] == Empties(j + 1 - i);
  }

  /** Block i of list k is the first that is short of its recorded index. */
  ghost predicate FirstShort(lists: Lists, farthest: map<Block, nat>, k: nat, i: nat) {
    && k < |lists| && Short(lists[k], farthest, i)
    && (forall j :: 0 <= j < i ==> !Short(lists[k], farthest, j))
    && (forall l :: 0 <= l < k ==> Settled(lists[l], farthest))
  }

  lemma {:induction false} NonEmptyConcat(a: seq<Block>, b: seq<Block>)
    ensures NonEmpty(a + b) == NonEmpty(a) + NonEmpty(b)
  {
    if a == [] {
      assert a + b == b;
    } else {
      assert (a + b)[1..] == a[1..] + b;
      NonEmptyConcat(a[1..], b);
    }
  }

  lemma InsertKeeps(blocks: seq<Block>, i: nat)
    requires i <= |blocks|
    ensures NonEmpty(Insert(blocks, i)) == NonEmpty(blocks)
  {
    hide NonEmpty;
    var a, b := blocks[..i], blocks[i..];
    NonEmptyConcat(a, [""] + b);
    NonEmptyConcat([""], b);
    NonEmptyConcat(a, b);
    EmptyBlock();
    assert a + ([""] + b) == Insert(blocks, i);
    assert a + b == blocks;
  }

  lemma EmptyBlock()
    ensures NonEmpty([""]) == []
  {
  }

  /** Of two lists put together, the count is that of the parts and of the seam. */
  lemma {:induction false} CountConcat(a: seq<Block>, b: seq<Block>)
    ensures CountUnanchored(a + b) == CountUnanchored(a) + CountUnanchored(b) +
              (if a != [] && b != [] && a[|a| - 1] != "" && b[0] != "" then 1 else 0)
  {
    if b == [] {
      assert a + b == a;
    } else if a == [] {
      assert a + b == b;
    } else {
      var s, rest := a + b, b[..|b| - 1];
      assert s[..|s| - 1] == a + rest;
      CountConcat(a, rest);
      if |b| == 1 {
        assert rest == [];
      }
    }
  }

  lemma EmptyCount()
    ensures CountUnanchored([""]) == 0
  {
  }

  /** The first empty block before an unanchored block anchors it; more of them change nothing. */
  lemma InsertCounts(blocks: seq<Block>, i: nat)
    requires 0 < i < |blocks| && blocks[i] != ""
    ensures CountUnanchored(Insert(blocks, i)) == CountUnanchored(blocks) - (if blocks[i - 1] != "" then 1 else 0)
  {
    hide CountUnanchored;
    var a, b := blocks[..i], blocks[i..];
    assert a + b == blocks;
    EmptyCount();
    CountConcat(a, b);
    CountConcat(a, [""] + b);
    CountConcat([""], b);
    assert a + ([""] + b) == Insert(blocks, i);
  }

  lemma {:induction false} TotalUpdate(lists: Lists, k: nat, blocks: seq<Block>)
    requires k < |lists|
    ensures Total(lists[k := blocks]) == Total(lists) - CountUnanchored(lists[k]) + CountUnanchored(blocks)
  {
    if k == 0 {
      assert lists[k := blocks][1..] == lists[1..];
    } else {
      assert lists[k := blocks][1..] == lists[1..][k - 1 := blocks];
      TotalUpdate(lists[1..], k - 1, blocks);
    }
  }

  // ---- the aligner ---------------------------------------------------------------------------

  lemma FarthestGrows(lists: Lists, farthest: map<Block, nat>, b: Block, index: nat)
    requires Farthest(lists, farthest) && Recorded(farthest, b) <= index
    ensures Farthest(lists, farthest[b := index]) && Grown(farthest, farthest[b := index])
  {
    forall k | 0 <= k < |lists|
      ensures FarthestIn(lists[k], farthest[b := index])
    {
      assert FarthestIn(lists[k], farthest);
    }
  }

  predicate Placed(lists: Lists, k: nat, b: Block, index: nat)
    requires k < |lists|
  {
    b in lists[k] && IndexOf(lists[k], b) == index
  }

  /** A record that grew is a place that the block has in some list. */
  ghost predicate Attained(lists: Lists, before: map<Block, nat>, farthest: map<Block, nat>) {
    forall b :: Recorded(farthest, b) > Recorded(before, b) ==>
      exists k :: 0 <= k < |lists| && Placed(lists, k, b, Recorded(farthest, b))
  }

  class Aligner {
    var lists: Lists
    var farthest: map<Block, nat>

    constructor (lists: Lists)
      ensures this.lists == lists && farthest == map[]
    {
      this.lists, farthest := lists, map[];
    }

    /** Farthest block analysis. Records only grow, each to a place that its block has in some list. */
    method RecordFarthest()
      modifies this`farthest
      ensures Farthest(lists, farthest)
      ensures Grown(old(farthest), farthest) && Attained(lists, old(farthest), farthest)
    {
      for k := 0 to |lists|
        invariant Farthest(lists[..k], farthest)
        invariant Grown(old(farthest), farthest) && Attained(lists, old(farthest), farthest)
      {
        var blocks := lists[k];
        for i := 0 to |blocks|
          invariant Farthest(lists[..k], farthest)
          invariant Grown(old(farthest), farthest) && Attained(lists, old(farthest), farthest)
          invariant forall b :: b in blocks[..i] && b != "" ==> IndexOf(blocks, b) <= Recorded(farthest, b)
        {
          if blocks[i] == "" {
            continue;
          }
          var index := IndexOf(blocks, blocks[i]);
          if index > Recorded(farthest, blocks[i]) {
            FarthestGrows(lists[..k], farthest, blocks[i], index);
            assert Placed(lists, k, blocks[i], index);
            farthest := farthest[blocks[i] := index];
          }
        }
        assert blocks[..|blocks|] == blocks;
      }
      assert lists[..|lists|] == lists;
    }

    /** _align_matching_blocks. */
    method AlignMatchingBlocks() returns (changed: bool)
      modifies this
      ensures Attained(old(lists), old(farthest), farthest)
      ensures SameBlocks(old(lists), lists)
      ensures changed ==> Total(lists) < Total(old(lists))
      ensures changed ==> exists k: nat, i: nat :: FirstShort(old(lists), farthest, k, i) &&
                            lists == old(lists)[k := MovedTo(old(lists)[k], i, Recorded(farthest, old(lists)[k][i]))]
      ensures Farthest(old(lists), farthest)
      ensures !changed ==> lists == old(lists) && Farthest(lists, farthest) &&
                           forall k :: 0 <= k < |lists| ==> Settled(lists[k], farthest)
      ensures Grown(old(farthest), farthest)
    {
      RecordFarthest();
      for k := 0 to |lists|
        invariant lists == old(lists) && Farthest(lists, farthest)
        invariant Grown(old(farthest), farthest) && Attained(lists, old(farthest), farthest)
        invariant forall l :: 0 <= l < k ==> Settled(lists[l], farthest)
      {
        var i := 0;
        while i < |lists[k]|
          invariant 0 <= i <= |lists[k]| && lists == old(lists) && Farthest(lists, farthest)
          invariant Grown(old(farthest), farthest) && Attained(lists, old(farthest), farthest)
          invariant forall j :: 0 <= j < i ==> !Short(lists[k], farthest, j)
        {
          if lists[k][i] != "" && i > 0 && lists[k][i - 1] != "" && i < Recorded(farthest, lists[k][i]) {
            assert FirstShort(lists, farthest, k, i);
            Shunt(k, i);
            return true;
          }
          i := i + 1;
        }
      }
      return false;
    }

    /** The loop that inserts empty blocks before one block. */
    method Shunt(k: nat, i: nat)
      requires k < |lists| && Short(lists[k], farthest, i)
      modifies this`lists
      ensures lists == old(lists)[k := MovedTo(old(lists)[k], i, Recorded(farthest, old(lists)[k][i]))]
      ensures SameBlocks(old(lists), lists) && Total(lists) < Total(old(lists))
    {
      hide CountUnanchored, NonEmpty, Total;
      var block, index := lists[k][i], i;
      ghost var blocks := lists[k];
      assert MovedTo(blocks, i, i) == blocks;
      while index < Recorded(farthest, block)
        invariant i <= index <= Recorded(farthest, block) && |lists| == |old(lists)|
        invariant lists == old(lists)[k := lists[k]] && lists[k] == MovedTo(blocks, i, index)
        invariant NonEmpty(lists[k]) == NonEmpty(blocks)
        invariant if index == i then lists[k] == blocks else CountUnanchored(lists[k]) < CountUnanchored(blocks)
        decreases Recorded(farthest, block) - index
      {
        MovedOn(blocks, i, index);
        if index > i {
          MovedOn(blocks, i, index - 1);
        }
        InsertKeeps(lists[k], index);
        InsertCounts(lists[k], index);
        lists := lists[k := Insert(lists[k], index)];
        index := index + 1;
      }
      TotalUpdate(old(lists), k, lists[k]);
    }

    /** The loop in _get_block_infos: it comes to an end, by moves of first short blocks alone. Then no
        unmoved block stands before the first place of the same block in any list; and the lists have not
        changed if and only if that was so already, and none stood before an index recorded earlier. */
    method AlignAll() returns (ghost steps: seq<Step>)
      modifies this
      ensures SameBlocks(old(lists), lists) && Farthest(lists, farthest)
      ensures forall k :: 0 <= k < |lists| ==> Settled(lists[k], farthest)
      ensures AllPlaced(lists)
      ensures lists == old(lists) <==> AllPlaced(old(lists)) && forall k :: 0 <= k < |lists| ==> Settled(old(lists)[k], old(farthest))
      ensures Steps(steps, old(farthest), old(lists), lists)
    {
      hide SameBlocks, Farthest, Settled, AllPlaced, Attained, Total, MovedTo;
      SameRefl(lists);
      var madeChanges := true;
      steps := [];
      while madeChanges
        invariant SameBlocks(old(lists), lists)
        invariant !madeChanges ==> Farthest(lists, farthest) && forall k :: 0 <= k < |lists| ==> Settled(lists[k], farthest)
        invariant Steps(steps, old(farthest), old(lists), lists)
        invariant madeChanges ==> farthest == LastRecord(steps, old(farthest))
        invariant steps == [] ==> lists == old(lists) && (madeChanges ==> farthest == old(farthest))
        invariant |lists| == |old(lists)| && Grown(old(farthest), farthest)
        invariant steps != [] ==> Total(lists) < Total(old(lists)) &&
                                  !(AllPlaced(old(lists)) && forall k :: 0 <= k < |lists| ==> Settled(old(lists)[k], old(farthest)))
        decreases Total(lists) + if madeChanges then 1 else 0
      {
        ghost var last, record := lists, farthest;
        madeChanges := AlignMatchingBlocks();
        SameTrans(old(lists), last, lists);
        if madeChanges {
          ghost var k: nat, i: nat :| FirstShort(last, farthest, k, i) &&
                                      lists == last[k := MovedTo(last[k], i, Recorded(farthest, last[k][i]))];
          if steps == [] {
            ShortNotPlaced(last, record, farthest, k, i);
          }
          steps := steps + [Step(last, farthest, k, i)];
          assert steps[..|steps| - 1] + [Step(last, farthest, k, i)] == steps;
        }
      }
      SettledPlaced(lists, farthest);
      forall k | 0 <= k < |lists|
        ensures Settled(lists[k], old(farthest))
      {
        SettledBefore(lists[k], old(farthest), farthest);
      }
    }
  }

  // ---- the whole alignment -------------------------------------------------------------------

  /** Block i of list k, the first short one, was moved to its recorded index. */
  datatype Step = Step(lists: Lists, farthest: map<Block, nat>, k: nat, i: nat)

  function After(s: Step): Lists
    requires s.k < |s.lists| && s.i < |s.lists[s.k]| && s.i <= Recorded(s.farthest, s.lists[s.k][s.i])
  {
    s.lists[s.k := MovedTo(s.lists[s.k], s.i, Recorded(s.farthest, s.lists[s.k][s.i]))]
  }

  function LastRecord(steps: seq<Step>, record: map<Block, nat>): map<Block, nat> {
    if steps == [] then record else steps[|steps| - 1].farthest
  }

  /** The steps lead from the one to the other, each by what has been recorded up to it. */
  ghost predicate Steps(steps: seq<Step>, record: map<Block, nat>, first: Lists, last: Lists)
    decreases |steps|
  {
    if steps == [] then first == last
    else
      var before, s := steps[..|steps| - 1], steps[|steps| - 1];
      && Steps(before, record, first, s.lists)
      && Farthest(s.lists, s.farthest) && Attained(s.lists, LastRecord(before, record), s.farthest)
      && FirstShort(s.lists, s.farthest, s.k, s.i) && last == After(s)
  }

  /** No block right behind another one stands before the first place of the same block in any list. */
  ghost predicate AllPlaced(lists: Lists) {
    forall k, i, l ::
      0 <= k < |lists| && 0 < i < |lists[k]| && lists[k][i] != "" && lists[k][i - 1] != "" &&
      0 <= l < |lists| && lists[k][i] in lists[l] ==>
        IndexOf(lists[l], lists[k][i]) <= i
  }

  lemma SameRefl(lists: Lists)
    ensures SameBlocks(lists, lists)
  {
  }

  lemma SameTrans(a: Lists, b: Lists, c: Lists)
    requires SameBlocks(a, b) && SameBlocks(b, c)
    ensures SameBlocks(a, c)
  {
  }

  lemma SettledPlaced(lists: Lists, farthest: map<Block, nat>)
    requires Farthest(lists, farthest) && forall k :: 0 <= k < |lists| ==> Settled(lists[k], farthest)
    ensures AllPlaced(lists)
  {
    forall k, i, l | 0 <= k < |lists| && 0 < i < |lists[k]| && lists[k][i] != "" && lists[k][i - 1] != "" &&
                     0 <= l < |lists| && lists[k][i] in lists[l]
      ensures IndexOf(lists[l], lists[k][i]) <= i
    {
      assert !Short(lists[k], farthest, i);
      assert FarthestIn(lists[l], farthest);
    }
  }

  lemma SettledBefore(blocks: seq<Block>, before: map<Block, nat>, farthest: map<Block, nat>)
    requires Settled(blocks, farthest) && Grown(before, farthest)
    ensures Settled(blocks, before)
  {
    forall i | 0 <= i < |blocks|
      ensures !Short(blocks, before, i)
    {
      assert !Short(blocks, farthest, i);
    }
  }

  /** A short block is before the place that was recorded for it, now or earlier. */
  lemma ShortNotPlaced(lists: Lists, before: map<Block, nat>, farthest: map<Block, nat>, k: nat, i: nat)
    requires FirstShort(lists, farthest, k, i) && Attained(lists, before, farthest)
    ensures !(AllPlaced(lists) && forall l :: 0 <= l < |lists| ==> Settled(lists[l], before))
  {
    var b := lists[k][i];
    if Recorded(farthest, b) > Recorded(before, b) {
      var l :| 0 <= l < |lists| && Placed(lists, l, b, Recorded(farthest, b));
      assert IndexOf(lists[l], b) > i;
    } else {
      assert Short(lists[k], before, i);
    }
  }
}
