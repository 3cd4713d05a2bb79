/** The emitted function as IR must be, over all its blocks, reached or not: every block ends with a
    branch to blocks that exist or a return, and every phi names each predecessor of its block once
    and no other block. */
module BrainFWellFormed {
  import opened BrainFIR
  import opened BrainFLayout

  predicate Goes(t: Term, l: Label) {
    match t
    case Br(to) => l == to
    case CondBr(_, yes, no) => l == yes || l == no
    case _ => false
  }

  predicate Precedes(B: seq<Block>, from: Label, l: Label) {
    from < |B| && Goes(B[from].term, l)
  }

  predicate Names(p: Phi, from: Label) {
    exists i :: 0 <= i < |p.incoming| && p.incoming[i].from == from
  }

  predicate NamesOnce(p: Phi) {
    forall i, j :: 0 <= i < j < |p.incoming| ==> p.incoming[i].from != p.incoming[j].from
  }

  ghost predicate PhiFits(B: seq<Block>, l: Label, p: Phi) {
    NamesOnce(p) && forall from: Label :: Names(p, from) <==> Precedes(B, from, l)
  }

  ghost predicate PhisFit(B: seq<Block>, l: Label)
    requires l < |B|
  {
    forall p :: p in B[l].phis ==> PhiFits(B, l, p)
  }

  ghost predicate TargetsExist(B: seq<Block>, l: Label)
    requires l < |B|
  {
    forall to: Label :: Goes(B[l].term, to) ==> to < |B|
  }

  ghost predicate WellFormed(B: seq<Block>) {
    forall l :: 0 <= l < |B| ==> B[l].term != NoTerm && TargetsExist(B, l) && PhisFit(B, l)
  }

  /** While the compiler writes, the current block and the test blocks of the open loops have no
      terminator yet. */
  ghost predicate Unfinished(bounds: bool, B: seq<Block>, cur: Label, tests: set<Label>) {
    && cur < |B| && B[cur].term == NoTerm && cur !in tests
    && (forall t :: t in tests ==> t < |B| && B[t].term == NoTerm)
    && (forall l :: 0 <= l < |B| ==> l == cur || l in tests || B[l].term != NoTerm)
    && END < |B| && B[END].phis == [] && (bounds ==> ABERROR < |B| && B[ABERROR].phis == [])
    && (forall l :: 0 <= l < |B| ==> TargetsExist(B, l))
    && (forall l :: 0 <= l < |B| ==> PhisFit(B, l))
  }

  /** A block's phis stay right while its predecessors are the same. */
  lemma PhisStay(B: seq<Block>, B': seq<Block>, l: Label)
    requires l < |B| && l < |B'| && PhisFit(B, l) && B'[l].phis == B[l].phis
    requires B[l].phis == [] || forall from: Label :: Precedes(B', from, l) <==> Precedes(B, from, l)
    ensures PhisFit(B', l)
  {
    forall p | p in B'[l].phis
      ensures PhiFits(B', l, p)
    {
      assert PhiFits(B, l, p);
    }
  }

  lemma CodeUnfinished(bounds: bool, B: seq<Block>, cur: Label, tests: set<Label>, code: seq<Instr>)
    requires Unfinished(bounds, B, cur, tests)
    ensures Unfinished(bounds, Appended(B, cur, code), cur, tests)
  {
    hide PhisFit;
    var B' := Appended(B, cur, code);
    assert forall l :: 0 <= l < |B| ==> B'[l].phis == B[l].phis && B'[l].term == B[l].term;
    forall l | 0 <= l < |B'|
      ensures TargetsExist(B', l) && PhisFit(B', l)
    {
      assert TargetsExist(B, l);
      PhisStay(B, B', l);
    }
  }

  lemma CheckedUnfinished(B: seq<Block>, cur: Label, tests: set<Label>, h: Reg, r: Reg, v: int)
    requires Unfinished(true, B, cur, tests)
    ensures Unfinished(true, Checked(B, cur, h, r, v), |B|, tests)
  {
    hide PhisFit;
    var B' := Checked(B, cur, h, r, v);
    assert forall l :: 0 <= l < |B| ==> B'[l].phis == B[l].phis && (l != cur ==> B'[l] == B[l]);
    forall l | 0 <= l < |B|
      ensures TargetsExist(B', l) && PhisFit(B', l)
    {
      assert TargetsExist(B, l);
      forall from: Label | B[l].phis != []
        ensures Precedes(B', from, l) <==> Precedes(B, from, l)
      {
      }
      PhisStay(B, B', l);
    }
    NoPhis(B', |B|);
  }

  lemma NoPhis(B: seq<Block>, l: Label)
    requires l < |B| && B[l].phis == []
    ensures PhisFit(B, l)
  {
  }

  lemma TestsExist(bounds: bool, B: seq<Block>, cur: Label, tests: set<Label>)
    requires Unfinished(bounds, B, cur, tests)
    ensures cur < |B| && forall t :: t in tests ==> t < |B|
  {
  }

  /** At `[`. */
  lemma OpenUnfinished(bounds: bool, B: seq<Block>, B': seq<Block>, cur: Label, tests: set<Label>, h: Reg, r: Reg)
    requires Unfinished(bounds, B, cur, tests)
    requires B' == B[cur := B[cur].(term := Br(|B|))] + [Block([Phi(r, [Incoming(h, cur)])], [], NoTerm), Block([], [], NoTerm)]
    ensures Unfinished(bounds, B', |B| + 1, tests + {|B|})
  {
    hide PhisFit;
    assert forall l :: 0 <= l < |B| ==> B'[l].phis == B[l].phis && (l != cur ==> B'[l] == B[l]);
    forall l | 0 <= l < |B|
      ensures TargetsExist(B', l) && PhisFit(B', l)
    {
      assert TargetsExist(B, l);
      PhisStay(B, B', l);
    }
    NoPhis(B', |B| + 1);
    NoneBeyond(B);
    OnePhi(B', |B|, Phi(r, [Incoming(h, cur)])) by {
      assert forall from: Label :: Precedes(B', from, |B|) ==> from == cur || Precedes(B, from, |B|);
      assert Phi(r, [Incoming(h, cur)]).incoming[0].from == cur;
    }
  }

  lemma NoneBeyond(B: seq<Block>)
    requires forall l :: 0 <= l < |B| ==> TargetsExist(B, l)
    ensures forall from: Label :: !Precedes(B, from, |B|)
  {
    forall from: Label
      ensures !Precedes(B, from, |B|)
    {
      if from < |B| {
        assert TargetsExist(B, from);
      }
    }
  }

  lemma OnePhi(B: seq<Block>, l: Label, p: Phi)
    requires l < |B| && B[l].phis == [p]
    requires NamesOnce(p) && forall from: Label :: Names(p, from) <==> Precedes(B, from, l)
    ensures PhisFit(B, l)
  {
  }

  /** At `]`: b opened the loop. */
  lemma CloseUnfinished(bounds: bool, B: seq<Block>, B': seq<Block>, cur: Label, tests: set<Label>, test: Label, first: Incoming,
                        phi: Reg, body: Label, h: Reg, r: Reg, p: Point)
    requires Unfinished(bounds, B, cur, tests) && test in tests && body < |B| && B[body].phis == []
    requires B[test] == Block([Phi(phi, [first])], [], NoTerm) && p.h == first.value && p.b == first.from && p.r == phi
    requires B' == B[cur := B[cur].(term := Br(test))]
                    [test := TestBlock(p, Point(cur, |B[cur].body|, h, r), |B|, body)]
                   + [Block([Phi(r + 2, [Incoming(phi, test)])], [], NoTerm)]
    ensures Unfinished(bounds, B', |B|, tests - {test})
  {
    hide PhisFit;
    assert forall l :: 0 <= l < |B| && l != test ==> B'[l].phis == B[l].phis && (l != cur ==> B'[l] == B[l]);
    forall l | 0 <= l < |B|
      ensures TargetsExist(B', l)
    {
      assert TargetsExist(B, l);
    }
    forall l | 0 <= l < |B| && l != test
      ensures PhisFit(B', l)
    {
      PhisStay(B, B', l);
    }
    ClosedTest(B, B', cur, tests, test, first, phi, h);
    NoneBeyond(B);
    OnePhi(B', |B|, Phi(r + 2, [Incoming(phi, test)])) by {
      assert forall from: Label :: Precedes(B', from, |B|) ==> from == test || Precedes(B, from, |B|);
      assert Phi(r + 2, [Incoming(phi, test)]).incoming[0].from == test;
    }
  }

  lemma ClosedTest(B: seq<Block>, B': seq<Block>, cur: Label, tests: set<Label>, test: Label, first: Incoming, phi: Reg, h: Reg)
    requires cur < |B| < |B'| && test < |B| && cur != test && B[cur].term == NoTerm && B[test].term == NoTerm && PhisFit(B, test)
    requires B[test].phis == [Phi(phi, [first])] && B'[test].phis == [Phi(phi, [first, Incoming(h, cur)])]
    requires B'[cur].term == Br(test) && !Goes(B'[test].term, test)
    requires forall l :: 0 <= l < |B| && l != test && l != cur ==> B'[l] == B[l]
    requires forall l :: |B| <= l < |B'| ==> B'[l].term == NoTerm
    ensures PhisFit(B', test)
  {
    var p, q := Phi(phi, [first]), Phi(phi, [first, Incoming(h, cur)]);
    assert PhiFits(B, test, p);
    assert p.incoming[0].from == first.from && Names(p, first.from) && Precedes(B, first.from, test);
    assert q.incoming[0].from == first.from && q.incoming[1].from == cur;
    forall from
      ensures Names(q, from) <==> Precedes(B', from, test)
    {
      assert Names(q, from) <==> Names(p, from) || from == cur;
      assert Precedes(B', from, test) <==> Precedes(B, from, test) || from == cur;
    }
    OnePhi(B', test, q);
  }

  /** At the end of the text. */
  lemma EndWellFormed(bounds: bool, B: seq<Block>, cur: Label)
    requires Unfinished(bounds, B, cur, {})
    ensures WellFormed(B[cur := B[cur].(term := Br(END))])
  {
    hide PhisFit;
    var B' := B[cur := B[cur].(term := Br(END))];
    assert forall l :: 0 <= l < |B| ==> B'[l].phis == B[l].phis && (l != cur ==> B'[l] == B[l]);
    forall l | 0 <= l < |B'|
      ensures TargetsExist(B', l) && PhisFit(B', l)
    {
      assert TargetsExist(B, l);
      PhisStay(B, B', l);
    }
  }

  lemma HeaderUnfinished(bounds: bool, B: seq<Block>)
    requires |B| == if bounds then 3 else 2
    requires B[ENTRY].term == NoTerm && B[END].term == Ret && (bounds ==> B[ABERROR].term == Br(END))
    requires forall l :: 0 <= l < |B| ==> B[l].phis == []
    ensures Unfinished(bounds, B, ENTRY, {})
  {
  }
}
