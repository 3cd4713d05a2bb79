/** Where the compiler has put each token of the program, and what makes that placement
    correct. A token is named by the position of its first command character; a run of
    `+-` or of `<>` is one token. */
module BrainFLayout {
  import opened BrainFSource
  import opened BrainFIR

  const ENTRY: Label := 0
  const END: Label := 1
  const ABERROR: Label := 2
  const ARR: Reg := 0
  const ARRMAX: Reg := 1

  /** Just before instruction i of block b, the head is in register h and r is the
      first register not yet used. */
  datatype Point = Point(b: Label, i: nat, h: Reg, r: Reg)

  type Layout = map<nat, Point>

  predicate IsToken(text: string, k: nat) {
    k <= |text| && NextCmd(text, k) == k
  }

  /** The token that follows token k in the text. */
  function After(text: string, k: nat): (n: nat)
    requires k < |text| && IsToken(text, k)
    ensures k < n <= |text| && IsToken(text, n)
  {
    if KindOf(text[k]) == Single then NextCmdStable(text, k + 1); NextCmd(text, k + 1)
    else RunEnd(text, k, KindOf(text[k]))
  }

  predicate IsStraight(text: string, k: nat) {
    k < |text| && IsToken(text, k) && text[k] != '[' && text[k] != ']'
  }

  lemma SegmentToken(text: string, i: nat, k: nat)
    requires IsStraight(text, k) && Segment(text, i, k)
    ensures Segment(text, i, After(text, k))
  {
    if KindOf(text[k]) == Single {
      SegmentCons(text, i, k);
      SegmentSkip(text, i, k + 1);
    } else {
      SegmentRun(text, i, k, KindOf(text[k]));
    }
  }

  /** The instructions for a token other than a bracket. */
  function Code(text: string, bounds: bool, k: nat, h: Reg, r: Reg): seq<Instr>
    requires IsStraight(text, k)
  {
    if text[k] == ',' then [GetChar(r), TruncI8(r + 1, r), Store(r + 1, h)]
    else if text[k] == '.' then [Load(r, h), SExtI32(r + 1, r), PutChar(r + 1)]
    else if KindOf(text[k]) == Change then
      [Load(r, h), AddI8(r + 1, r, RunVal(text, k, Change) % 256), Store(r + 1, h)]
    else if bounds then
      [Gep(r, h, ToInt32(RunVal(text, k, Move))),
       IcmpUge(r + 1, r, ARRMAX), IcmpUlt(r + 2, r, ARR), OrI1(r + 3, r + 1, r + 2)]
    else [Gep(r, h, ToInt32(RunVal(text, k, Move)))]
  }

  /** Command by command; v is what the run adds up to. */
  lemma CodeSpelledOut(text: string, bounds: bool, k: nat, h: Reg, r: Reg, v: int)
    requires k < |text|
    ensures text[k] == ',' ==> Code(text, bounds, k, h, r) == [GetChar(r), TruncI8(r + 1, r), Store(r + 1, h)]
    ensures text[k] == '.' ==> Code(text, bounds, k, h, r) == [Load(r, h), SExtI32(r + 1, r), PutChar(r + 1)]
    ensures (text[k] == '+' || text[k] == '-') && v == RunVal(text, k, Change) ==>
              Code(text, bounds, k, h, r) == [Load(r, h), AddI8(r + 1, r, v % 256), Store(r + 1, h)]
    ensures (text[k] == '<' || text[k] == '>') && v == RunVal(text, k, Move) && -0x8000_0000 <= v < 0x8000_0000 ==>
              Code(text, bounds, k, h, r) ==
              [Gep(r, h, v)] + if bounds then [IcmpUge(r + 1, r, ARRMAX), IcmpUlt(r + 2, r, ARR), OrI1(r + 3, r + 1, r + 2)] else []
  {
  }

  /** Block l with some more instructions. */
  function Appended(B: seq<Block>, l: Label, code: seq<Instr>): (B': seq<Block>)
    requires l < |B|
    ensures |B'| == |B|
  {
    B[l := B[l].(body := B[l].body + code)]
  }

  lemma AppendedTwice(B: seq<Block>, l: Label, c: seq<Instr>, d: seq<Instr>)
    requires l < |B|
    ensures Appended(Appended(B, l, c), l, d) == Appended(B, l, c + d)
  {
    assert B[l].body + c + d == B[l].body + (c + d);
  }

  lemma AppendedThrice(B: seq<Block>, l: Label, i: Instr, j: Instr, k: Instr)
    requires l < |B|
    ensures Appended(Appended(Appended(B, l, [i]), l, [j]), l, [k]) == Appended(B, l, [i, j, k])
  {
    AppendedTwice(B, l, [i], [j]);
    AppendedTwice(B, l, [i] + [j], [k]);
    assert [i] + [j] + [k] == [i, j, k];
  }

  /** A move by v that branches to the error block when it has left the tape. */
  function Checked(B: seq<Block>, l: Label, h: Reg, r: Reg, v: int): seq<Block>
    requires l < |B|
  {
    B[l := Block(B[l].phis,
                 B[l].body + [Gep(r, h, ToInt32(v)), IcmpUge(r + 1, r, ARRMAX), IcmpUlt(r + 2, r, ARR), OrI1(r + 3, r + 1, r + 2)],
                 CondBr(r + 3, ABERROR, |B|))]
    + [Block([], [], NoTerm)]
  }

  predicate CodeAt(B: seq<Block>, p: Point, code: seq<Instr>) {
    && p.b < |B|
    && p.i + |code| <= |B[p.b].body|
    && forall j :: 0 <= j < |code| ==> B[p.b].body[p.i + j] == code[j]
  }

  predicate EndsAt(B: seq<Block>, b: Label, i: nat, t: Term) {
    b < |B| && |B[b].body| == i && B[b].term == t && t != NoTerm
  }

  predicate IsMove(text: string, k: nat) {
    k < |text| && KindOf(text[k]) == Move
  }

  predicate StraightOk(text: string, bounds: bool, B: seq<Block>, at: Layout, k: nat)
    requires IsStraight(text, k) && k in at
  {
    var p, n := at[k], After(text, k);
    && CodeAt(B, p, Code(text, bounds, k, p.h, p.r))
    && n in at
    && if IsMove(text, k) && bounds then
         && at[n] == Point(at[n].b, 0, p.r, p.r + 4)
         && EndsAt(B, p.b, p.i + 4, CondBr(p.r + 3, ABERROR, at[n].b))
         && at[n].b < |B| && B[at[n].b].phis == []
       else if IsMove(text, k) then at[n] == Point(p.b, p.i + 1, p.r, p.r + 1)
       else at[n] == Point(p.b, p.i + 3, p.h, p.r + 2)
  }

  /** The test block of a finished loop: phi, load, compare, branch. */
  function TestBlock(p: Point, q: Point, after: Label, body: Label): Block {
    Block([Phi(p.r, [Incoming(p.h, p.b), Incoming(q.h, q.b)])],
          [Load(q.r, p.r), IcmpEqZero(q.r + 1, q.r)],
          CondBr(q.r + 1, after, body))
  }

  predicate OpenOk(text: string, B: seq<Block>, at: Layout, k: nat)
    requires k < |text| && text[k] == '[' && k in at
  {
    var p, c := at[k], Close(text, k + 1, 0);
    && c < |text| && Open(text, c, 0) == k
    && p.b < |B| && B[p.b].term.Br? && EndsAt(B, p.b, p.i, B[p.b].term)
    && c in at && NextCmd(text, k + 1) in at && NextCmd(text, c + 1) in at
    && var n, m, t := at[NextCmd(text, k + 1)], at[NextCmd(text, c + 1)], B[p.b].term.l;
       && n == Point(n.b, 0, p.r, p.r + 1)
       && m == Point(m.b, 0, at[c].r + 2, at[c].r + 3)
       && t < |B| && B[t] == TestBlock(p, at[c], m.b, n.b)
       && at[c].b != p.b && at[c].r > p.r
       && n.b < |B| && B[n.b].phis == []
       && m.b < |B| && B[m.b].phis == [Phi(m.h, [Incoming(p.r, t)])]
  }

  predicate CloseOk(text: string, B: seq<Block>, at: Layout, k: nat)
    requires k < |text| && text[k] == ']' && k in at
  {
    var o := Open(text, k, 0);
    && o < |text| && text[o] == '[' && Close(text, o + 1, 0) == k
    && o in at && at[o].b < |B| && B[at[o].b].term.Br?
    && EndsAt(B, at[k].b, at[k].i, B[at[o].b].term)
  }

  predicate TokenOk(text: string, bounds: bool, B: seq<Block>, at: Layout, k: nat)
    requires k in at
  {
    && IsToken(text, k)
    && if k == |text| then EndsAt(B, at[k].b, at[k].i, Br(END))
       else if text[k] == '[' then OpenOk(text, B, at, k)
       else if text[k] == ']' then CloseOk(text, B, at, k)
       else StraightOk(text, bounds, B, at, k)
  }

  /** Entry code: malloc, memset, the end of the tape if it will be tested, the head's
      first position. */
  function HeaderCode(mem: nat, bounds: bool): seq<Instr> {
    [Malloc(ARR), Memset(ARR, mem)] + (if bounds then [Gep(ARRMAX, ARR, mem)] else []) + [Gep(2, ARR, mem / 2)]
  }

  predicate HeaderOk(mem: nat, bounds: bool, B: seq<Block>) {
    && END < |B| && B[END] == Block([], [Free(ARR)], Ret)
    && (bounds ==> ABERROR < |B| && B[ABERROR] == Block([], [PutsError], Br(END)))
    && CodeAt(B, Point(ENTRY, 0, 2, 3), HeaderCode(mem, bounds))
  }

  /** The whole program has been compiled. */
  ghost predicate Laid(text: string, mem: nat, bounds: bool, B: seq<Block>, at: Layout) {
    && HeaderOk(mem, bounds, B)
    && NextCmd(text, 0) in at && |text| in at
    && at[NextCmd(text, 0)] == Point(ENTRY, |HeaderCode(mem, bounds)|, 2, 3)
    && (forall k :: k in at ==> ARRMAX < at[k].h < at[k].r)
    && forall k {:trigger TokenOk(text, bounds, B, at, k)} :: k in at ==> TokenOk(text, bounds, B, at, k)
  }

  /** What may happen to the blocks while the compiler writes: new ones appear, the
      current block grows, and the test block `test` of the enclosing loop is finished. */
  ghost predicate Framed(B: seq<Block>, B': seq<Block>, cur: Label, test: int) {
    && |B| <= |B'|
    && (forall l :: 0 <= l < |B| && l != cur && l != test ==> B'[l] == B[l])
    && (cur < |B| ==> B'[cur].phis == B[cur].phis && B[cur].body <= B'[cur].body)
  }

  predicate Pending(B: seq<Block>, cur: Label, test: int) {
    && cur < |B| && B[cur].term == NoTerm && cur != test
    && (0 <= test ==> test < |B| && B[test].term == NoTerm)
  }

  ghost predicate Grown(at: Layout, at': Layout) {
    forall k :: k in at ==> k in at' && at'[k] == at[k]
  }

  /** Compiling on never spoils a finished token. */
  lemma TokenStaysOk(text: string, bounds: bool, B: seq<Block>, B': seq<Block>, cur: Label, test: int,
                     at: Layout, at': Layout, k: nat)
    requires k in at && TokenOk(text, bounds, B, at, k)
    requires Framed(B, B', cur, test) && Pending(B, cur, test) && Grown(at, at')
    requires forall n :: n in at ==> at[n].b != test
    ensures TokenOk(text, bounds, B', at', k)
  {
    var p := at[k];
    assert p.b < |B|;
    if k == |text| {
    } else if text[k] == '[' {
      assert B'[p.b] == B[p.b];
      assert B'[B[p.b].term.l] == B[B[p.b].term.l];
    } else if text[k] == ']' {
      assert B'[p.b] == B[p.b];
      var o := at[Open(text, k, 0)];
      assert B'[o.b] == B[o.b];
    } else {
      CodeStays(B, B', cur, test, p, Code(text, bounds, k, p.h, p.r));
    }
  }

  lemma CodeStays(B: seq<Block>, B': seq<Block>, cur: Label, test: int, p: Point, code: seq<Instr>)
    requires CodeAt(B, p, code) && Framed(B, B', cur, test) && p.b != test
    ensures CodeAt(B', p, code)
  {
    assert B[p.b].body <= B'[p.b].body;
    forall j | 0 <= j < |code|
      ensures B'[p.b].body[p.i + j] == code[j]
    {
      assert B'[p.b].body[p.i + j] == B[p.b].body[p.i + j];
    }
  }

  lemma HeaderStaysOk(mem: nat, bounds: bool, B: seq<Block>, B': seq<Block>, cur: Label, test: int)
    requires HeaderOk(mem, bounds, B) && Framed(B, B', cur, test) && Pending(B, cur, test) && test != ENTRY
    ensures HeaderOk(mem, bounds, B')
  {
    CodeStays(B, B', cur, test, Point(ENTRY, 0, 2, 3), HeaderCode(mem, bounds));
  }

  /** What a piece of compilation does to layout and blocks. */
  ghost predicate Written(at: Layout, at': Layout, B: seq<Block>, B': seq<Block>, cur: Label, cur': Label, test: int) {
    && Grown(at, at') && Framed(B, B', cur, test) && (cur' == cur || cur' >= |B|)
    && forall n :: n in at' && n !in at ==> at'[n].b == cur || at'[n].b >= |B|
  }

  lemma WrittenRefl(at: Layout, B: seq<Block>, cur: Label)
    ensures Written(at, at, B, B, cur, cur, -1)
  {
  }

  lemma WrittenTrans(at0: Layout, at1: Layout, at2: Layout, B0: seq<Block>, B1: seq<Block>, B2: seq<Block>,
                     cur0: Label, cur1: Label, cur2: Label, test: int)
    requires Written(at0, at1, B0, B1, cur0, cur1, -1) && Written(at1, at2, B1, B2, cur1, cur2, test)
    requires cur0 < |B0| && cur0 != test && cur1 != test
    ensures Written(at0, at2, B0, B2, cur0, cur2, if test < |B0| then test else -1)
    ensures |B0| <= |B1| <= |B2|
  {
  }

  /** The compiler's state at a token boundary: every token written so far is correct,
      except the loops still open, and token s comes next at the insertion point. */
  ghost predicate Inv(text: string, bounds: bool, B: seq<Block>, cur: Label, h: Reg, r: Reg, at: Layout,
                      s: nat, opens: set<nat>) {
    && IsToken(text, s)
    && cur < |B| && B[cur].term == NoTerm
    && s in at && at[s] == Point(cur, |B[cur].body|, h, r)
    && (forall k :: k in at ==> k <= s)
    && (forall k :: k in at ==> at[k].b < |B| && ARRMAX < at[k].h < at[k].r <= r)
    && (forall k {:trigger TokenOk(text, bounds, B, at, k)} :: k in at && k != s && k !in opens ==> TokenOk(text, bounds, B, at, k))
  }

  /** Writing a token that starts no new block. */
  lemma AdvanceStraight(text: string, bounds: bool, B: seq<Block>, B': seq<Block>, cur: Label, h: Reg, r: Reg,
                        at: Layout, at': Layout, s: nat, opens: set<nat>, h': Reg, r': Reg)
    requires Inv(text, bounds, B, cur, h, r, at, s, opens) && IsStraight(text, s) && s !in opens
    requires !(IsMove(text, s) && bounds)
    requires B' == Appended(B, cur, Code(text, bounds, s, h, r))
    requires at' == at[After(text, s) := Point(cur, |B'[cur].body|, h', r')]
    requires if IsMove(text, s) then h' == r && r' == r + 1 else h' == h && r' == r + 2
    ensures Inv(text, bounds, B', cur, h', r', at', After(text, s), opens)
    ensures Written(at, at', B, B', cur, cur, -1)
  {
    assert Grown(at, at');
    forall k | k in at' && k != After(text, s) && k !in opens
      ensures TokenOk(text, bounds, B', at', k)
    {
      if k != s {
        TokenStaysOk(text, bounds, B, B', cur, -1, at, at', k);
      }
    }
  }

  lemma CheckedTokenOk(text: string, B: seq<Block>, B': seq<Block>, cur: Label, h: Reg, r: Reg, at: Layout, s: nat)
    requires IsStraight(text, s) && IsMove(text, s) && cur < |B| && B' == Checked(B, cur, h, r, RunVal(text, s, Move))
    requires s in at && at[s] == Point(cur, |B[cur].body|, h, r)
    requires After(text, s) in at && at[After(text, s)] == Point(|B|, 0, r, r + 4)
    ensures TokenOk(text, true, B', at, s)
  {
  }

  /** Writing a move whose bounds test opens a new block. */
  lemma AdvanceChecked(text: string, B: seq<Block>, B': seq<Block>, cur: Label, h: Reg, r: Reg,
                       at: Layout, at': Layout, s: nat, opens: set<nat>)
    requires Inv(text, true, B, cur, h, r, at, s, opens) && IsStraight(text, s) && s !in opens
    requires IsMove(text, s)
    requires B' == Checked(B, cur, h, r, RunVal(text, s, Move))
    requires at' == at[After(text, s) := Point(|B|, 0, r, r + 4)]
    ensures Inv(text, true, B', |B|, r, r + 4, at', After(text, s), opens)
    ensures Written(at, at', B, B', cur, |B|, -1)
  {
    hide TokenOk;
    assert Grown(at, at');
    forall k | k in at' && k != After(text, s) && k !in opens
      ensures TokenOk(text, true, B', at', k)
    {
      if k == s {
        CheckedTokenOk(text, B, B', cur, h, r, at', s);
      } else {
        TokenStaysOk(text, true, B, B', cur, -1, at, at', k);
      }
    }
  }

  /** The arguments of readloop: the loop whose body is being read, if any. */
  datatype Enclosing = Top | InLoop(phi: Reg, oldbb: Label, testbb: Label)

  function TestLabel(loop: Enclosing): int {
    if loop.Top? then -1 else loop.testbb
  }

  lemma BaseOfLoop(loop: Enclosing, open: nat)
    requires loop.InLoop?
    ensures Base(loop, open) == open + 1 && TestLabel(loop) == loop.testbb
  {
  }

  /** Where reading started. */
  function Base(loop: Enclosing, open: nat): nat {
    if loop.Top? then 0 else open + 1
  }

  /** The enclosing loop, opened by the token at `open`, waits for its test block to be finished. */
  ghost predicate LoopReady(text: string, B: seq<Block>, at: Layout, loop: Enclosing, open: nat, opens: set<nat>) {
    loop.InLoop? ==>
      && open < |text| && text[open] == '[' && open in at && open in opens
      && EndsAt(B, at[open].b, at[open].i, Br(loop.testbb))
      && ENTRY < loop.testbb < |B|
      && loop.phi == at[open].r
      && B[loop.testbb] == Block([Phi(loop.phi, [Incoming(at[open].h, at[open].b)])], [], NoTerm)
      && NextCmd(text, open + 1) in at && at[NextCmd(text, open + 1)] == Point(loop.oldbb, 0, loop.phi, loop.phi + 1)
      && loop.oldbb < |B| && B[loop.oldbb].phis == []
      && loop.oldbb != loop.testbb
      && forall n :: n in at ==> at[n].b != loop.testbb
  }

  /** The enclosing loop has just been closed by the `]` at q. */
  ghost predicate LoopClosed(text: string, B: seq<Block>, at: Layout, loop: Enclosing, open: nat, q: nat, cur: Label) {
    && loop.InLoop?
    && open < q < |text| && text[q] == ']' && Segment(text, open + 1, q)
    && open in at && q in at && NextCmd(text, q + 1) in at
    && cur < |B| && B[cur] == Block([Phi(at[q].r + 2, [Incoming(loop.phi, loop.testbb)])], [], NoTerm)
    && loop.testbb < |B| && B[loop.testbb] == TestBlock(at[open], at[q], cur, loop.oldbb)
    && at[q].b != at[open].b && at[q].r > at[open].r
    && at[NextCmd(text, q + 1)] == Point(cur, 0, at[q].r + 2, at[q].r + 3)
  }

  /** Opening the loop at s: a test block with half a phi, and a block for the body. */
  lemma OpenLoop(text: string, bounds: bool, B: seq<Block>, B': seq<Block>, cur: Label, h: Reg, r: Reg,
                 at: Layout, at': Layout, s: nat, opens: set<nat>)
    requires Inv(text, bounds, B, cur, h, r, at, s, opens) && s !in opens
    requires s < |text| && text[s] == '['
    requires B' == B[cur := B[cur].(term := Br(|B|))] + [Block([Phi(r, [Incoming(h, cur)])], [], NoTerm), Block([], [], NoTerm)]
    requires at' == at[NextCmd(text, s + 1) := Point(|B| + 1, 0, r, r + 1)]
    ensures Inv(text, bounds, B', |B| + 1, r, r + 1, at', NextCmd(text, s + 1), opens + {s})
    ensures Written(at, at', B, B', cur, |B| + 1, -1)
    ensures Pending(B', |B| + 1, |B|)
    ensures LoopReady(text, B', at', InLoop(r, |B| + 1, |B|), s, opens + {s})
  {
    var n := NextCmd(text, s + 1);
    NextCmdStable(text, s + 1);
    assert Grown(at, at');
    forall k | k in at' && k != n && k !in opens + {s}
      ensures TokenOk(text, bounds, B', at', k)
    {
      TokenStaysOk(text, bounds, B, B', cur, -1, at, at', k);
    }
  }

  /** Closing the enclosing loop at s: the phi is completed, the head is tested and a block follows. */
  ghost predicate Closing(B: seq<Block>, B': seq<Block>, cur: Label, h: Reg, r: Reg, at: Layout, at': Layout,
                          n: nat, loop: Enclosing, open: nat) {
    && loop.InLoop? && open in at && cur < |B| && loop.testbb < |B| && cur != loop.testbb
    && B' == B[cur := B[cur].(term := Br(loop.testbb))]
              [loop.testbb := TestBlock(at[open], Point(cur, |B[cur].body|, h, r), |B|, loop.oldbb)]
             + [Block([Phi(r + 2, [Incoming(loop.phi, loop.testbb)])], [], NoTerm)]
    && at' == at[n := Point(|B|, 0, r + 2, r + 3)]
  }

  lemma CloseLoopFrame(text: string, bounds: bool, B: seq<Block>, B': seq<Block>, cur: Label, h: Reg, r: Reg,
                       at: Layout, at': Layout, s: nat, opens: set<nat>, loop: Enclosing, open: nat)
    requires Inv(text, bounds, B, cur, h, r, at, s, opens)
    requires LoopReady(text, B, at, loop, open, opens)
    requires s < |text| && text[s] == ']' && open < s && Segment(text, open + 1, s)
    requires Closing(B, B', cur, h, r, at, at', NextCmd(text, s + 1), loop, open)
    ensures Framed(B, B', cur, loop.testbb) && Grown(at, at')
    ensures LoopClosed(text, B', at', loop, open, s, |B|)
    ensures forall n :: n in at' ==> at'[n].b != loop.testbb
    ensures NextCmd(text, s + 1) !in at
  {
  }

  lemma CloseTokenOk(text: string, B: seq<Block>, at: Layout, s: nat, loop: Enclosing, open: nat, b: Label)
    requires loop.InLoop? && open < s < |text| && text[open] == '[' && text[s] == ']' && Segment(text, open + 1, s)
    requires s in at && open in at && at[open].b == b < |B|
    requires B[b].term == Br(loop.testbb) && EndsAt(B, at[s].b, at[s].i, Br(loop.testbb))
    ensures CloseOk(text, B, at, s)
  {
    SegmentNothing(text, open);
    SegmentLoop(text, open, open, s);
  }

  lemma CloseLoop(text: string, bounds: bool, B: seq<Block>, B': seq<Block>, cur: Label, h: Reg, r: Reg,
                  at: Layout, at': Layout, s: nat, opens: set<nat>, loop: Enclosing, open: nat)
    requires Inv(text, bounds, B, cur, h, r, at, s, opens) && s !in opens
    requires LoopReady(text, B, at, loop, open, opens)
    requires s < |text| && text[s] == ']' && open < s && Segment(text, open + 1, s)
    requires Pending(B, cur, TestLabel(loop))
    requires Closing(B, B', cur, h, r, at, at', NextCmd(text, s + 1), loop, open)
    ensures Inv(text, bounds, B', |B|, r + 2, r + 3, at', NextCmd(text, s + 1), opens)
  {
    CloseLoopFrame(text, bounds, B, B', cur, h, r, at, at', s, opens, loop, open);
    NextCmdStable(text, s + 1);
    forall k | k in at' && k != NextCmd(text, s + 1) && k !in opens
      ensures TokenOk(text, bounds, B', at', k)
    {
      if k == s {
        CloseTokenOk(text, B', at', s, loop, open, at[open].b);
      } else {
        TokenStaysOk(text, bounds, B, B', cur, loop.testbb, at, at', k);
      }
    }
  }

  /** Once its body has been read, the `[` at s is a finished token too. */
  lemma LoopDone(text: string, bounds: bool, B: seq<Block>, cur: Label, h: Reg, r: Reg,
                 at: Layout, s: nat, opens: set<nat>, loop: Enclosing, open: nat, q: nat)
    requires Inv(text, bounds, B, cur, h, r, at, s, opens + {open})
    requires LoopClosed(text, B, at, loop, open, q, cur)
    requires text[open] == '[' && IsToken(text, open) && s == NextCmd(text, q + 1)
    requires EndsAt(B, at[open].b, at[open].i, Br(loop.testbb))
    requires loop.phi == at[open].r
    requires NextCmd(text, open + 1) in at && at[NextCmd(text, open + 1)] == Point(loop.oldbb, 0, loop.phi, loop.phi + 1)
    requires loop.oldbb < |B| && B[loop.oldbb].phis == []
    ensures Inv(text, bounds, B, cur, h, r, at, s, opens)
  {
    SegmentLoop(text, open, open, q);
    assert TokenOk(text, bounds, B, at, open);
  }

  /** The loop around token s is waiting, and nothing is placed in its test block. */
  ghost predicate Waiting(text: string, B: seq<Block>, cur: Label, at: Layout, loop: Enclosing, open: nat, s: nat, opens: set<nat>) {
    && LoopReady(text, B, at, loop, open, opens)
    && Pending(B, cur, TestLabel(loop))
    && (forall o :: o in opens ==> o < s)
    && (forall n :: n in at ==> at[n].b != TestLabel(loop))
    && (loop.InLoop? ==> open < s)
  }

  /** Between two tokens: token s comes next, inside the loops `opens`, the innermost being `loop`. */
  ghost predicate Ready(text: string, bounds: bool, B: seq<Block>, cur: Label, h: Reg, r: Reg, at: Layout,
                        loop: Enclosing, open: nat, s: nat, opens: set<nat>) {
    Inv(text, bounds, B, cur, h, r, at, s, opens) && Waiting(text, B, cur, at, loop, open, s, opens)
  }

  lemma StillWaiting(text: string, B: seq<Block>, B': seq<Block>, cur: Label, cur': Label, at: Layout, at': Layout,
                     loop: Enclosing, open: nat, s: nat, s': nat, opens: set<nat>)
    requires Waiting(text, B, cur, at, loop, open, s, opens)
    requires Written(at, at', B, B', cur, cur', -1)
    requires cur' < |B'| && B'[cur'].term == NoTerm && s <= s'
    ensures Waiting(text, B', cur', at', loop, open, s', opens)
  {
    if loop.InLoop? {
      assert B'[at[open].b] == B[at[open].b];
      assert B'[loop.testbb] == B[loop.testbb];
    }
  }

  /** A loop has been opened at s: inside it, token NextCmd(text, s + 1) comes next, and the loop around
      it waits. */
  lemma OpenReady(text: string, bounds: bool, B: seq<Block>, B': seq<Block>, cur: Label, h: Reg, r: Reg,
                  at: Layout, at': Layout, loop: Enclosing, open: nat, s: nat, opens: set<nat>)
    requires Ready(text, bounds, B, cur, h, r, at, loop, open, s, opens) && s < |text| && text[s] == '['
    requires B' == B[cur := B[cur].(term := Br(|B|))] + [Block([Phi(r, [Incoming(h, cur)])], [], NoTerm), Block([], [], NoTerm)]
    requires at' == at[NextCmd(text, s + 1) := Point(|B| + 1, 0, r, r + 1)]
    ensures Ready(text, bounds, B', |B| + 1, r, r + 1, at', InLoop(r, |B| + 1, |B|), s, NextCmd(text, s + 1), opens + {s})
    ensures Waiting(text, B', |B| + 1, at', loop, open, s, opens)
    ensures Written(at, at', B, B', cur, |B| + 1, -1)
  {
    ReadyFacts(text, bounds, B, cur, h, r, at, loop, open, s, opens);
    OpenLoop(text, bounds, B, B', cur, h, r, at, at', s, opens);
    OpenWaiting(text, bounds, B, B', cur, h, r, at, at', loop, open, s, opens);
    hide Inv, LoopReady, Pending, Written, Framed, Grown;
    StillWaiting(text, B, B', cur, |B| + 1, at, at', loop, open, s, s, opens);
  }

  lemma OpenWaiting(text: string, bounds: bool, B: seq<Block>, B': seq<Block>, cur: Label, h: Reg, r: Reg,
                    at: Layout, at': Layout, loop: Enclosing, open: nat, s: nat, opens: set<nat>)
    requires Ready(text, bounds, B, cur, h, r, at, loop, open, s, opens) && s < |text| && text[s] == '['
    requires B' == B[cur := B[cur].(term := Br(|B|))] + [Block([Phi(r, [Incoming(h, cur)])], [], NoTerm), Block([], [], NoTerm)]
    requires at' == at[NextCmd(text, s + 1) := Point(|B| + 1, 0, r, r + 1)]
    requires LoopReady(text, B', at', InLoop(r, |B| + 1, |B|), s, opens + {s}) && Pending(B', |B| + 1, |B|)
    ensures Waiting(text, B', |B| + 1, at', InLoop(r, |B| + 1, |B|), s, NextCmd(text, s + 1), opens + {s})
  {
    hide TokenOk, LoopReady, Pending;
  }

  lemma CloseFacts(text: string, bounds: bool, B: seq<Block>, cur: Label, h: Reg, r: Reg, at: Layout,
                   loop: Enclosing, open: nat, s: nat, opens: set<nat>)
    requires Ready(text, bounds, B, cur, h, r, at, loop, open, s, opens) && loop.InLoop?
    ensures cur < |B| && loop.testbb < |B| && loop.oldbb < |B| && cur != loop.testbb && open in at && at[open].r == loop.phi
    ensures B[cur].term == NoTerm && B[loop.oldbb].phis == []
    ensures B[loop.testbb] == Block([Phi(loop.phi, [Incoming(at[open].h, at[open].b)])], [], NoTerm)
  {
  }

  /** The loop around s has been closed there. */
  lemma CloseReady(text: string, bounds: bool, B: seq<Block>, B': seq<Block>, cur: Label, h: Reg, r: Reg,
                   at: Layout, at': Layout, loop: Enclosing, open: nat, s: nat, opens: set<nat>)
    requires Ready(text, bounds, B, cur, h, r, at, loop, open, s, opens) && loop.InLoop?
    requires s < |text| && text[s] == ']' && Segment(text, open + 1, s)
    requires Closing(B, B', cur, h, r, at, at', NextCmd(text, s + 1), loop, open)
    ensures Inv(text, bounds, B', |B|, r + 2, r + 3, at', NextCmd(text, s + 1), opens)
    ensures LoopClosed(text, B', at', loop, open, s, |B|)
    ensures Written(at, at', B, B', cur, |B|, loop.testbb)
  {
    hide TokenOk, NextCmd;
    ReadyFacts(text, bounds, B, cur, h, r, at, loop, open, s, opens);
    CloseLoopFrame(text, bounds, B, B', cur, h, r, at, at', s, opens, loop, open);
    CloseLoop(text, bounds, B, B', cur, h, r, at, at', s, opens, loop, open);
  }

  /** The branch to the end block finishes the last token. */
  lemma EndOfText(text: string, bounds: bool, B: seq<Block>, B': seq<Block>, cur: Label, h: Reg, r: Reg, at: Layout,
                  s: nat, opens: set<nat>)
    requires Inv(text, bounds, B, cur, h, r, at, s, opens) && s == |text|
    requires B' == B[cur := B[cur].(term := Br(END))]
    ensures Written(at, at, B, B', cur, cur, -1)
    ensures forall k :: k in at ==> ARRMAX < at[k].h < at[k].r
    ensures forall k {:trigger TokenOk(text, bounds, B', at, k)} :: k in at && k !in opens ==> TokenOk(text, bounds, B', at, k)
    ensures s in at
  {
    forall k | k in at && k !in opens
      ensures TokenOk(text, bounds, B', at, k)
    {
      if k != s {
        TokenStaysOk(text, bounds, B, B', cur, -1, at, at, k);
      }
    }
  }

  lemma ReadyFacts(text: string, bounds: bool, B: seq<Block>, cur: Label, h: Reg, r: Reg, at: Layout,
                   loop: Enclosing, open: nat, s: nat, opens: set<nat>)
    requires Ready(text, bounds, B, cur, h, r, at, loop, open, s, opens)
    ensures cur < |B| && TestLabel(loop) < |B| && cur != TestLabel(loop) && s !in opens && IsToken(text, s)
  {
  }

  /** What reading on from blocks B0 and insertion point cur0 has done, when the stream stands
      at p: the whole text is compiled, or the enclosing loop has been closed by the character
      before p. */
  ghost predicate Compiled(text: string, bounds: bool, B0: seq<Block>, B: seq<Block>, cur0: Label, cur: Label,
                           h: Reg, r: Reg, at0: Layout, at: Layout, loop: Enclosing, open: nat, opens: set<nat>, p: nat) {
    && Written(at0, at, B0, B, cur0, cur, TestLabel(loop))
    && if loop.Top? then
         && Segment(text, 0, |text|) && |text| in at
         && (forall k :: k in at ==> ARRMAX < at[k].h < at[k].r)
         && forall k {:trigger TokenOk(text, bounds, B, at, k)} :: k in at && k !in opens ==> TokenOk(text, bounds, B, at, k)
       else
         && open + 1 < p <= |text| && cur >= |B0|
         && LoopClosed(text, B, at, loop, open, p - 1, cur)
         && Inv(text, bounds, B, cur, h, r, at, NextCmd(text, p), opens)
  }

  /** After the body and the test of a loop nested in `loop` have been written, `loop` still waits. */
  lemma NestedDone(text: string, bounds: bool, B0: seq<Block>, B: seq<Block>, cur0: Label, cur: Label,
                   h: Reg, r: Reg, h0: Reg, r0: Reg, at0: Layout, at: Layout, loop: Enclosing, open: nat, inner: Enclosing,
                   s: nat, p: nat, opens: set<nat>)
    requires inner.InLoop? && s < |text| && text[s] == '[' && s !in opens && IsToken(text, s)
    requires Ready(text, bounds, B0, cur0, h0, r0, at0, inner, s, NextCmd(text, s + 1), opens + {s})
    requires Waiting(text, B0, cur0, at0, loop, open, s, opens) && inner.testbb != TestLabel(loop)
    requires Compiled(text, bounds, B0, B, cur0, cur, h, r, at0, at, inner, s, opens + {s}, p)
    ensures Ready(text, bounds, B, cur, h, r, at, loop, open, NextCmd(text, p), opens)
    ensures Written(at0, at, B0, B, cur0, cur, inner.testbb)
    ensures s + 1 < p <= |text| && text[p - 1] == ']' && Segment(text, s + 1, p - 1)
  {
    assert B[at0[s].b] == B0[at0[s].b];
    LoopDone(text, bounds, B, cur, h, r, at, NextCmd(text, p), opens, inner, s, p - 1);
    if loop.InLoop? {
      assert at[open] == at0[open];
      assert B[at0[open].b] == B0[at0[open].b];
      assert B[loop.testbb] == B0[loop.testbb];
    }
    assert LoopReady(text, B, at, loop, open, opens);
  }
}
