/** BrainF::header and BrainF::readloop: one pass over the text, one symbol of lookahead,
    one recursive call per bracket, emitting blocks in place. */
module BrainFCompiler {
  import opened BrainFSource
  import opened BrainFIR
  import opened BrainFLayout
  import opened BrainFWellFormed

  datatype Symbol = SymNone | SymRead | SymWrite | SymMove | SymChange | SymLoop | SymEndLoop | SymEof

  /** How a compilation ends; the two errors abort the original program. */
  datatype Status = Done | ExtraClose | MissingClose

  function SymOf(c: char): Symbol {
    if KindOf(c) == Change then SymChange
    else if KindOf(c) == Move then SymMove
    else if c == ',' then SymRead
    else if c == '.' then SymWrite
    else if c == '[' then SymLoop
    else SymEndLoop
  }

  function SymAt(text: string, i: nat): Symbol
    requires IsToken(text, i)
  {
    if i == |text| then SymEof else SymOf(text[i])
  }

  function RunKind(sym: Symbol): Kind {
    if sym == SymMove then Move else if sym == SymChange then Change else Single
  }

  /** One past i, but not past the end of the text: where the stream stands after the
      symbol at i has been read. */
  function Past(text: string, i: nat): nat {
    if i < |text| then i + 1 else |text|
  }

  /** The token at s is in cursym, and if it is a run, so is the symbol that ended it in nextsym. */
  ghost predicate Fetched(text: string, s: nat, cursym: Symbol, curvalue: int, nextsym: Symbol, nextvalue: int, pos: nat) {
    && IsToken(text, s) && cursym == SymAt(text, s)
    && if cursym == SymMove || cursym == SymChange then
         var e := RunEnd(text, s, RunKind(cursym));
         && curvalue == RunVal(text, s, RunKind(cursym))
         && nextsym == SymAt(text, e)
         && (e < |text| && KindOf(text[e]) != Single ==> nextvalue == Dir(text[e]))
         && pos == Past(text, e)
       else nextsym == SymNone && pos == Past(text, s)
  }

  /** The stream and cursym0 agree that token s comes next. */
  ghost predicate Primed(text: string, s: nat, cursym0: Symbol, curvalue0: int, pos: nat) {
    && pos <= |text|
    && (if cursym0 == SymNone then s == NextCmd(text, pos)
        else IsToken(text, s) && cursym0 == SymAt(text, s) && pos == Past(text, s))
    && (cursym0 == SymMove || cursym0 == SymChange ==> curvalue0 == Dir(text[s]))
  }

  /** In the middle of the reading loop: nothing but comments yet, or part of the run at s. */
  ghost predicate Scanning(text: string, s: nat, cursym: Symbol, curvalue: int, pos: nat) {
    && pos <= |text| && IsToken(text, s)
    && if cursym == SymNone then s == NextCmd(text, pos)
       else
         && (cursym == SymMove || cursym == SymChange) && cursym == SymAt(text, s) && s < pos
         && RunEnd(text, pos, RunKind(cursym)) == RunEnd(text, s, RunKind(cursym))
         && curvalue + RunVal(text, pos, RunKind(cursym)) == RunVal(text, s, RunKind(cursym))
  }

  lemma ScanStarts(text: string, s: nat, cursym: Symbol, curvalue: int, pos: nat, loop: bool)
    requires Primed(text, s, cursym, curvalue, pos)
    requires loop <==> cursym == SymNone || cursym == SymMove || cursym == SymChange
    ensures loop ==> Scanning(text, s, cursym, curvalue, pos)
    ensures !loop ==> Fetched(text, s, cursym, curvalue, SymNone, 0, pos)
    ensures pos <= |text|
  {
    if cursym == SymNone {
      NextCmdStable(text, pos);
    }
  }

  lemma ScanEof(text: string, s: nat, cursym: Symbol, curvalue: int, nextvalue: int, pos: nat)
    requires Scanning(text, s, cursym, curvalue, pos) && pos == |text|
    ensures cursym == SymNone ==> Fetched(text, s, SymEof, curvalue, SymNone, nextvalue, pos)
    ensures cursym != SymNone ==> Fetched(text, s, cursym, curvalue, SymEof, nextvalue, pos)
  {
  }

  lemma ScanIgnored(text: string, s: nat, cursym: Symbol, curvalue: int, pos: nat)
    requires Scanning(text, s, cursym, curvalue, pos) && pos < |text| && KindOf(text[pos]) == Ignored
    ensures Scanning(text, s, cursym, curvalue, pos + 1)
  {
  }

  /** The first character of token s. */
  lemma ScanFirst(text: string, s: nat, curvalue0: int, curvalue: int, nextvalue: int, pos: nat)
    requires Scanning(text, s, SymNone, curvalue0, pos) && pos < |text| && KindOf(text[pos]) != Ignored
    requires KindOf(text[pos]) != Single ==> curvalue == Dir(text[pos])
    ensures SymOf(text[pos]) != SymNone
    ensures KindOf(text[pos]) == Single ==> Fetched(text, s, SymOf(text[pos]), curvalue, SymNone, nextvalue, pos + 1)
    ensures KindOf(text[pos]) != Single ==> Scanning(text, s, SymOf(text[pos]), curvalue, pos + 1)
  {
  }

  /** One more character of the run. */
  lemma ScanSame(text: string, s: nat, cursym: Symbol, curvalue: int, pos: nat)
    requires Scanning(text, s, cursym, curvalue, pos) && pos < |text|
    requires KindOf(text[pos]) != Ignored && KindOf(text[pos]) != Single && cursym == SymOf(text[pos])
    ensures Scanning(text, s, cursym, curvalue + Dir(text[pos]), pos + 1)
  {
  }

  /** The character that ends the run. */
  lemma ScanNext(text: string, s: nat, cursym: Symbol, curvalue: int, nextvalue: int, pos: nat)
    requires Scanning(text, s, cursym, curvalue, pos) && pos < |text| && cursym != SymNone
    requires KindOf(text[pos]) != Ignored && (KindOf(text[pos]) == Single || cursym != SymOf(text[pos]))
    requires KindOf(text[pos]) != Single ==> nextvalue == Dir(text[pos])
    ensures Fetched(text, s, cursym, curvalue, SymOf(text[pos]), nextvalue, pos + 1)
  {
  }

  lemma FetchedFacts(text: string, s: nat, cursym: Symbol, curvalue: int, nextsym: Symbol, nextvalue: int, pos: nat)
    requires Fetched(text, s, cursym, curvalue, nextsym, nextvalue, pos)
    ensures IsToken(text, s)
    ensures cursym == SymLoop ==> s < |text| && text[s] == '[' && pos == s + 1 && nextsym == SymNone
    ensures cursym == SymEndLoop ==> s < |text| && text[s] == ']' && pos == s + 1
    ensures cursym == SymEof ==> s == |text| && pos == |text|
    ensures cursym != SymLoop && cursym != SymEndLoop && cursym != SymEof && cursym != SymNone ==>
              && IsStraight(text, s) && cursym == SymAt(text, s)
              && (RunKind(cursym) != Single ==> curvalue == RunVal(text, s, RunKind(cursym)))
              && Primed(text, After(text, s), nextsym, nextvalue, pos)
  {
  }

  class BrainF {
    const text: string
    const memtotal: nat
    const bounds: bool

    var pos: nat            // the input stream
    var blocks: seq<Block>  // the function being built
    var cur: Label          // the builder's insertion point: the end of this block
    var curhead: Reg
    var nreg: Reg           // the next SSA name
    ghost var at: Layout
    ghost var tests: set<Label>  // the test blocks of the open loops

    constructor (text: string, mem: nat, bounds: bool)
      ensures this.text == text && this.memtotal == mem && this.bounds == bounds
      ensures pos == 0 && blocks == []
    {
      this.text, this.memtotal, this.bounds := text, mem, bounds;
      pos, blocks, cur, curhead, nreg, at, tests := 0, [], 0, 0, 0, map[], {};
    }

    // ---- IRBuilder ---------------------------------------------------------------

    method Emit(instr: Instr)
      requires cur < |blocks|
      modifies `blocks
      ensures blocks == Appended(old(blocks), cur, [instr])
    {
      blocks := blocks[cur := blocks[cur].(body := blocks[cur].body + [instr])];
    }

    method NewReg() returns (r: Reg)
      modifies `nreg
      ensures r == old(nreg) && nreg == r + 1
    {
      r := nreg;
      nreg := nreg + 1;
    }

    method NewBlock() returns (l: Label)
      modifies `blocks
      ensures l == |old(blocks)| && blocks == old(blocks) + [Block([], [], NoTerm)]
    {
      l := |blocks|;
      blocks := blocks + [Block([], [], NoTerm)];
    }

    method Terminate(l: Label, t: Term)
      requires l < |blocks|
      modifies `blocks
      ensures blocks == old(blocks)[l := old(blocks)[l].(term := t)]
    {
      blocks := blocks[l := blocks[l].(term := t)];
    }

    // ---- header ------------------------------------------------------------------

    /** Entry block: the tape, zeroed, and the head in its middle. */
    method EntryBlock()
      requires blocks == []
      modifies `blocks, `cur, `curhead, `nreg
      ensures blocks == [Block([], HeaderCode(memtotal, bounds), NoTerm)]
      ensures cur == ENTRY && curhead == 2 && nreg == 3
    {
      cur := NewBlock();
      Emit(Malloc(ARR));
      Emit(Memset(ARR, memtotal));
      if bounds {
        Emit(Gep(ARRMAX, ARR, memtotal));
      }
      curhead := 2;
      nreg := 3;
      Emit(Gep(curhead, ARR, memtotal / 2));
      assert blocks[cur].body == HeaderCode(memtotal, bounds);
    }

    method Header()
      requires blocks == []
      modifies `blocks, `cur, `curhead, `nreg, `at, `tests
      ensures tests == {} && Unfinished(bounds, blocks, cur, tests)
      ensures HeaderOk(memtotal, bounds, blocks)
      ensures Inv(text, bounds, blocks, cur, curhead, nreg, at, NextCmd(text, 0), {})
      ensures cur == ENTRY && curhead == 2 && nreg == 3
      ensures at.Keys == {NextCmd(text, 0)}
      ensures blocks[ENTRY] == Block([], HeaderCode(memtotal, bounds), NoTerm)
    {
      EntryBlock();
      var endbb := NewBlock();
      blocks := blocks[endbb := Block([], [Free(ARR)], Ret)];
      if bounds {
        var aberrorbb := NewBlock();
        blocks := blocks[aberrorbb := Block([], [PutsError], Br(endbb))];
      }
      NextCmdStable(text, 0);
      tests := {};
      HeaderUnfinished(bounds, blocks);
      at := map[NextCmd(text, 0) := Point(cur, |blocks[cur].body|, curhead, nreg)];
    }

    // ---- reading -----------------------------------------------------------------

    /** The reading loop: skips comments, folds a run into curvalue, and stops one symbol late. */
    method Fetch(cursym0: Symbol, curvalue0: int, ghost s: nat)
      returns (cursym: Symbol, curvalue: int, nextsym: Symbol, nextvalue: int)
      requires Primed(text, s, cursym0, curvalue0, pos)
      modifies `pos
      ensures Fetched(text, s, cursym, curvalue, nextsym, nextvalue, pos)
      ensures cursym != SymNone && old(pos) <= pos <= |text|
    {
      hide Primed, Scanning, Fetched, SymOf, SymAt, RunEnd, RunVal, NextCmd, RunKind;
      cursym, curvalue, nextsym, nextvalue := cursym0, curvalue0, SymNone, 0;
      var loop := cursym == SymNone || cursym == SymMove || cursym == SymChange;
      ScanStarts(text, s, cursym, curvalue, pos, loop);
      while loop
        invariant old(pos) <= pos <= |text|
        invariant cursym == SymNone ==> loop
        invariant loop ==> nextsym == SymNone
        invariant loop ==> Scanning(text, s, cursym, curvalue, pos)
        invariant !loop ==> Fetched(text, s, cursym, curvalue, nextsym, nextvalue, pos)
        decreases |text| - pos, loop
      {
        ghost var cursym1, curvalue1, pos1 := cursym, curvalue, pos;
        if pos == |text| {
          if cursym == SymNone { cursym := SymEof; } else { nextsym := SymEof; }
          loop := false;
          ScanEof(text, s, cursym1, curvalue, nextvalue, pos);
        } else {
          var c := text[pos];
          pos := pos + 1;
          var direction := Dir(c);
          if KindOf(c) == Ignored {
            ScanIgnored(text, s, cursym, curvalue, pos1);
          } else {
            var sym := SymOf(c);
            if cursym == SymNone {
              cursym := sym;
              if KindOf(c) != Single { curvalue := direction; } else { loop := false; }
              ScanFirst(text, s, curvalue1, curvalue, nextvalue, pos1);
            } else if cursym == sym && KindOf(c) != Single {
              curvalue := curvalue + direction;
              ScanSame(text, s, cursym, curvalue1, pos1);
            } else {
              nextsym := sym;
              if KindOf(c) != Single { nextvalue := direction; }
              loop := false;
              ScanNext(text, s, cursym, curvalue, nextvalue, pos1);
            }
          }
        }
      }
    }

    // ---- writing -----------------------------------------------------------------

    method WriteRead()
      requires cur < |blocks|
      modifies `blocks, `nreg
      ensures blocks == Appended(old(blocks), cur, [GetChar(old(nreg)), TruncI8(old(nreg) + 1, old(nreg)), Store(old(nreg) + 1, curhead)])
      ensures nreg == old(nreg) + 2
    {
      var tape0 := NewReg();
      Emit(GetChar(tape0));
      var tape1 := NewReg();
      Emit(TruncI8(tape1, tape0));
      Emit(Store(tape1, curhead));
      AppendedThrice(old(blocks), cur, GetChar(tape0), TruncI8(tape1, tape0), Store(tape1, curhead));
    }

    method WriteWrite()
      requires cur < |blocks|
      modifies `blocks, `nreg
      ensures blocks == Appended(old(blocks), cur, [Load(old(nreg), curhead), SExtI32(old(nreg) + 1, old(nreg)), PutChar(old(nreg) + 1)])
      ensures nreg == old(nreg) + 2
    {
      var tape0 := NewReg();
      Emit(Load(tape0, curhead));
      var tape1 := NewReg();
      Emit(SExtI32(tape1, tape0));
      Emit(PutChar(tape1));
      AppendedThrice(old(blocks), cur, Load(tape0, curhead), SExtI32(tape1, tape0), PutChar(tape1));
    }

    method WriteChange(curvalue: int)
      requires cur < |blocks|
      modifies `blocks, `nreg
      ensures blocks == Appended(old(blocks), cur, [Load(old(nreg), curhead), AddI8(old(nreg) + 1, old(nreg), curvalue % 256), Store(old(nreg) + 1, curhead)])
      ensures nreg == old(nreg) + 2
    {
      var tape0 := NewReg();
      Emit(Load(tape0, curhead));
      var tape1 := NewReg();
      Emit(AddI8(tape1, tape0, curvalue % 256));
      Emit(Store(tape1, curhead));
      AppendedThrice(old(blocks), cur, Load(tape0, curhead), AddI8(tape1, tape0, curvalue % 256), Store(tape1, curhead));
    }

    /** A merged move, and the test that it stays on the tape if bounds are checked. */
    method WriteMove(curvalue: int)
      requires cur < |blocks|
      modifies `blocks, `cur, `curhead, `nreg
      ensures curhead == old(nreg)
      ensures bounds ==>
                && nreg == old(nreg) + 4 && cur == |old(blocks)|
                && blocks == Checked(old(blocks), old(cur), old(curhead), old(nreg), curvalue)
      ensures !bounds ==>
                && nreg == old(nreg) + 1 && cur == old(cur)
                && blocks == Appended(old(blocks), cur, [Gep(old(nreg), old(curhead), ToInt32(curvalue))])
    {
      var head := NewReg();
      Emit(Gep(head, curhead, ToInt32(curvalue)));
      ghost var gep := Gep(head, curhead, ToInt32(curvalue));
      curhead := head;
      if bounds {
        var test0 := NewReg();
        Emit(IcmpUge(test0, curhead, ARRMAX));
        var test1 := NewReg();
        Emit(IcmpUlt(test1, curhead, ARR));
        var test2 := NewReg();
        Emit(OrI1(test2, test0, test1));
        AppendedThrice(Appended(old(blocks), cur, [gep]), cur, IcmpUge(test0, curhead, ARRMAX), IcmpUlt(test1, curhead, ARR), OrI1(test2, test0, test1));
        AppendedTwice(old(blocks), cur, [gep], [IcmpUge(test0, curhead, ARRMAX), IcmpUlt(test1, curhead, ARR), OrI1(test2, test0, test1)]);
        assert [gep] + [IcmpUge(test0, curhead, ARRMAX), IcmpUlt(test1, curhead, ARR), OrI1(test2, test0, test1)]
            == [gep, IcmpUge(test0, curhead, ARRMAX), IcmpUlt(test1, curhead, ARR), OrI1(test2, test0, test1)];
        var nextbb := NewBlock();
        Terminate(cur, CondBr(test2, ABERROR, nextbb));
        cur := nextbb;
      }
    }

    /** The cases of the symbol switch that are not brackets. */
    method EmitCommand(cursym: Symbol, curvalue: int, ghost s: nat)
      requires cur < |blocks|
      requires IsStraight(text, s) && cursym == SymAt(text, s)
      requires RunKind(cursym) != Single ==> curvalue == RunVal(text, s, RunKind(cursym))
      modifies `blocks, `cur, `curhead, `nreg
      ensures IsMove(text, s) ==> curhead == old(nreg)
      ensures !IsMove(text, s) ==> curhead == old(curhead) && nreg == old(nreg) + 2
      ensures IsMove(text, s) && bounds ==>
                && blocks == Checked(old(blocks), old(cur), old(curhead), old(nreg), RunVal(text, s, Move))
                && cur == |old(blocks)| && nreg == old(nreg) + 4
      ensures IsMove(text, s) && !bounds ==> nreg == old(nreg) + 1
      ensures !(IsMove(text, s) && bounds) ==>
                && cur == old(cur)
                && blocks == Appended(old(blocks), cur, Code(text, bounds, s, old(curhead), old(nreg)))
    {
      match cursym {
        case SymRead => WriteRead();
        case SymWrite => WriteWrite();
        case SymMove => WriteMove(curvalue);
        case SymChange => WriteChange(curvalue);
        case _ => assert false;
      }
    }

    method WriteCommand(cursym: Symbol, curvalue: int, ghost loop: Enclosing, ghost open: nat, ghost s: nat, ghost opens: set<nat>)
      requires Ready(text, bounds, blocks, cur, curhead, nreg, at, loop, open, s, opens)
      requires IsStraight(text, s) && cursym == SymAt(text, s)
      requires RunKind(cursym) != Single ==> curvalue == RunVal(text, s, RunKind(cursym))
      requires Unfinished(bounds, blocks, cur, tests)
      modifies `blocks, `cur, `curhead, `nreg, `at
      ensures Unfinished(bounds, blocks, cur, tests)
      ensures Ready(text, bounds, blocks, cur, curhead, nreg, at, loop, open, After(text, s), opens)
      ensures Written(old(at), at, old(blocks), blocks, old(cur), cur, -1)
    {
      hide Inv, LoopReady, TokenOk, Waiting, Code, SymAt, RunVal, RunEnd, NextCmd, Framed, Grown, Written, Unfinished;
      ghost var B, c, h, r, at0 := blocks, cur, curhead, nreg, at;
      ReadyFacts(text, bounds, blocks, cur, curhead, nreg, at, loop, open, s, opens);
      EmitCommand(cursym, curvalue, s);
      at := at[After(text, s) := Point(cur, |blocks[cur].body|, curhead, nreg)];
      if IsMove(text, s) && bounds {
        CheckedUnfinished(B, c, tests, h, r, RunVal(text, s, Move));
        AdvanceChecked(text, B, blocks, c, h, r, at0, at, s, opens);
      } else {
        CodeUnfinished(bounds, B, c, tests, Code(text, bounds, s, h, r));
        AdvanceStraight(text, bounds, B, blocks, c, h, r, at0, at, s, opens, curhead, nreg);
      }
      StillWaiting(text, B, blocks, c, cur, at0, at, loop, open, s, After(text, s), opens);
    }

    /** The test block, half a phi and the body's block, written at `[`. */
    method WriteLoopHead(ghost loop: Enclosing, ghost open: nat, ghost s: nat, ghost opens: set<nat>) returns (inner: Enclosing)
      requires Ready(text, bounds, blocks, cur, curhead, nreg, at, loop, open, s, opens) && s < |text| && text[s] == '['
      requires Unfinished(bounds, blocks, cur, tests)
      modifies `blocks, `cur, `curhead, `nreg, `at, `tests
      ensures inner.InLoop? && inner.testbb >= |old(blocks)| && cur >= |old(blocks)| && cur != inner.testbb
      ensures Unfinished(bounds, blocks, cur, tests) && tests == old(tests) + {inner.testbb} && inner.testbb !in old(tests)
      ensures Ready(text, bounds, blocks, cur, curhead, nreg, at, inner, s, NextCmd(text, s + 1), opens + {s})
      ensures Waiting(text, blocks, cur, at, loop, open, s, opens)
      ensures Written(old(at), at, old(blocks), blocks, old(cur), cur, -1)
    {
      hide Inv, Waiting, LoopReady, TokenOk, Framed, Grown, Written, Unfinished, NextCmd;
      ghost var B, c, h, r, at0 := blocks, cur, curhead, nreg, at;
      ReadyFacts(text, bounds, blocks, cur, curhead, nreg, at, loop, open, s, opens);
      TestsExist(bounds, B, c, tests);
      var testbb := NewBlock();
      Terminate(cur, Br(testbb));
      var bb0 := cur;
      var bb1 := NewBlock();
      cur := bb1;
      var phi0 := NewReg();
      blocks := blocks[testbb := blocks[testbb].(phis := [Phi(phi0, [Incoming(curhead, bb0)])])];
      curhead := phi0;
      at := at[NextCmd(text, s + 1) := Point(cur, 0, curhead, nreg)];
      inner := InLoop(phi0, bb1, testbb);
      tests := tests + {testbb};
      OpenUnfinished(bounds, B, blocks, c, old(tests), h, r);
      OpenReady(text, bounds, B, blocks, c, h, r, at0, at, loop, open, s, opens);
    }

    /** The loop test written at `]`. */
    method WriteLoopTest(loop: Enclosing, ghost open: nat, ghost s: nat, ghost opens: set<nat>)
      requires Ready(text, bounds, blocks, cur, curhead, nreg, at, loop, open, s, opens) && loop.InLoop?
      requires s < |text| && text[s] == ']' && Segment(text, open + 1, s)
      requires Unfinished(bounds, blocks, cur, tests) && loop.testbb in tests
      modifies `blocks, `cur, `curhead, `nreg, `at, `tests
      ensures Unfinished(bounds, blocks, cur, tests) && tests == old(tests) - {loop.testbb}
      ensures Inv(text, bounds, blocks, cur, curhead, nreg, at, NextCmd(text, s + 1), opens)
      ensures LoopClosed(text, blocks, at, loop, open, s, cur)
      ensures Written(old(at), at, old(blocks), blocks, old(cur), cur, loop.testbb)
      ensures cur >= |old(blocks)|
    {
      hide Inv, Waiting, LoopReady, TokenOk, Framed, Grown, Written, LoopClosed, Unfinished, NextCmd, Pending;
      ghost var B, c, h, r, at0 := blocks, cur, curhead, nreg, at;
      CloseFacts(text, bounds, B, c, h, r, at0, loop, open, s, opens);
      Terminate(cur, Br(loop.testbb));
      var test := blocks[loop.testbb];
      var phi := Phi(loop.phi, test.phis[0].incoming + [Incoming(curhead, cur)]);
      var tape0 := NewReg();
      var test0 := NewReg();
      var afterbb := NewBlock();
      blocks := blocks[loop.testbb := Block([phi], [Load(tape0, loop.phi), IcmpEqZero(test0, tape0)],
                                            CondBr(test0, afterbb, loop.oldbb))];
      cur := afterbb;
      var phi1 := NewReg();
      blocks := blocks[cur := blocks[cur].(phis := [Phi(phi1, [Incoming(loop.phi, loop.testbb)])])];
      curhead := phi1;
      at := at[NextCmd(text, s + 1) := Point(cur, 0, curhead, nreg)];
      assert phi.incoming == [Incoming(at0[open].h, at0[open].b), Incoming(h, c)];
      assert blocks[loop.testbb] == TestBlock(at0[open], Point(c, |B[c].body|, h, r), |B|, loop.oldbb);
      assert blocks[|B|] == Block([Phi(r + 2, [Incoming(loop.phi, loop.testbb)])], [], NoTerm);
      assert Closing(B, blocks, c, h, r, at0, at, NextCmd(text, s + 1), loop, open);
      tests := tests - {loop.testbb};
      CloseUnfinished(bounds, B, blocks, c, old(tests), loop.testbb, Incoming(at0[open].h, at0[open].b),
                      loop.phi, loop.oldbb, h, r, at0[open]);
      CloseReady(text, bounds, B, blocks, c, h, r, at0, at, loop, open, s, opens);
    }

    // ---- the main loop -------------------------------------------------------------

    /** What the error says about the brackets of the whole text, seen from where this loop began. */
    ghost predicate Unbalanced(loop: Enclosing, open: nat, status: Status) {
      && Base(loop, open) <= |text|
      && if loop.Top? then Scan(text, 0, 0) == (if status.ExtraClose? then Extra else Missing)
         else status.MissingClose? && NeverClosed(text, open + 1)
    }

    ghost predicate InTests(loop: Enclosing)
      reads `tests
    {
      if loop.Top? then tests == {} else loop.testbb in tests
    }

    /** The enclosing loop has its test, or the whole function is done. */
    ghost predicate Finished(loop: Enclosing, before: set<Label>)
      reads `blocks, `cur, `tests
    {
      if loop.Top? then WellFormed(blocks)
      else tests == before - {loop.testbb} && Unfinished(bounds, blocks, cur, tests)
    }

    /** Reads and compiles up to the `]` of the enclosing loop, or to the end of the text at
        the top level. `open` is the position of the enclosing `[`, `opens` those of all loops
        that are open. Everything finished before the call stays as it is. */
    method ReadLoop(loop: Enclosing, ghost open: nat, ghost opens: set<nat>) returns (status: Status)
      requires pos <= |text| && pos == Base(loop, open)
      requires Ready(text, bounds, blocks, cur, curhead, nreg, at, loop, open, NextCmd(text, pos), opens)
      requires Unfinished(bounds, blocks, cur, tests) && InTests(loop)
      modifies `pos, `blocks, `cur, `curhead, `nreg, `at, `tests
      ensures status.Done? ==> Finished(loop, old(tests))
      ensures status.Done? ==> Compiled(text, bounds, old(blocks), blocks, old(cur), cur, curhead, nreg, old(at), at, loop, open, opens, pos)
      ensures status.Done? ==> old(pos) <= pos <= |text|
      ensures !status.Done? ==> Unbalanced(loop, open, status)
      decreases |text| - pos, 1
    {
      hide Inv, LoopReady, TokenOk, Framed, Grown, LoopClosed, Written, Ready, Waiting, Compiled, Segment, Fetched, NextCmd,
           RunEnd, RunVal, Close, Open, Scan, NeverClosed, After, Pending, Unfinished, Finished;
      ghost var B0, cur0, at0 := blocks, cur, at;
      ReadyFacts(text, bounds, blocks, cur, curhead, nreg, at, loop, open, NextCmd(text, pos), opens);
      WrittenRefl(at, blocks, cur);
      SegmentNothing(text, pos);
      SegmentSkip(text, pos, pos);
      var cursym, curvalue, nextsym, nextvalue := SymNone, 0, SymNone, 0;
      ghost var s := NextCmd(text, pos);
      while cursym != SymEof && cursym != SymEndLoop
        invariant old(pos) <= s <= |text| && old(pos) <= pos <= |text|
        invariant Segment(text, old(pos), s)
        invariant cursym == SymNone ==> pos == old(pos) && s == NextCmd(text, pos) && nextsym == SymNone
        invariant cursym != SymNone ==> Fetched(text, s, cursym, curvalue, nextsym, nextvalue, pos)
        invariant Ready(text, bounds, blocks, cur, curhead, nreg, at, loop, open, s, opens)
        invariant Written(at0, at, B0, blocks, cur0, cur, -1)
        invariant Unfinished(bounds, blocks, cur, tests) && tests == old(tests)
        decreases |text| - s, cursym == SymNone
      {
        if cursym != SymNone {
          status, s := WriteSymbol(cursym, curvalue, nextsym, nextvalue, loop, open, s, opens, B0, cur0, at0);
          if !status.Done? {
            return;
          }
        }
        cursym, curvalue, nextsym := nextsym, nextvalue, SymNone;
        cursym, curvalue, nextsym, nextvalue := Fetch(cursym, curvalue, s);
      }
      FetchedFacts(text, s, cursym, curvalue, nextsym, nextvalue, pos);
      status := FinishLoop(cursym, loop, open, s, opens, B0, cur0, at0);
    }

    /** The switch on the symbol: token s is compiled, and s' comes next. */
    method WriteSymbol(cursym: Symbol, curvalue: int, ghost nextsym: Symbol, ghost nextvalue: int,
                       loop: Enclosing, ghost open: nat, ghost s: nat, ghost opens: set<nat>,
                       ghost B0: seq<Block>, ghost cur0: Label, ghost at0: Layout)
      returns (status: Status, ghost s': nat)
      requires cursym != SymNone && cursym != SymEof && cursym != SymEndLoop
      requires Fetched(text, s, cursym, curvalue, nextsym, nextvalue, pos)
      requires Base(loop, open) <= s <= |text| && Segment(text, Base(loop, open), s)
      requires Ready(text, bounds, blocks, cur, curhead, nreg, at, loop, open, s, opens)
      requires Written(at0, at, B0, blocks, cur0, cur, -1) && cur0 < |B0|
      requires Unfinished(bounds, blocks, cur, tests)
      modifies `pos, `blocks, `cur, `curhead, `nreg, `at, `tests
      ensures status.Done? ==> Unfinished(bounds, blocks, cur, tests) && tests == old(tests)
      ensures status.Done? ==>
                && s < s' <= |text| && Segment(text, Base(loop, open), s')
                && Ready(text, bounds, blocks, cur, curhead, nreg, at, loop, open, s', opens)
                && Written(at0, at, B0, blocks, cur0, cur, -1)
                && Primed(text, s', nextsym, nextvalue, pos) && old(pos) <= pos
      ensures !status.ExtraClose?
      ensures !status.Done? ==> Unbalanced(loop, open, status)
      decreases |text| - s, 0
    {
      hide Inv, LoopReady, TokenOk, Framed, Grown, LoopClosed, Written, Ready, Waiting, Segment, Fetched, RunEnd, RunVal, Unfinished;
      ghost var base, B1, cur1, at1 := Base(loop, open), blocks, cur, at;
      s' := s;
      FetchedFacts(text, s, cursym, curvalue, nextsym, nextvalue, pos);
      if cursym == SymLoop {
        status := ReadNested(loop, open, s, opens);
        if !status.Done? {
          NestedUnclosed(text, base, s);
          return;
        }
        SegmentLoop(text, base, s, pos - 1);
        SegmentSkip(text, base, pos);
        s' := NextCmd(text, pos);
      } else {
        WriteCommand(cursym, curvalue, loop, open, s, opens);
        SegmentToken(text, base, s);
        s' := After(text, s);
        status := Done;
      }
      WrittenTrans(at0, at1, at, B0, B1, blocks, cur0, cur1, cur, -1);
    }

    /** After the main loop: the loop test at `]`, the branch to the end block at the end of the
        text, and the two errors. */
    method FinishLoop(cursym: Symbol, loop: Enclosing, ghost open: nat, ghost s: nat, ghost opens: set<nat>,
                      ghost B0: seq<Block>, ghost cur0: Label, ghost at0: Layout) returns (status: Status)
      requires Ready(text, bounds, blocks, cur, curhead, nreg, at, loop, open, s, opens)
      requires Base(loop, open) <= s && Segment(text, Base(loop, open), s)
      requires if cursym == SymEof then s == |text| else cursym == SymEndLoop && s < |text| && text[s] == ']'
      requires Written(at0, at, B0, blocks, cur0, cur, -1)
      requires cur0 < |B0| && cur0 != TestLabel(loop) < |B0|
      requires Unfinished(bounds, blocks, cur, tests) && InTests(loop)
      modifies `blocks, `cur, `curhead, `nreg, `at, `tests
      ensures status.Done? ==> Finished(loop, old(tests))
      ensures status.Done? ==> Compiled(text, bounds, B0, blocks, cur0, cur, curhead, nreg, at0, at, loop, open, opens, Past(text, s))
      ensures !status.Done? ==> Unbalanced(loop, open, status)
    {
      hide Inv, Waiting, LoopReady, TokenOk, Framed, Grown, Written, LoopClosed, Close, Open, NextCmd, Unfinished, WellFormed;
      ghost var at1, B1, cur1 := at, blocks, cur;
      ReadyFacts(text, bounds, blocks, cur, curhead, nreg, at, loop, open, s, opens);
      if cursym == SymEndLoop {
        if loop.Top? {
          return ExtraClose;
        }
        WriteLoopTest(loop, open, s, opens);
        WrittenTrans(at0, at1, at, B0, B1, blocks, cur0, cur1, cur, TestLabel(loop));
        return Done;
      }
      Terminate(cur, Br(END));
      if loop.InLoop? {
        return MissingClose;
      }
      EndWellFormed(bounds, B1, cur);
      EndOfText(text, bounds, B1, blocks, cur, curhead, nreg, at, s, opens);
      WrittenTrans(at0, at1, at, B0, B1, blocks, cur0, cur1, cur, -1);
      return Done;
    }

    /** The case of `[`: the loop's head, its body by a recursive call, and its test. */
    method ReadNested(ghost loop: Enclosing, ghost open: nat, ghost s: nat, ghost opens: set<nat>) returns (status: Status)
      requires Ready(text, bounds, blocks, cur, curhead, nreg, at, loop, open, s, opens)
      requires s < |text| && text[s] == '[' && pos == s + 1
      requires Unfinished(bounds, blocks, cur, tests)
      modifies `pos, `blocks, `cur, `curhead, `nreg, `at, `tests
      ensures status.Done? ==> Unfinished(bounds, blocks, cur, tests) && tests == old(tests)
      ensures status.Done? ==>
                && Written(old(at), at, old(blocks), blocks, old(cur), cur, -1)
                && s + 1 < pos <= |text| && text[pos - 1] == ']' && Segment(text, s + 1, pos - 1)
                && Ready(text, bounds, blocks, cur, curhead, nreg, at, loop, open, NextCmd(text, pos), opens)
      ensures !status.ExtraClose?
      ensures !status.Done? ==> NeverClosed(text, s + 1)
      decreases |text| - pos, 2
    {
      ghost var at0, B0, cur0 := at, blocks, cur;
      hide *;
      ReadyFacts(text, bounds, blocks, cur, curhead, nreg, at, loop, open, s, opens);
      var inner := WriteLoopHead(loop, open, s, opens);
      BaseOfLoop(inner, s);
      NowInTests(inner);
      ghost var at1, B1, cur1, h1, r1 := at, blocks, cur, curhead, nreg;
      status := ReadLoop(inner, s, opens + {s});
      if status.Done? {
        NowFinished(inner, old(tests) + {inner.testbb});
        NestedDone(text, bounds, B1, blocks, cur1, cur, curhead, nreg, h1, r1, at1, at, loop, open, inner, s, pos, opens);
        WrittenTrans(at0, at1, at, B0, B1, blocks, cur0, cur1, cur, inner.testbb);
      } else {
        UnbalancedInLoop(inner, s, status);
      }
    }

    lemma NowInTests(loop: Enclosing)
      requires loop.InLoop? && loop.testbb in tests
      ensures InTests(loop)
    {
    }

    lemma NowFinished(loop: Enclosing, before: set<Label>)
      requires loop.InLoop? && Finished(loop, before)
      ensures tests == before - {loop.testbb} && Unfinished(bounds, blocks, cur, tests)
    {
    }

    lemma UnbalancedInLoop(loop: Enclosing, open: nat, status: Status)
      requires loop.InLoop? && Unbalanced(loop, open, status)
      ensures open < |text| && NeverClosed(text, open + 1) && status.MissingClose?
    {
    }

    /** BrainF::parse: a new compiler object compiles exactly the balanced programs, and
        every token of the program is then correctly laid out. An extra `]` is reported if and only if
        somewhere more has been closed than opened, and a missing one if and only if nowhere, but in all
        more has been opened than closed. */
    method Parse() returns (status: Status)
      requires pos == 0 && blocks == []
      modifies this
      ensures status.ExtraClose? <==> exists n: nat :: n <= |text| && ClosesMore(text, n)
      ensures status.MissingClose? <==> !status.ExtraClose? && multiset(text)['['] > multiset(text)[']']
      ensures status.Done? <==> !status.ExtraClose? && multiset(text)['['] == multiset(text)[']']
      ensures status.Done? ==> Laid(text, memtotal, bounds, blocks, at)
      ensures status.Done? ==> WellFormed(blocks)
    {
      hide WellFormed, Unfinished;
      BracketsCount(text);
      Header();
      ghost var B, c := blocks, cur;
      status := ReadLoop(Top, 0, {});
      if status.Done? {
        assert Scan(text, 0, 0) == Scan(text, |text|, 0);
        HeaderStaysOk(memtotal, bounds, B, blocks, c, -1);
      }
    }
  }
}
