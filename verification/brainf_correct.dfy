/** The emitted function does what the program says. The link between the two machines is
    kept at token boundaries; between two of them each machine takes at least one step. */
module BrainFCorrect {
  import opened BrainFSource
  import opened BrainFIR
  import opened BrainFLayout

  /** malloc returned a block of the right size that does not wrap around, as C requires;
      the tape size is a positive int. */
  predicate Placed(mem: nat, arr: nat) {
    0 < mem < 0x8000_0000 && arr + mem < ADDRESS_SPACE
  }

  // ---- The language token by token -------------------------------------------------

  /** One token, runs merged: `Off` if a run leaves the head outside the tape. Only the end
      of a run counts, and its length is a C int. */
  function TokenStep(text: string, s: Src): (s': Src)
    requires s.On? && OnTape(text, s) && s.pc < |text| && IsToken(text, s.pc)
    ensures s'.On? ==> OnTape(text, s') && |s'.tape| == |s.tape| && IsToken(text, s'.pc)
    ensures s'.On? ==> s.output <= s'.output
  {
    var k := s.pc;
    if text[k] == '[' then
      var c := Close(text, k + 1, 0);
      var next := if s.tape[s.head] != 0 then k + 1 else if c < |text| then c + 1 else c;
      NextCmdStable(text, next);
      s.(pc := NextCmd(text, next))
    else if text[k] == ']' then
      var o := Open(text, k, 0);
      var next := if s.tape[s.head] != 0 then o + 1 else k + 1;
      NextCmdStable(text, next);
      s.(pc := NextCmd(text, next))
    else if IsMove(text, k) then
      var h := s.head + ToInt32(RunVal(text, k, Move));
      if 0 <= h < |s.tape| then s.(head := h, pc := After(text, k)) else Off
    else if KindOf(text[k]) == Change then Bump(s, RunVal(text, k, Change), After(text, k))
    else if text[k] == ',' then
      if s.input == [] then s.(tape := s.tape[s.head := 255], pc := After(text, k))
      else s.(tape := s.tape[s.head := s.input[0]], input := s.input[1..], pc := After(text, k))
    else s.(output := s.output + [s.tape[s.head]], pc := After(text, k))
  }

  lemma ToInt32Small(k: int)
    requires -0x8000_0000 <= k < 0x8000_0000
    ensures ToInt32(k) == k
  {
  }

  /** The character machine passes through the token machine's states, unless its head leaves
      the tape on the way. */
  lemma TokenBySource(text: string, s: Src) returns (n: nat)
    requires s.On? && OnTape(text, s) && s.pc < |text| && IsToken(text, s.pc)
    requires |s.tape| < 0x8000_0000
    requires text[s.pc] == ']' ==> var o := Open(text, s.pc, 0); text[o] == '[' && Close(text, o + 1, 0) == s.pc
    ensures n > 0
    ensures Run(text, s, n).Off? || Run(text, s, n) == TokenStep(text, s)
  {
    if KindOf(text[s.pc]) == Change {
      n := RunOfChanges(text, s);
    } else if IsMove(text, s.pc) {
      n := RunOfMoves(text, s);
      if Run(text, s, n).On? {
        ToInt32Small(RunVal(text, s.pc, Move));
      }
    } else {
      n := BracketBySource(text, s);
    }
  }

  lemma BracketBySource(text: string, s: Src) returns (n: nat)
    requires s.On? && OnTape(text, s) && s.pc < |text| && IsToken(text, s.pc) && KindOf(text[s.pc]) == Single
    requires text[s.pc] == ']' ==> var o := Open(text, s.pc, 0); text[o] == '[' && Close(text, o + 1, 0) == s.pc
    ensures n > 0 && Run(text, s, n) == TokenStep(text, s)
  {
    var s1 := Step(text, s);
    n := 1;
    assert Run(text, s, 1) == s1;
    if text[s.pc] == ']' {
      assert Run(text, s, 2) == Run(text, s1, 1) == Step(text, s1);
      s1 := Step(text, s1);
      n := 2;
    }
    var k := SkipComments(text, s1);
    RunPlus(text, s, n, k);
    n := n + k;
  }

  // ---- The link ----------------------------------------------------------------------

  /** Registers that every token relies on. */
  predicate EnvOk(bounds: bool, arr: nat, mem: nat, env: map<Reg, int>) {
    && ARR in env && env[ARR] == arr
    && (bounds ==> ARRMAX in env && env[ARRMAX] == arr + mem)
  }

  ghost predicate Sync(text: string, mem: nat, bounds: bool, at: Layout, arr: nat, s: Src, m: Machine) {
    && s.On? && OnTape(text, s) && IsToken(text, s.pc) && |s.tape| == mem
    && s.pc in at && m.Running?
    && m.b == at[s.pc].b && m.i == at[s.pc].i
    && EnvOk(bounds, arr, mem, m.env)
    && at[s.pc].h in m.env && m.env[at[s.pc].h] == arr + s.head
    && m.mem == s.tape && m.input == s.input && m.output == s.output
  }

  /** Straight-line code is executed instruction by instruction. */
  function ExecAll(code: seq<Instr>, arr: nat, m: Machine): (m': Machine)
    requires m.Running?
    ensures m'.Running? ==> m'.b == m.b && m'.i == m.i + |code|
  {
    if code == [] then m
    else
      var m1 := Exec(code[0], arr, m);
      if m1.Running? then ExecAll(code[1..], arr, m1) else m1
  }

  lemma {:induction false} RunCode(B: seq<Block>, p: Point, code: seq<Instr>, arr: nat, m: Machine)
    requires CodeAt(B, p, code)
    requires m.Running? && m.b == p.b && m.i == p.i
    ensures RunIR(B, arr, m, |code|) == ExecAll(code, arr, m)
    decreases |code|
  {
    if code != [] {
      assert B[p.b].body[p.i + 0] == code[0];
      var m1 := StepIR(B, arr, m);
      if m1.Running? {
        var p1 := p.(i := p.i + 1);
        forall j | 0 <= j < |code[1..]|
          ensures B[p.b].body[p1.i + j] == code[1..][j]
        {
          assert B[p.b].body[p.i + (j + 1)] == code[j + 1];
        }
        RunCode(B, p1, code[1..], arr, m1);
      } else {
        EndedStays(B, arr, m1, |code| - 1);
      }
    }
  }

  lemma ExecThree(i: Instr, j: Instr, k: Instr, arr: nat, m: Machine)
    requires m.Running?
    requires Exec(i, arr, m).Running? && Exec(j, arr, Exec(i, arr, m)).Running?
    ensures ExecAll([i, j, k], arr, m) == Exec(k, arr, Exec(j, arr, Exec(i, arr, m)))
  {
    var m1 := Exec(i, arr, m);
    var m2 := Exec(j, arr, m1);
    assert [i, j, k][1..] == [j, k] && [j, k][1..] == [k] && [k][1..] == [];
    assert ExecAll([k], arr, m2) == Exec(k, arr, m2);
    assert ExecAll([j, k], arr, m1) == ExecAll([k], arr, m2);
  }

  /** `,` `.` and runs of `+-` leave the cell, the input and the output as the language says, and
      no register that matters later. */
  lemma ExecRead(h: Reg, r: Reg, arr: nat, s: Src, m: Machine)
    requires s.On? && s.head < |s.tape| && m.Running? && ARRMAX < h < r
    requires h in m.env && m.env[h] == arr + s.head && m.mem == s.tape && m.input == s.input
    ensures var m' := ExecAll([GetChar(r), TruncI8(r + 1, r), Store(r + 1, h)], arr, m);
            && m'.Running? && m'.output == m.output
            && m'.input == (if s.input == [] then [] else s.input[1..])
            && m'.mem == s.tape[s.head := if s.input == [] then 255 else s.input[0]]
            && forall x | x in m.env && x < r :: x in m'.env && m'.env[x] == m.env[x]
  {
    var m1 := Exec(GetChar(r), arr, m);
    var m2 := Exec(TruncI8(r + 1, r), arr, m1);
    ExecThree(GetChar(r), TruncI8(r + 1, r), Store(r + 1, h), arr, m);
  }

  lemma ExecWrite(h: Reg, r: Reg, arr: nat, s: Src, m: Machine)
    requires s.On? && s.head < |s.tape| && m.Running? && ARRMAX < h < r
    requires h in m.env && m.env[h] == arr + s.head && m.mem == s.tape
    ensures var m' := ExecAll([Load(r, h), SExtI32(r + 1, r), PutChar(r + 1)], arr, m);
            && m'.Running? && m'.mem == m.mem && m'.input == m.input
            && m'.output == m.output + [s.tape[s.head]]
            && forall x | x in m.env && x < r :: x in m'.env && m'.env[x] == m.env[x]
  {
    var m1 := Exec(Load(r, h), arr, m);
    var m2 := Exec(SExtI32(r + 1, r), arr, m1);
    ExecThree(Load(r, h), SExtI32(r + 1, r), PutChar(r + 1), arr, m);
    assert SignedByte(s.tape[s.head]) % 256 == s.tape[s.head];
  }

  lemma ExecChange(h: Reg, r: Reg, v: int, arr: nat, s: Src, m: Machine)
    requires s.On? && s.head < |s.tape| && m.Running? && ARRMAX < h < r
    requires h in m.env && m.env[h] == arr + s.head && m.mem == s.tape
    ensures var m' := ExecAll([Load(r, h), AddI8(r + 1, r, v % 256), Store(r + 1, h)], arr, m);
            && m'.Running? && m'.input == m.input && m'.output == m.output
            && m'.mem == s.tape[s.head := (s.tape[s.head] + v) % 256]
            && forall x | x in m.env && x < r :: x in m'.env && m'.env[x] == m.env[x]
  {
    var m1 := Exec(Load(r, h), arr, m);
    var m2 := Exec(AddI8(r + 1, r, v % 256), arr, m1);
    ExecThree(Load(r, h), AddI8(r + 1, r, v % 256), Store(r + 1, h), arr, m);
    assert (s.tape[s.head] + v % 256) % 256 % 256 == (s.tape[s.head] + v) % 256 by {
      assert v == v % 256 + 256 * (v / 256);
    }
  }

  lemma SyncSimple(text: string, mem: nat, bounds: bool, B: seq<Block>, at: Layout, arr: nat, s: Src, m: Machine)
    requires Sync(text, mem, bounds, at, arr, s, m)
    requires IsStraight(text, s.pc) && !IsMove(text, s.pc)
    requires StraightOk(text, bounds, B, at, s.pc) && ARRMAX < at[s.pc].h < at[s.pc].r
    ensures Sync(text, mem, bounds, at, arr, TokenStep(text, s), RunIR(B, arr, m, 3))
  {
    hide Exec, ExecAll, StepIR, RunIR, RunVal, RunEnd, NextCmd;
    var p := at[s.pc];
    RunCode(B, p, Code(text, bounds, s.pc, p.h, p.r), arr, m);
    if text[s.pc] == ',' {
      ExecRead(p.h, p.r, arr, s, m);
    } else if text[s.pc] == '.' {
      ExecWrite(p.h, p.r, arr, s, m);
    } else {
      ExecChange(p.h, p.r, RunVal(text, s.pc, Change), arr, s, m);
    }
  }

  // ---- moves -------------------------------------------------------------------------

  /** The head's new address, as getelementptr computes it, is on the tape exactly when the new
      head is. */
  lemma MovedAddress(mem: nat, arr: nat, head: nat, k: int)
    requires Placed(mem, arr) && head < mem
    ensures var a := (arr + head + ToInt32(k)) % ADDRESS_SPACE;
            && (arr <= a < arr + mem <==> 0 <= head + ToInt32(k) < mem)
            && (0 <= head + ToInt32(k) < mem ==> a == arr + head + ToInt32(k))
  {
    var x := arr + head + ToInt32(k);
    assert -0x8000_0000 <= ToInt32(k) < 0x8000_0000;
    if x < 0 {
      assert x % ADDRESS_SPACE == x + ADDRESS_SPACE;
    } else if x >= ADDRESS_SPACE {
      assert x % ADDRESS_SPACE == x - ADDRESS_SPACE;
    }
  }

  lemma SyncMove(text: string, mem: nat, B: seq<Block>, at: Layout, arr: nat, s: Src, m: Machine)
    requires Placed(mem, arr) && Sync(text, mem, false, at, arr, s, m)
    requires IsStraight(text, s.pc) && IsMove(text, s.pc)
    requires StraightOk(text, false, B, at, s.pc) && ARRMAX < at[s.pc].h < at[s.pc].r
    requires TokenStep(text, s).On?
    ensures Sync(text, mem, false, at, arr, TokenStep(text, s), RunIR(B, arr, m, 1))
  {
    var p := at[s.pc];
    RunCode(B, p, Code(text, false, s.pc, p.h, p.r), arr, m);
    MovedAddress(mem, arr, s.head, RunVal(text, s.pc, Move));
    assert [Gep(p.r, p.h, ToInt32(RunVal(text, s.pc, Move)))][1..] == [];
  }

  /** The move and the two comparisons, up to the branch. */
  lemma ExecChecked(mem: nat, h: Reg, r: Reg, v: int, arr: nat, head: nat, m: Machine)
    requires Placed(mem, arr) && head < mem && m.Running? && ARRMAX < h < r
    requires h in m.env && m.env[h] == arr + head && EnvOk(true, arr, mem, m.env)
    ensures var m' := ExecAll([Gep(r, h, ToInt32(v)), IcmpUge(r + 1, r, ARRMAX), IcmpUlt(r + 2, r, ARR), OrI1(r + 3, r + 1, r + 2)], arr, m);
            && m'.Running? && m' == m.(i := m.i + 4, env := m'.env)
            && EnvOk(true, arr, mem, m'.env) && r in m'.env && r + 3 in m'.env
            && (m'.env[r + 3] == 1 <==> !(0 <= head + ToInt32(v) < mem))
            && (0 <= head + ToInt32(v) < mem ==> m'.env[r] == arr + head + ToInt32(v))
  {
    MovedAddress(mem, arr, head, v);
    var g, u, l, o := Gep(r, h, ToInt32(v)), IcmpUge(r + 1, r, ARRMAX), IcmpUlt(r + 2, r, ARR), OrI1(r + 3, r + 1, r + 2);
    var m1 := Exec(g, arr, m);
    ExecThree(u, l, o, arr, m1);
    assert [g, u, l, o][1..] == [u, l, o];
  }

  /** What the error block and the end block do. */
  lemma Aborts(mem: nat, B: seq<Block>, arr: nat, m: Machine)
    requires HeaderOk(mem, true, B) && m.Running? && m.b == ABERROR && m.i == 0 && ARR in m.env
    ensures RunIR(B, arr, m, 4) == Returned(m.mem, m.output + ErrorBytes())
  {
    var m1 := StepIR(B, arr, m);
    var m2 := StepIR(B, arr, m1);
    assert m2.b == END && m2.i == 0 && ARR in m2.env;
    Ends(mem, true, B, arr, m2);
    assert RunIR(B, arr, m, 2) == RunIR(B, arr, m1, 1) == m2;
    RunIRPlus(B, arr, m, 2, 2);
  }

  lemma Ends(mem: nat, bounds: bool, B: seq<Block>, arr: nat, m: Machine)
    requires HeaderOk(mem, bounds, B) && m.Running? && m.b == END && m.i == 0 && ARR in m.env
    ensures RunIR(B, arr, m, 2) == Returned(m.mem, m.output)
  {
    var m1 := StepIR(B, arr, m);
    var m2 := StepIR(B, arr, m1);
    assert RunIR(B, arr, m, 2) == RunIR(B, arr, m1, 1) == m2;
  }

  lemma SyncChecked(text: string, mem: nat, B: seq<Block>, at: Layout, arr: nat, s: Src, m: Machine)
    requires Placed(mem, arr) && Sync(text, mem, true, at, arr, s, m)
    requires HeaderOk(mem, true, B)
    requires IsStraight(text, s.pc) && IsMove(text, s.pc)
    requires StraightOk(text, true, B, at, s.pc) && ARRMAX < at[s.pc].h < at[s.pc].r
    ensures TokenStep(text, s).On? ==> Sync(text, mem, true, at, arr, TokenStep(text, s), RunIR(B, arr, m, 5))
    ensures TokenStep(text, s).Off? ==> RunIR(B, arr, m, 9) == Returned(s.tape, s.output + ErrorBytes())
  {
    hide Exec, ExecAll, StepIR, RunIR, RunVal, RunEnd, NextCmd, HeaderOk, ToInt32, ErrorBytes;
    var p, v, n := at[s.pc], RunVal(text, s.pc, Move), at[After(text, s.pc)];
    RunCode(B, p, Code(text, true, s.pc, p.h, p.r), arr, m);
    ExecChecked(mem, p.h, p.r, v, arr, s.head, m);
    var m4 := RunIR(B, arr, m, 4);
    ErrorBlockHasNoPhi(mem, B);
    BranchTaken(B, arr, m4, CondBr(p.r + 3, ABERROR, n.b));
    if TokenStep(text, s).Off? {
      Aborts(mem, B, arr, m4.(b := ABERROR, i := 0));
      RunIRPlus(B, arr, m4, 1, 4);
      RunIRPlus(B, arr, m, 4, 5);
    } else {
      RunIRPlus(B, arr, m, 4, 1);
    }
  }

  lemma ErrorBlockHasNoPhi(mem: nat, B: seq<Block>)
    requires HeaderOk(mem, true, B)
    ensures ABERROR < |B| && B[ABERROR].phis == []
  {
  }

  /** Where control goes at the end of a block. */
  function Target(t: Term, env: map<Reg, int>): Label
    requires t.Br? || (t.CondBr? && t.c in env)
  {
    if t.Br? then t.l else if env[t.c] == 1 then t.yes else t.no
  }

  lemma BranchTaken(B: seq<Block>, arr: nat, m: Machine, t: Term)
    requires m.Running? && EndsAt(B, m.b, m.i, t)
    requires t.Br? || (t.CondBr? && t.c in m.env)
    requires Target(t, m.env) < |B|
    ensures var l := Target(t, m.env);
            RunIR(B, arr, m, 1) == m.(b := l, i := 0, env := m.env + PhiEnv(B[l].phis, m.b, m.env))
    ensures B[Target(t, m.env)].phis == [] ==>
              RunIR(B, arr, m, 1) == m.(b := Target(t, m.env), i := 0)
  {
    assert RunIR(B, arr, m, 1) == StepIR(B, arr, m);
    assert m.env + map[] == m.env;
  }

  // ---- loops -------------------------------------------------------------------------

  /** Into the test block by either edge, with the head's address in x: the phi's register holds it. */
  lemma EnterTest(B: seq<Block>, arr: nat, m: Machine, p: Point, q: Point, t: Label, x: Reg, after: Label, body: Label)
    requires m.Running? && EndsAt(B, m.b, m.i, Br(t))
    requires t < |B| && B[t] == TestBlock(p, q, after, body) && q.b != p.b
    requires (m.b == p.b && x == p.h) || (m.b == q.b && x == q.h)
    requires x in m.env
    ensures RunIR(B, arr, m, 1) == m.(b := t, i := 0, env := m.env[p.r := m.env[x]])
  {
    BranchTaken(B, arr, m, Br(t));
    OnePhi(B[t].phis[0], m.b, m.env, x);
    assert m.env + map[p.r := m.env[x]] == m.env[p.r := m.env[x]];
  }

  lemma TestCode(B: seq<Block>, arr: nat, m: Machine, p: Point, q: Point, t: Label, after: Label, body: Label, head: nat)
    requires m.Running? && m.b == t && m.i == 0
    requires t < |B| && B[t] == TestBlock(p, q, after, body) && q.r > p.r
    requires p.r in m.env && m.env[p.r] == arr + head && head < |m.mem|
    ensures RunIR(B, arr, m, 2) ==
            m.(i := 2, env := m.env[q.r := m.mem[head]][q.r + 1 := if m.mem[head] == 0 then 1 else 0])
  {
    var code := [Load(q.r, p.r), IcmpEqZero(q.r + 1, q.r)];
    RunCode(B, Point(t, 0, p.r, q.r), code, arr, m);
    assert code[1..] == [IcmpEqZero(q.r + 1, q.r)] && code[1..][1..] == [];
  }

  /** Load, compare, branch: into the body or behind the loop, where another phi renames the head. */
  lemma RunTest(B: seq<Block>, arr: nat, m: Machine, p: Point, q: Point, t: Label, after: Label, body: Label, head: nat)
    requires m.Running? && m.b == t && m.i == 0
    requires t < |B| && B[t] == TestBlock(p, q, after, body) && q.r > p.r
    requires p.r in m.env && m.env[p.r] == arr + head && head < |m.mem|
    requires after < |B| && body < |B| && B[body].phis == []
    requires B[after].phis == [Phi(q.r + 2, [Incoming(p.r, t)])]
    ensures var env := m.env[q.r := m.mem[head]][q.r + 1 := if m.mem[head] == 0 then 1 else 0];
            RunIR(B, arr, m, 3) ==
            if m.mem[head] == 0 then m.(b := after, i := 0, env := env[q.r + 2 := arr + head])
            else m.(b := body, i := 0, env := env)
  {
    hide RunIR, StepIR, Exec, ExecAll;
    TestCode(B, arr, m, p, q, t, after, body, head);
    AfterTest(B, arr, RunIR(B, arr, m, 2), p, q, t, after, body);
    RunIRPlus(B, arr, m, 2, 1);
  }

  lemma AfterTest(B: seq<Block>, arr: nat, m: Machine, p: Point, q: Point, t: Label, after: Label, body: Label)
    requires m.Running? && m.b == t && m.i == 2
    requires t < |B| && B[t] == TestBlock(p, q, after, body)
    requires p.r in m.env && q.r + 1 in m.env
    requires after < |B| && body < |B| && B[body].phis == []
    requires B[after].phis == [Phi(q.r + 2, [Incoming(p.r, t)])]
    ensures RunIR(B, arr, m, 1) ==
            if m.env[q.r + 1] == 1 then m.(b := after, i := 0, env := m.env[q.r + 2 := m.env[p.r]])
            else m.(b := body, i := 0)
  {
    BranchTaken(B, arr, m, CondBr(q.r + 1, after, body));
    if m.env[q.r + 1] == 1 {
      OnePhi(B[after].phis[0], t, m.env, p.r);
      assert m.env + map[q.r + 2 := m.env[p.r]] == m.env[q.r + 2 := m.env[p.r]];
    }
  }

  /** The environment after a turn through the test block of the loop at o. */
  function TurnEnv(p: Point, q: Point, env: map<Reg, int>, addr: int, cell: Byte): map<Reg, int> {
    var tested := env[p.r := addr][q.r := cell][q.r + 1 := if cell == 0 then 1 else 0];
    if cell == 0 then tested[q.r + 2 := addr] else tested
  }

  lemma LoopTurn(B: seq<Block>, arr: nat, m: Machine, p: Point, q: Point, t: Label, x: Reg, after: Label, body: Label, head: nat)
    requires m.Running? && EndsAt(B, m.b, m.i, Br(t))
    requires t < |B| && B[t] == TestBlock(p, q, after, body) && q.b != p.b && q.r > p.r
    requires (m.b == p.b && x == p.h) || (m.b == q.b && x == q.h)
    requires x in m.env && m.env[x] == arr + head && head < |m.mem|
    requires after < |B| && body < |B| && B[body].phis == []
    requires B[after].phis == [Phi(q.r + 2, [Incoming(p.r, t)])]
    ensures RunIR(B, arr, m, 4) ==
            m.(b := if m.mem[head] == 0 then after else body, i := 0, env := TurnEnv(p, q, m.env, arr + head, m.mem[head]))
  {
    hide RunIR, StepIR;
    EnterTest(B, arr, m, p, q, t, x, after, body);
    RunTest(B, arr, RunIR(B, arr, m, 1), p, q, t, after, body, head);
    RunIRPlus(B, arr, m, 1, 3);
  }

  /** For the token machine, either bracket of a loop tests the cell and goes into the body or behind the loop. */
  lemma BracketStep(text: string, s: Src, o: nat)
    requires s.On? && OnTape(text, s) && s.pc < |text| && IsToken(text, s.pc)
    requires o < |text| && text[o] == '[' && Close(text, o + 1, 0) < |text|
    requires s.pc == o || (s.pc == Close(text, o + 1, 0) && Open(text, s.pc, 0) == o)
    ensures TokenStep(text, s) ==
            s.(pc := NextCmd(text, if s.tape[s.head] == 0 then Close(text, o + 1, 0) + 1 else o + 1))
  {
  }

  /** `[` and `]`: both go through the loop's test block. */
  lemma SyncBracket(text: string, mem: nat, bounds: bool, B: seq<Block>, at: Layout, arr: nat, s: Src, m: Machine, o: nat)
    requires Sync(text, mem, bounds, at, arr, s, m)
    requires o < |text| && text[o] == '[' && o in at && OpenOk(text, B, at, o)
    requires s.pc == o || (s.pc == Close(text, o + 1, 0) && CloseOk(text, B, at, s.pc))
    requires Open(text, s.pc, 0) == o || s.pc == o
    requires ARRMAX < at[o].r
    ensures Sync(text, mem, bounds, at, arr, TokenStep(text, s), RunIR(B, arr, m, 4))
  {
    hide RunIR, NextCmd, Close, Open, IsMove, IsStraight, TokenStep, TurnEnv;
    var c := Close(text, o + 1, 0);
    LoopTurn(B, arr, m, at[o], at[c], B[at[o].b].term.l, at[s.pc].h,
             at[NextCmd(text, c + 1)].b, at[NextCmd(text, o + 1)].b, s.head);
    BracketStep(text, s, o);
    NextCmdStable(text, o + 1);
    NextCmdStable(text, c + 1);
    SyncMoves(text, mem, bounds, at, arr, s, m, NextCmd(text, if s.tape[s.head] == 0 then c + 1 else o + 1),
              at[o], at[c], s.tape[s.head]);
  }

  /** Only the position and the registers have changed. */
  lemma SyncMoves(text: string, mem: nat, bounds: bool, at: Layout, arr: nat, s: Src, m: Machine, n: nat, p: Point, q: Point, cell: Byte)
    requires Sync(text, mem, bounds, at, arr, s, m)
    requires IsToken(text, n) && n in at && ARRMAX < p.r < q.r
    requires at[n].i == 0 && at[n].h == if cell == 0 then q.r + 2 else p.r
    ensures Sync(text, mem, bounds, at, arr, s.(pc := n),
                 m.(b := at[n].b, i := 0, env := TurnEnv(p, q, m.env, arr + s.head, cell)))
  {
    hide NextCmd;
  }

  lemma OnePhi(phi: Phi, from: Label, env: map<Reg, int>, x: Reg)
    requires Pick(phi.incoming, from) == [x] && x in env
    ensures PhiEnv([phi], from, env) == map[phi.dst := env[x]]
  {
    assert [phi][1..] == [];
  }

  // ---- whole runs --------------------------------------------------------------------

  /** One token: either both machines reach the next boundary, or the head has left the tape and
      the checked program prints its message and returns. */
  lemma SyncStep(text: string, mem: nat, bounds: bool, B: seq<Block>, at: Layout, arr: nat, s: Src, m: Machine) returns (n: nat)
    requires Placed(mem, arr) && Laid(text, mem, bounds, B, at) && Sync(text, mem, bounds, at, arr, s, m)
    requires s.pc < |text| && (!bounds ==> TokenStep(text, s).On?)
    ensures n > 0
    ensures TokenStep(text, s).On? ==> Sync(text, mem, bounds, at, arr, TokenStep(text, s), RunIR(B, arr, m, n))
    ensures TokenStep(text, s).Off? ==> RunIR(B, arr, m, n) == Returned(s.tape, s.output + ErrorBytes())
  {
    hide RunIR, NextCmd, Close, Open, RunEnd, RunVal, Sync;
    InSync(text, mem, bounds, at, arr, s, m);
    assert TokenOk(text, bounds, B, at, s.pc);
    if text[s.pc] == '[' {
      SyncBracket(text, mem, bounds, B, at, arr, s, m, s.pc);
      n := 4;
    } else if text[s.pc] == ']' {
      var o := Open(text, s.pc, 0);
      assert TokenOk(text, bounds, B, at, o);
      SyncBracket(text, mem, bounds, B, at, arr, s, m, o);
      n := 4;
    } else if !IsMove(text, s.pc) {
      SyncSimple(text, mem, bounds, B, at, arr, s, m);
      n := 3;
    } else if bounds {
      SyncChecked(text, mem, B, at, arr, s, m);
      n := if TokenStep(text, s).On? then 5 else 9;
    } else {
      SyncMove(text, mem, B, at, arr, s, m);
      n := 1;
    }
  }

  lemma CloseHasOpen(text: string, mem: nat, bounds: bool, B: seq<Block>, at: Layout, k: nat)
    requires Laid(text, mem, bounds, B, at) && k in at && k < |text| && text[k] == ']'
    ensures var o := Open(text, k, 0); text[o] == '[' && Close(text, o + 1, 0) == k
  {
    hide Open, Close, NextCmd, HeaderOk;
    assert TokenOk(text, bounds, B, at, k);
  }

  lemma InSync(text: string, mem: nat, bounds: bool, at: Layout, arr: nat, s: Src, m: Machine)
    requires Sync(text, mem, bounds, at, arr, s, m)
    ensures s.On? && OnTape(text, s) && s.pc in at && IsToken(text, s.pc)
  {
  }

  /** At the end of the text the function returns, and the tape is the program's. */
  lemma SyncEnd(text: string, mem: nat, bounds: bool, B: seq<Block>, at: Layout, arr: nat, s: Src, m: Machine)
    requires Laid(text, mem, bounds, B, at) && Sync(text, mem, bounds, at, arr, s, m)
    requires s.pc == |text|
    ensures RunIR(B, arr, m, 3) == Returned(s.tape, s.output)
  {
    assert TokenOk(text, bounds, B, at, s.pc);
    BranchTaken(B, arr, m, Br(END));
    Ends(mem, bounds, B, arr, RunIR(B, arr, m, 1));
    RunIRPlus(B, arr, m, 1, 2);
  }

  /** The first boundary. */
  function First(text: string, mem: nat, input: seq<Byte>): Src
    requires mem > 0
  {
    On(NextCmd(text, 0), mem / 2, seq(mem, _ => 0), input, [])
  }

  lemma Booted(text: string, mem: nat, bounds: bool, B: seq<Block>, at: Layout, arr: nat, garbage: seq<Byte>, input: seq<Byte>)
    requires Placed(mem, arr) && Laid(text, mem, bounds, B, at) && |garbage| == mem
    ensures Sync(text, mem, bounds, at, arr, First(text, mem, input),
                 RunIR(B, arr, Boot(garbage, input), |HeaderCode(mem, bounds)|))
  {
    var code := HeaderCode(mem, bounds);
    var m0 := Boot(garbage, input);
    RunCode(B, Point(ENTRY, 0, 2, 3), code, arr, m0);
    HeaderRuns(mem, bounds, arr, m0);
    NextCmdStable(text, 0);
  }

  lemma HeaderRuns(mem: nat, bounds: bool, arr: nat, m: Machine)
    requires Placed(mem, arr) && m.Running? && |m.mem| == mem && m.env == map[]
    ensures var m' := ExecAll(HeaderCode(mem, bounds), arr, m);
            && m'.Running? && m'.mem == seq(mem, _ => 0) && m'.input == m.input && m'.output == m.output
            && EnvOk(bounds, arr, mem, m'.env) && 2 in m'.env && m'.env[2] == arr + mem / 2
  {
    var m1 := Exec(Malloc(ARR), arr, m);
    var m2 := Exec(Memset(ARR, mem), arr, m1);
    var g, h := Gep(ARRMAX, ARR, mem), Gep(2, ARR, mem / 2);
    assert m2.Running?;
    if bounds {
      ExecThree(Memset(ARR, mem), g, h, arr, m1);
      assert HeaderCode(mem, bounds) == [Malloc(ARR), Memset(ARR, mem), g, h];
      assert [Malloc(ARR), Memset(ARR, mem), g, h][1..] == [Memset(ARR, mem), g, h];
    } else {
      ExecThree(Malloc(ARR), Memset(ARR, mem), h, arr, m);
      assert HeaderCode(mem, bounds) == [Malloc(ARR), Memset(ARR, mem), h];
    }
  }
}
