/** Whole runs of the emitted function against whole runs of the program. */
module BrainFTheorems {
  import opened BrainFSource
  import opened BrainFIR
  import opened BrainFLayout
  import opened BrainFCorrect

  /** A compiled program, the address and the old contents of the memory that malloc returns,
      and what stdin holds. */
  datatype Setup = Setup(text: string, mem: nat, bounds: bool, blocks: seq<Block>, at: Layout,
                         arr: nat, garbage: seq<Byte>, input: seq<Byte>)
  {
    ghost predicate Ok() {
      Placed(mem, arr) && Laid(text, mem, bounds, blocks, at) && |garbage| == mem
    }

    /** The program after k characters, and the emitted function after m instructions. */
    ghost function Source(k: nat): (s: Src)
      requires mem > 0
      ensures s.On? ==> |s.tape| == mem && s.head < mem && s.pc <= |text|
    {
      Run(text, Start(mem, input), k)
    }

    ghost function Target(m: nat): Machine {
      RunIR(blocks, arr, Boot(garbage, input), m)
    }

    ghost predicate Halted(k: nat)
      requires mem > 0
    {
      Source(k).On? && Source(k).pc == |text|
    }

    /** The head never leaves the tape. */
    ghost predicate StaysOnTape()
      requires mem > 0
    {
      forall k: nat :: Source(k).On?
    }

    ghost predicate InStep(s: Src, m: Machine) {
      Sync(text, mem, bounds, at, arr, s, m)
    }
  }

  lemma SourcePlus(c: Setup, k: nat, j: nat)
    requires c.mem > 0
    ensures c.Source(k + j) == Run(c.text, c.Source(k), j)
  {
    RunPlus(c.text, Start(c.mem, c.input), k, j);
  }

  lemma TargetPlus(c: Setup, m: nat, j: nat)
    ensures c.Target(m + j) == RunIR(c.blocks, c.arr, c.Target(m), j)
  {
    RunIRPlus(c.blocks, c.arr, Boot(c.garbage, c.input), m, j);
  }

  /** A machine that has ended has ended for good, and outputs only grow. */
  lemma TargetLater(c: Setup, m: nat, m': nat)
    requires m <= m'
    ensures c.Target(m).output <= c.Target(m').output
    ensures !c.Target(m).Running? ==> c.Target(m') == c.Target(m)
  {
    TargetPlus(c, m, m' - m);
    if !c.Target(m).Running? {
      EndedStays(c.blocks, c.arr, c.Target(m), m' - m);
    }
  }

  lemma {:induction false} HaltedStays(text: string, s: Src, n: nat)
    requires s.On? && OnTape(text, s) && s.pc == |text|
    ensures Run(text, s, n) == s
    decreases n
  {
    if n > 0 {
      HaltedStays(text, s, n - 1);
    }
  }

  lemma SourceLater(c: Setup, k: nat, k': nat)
    requires c.mem > 0 && k <= k'
    ensures c.Source(k').On? ==> c.Source(k).On? && c.Source(k).output <= c.Source(k').output
    ensures c.Halted(k) ==> c.Source(k') == c.Source(k)
  {
    SourcePlus(c, k, k' - k);
    if c.Halted(k) {
      HaltedStays(c.text, c.Source(k), k' - k);
    }
  }

  /** Both machines, in step, go on to the next boundary together. */
  lemma Advance(c: Setup, k: nat, m: nat) returns (k': nat, m': nat)
    requires c.Ok() && c.StaysOnTape()
    requires c.InStep(c.Source(k), c.Target(m)) && c.Source(k).pc < |c.text|
    ensures k < k' && m < m' && c.InStep(c.Source(k'), c.Target(m'))
  {
    hide Sync, Run, RunIR, TokenStep, Laid, NextCmd, Close, Open;
    var s, t := c.Source(k), c.Target(m);
    InSync(c.text, c.mem, c.bounds, c.at, c.arr, s, t);
    if c.text[s.pc] == ']' {
      CloseHasOpen(c.text, c.mem, c.bounds, c.blocks, c.at, s.pc);
    }
    var n := TokenBySource(c.text, s);
    SourcePlus(c, k, n);
    k' := k + n;
    assert c.Source(k').On?;
    var j := SyncStep(c.text, c.mem, c.bounds, c.blocks, c.at, c.arr, s, t);
    TargetPlus(c, m, j);
    m' := m + j;
  }

  /** For every n the two machines meet again after n steps or more, or the program has halted
      and the function has returned its tape and output. */
  lemma {:induction false} Lockstep(c: Setup, n: nat) returns (k: nat, m: nat)
    requires c.Ok() && c.StaysOnTape()
    ensures m >= n
    ensures (k >= n && c.Source(k).pc < |c.text| && c.InStep(c.Source(k), c.Target(m))) ||
            (c.Halted(k) && c.Target(m) == Returned(c.Source(k).tape, c.Source(k).output))
    decreases n
  {
    hide Sync, RunIR, Laid, TokenStep, Close, Open;
    if n == 0 {
      Booted(c.text, c.mem, c.bounds, c.blocks, c.at, c.arr, c.garbage, c.input);
      k := SkipComments(c.text, Start(c.mem, c.input));
      m := |HeaderCode(c.mem, c.bounds)|;
      assert c.Source(k) == First(c.text, c.mem, c.input);
    } else {
      k, m := Lockstep(c, n - 1);
      if c.Halted(k) && c.Target(m) == Returned(c.Source(k).tape, c.Source(k).output) {
        TargetLater(c, m, m + 1);
        m := m + 1;
        return;
      }
      k, m := Advance(c, k, m);
    }
    if c.Source(k).pc == |c.text| {
      SyncEnd(c.text, c.mem, c.bounds, c.blocks, c.at, c.arr, c.Source(k), c.Target(m));
      TargetPlus(c, m, 3);
      m := m + 3;
    }
  }

  /** The emitted function returns exactly when the program halts, with the program's tape and output. */
  lemma ReturnsIffHalts(c: Setup)
    requires c.Ok() && c.StaysOnTape()
    ensures (exists k: nat :: c.Halted(k)) <==> (exists m: nat :: c.Target(m).Returned?)
    ensures forall k: nat, m: nat | c.Halted(k) && c.Target(m).Returned? ::
              c.Target(m) == Returned(c.Source(k).tape, c.Source(k).output)
  {
    if exists k: nat :: c.Halted(k) {
      var k: nat :| c.Halted(k);
      var k', m := Lockstep(c, k);
      SourceLater(c, k, if k' >= k then k' else k);
      assert c.Target(m).Returned?;
    }
    forall m: nat | c.Target(m).Returned?
      ensures exists k: nat :: c.Halted(k) && c.Target(m) == Returned(c.Source(k).tape, c.Source(k).output)
    {
      var k, m' := Lockstep(c, m);
      TargetLater(c, m, m');
      assert c.Halted(k);
    }
    forall k: nat, m: nat | c.Halted(k) && c.Target(m).Returned?
      ensures c.Target(m) == Returned(c.Source(k).tape, c.Source(k).output)
    {
      var j: nat :| c.Halted(j) && c.Target(m) == Returned(c.Source(j).tape, c.Source(j).output);
      SourceLater(c, j, if j <= k then k else j);
      SourceLater(c, k, if j <= k then k else j);
    }
  }

  /** Whether or not the program halts: what either side has printed at any time, the other
      prints too. */
  lemma OutputsAgree(c: Setup, n: nat)
    requires c.Ok() && c.StaysOnTape()
    ensures exists m: nat :: c.Source(n).output <= c.Target(m).output
    ensures exists k: nat :: c.Target(n).output <= c.Source(k).output
  {
    var k, m := Lockstep(c, n);
    TargetLater(c, n, m);
    assert c.Target(m).output == c.Source(k).output;
    if k >= n {
      SourceLater(c, n, k);
    } else {
      SourceLater(c, k, n);
    }
    assert c.Source(n).output <= c.Target(m).output;
    assert c.Target(n).output <= c.Source(k).output;
  }

  // ---- bounds checks -----------------------------------------------------------------

  /** The program run by tokens. */
  function TokenRun(text: string, s: Src, n: nat): (s': Src)
    requires s.On? ==> OnTape(text, s) && IsToken(text, s.pc)
    ensures s'.On? ==> OnTape(text, s') && IsToken(text, s'.pc) && s.On? && |s'.tape| == |s.tape|
    decreases n
  {
    if n == 0 then s
    else
      var t := TokenRun(text, s, n - 1);
      if t.Off? || t.pc == |text| then t else TokenStep(text, t)
  }

  ghost function Tokens(c: Setup, n: nat): (s: Src)
    requires c.mem > 0
    ensures s.On? ==> OnTape(c.text, s) && IsToken(c.text, s.pc) && |s.tape| == c.mem
  {
    NextCmdStable(c.text, 0);
    TokenRun(c.text, First(c.text, c.mem, c.input), n)
  }

  /** With bounds checks, for every program and input: after n tokens the function is in step with
      the token machine, or has returned because the text ended, or has returned after the error
      message because a run left the tape. */
  lemma {:induction false} CheckedRun(c: Setup, n: nat) returns (m: nat)
    requires c.Ok() && c.bounds
    ensures m >= n
    ensures var s := Tokens(c, n);
            if s.Off? then
              exists j: nat | j < n :: Tokens(c, j).On? && c.Target(m) == Returned(Tokens(c, j).tape, Tokens(c, j).output + ErrorBytes())
            else if s.pc == |c.text| then c.Target(m) == Returned(s.tape, s.output)
            else c.InStep(s, c.Target(m))
    decreases n
  {
    hide Sync, RunIR, Laid, TokenStep, Close, Open;
    if n == 0 {
      Booted(c.text, c.mem, c.bounds, c.blocks, c.at, c.arr, c.garbage, c.input);
      m := |HeaderCode(c.mem, c.bounds)|;
    } else {
      var m0 := CheckedRun(c, n - 1);
      var s := Tokens(c, n - 1);
      if s.Off? || s.pc == |c.text| {
        TargetLater(c, m0, m0 + 1);
        m := m0 + 1;
        return;
      }
      InSync(c.text, c.mem, c.bounds, c.at, c.arr, s, c.Target(m0));
      var j := SyncStep(c.text, c.mem, c.bounds, c.blocks, c.at, c.arr, s, c.Target(m0));
      TargetPlus(c, m0, j);
      m := m0 + j;
    }
    var s := Tokens(c, n);
    if s.On? && s.pc == |c.text| {
      SyncEnd(c.text, c.mem, c.bounds, c.blocks, c.at, c.arr, s, c.Target(m));
      TargetPlus(c, m, 3);
      m := m + 3;
    }
  }

  /** With bounds checks no load or store ever leaves the tape, whatever the program and its
      input, and no undefined register is read and no unfinished block reached. */
  lemma CheckedNeverFaults(c: Setup, m: nat)
    requires c.Ok() && c.bounds
    ensures c.Target(m).Running? || c.Target(m).Returned?
  {
    var m' := CheckedRun(c, m);
    TargetLater(c, m, m');
  }

  /** Without bounds checks the same holds for programs that stay on the tape. */
  lemma OnTapeNeverFaults(c: Setup, m: nat)
    requires c.Ok() && c.StaysOnTape()
    ensures c.Target(m).Running? || c.Target(m).Returned?
  {
    var k, m' := Lockstep(c, m);
    TargetLater(c, m, m');
  }

  /** The error message is the last thing printed exactly when some run of moves ends off the tape. */
  lemma ErrorIffRunLeavesTape(c: Setup, n: nat, m: nat)
    requires c.Ok() && c.bounds && c.Target(m).Returned?
    requires Tokens(c, n).Off? || Tokens(c, n).pc == |c.text|
    ensures Tokens(c, n).Off? ==>
              exists j: nat | j < n :: Tokens(c, j).On? && c.Target(m).output == Tokens(c, j).output + ErrorBytes()
    ensures Tokens(c, n).On? ==> c.Target(m) == Returned(Tokens(c, n).tape, Tokens(c, n).output)
  {
    hide Sync, RunIR, Laid, TokenRun;
    var m' := CheckedRun(c, n);
    if m <= m' {
      TargetLater(c, m, m');
    } else {
      TargetLater(c, m', m);
    }
  }

  /** A run may leave the tape and come back unnoticed: "<>" on a tape of one cell leaves it with the
      first character, and the checked function returns without the message. */
  lemma LeavesUnnoticed(c: Setup) returns (m: nat)
    requires c.Ok() && c.bounds && c.text == "<>" && c.mem == 1
    ensures c.Source(1).Off?
    ensures c.Target(m) == Returned([0], [])
  {
    hide Sync, RunIR, Laid, Boot;
    var text, s := c.text, First(c.text, c.mem, c.input);
    assert c.Source(1) == Run(text, Step(text, Start(1, c.input)), 0);
    assert NextCmd(text, 0) == 0 && KindOf(text[0]) == Move && KindOf(text[1]) == Move;
    assert RunEnd(text, 2, Move) == 2 && RunVal(text, 2, Move) == 0;
    assert RunEnd(text, 1, Move) == 2 && RunVal(text, 1, Move) == 1;
    assert RunEnd(text, 0, Move) == 2 && RunVal(text, 0, Move) == 0;
    assert TokenRun(text, s, 0) == s;
    assert Tokens(c, 1) == TokenStep(text, s);
    assert Tokens(c, 1).tape == [0];
    m := CheckedRun(c, 1);
  }
}
