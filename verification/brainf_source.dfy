/** The BrainF language itself: the character-level machine that the comment at the
    head of BrainF.cpp gives by C equivalents, and facts about brackets and runs.
    Nothing in this module knows how the compiler works. */
module BrainFSource {

  type Byte = x: int | 0 <= x < 256

  /** The machine between two characters of the program. `Off` is the state after the
      head has left the tape, where C promises nothing more. */
  datatype Src =
    | On(pc: nat, head: nat, tape: seq<Byte>, input: seq<Byte>, output: seq<Byte>)
    | Off

  datatype Kind = Change | Move | Single | Ignored

  function KindOf(c: char): Kind {
    if c == '+' || c == '-' then Change
    else if c == '<' || c == '>' then Move
    else if c == ',' || c == '.' || c == '[' || c == ']' then Single
    else Ignored
  }

  function Dir(c: char): int {
    if c == '+' || c == '>' then 1 else -1
  }

  /** Position of the `]` that closes a loop whose body is being scanned at i, d loops
      further out than the innermost open one; |text| if there is none. */
  function Close(text: string, i: nat, d: nat): (q: nat)
    requires i <= |text|
    ensures i <= q <= |text|
    ensures q < |text| ==> text[q] == ']'
    decreases |text| - i
  {
    if i == |text| then i
    else if text[i] == '[' then Close(text, i + 1, d + 1)
    else if text[i] == ']' then (if d == 0 then i else Close(text, i + 1, d - 1))
    else Close(text, i + 1, d)
  }

  /** Position of the `[` that opens the loop around position i, scanning leftwards;
      0 if there is none. */
  function Open(text: string, i: nat, d: nat): (p: nat)
    requires i <= |text|
    ensures p <= i
  {
    if i == 0 then 0
    else if text[i - 1] == ']' then Open(text, i - 1, d + 1)
    else if text[i - 1] == '[' then (if d == 0 then i - 1 else Open(text, i - 1, d - 1))
    else Open(text, i - 1, d)
  }

  /** How the brackets of a text come out: even, or with an extra `]`, or with a missing one. */
  datatype Brackets = Even | Extra | Missing

  /** Those of text[i..], entered inside d open loops. */
  function Scan(text: string, i: nat, d: nat): Brackets
    requires i <= |text|
    decreases |text| - i
  {
    if i == |text| then (if d == 0 then Even else Missing)
    else if text[i] == '[' then Scan(text, i + 1, d + 1)
    else if text[i] == ']' then (if d == 0 then Extra else Scan(text, i + 1, d - 1))
    else Scan(text, i + 1, d)
  }

  predicate OnTape(text: string, s: Src) {
    s.On? ==> s.pc <= |text| && s.head < |s.tape|
  }

  function MoveHead(s: Src, d: int): Src
    requires s.On?
  {
    if 0 <= s.head + d < |s.tape| then s.(head := s.head + d, pc := s.pc + 1) else Off
  }

  /** One character. Comment characters do nothing; `++*h` and `--*h` are on bytes;
      getchar() yields 255 at end of input. */
  function Step(text: string, s: Src): (s': Src)
    requires OnTape(text, s)
    ensures OnTape(text, s')
    ensures s'.On? ==> s.On? && |s'.tape| == |s.tape| && s.output <= s'.output
  {
    if s.Off? || s.pc == |text| then s
    else
      var c := text[s.pc];
      if KindOf(c) == Change then
        s.(tape := s.tape[s.head := (s.tape[s.head] + Dir(c)) % 256], pc := s.pc + 1)
      else if KindOf(c) == Move then MoveHead(s, Dir(c))
      else if c == ',' then
        if s.input == [] then s.(tape := s.tape[s.head := 255], pc := s.pc + 1)
        else s.(tape := s.tape[s.head := s.input[0]], input := s.input[1..], pc := s.pc + 1)
      else if c == '.' then s.(output := s.output + [s.tape[s.head]], pc := s.pc + 1)
      else if c == '[' then
        if s.tape[s.head] != 0 then s.(pc := s.pc + 1)
        else var q := Close(text, s.pc + 1, 0); s.(pc := if q < |text| then q + 1 else q)
      else if c == ']' then s.(pc := Open(text, s.pc, 0))
      else s.(pc := s.pc + 1)
  }

  /** The eight commands, and the comments, spelled out. */
  lemma StepByCommand(text: string, s: Src)
    requires s.On? && s.pc < |text| && s.head < |s.tape|
    ensures var c, cell, next := text[s.pc], s.tape[s.head], s.(pc := s.pc + 1);
            && (c == '+' ==> Step(text, s) == next.(tape := s.tape[s.head := if cell == 255 then 0 else cell + 1]))
            && (c == '-' ==> Step(text, s) == next.(tape := s.tape[s.head := if cell == 0 then 255 else cell - 1]))
            && (c == '>' ==> Step(text, s) == if s.head == |s.tape| - 1 then Off else next.(head := s.head + 1))
            && (c == '<' ==> Step(text, s) == if s.head == 0 then Off else next.(head := s.head - 1))
            && (c == '.' ==> Step(text, s) == next.(output := s.output + [cell]))
            && (c == ',' ==> Step(text, s) == if s.input == [] then next.(tape := s.tape[s.head := 255])
                                              else next.(tape := s.tape[s.head := s.input[0]], input := s.input[1..]))
            && (c == '[' && cell != 0 ==> Step(text, s) == next)
            && (c !in "+-><.,[]" ==> Step(text, s) == next)
  {
  }

  function Nesting(c: char): int {
    if c == '[' then 1 else if c == ']' then -1 else 0
  }

  /** By how much text[i..n] opens more than it closes. */
  function Net(text: string, i: nat, n: nat): int
    requires i <= n <= |text|
    decreases n - i
  {
    if i == n then 0
    else Nesting(text[i]) + Net(text, i + 1, n)
  }

  lemma {:induction false} NetCounts(text: string, i: nat, n: nat)
    requires i <= n <= |text|
    ensures Net(text, i, n) + multiset(text[i..n])[']'] == multiset(text[i..n])['[']
    decreases n - i
  {
    if i == n {
      assert text[i..n] == [];
    } else {
      NetCounts(text, i + 1, n);
      assert text[i..n] == [text[i]] + text[i + 1..n];
    }
  }

  lemma {:induction false} NetLast(text: string, i: nat, n: nat)
    requires i < n <= |text|
    ensures Net(text, i, n) == Net(text, i, n - 1) + Nesting(text[n - 1])
    decreases n - i
  {
    if i < n - 1 {
      NetLast(text, i + 1, n);
    } else {
      assert Net(text, n, n) == 0;
    }
  }

  lemma {:induction false} CloseNet(text: string, i: nat, d: nat)
    requires i <= |text|
    ensures var q := Close(text, i, d);
            && (forall n :: i <= n <= q ==> d + Net(text, i, n) >= 0)
            && (q < |text| ==> d + Net(text, i, q + 1) == -1)
    decreases |text| - i
  {
    if i < |text| {
      var e := d + Nesting(text[i]);
      if e >= 0 {
        CloseNet(text, i + 1, e);
      }
    }
  }

  lemma {:induction false} OpenNet(text: string, i: nat, d: nat)
    requires i <= |text|
    ensures var p := Open(text, i, d);
            && (forall n :: p < n <= i ==> Net(text, n, i) <= d)
            && (p > 0 ==> Net(text, p, i) == d + 1)
  {
    if i > 0 {
      forall n | 0 <= n < i
        ensures Net(text, n, i) == Net(text, n, i - 1) + Nesting(text[i - 1])
      {
        NetLast(text, n, i);
      }
      var e := d - Nesting(text[i - 1]);
      if e >= 0 {
        OpenNet(text, i - 1, e);
      }
    }
  }

  /** At `[` with a zero cell the machine goes behind the `]` that closes the loop: to the first place up
      to which as much has been closed as opened from there. */
  lemma SkipsLoop(text: string, s: Src)
    requires s.On? && s.pc < |text| && s.head < |s.tape| && text[s.pc] == '[' && s.tape[s.head] == 0
    ensures var s' := Step(text, s);
            && s' == s.(pc := s'.pc) && s.pc < s'.pc <= |text|
            && (forall n :: s.pc < n < s'.pc ==> Net(text, s.pc, n) > 0)
            && (s'.pc < |text| ==> Net(text, s.pc, s'.pc) == 0)
  {
    CloseNet(text, s.pc + 1, 0);
  }

  /** At `]` it goes back to the `[` that opens the loop: to the last place from which on as much has been
      opened as closed. */
  lemma ReturnsToLoop(text: string, s: Src)
    requires s.On? && s.pc < |text| && s.head < |s.tape| && text[s.pc] == ']'
    ensures var s', after := Step(text, s), s.pc + 1;
            && s' == s.(pc := s'.pc) && s'.pc <= s.pc
            && (forall n :: s'.pc < n <= s.pc ==> Net(text, n, after) < 0)
            && (s'.pc > 0 ==> Net(text, s'.pc, after) == 0)
  {
    var after := s.pc + 1;
    OpenNet(text, s.pc, 0);
    forall n | 0 <= n <= s.pc
      ensures Net(text, n, after) == Net(text, n, s.pc) - 1
    {
      NetLast(text, n, after);
    }
  }

  function Run(text: string, s: Src, n: nat): (s': Src)
    requires OnTape(text, s)
    ensures OnTape(text, s')
    ensures s'.On? ==> s.On? && |s'.tape| == |s.tape| && s.output <= s'.output
    decreases n
  {
    if n == 0 then s else Run(text, Step(text, s), n - 1)
  }

  /** The start: a zeroed tape of mem cells and the head in its middle. */
  function Start(mem: nat, input: seq<Byte>): (s: Src)
    requires mem > 0
    ensures s.On? && s.pc == 0 && |s.tape| == mem && s.head <= mem - s.head <= s.head + 1
  {
    On(0, mem / 2, seq(mem, _ => 0), input, [])
  }

  lemma {:induction false} RunPlus(text: string, s: Src, n: nat, k: nat)
    requires OnTape(text, s)
    ensures Run(text, s, n + k) == Run(text, Run(text, s, n), k)
    decreases n
  {
    if n > 0 {
      RunPlus(text, Step(text, s), n - 1, k);
    }
  }

  // ---- Tokens ------------------------------------------------------------------

  /** First position at or after i that holds a command, or |text|. */
  function NextCmd(text: string, i: nat): (n: nat)
    requires i <= |text|
    ensures i <= n <= |text|
    ensures n < |text| ==> KindOf(text[n]) != Ignored
    decreases |text| - i
  {
    if i < |text| && KindOf(text[i]) == Ignored then NextCmd(text, i + 1) else i
  }

  /** End of the run of k commands that i lies in, comments included. */
  function RunEnd(text: string, i: nat, k: Kind): (e: nat)
    requires i <= |text|
    ensures i <= e <= |text|
    ensures e < |text| ==> KindOf(text[e]) != Ignored && KindOf(text[e]) != k
    decreases |text| - i
  {
    if i < |text| && (KindOf(text[i]) == Ignored || KindOf(text[i]) == k) then RunEnd(text, i + 1, k) else i
  }

  /** What the rest of that run adds up to. */
  function RunVal(text: string, i: nat, k: Kind): int
    requires i <= |text|
    decreases |text| - i
  {
    if i < |text| && KindOf(text[i]) == Ignored then RunVal(text, i + 1, k)
    else if i < |text| && KindOf(text[i]) == k then Dir(text[i]) + RunVal(text, i + 1, k)
    else 0
  }

  lemma {:induction false} NextCmdStable(text: string, i: nat)
    requires i <= |text|
    ensures NextCmd(text, NextCmd(text, i)) == NextCmd(text, i)
  {
  }

  lemma {:induction false} SkipComments(text: string, s: Src) returns (n: nat)
    requires s.On? && OnTape(text, s)
    ensures Run(text, s, n) == s.(pc := NextCmd(text, s.pc))
    decreases |text| - s.pc
  {
    n := 0;
    if s.pc < |text| && KindOf(text[s.pc]) == Ignored {
      n := SkipComments(text, s.(pc := s.pc + 1));
      n := n + 1;
    }
  }

  lemma AddMod256(c: int, d: int, v: int)
    ensures ((c + d) % 256 + v) % 256 == (c + d + v) % 256
  {
    assert (c + d) % 256 == c + d - 256 * ((c + d) / 256);
  }

  function Bump(s: Src, v: int, pc: nat): Src
    requires s.On? && s.head < |s.tape|
  {
    s.(tape := s.tape[s.head := (s.tape[s.head] + v) % 256], pc := pc)
  }

  lemma BumpTwice(s: Src, d: int, v: int, pc: nat, pc': nat)
    requires s.On? && s.head < |s.tape|
    ensures Bump(Bump(s, d, pc), v, pc') == Bump(s, d + v, pc')
  {
    AddMod256(s.tape[s.head], d, v);
    assert Bump(Bump(s, d, pc), v, pc').tape == Bump(s, d + v, pc').tape;
  }

  lemma StepOfRun(text: string, s: Src)
    requires s.On? && OnTape(text, s) && s.pc < |text|
    ensures KindOf(text[s.pc]) == Ignored ==> Step(text, s) == s.(pc := s.pc + 1)
    ensures KindOf(text[s.pc]) == Change ==> Step(text, s) == Bump(s, Dir(text[s.pc]), s.pc + 1)
  {
  }

  /** A run of `+` and `-` changes the cell by the run's sum, modulo 256. */
  lemma {:induction false} RunOfChanges(text: string, s: Src) returns (n: nat)
    requires s.On? && OnTape(text, s)
    ensures Run(text, s, n) == Bump(s, RunVal(text, s.pc, Change), RunEnd(text, s.pc, Change))
    ensures s.pc < |text| && KindOf(text[s.pc]) == Change ==> n > 0
    decreases |text| - s.pc
  {
    hide Step, KindOf, Dir;
    if s.pc < |text| && KindOf(text[s.pc]) == Ignored {
      StepOfRun(text, s);
      n := RunOfChanges(text, s.(pc := s.pc + 1));
      n := n + 1;
    } else if s.pc < |text| && KindOf(text[s.pc]) == Change {
      StepOfRun(text, s);
      var s1 := Bump(s, Dir(text[s.pc]), s.pc + 1);
      n := RunOfChanges(text, s1);
      n := n + 1;
      BumpTwice(s, Dir(text[s.pc]), RunVal(text, s1.pc, Change), s.pc + 1, RunEnd(text, s1.pc, Change));
    } else {
      n := 0;
      assert Bump(s, 0, s.pc).tape == s.tape;
    }
  }

  /** A run of `<` and `>` either leaves the tape on the way or moves the head by its sum. */
  lemma {:induction false} RunOfMoves(text: string, s: Src) returns (n: nat)
    requires s.On? && OnTape(text, s)
    ensures Run(text, s, n).Off? ||
            (0 <= s.head + RunVal(text, s.pc, Move) < |s.tape| &&
             Run(text, s, n) == s.(head := s.head + RunVal(text, s.pc, Move), pc := RunEnd(text, s.pc, Move)))
    ensures s.pc < |text| && KindOf(text[s.pc]) == Move ==> n > 0
    decreases |text| - s.pc
  {
    if s.pc < |text| && (KindOf(text[s.pc]) == Ignored || KindOf(text[s.pc]) == Move) {
      var s1 := Step(text, s);
      if s1.Off? {
        n := 1;
      } else {
        n := RunOfMoves(text, s1);
        n := n + 1;
      }
    } else {
      n := 0;
    }
  }

  // ---- Bracket structure ---------------------------------------------------------

  /** text[i..j] is balanced: no scan notices whether it is there. */
  ghost predicate Segment(text: string, i: nat, j: nat) {
    && i <= j <= |text|
    && (forall d: nat :: Close(text, i, d) == Close(text, j, d))
    && (forall d: nat :: Open(text, j, d) == Open(text, i, d))
    && (forall d: nat :: Scan(text, i, d) == Scan(text, j, d))
  }

  lemma SegmentCons(text: string, i: nat, j: nat)
    requires Segment(text, i, j) && j < |text| && text[j] != '[' && text[j] != ']'
    ensures Segment(text, i, j + 1)
  {
    forall d: nat
      ensures Close(text, i, d) == Close(text, j + 1, d)
      ensures Open(text, j + 1, d) == Open(text, i, d)
      ensures Scan(text, i, d) == Scan(text, j + 1, d)
    {
      assert Close(text, i, d) == Close(text, j, d);
      assert Open(text, j, d) == Open(text, i, d);
      assert Scan(text, i, d) == Scan(text, j, d);
    }
  }

  lemma SegmentLoop(text: string, i: nat, p: nat, q: nat)
    requires Segment(text, i, p) && p < |text| && text[p] == '['
    requires Segment(text, p + 1, q) && q < |text| && text[q] == ']'
    ensures Segment(text, i, q + 1)
    ensures Close(text, p + 1, 0) == q && Open(text, q, 0) == p
  {
    forall d: nat
      ensures Close(text, i, d) == Close(text, q + 1, d)
      ensures Open(text, q + 1, d) == Open(text, i, d)
      ensures Scan(text, i, d) == Scan(text, q + 1, d)
    {
      assert Close(text, i, d) == Close(text, p, d);
      assert Close(text, p + 1, d + 1) == Close(text, q, d + 1);
      assert Open(text, q, d + 1) == Open(text, p + 1, d + 1);
      assert Open(text, p, d) == Open(text, i, d);
      assert Scan(text, i, d) == Scan(text, p, d);
      assert Scan(text, p + 1, d + 1) == Scan(text, q, d + 1);
    }
  }

  lemma SegmentNothing(text: string, i: nat)
    requires i <= |text|
    ensures Segment(text, i, i)
  {
  }

  lemma {:induction false} SegmentRun(text: string, i: nat, j: nat, k: Kind)
    requires Segment(text, i, j) && k != Single
    ensures Segment(text, i, RunEnd(text, j, k))
    decreases |text| - j
  {
    if j < |text| && (KindOf(text[j]) == Ignored || KindOf(text[j]) == k) {
      SegmentCons(text, i, j);
      SegmentRun(text, i, j + 1, k);
    }
  }

  lemma {:induction false} SegmentSkip(text: string, i: nat, j: nat)
    requires Segment(text, i, j)
    ensures Segment(text, i, NextCmd(text, j))
    decreases |text| - j
  {
    if j < |text| && KindOf(text[j]) == Ignored {
      SegmentCons(text, i, j);
      SegmentSkip(text, i, j + 1);
    }
  }

  /** However many loops (at least one) are open at position i, some of them are not closed. */
  ghost predicate NeverClosed(text: string, i: nat)
    requires i <= |text|
  {
    forall d: nat | d > 0 :: Scan(text, i, d) == Missing
  }

  lemma NestedUnclosed(text: string, i: nat, p: nat)
    requires Segment(text, i, p) && p < |text| && text[p] == '['
    requires NeverClosed(text, p + 1)
    ensures Scan(text, i, 0) == Missing && NeverClosed(text, i)
  {
    forall d: nat
      ensures Scan(text, i, d) == Missing
    {
      assert Scan(text, i, d) == Scan(text, p, d);
      assert Scan(text, p + 1, d + 1) == Missing;
    }
  }

  /** The scan by counting: more is closed than opened up to some place; or never, but less in all. */
  predicate Dips(text: string, i: nat, d: nat, n: nat)
    requires i <= n <= |text|
  {
    d + Net(text, i, n) < 0
  }

  lemma {:induction false} ScanNet(text: string, i: nat, d: nat)
    requires i <= |text|
    ensures Scan(text, i, d) == Extra <==> exists n: nat :: i <= n <= |text| && Dips(text, i, d, n)
    ensures Scan(text, i, d) == Missing ==> d + Net(text, i, |text|) > 0
    ensures Scan(text, i, d) == Even ==> d + Net(text, i, |text|) == 0
    decreases |text| - i
  {
    if i < |text| {
      var e, j := d + Nesting(text[i]), i + 1;
      forall n | j <= n <= |text|
        ensures d + Net(text, i, n) == e + Net(text, j, n)
      {
      }
      assert Net(text, i, i) == 0 == Net(text, j, j);
      if e >= 0 {
        ScanNet(text, j, e);
        assert Scan(text, i, d) == Scan(text, j, e);
        if Scan(text, j, e) == Extra {
          var n: nat :| j <= n <= |text| && Dips(text, j, e, n);
          assert Dips(text, i, d, n);
        }
        if n: nat :| i <= n <= |text| && Dips(text, i, d, n) {
          assert n >= j && Dips(text, j, e, n);
        }
      } else {
        assert Scan(text, i, d) == Extra;
        assert Dips(text, i, d, j);
      }
    }
  }

  /** Up to position n more is closed than opened. */
  predicate ClosesMore(text: string, n: nat)
    requires n <= |text|
  {
    multiset(text[..n])[']'] > multiset(text[..n])['[']
  }

  /** For a whole text. */
  lemma BracketsCount(text: string)
    ensures Scan(text, 0, 0) == Extra <==> exists n: nat :: n <= |text| && ClosesMore(text, n)
    ensures Scan(text, 0, 0) == Missing ==> multiset(text)[']'] < multiset(text)['[']
    ensures Scan(text, 0, 0) == Even ==> multiset(text)[']'] == multiset(text)['[']
  {
    hide Net, Scan;
    ScanNet(text, 0, 0);
    NetOfStart(text, |text|);
    assert text[..|text|] == text;
    if Scan(text, 0, 0) == Extra {
      var n: nat :| n <= |text| && Dips(text, 0, 0, n);
      NetOfStart(text, n);
      assert ClosesMore(text, n);
    }
    if n: nat :| n <= |text| && ClosesMore(text, n) {
      NetOfStart(text, n);
      assert Dips(text, 0, 0, n);
    }
  }

  lemma NetOfStart(text: string, n: nat)
    requires n <= |text|
    ensures Net(text, 0, n) + multiset(text[..n])[']'] == multiset(text[..n])['[']
  {
    NetCounts(text, 0, n);
    assert text[0..n] == text[..n];
  }
}
