/** The emitted function is well formed along every path through its blocks, also those that no
    execution takes: conditional branches may go either way. */
module BrainFPaths {
  import opened BrainFSource
  import opened BrainFIR
  import opened BrainFLayout

  function Defines(i: Instr): set<Reg> {
    match i
    case Malloc(d) => {d}
    case Gep(d, _, _) => {d}
    case Load(d, _) => {d}
    case AddI8(d, _, _) => {d}
    case GetChar(d) => {d}
    case TruncI8(d, _) => {d}
    case SExtI32(d, _) => {d}
    case IcmpUge(d, _, _) => {d}
    case IcmpUlt(d, _, _) => {d}
    case IcmpEqZero(d, _) => {d}
    case OrI1(d, _, _) => {d}
    case _ => {}
  }

  function Destinations(phis: seq<Phi>): set<Reg> {
    set p | p in phis :: p.dst
  }

  /** The phi has exactly one value for the edge from the block, and it is defined there. */
  predicate OneValue(p: Phi, from: Label, defined: set<Reg>) {
    exists i :: 0 <= i < |p.incoming| && p.incoming[i].from == from && p.incoming[i].value in defined &&
                forall j :: 0 <= j < |p.incoming| && p.incoming[j].from == from ==> j == i
  }

  predicate EdgeOk(B: seq<Block>, from: Label, to: Label, defined: set<Reg>) {
    to < |B| && forall p :: p in B[to].phis ==> OneValue(p, from, defined)
  }

  /** Along every path of up to n steps from the place, with these registers defined: each register
      used is defined, each edge gives each phi exactly one value, and each block that is come to
      exists and has a terminator. */
  predicate Safe(B: seq<Block>, b: Label, i: nat, defined: set<Reg>, n: nat)
    decreases n
  {
    n == 0 ||
    (b < |B| &&
     if i < |B[b].body| then
       Uses(B[b].body[i]) <= defined && Safe(B, b, i + 1, defined + Defines(B[b].body[i]), n - 1)
     else
       match B[b].term
       case NoTerm => false
       case Ret => true
       case Br(l) => EdgeOk(B, b, l, defined) && Safe(B, l, 0, defined + Destinations(B[l].phis), n - 1)
       case CondBr(c, yes, no) =>
         && c in defined && EdgeOk(B, b, yes, defined) && EdgeOk(B, b, no, defined)
         && Safe(B, yes, 0, defined + Destinations(B[yes].phis), n - 1)
         && Safe(B, no, 0, defined + Destinations(B[no].phis), n - 1))
  }

  // ---- straight code -----------------------------------------------------------------------

  predicate Covered(code: seq<Instr>, defined: set<Reg>) {
    code == [] || (Uses(code[0]) <= defined && Covered(code[1..], defined + Defines(code[0])))
  }

  function After(code: seq<Instr>, defined: set<Reg>): (d: set<Reg>)
    ensures defined <= d
  {
    if code == [] then defined else After(code[1..], defined + Defines(code[0]))
  }

  lemma {:induction false} SafeCode(B: seq<Block>, p: Point, code: seq<Instr>, defined: set<Reg>, n: nat)
    requires CodeAt(B, p, code) && Covered(code, defined)
    requires n >= |code| ==> Safe(B, p.b, p.i + |code|, After(code, defined), n - |code|)
    ensures Safe(B, p.b, p.i, defined, n)
    decreases |code|
  {
    if code != [] && n > 0 {
      var q := Point(p.b, p.i + 1, p.h, p.r);
      assert B[p.b].body[p.i + 0] == code[0];
      forall j | 0 <= j < |code| - 1
        ensures B[q.b].body[q.i + j] == code[1..][j]
      {
        assert B[p.b].body[p.i + (j + 1)] == code[j + 1];
      }
      SafeCode(B, q, code[1..], defined + Defines(code[0]), n - 1);
    }
  }

  /** The code of a token uses what is defined, and so does a test of its move. */
  lemma CodeCovered(text: string, bounds: bool, k: nat, h: Reg, r: Reg, defined: set<Reg>)
    requires IsStraight(text, k) && ARR in defined && h in defined && (bounds ==> ARRMAX in defined)
    ensures Covered(Code(text, bounds, k, h, r), defined)
    ensures IsMove(text, k) ==> r in After(Code(text, bounds, k, h, r), defined)
    ensures IsMove(text, k) && bounds ==> r + 3 in After(Code(text, bounds, k, h, r), defined)
  {
    var code := Code(text, bounds, k, h, r);
    assert |code| > 1 ==> code[1..][0] == code[1];
    assert |code| > 2 ==> code[1..][1..][0] == code[2];
    assert |code| > 3 ==> code[1..][1..][1..][0] == code[3];
    Unrolled(code, defined);
  }

  lemma Unrolled(code: seq<Instr>, defined: set<Reg>)
    requires |code| in {1, 3, 4}
    ensures var d1 := defined + Defines(code[0]);
            && After(code, defined) == (if |code| == 1 then d1
                                        else if |code| == 3 then d1 + Defines(code[1]) + Defines(code[2])
                                        else d1 + Defines(code[1]) + Defines(code[2]) + Defines(code[3]))
            && (Covered(code, defined) <==>
                  && Uses(code[0]) <= defined
                  && (|code| > 1 ==> Uses(code[1]) <= d1 && Uses(code[2]) <= d1 + Defines(code[1]))
                  && (|code| > 3 ==> Uses(code[3]) <= d1 + Defines(code[1]) + Defines(code[2])))
  {
    var d1 := defined + Defines(code[0]);
    if |code| == 1 {
      assert code[1..] == [];
    } else {
      var c1 := code[1..];
      var c2 := c1[1..];
      var c3 := c2[1..];
      assert c1[0] == code[1] && c2[0] == code[2];
      if |code| == 4 {
        assert c3[0] == code[3] && c3[1..] == [];
      }
    }
  }

  // ---- the end and the error block ---------------------------------------------------------

  lemma SafeEnd(B: seq<Block>, mem: nat, bounds: bool, defined: set<Reg>, n: nat)
    requires HeaderOk(mem, bounds, B) && ARR in defined
    ensures Safe(B, END, 0, defined, n)
    ensures bounds ==> Safe(B, ABERROR, 0, defined, n)
  {
    EndSafe(B, mem, bounds, defined, n);
    if bounds && n > 1 {
      EndSafe(B, mem, bounds, defined + {} + Destinations(B[END].phis), n - 2);
      assert Safe(B, ABERROR, 1, defined + {}, n - 1);
    }
  }

  lemma EndSafe(B: seq<Block>, mem: nat, bounds: bool, defined: set<Reg>, n: nat)
    requires HeaderOk(mem, bounds, B) && ARR in defined
    ensures Safe(B, END, 0, defined, n)
  {
    if n > 0 {
      assert Safe(B, END, 1, defined + {}, n - 1);
    }
  }

  // ---- tokens ------------------------------------------------------------------------------

  ghost predicate Known(bounds: bool, p: Point, defined: set<Reg>) {
    ARR in defined && p.h in defined && (bounds ==> ARRMAX in defined)
  }

  /** From the place of any token on, every path is safe. */
  lemma {:induction false} SafeFrom(text: string, mem: nat, bounds: bool, B: seq<Block>, at: Layout, k: nat, defined: set<Reg>, n: nat)
    requires Laid(text, mem, bounds, B, at) && k in at && Known(bounds, at[k], defined)
    ensures Safe(B, at[k].b, at[k].i, defined, n)
    decreases n, 1
  {
    hide Safe;
    assert TokenOk(text, bounds, B, at, k);
    if n > 0 {
      if k == |text| {
        SafeAtEnd(text, mem, bounds, B, at, defined, n);
      } else if text[k] == '[' {
        var c := Close(text, k + 1, 0);
        assert TokenOk(text, bounds, B, at, c);
        SafeTest(text, mem, bounds, B, at, k, k, defined, n);
      } else if text[k] == ']' {
        var o := Open(text, k, 0);
        assert TokenOk(text, bounds, B, at, o);
        SafeTest(text, mem, bounds, B, at, o, k, defined, n);
      } else {
        SafeStraight(text, mem, bounds, B, at, k, defined, n);
      }
    } else {
      NoSteps(B, at[k].b, at[k].i, defined);
    }
  }

  lemma NoSteps(B: seq<Block>, b: Label, i: nat, defined: set<Reg>)
    ensures Safe(B, b, i, defined, 0)
  {
  }

  /** One unconditional branch. */
  lemma SafeBranch(B: seq<Block>, b: Label, i: nat, l: Label, defined: set<Reg>, n: nat)
    requires EndsAt(B, b, i, Br(l)) && EdgeOk(B, b, l, defined)
    requires n > 0 ==> Safe(B, l, 0, defined + Destinations(B[l].phis), n - 1)
    ensures Safe(B, b, i, defined, n)
  {
  }

  /** The last token falls through to the end block. */
  lemma SafeAtEnd(text: string, mem: nat, bounds: bool, B: seq<Block>, at: Layout, defined: set<Reg>, n: nat)
    requires HeaderOk(mem, bounds, B) && |text| in at && TokenOk(text, bounds, B, at, |text|) && ARR in defined
    ensures Safe(B, at[|text|].b, at[|text|].i, defined, n)
  {
    hide Safe;
    if n > 0 {
      SafeEnd(B, mem, bounds, defined + Destinations(B[END].phis), n - 1);
    }
    SafeBranch(B, at[|text|].b, at[|text|].i, END, defined, n);
  }

  lemma {:induction false} SafeStraight(text: string, mem: nat, bounds: bool, B: seq<Block>, at: Layout, k: nat, defined: set<Reg>, n: nat)
    requires Laid(text, mem, bounds, B, at) && k in at && IsStraight(text, k) && TokenOk(text, bounds, B, at, k)
    requires Known(bounds, at[k], defined) && n > 0
    ensures Safe(B, at[k].b, at[k].i, defined, n)
    decreases n, 0
  {
    hide Safe;
    var p, next := at[k], BrainFLayout.After(text, k);
    var code := Code(text, bounds, k, p.h, p.r);
    CodeCovered(text, bounds, k, p.h, p.r, defined);
    var after := After(code, defined);
    if n >= |code| {
      if IsMove(text, k) && bounds {
        if n > |code| {
          SafeFrom(text, mem, bounds, B, at, next, after, n - |code| - 1);
          SafeEnd(B, mem, bounds, after, n - |code| - 1);
        }
        SafeFork(B, p.b, p.i + 4, p.r + 3, ABERROR, at[next].b, after, n - |code|);
      } else {
        SafeFrom(text, mem, bounds, B, at, next, after, n - |code|);
      }
    }
    SafeCode(B, p, code, defined, n);
  }

  /** One conditional branch to blocks without phis. */
  lemma SafeFork(B: seq<Block>, b: Label, i: nat, c: Reg, yes: Label, no: Label, defined: set<Reg>, n: nat)
    requires EndsAt(B, b, i, CondBr(c, yes, no)) && c in defined && yes < |B| && no < |B|
    requires B[yes].phis == [] && B[no].phis == []
    requires n > 0 ==> Safe(B, yes, 0, defined, n - 1) && Safe(B, no, 0, defined, n - 1)
    ensures Safe(B, b, i, defined, n)
  {
    assert Destinations([]) == {};
    assert defined + {} == defined;
  }

  /** At both ends of a loop, at[x], control goes to the loop's test. */
  lemma {:induction false} SafeTest(text: string, mem: nat, bounds: bool, B: seq<Block>, at: Layout, o: nat, x: nat, defined: set<Reg>, n: nat)
    requires Laid(text, mem, bounds, B, at) && o < |text| && text[o] == '[' && o in at && OpenOk(text, B, at, o)
    requires x in {o, Close(text, o + 1, 0)} && x in at && Known(bounds, at[x], defined) && n > 0
    requires EndsAt(B, at[x].b, at[x].i, B[at[o].b].term)
    ensures Safe(B, at[x].b, at[x].i, defined, n)
    decreases n, 0
  {
    hide Safe;
    var c := Close(text, o + 1, 0);
    var body, rest, t := NextCmd(text, o + 1), NextCmd(text, c + 1), B[at[o].b].term.l;
    var p, q := at[o], at[c];
    assert B[t] == TestBlock(p, q, at[rest].b, at[body].b);
    assert B[t].phis[0].incoming == [Incoming(p.h, p.b), Incoming(q.h, q.b)];
    assert OneValue(B[t].phis[0], at[x].b, defined) by {
      var i := if x == o then 0 else 1;
      assert B[t].phis[0].incoming[i] == Incoming(at[x].h, at[x].b);
    }
    var d1 := defined + Destinations(B[t].phis);
    assert p.r in d1 by {
      assert B[t].phis[0] in B[t].phis;
    }
    var d3 := d1 + {q.r} + {q.r + 1};
    if n > 4 {
      var m := at[rest];
      assert m.h in d3 + Destinations(B[m.b].phis) by {
        assert B[m.b].phis[0] in B[m.b].phis;
      }
      SafeFrom(text, mem, bounds, B, at, rest, d3 + Destinations(B[m.b].phis), n - 4);
      SafeFrom(text, mem, bounds, B, at, body, d3 + Destinations(B[at[body].b].phis), n - 4);
    }
    SafeTestBlock(B, t, p, q, at[rest], at[body], d1, n - 1);
    SafeBranch(B, at[x].b, at[x].i, t, defined, n);
  }

  lemma SafeTestBlock(B: seq<Block>, t: Label, p: Point, q: Point, m: Point, body: Point, d1: set<Reg>, n: nat)
    requires t < |B| && B[t] == TestBlock(p, q, m.b, body.b) && p.r in d1
    requires m.b < |B| && B[m.b].phis == [Phi(m.h, [Incoming(p.r, t)])] && body.b < |B| && B[body.b].phis == []
    requires var d3 := d1 + {q.r} + {q.r + 1};
             n > 3 ==> Safe(B, m.b, 0, d3 + Destinations(B[m.b].phis), n - 3) && Safe(B, body.b, 0, d3 + Destinations(B[body.b].phis), n - 3)
    ensures Safe(B, t, 0, d1, n)
  {
    var d2 := d1 + {q.r};
    var d3 := d2 + {q.r + 1};
    if n > 2 {
      assert OneValue(B[m.b].phis[0], t, d3) by {
        assert B[m.b].phis[0].incoming[0] == Incoming(p.r, t);
      }
      assert EdgeOk(B, t, m.b, d3) && EdgeOk(B, t, body.b, d3);
      assert n > 3 || n - 3 == 0;
      assert Safe(B, t, 2, d3, n - 2);
    }
    if n > 1 {
      assert B[t].body[1] == IcmpEqZero(q.r + 1, q.r);
      assert Safe(B, t, 1, d2, n - 1);
    }
  }

  /** Every path from the entry of a compiled program is safe, however long: each register is
      defined before it is used, each phi has exactly one value for each edge, and no path ends in
      a block without a terminator. */
  lemma EveryPathIsSafe(text: string, mem: nat, bounds: bool, B: seq<Block>, at: Layout, n: nat)
    requires Laid(text, mem, bounds, B, at)
    ensures Safe(B, ENTRY, 0, {}, n)
  {
    hide Safe, TokenOk;
    var code := HeaderCode(mem, bounds);
    HeaderCovered(mem, bounds);
    var first := NextCmd(text, 0);
    if n >= |code| {
      SafeFrom(text, mem, bounds, B, at, first, After(code, {}), n - |code|);
    }
    SafeCode(B, Point(ENTRY, 0, 2, 3), code, {}, n);
  }

  lemma HeaderCovered(mem: nat, bounds: bool)
    ensures var code := HeaderCode(mem, bounds);
            && Covered(code, {})
            && ARR in After(code, {}) && 2 in After(code, {}) && (bounds ==> ARRMAX in After(code, {}))
  {
    var code := HeaderCode(mem, bounds);
    if bounds {
      assert code == [Malloc(ARR), Memset(ARR, mem), Gep(ARRMAX, ARR, mem), Gep(2, ARR, mem / 2)];
    } else {
      assert code == [Malloc(ARR), Memset(ARR, mem), Gep(2, ARR, mem / 2)];
    }
    Unrolled(code, {});
  }
}
