/** The part of LLVM IR that the BrainF compiler emits, with a small-step semantics.
    Registers are SSA names, blocks are named by their index, pointers are 64-bit
    addresses, and only the block that malloc returned may be loaded from or stored to. */
module BrainFIR {
  import opened BrainFSource

  type Reg = nat
  type Label = nat

  const ADDRESS_SPACE: int := 0x1_0000_0000_0000_0000

  datatype Instr =
    | Malloc(dst: Reg)
    | Memset(ptr: Reg, size: int)
    | Gep(dst: Reg, base: Reg, offset: int)
    | Load(dst: Reg, ptr: Reg)
    | Store(src: Reg, ptr: Reg)
    | AddI8(dst: Reg, src: Reg, k: int)
    | GetChar(dst: Reg)
    | TruncI8(dst: Reg, src: Reg)
    | SExtI32(dst: Reg, src: Reg)
    | PutChar(src: Reg)
    | IcmpUge(dst: Reg, a: Reg, b: Reg)
    | IcmpUlt(dst: Reg, a: Reg, b: Reg)
    | IcmpEqZero(dst: Reg, a: Reg)
    | OrI1(dst: Reg, a: Reg, b: Reg)
    | PutsError
    | Free(ptr: Reg)

  datatype Term = NoTerm | Br(l: Label) | CondBr(c: Reg, yes: Label, no: Label) | Ret

  datatype Incoming = Incoming(value: Reg, from: Label)

  datatype Phi = Phi(dst: Reg, incoming: seq<Incoming>)

  datatype Block = Block(phis: seq<Phi>, body: seq<Instr>, term: Term)

  /** Memory is the malloc'ed tape, at address arr; a pointer outside it faults. */
  datatype Machine =
    | Running(b: Label, i: nat, env: map<Reg, int>, mem: seq<Byte>, input: seq<Byte>, output: seq<Byte>)
    | Returned(mem: seq<Byte>, output: seq<Byte>)
    | Fault(output: seq<Byte>)  // a load or store outside the tape
    | Stuck(output: seq<Byte>)  // an undefined register, or a block without terminator

  /** What `puts` prints: the message and a newline. */
  function ErrorBytes(): seq<Byte> {
    var msg := "Error: The head has left the tape.\n";
    seq(|msg|, i requires 0 <= i < |msg| => msg[i] as int % 256)
  }

  /** A C int stored in an i32 and sign-extended by getelementptr. */
  function ToInt32(k: int): int {
    var m := k % 0x1_0000_0000;
    if m < 0x8000_0000 then m else m - 0x1_0000_0000
  }

  function SignedByte(v: int): int {
    if v % 256 < 128 then v % 256 else v % 256 - 256
  }

  function Next(m: Machine, env: map<Reg, int>): Machine
    requires m.Running?
  {
    m.(i := m.i + 1, env := env)
  }

  function Print(m: Machine, bytes: seq<Byte>): Machine
    requires m.Running?
  {
    Running(m.b, m.i + 1, m.env, m.mem, m.input, m.output + bytes)
  }

  function Uses(instr: Instr): set<Reg> {
    match instr
    case Malloc(_) => {}
    case Memset(p, _) => {p}
    case Gep(_, b, _) => {b}
    case Load(_, p) => {p}
    case Store(v, p) => {v, p}
    case AddI8(_, v, _) => {v}
    case GetChar(_) => {}
    case TruncI8(_, v) => {v}
    case SExtI32(_, v) => {v}
    case PutChar(v) => {v}
    case IcmpUge(_, a, b) => {a, b}
    case IcmpUlt(_, a, b) => {a, b}
    case IcmpEqZero(_, a) => {a}
    case OrI1(_, a, b) => {a, b}
    case PutsError => {}
    case Free(p) => {p}
  }

  function Exec(instr: Instr, arr: nat, m: Machine): (m': Machine)
    requires m.Running?
    ensures m.output <= m'.output
    ensures m'.Running? ==> |m'.mem| == |m.mem|
  {
    if !(Uses(instr) <= m.env.Keys) then Stuck(m.output)
    else
      match instr
      case Malloc(d) => Next(m, m.env[d := arr])
      case Memset(p, n) =>
        if m.env[p] == arr && n == |m.mem| then Next(m.(mem := seq(|m.mem|, _ => 0)), m.env) else Fault(m.output)
      case Gep(d, b, k) => Next(m, m.env[d := (m.env[b] + k) % ADDRESS_SPACE])
      case Load(d, p) =>
        if arr <= m.env[p] < arr + |m.mem| then Next(m, m.env[d := m.mem[m.env[p] - arr]]) else Fault(m.output)
      case Store(v, p) =>
        if arr <= m.env[p] < arr + |m.mem| then Next(m.(mem := m.mem[m.env[p] - arr := m.env[v] % 256]), m.env)
        else Fault(m.output)
      case AddI8(d, v, k) => Next(m, m.env[d := (m.env[v] + k) % 256])
      case GetChar(d) =>
        if m.input == [] then Next(m, m.env[d := -1])
        else Next(m.(input := m.input[1..]), m.env[d := m.input[0]])
      case TruncI8(d, v) => Next(m, m.env[d := m.env[v] % 256])
      case SExtI32(d, v) => Next(m, m.env[d := SignedByte(m.env[v])])
      case PutChar(v) => Print(m, [m.env[v] % 256])
      case IcmpUge(d, a, b) => Next(m, m.env[d := if m.env[a] >= m.env[b] then 1 else 0])
      case IcmpUlt(d, a, b) => Next(m, m.env[d := if m.env[a] < m.env[b] then 1 else 0])
      case IcmpEqZero(d, a) => Next(m, m.env[d := if m.env[a] == 0 then 1 else 0])
      case OrI1(d, a, b) => Next(m, m.env[d := if m.env[a] == 1 || m.env[b] == 1 then 1 else 0])
      case PutsError => Print(m, ErrorBytes())
      case Free(_) => Next(m, m.env)
  }

  /** The value that a phi takes when control comes from block `from`. */
  function Pick(incoming: seq<Incoming>, from: Label): (r: seq<Reg>)
    ensures |r| <= 1
  {
    if incoming == [] then []
    else if incoming[0].from == from then [incoming[0].value]
    else Pick(incoming[1..], from)
  }

  /** All phis of a block read the environment of the edge, then assign together. */
  function PhiEnv(phis: seq<Phi>, from: Label, env: map<Reg, int>): map<Reg, int> {
    if phis == [] then map[]
    else
      var rest := PhiEnv(phis[1..], from, env);
      var v := Pick(phis[0].incoming, from);
      if |v| == 1 && v[0] in env then rest[phis[0].dst := env[v[0]]] else rest
  }

  function Enter(blocks: seq<Block>, l: Label, m: Machine): (m': Machine)
    requires m.Running?
    ensures m.output <= m'.output
    ensures m'.Running? ==> |m'.mem| == |m.mem|
  {
    if l < |blocks| then m.(b := l, i := 0, env := m.env + PhiEnv(blocks[l].phis, m.b, m.env)) else Stuck(m.output)
  }

  function StepIR(blocks: seq<Block>, arr: nat, m: Machine): (m': Machine)
    ensures m.output <= m'.output
    ensures m'.Running? ==> m.Running? && |m'.mem| == |m.mem|
  {
    if !m.Running? then m
    else if m.b >= |blocks| then Stuck(m.output)
    else if m.i < |blocks[m.b].body| then Exec(blocks[m.b].body[m.i], arr, m)
    else
      match blocks[m.b].term
      case NoTerm => Stuck(m.output)
      case Br(l) => Enter(blocks, l, m)
      case CondBr(c, yes, no) =>
        if c !in m.env then Stuck(m.output) else Enter(blocks, if m.env[c] == 1 then yes else no, m)
      case Ret => Returned(m.mem, m.output)
  }

  function RunIR(blocks: seq<Block>, arr: nat, m: Machine, n: nat): (m': Machine)
    ensures m.output <= m'.output
    ensures m'.Running? ==> m.Running? && |m'.mem| == |m.mem|
    decreases n
  {
    if n == 0 then m else RunIR(blocks, arr, StepIR(blocks, arr, m), n - 1)
  }

  /** Entry of the emitted function: no register is defined, and malloc's memory holds anything. */
  function Boot(garbage: seq<Byte>, input: seq<Byte>): Machine {
    Running(0, 0, map[], garbage, input, [])
  }

  lemma {:induction false} RunIRPlus(blocks: seq<Block>, arr: nat, m: Machine, n: nat, k: nat)
    ensures RunIR(blocks, arr, m, n + k) == RunIR(blocks, arr, RunIR(blocks, arr, m, n), k)
    decreases n
  {
    if n > 0 {
      RunIRPlus(blocks, arr, StepIR(blocks, arr, m), n - 1, k);
    }
  }

  /** A machine that has ended stays where it is. */
  lemma {:induction false} EndedStays(blocks: seq<Block>, arr: nat, m: Machine, n: nat)
    requires !m.Running?
    ensures RunIR(blocks, arr, m, n) == m
    decreases n
  {
    if n > 0 {
      EndedStays(blocks, arr, m, n - 1);
    }
  }

  // ---- the semantics spelled out -------------------------------------------------------------

  /** What the instructions leave in their register, when all that they use is defined. */
  lemma Computes(arr: nat, m: Machine, d: Reg, a: Reg, k: int)
    requires m.Running? && a in m.env
    ensures var x := m.env[a];
            && Exec(Gep(d, a, k), arr, m) == Next(m, m.env[d := (x + k) % 0x1_0000_0000_0000_0000])
            && Exec(AddI8(d, a, k), arr, m) == Next(m, m.env[d := (x + k) % 256])
            && Exec(TruncI8(d, a), arr, m) == Next(m, m.env[d := x % 256])
            && (0 <= x < 128 ==> Exec(SExtI32(d, a), arr, m) == Next(m, m.env[d := x]))
            && (128 <= x < 256 ==> Exec(SExtI32(d, a), arr, m) == Next(m, m.env[d := x - 256]))
            && (m.input == [] ==> Exec(GetChar(d), arr, m) == Next(m, m.env[d := -1]))
            && (m.input != [] ==> Exec(GetChar(d), arr, m) == Next(m.(input := m.input[1..]), m.env[d := m.input[0]]))
  {
  }

  /** And the comparisons: 1 for true. */
  lemma Compares(arr: nat, m: Machine, d: Reg, a: Reg, b: Reg)
    requires m.Running? && a in m.env && b in m.env
    ensures var x, y := m.env[a], m.env[b];
            && Exec(IcmpUge(d, a, b), arr, m) == Next(m, m.env[d := if x < y then 0 else 1])
            && Exec(IcmpUlt(d, a, b), arr, m) == Next(m, m.env[d := if x < y then 1 else 0])
            && Exec(IcmpEqZero(d, a), arr, m) == Next(m, m.env[d := if x == 0 then 1 else 0])
            && (x in {0, 1} && y in {0, 1} ==> Exec(OrI1(d, a, b), arr, m) == Next(m, m.env[d := if x + y == 0 then 0 else 1]))
  {
  }

  /** The instructions that touch the tape or the output. */
  lemma Touches(arr: nat, m: Machine, d: Reg, a: Reg, p: Reg, at: nat)
    requires m.Running? && a in m.env && p in m.env && 0 <= m.env[a] < 256 && at < |m.mem| && m.env[p] == arr + at
    ensures Exec(Load(d, p), arr, m) == Next(m, m.env[d := m.mem[at]])
    ensures Exec(Store(a, p), arr, m) == Next(m.(mem := m.mem[at := m.env[a]]), m.env)
    ensures Exec(PutChar(a), arr, m) == m.(i := m.i + 1, output := m.output + [m.env[a]])
  {
  }

  /** A conditional branch on 1 goes to its first target, on 0 to its second. */
  lemma Branches(blocks: seq<Block>, arr: nat, m: Machine, c: Reg, yes: Label, no: Label)
    requires m.Running? && m.b < |blocks| && m.i == |blocks[m.b].body| && blocks[m.b].term == CondBr(c, yes, no)
    requires c in m.env && yes < |blocks| && no < |blocks|
    ensures var m' := StepIR(blocks, arr, m);
            && m'.Running? && m'.i == 0 && (m.env[c] == 1 ==> m'.b == yes) && (m.env[c] == 0 ==> m'.b == no)
            && m'.mem == m.mem && m'.output == m.output && m'.input == m.input
  {
  }
}
