/** unicode-case-fold.py: a sorted table of case foldings becomes a chain of tests. */
module CaseFold {

  datatype Mapping = Mapping(from: int, to: int)

  datatype Error = Unsorted | EmptyTable

  datatype Result<T> = Ok(value: T) | Err(error: Error)

  // ---- the generated code ------------------------------------------------------------------

  /** `C + shift`, or `C | 1`. */
  datatype Action = Add(shift: int) | OrOne

  /** One `if ... return` of the generated function. */
  datatype Stmt = IfEqual(key: int, value: int)
                | IfLess(bound: int)
                | IfUpTo(last: int, action: Action)
                | IfUpToModulo(last: int, modulus: Positive, residue: int, action: Action)

  type Positive = m: int | m > 0 witness 1

  /** The remainder of C++, which has the sign of the dividend. */
  function Remainder(c: int, m: Positive): int {
    if c >= 0 then c % m else -((-c) % m)
  }

  function Act(action: Action, c: int): int {
    match action
    case Add(shift) => c + shift
    case OrOne => if c % 2 == 0 then c + 1 else c
  }

  datatype Outcome = Return(value: int) | Next

  function Fires(s: Stmt, c: int): Outcome {
    match s
    case IfEqual(key, value) => if c == key then Return(value) else Next
    case IfLess(bound) => if c < bound then Return(c) else Next
    case IfUpTo(last, action) => if c <= last then Return(Act(action, c)) else Next
    case IfUpToModulo(last, m, r, action) =>
      if c <= last && Remainder(c, m) == r then Return(Act(action, c)) else Next
  }

  function Run(body: seq<Stmt>, c: int): Outcome {
    if body == [] then Next
    else if Fires(body[0], c).Return? then Fires(body[0], c)
    else Run(body[1..], c)
  }

  /** foldCharSimple: what no test returns is returned as it is. */
  function Fold(body: seq<Stmt>, c: int): int {
    match Run(body, c) case Return(v) => v case Next => c
  }

  // ---- what it should compute --------------------------------------------------------------

  predicate Sorted(table: seq<Mapping>) {
    && (forall k :: 0 <= k < |table| ==> table[k].from > -1)
    && forall j, k :: 0 <= j < k < |table| ==> table[j].from < table[k].from
  }

  predicate IsKey(table: seq<Mapping>, c: int) {
    exists k :: 0 <= k < |table| && table[k].from == c
  }

  /** The folding: a key goes to its value, everything else to itself. */
  ghost predicate Folds(table: seq<Mapping>, c: int, v: int) {
    (!IsKey(table, c) ==> v == c) && forall k :: 0 <= k < |table| && table[k].from == c ==> v == table[k].to
  }

  /** The tests so far deal with the first part of the table: what they return is right and not
      beyond the last key, and they let no key through. */
  ghost predicate Handles(body: seq<Stmt>, table: seq<Mapping>) {
    forall c :: HandlesAt(body, table, c)
  }

  ghost predicate HandlesAt(body: seq<Stmt>, table: seq<Mapping>, c: int) {
    match Run(body, c)
    case Return(v) => Folds(table, c, v) && table != [] && c <= table[|table| - 1].from
    case Next => !IsKey(table, c)
  }

  lemma {:induction false} RunAppend(body: seq<Stmt>, more: seq<Stmt>, c: int)
    ensures Run(body + more, c) == if Run(body, c).Return? then Run(body, c) else Run(more, c)
  {
    if body == [] {
      assert body + more == more;
    } else {
      assert (body + more)[1..] == body[1..] + more;
      RunAppend(body[1..], more, c);
    }
  }

  // ---- blocks ------------------------------------------------------------------------------

  function Shift(m: Mapping): int {
    m.to - m.from
  }

  function Stride2(m: Mapping, m': Mapping): int {
    m'.from - m.from
  }

  function Stride(block: seq<Mapping>): int
    requires |block| >= 2
  {
    Stride2(block[0], block[1])
  }

  /** One shift and one stride throughout. */
  predicate Uniform(block: seq<Mapping>) {
    && (forall k :: 0 <= k < |block| ==> Shift(block[k]) == Shift(block[0]))
    && (forall k :: 0 <= k < |block| - 1 ==> Stride2(block[k], block[k + 1]) == Stride(block))
  }

  /** The tests that dump_block emits for one block. */
  function Tests(b: seq<Mapping>): seq<Stmt>
    requires b != [] && (|b| >= 2 ==> Stride(b) > 0)
  {
    if |b| == 1 then [IfEqual(b[0].from, b[0].to)]
    else
      var first := b[0].from;
      var last := first + Stride(b) * (|b| - 1);
      var modulo := first % Stride(b);
      [IfLess(first),
       if Stride(b) == 2 && Shift(b[0]) == 1 && modulo == 0 then IfUpTo(last, OrOne)
       else if Stride(b) == 1 then IfUpTo(last, Add(Shift(b[0])))
       else IfUpToModulo(last, Stride(b), modulo, Add(Shift(b[0])))]
  }

  lemma {:induction false} UniformAt(b: seq<Mapping>, k: nat)
    requires Uniform(b) && |b| >= 2 && k < |b|
    ensures b[k].from == b[0].from + Stride(b) * k
  {
    if k > 0 {
      UniformAt(b, k - 1);
      assert Stride2(b[k - 1], b[k - 1 + 1]) == Stride(b);
    }
  }

  /** A number from first to last is a key of the block exactly when it leaves the same remainder. */
  lemma KeyIffResidue(b: seq<Mapping>, c: int)
    requires Uniform(b) && Sorted(b) && |b| >= 2
    requires b[0].from <= c <= b[|b| - 1].from
    ensures c % Stride(b) == b[0].from % Stride(b) <==> IsKey(b, c)
  {
    var s, first := Stride(b), b[0].from;
    UniformAt(b, |b| - 1);
    if c % s == first % s {
      SameResidue(first, c, s);
      var k := (c - first) / s;
      Quotient(c - first, s, |b| - 1);
      UniformAt(b, k);
      assert b[k].from == c;
    }
    if k: nat :| k < |b| && b[k].from == c {
      UniformAt(b, k);
      AddMultiple(first, s, k);
    }
  }

  lemma SameResidue(x: int, y: int, s: int)
    requires s > 0 && x % s == y % s
    ensures (y - x) % s == 0 && y - x == s * ((y - x) / s)
  {
    assert y - x == s * (y / s - x / s);
    MultipleMod(y / s - x / s, s);
  }

  lemma MultipleMod(k: int, s: int)
    requires s > 0
    ensures (s * k) % s == 0 && (s * k) / s == k
  {
    var q, r := (s * k) / s, (s * k) % s;
    assert s * k == s * q + r;
    assert s * (k - q) == r;
    Multiples(s, k - q);
  }

  lemma Multiples(s: int, z: int)
    requires s > 0
    ensures z >= 1 ==> s * z >= s
    ensures z <= -1 ==> s * z <= -s
  {
  }

  lemma Quotient(d: int, s: int, n: nat)
    requires s > 0 && 0 <= d <= s * n && d == s * (d / s)
    ensures 0 <= d / s <= n
  {
    Multiples(s, d / s - n);
    assert s * (d / s - n) == d - s * n;
  }

  lemma AddMultiple(x: int, s: int, k: nat)
    requires s > 0
    ensures (x + s * k) % s == x % s
  {
    var y := x + s * k;
    var q := y / s - x / s - k;
    assert y % s - x % s == s * k - s * (y / s) + s * (x / s);
    assert s * k - s * (y / s) + s * (x / s) == -(s * q);
    Multiples(s, q);
  }

  // ---- one block more ----------------------------------------------------------------------

  /** What follows only has greater keys, so what a block returns is right for the whole table. */
  lemma TestsHandle(b: seq<Mapping>)
    requires b != [] && Uniform(b) && Sorted(b)
    ensures Handles(Tests(b), b)
  {
    forall c
      ensures HandlesAt(Tests(b), b, c)
    {
      if |b| >= 2 {
        BlockHandles(b, c);
      }
    }
  }

  lemma BlockHandles(b: seq<Mapping>, c: int)
    requires |b| >= 2 && Uniform(b) && Sorted(b)
    ensures HandlesAt(Tests(b), b, c)
  {
    var t, first := Tests(b), b[0].from;
    var last := b[|b| - 1].from;
    UniformAt(b, |b| - 1);
    assert Run(t, c) == if Fires(t[0], c).Return? then Fires(t[0], c) else Run(t[1..], c);
    assert Run(t[1..], c) == if Fires(t[1], c).Return? then Fires(t[1], c) else Next;
    if first <= c <= last {
      KeyIffResidue(b, c);
      forall k | 0 <= k < |b| && b[k].from == c
        ensures c + Shift(b[0]) == b[k].to
      {
        assert Shift(b[k]) == Shift(b[0]);
      }
    }
  }

  lemma HandlesMore(body: seq<Stmt>, table: seq<Mapping>, more: seq<Stmt>, b: seq<Mapping>)
    requires Handles(body, table) && Handles(more, b) && Sorted(table + b) && b != []
    ensures Handles(body + more, table + b)
  {
    forall c
      ensures HandlesAt(body + more, table + b, c)
    {
      assert HandlesAt(body, table, c) && HandlesAt(more, b, c);
      RunAppend(body, more, c);
      KeysOf(table, b, c);
      match Run(body + more, c)
      case Return(v) => FoldsBoth(table, b, c, v);
      case Next =>
    }
  }

  lemma KeysOf(table: seq<Mapping>, b: seq<Mapping>, c: int)
    requires b != [] && Sorted(table + b)
    ensures IsKey(table + b, c) <==> IsKey(table, c) || IsKey(b, c)
    ensures table != [] ==> table[|table| - 1].from < b[0].from
    ensures IsKey(b, c) ==> b[0].from <= c <= b[|b| - 1].from
    ensures b[0].from <= b[|b| - 1].from
  {
    var all := table + b;
    assert forall k :: 0 <= k < |table| ==> all[k] == table[k];
    assert forall k :: 0 <= k < |b| ==> all[|table| + k] == b[k];
  }

  lemma FoldsBoth(table: seq<Mapping>, b: seq<Mapping>, c: int, v: int)
    requires IsKey(table, c) ==> Folds(table, c, v)
    requires IsKey(b, c) ==> Folds(b, c, v)
    requires !IsKey(table, c) && !IsKey(b, c) ==> v == c
    ensures Folds(table + b, c, v)
  {
    var all := table + b;
    forall k | 0 <= k < |all| && all[k].from == c
      ensures v == all[k].to
    {
      if k < |table| {
        assert table[k] == all[k];
      } else {
        assert b[k - |table|] == all[k];
      }
    }
    assert forall k :: 0 <= k < |table| ==> all[k] == table[k];
    assert forall k :: 0 <= k < |b| ==> all[|table| + k] == b[k];
  }

  // ---- blocks of a table -----------------------------------------------------------------------

  /** The table is cut into blocks of one shift and one stride, none of which could take in the mapping
      that follows it; the code is the tests of these blocks in their order. */
  ghost predicate Cut(blocks: seq<seq<Mapping>>, table: seq<Mapping>, body: seq<Stmt>)
    decreases |blocks|
  {
    if blocks == [] then table == [] && body == []
    else
      var before, b := blocks[..|blocks| - 1], blocks[|blocks| - 1];
      && b != [] && Uniform(b) && (|b| >= 2 ==> Stride(b) > 0)
      && |b| <= |table| && table[|table| - |b|..] == b
      && |Tests(b)| <= |body| && body[|body| - |Tests(b)|..] == Tests(b)
      && Cut(before, table[..|table| - |b|], body[..|body| - |Tests(b)|])
      && (before != [] ==> !Uniform(before[|before| - 1] + [b[0]]))
  }

  lemma CutMore(blocks: seq<seq<Mapping>>, table: seq<Mapping>, body: seq<Stmt>, b: seq<Mapping>)
    requires Cut(blocks, table, body) && b != [] && Uniform(b) && (|b| >= 2 ==> Stride(b) > 0)
    requires blocks != [] ==> !Uniform(blocks[|blocks| - 1] + [b[0]])
    ensures Cut(blocks + [b], table + b, body + Tests(b))
  {
    hide Uniform, Tests;
    var more, t, code := blocks + [b], table + b, body + Tests(b);
    assert more[..|more| - 1] == blocks && more[|more| - 1] == b;
    assert t[|t| - |b|..] == b && t[..|t| - |b|] == table;
    assert code[|code| - |Tests(b)|..] == Tests(b) && code[..|code| - |Tests(b)|] == body;
  }

  lemma SortedStride(b: seq<Mapping>)
    requires Sorted(b)
    ensures |b| >= 2 ==> Stride(b) > 0
  {
  }

  /** A mapping with another shift, or behind another stride, does not fit. */
  lemma Misfit(current: seq<Mapping>, m: Mapping)
    requires current != []
    requires Shift(current[0]) != Shift(m) || (|current| >= 2 && Stride(current) != Stride2(current[|current| - 1], m))
    ensures !Uniform(current + [m])
  {
    var b, k := current + [m], |current| - 1;
    assert Shift(b[k + 1]) == Shift(m) && b[0] == current[0];
    assert Stride2(b[k], b[k + 1]) == Stride2(current[k], m);
  }

  // ---- the generator -----------------------------------------------------------------------

  class Generator {
    var body: seq<Stmt>

    constructor ()
      ensures body == []
    {
      body := [];
    }

    /** Every mapping in the block has the same shift, and neighbours the same stride. If the tests
        deal with the mappings dumped before, whose keys are smaller, they then deal with the block
        too: they fold its keys, let none through, and return nothing beyond its last. */
    method DumpBlock(b: seq<Mapping>, ghost dumped: seq<Mapping>)
      requires b != [] && Uniform(b) && Sorted(b) && Handles(body, dumped) && Sorted(dumped + b)
      modifies this
      ensures Handles(body, dumped + b)
      ensures body == old(body) + Tests(b)
    {
      hide Handles, Uniform;
      DumpKeeps(body, dumped, b, dumped + b);
      if |b| == 1 {
        body := body + [IfEqual(b[0].from, b[0].to)];
        return;
      }
      var first := b[0].from;
      var last := first + Stride(b) * (|b| - 1);
      var modulo := first % Stride(b);
      body := body + [IfLess(first)];
      var test := IfUpToModulo(last, Stride(b), modulo, Add(Shift(b[0])));
      if Stride(b) == 2 && Shift(b[0]) == 1 && modulo == 0 {
        test := IfUpTo(last, OrOne);
      } else if Stride(b) == 1 {
        test := IfUpTo(last, Add(Shift(b[0])));
      }
      body := body + [test];
      assert body == old(body) + Tests(b);
    }

    /** The whole table, as the lines of the database give it. An empty table has no block to
        dump: the first access of one fails. */
    method Generate(table: seq<Mapping>) returns (r: Result<seq<Stmt>>, ghost blocks: seq<seq<Mapping>>)
      requires body == []
      modifies this
      ensures r.Ok? <==> table != [] && Sorted(table)
      ensures r.Err? && r.error == EmptyTable <==> table == []
      ensures r.Ok? ==> forall c :: Folds(table, c, Fold(r.value, c))
      ensures r.Ok? ==> Cut(blocks, table, r.value)
    {
      hide Handles, Tests, Folds, IsKey, Run, Uniform, Sorted, Fold, Cut;
      blocks := [];
      var current: seq<Mapping> := [];
      NothingDone(table);
      NothingCut();
      ghost var done: seq<Mapping> := [];
      var previous := -1;
      for i := 0 to |table|
        invariant done + current == table[..i]
        invariant Sorted(table[..i]) && previous == if i == 0 then -1 else table[i - 1].from
        invariant Uniform(current) && (i > 0 ==> current != [])
        invariant Handles(body, done)
        invariant Cut(blocks, done, body)
        invariant current == [] ==> blocks == []
        invariant blocks != [] && current != [] ==> !Uniform(blocks[|blocks| - 1] + [current[0]])
      {
        var m := table[i];
        if m.from <= previous {
          NotSorted(table, i);
          return Err(Unsorted), blocks;
        }
        previous := m.from;
        SortedMore(table, i);
        assert table[..i + 1] == table[..i] + [m];
        if |current| == 0 {
          current := current + [m];
          assert current == [m];
          continue;
        }
        if Shift(current[0]) != Shift(m) {
          SortedPart(done, current);
          SortedStride(current);
          CutMore(blocks, done, body, current);
          Misfit(current, m);
          DumpBlock(current, done);
          blocks, done := blocks + [current], done + current;
          current := [m];
          continue;
        }
        if |current| == 1 || Stride(current) == Stride2(current[|current| - 1], m) {
          UniformMore(current, m);
          current := current + [m];
          continue;
        }
        SortedPart(done, current);
        SortedStride(current);
        CutMore(blocks, done, body, current);
        Misfit(current, m);
        DumpBlock(current, done);
        blocks, done := blocks + [current], done + current;
        current := [m];
      }
      assert table[..|table|] == table;
      if |current| == 0 {
        return Err(EmptyTable), blocks;
      }
      SortedPart(done, current);
      SortedStride(current);
      CutMore(blocks, done, body, current);
      DumpBlock(current, done);
      blocks := blocks + [current];
      HandlesAll(body, table);
      r := Ok(body);
    }
  }

  lemma NothingDone(table: seq<Mapping>)
    ensures Sorted(table[..0]) && Uniform([]) && Handles([], []) && forall m: Mapping :: Uniform([m])
  {
  }

  lemma NothingCut()
    ensures Cut([], [], [])
  {
  }

  lemma HandlesAll(body: seq<Stmt>, table: seq<Mapping>)
    requires Handles(body, table)
    ensures forall c :: Folds(table, c, Fold(body, c))
  {
    forall c
      ensures Folds(table, c, Fold(body, c))
    {
      assert HandlesAt(body, table, c);
    }
  }

  lemma NotSorted(table: seq<Mapping>, i: nat)
    requires i < |table| && table[i].from <= if i == 0 then -1 else table[i - 1].from
    ensures !Sorted(table)
  {
  }

  lemma SortedMore(table: seq<Mapping>, i: nat)
    requires i < |table| && Sorted(table[..i]) && table[i].from > if i == 0 then -1 else table[i - 1].from
    ensures Sorted(table[..i + 1])
  {
  }

  lemma SortedPart(done: seq<Mapping>, current: seq<Mapping>)
    requires Sorted(done + current)
    ensures Sorted(current)
  {
    assert forall k :: 0 <= k < |current| ==> current[k] == (done + current)[|done| + k];
  }

  lemma DumpKeeps(body: seq<Stmt>, done: seq<Mapping>, current: seq<Mapping>, all: seq<Mapping>)
    requires Handles(body, done) && Sorted(all) && done + current == all && current != [] && Uniform(current)
    ensures Sorted(current) && Handles(body + Tests(current), all)
  {
    SortedPart(done, current);
    TestsHandle(current);
    HandlesMore(body, done, Tests(current), current);
  }

  lemma UniformMore(current: seq<Mapping>, m: Mapping)
    requires Uniform(current) && current != [] && Shift(current[0]) == Shift(m)
    requires |current| == 1 || Stride(current) == Stride2(current[|current| - 1], m)
    ensures Uniform(current + [m])
  {
  }
}
