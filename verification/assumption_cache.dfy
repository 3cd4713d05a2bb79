/** AssumptionCache.cpp: the assume calls of a function, and for each value those that say
    something about it. */
module AssumptionCacheModel {

  import opened AssumptionPatterns
  import opened AssumptionReplacement

  // ---- the index ---------------------------------------------------------------------------

  ghost predicate NoDup(s: seq<Assume>) {
    forall i, j :: 0 <= i < j < |s| ==> s[i] != s[j]
  }

  lemma AppendNew(s: seq<Assume>, a: Assume)
    requires NoDup(s) && a !in s
    ensures NoDup(s + [a])
  {
  }

  type Index = map<Value, seq<Assume>>

  function ListIn(index: Index, v: Value): seq<Assume> {
    if v in index then index[v] else []
  }

  /** What the cache was told: an assume, of the program as it then was, or a replacement of a value
      by another. */
  datatype Event = Registered(p: Program, a: Assume) | Replaced(from: Value, to: Value)

  /** The assume affected the value when it was registered, or another value that has been replaced
      by it since. */
  ghost predicate Listed(h: seq<Event>, a: Assume, v: Value)
    decreases |h|
  {
    h != [] &&
    var before := h[..|h| - 1];
    (Listed(before, a, v) ||
     match h[|h| - 1]
     case Registered(p, b) => a == b && Affects(p, p.condition(a), v)
     case Replaced(from, to) => v == to && Listed(before, a, from))
  }

  /** The value's list names each assume once, and just those that are to be listed there. */
  ghost predicate ListRight(index: Index, h: seq<Event>, v: Value) {
    NoDup(ListIn(index, v)) && forall a :: a in ListIn(index, v) <==> Listed(h, a, v)
  }

  ghost predicate Indexed(index: Index, h: seq<Event>) {
    forall v :: ListRight(index, h, v)
  }

  ghost predicate AllKnown(index: Index, known: seq<Assume>) {
    forall v, a :: a in ListIn(index, v) ==> a in known
  }

  /** While an assume is added: it is in the lists of the values gone through. */
  ghost predicate ListGrown(before: Index, index: Index, a: Assume, values: seq<Value>, v: Value) {
    NoDup(ListIn(index, v)) && forall x :: x in ListIn(index, v) <==> x in ListIn(before, v) || (x == a && v in values)
  }

  lemma IndexGrown(p: Program, before: Index, index: Index, h: seq<Event>, a: Assume, values: seq<Value>)
    requires Indexed(before, h) && forall v :: ListGrown(before, index, a, values, v)
    requires forall v :: v in values <==> Affects(p, p.condition(a), v)
    ensures Indexed(index, h + [Registered(p, a)])
  {
    hide Affects;
    var h' := h + [Registered(p, a)];
    assert h'[..|h|] == h;
    forall v
      ensures ListRight(index, h', v)
    {
      assert ListRight(before, h, v) && ListGrown(before, index, a, values, v);
      forall x
        ensures x in ListIn(index, v) <==> Listed(h', x, v)
      {
        assert Listed(h', x, v) <==> Listed(h, x, v) || (x == a && Affects(p, p.condition(x), v));
      }
    }
  }

  // ---- replacing values --------------------------------------------------------------------

  /** A value can be led to another by replacements. */
  ghost predicate Led(h: seq<Event>, from: Value, to: Value)
    decreases |h|
  {
    if h == [] then from == to
    else
      var before, last := h[..|h| - 1], h[|h| - 1];
      Led(before, from, to) || (last.Replaced? && last.to == to && Led(before, from, last.from))
  }

  /** What a history lists for a value: the assumes that, when they were registered, affected a value
      that was then replaced, step by step, by this one. */
  ghost predicate ListedSince(h: seq<Event>, i: nat, w: Value, a: Assume, v: Value)
    requires i < |h|
  {
    h[i].Registered? && h[i].a == a && Affects(h[i].p, h[i].p.condition(a), w) && Led(h[i + 1..], w, v)
  }

  lemma LedFrom(h: seq<Event>, i: nat, w: Value, v: Value)
    requires i < |h|
    ensures var n := |h| - 1;
            var before, last := h[..n], h[n];
            Led(h[i + 1..], w, v) <==>
            if i == n then w == v
            else Led(before[i + 1..], w, v) || (last.Replaced? && last.to == v && Led(before[i + 1..], w, last.from))
  {
    var n := |h| - 1;
    if i < n {
      assert h[i + 1..][..n - i - 1] == h[..n][i + 1..] && h[i + 1..][n - i - 1] == h[n];
    }
  }

  lemma {:induction false} ListedIffLed(h: seq<Event>, a: Assume, v: Value)
    ensures Listed(h, a, v) <==> exists i, w :: 0 <= i < |h| && ListedSince(h, i, w, a, v)
    decreases |h|
  {
    hide Affects, Led;
    if h != [] {
      var n := |h| - 1;
      var before, last := h[..n], h[n];
      ListedIffLed(before, a, v);
      if last.Replaced? && v == last.to {
        ListedIffLed(before, a, last.from);
      }
      if Listed(h, a, v) {
        if last.Registered? && last.a == a && Affects(last.p, last.p.condition(a), v) {
          LedFrom(h, n, v, v);
          assert ListedSince(h, n, v, a, v);
        } else {
          var u := if Listed(before, a, v) then v else last.from;
          var i, w :| 0 <= i < n && ListedSince(before, i, w, a, u);
          LedFrom(h, i, w, v);
          assert ListedSince(h, i, w, a, v);
        }
      }
      if i, w :| 0 <= i < |h| && ListedSince(h, i, w, a, v) {
        LedFrom(h, i, w, v);
        if i < n {
          var u := if Led(before[i + 1..], w, v) then v else last.from;
          assert ListedSince(before, i, w, a, u);
        }
      }
    }
  }

  /** Every value lists at least the known assumes that affect it in the program. */
  ghost predicate ListsAll(p: Program, known: seq<Assume>, index: Index) {
    forall a, v :: a in known && Affects(p, p.condition(a), v) ==> a in ListIn(index, v)
  }

  /** Every value lists just those. */
  ghost predicate ListsJust(p: Program, known: seq<Assume>, index: Index) {
    forall a, v :: a in ListIn(index, v) <==> a in known && Affects(p, p.condition(a), v)
  }

  /** The new value, if it can be listed for, has joined the old value's list to its own. */
  ghost predicate Copied(p: Program, from: Value, to: Value, before: Index, index: Index) {
    forall a, v {:trigger a in ListIn(index, v)} {:trigger a in ListIn(before, v)} ::
      a in ListIn(index, v) <==> a in ListIn(before, v) || (v == to && Tracked(p, to) && a in ListIn(before, from))
  }

  /** No known assume is newly about a value. */
  ghost predicate NothingNew(p: Program, from: Value, to: Value, known: seq<Assume>) {
    forall a, v :: a in known ==> !NewlyAffected(p, from, to, p.condition(a), v)
  }

  /** Complete lists stay complete if nothing is newly affected. */
  lemma StillListsAll(p: Program, from: Value, to: Value, known: seq<Assume>, before: Index, index: Index)
    requires ListsAll(p, known, before) && Tracked(p, from) && Copied(p, from, to, before, index)
    requires NothingNew(p, from, to, known)
    ensures ListsAll(AllReplaced(p, from, to), known, index)
  {
    hide Affects, NewlyAffected, Tracked;
    var p' := AllReplaced(p, from, to);
    forall a, v | a in known && Affects(p', p'.condition(a), v)
      ensures a in ListIn(index, v)
    {
      assert p'.condition(a) == Renamed(p.condition(a), from, to);
      MissedIffNew(p, from, to, p.condition(a), v);
      AffectedIsTracked(p, from, to, a, v);
      assert Affects(p, p.condition(a), v) || (v == to && Affects(p, p.condition(a), from));
    }
  }

  lemma AffectedIsTracked(p: Program, from: Value, to: Value, a: Assume, v: Value)
    requires Affects(AllReplaced(p, from, to), AllReplaced(p, from, to).condition(a), v)
    ensures Tracked(p, v)
  {
    hide Looks;
    KindAfter(p, from, to, v);
  }

  /** If they listed just what they should, they stay complete if and only if nothing is newly affected. */
  lemma ListsAllIffNothingNew(p: Program, from: Value, to: Value, known: seq<Assume>, before: Index, index: Index)
    requires ListsJust(p, known, before) && Tracked(p, from) && Copied(p, from, to, before, index)
    ensures ListsAll(AllReplaced(p, from, to), known, index) <==> NothingNew(p, from, to, known)
  {
    hide Affects, NewlyAffected, Tracked;
    var p' := AllReplaced(p, from, to);
    if NothingNew(p, from, to, known) {
      StillListsAll(p, from, to, known, before, index);
    }
    if a, v :| a in known && NewlyAffected(p, from, to, p.condition(a), v) {
      MissedIffNew(p, from, to, p.condition(a), v);
      assert p'.condition(a) == Renamed(p.condition(a), from, to);
      assert a !in ListIn(index, v);
    }
  }

  /** So it is with an opaque value or an inert constant; with a cast, if and only if each assume above the
      old value is about the operand of the cast already. */
  lemma NothingNewByKind(p: Program, from: Value, to: Value, known: seq<Assume>)
    requires Tracked(p, from) && (Opaque(p, to) || Inert(p, to) || CastOf(p, to).Some?)
    ensures NothingNew(p, from, to, known) <==>
            (CastOf(p, to).Some? ==>
             var x := Renamed(CastOf(p, to).value, from, to);
             Tracked(p, x) && x != to ==>
               forall a :: a in known && Stands(p, from, Place(Top, p.condition(a))) ==> Affects(p, p.condition(a), x))
  {
    hide Affects, NewlyAffected, Tracked, Stands;
    if a, v :| a in known && NewlyAffected(p, from, to, p.condition(a), v) {
      NewByKind(p, from, to, p.condition(a), v);
    }
    if CastOf(p, to).Some? && NothingNew(p, from, to, known) {
      var x := Renamed(CastOf(p, to).value, from, to);
      forall a | a in known && Stands(p, from, Place(Top, p.condition(a))) && Tracked(p, x) && x != to
        ensures Affects(p, p.condition(a), x)
      {
        NewByKind(p, from, to, p.condition(a), x);
      }
    }
  }

  /** An equality of an instruction and a constant, and a cast of an argument. */
  function CastExample(v: Value): Kind {
    if v == 0 then ICmp(true, 1, 3) else if v == 1 then OtherInstruction
    else if v == 2 then BitCast(4) else if v == 4 then Argument else Constant(false, false)
  }

  /** The lists are not complete after the instruction is replaced by the cast, whose operand the
      condition now affects. */
  lemma CastLooksFurther()
    ensures var p := Program(CastExample, (a: Assume) => 0);
            && Affects(AllReplaced(p, 1, 2), 0, 4) && NewlyAffected(p, 1, 2, 0, 4)
            && !Listed([Registered(p, 0), Replaced(1, 2)], 0, 4)
  {
    var p := Program(CastExample, (a: Assume) => 0);
    var p' := AllReplaced(p, 1, 2);
    var below, after := Below(p, Place(Top, 0)), Below(p', Place(Top, 0));
    assert below == [Place(Compared(true), 1), Place(Compared(true), 3)];
    assert Below(p, below[0]) == [] && Below(p, below[1]) == [];
    assert !Affects(p, 0, 4);
    assert after == [Place(Compared(true), 2), Place(Compared(true), 3)];
    KindAfter(p, 1, 2, 0);
    KindAfter(p, 1, 2, 2);
    KindAfter(p, 1, 2, 4);
    assert Looks(p', after[0], 4);
    assert LooksBelow(p', Place(Top, 0), 4);
    MissedIffNew(p, 1, 2, 0, 4);
    NotListed(p, 1, 2, 4);
  }

  /** What is neither affected nor the new value does not become listed. */
  lemma NotListed(p: Program, from: Value, to: Value, v: Value)
    requires !Affects(p, p.condition(0), v) && v != to
    ensures !Listed([Registered(p, 0), Replaced(from, to)], 0, v)
  {
    hide Affects;
    var h := [Registered(p, 0), Replaced(from, to)];
    assert h[..1] == [Registered(p, 0)] && h[..1][..0] == [];
    assert !Listed([], 0, v);
    assert !Listed(h[..1], 0, v);
    assert h[1] == Replaced(from, to);
  }

  /** An equality of a shift and a constant, and an integer. */
  function ShiftExample(v: Value): Kind {
    if v == 0 then ICmp(true, 1, 5) else if v == 1 then Shift(2, 3) else if v == 2 then Argument
    else if v == 3 then OtherInstruction else Constant(false, v == 4)
  }

  /** Nor are they after the amount of the shift is replaced by the integer: what is shifted is affected
      only now. */
  lemma ConstantLooksFurther()
    ensures var p := Program(ShiftExample, (a: Assume) => 0);
            && Affects(AllReplaced(p, 3, 4), 0, 2) && NewlyAffected(p, 3, 4, 0, 2)
            && !Listed([Registered(p, 0), Replaced(3, 4)], 0, 2)
  {
    var p := Program(ShiftExample, (a: Assume) => 0);
    var p' := AllReplaced(p, 3, 4);
    var below, after := Below(p, Place(Top, 0)), Below(p', Place(Top, 0));
    assert below == [Place(Compared(true), 1), Place(Compared(true), 5)];
    assert Below(p, below[0]) == [] && Below(p, below[1]) == [];
    assert !Affects(p, 0, 2);
    assert after == below;
    KindAfter(p, 3, 4, 0);
    KindAfter(p, 3, 4, 1);
    KindAfter(p, 3, 4, 4);
    assert Operands(p', 1) == [2];
    assert Below(p', after[0]) == [Place(Leaf, 2)];
    assert Looks(p', Below(p', after[0])[0], 2);
    assert Looks(p', after[0], 2);
    MissedIffNew(p, 3, 4, 0, 2);
    NotListed(p, 3, 4, 2);
  }

  // ---- the function ------------------------------------------------------------------------

  /** The function that a cache serves: its values, and its assume calls in their order. */
  class Function {
    var program: Program
    var assumes: seq<Assume>

    constructor (program: Program, assumes: seq<Assume>)
      ensures this.program == program && this.assumes == assumes
    {
      this.program, this.assumes := program, assumes;
    }

    /** A new call is put anywhere. */
    method Insert(at: nat, a: Assume)
      requires at <= |assumes| && NoDup(assumes) && a !in assumes
      modifies this`assumes
      ensures NoDup(assumes) && forall x :: x in assumes <==> x == a || x in old(assumes)
    {
      var before, after := assumes[..at], assumes[at..];
      assert assumes == before + after;
      assumes := before + [a] + after;
      assert forall i :: at < i < |assumes| ==> assumes[i] == old(assumes)[i - 1];
    }
  }

  // ---- the cache ---------------------------------------------------------------------------

  class AssumptionCache {
    const f: Function
    var scanned: bool
    var handles: seq<Assume>
    var affected: Index
    ghost var history: seq<Event>

    constructor (f: Function)
      requires NoDup(f.assumes)
      ensures Valid({}) && Valid(Calls()) && !scanned && this.f == f
    {
      this.f := f;
      scanned, handles, affected, history := false, [], map[], [];
    }

    ghost function Calls(): set<Assume>
      reads this, f
    {
      set a | a in f.assumes
    }

    /** The assumes that the cache knows of are cached once each, and every value lists, once each,
        just those that the history lists for it. A cache that has not scanned is empty. */
    ghost predicate Valid(known: set<Assume>)
      reads this, f
    {
      NoDup(f.assumes) &&
      if scanned then
        NoDup(handles) && (forall a :: a in handles <==> a in known) && Indexed(affected, history) && AllKnown(affected, handles)
      else
        handles == [] && affected == map[] && history == []
    }

    ghost predicate Complete()
      reads this, f
    {
      ListsAll(f.program, handles, affected)
    }

    /** Every value lists just those. */
    ghost predicate Exact()
      reads this, f
    {
      ListsJust(f.program, handles, affected)
    }

    /** The second half of updateAffectedValues: the call joins the lists, unless it is there. */
    method UpdateAffectedValues(a: Assume)
      requires Indexed(affected, history) && a in handles && AllKnown(affected, handles)
      modifies this`affected, this`history
      ensures history == old(history) + [Registered(f.program, a)]
      ensures Indexed(affected, history) && AllKnown(affected, handles)
      ensures forall x, v :: x in ListIn(affected, v) <==>
                             x in ListIn(old(affected), v) || (x == a && Affects(f.program, f.program.condition(a), v))
    {
      hide Affects, Listed;
      var values := AffectedValues(f.program, f.program.condition(a));
      ghost var before := affected;
      Start(before, history, a);
      for k := 0 to |values|
        invariant history == old(history)
        invariant forall v :: ListGrown(before, affected, a, values[..k], v)
      {
        var list := ListIn(affected, values[k]);
        assert ListGrown(before, affected, a, values[..k], values[k]);
        ghost var last := affected;
        if a !in list {
          AppendNew(list, a);
          list := list + [a];
        }
        affected := affected[values[k] := list];
        Grow(before, last, affected, a, values[..k], values[k], values[..k + 1]);
      }
      assert values[..|values|] == values;
      IndexGrown(f.program, before, affected, history, a, values);
      history := history + [Registered(f.program, a)];
      GrownTells(before, affected, a, values);
    }

    /** scanFunction. */
    method ScanFunction()
      requires Valid({}) && !scanned
      modifies this
      ensures Valid(Calls()) && scanned && handles == f.assumes && Exact()
    {
      hide Affects, Listed;
      handles := f.assumes;
      scanned := true;
      NoneListed();
      for k := 0 to |handles|
        invariant scanned && handles == f.assumes && Indexed(affected, history) && AllKnown(affected, handles)
        invariant forall a, v :: a in ListIn(affected, v) <==>
                                 a in handles[..k] && Affects(f.program, f.program.condition(a), v)
      {
        ghost var last := affected;
        UpdateAffectedValues(handles[k]);
        assert handles[..k + 1] == handles[..k] + [handles[k]];
      }
      assert handles[..|handles|] == handles;
    }

    /** registerAssumption, for a call of the function. One registered before the scan is left to it. */
    method RegisterAssumption(a: Assume)
      requires a in f.assumes && (scanned ==> a !in handles) && Valid(Calls() - {a})
      modifies this
      ensures scanned == old(scanned) && Valid(Calls())
      ensures scanned ==> handles == old(handles) + [a] && history == old(history) + [Registered(f.program, a)]
      ensures old(Complete()) ==> Complete()
      ensures old(Exact()) ==> Exact()
    {
      hide Affects, Listed;
      if !scanned {
        return;
      }
      ghost var known := handles;
      AppendNew(handles, a);
      handles := handles + [a];
      UpdateAffectedValues(a);
    }

    /** copyAffectedValuesInCache: what is known of the old value is known of the new one too. */
    method CopyAffectedValues(from: Value, to: Value)
      requires Indexed(affected, history)
      modifies this`affected, this`history
      ensures Indexed(affected, history) && history == old(history) + [Replaced(from, to)]
      ensures forall a :: a in ListIn(affected, to) <==> a in ListIn(old(affected), to) || a in ListIn(old(affected), from)
      ensures forall v :: v != to ==> ListIn(affected, v) == ListIn(old(affected), v)
    {
      hide Listed;
      var list := ListIn(affected, to);
      assert ListRight(affected, history, to);
      affected := affected[to := list];
      if from in affected {
        var source := affected[from];
        for k := 0 to |source|
          invariant NoDup(list) && affected == old(affected)[to := ListIn(old(affected), to)] && history == old(history)
          invariant forall a :: a in list <==> a in ListIn(old(affected), to) || a in source[..k]
        {
          if source[k] !in list {
            AppendNew(list, source[k]);
            list := list + [source[k]];
          }
        }
        assert source[..|source|] == source;
        affected := affected[to := list];
      }
      CopiedIndexed(old(affected), affected, history, from, to);
      history := history + [Replaced(from, to)];
    }

    /** All uses of a value are replaced, and the handle of a listed value is called back. Nothing is
        cached twice or lost. If every value listed just what affected it, it still lists all that affects
        it in the program as it has become if and only if nothing is newly affected. */
    method ReplaceAllUses(from: Value, to: Value)
      requires Valid(Calls()) && Tracked(f.program, from)
      modifies this`affected, this`history, f`program
      ensures Valid(Calls()) && f.program == AllReplaced(old(f.program), from, to)
      ensures old(Exact()) ==> (Complete() <==> NothingNew(old(f.program), from, to, handles))
      ensures old(Complete()) && NothingNew(old(f.program), from, to, handles) ==> Complete()
      ensures old(Complete()) && (Opaque(old(f.program), to) || Inert(old(f.program), to)) ==> Complete()
    {
      hide Affects, Listed, Indexed, AllKnown, ListsAll, ListsJust, NothingNew, Tracked, Stands;
      ghost var before, was := f.program, affected;
      KindAfter(before, from, to, to);
      f.program := AllReplaced(f.program, from, to);
      if from in affected && Tracked(f.program, to) {
        CopyAffectedValues(from, to);
        StillKnown(was, affected, handles, from, to);
      }
      assert Copied(before, from, to, was, affected);
      if Opaque(before, to) || Inert(before, to) {
        NothingNewByKind(before, from, to, handles);
      }
      if old(Complete()) && NothingNew(before, from, to, handles) {
        StillListsAll(before, from, to, handles, was, affected);
      }
      if old(Exact()) {
        ListsAllIffNothingNew(before, from, to, handles, was, affected);
      }
    }

    /** assumptions(): the function is scanned when it is first asked for. */
    method Assumptions() returns (r: seq<Assume>)
      requires Valid(Calls())
      modifies this
      ensures scanned && Valid(Calls()) && r == handles
      ensures old(scanned) ==> handles == old(handles) && affected == old(affected)
      ensures !old(scanned) ==> Exact()
    {
      if !scanned {
        ScanFunction();
      }
      r := handles;
    }
  }

  lemma NoneListed()
    ensures Indexed(map[], [])
  {
    assert forall v :: ListRight(map[], [], v);
  }

  lemma Start(before: Index, h: seq<Event>, a: Assume)
    requires Indexed(before, h)
    ensures forall v :: ListGrown(before, before, a, [], v)
  {
    forall v
      ensures ListGrown(before, before, a, [], v)
    {
      assert ListRight(before, h, v);
    }
  }

  /** The list of one value more is right. */
  lemma Grow(before: Index, last: Index, next: Index, a: Assume, done: seq<Value>, v: Value, more: seq<Value>)
    requires more == done + [v] && forall w :: ListGrown(before, last, a, done, w)
    requires next == last[v := ListIn(next, v)] && NoDup(ListIn(next, v))
    requires ListIn(next, v) == ListIn(last, v) + (if a in ListIn(last, v) then [] else [a])
    ensures forall w :: ListGrown(before, next, a, more, w)
  {
    forall w
      ensures ListGrown(before, next, a, more, w)
    {
      assert ListGrown(before, last, a, done, w);
    }
  }

  lemma GrownTells(before: Index, index: Index, a: Assume, values: seq<Value>)
    requires forall v :: ListGrown(before, index, a, values, v)
    ensures forall x, v :: x in ListIn(index, v) <==> x in ListIn(before, v) || (x == a && v in values)
  {
    forall x, v
      ensures x in ListIn(index, v) <==> x in ListIn(before, v) || (x == a && v in values)
    {
      assert ListGrown(before, index, a, values, v);
    }
  }

  lemma CopiedIndexed(before: Index, index: Index, h: seq<Event>, from: Value, to: Value)
    requires Indexed(before, h) && NoDup(ListIn(index, to))
    requires forall a :: a in ListIn(index, to) <==> a in ListIn(before, to) || a in ListIn(before, from)
    requires forall v :: v != to ==> ListIn(index, v) == ListIn(before, v)
    ensures Indexed(index, h + [Replaced(from, to)])
  {
    var h' := h + [Replaced(from, to)];
    assert h'[..|h|] == h;
    forall v
      ensures ListRight(index, h', v)
    {
      assert ListRight(before, h, v) && ListRight(before, h, from);
    }
  }

  lemma StillKnown(before: Index, index: Index, known: seq<Assume>, from: Value, to: Value)
    requires AllKnown(before, known)
    requires forall a :: a in ListIn(index, to) <==> a in ListIn(before, to) || a in ListIn(before, from)
    requires forall v :: v != to ==> ListIn(index, v) == ListIn(before, v)
    ensures AllKnown(index, known)
  {
  }

  // ---- any run -----------------------------------------------------------------------------

  /** What passes do: add a call and register it, replace a value, or ask for the assumes. */
  datatype Pass = Add(at: nat, a: Assume) | Replace(from: Value, to: Value) | Ask

  /** Whatever passes do, before and after the first scan, each call of the function ends up cached
      once, and listed once for just the values that it affected or that replaced one of these: a call
      registered too early is found by the scan. */
  method Follow(f: Function, passes: seq<Pass>) returns (cache: AssumptionCache)
    requires NoDup(f.assumes)
    modifies f
    ensures cache.f == f && cache.scanned && NoDup(cache.handles)
    ensures forall a :: a in cache.handles <==> a in f.assumes
    ensures forall v, a :: a in ListIn(cache.affected, v) <==> Listed(cache.history, a, v)
    ensures forall v :: NoDup(ListIn(cache.affected, v))
    ensures forall a, k :: 0 <= k < |passes| && passes[k].Add? && passes[k].a == a ==> a in cache.handles
    ensures (forall k :: 0 <= k < |passes| ==> !passes[k].Replace?) ==> cache.Exact()
  {
    hide Affects, Listed;
    cache := new AssumptionCache(f);
    for k := 0 to |passes|
      invariant fresh(cache) && cache.f == f && cache.Valid(cache.Calls())
      invariant forall i :: 0 <= i < k && passes[i].Add? ==> passes[i].a in f.assumes
      invariant (forall i :: 0 <= i < k ==> !passes[i].Replace?) ==> cache.Exact()
    {
      match passes[k] {
        case Add(at, a) =>
          if a !in f.assumes {
            ghost var calls := cache.Calls();
            f.Insert(if at <= |f.assumes| then at else |f.assumes|, a);
            assert cache.Calls() - {a} == calls;
            cache.RegisterAssumption(a);
          }
        case Replace(from, to) =>
          if Tracked(f.program, from) {
            cache.ReplaceAllUses(from, to);
          }
        case Ask =>
          var _ := cache.Assumptions();
      }
    }
    var _ := cache.Assumptions();
    forall v
      ensures NoDup(ListIn(cache.affected, v)) && forall a :: a in ListIn(cache.affected, v) <==> Listed(cache.history, a, v)
    {
      assert ListRight(cache.affected, cache.history, v);
    }
  }
}
