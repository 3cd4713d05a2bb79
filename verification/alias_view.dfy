/** What the tracker says to its users: the sets that are live and hold something, without
    forwarding and reference counts. */
module AliasView {
  import opened AliasSets
  import opened AliasChanges

  datatype Cell = Cell(ptrs: seq<Ptr>, unknown: seq<Inst>, may: bool, wide: bool, isRef: bool, isMod: bool)
  {
    predicate Holds(n: Node) {
      match n
      case P(p) => p in ptrs
      case I(i) => i in unknown
    }
  }

  type View = map<SetId, Cell>

  function CellOf(s: ASet): Cell {
    Cell(s.ptrs, s.unknown, s.may, s.aliasAny, s.isRef, s.isMod)
  }

  predicate Shown(s: ASet) {
    s.forward == None && (s.ptrs != [] || s.unknown != [])
  }

  function ViewOf(a: Arena): View {
    map s | s in a.sets && Shown(a.sets[s]) :: CellOf(a.sets[s])
  }

  /** Housekeeping does not show. */
  lemma TidiedView(a: Arena, b: Arena)
    requires Tidied(a, b)
    ensures ViewOf(b) == ViewOf(a)
  {
    forall s | s in a.sets
      ensures s in ViewOf(a) <==> s in ViewOf(b)
      ensures s in ViewOf(a) ==> ViewOf(b)[s] == ViewOf(a)[s]
    {
      assert SetTidied(a, b, s);
    }
  }

  /** A set that is referenced is shown: some record leads to it, or it has instructions. */
  lemma LiveIsShown(a: Arena, s: SetId, young: Option<SetId>)
    requires a.Inv(None, young) && a.Live(s) && young != Some(s) && (young.Some? ==> a.Live(young.value))
    ensures s in ViewOf(a)
  {
    assert a.CountOk(s, None, young);
    if a.sets[s].unknown == [] {
      ReferencedHolds(a, s, s, young);
    }
  }

  /** If a set without instructions leads to s, so does some record. */
  lemma {:induction false} ReferencedHolds(a: Arena, r: SetId, s: SetId, young: Option<SetId>)
    requires a.Inv(None, young) && young != Some(r) && (young.Some? ==> a.Live(young.value))
    requires r in a.sets && a.sets[r].unknown == [] && a.Target(r) == s
    ensures a.sets[s].ptrs != []
    decreases if a.any == Some(r) then a.next + 1 else a.next - r
  {
    assert a.CountOk(r, None, young);
    if p :| p in a.Namers(r) {
      assert a.RecordOk(p);
    } else {
      assert a.Namers(r) == {};
      assert a.Forwarders(r) != {};
      var x :| x in a.Forwarders(r);
      assert a.ForwardOk(x) && a.FlagsOk(x);
      ReferencedHolds(a, x, s, young);
    }
  }

  /** A live set of the arena, as a cell, when only that set changed. */
  lemma OnlySetView(a: Arena, b: Arena, s: SetId)
    requires OnlySet(a, b, s)
    ensures ViewOf(b) == if Shown(b.sets[s]) then ViewOf(a)[s := CellOf(b.sets[s])] else ViewOf(a) - {s}
  {
  }

  lemma SetAddedView(a: Arena, b: Arena, s: SetId)
    requires a.Listed() && SetAdded(a, b, s)
    ensures ViewOf(b) == ViewOf(a) && s !in ViewOf(a)
  {
  }

  lemma MergedView(a: Arena, b: Arena, s: SetId, t: SetId, may: bool)
    requires Mergeable(a, s, t) && Merged(a, b, s, t, may) && t in ViewOf(a)
    ensures ViewOf(b) == (ViewOf(a) - {t})[s := JoinCells(CellOf(a.sets[s]), CellOf(a.sets[t]), may)]
  {
    assert a.sets[t].ptrs != [] || a.sets[t].unknown != [];
    assert Shown(b.sets[s]) && !Shown(b.sets[t]);
    assert CellOf(b.sets[s]) == JoinCells(CellOf(a.sets[s]), CellOf(a.sets[t]), may);
  }

  // ---- what the operations do, on cells ----------------------------------------------

  function JoinCells(x: Cell, y: Cell, may: bool): Cell {
    Cell(x.ptrs + y.ptrs, x.unknown + y.unknown, may, x.wide, x.isRef || y.isRef, x.isMod || y.isMod)
  }

  /** Whether the union of two sets is a may-alias set (lines 57 to 73). */
  function JoinMay(o: Oracle, x: Cell, y: Cell): bool {
    x.may || y.may || x.ptrs == [] || y.ptrs == [] || o.alias(x.ptrs[0], y.ptrs[0]) != MustAlias
  }

  function Join(o: Oracle, x: Cell, y: Cell): Cell {
    JoinCells(x, y, JoinMay(o, x, y))
  }

  /** aliasesPointer and aliasesUnknownInst: a must-alias set speaks through its first pointer. */
  predicate Hits(o: Oracle, c: Cell, n: Node) {
    c.wide ||
    match n
    case P(p) =>
      if !c.may then c.ptrs != [] && o.alias(c.ptrs[0], p) != NoAlias
      else (exists q :: q in c.ptrs && o.alias(p, q) != NoAlias) || (exists i :: i in c.unknown && o.touches(i, p))
    case I(i) => (exists j :: j in c.unknown && o.clash(j, i)) || (exists q :: q in c.ptrs && o.touches(i, q))
  }

  /** Going through the sets in list order, every one that n may alias is merged into the first
      such one. */
  function Sweep(o: Oracle, v: View, ids: seq<SetId>, n: Node, found: Option<SetId>): (r: (View, Option<SetId>))
    requires found.Some? ==> found.value in v
    ensures r.1.Some? ==> r.1.value in r.0
  {
    if ids == [] then (v, found)
    else if ids[0] !in v || !Hits(o, v[ids[0]], n) || found == Some(ids[0]) then Sweep(o, v, ids[1..], n, found)
    else if found == None then Sweep(o, v, ids[1..], n, Some(ids[0]))
    else Sweep(o, JoinAt(o, v, found.value, ids[0]), ids[1..], n, found)
  }

  function JoinAt(o: Oracle, v: View, s: SetId, t: SetId): View
    requires s in v && t in v && s != t
  {
    (v - {t})[s := Join(o, v[s], v[t])]
  }

  /** Whether a set is a may-alias set once p is in it (lines 133 to 148). */
  function MayWith(o: Oracle, c: Cell, p: Ptr, known: bool): bool {
    c.may || (!known && c.ptrs != [] && o.alias(c.ptrs[0], p) != MustAlias)
  }

  function WithPointer(o: Oracle, c: Cell, p: Ptr, known: bool): Cell {
    c.(ptrs := c.ptrs + [p], may := MayWith(o, c, p, known))
  }

  function WithInst(c: Cell, i: Inst, writes: bool): Cell {
    c.(unknown := c.unknown + [i], may := true, isRef := true, isMod := c.isMod || writes)
  }

  const NOTHING: Cell := Cell([], [], false, false, false, false)

  function With(o: Oracle, c: Cell, n: Node, writes: bool): Cell {
    match n
    case P(p) => WithPointer(o, c, p, false)
    case I(i) => WithInst(c, i, writes)
  }

  /** The sets after n is added: to the union of the sets that it may alias, or to a new set. */
  function Added(o: Oracle, v: View, ids: seq<SetId>, next: SetId, n: Node, writes: bool): View {
    var (w, found) := Sweep(o, v, ids, n, None);
    if found.Some? then w[found.value := With(o, w[found.value], n, writes)]
    else w[next := With(o, NOTHING, n, writes)]
  }

  /** A pointer that comes to a must-alias set is not apart from its first pointer. */
  ghost predicate FirstMeets(o: Oracle, c: Cell, p: Ptr) {
    !c.may && c.ptrs != [] ==> o.alias(c.ptrs[0], p) != NoAlias
  }

  lemma {:induction false} SweepMeets(o: Oracle, v: View, ids: seq<SetId>, p: Ptr, found: Option<SetId>)
    requires forall s {:trigger v[s]} :: s in v && v[s].wide ==> v[s].may
    requires forall s {:trigger v[s]} :: s in v && !v[s].may ==> v[s].ptrs != []
    requires found.Some? ==> found.value in v && FirstMeets(o, v[found.value], p)
    ensures var (w, r) := Sweep(o, v, ids, P(p), found); r.Some? ==> FirstMeets(o, w[r.value], p)
  {
    if ids != [] {
      var c := ids[0];
      if c !in v || !Hits(o, v[c], P(p)) || found == Some(c) {
        SweepMeets(o, v, ids[1..], p, found);
      } else if found == None {
        SweepMeets(o, v, ids[1..], p, Some(c));
      } else {
        SweepMeets(o, JoinAt(o, v, found.value, c), ids[1..], p, found);
      }
    }
  }

  /** In a saturated tracker the one set is always found. */
  lemma {:induction false} SweepSaturated(o: Oracle, v: View, ids: seq<SetId>, n: Node, any: SetId, found: bool)
    requires v.Keys == {any} && v[any].wide && (found || any in ids)
    ensures Sweep(o, v, ids, n, if found then Some(any) else None) == (v, Some(any))
  {
    if ids != [] {
      SweepSaturated(o, v, ids[1..], n, any, found || ids[0] == any);
    }
  }

  /** The view without a pointer: the set that it leaves empty goes. */
  function Deleted(v: View, p: Ptr): View {
    map s | s in v && (v[s].ptrs != [p] || v[s].unknown != []) :: v[s].(ptrs := Remove(v[s].ptrs, p))
  }

  /** The view with a pointer copied into the set of another. */
  function Copied(o: Oracle, v: View, from: Ptr, to: Ptr): View {
    map s | s in v :: if from in v[s].ptrs then WithPointer(o, v[s], to, true) else v[s]
  }

  function Accessed(v: View, s: SetId, ref: bool, mod: bool): View
    requires s in v
  {
    v[s := v[s].(isRef := v[s].isRef || ref, isMod := v[s].isMod || mod)]
  }
}
