/** The sets of a tracker that is not saturated are the components of the may-alias graph. */
module AliasExact {
  import opened AliasSets
  import opened AliasChanges
  import opened AliasView

  // ---- what exactness means ----------------------------------------------------------

  /** In a must-alias set any two pointers must alias. */
  ghost predicate MustOk(o: Oracle, c: Cell) {
    !c.may ==> c.unknown == [] && forall p, q :: p in c.ptrs && q in c.ptrs && p != q ==> o.alias(p, q) == MustAlias
  }

  /** No member of one cell may alias a member of the other. */
  ghost predicate Apart(o: Oracle, c: Cell, d: Cell) {
    forall n, m :: c.Holds(n) && d.Holds(m) ==> !o.Linked(n, m)
  }

  ghost predicate Separated(o: Oracle, v: View) {
    forall s, t {:trigger v[s], v[t]} :: s in v && t in v && s != t ==> Apart(o, v[s], v[t])
  }

  /** Any split of c and n, taken together, into two parts is crossed by a link. */
  ghost predicate Crossed(o: Oracle, c: Cell, n: Option<Node>, part: iset<Node>) {
    (exists x, y :: In(c, n, x) && In(c, n, y) && x in part && y !in part) ==>
      exists x, y :: In(c, n, x) && In(c, n, y) && x in part && y !in part && o.Linked(x, y)
  }

  predicate In(c: Cell, n: Option<Node>, x: Node) {
    c.Holds(x) || n == Some(x)
  }

  ghost predicate Connected(o: Oracle, c: Cell, n: Option<Node>) {
    forall part: iset<Node> :: Crossed(o, c, n, part)
  }

  ghost predicate CellOk(o: Oracle, c: Cell) {
    MustOk(o, c) && !c.wide && (!c.may ==> c.ptrs != [])
  }

  /** Nothing that is linked is in different sets, and must-alias sets deserve the name. */
  ghost predicate Sound(o: Oracle, v: View) {
    && Separated(o, v)
    && forall s {:trigger v[s]} :: s in v ==> CellOk(o, v[s])
  }

  ghost predicate Exact(o: Oracle, v: View) {
    && Sound(o, v)
    && forall s {:trigger v[s]} :: s in v ==> Connected(o, v[s], None)
  }

  lemma LinkedSymmetric(o: Oracle, n: Node, m: Node)
    requires o.Good()
    ensures o.Linked(n, m) == o.Linked(m, n)
  {
  }

  // ---- hits --------------------------------------------------------------------------

  /** The short cut through the first pointer of a must-alias set is right. */
  lemma HitsIffLinked(o: Oracle, c: Cell, n: Node)
    requires o.Good() && CellOk(o, c)
    ensures Hits(o, c, n) <==> exists m :: c.Holds(m) && o.Linked(n, m)
  {
    if Hits(o, c, n) {
      HitIsLink(o, c, n);
    }
    if m :| c.Holds(m) && o.Linked(n, m) {
      LinkIsHit(o, c, n, m);
    }
  }

  lemma HitIsLink(o: Oracle, c: Cell, n: Node)
    requires o.Good() && CellOk(o, c) && Hits(o, c, n)
    ensures exists m :: c.Holds(m) && o.Linked(n, m)
  {
    match n
    case P(p) =>
      if !c.may {
        assert c.Holds(P(c.ptrs[0])) && o.Linked(n, P(c.ptrs[0]));
      } else if q :| q in c.ptrs && o.alias(p, q) != NoAlias {
        assert c.Holds(P(q)) && o.Linked(n, P(q));
      } else {
        var i :| i in c.unknown && o.touches(i, p);
        assert c.Holds(I(i)) && o.Linked(n, I(i));
      }
    case I(i) =>
      if j :| j in c.unknown && o.clash(j, i) {
        assert c.Holds(I(j)) && o.Linked(n, I(j));
      } else {
        var q :| q in c.ptrs && o.touches(i, q);
        assert c.Holds(P(q)) && o.Linked(n, P(q));
      }
  }

  lemma LinkIsHit(o: Oracle, c: Cell, n: Node, m: Node)
    requires o.Good() && CellOk(o, c) && c.Holds(m) && o.Linked(n, m)
    ensures Hits(o, c, n)
  {
    match n
    case P(p) =>
      if !c.may {
        var f := c.ptrs[0];
        assert m == P(f) || o.alias(f, m.ptr) == MustAlias;
      }
    case I(i) =>
  }

  // ---- connectedness ------------------------------------------------------------------

  lemma ConnectWith(o: Oracle, c: Cell, n: Node, m: Node)
    requires o.Good() && Connected(o, c, None) && c.Holds(m) && o.Linked(n, m)
    ensures Connected(o, c, Some(n))
  {
    forall part: iset<Node>
      ensures Crossed(o, c, Some(n), part)
    {
      assert Crossed(o, c, None, part);
      LinkedSymmetric(o, n, m);
      assert In(c, Some(n), m) && In(c, None, m) && In(c, Some(n), n);
      if x, y :| In(c, Some(n), x) && In(c, Some(n), y) && x in part && y !in part {
        assert In(c, None, x) || x == n;
        assert In(c, None, y) || y == n;
        if (m in part) == (n in part) {
          var u, w :| In(c, None, u) && In(c, None, w) && u in part && w !in part && o.Linked(u, w);
          assert In(c, Some(n), u) && In(c, Some(n), w);
        }
      }
    }
  }

  lemma JoinConnected(o: Oracle, x: Cell, y: Cell, n: Node)
    requires Connected(o, x, Some(n)) && Connected(o, y, Some(n))
    ensures Connected(o, Join(o, x, y), Some(n))
  {
    var j := Join(o, x, y);
    forall part: iset<Node>
      ensures Crossed(o, j, Some(n), part)
    {
      assert Crossed(o, x, Some(n), part) && Crossed(o, y, Some(n), part);
      assert forall z :: In(j, Some(n), z) <==> In(x, Some(n), z) || In(y, Some(n), z);
      assert In(x, Some(n), n) && In(y, Some(n), n);
    }
  }

  lemma SameMembersConnected(o: Oracle, c: Cell, n: Option<Node>, d: Cell)
    requires Connected(o, c, n) && forall x :: In(c, n, x) <==> In(d, None, x)
    ensures Connected(o, d, None)
  {
    forall part: iset<Node>
      ensures Crossed(o, d, None, part)
    {
      assert Crossed(o, c, n, part);
    }
  }

  // ---- sweeping -----------------------------------------------------------------------

  ghost predicate CellMidway(o: Oracle, v: View, n: Node, found: Option<SetId>, s: SetId)
    requires s in v
  {
    CellOk(o, v[s]) && Connected(o, v[s], if found == Some(s) then Some(n) else None)
  }

  /** What holds while the sets are gone through: n would connect what has been merged. */
  ghost predicate Midway(o: Oracle, v: View, n: Node, found: Option<SetId>) {
    && Separated(o, v)
    && forall s {:trigger CellMidway(o, v, n, found, s)} :: s in v ==> CellMidway(o, v, n, found, s)
  }

  lemma FindFirst(o: Oracle, v: View, n: Node, s: SetId)
    requires o.Good() && Midway(o, v, n, None) && s in v && Hits(o, v[s], n)
    ensures Midway(o, v, n, Some(s))
  {
    assert CellMidway(o, v, n, None, s);
    HitIsLink(o, v[s], n);
    var m :| v[s].Holds(m) && o.Linked(n, m);
    ConnectWith(o, v[s], n, m);
    forall t | t in v
      ensures CellMidway(o, v, n, Some(s), t)
    {
      assert CellMidway(o, v, n, None, t);
    }
  }

  lemma JoinStep(o: Oracle, v: View, n: Node, s: SetId, t: SetId)
    requires o.Good() && Midway(o, v, n, Some(s)) && s in v && t in v && s != t && Hits(o, v[t], n)
    ensures Midway(o, JoinAt(o, v, s, t), n, Some(s))
  {
    hide Connected, Hits, Separated;
    var w := JoinAt(o, v, s, t);
    assert CellMidway(o, v, n, Some(s), s) && CellMidway(o, v, n, Some(s), t);
    HitIsLink(o, v[t], n);
    var m :| v[t].Holds(m) && o.Linked(n, m);
    ConnectWith(o, v[t], n, m);
    JoinConnected(o, v[s], v[t], n);
    JoinApart(o, v, s, t);
    forall u | u in w
      ensures CellMidway(o, w, n, Some(s), u)
    {
      assert CellMidway(o, v, n, Some(s), u);
    }
  }

  /** Sets that are kept apart never join to a must-alias set. */
  lemma JoinApart(o: Oracle, v: View, s: SetId, t: SetId)
    requires o.Good() && Separated(o, v) && s in v && t in v && s != t && CellOk(o, v[s]) && CellOk(o, v[t])
    ensures Separated(o, JoinAt(o, v, s, t)) && CellOk(o, Join(o, v[s], v[t]))
  {
    var x, y, w := v[s], v[t], JoinAt(o, v, s, t);
    assert Apart(o, x, y);
    if !x.may && !y.may {
      assert x.Holds(P(x.ptrs[0])) && y.Holds(P(y.ptrs[0]));
      assert !o.Linked(P(x.ptrs[0]), P(y.ptrs[0]));
    }
    forall a, b | a in w && b in w && a != b
      ensures Apart(o, w[a], w[b])
    {
      assert a == s || w[a] == v[a];
      assert b == s || w[b] == v[b];
      if a == s {
        assert Apart(o, x, v[b]) && Apart(o, y, v[b]);
      } else if b == s {
        assert Apart(o, v[a], x) && Apart(o, v[a], y);
      } else {
        assert Apart(o, v[a], v[b]);
      }
    }
  }

  ghost predicate Tracked(v: View, n: Node) {
    exists s :: s in v && v[s].Holds(n)
  }

  /** The same nodes are tracked. */
  ghost predicate SameTracked(v: View, w: View) {
    forall x {:trigger Tracked(w, x)} :: Tracked(w, x) <==> Tracked(v, x)
  }

  /** The same nodes are tracked, and n. */
  ghost predicate Grows(v: View, w: View, n: Node) {
    forall x {:trigger Tracked(w, x)} :: Tracked(w, x) <==> Tracked(v, x) || x == n
  }

  lemma GrowsSame(v: View, w: View, u: View, n: Node)
    requires Grows(v, w, n) && SameTracked(w, u)
    ensures Grows(v, u, n)
  {
  }

  lemma JoinTracks(o: Oracle, v: View, s: SetId, t: SetId, n: Node)
    requires s in v && t in v && s != t
    ensures Tracked(JoinAt(o, v, s, t), n) <==> Tracked(v, n)
  {
    var w := JoinAt(o, v, s, t);
    if u :| u in v && v[u].Holds(n) {
      assert w[if u == t then s else u].Holds(n);
    }
  }

  lemma {:induction false} SweepTracks(o: Oracle, v: View, ids: seq<SetId>, n: Node, found: Option<SetId>, x: Node)
    requires found.Some? ==> found.value in v
    ensures Tracked(Sweep(o, v, ids, n, found).0, x) <==> Tracked(v, x)
  {
    if ids != [] {
      if ids[0] !in v || !Hits(o, v[ids[0]], n) || found == Some(ids[0]) {
        SweepTracks(o, v, ids[1..], n, found, x);
      } else if found == None {
        SweepTracks(o, v, ids[1..], n, Some(ids[0]), x);
      } else {
        JoinTracks(o, v, found.value, ids[0], x);
        SweepTracks(o, JoinAt(o, v, found.value, ids[0]), ids[1..], n, found, x);
      }
    }
  }

  /** A set that the sweep passes by or does not come to is left as it is; one that it passes by is not hit. */
  ghost predicate PassedBy(o: Oracle, v: View, ids: seq<SetId>, n: Node, w: View, s: SetId)
    requires s in w
  {
    s in v && w[s] == v[s] && (s in ids ==> !Hits(o, w[s], n))
  }

  lemma {:induction false} SweepMidway(o: Oracle, v: View, ids: seq<SetId>, n: Node, found: Option<SetId>)
    requires o.Good() && Midway(o, v, n, found) && (found.Some? ==> found.value in v)
    ensures var (w, r) := Sweep(o, v, ids, n, found); Midway(o, w, n, r)
    ensures var (w, r) := Sweep(o, v, ids, n, found); found.Some? ==> r == found
    ensures var (w, r) := Sweep(o, v, ids, n, found);
            forall s {:trigger PassedBy(o, v, ids, n, w, s)} :: s in w && r != Some(s) ==> PassedBy(o, v, ids, n, w, s)
  {
    hide Midway, Hits;
    var (w, r) := Sweep(o, v, ids, n, found);
    if ids != [] {
      var c, rest := ids[0], ids[1..];
      var v', found' := v, found;
      if c !in v || !Hits(o, v[c], n) || found == Some(c) {
      } else if found == None {
        FindFirst(o, v, n, c);
        found' := Some(c);
      } else {
        JoinStep(o, v, n, found.value, c);
        v' := JoinAt(o, v, found.value, c);
      }
      SweepMidway(o, v', rest, n, found');
      forall s | s in w && r != Some(s)
        ensures PassedBy(o, v, ids, n, w, s)
      {
        assert PassedBy(o, v', rest, n, w, s);
      }
    }
  }

  // ---- adding -------------------------------------------------------------------------

  lemma WithHolds(o: Oracle, c: Cell, n: Node, writes: bool, x: Node)
    ensures With(o, c, n, writes).Holds(x) <==> In(c, Some(n), x)
  {
  }

  lemma WithConnected(o: Oracle, c: Cell, n: Node, writes: bool)
    requires Connected(o, c, Some(n))
    ensures Connected(o, With(o, c, n, writes), None)
  {
    forall x
      ensures In(c, Some(n), x) <==> In(With(o, c, n, writes), None, x)
    {
      WithHolds(o, c, n, writes, x);
    }
    SameMembersConnected(o, c, Some(n), With(o, c, n, writes));
  }

  /** Comparing with the first pointer is enough to tell whether the set stays a must-alias set. */
  lemma WithOk(o: Oracle, c: Cell, n: Node, writes: bool)
    requires o.Good() && CellOk(o, c) && !c.Holds(n)
    ensures CellOk(o, With(o, c, n, writes))
  {
    if n.P? && !c.may && o.alias(c.ptrs[0], n.ptr) == MustAlias {
      var d := With(o, c, n, writes);
      forall p, q | p in d.ptrs && q in d.ptrs && p != q
        ensures o.alias(p, q) == MustAlias
      {
        assert forall r :: r in c.ptrs && r != c.ptrs[0] ==> o.alias(r, c.ptrs[0]) == MustAlias;
        assert p in c.ptrs || p == n.ptr;
        assert q in c.ptrs || q == n.ptr;
      }
    }
  }

  lemma NothingConnected(o: Oracle, n: Node)
    ensures Connected(o, NOTHING, Some(n))
  {
    forall part: iset<Node>
      ensures Crossed(o, NOTHING, Some(n), part)
    {
    }
  }

  /** A pointer is not added when it is there; an instruction may be there, but then in no
      must-alias set. */
  lemma AddedExact(o: Oracle, v: View, ids: seq<SetId>, next: SetId, n: Node, writes: bool)
    requires o.Good() && Exact(o, v) && next !in v && v.Keys <= (set s | s in ids)
    requires n.P? ==> !Tracked(v, n)
    ensures Exact(o, Added(o, v, ids, next, n, writes))
  {
    hide Hits, Connected;
    var (w, r) := Sweep(o, v, ids, n, None);
    forall s | s in v
      ensures CellMidway(o, v, n, None, s)
    {
    }
    SweepMidway(o, v, ids, n, None);
    forall s | s in w && r != Some(s)
      ensures !Hits(o, w[s], n) && s != next
    {
      assert PassedBy(o, v, ids, n, w, s);
      assert s in (set s | s in ids);
    }
    SweepTracks(o, v, ids, n, None, n);
    forall s | s in w
      ensures CellOk(o, w[s]) && Connected(o, w[s], if r == Some(s) then Some(n) else None)
    {
      assert CellMidway(o, w, n, r, s);
    }
    if r.Some? {
      assert Tracked(w, n) <==> Tracked(v, n);
      assert Added(o, v, ids, next, n, writes) == w[r.value := With(o, w[r.value], n, writes)];
      AddedToCell(o, w, r.value, w[r.value], n, writes);
    } else {
      NothingConnected(o, n);
      assert Added(o, v, ids, next, n, writes) == w[next := With(o, NOTHING, n, writes)];
      AddedToCell(o, w, next, NOTHING, n, writes);
    }
  }

  lemma AddedToCell(o: Oracle, w: View, s: SetId, c: Cell, n: Node, writes: bool)
    requires o.Good() && Separated(o, w)
    requires forall t {:trigger w[t]} :: t in w && t != s ==> CellOk(o, w[t]) && Connected(o, w[t], None)
    requires forall t {:trigger w[t]} :: t in w && t != s ==> !Hits(o, w[t], n)
    requires if s in w then c == w[s] && CellOk(o, c) else c == NOTHING
    requires Connected(o, c, Some(n)) && (n.P? ==> !c.Holds(n))
    ensures Exact(o, w[s := With(o, c, n, writes)])
  {
    hide Connected;
    var d, u := With(o, c, n, writes), w[s := With(o, c, n, writes)];
    WithConnected(o, c, n, writes);
    if s in w && !c.Holds(n) {
      WithOk(o, c, n, writes);
    }
    assert CellOk(o, d);
    forall x
      ensures d.Holds(x) <==> In(c, Some(n), x)
    {
      WithHolds(o, c, n, writes, x);
    }
    forall t | t in w && t != s
      ensures Apart(o, d, w[t]) && Apart(o, w[t], d)
    {
      assert s in w ==> Apart(o, c, w[t]);
      ApartFrom(o, c, d, n, w[t]);
    }
    forall a, b | a in u && b in u && a != b
      ensures Apart(o, u[a], u[b])
    {
      assert a == s || u[a] == w[a];
      assert b == s || u[b] == w[b];
    }
  }

  lemma TrackedAt(w: View, s: SetId, c: Cell, d: Cell, n: Node, x: Node)
    requires if s in w then c == w[s] else c == NOTHING
    requires d.Holds(x) <==> In(c, Some(n), x)
    ensures Tracked(w[s := d], x) <==> Tracked(w, x) || x == n
  {
    var u := w[s := d];
    if t :| t in w && w[t].Holds(x) {
      assert u[t].Holds(x);
    }
    if x == n {
      assert u[s].Holds(x);
    }
    if t :| t in u && u[t].Holds(x) {
      assert t == s || w[t].Holds(x);
      assert t == s && s in w && x != n ==> w[s].Holds(x);
    }
  }

  /** What is tracked afterwards is what was tracked before, and n. */
  lemma AddedTracks(o: Oracle, v: View, ids: seq<SetId>, next: SetId, n: Node, writes: bool)
    requires next !in v
    ensures Grows(v, Added(o, v, ids, next, n, writes), n)
  {
    forall x
      ensures Tracked(Added(o, v, ids, next, n, writes), x) <==> Tracked(v, x) || x == n
    {
      AddedTrack(o, v, ids, next, n, writes, x);
    }
  }

  lemma AddedTrack(o: Oracle, v: View, ids: seq<SetId>, next: SetId, n: Node, writes: bool, x: Node)
    requires next !in v
    ensures Tracked(Added(o, v, ids, next, n, writes), x) <==> Tracked(v, x) || x == n
  {
    var (w, r) := Sweep(o, v, ids, n, None);
    SweepTracks(o, v, ids, n, None, x);
    SweepKeys(o, v, ids, n, None);
    var s := if r.Some? then r.value else next;
    var c := if r.Some? then w[r.value] else NOTHING;
    WithHolds(o, c, n, writes, x);
    TrackedAt(w, s, c, With(o, c, n, writes), n, x);
  }

  lemma {:induction false} SweepKeys(o: Oracle, v: View, ids: seq<SetId>, n: Node, found: Option<SetId>)
    requires found.Some? ==> found.value in v
    ensures Sweep(o, v, ids, n, found).0.Keys <= v.Keys
  {
    if ids != [] {
      if ids[0] !in v || !Hits(o, v[ids[0]], n) || found == Some(ids[0]) {
        SweepKeys(o, v, ids[1..], n, found);
      } else if found == None {
        SweepKeys(o, v, ids[1..], n, Some(ids[0]));
      } else {
        SweepKeys(o, JoinAt(o, v, found.value, ids[0]), ids[1..], n, found);
      }
    }
  }

  lemma ApartFrom(o: Oracle, c: Cell, d: Cell, n: Node, e: Cell)
    requires o.Good() && CellOk(o, e) && !Hits(o, e, n) && (c == NOTHING || Apart(o, c, e))
    requires forall x :: d.Holds(x) <==> In(c, Some(n), x)
    ensures Apart(o, d, e) && Apart(o, e, d)
  {
    hide Hits;
    HitsIffLinked(o, e, n);
    forall x, y | d.Holds(x) && e.Holds(y)
      ensures !o.Linked(x, y) && !o.Linked(y, x)
    {
      LinkedSymmetric(o, x, y);
      assert c.Holds(x) || x == n;
    }
  }

  // ---- components ---------------------------------------------------------------------

  /** Consecutive nodes of the chain may alias. */
  ghost predicate Chain(o: Oracle, nodes: set<Node>, path: seq<Node>) {
    && path != []
    && (forall i :: 0 <= i < |path| ==> path[i] in nodes)
    && forall i :: 0 <= i < |path| - 1 ==> o.Linked(path[i], path[i + 1])
  }

  ghost predicate Linking(o: Oracle, nodes: set<Node>, n: Node, m: Node, path: seq<Node>) {
    Chain(o, nodes, path) && path[0] == n && path[|path| - 1] == m
  }

  /** n and m are in one component of the may-alias graph over the nodes. */
  ghost predicate Reaches(o: Oracle, nodes: set<Node>, n: Node, m: Node) {
    exists path :: Linking(o, nodes, n, m, path)
  }

  ghost predicate Together(v: View, n: Node, m: Node) {
    exists s :: s in v && v[s].Holds(n) && v[s].Holds(m)
  }

  ghost predicate Tracks(v: View, nodes: set<Node>) {
    forall x {:trigger Tracked(v, x)} {:trigger x in nodes} :: Tracked(v, x) <==> x in nodes
  }

  /** Two different nodes are in one set exactly when they are in one component. */
  lemma SetsAreComponents(o: Oracle, v: View, nodes: set<Node>, n: Node, m: Node)
    requires o.Good() && Exact(o, v) && Tracks(v, nodes) && n != m
    ensures Together(v, n, m) <==> Reaches(o, nodes, n, m)
  {
    if s :| s in v && v[s].Holds(n) && v[s].Holds(m) {
      ChainInside(o, v, nodes, s, n, m);
    }
    if path :| Linking(o, nodes, n, m, path) {
      assert Tracked(v, path[0]);
      var s :| s in v && v[s].Holds(n);
      ChainStays(o, v, nodes, path, s);
    }
  }

  lemma ChainTail(o: Oracle, nodes: set<Node>, path: seq<Node>)
    requires Chain(o, nodes, path) && |path| > 1
    ensures Chain(o, nodes, path[1..])
  {
    var rest := path[1..];
    forall i | 0 <= i < |rest| - 1
      ensures o.Linked(rest[i], rest[i + 1])
    {
      assert o.Linked(path[i + 1], path[i + 1 + 1]);
    }
  }

  /** A chain never leaves a set. */
  lemma {:induction false} ChainStays(o: Oracle, v: View, nodes: set<Node>, path: seq<Node>, s: SetId)
    requires Sound(o, v) && Tracks(v, nodes) && Chain(o, nodes, path) && s in v && v[s].Holds(path[0])
    ensures v[s].Holds(path[|path| - 1])
  {
    if |path| > 1 {
      assert path[1] in nodes && o.Linked(path[0], path[0 + 1]);
      assert Tracked(v, path[1]);
      var t :| t in v && v[t].Holds(path[1]);
      assert t != s ==> Apart(o, v[s], v[t]);
      ChainTail(o, nodes, path);
      ChainStays(o, v, nodes, path[1..], s);
    }
  }

  lemma OneFurther(o: Oracle, nodes: set<Node>, n: Node, x: Node, y: Node)
    requires Reaches(o, nodes, n, x) && o.Linked(x, y) && y in nodes
    ensures Reaches(o, nodes, n, y)
  {
    var path :| Linking(o, nodes, n, x, path);
    assert Linking(o, nodes, n, y, path + [y]);
  }

  lemma ReachesItself(o: Oracle, nodes: set<Node>, n: Node)
    requires n in nodes
    ensures Reaches(o, nodes, n, n)
  {
    assert Linking(o, nodes, n, n, [n]);
  }

  /** What chains reach inside a set is the whole set, or the set would split. */
  lemma ChainInside(o: Oracle, v: View, nodes: set<Node>, s: SetId, n: Node, m: Node)
    requires Exact(o, v) && Tracks(v, nodes) && s in v && v[s].Holds(n) && v[s].Holds(m)
    ensures Reaches(o, nodes, n, m)
  {
    hide Reaches, Sound;
    var part := iset x: Node | Reaches(o, nodes, n, x);
    assert Tracked(v, n) && n in nodes;
    ReachesItself(o, nodes, n);
    if m !in part {
      assert Connected(o, v[s], None);
      assert Crossed(o, v[s], None, part);
      assert In(v[s], None, n) && In(v[s], None, m);
      var x, y :| In(v[s], None, x) && In(v[s], None, y) && x in part && y !in part && o.Linked(x, y);
      assert Tracked(v, y) && y in nodes;
      OneFurther(o, nodes, n, x, y);
    }
  }

  // ---- deleting and copying -----------------------------------------------------------

  /** c without some of its members. */
  ghost predicate Fewer(c: Cell, d: Cell) {
    && (forall p :: p in c.ptrs ==> p in d.ptrs) && c.unknown == d.unknown
    && c.may == d.may && c.wide == d.wide && (c.ptrs != [] || c.unknown != [])
  }

  /** Deleting leaves apart what was apart. */
  lemma DeletedSound(o: Oracle, v: View, w: View)
    requires Sound(o, v) && w.Keys <= v.Keys
    requires forall s {:trigger w[s]} :: s in w ==> Fewer(w[s], v[s])
    ensures Sound(o, w)
  {
    forall s | s in w
      ensures CellOk(o, w[s])
    {
      assert Fewer(w[s], v[s]) && CellOk(o, v[s]);
    }
    forall a, b | a in w && b in w && a != b
      ensures Apart(o, w[a], w[b])
    {
      assert Fewer(w[a], v[a]) && Fewer(w[b], v[b]) && Apart(o, v[a], v[b]);
    }
  }

  /** The oracle cannot tell p and q apart, which must alias. */
  ghost predicate Twins(o: Oracle, p: Ptr, q: Ptr) {
    o.alias(p, q) == MustAlias && forall i :: o.touches(i, p) == o.touches(i, q)
  }

  /** Copying a pointer to its twin is the same as adding the twin, as far as exactness goes. */
  lemma CopiedExact(o: Oracle, v: View, s: SetId, p: Ptr, q: Ptr)
    requires o.Good() && Exact(o, v) && s in v && p in v[s].ptrs && !Tracked(v, P(q)) && Twins(o, p, q)
    ensures Exact(o, v[s := WithPointer(o, v[s], q, true)])
  {
    hide Connected;
    var c, d := v[s], WithPointer(o, v[s], q, true);
    var w := v[s := d];
    assert !c.Holds(P(q));
    assert c.Holds(P(p)) && o.Linked(P(q), P(p));
    ConnectWith(o, c, P(q), P(p));
    SameMembersConnected(o, c, Some(P(q)), d);
    assert CellOk(o, d) by {
      if !c.may {
        assert forall x :: x in c.ptrs && x != p ==> o.alias(x, p) == MustAlias;
      }
    }
    forall t | t in v && t != s
      ensures Apart(o, d, v[t]) && Apart(o, v[t], d)
    {
      assert Apart(o, c, v[t]);
      TwinApart(o, c, d, p, q, v[t]);
    }
    forall a, b | a in w && b in w && a != b
      ensures Apart(o, w[a], w[b])
    {
      assert a == s || w[a] == v[a];
      assert b == s || w[b] == v[b];
      assert a != s && b != s ==> Apart(o, v[a], v[b]);
    }
  }

  lemma TwinApart(o: Oracle, c: Cell, d: Cell, p: Ptr, q: Ptr, e: Cell)
    requires o.Good() && Twins(o, p, q) && c.Holds(P(p)) && Apart(o, c, e)
    requires d.ptrs == c.ptrs + [q] && d.unknown == c.unknown
    ensures Apart(o, d, e) && Apart(o, e, d)
  {
    forall x, y | d.Holds(x) && e.Holds(y)
      ensures !o.Linked(x, y) && !o.Linked(y, x)
    {
      LinkedSymmetric(o, x, y);
      assert c.Holds(x) || x == P(q);
      assert !o.Linked(P(p), y);
    }
  }

  lemma RemoveSome(ptrs: seq<Ptr>, p: Ptr)
    ensures forall q :: q in Remove(ptrs, p) ==> q in ptrs
    ensures ptrs != [] && ptrs != [p] ==> Remove(ptrs, p) != []
  {
  }

  /** Deleting a pointer keeps apart what was apart. */
  lemma DeletedKeepsSound(o: Oracle, v: View, p: Ptr)
    requires Sound(o, v) && forall s {:trigger v[s]} :: s in v ==> v[s].ptrs != [] || v[s].unknown != []
    ensures Sound(o, Deleted(v, p))
  {
    var w := Deleted(v, p);
    forall s | s in w
      ensures Fewer(w[s], v[s])
    {
      RemoveSome(v[s].ptrs, p);
    }
    DeletedSound(o, v, w);
  }

  /** How a set is accessed does not matter to its members. */
  lemma AccessedExact(o: Oracle, v: View, s: SetId, ref: bool, mod: bool)
    requires s in v
    ensures Exact(o, v) ==> Exact(o, Accessed(v, s, ref, mod))
    ensures SameTracked(v, Accessed(v, s, ref, mod))
  {
    var w := Accessed(v, s, ref, mod);
    forall x
      ensures Tracked(w, x) <==> Tracked(v, x)
    {
      if t :| t in v && v[t].Holds(x) {
        assert w[t].Holds(x);
      }
    }
    if Exact(o, v) {
      forall t | t in w
        ensures CellOk(o, w[t]) && Connected(o, w[t], None)
      {
        assert CellOk(o, v[t]) && Connected(o, v[t], None);
        SameMembersConnected(o, v[t], None, w[t]);
      }
      forall a, b | a in w && b in w && a != b
        ensures Apart(o, w[a], w[b])
      {
        assert Apart(o, v[a], v[b]);
      }
    }
  }

  lemma CopiedTracks(o: Oracle, v: View, from: Ptr, to: Ptr)
    requires Tracked(v, P(from))
    ensures Grows(v, Copied(o, v, from, to), P(to))
  {
    var w := Copied(o, v, from, to);
    forall x
      ensures Tracked(w, x) <==> Tracked(v, x) || x == P(to)
    {
      if t :| t in v && v[t].Holds(x) {
        assert w[t].Holds(x);
      }
      if x == P(to) {
        var t :| t in v && v[t].Holds(P(from));
        assert w[t].Holds(x);
      }
    }
  }

  lemma NothingExact(o: Oracle)
    ensures Exact(o, map[])
  {
  }
}
