/** AssumptionCache.cpp: which values the condition of an assume call says something about. */
module AssumptionPatterns {

  type Value = nat

  type Assume = nat

  datatype Option<T> = None | Some(value: T)

  /** What the patterns tell apart. A constant may have all bits set, and may be a plain integer. */
  datatype Kind = Argument | Constant(ones: bool, integer: bool) | BitCast(x: Value) | PtrToInt(x: Value)
                | ICmp(equal: bool, a: Value, b: Value) | Logic(xor: bool, a: Value, b: Value)
                | Shift(a: Value, amount: Value) | OtherInstruction
  {
    predicate IsInstruction() {
      !Argument? && !Constant?
    }
  }

  /** The values of a function, and the condition of each assume call. */
  datatype Program = Program(kind: Value -> Kind, condition: Assume -> Value)

  predicate Tracked(p: Program, v: Value) {
    p.kind(v).Argument? || p.kind(v).IsInstruction()
  }

  // ---- the patterns ------------------------------------------------------------------------

  predicate Ones(p: Program, v: Value) {
    p.kind(v).Constant? && p.kind(v).ones
  }

  predicate Integer(p: Program, v: Value) {
    p.kind(v).Constant? && p.kind(v).integer
  }

  /** What is inverted, for an exclusive or with all bits set on either side. */
  function NotOf(p: Program, w: Value): Option<Value> {
    match p.kind(w)
    case Logic(true, a, b) => if Ones(p, b) then Some(a) else if Ones(p, a) then Some(b) else None
    case _ => None
  }

  /** What is combined bit by bit, or shifted by a constant. */
  function Operands(p: Program, w: Value): seq<Value> {
    match p.kind(w)
    case Logic(_, a, b) => [a, b]
    case Shift(a, amount) => if Integer(p, amount) then [a] else []
    case _ => []
  }

  /** A cast or an inversion speaks of its operand too. */
  predicate PeeksAt(p: Program, w: Value, v: Value) {
    match p.kind(w)
    case BitCast(x) => v == x
    case PtrToInt(x) => v == x
    case _ => NotOf(p, w) == Some(v)
  }

  predicate Reached(p: Program, w: Value, v: Value) {
    v == w || PeeksAt(p, w, v)
  }

  // ---- where a value stands in a condition -------------------------------------------------

  /** As the condition; as an operand of its comparison, for equality or not; inverted there; or combined
      or shifted there. */
  datatype Level = Top | Compared(equal: bool) | Inverted | Leaf

  function Rank(l: Level): nat {
    match l
    case Top => 3
    case Compared(_) => 2
    case Inverted => 1
    case Leaf => 0
  }

  datatype Place = Place(level: Level, value: Value)

  function Leaves(values: seq<Value>): (places: seq<Place>)
    ensures |places| == |values| && forall k :: 0 <= k < |values| ==> places[k] == Place(Leaf, values[k])
  {
    if values == [] then [] else Leaves(values[..|values| - 1]) + [Place(Leaf, values[|values| - 1])]
  }

  /** The places that are looked at below one. */
  function Below(p: Program, at: Place): (places: seq<Place>)
    ensures forall k :: 0 <= k < |places| ==> Rank(places[k].level) < Rank(at.level)
  {
    match at.level
    case Top => if p.kind(at.value).ICmp? then
                  var c := Compared(p.kind(at.value).equal);
                  [Place(c, p.kind(at.value).a), Place(c, p.kind(at.value).b)]
                else []
    case Compared(equal) => if !equal then []
                            else if NotOf(p, at.value).Some? then [Place(Inverted, NotOf(p, at.value).value)]
                            else Leaves(Operands(p, at.value))
    case Inverted => Leaves(Operands(p, at.value))
    case Leaf => []
  }

  /** A value is looked at from a place: it stands there, or a cast or an inversion of it, or it is looked
      at from a place below. */
  predicate Looks(p: Program, at: Place, v: Value)
    decreases Rank(at.level)
  {
    Reached(p, at.value, v) || LooksBelow(p, at, v)
  }

  predicate LooksBelow(p: Program, at: Place, v: Value)
    decreases Rank(at.level), 0
  {
    exists k :: 0 <= k < |Below(p, at)| && Looks(p, Below(p, at)[k], v)
  }

  /** A condition affects the arguments and instructions that are looked at from it. */
  predicate Affects(p: Program, cond: Value, v: Value) {
    Tracked(p, v) && Looks(p, Place(Top, cond), v)
  }

  // ---- collecting affected values ----------------------------------------------------------

  /** AddAffected. */
  method AddAffected(p: Program, values: seq<Value>, v: Value) returns (more: seq<Value>)
    ensures forall x :: x in more <==> x in values || (Tracked(p, x) && Reached(p, v, x))
  {
    more := values;
    if p.kind(v).Argument? {
      more := more + [v];
    } else if p.kind(v).IsInstruction() {
      more := more + [v];
      var op := match p.kind(v) case BitCast(x) => Some(x) case PtrToInt(x) => Some(x) case _ => NotOf(p, v);
      if op.Some? && Tracked(p, op.value) {
        more := more + [op.value];
      }
    }
  }

  /** AddAffectedFromEq. */
  method AddAffectedFromEq(p: Program, values: seq<Value>, operand: Value) returns (more: seq<Value>)
    ensures forall x :: x in more <==> x in values || (Tracked(p, x) && LooksBelow(p, Place(Compared(true), operand), x))
  {
    hide Reached, Tracked, AnyReached, LooksBelow;
    more := values;
    var v := operand;
    var inverted := NotOf(p, v);
    if inverted.Some? {
      more := AddAffected(p, more, inverted.value);
      v := inverted.value;
    }
    ghost var start := more;
    match p.kind(v) {
      case Logic(_, a, b) =>
        more := AddAffected(p, more, a);
        more := AddAffected(p, more, b);
      case Shift(a, amount) =>
        if Integer(p, amount) {
          more := AddAffected(p, more, a);
        }
      case _ =>
    }
    forall x
      ensures x in more <==> x in start || (Tracked(p, x) && AnyReached(p, Operands(p, v), x))
    {
      match p.kind(v)
      case Logic(_, a, b) => FewReached(p, a, b, x);
      case Shift(a, amount) => FewReached(p, a, a, x);
      case _ => FewReached(p, v, v, x);
    }
    forall x
      ensures LooksBelow(p, Place(Compared(true), operand), x) <==>
              (inverted.Some? && Reached(p, v, x)) || AnyReached(p, Operands(p, v), x)
    {
      EqualityCases(p, operand, x);
    }
  }

  predicate AnyReached(p: Program, values: seq<Value>, v: Value) {
    exists k :: 0 <= k < |values| && Reached(p, values[k], v)
  }

  lemma FewReached(p: Program, a: Value, b: Value, v: Value)
    ensures !AnyReached(p, [], v) && (AnyReached(p, [a], v) <==> Reached(p, a, v))
    ensures AnyReached(p, [a, b], v) <==> Reached(p, a, v) || Reached(p, b, v)
  {
    hide Reached;
    assert [a][0] == a && [a, b][0] == a && [a, b][1] == b;
  }

  lemma LeavesLook(p: Program, values: seq<Value>, v: Value)
    ensures (exists k :: 0 <= k < |Leaves(values)| && Looks(p, Leaves(values)[k], v)) <==>
            AnyReached(p, values, v)
  {
    hide Reached;
    forall k | 0 <= k < |values|
      ensures Looks(p, Leaves(values)[k], v) <==> Reached(p, values[k], v)
    {
    }
  }

  lemma EqualityCases(p: Program, operand: Value, v: Value)
    ensures LooksBelow(p, Place(Compared(true), operand), v) <==>
            var inverted := NotOf(p, operand);
            var w := if inverted.Some? then inverted.value else operand;
            (inverted.Some? && Reached(p, w, v)) || AnyReached(p, Operands(p, w), v)
  {
    hide Reached, Operands, NotOf, AnyReached;
    var at, inverted := Place(Compared(true), operand), NotOf(p, operand);
    if inverted.Some? {
      var w := inverted.value;
      LeavesLook(p, Operands(p, w), v);
      assert Below(p, at) == [Place(Inverted, w)];
      assert LooksBelow(p, at, v) <==> Looks(p, Below(p, at)[0], v);
      assert Below(p, Place(Inverted, w)) == Leaves(Operands(p, w));
    } else {
      LeavesLook(p, Operands(p, operand), v);
      assert Below(p, at) == Leaves(Operands(p, operand));
    }
  }

  /** The first half of updateAffectedValues: the values that the condition affects. */
  method AffectedValues(p: Program, cond: Value) returns (values: seq<Value>)
    ensures forall v :: v in values <==> Affects(p, cond, v)
  {
    hide Reached, Tracked, LooksBelow;
    values := AddAffected(p, [], cond);
    if p.kind(cond).ICmp? {
      var a, b := p.kind(cond).a, p.kind(cond).b;
      values := AddAffected(p, values, a);
      values := AddAffected(p, values, b);
      if p.kind(cond).equal {
        values := AddAffectedFromEq(p, values, a);
        values := AddAffectedFromEq(p, values, b);
      }
    }
    forall v
      ensures v in values <==> Affects(p, cond, v)
    {
      ConditionCases(p, cond, v);
    }
  }

  lemma ConditionCases(p: Program, cond: Value, v: Value)
    ensures Looks(p, Place(Top, cond), v) <==>
            Reached(p, cond, v) ||
            (p.kind(cond).ICmp? &&
             var k := p.kind(cond);
             || Reached(p, k.a, v) || Reached(p, k.b, v)
             || (k.equal && (LooksBelow(p, Place(Compared(true), k.a), v) || LooksBelow(p, Place(Compared(true), k.b), v))))
  {
    hide Reached;
    if p.kind(cond).ICmp? {
      var k := p.kind(cond);
      var c := Compared(k.equal);
      var places := Below(p, Place(Top, cond));
      assert places == [Place(c, k.a), Place(c, k.b)];
      assert LooksBelow(p, Place(Top, cond), v) <==> Looks(p, places[0], v) || Looks(p, places[1], v);
      if !k.equal {
        assert Below(p, places[0]) == [] && Below(p, places[1]) == [];
        assert !LooksBelow(p, places[0], v) && !LooksBelow(p, places[1], v);
      }
    }
  }

  // ---- the patterns spelled out --------------------------------------------------------------

  /** One value is the other with all bits inverted. */
  ghost predicate Inverse(p: Program, w: Value, v: Value) {
    exists c :: p.kind(c).Constant? && p.kind(c).ones && (p.kind(w) == Logic(true, v, c) || p.kind(w) == Logic(true, c, v))
  }

  /** One value is combined bit by bit with something to make the other, or shifted by a constant. */
  ghost predicate Combined(p: Program, w: Value, v: Value) {
    || (exists c, xor :: p.kind(w) == Logic(xor, v, c) || p.kind(w) == Logic(xor, c, v))
    || (exists c :: p.kind(w) == Shift(v, c) && p.kind(c).Constant? && p.kind(c).integer)
  }

  /** The values of interest in a condition: itself, both sides of a comparison; and on both sides of an
      equality what is inverted there, and what is combined there or in what is inverted. */
  ghost predicate Part(p: Program, cond: Value, w: Value) {
    w == cond ||
    (p.kind(cond).ICmp? &&
     (w == p.kind(cond).a || w == p.kind(cond).b ||
      (p.kind(cond).equal && (PartOfSide(p, p.kind(cond).a, w) || PartOfSide(p, p.kind(cond).b, w)))))
  }

  ghost predicate PartOfSide(p: Program, side: Value, w: Value) {
    Inverse(p, side, w) || Combined(p, side, w) || exists n :: Inverse(p, side, n) && Combined(p, n, w)
  }

  /** A condition affects an argument or instruction if and only if it is a part of the condition, or a
      part is a cast or the inverse of it. */
  lemma AffectsIffPart(p: Program, cond: Value, v: Value)
    ensures Affects(p, cond, v) <==>
            !p.kind(v).Constant? &&
            exists w :: Part(p, cond, w) && (v == w || p.kind(w) == BitCast(v) || p.kind(w) == PtrToInt(v) || Inverse(p, w, v))
  {
    hide Inverse, Combined, Reached, LooksBelow, PartOfSide, Looks;
    if !p.kind(v).Constant? {
      ConditionCases(p, cond, v);
      forall w
        ensures Reached(p, w, v) <==> Shown(p, w, v)
      {
        ReachedMeans(p, w, v);
      }
      if p.kind(cond).ICmp? && p.kind(cond).equal {
        SideMeans(p, p.kind(cond).a, v);
        SideMeans(p, p.kind(cond).b, v);
      }
      PartCases(p, cond, v);
    }
  }

  ghost predicate Shown(p: Program, w: Value, v: Value) {
    v == w || p.kind(w) == BitCast(v) || p.kind(w) == PtrToInt(v) || Inverse(p, w, v)
  }

  lemma PartCases(p: Program, cond: Value, v: Value)
    ensures (exists w :: Part(p, cond, w) && Shown(p, w, v)) <==>
            Shown(p, cond, v) ||
            (p.kind(cond).ICmp? &&
             var k := p.kind(cond);
             || Shown(p, k.a, v) || Shown(p, k.b, v)
             || (k.equal && ((exists w :: PartOfSide(p, k.a, w) && Shown(p, w, v)) || (exists w :: PartOfSide(p, k.b, w) && Shown(p, w, v)))))
  {
    hide Shown, PartOfSide;
    assert Part(p, cond, cond);
    if p.kind(cond).ICmp? {
      var k := p.kind(cond);
      assert Part(p, cond, k.a) && Part(p, cond, k.b);
      if k.equal {
        if w :| PartOfSide(p, k.a, w) && Shown(p, w, v) {
          assert Part(p, cond, w);
        }
        if w :| PartOfSide(p, k.b, w) && Shown(p, w, v) {
          assert Part(p, cond, w);
        }
      }
    }
  }

  lemma ReachedMeans(p: Program, w: Value, v: Value)
    requires !p.kind(v).Constant?
    ensures Reached(p, w, v) <==> Shown(p, w, v)
    ensures NotOf(p, w) == Some(v) <==> Inverse(p, w, v)
  {
    match p.kind(w)
    case Logic(xor, a, b) =>
    case _ =>
  }

  lemma OperandsMean(p: Program, w: Value, v: Value)
    ensures v in Operands(p, w) <==> Combined(p, w, v)
  {
    match p.kind(w)
    case Logic(xor, a, b) =>
    case Shift(a, amount) =>
    case _ =>
  }

  lemma AnyMeans(p: Program, w: Value, v: Value)
    requires !p.kind(v).Constant?
    ensures AnyReached(p, Operands(p, w), v) <==> exists u :: Combined(p, w, u) && Shown(p, u, v)
  {
    hide Combined, Shown, Reached, Operands;
    var values := Operands(p, w);
    if AnyReached(p, values, v) {
      var k :| 0 <= k < |values| && Reached(p, values[k], v);
      ReachedMeans(p, values[k], v);
      OperandsMean(p, w, values[k]);
    }
    if u :| Combined(p, w, u) && Shown(p, u, v) {
      ReachedMeans(p, u, v);
      OperandsMean(p, w, u);
      var k :| 0 <= k < |values| && values[k] == u;
    }
  }

  lemma NotMeans(p: Program, w: Value)
    ensures NotOf(p, w).Some? ==> Inverse(p, w, NotOf(p, w).value)
    ensures forall v: Value :: NotOf(p, w).Some? && Combined(p, w, v) && !p.kind(v).Constant? ==> NotOf(p, w) == Some(v)
    ensures forall v: Value :: Inverse(p, w, v) && !p.kind(v).Constant? ==> NotOf(p, w) == Some(v)
  {
    match p.kind(w)
    case Logic(xor, a, b) =>
    case _ =>
  }

  /** Nothing shows at a constant, and nothing is combined in one. */
  lemma NoneInConstant(p: Program, w: Value, v: Value)
    requires p.kind(w).Constant? && !p.kind(v).Constant?
    ensures !Shown(p, w, v) && forall u :: !Combined(p, w, u)
  {
  }

  lemma SideMeans(p: Program, side: Value, v: Value)
    requires !p.kind(v).Constant?
    ensures LooksBelow(p, Place(Compared(true), side), v) <==> exists w :: PartOfSide(p, side, w) && Shown(p, w, v)
  {
    hide Inverse, Combined, Reached, Operands, NotOf, Shown, AnyReached, LooksBelow;
    EqualityCases(p, side, v);
    NotMeans(p, side);
    var inverted := NotOf(p, side);
    var base := if inverted.Some? then inverted.value else side;
    ReachedMeans(p, base, v);
    AnyMeans(p, base, v);
    if u :| Combined(p, base, u) && Shown(p, u, v) {
      assert PartOfSide(p, side, u);
    }
    if inverted.Some? && Shown(p, base, v) {
      assert PartOfSide(p, side, base);
    }
    if w :| PartOfSide(p, side, w) && Shown(p, w, v) {
      if p.kind(w).Constant? {
        NoneInConstant(p, w, v);
      }
      if n :| Inverse(p, side, n) && Combined(p, n, w) {
        if p.kind(n).Constant? {
          NoneInConstant(p, n, v);
        }
      }
    }
  }
}
