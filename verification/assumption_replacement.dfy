/** What a condition affects after all uses of a value have been replaced by another. */
module AssumptionReplacement {
  import opened AssumptionPatterns

  function Renamed(v: Value, from: Value, to: Value): Value {
    if v == from then to else v
  }

  function RenamedKind(k: Kind, from: Value, to: Value): Kind {
    match k
    case BitCast(x) => BitCast(Renamed(x, from, to))
    case PtrToInt(x) => PtrToInt(Renamed(x, from, to))
    case ICmp(equal, a, b) => ICmp(equal, Renamed(a, from, to), Renamed(b, from, to))
    case Logic(xor, a, b) => Logic(xor, Renamed(a, from, to), Renamed(b, from, to))
    case Shift(a, amount) => Shift(Renamed(a, from, to), Renamed(amount, from, to))
    case _ => k
  }

  /** The program in which every use of one value is a use of another. */
  function AllReplaced(p: Program, from: Value, to: Value): Program {
    Program((v: Value) => RenamedKind(p.kind(v), from, to), (a: Assume) => Renamed(p.condition(a), from, to))
  }

  function RenamedAt(at: Place, from: Value, to: Value): Place {
    Place(at.level, Renamed(at.value, from, to))
  }

  lemma KindAfter(p: Program, from: Value, to: Value, v: Value)
    ensures AllReplaced(p, from, to).kind(v) == RenamedKind(p.kind(v), from, to)
    ensures Tracked(AllReplaced(p, from, to), v) <==> Tracked(p, v)
    ensures Ones(AllReplaced(p, from, to), v) <==> Ones(p, v)
    ensures Integer(AllReplaced(p, from, to), v) <==> Integer(p, v)
  {
  }

  // ---- where a replacement shows -----------------------------------------------------------

  /** The value itself; or an exclusive or that the new value makes an inversion, or a shift that it makes
      one by a constant. */
  predicate Turns(p: Program, from: Value, to: Value, w: Value) {
    || w == from
    || match p.kind(w)
       case Logic(true, a, b) => (a == from || b == from) && Ones(p, to)
       case Shift(_, amount) => amount == from && Integer(p, to)
       case _ => false
  }

  /** The value stands, first on the way down from the place, at that level. */
  predicate StandsAt(p: Program, from: Value, at: Place, level: Level)
    decreases Rank(at.level)
  {
    if at.value == from then at.level == level
    else exists k :: 0 <= k < |Below(p, at)| && StandsAt(p, from, Below(p, at)[k], level)
  }

  ghost predicate Stands(p: Program, from: Value, at: Place) {
    exists level :: StandsAt(p, from, at, level)
  }

  /** Looked at, after the replacement, from one of the first places where it shows. */
  predicate LooksThrough(p: Program, from: Value, to: Value, at: Place, v: Value)
    decreases Rank(at.level)
  {
    if Turns(p, from, to, at.value) then Looks(AllReplaced(p, from, to), RenamedAt(at, from, to), v)
    else exists k :: 0 <= k < |Below(p, at)| && LooksThrough(p, from, to, Below(p, at)[k], v)
  }

  /** Looked at, before the replacement, without coming to such a place. */
  predicate LooksAside(p: Program, from: Value, to: Value, at: Place, v: Value)
    decreases Rank(at.level)
  {
    !Turns(p, from, to, at.value) &&
    (Reached(p, at.value, v) || exists k :: 0 <= k < |Below(p, at)| && LooksAside(p, from, to, Below(p, at)[k], v))
  }

  /** Affected after the replacement, but neither before nor as the new value. */
  predicate NewlyAffected(p: Program, from: Value, to: Value, cond: Value, v: Value) {
    Tracked(p, v) && v != to && LooksThrough(p, from, to, Place(Top, cond), v) && !Affects(p, cond, v)
  }

  // ---- patterns after the replacement ------------------------------------------------------

  lemma NotAfter(p: Program, from: Value, to: Value, w: Value)
    requires Tracked(p, from) && !Turns(p, from, to, w)
    ensures NotOf(AllReplaced(p, from, to), w) ==
            match NotOf(p, w) case None => None case Some(x) => Some(Renamed(x, from, to))
  {
    KindAfter(p, from, to, w);
    match p.kind(w)
    case Logic(true, a, b) =>
      KindAfter(p, from, to, Renamed(a, from, to));
      KindAfter(p, from, to, Renamed(b, from, to));
    case _ =>
  }

  function AllRenamed(values: seq<Value>, from: Value, to: Value): (r: seq<Value>)
    ensures |r| == |values| && forall k :: 0 <= k < |values| ==> r[k] == Renamed(values[k], from, to)
  {
    seq(|values|, k requires 0 <= k < |values| => Renamed(values[k], from, to))
  }

  lemma OperandsAfter(p: Program, from: Value, to: Value, w: Value)
    requires Tracked(p, from) && !Turns(p, from, to, w)
    ensures Operands(AllReplaced(p, from, to), w) == AllRenamed(Operands(p, w), from, to)
  {
    KindAfter(p, from, to, w);
    match p.kind(w)
    case Shift(_, amount) => KindAfter(p, from, to, Renamed(amount, from, to));
    case _ =>
  }

  lemma ReachedAfter(p: Program, from: Value, to: Value, w: Value, v: Value)
    requires Tracked(p, from) && !Turns(p, from, to, w)
    ensures Reached(AllReplaced(p, from, to), w, v) <==> exists was :: v == Renamed(was, from, to) && Reached(p, w, was)
  {
    KindAfter(p, from, to, w);
    NotAfter(p, from, to, w);
    assert w == Renamed(w, from, to) && Reached(p, w, w);
    if PeeksAt(AllReplaced(p, from, to), w, v) {
      var op := match p.kind(w) case BitCast(x) => Some(x) case PtrToInt(x) => Some(x) case _ => NotOf(p, w);
      match op
      case Some(x) => assert v == Renamed(x, from, to) && Reached(p, w, x);
    }
  }

  /** The places below one where the replacement does not show are renamed. */
  lemma BelowAfter(p: Program, from: Value, to: Value, at: Place)
    requires Tracked(p, from) && !Turns(p, from, to, at.value)
    ensures var below, after := Below(p, at), Below(AllReplaced(p, from, to), at);
            |after| == |below| && forall k :: 0 <= k < |below| ==> after[k] == RenamedAt(below[k], from, to)
  {
    hide Operands, NotOf, Turns, AllReplaced;
    match at.level
    case Top => KindAfter(p, from, to, at.value);
    case Compared(_) =>
      NotAfter(p, from, to, at.value);
      OperandsAfter(p, from, to, at.value);
    case Inverted => OperandsAfter(p, from, to, at.value);
    case Leaf =>
  }

  /** What is looked at after the replacement is what is looked at where it shows, and what was looked at
      aside of that, with the new value for the old. */
  lemma {:induction false} LooksAfter(p: Program, from: Value, to: Value, at: Place, v: Value)
    requires Tracked(p, from)
    ensures Looks(AllReplaced(p, from, to), RenamedAt(at, from, to), v) <==>
            LooksThrough(p, from, to, at, v) || exists was :: v == Renamed(was, from, to) && LooksAside(p, from, to, at, was)
    decreases Rank(at.level)
  {
    if !Turns(p, from, to, at.value) {
      hide Reached, Turns, Below;
      var p' := AllReplaced(p, from, to);
      var below, after := Below(p, at), Below(p', at);
      StaysThere(p, from, to, at);
      ReachedAfter(p, from, to, at.value, v);
      BelowAfter(p, from, to, at);
      forall k | 0 <= k < |below|
        ensures Looks(p', after[k], v) <==>
                LooksThrough(p, from, to, below[k], v) || exists was :: v == Renamed(was, from, to) && LooksAside(p, from, to, below[k], was)
      {
        LooksAfter(p, from, to, below[k], v);
      }
      LooksUnfolded(p, p', from, to, at, v);
    }
  }

  lemma StaysThere(p: Program, from: Value, to: Value, at: Place)
    requires !Turns(p, from, to, at.value)
    ensures RenamedAt(at, from, to) == at
  {
  }

  lemma LooksUnfolded(p: Program, p': Program, from: Value, to: Value, at: Place, v: Value)
    requires !Turns(p, from, to, at.value) && |Below(p', at)| == |Below(p, at)|
    requires Reached(p', at.value, v) <==> exists was :: v == Renamed(was, from, to) && Reached(p, at.value, was)
    requires forall k :: 0 <= k < |Below(p, at)| ==>
               (Looks(p', Below(p', at)[k], v) <==>
                LooksThrough(p, from, to, Below(p, at)[k], v) ||
                exists was :: v == Renamed(was, from, to) && LooksAside(p, from, to, Below(p, at)[k], was))
    ensures Looks(p', at, v) <==>
            LooksThrough(p, from, to, at, v) || exists was :: v == Renamed(was, from, to) && LooksAside(p, from, to, at, was)
  {
    hide Reached, Turns, Below;
    if Looks(p', at, v) {
      if Reached(p', at.value, v) {
        var was :| v == Renamed(was, from, to) && Reached(p, at.value, was);
        assert LooksAside(p, from, to, at, was);
      } else {
        assert LooksBelow(p', at, v);
        var k :| 0 <= k < |Below(p', at)| && Looks(p', Below(p', at)[k], v);
        if !LooksThrough(p, from, to, Below(p, at)[k], v) {
          var was :| v == Renamed(was, from, to) && LooksAside(p, from, to, Below(p, at)[k], was);
          assert LooksAside(p, from, to, at, was);
        }
      }
    }
    if LooksThrough(p, from, to, at, v) {
      var k :| 0 <= k < |Below(p, at)| && LooksThrough(p, from, to, Below(p, at)[k], v);
      assert Looks(p', Below(p', at)[k], v);
    }
    if was :| v == Renamed(was, from, to) && LooksAside(p, from, to, at, was) {
      if !Reached(p, at.value, was) {
        var k :| 0 <= k < |Below(p, at)| && LooksAside(p, from, to, Below(p, at)[k], was);
        assert Looks(p', Below(p', at)[k], v);
      }
    }
  }

  lemma {:induction false} AsideIsLooked(p: Program, from: Value, to: Value, at: Place, v: Value)
    requires LooksAside(p, from, to, at, v)
    ensures Looks(p, at, v)
    decreases Rank(at.level)
  {
    hide Reached, Turns, Below;
    if !Reached(p, at.value, v) {
      var k :| 0 <= k < |Below(p, at)| && LooksAside(p, from, to, Below(p, at)[k], v);
      AsideIsLooked(p, from, to, Below(p, at)[k], v);
    }
  }

  /** If the new value is looked at where the replacement shows, the old one was looked at. */
  lemma {:induction false} ToWasFrom(p: Program, from: Value, to: Value, at: Place)
    requires Tracked(p, from) && Tracked(p, to) && LooksThrough(p, from, to, at, to)
    ensures Looks(p, at, from)
    decreases Rank(at.level)
  {
    if at.value != from {
      hide Below;
      assert !Turns(p, from, to, at.value);
      var k :| 0 <= k < |Below(p, at)| && LooksThrough(p, from, to, Below(p, at)[k], to);
      ToWasFrom(p, from, to, Below(p, at)[k]);
    }
  }

  // ---- what is affected afterwards ---------------------------------------------------------

  /** What a condition affects after the replacement. */
  lemma AffectsAfter(p: Program, from: Value, to: Value, cond: Value, v: Value)
    requires Tracked(p, from)
    ensures Affects(AllReplaced(p, from, to), Renamed(cond, from, to), v) <==>
            Tracked(p, v) &&
            (LooksThrough(p, from, to, Place(Top, cond), v) ||
             exists was :: v == Renamed(was, from, to) && LooksAside(p, from, to, Place(Top, cond), was))
  {
    hide Looks, LooksThrough, LooksAside, Tracked;
    KindAfter(p, from, to, v);
    LooksAfter(p, from, to, Place(Top, cond), v);
  }

  /** The value's list, with that of the old value if it is the new one, misses just what is newly
      affected. */
  lemma MissedIffNew(p: Program, from: Value, to: Value, cond: Value, v: Value)
    requires Tracked(p, from)
    ensures Affects(AllReplaced(p, from, to), Renamed(cond, from, to), v) && !Affects(p, cond, v) &&
            !(v == to && Affects(p, cond, from)) <==>
            NewlyAffected(p, from, to, cond, v)
  {
    hide Looks, LooksThrough, LooksAside, Tracked;
    var at := Place(Top, cond);
    AffectsAfter(p, from, to, cond, v);
    if LooksThrough(p, from, to, at, v) && v == to && Tracked(p, to) {
      ToWasFrom(p, from, to, at);
    }
    forall was | v == Renamed(was, from, to) && LooksAside(p, from, to, at, was)
      ensures Looks(p, at, was)
    {
      AsideIsLooked(p, from, to, at, was);
    }
  }

  // ---- by the kind of the new value --------------------------------------------------------

  /** An argument or instruction below which no pattern looks. */
  predicate Opaque(p: Program, v: Value) {
    p.kind(v).Argument? || p.kind(v).OtherInstruction?
  }

  /** A constant that makes no inversions and no constant shifts. */
  predicate Inert(p: Program, v: Value) {
    p.kind(v).Constant? && !p.kind(v).ones && !p.kind(v).integer
  }

  function CastOf(p: Program, v: Value): Option<Value> {
    match p.kind(v)
    case BitCast(x) => Some(x)
    case PtrToInt(x) => Some(x)
    case _ => None
  }

  lemma TurnsAtFrom(p: Program, from: Value, to: Value, w: Value)
    requires !p.kind(to).Constant? || Inert(p, to)
    ensures Turns(p, from, to, w) <==> w == from
  {
  }

  lemma LooksAtSimple(p: Program, from: Value, to: Value, level: Level, v: Value)
    requires Opaque(p, to) || p.kind(to).Constant? || CastOf(p, to).Some?
    ensures Looks(AllReplaced(p, from, to), Place(level, to), v) <==>
            v == to || (CastOf(p, to).Some? && v == Renamed(CastOf(p, to).value, from, to))
  {
    var p' := AllReplaced(p, from, to);
    KindAfter(p, from, to, to);
    assert Operands(p', to) == [] && NotOf(p', to) == None;
    assert Below(p', Place(level, to)) == [];
  }

  /** What is looked at where the replacement shows: what is looked at from the new value, at the levels
      at which the old one stood. */
  lemma {:induction false} ThroughLevels(p: Program, from: Value, to: Value, at: Place, v: Value)
    requires !p.kind(to).Constant? || Inert(p, to)
    ensures LooksThrough(p, from, to, at, v) <==>
            exists level :: StandsAt(p, from, at, level) && Looks(AllReplaced(p, from, to), Place(level, to), v)
    decreases Rank(at.level)
  {
    hide Looks, Below, Turns;
    TurnsAtFrom(p, from, to, at.value);
    if at.value == from {
      assert StandsAt(p, from, at, at.level);
    } else {
      forall k | 0 <= k < |Below(p, at)|
        ensures LooksThrough(p, from, to, Below(p, at)[k], v) <==>
                exists level :: StandsAt(p, from, Below(p, at)[k], level) && Looks(AllReplaced(p, from, to), Place(level, to), v)
      {
        ThroughLevels(p, from, to, Below(p, at)[k], v);
      }
    }
  }

  /** Through such a value nothing is looked at but the value, and what it casts. */
  lemma ThroughSimple(p: Program, from: Value, to: Value, at: Place, v: Value)
    requires Opaque(p, to) || Inert(p, to) || CastOf(p, to).Some?
    ensures LooksThrough(p, from, to, at, v) <==>
            Stands(p, from, at) && (v == to || (CastOf(p, to).Some? && v == Renamed(CastOf(p, to).value, from, to)))
  {
    hide Looks, LooksThrough, StandsAt;
    ThroughLevels(p, from, to, at, v);
    forall level
      ensures Looks(AllReplaced(p, from, to), Place(level, to), v) <==>
              v == to || (CastOf(p, to).Some? && v == Renamed(CastOf(p, to).value, from, to))
    {
      LooksAtSimple(p, from, to, level, v);
    }
  }

  /** After a replacement by an opaque value a condition affects just what it affected aside of the old
      value, and the new value where the old one stood. */
  lemma AffectsAfterOpaque(p: Program, from: Value, to: Value, cond: Value, v: Value)
    requires Tracked(p, from) && Opaque(p, to)
    ensures Affects(AllReplaced(p, from, to), Renamed(cond, from, to), v) <==>
            Tracked(p, v) &&
            ((v == to && Stands(p, from, Place(Top, cond))) ||
             exists was :: v == Renamed(was, from, to) && LooksAside(p, from, to, Place(Top, cond), was))
  {
    hide Looks, LooksThrough, LooksAside, Stands, Tracked;
    AffectsAfter(p, from, to, cond, v);
    ThroughSimple(p, from, to, Place(Top, cond), v);
  }

  /** With any new value but a constant that is all ones or an integer: newly affected is what the patterns
      look at below it, at a level at which the old value stood, unless it was affected already. */
  lemma NewByLevel(p: Program, from: Value, to: Value, cond: Value, v: Value)
    requires Tracked(p, from) && (Tracked(p, to) || Inert(p, to))
    ensures NewlyAffected(p, from, to, cond, v) <==>
            && Tracked(p, v) && v != to && !Affects(p, cond, v)
            && exists level :: StandsAt(p, from, Place(Top, cond), level) && Looks(AllReplaced(p, from, to), Place(level, to), v)
  {
    hide Looks, LooksThrough, StandsAt, Affects;
    ThroughLevels(p, from, to, Place(Top, cond), v);
  }

  /** With an opaque value or an inert constant nothing is newly affected; with a cast just what is cast,
      where the old value stood, unless it was affected already. */
  lemma NewByKind(p: Program, from: Value, to: Value, cond: Value, v: Value)
    requires Tracked(p, from) && (Opaque(p, to) || Inert(p, to) || CastOf(p, to).Some?)
    ensures NewlyAffected(p, from, to, cond, v) <==>
            && CastOf(p, to).Some? && v == Renamed(CastOf(p, to).value, from, to) && v != to
            && Tracked(p, v) && Stands(p, from, Place(Top, cond)) && !Affects(p, cond, v)
  {
    hide Looks, LooksThrough, Stands, Tracked, Affects;
    ThroughSimple(p, from, to, Place(Top, cond), v);
  }

  /** The replacement shows at the place or below it. */
  predicate Shows(p: Program, from: Value, to: Value, at: Place)
    decreases Rank(at.level)
  {
    Turns(p, from, to, at.value) || exists k :: 0 <= k < |Below(p, at)| && Shows(p, from, to, Below(p, at)[k])
  }

  lemma {:induction false} ThroughShows(p: Program, from: Value, to: Value, at: Place, v: Value)
    requires LooksThrough(p, from, to, at, v)
    ensures Shows(p, from, to, at)
    decreases Rank(at.level)
  {
    hide Turns, Below;
    if !Turns(p, from, to, at.value) {
      var k :| 0 <= k < |Below(p, at)| && LooksThrough(p, from, to, Below(p, at)[k], v);
      ThroughShows(p, from, to, Below(p, at)[k], v);
    }
  }

  /** With any new value, a condition in which the replacement does not show affects nothing new. */
  lemma NewWhereShown(p: Program, from: Value, to: Value, cond: Value, v: Value)
    requires NewlyAffected(p, from, to, cond, v)
    ensures Shows(p, from, to, Place(Top, cond))
  {
    ThroughShows(p, from, to, Place(Top, cond), v);
  }
}
