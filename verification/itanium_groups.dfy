/** When template arguments with packs and function types are skipped right. */
module ItaniumGroups {
  import opened ItaniumNames
  import opened ItaniumRoundTrip

  // ---- loose ends, at any depth ------------------------------------------------------------

  /** How many E in a token, at any depth, close what the loops do not see opened: those of packs and
      of function types and the like, and one for each nested name that begins with an abbreviation and
      has arguments. */
  function LooseOf(t: Token): nat
    decreases t, 0
  {
    match t
    case Template(args) => LooseIn(args)
    case Nested(nested) => LooseInNested(nested)
    case Group(_, members) => 1 + LooseIn(members)
    case _ => 0
  }

  function LooseIn(ts: seq<Token>): nat
    decreases ts, 1
  {
    if ts == [] then 0 else LooseOf(ts[0]) + LooseIn(ts[1..])
  }

  predicate AnyGeneric(cs: seq<Component>) {
    exists c :: c in cs && c.Generic?
  }

  function LooseInNested(n: NestedName): nat
    decreases n, 0
  {
    LooseInComponents(n.components) + if n.std.Some? && AnyGeneric(n.components) then 1 else 0
  }

  function LooseInComponents(cs: seq<Component>): nat
    decreases cs, 1
  {
    if cs == [] then 0 else (if cs[0].Generic? then LooseIn(cs[0].args) else 0) + LooseInComponents(cs[1..])
  }

  /** No C or D of its own, which a digit behind it would make the name of a constructor. */
  predicate Mild(letters: string)
    requires letters != ""
  {
    |letters| > 1 || letters[0] !in "CD"
  }

  /** No E in the names, so that an E always closes something. */
  predicate TameToken(t: Token) {
    match t
    case Source(chars) => GoodIdentifier(chars) && 'E' !in chars
    case Substitution(id) => GoodId(id) && 'E' !in id
    case Letter(c) => Passed(c) && Mild([c])
    case Counted(prefix, n) => GoodToken(t) && Mild(prefix)
    case Template(args) => TameTokens(args)
    case Nested(nested) => TameNested(nested)
    case Group(open, members) => Letters(open) && Mild(open) && TameTokens(members)
    case _ => GoodToken(t)
  }

  predicate TameTokens(ts: seq<Token>) {
    forall t :: t in ts ==> TameToken(t)
  }

  predicate TamePrefix(n: NestedName) {
    GoodPrefix(n) && (n.substitution.Some? ==> 'E' !in n.substitution.value) && 'E' !in n.qualifiers
  }

  predicate TameNested(n: NestedName) {
    TamePrefix(n) && forall c :: c in n.components ==> TameComponent(c) && c.name.Identifier?
  }

  predicate TameComponent(c: Component) {
    GoodName(c.name) && (c.name.Identifier? ==> 'E' !in c.name.chars) && (c.Generic? ==> TameTokens(c.args))
  }

  /** Any names in what has no loose end, and tame ones in nested names that have one. */
  predicate Readable(t: Token) {
    match t
    case Template(args) => AllReadable(args)
    case Nested(nested) => if LooseInNested(nested) == 0 then GoodToken(t) else TameNested(nested)
    case Group(open, members) => Letters(open) && AllReadable(members)
    case _ => GoodToken(t)
  }

  predicate AllReadable(ts: seq<Token>) {
    forall t :: t in ts ==> Readable(t)
  }

  lemma {:induction false} LooseAt(ts: seq<Token>, t: Token)
    requires t in ts
    ensures LooseOf(t) <= LooseIn(ts)
  {
    if t != ts[0] {
      LooseAt(ts[1..], t);
    }
  }

  lemma {:induction false} LooseAtComponent(cs: seq<Component>, c: Component)
    requires c in cs && c.Generic?
    ensures LooseIn(c.args) <= LooseInComponents(cs)
  {
    if c != cs[0] {
      LooseAtComponent(cs[1..], c);
    }
  }

  lemma {:induction false} TameIsReadable(t: Token)
    requires TameToken(t)
    ensures Readable(t)
    decreases t, 0
  {
    match t
    case Template(args) => TameAreReadable(args);
    case Group(_, members) => TameAreReadable(members);
    case Nested(nested) =>
      assert TameNested(nested);
      if LooseInNested(nested) == 0 {
        forall c | c in nested.components
          ensures GoodComponent(c)
          ensures nested.std.Some? ==> WithoutE(c)
        {
          assert TameComponent(c);
          if c.Generic? {
            LooseAtComponent(nested.components, c);
            TameAreReadable(c.args);
            NoneLooseAllGood(c.args);
          }
        }
        assert if nested.std == None then GoodNested(nested) else GoodStd(nested);
      }
    case _ =>
  }

  lemma {:induction false} TameAreReadable(ts: seq<Token>)
    requires TameTokens(ts)
    ensures AllReadable(ts)
    decreases ts, 1
  {
    forall t | t in ts
      ensures Readable(t)
    {
      TameIsReadable(t);
    }
  }

  lemma {:induction false} NoneLooseGood(t: Token)
    requires Readable(t) && LooseOf(t) == 0
    ensures GoodToken(t)
    decreases t, 0
  {
    if t.Template? {
      NoneLooseAllGood(t.args);
    }
  }

  lemma {:induction false} NoneLooseAllGood(ts: seq<Token>)
    requires AllReadable(ts) && LooseIn(ts) == 0
    ensures GoodTokens(ts)
    decreases ts, 1
  {
    forall t | t in ts
      ensures GoodToken(t)
    {
      LooseAt(ts, t);
      NoneLooseGood(t);
    }
  }

  // ---- what is left to read -----------------------------------------------------------------

  /** Token lists that are open, the innermost first, each closed by an E. */
  type Open = seq<seq<Token>>

  function Text(f: Open): string {
    if f == [] then "" else WriteTokens(f[0]) + "E" + Text(f[1..])
  }

  /** How many E are left over when only what opens with I or N is closed. */
  function Excess(f: Open): nat {
    if f == [] then 0 else 1 + LooseIn(f[0]) + Excess(f[1..])
  }

  predicate ReadableAll(f: Open) {
    forall k :: 0 <= k < |f| ==> AllReadable(f[k])
  }

  predicate TameAll(f: Open) {
    forall k :: 0 <= k < |f| ==> TameTokens(f[k])
  }

  /** Where names are read there may be constructors and destructors too. */
  predicate Nameable(t: Token) {
    TameToken(t) || (t.Pair? && t.first in "CD" && t.letter in "123")
  }

  predicate AllNameable(ts: seq<Token>) {
    forall t :: t in ts ==> Nameable(t)
  }

  predicate NameableAll(f: Open) {
    forall k :: 0 <= k < |f| ==> AllNameable(f[k])
  }

  lemma {:induction false} Joined(f: Open, g: Open)
    ensures Text(f + g) == Text(f) + Text(g) && Excess(f + g) == Excess(f) + Excess(g)
  {
    if f == [] {
      assert f + g == g;
    } else {
      assert (f + g)[1..] == f[1..] + g;
      Joined(f[1..], g);
    }
  }

  lemma Single(ts: seq<Token>)
    ensures Text([ts]) == WriteTokens(ts) + "E" && Excess([ts]) == 1 + LooseIn(ts)
  {
    assert [ts][1..] == [];
  }

  /** The first token and what follows it. */
  lemma FirstToken(f: Open, g: Open)
    requires f != [] && f[0] != [] && g == [f[0][1..]] + f[1..]
    ensures Text(f) == WriteToken(f[0][0]) + Text(g) && Excess(f) == LooseOf(f[0][0]) + Excess(g)
    ensures g != [] && Text(g) != ""
  {
    hide WriteToken, LooseOf;
    var t, ts := f[0][0], f[0][1..];
    assert g[0] == ts && g[1..] == f[1..];
    assert WriteTokens(f[0]) == WriteToken(t) + WriteTokens(ts);
    assert WriteToken(t) + WriteTokens(ts) + "E" + Text(f[1..]) == WriteToken(t) + (WriteTokens(ts) + "E" + Text(f[1..]));
  }

  function NameToken(n: Name): Token {
    match n
    case Identifier(chars) => Source(chars)
    case Special(kind, variant) => Pair(kind, variant)
  }

  /** The components of a nested name as a list of tokens. */
  function Flat(cs: seq<Component>): seq<Token> {
    if cs == [] then []
    else [NameToken(cs[0].name)] + (if cs[0].Generic? then [Template(cs[0].args)] else []) + Flat(cs[1..])
  }

  function FlatOf(n: NestedName): seq<Token> {
    (if n.std.Some? then [Pair('S', n.std.value)] else []) + Flat(n.components)
  }

  lemma {:induction false} WriteTokensConcat(a: seq<Token>, b: seq<Token>)
    ensures WriteTokens(a + b) == WriteTokens(a) + WriteTokens(b)
    ensures LooseIn(a + b) == LooseIn(a) + LooseIn(b)
  {
    hide WriteToken, LooseOf;
    if a == [] {
      assert a + b == b;
    } else {
      assert (a + b)[1..] == a[1..] + b;
      WriteTokensConcat(a[1..], b);
    }
  }

  lemma {:induction false} FlatWritten(cs: seq<Component>)
    ensures WriteTokens(Flat(cs)) == WriteComponents(cs) && LooseIn(Flat(cs)) == LooseInComponents(cs)
  {
    if cs != [] {
      var c := cs[0];
      var name := [NameToken(c.name)];
      var args := if c.Generic? then [Template(c.args)] else [];
      FlatWritten(cs[1..]);
      WriteTokensConcat(name + args, Flat(cs[1..]));
      WriteTokensConcat(name, args);
      OneToken(NameToken(c.name));
      if c.Generic? {
        OneToken(Template(c.args));
      }
    }
  }

  lemma FlatOfWritten(n: NestedName)
    ensures WriteTokens(FlatOf(n)) == WriteStd(n) + WriteComponents(n.components)
    ensures LooseIn(FlatOf(n)) == LooseInComponents(n.components)
  {
    hide Flat, WriteComponents, LooseInComponents;
    FlatWritten(n.components);
    if n.std.Some? {
      WriteTokensConcat([Pair('S', n.std.value)], Flat(n.components));
      OneToken(Pair('S', n.std.value));
    } else {
      assert FlatOf(n) == Flat(n.components);
    }
  }

  lemma OneToken(t: Token)
    ensures WriteTokens([t]) == WriteToken(t) && LooseIn([t]) == LooseOf(t)
  {
    assert [t][1..] == [];
  }

  lemma {:induction false} FlatNameable(cs: seq<Component>)
    requires forall c :: c in cs ==> TameComponent(c)
    ensures AllNameable(Flat(cs))
    ensures (forall c :: c in cs ==> c.name.Identifier?) ==> TameTokens(Flat(cs))
  {
    if cs != [] {
      FlatNameable(cs[1..]);
      assert TameComponent(cs[0]);
    }
  }

  lemma FlatOfNameable(n: NestedName)
    requires TamePrefix(n) && forall c :: c in n.components ==> TameComponent(c)
    ensures AllNameable(FlatOf(n)) && IsFlat(FlatOf(n))
    ensures (forall c :: c in n.components ==> c.name.Identifier?) ==> TameTokens(FlatOf(n))
    ensures AnyGeneric(n.components) ==> HasTemplate(FlatOf(n))
  {
    hide TameComponent;
    FlatNameable(n.components);
    FlatIsFlat(n.components);
    if t :| t in Flat(n.components) && t.Template? {
      assert t in FlatOf(n);
    }
  }

  predicate IsFlat(ts: seq<Token>) {
    forall t :: t in ts ==> t.Source? || t.Pair? || t.Template?
  }

  predicate HasTemplate(ts: seq<Token>) {
    exists t :: t in ts && t.Template?
  }

  lemma {:induction false} FlatIsFlat(cs: seq<Component>)
    ensures IsFlat(Flat(cs)) && (AnyGeneric(cs) ==> HasTemplate(Flat(cs)))
  {
    if cs != [] {
      FlatIsFlat(cs[1..]);
      if cs[0].Generic? {
        assert Template(cs[0].args) in Flat(cs);
      } else if AnyGeneric(cs) {
        var c :| c in cs && c.Generic?;
        assert c in cs[1..];
        var t :| t in Flat(cs[1..]) && t.Template?;
        assert t in Flat(cs);
      }
    }
  }

  // ---- up to the first E --------------------------------------------------------------------

  lemma LeafHasNoE(t: Token)
    requires Nameable(t) && !t.Template? && !t.Nested? && !t.Group?
    ensures 'E' !in WriteToken(t)
  {
    match t
    case Source(chars) => assert forall c :: c in Decimal(|chars|) ==> Digit(c);
    case Counted(prefix, n) => assert forall c :: c in Decimal(n) ==> Digit(c);
    case _ =>
  }

  /** The tokens before the first E and what they open are passed over: no fewer E are left over. */
  lemma {:induction false} ToFirstE(f: Open) returns (n: nat, g: Open)
    requires f != [] && NameableAll(f)
    ensures n < |Text(f)| && Text(f)[n..] == Text(g) && 'E' !in Text(f)[..n]
    ensures g != [] && g[0] == [] && Excess(g) >= Excess(f)
    ensures IsFlat(f[0]) && HasTemplate(f[0]) ==> Excess(g) > Excess(f)
    ensures NameableAll(g) && (TameAll(f) ==> TameAll(g))
    decreases |Text(f)|
  {
    hide Nameable, TameToken, Excess, LooseOf, WriteToken, WriteTokens;
    if f[0] == [] {
      n, g := 0, f;
      EmptyFirst(f);
    } else {
      var t, f1 := f[0][0], [f[0][1..]] + f[1..];
      FirstToken(f, f1);
      TailKinds(f, f1);
      var passed: string, f2: Open;
      passed, f2 := Opened(t, f1, TameAll(f));
      n, g := ToFirstE(f2);
      assert Text(f) == passed + Text(f2);
      assert Text(f)[..|passed| + n] == passed + Text(f2)[..n];
      n := |passed| + n;
    }
  }

  lemma EmptyFirst(f: Open)
    requires f != [] && f[0] == []
    ensures Text(f) == "E" + Text(f[1..]) && Excess(f) == 1 + Excess(f[1..])
  {
    assert WriteTokens([]) == "";
  }

  lemma TailKinds(f: Open, f1: Open)
    requires f != [] && f[0] != [] && f1 == [f[0][1..]] + f[1..]
    ensures NameableAll(f) ==> Nameable(f[0][0]) && NameableAll(f1)
    ensures TameAll(f) ==> TameToken(f[0][0]) && TameAll(f1)
    ensures ReadableAll(f) ==> Readable(f[0][0]) && ReadableAll(f1)
  {
    hide Nameable, TameToken, Readable;
    assert forall t :: t in f[0][1..] ==> t in f[0];
    assert forall k :: 0 < k < |f1| ==> f1[k] == f[k];
  }

  lemma Opened(t: Token, f1: Open, tame: bool) returns (passed: string, f2: Open)
    requires f1 != [] && Nameable(t) && NameableAll(f1) && (tame ==> TameToken(t) && TameAll(f1))
    ensures passed != "" && 'E' !in passed && f2 != [] && WriteToken(t) + Text(f1) == passed + Text(f2)
    ensures Excess(f2) >= LooseOf(t) + Excess(f1) + (if t.Template? then 1 else 0)
    ensures t.Source? || t.Pair? ==> f2 == f1
    ensures NameableAll(f2) && (tame ==> TameAll(f2))
  {
    if t.Template? || t.Nested? || t.Group? {
      var list;
      passed, list := OpensList(t);
      hide WriteToken, LooseOf, TameTokens, Nameable, TameToken, LooseIn;
      f2 := [list] + f1;
      WithList(list, f1, tame);
      assert WriteToken(t) + Text(f1) == passed + Text(f2);
    } else {
      hide Nameable, TameToken, WriteToken;
      passed, f2 := WriteToken(t), f1;
      LeafHasNoE(t);
      TokenStart(t);
    }
  }

  /** What a token opens, and the list behind it. */
  lemma OpensList(t: Token) returns (passed: string, list: seq<Token>)
    requires Nameable(t) && (t.Template? || t.Nested? || t.Group?)
    ensures WriteToken(t) == passed + (WriteTokens(list) + "E") && passed != "" && 'E' !in passed
    ensures TameTokens(list) && 1 + LooseIn(list) >= LooseOf(t) + (if t.Template? then 1 else 0)
  {
    match t
    case Template(args) =>
      passed, list := "I", args;
      assert WriteToken(t) == passed + (WriteTokens(list) + "E");
    case Group(open, members) =>
      passed, list := open, members;
      assert WriteToken(t) == passed + (WriteTokens(list) + "E");
    case Nested(nested) =>
      passed, list := NestedOpens(nested);
  }

  lemma NestedOpens(n: NestedName) returns (passed: string, list: seq<Token>)
    requires TameNested(n)
    ensures passed == "N" + WritePrefix(n) && list == FlatOf(n)
    ensures WriteNested(n) == passed + (WriteTokens(list) + "E") && 'E' !in passed
    ensures TameTokens(list) && LooseIn(list) == LooseInComponents(n.components)
  {
    hide WriteComponents, WriteNested, FlatOf, LooseIn, LooseInComponents, WriteTokens, TameComponent, TameTokens, TamePrefix, WriteStd,
         WritePrefix, AllNameable, IsFlat, HasTemplate, AnyGeneric;
    passed, list := "N" + WritePrefix(n), FlatOf(n);
    FlatOfWritten(n);
    FlatOfNameable(n);
    PrefixHasNoE(n);
    NestedWritten(n, "");
  }

  lemma PrefixHasNoE(n: NestedName)
    requires TamePrefix(n)
    ensures 'E' !in WritePrefix(n)
  {
  }

  lemma WithList(ts: seq<Token>, f: Open, tame: bool)
    requires TameTokens(ts) && NameableAll(f) && (tame ==> TameAll(f))
    ensures Text([ts] + f) == WriteTokens(ts) + "E" + Text(f) && Excess([ts] + f) == 1 + LooseIn(ts) + Excess(f)
    ensures NameableAll([ts] + f) && (tame ==> TameAll([ts] + f))
  {
    assert ([ts] + f)[1..] == f;
  }

  lemma TokenStart(t: Token)
    requires Nameable(t) || Readable(t)
    ensures WriteToken(t) != "" && (WriteToken(t)[0] == 'I' <==> t.Template?) && WriteToken(t)[0] != 'E'
    ensures Digit(WriteToken(t)[0]) <==> t.Source?
  {
    match t
    case Source(chars) => assert Decimal(|chars|)[0] in Decimal(|chars|);
    case Counted(prefix, _) => assert WriteToken(t)[0] == prefix[0] && prefix[0] in prefix;
    case Group(open, _) => assert WriteToken(t)[0] == open[0] && open[0] in open;
    case _ =>
  }

  // ---- reading arguments and names ----------------------------------------------------------

  lemma TameAllReadable(f: Open)
    requires TameAll(f)
    ensures ReadableAll(f) && NameableAll(f)
  {
    hide TameToken, Readable;
    forall k | 0 <= k < |f|
      ensures AllReadable(f[k])
    {
      TameAreReadable(f[k]);
    }
  }

  lemma JoinedKinds(f: Open, g: Open)
    ensures ReadableAll(f) && ReadableAll(g) ==> ReadableAll(f + g)
    ensures NameableAll(f) && NameableAll(g) ==> NameableAll(f + g)
    ensures TameAll(f) && TameAll(g) ==> TameAll(f + g)
  {
    hide AllReadable, AllNameable, TameTokens;
    assert forall k :: 0 <= k < |f + g| ==> (f + g)[k] == if k < |f| then f[k] else g[k - |f|];
  }

  /** Reading arguments closes one E of those left over, and opens no more than it closes. */
  lemma {:induction false} ReadsArguments(f: Open, rest: string) returns (g: Open)
    requires f != [] && ReadableAll(f)
    ensures SkipArguments(Text(f) + rest) == Rest(Text(g) + rest) && Excess(g) >= Excess(f) - 1
    ensures ReadableAll(g) && (TameAll(f) ==> TameAll(g))
    decreases |Text(f)|, 1
  {
    hide SkipArguments, Readable, TameToken, LooseOf, WriteToken, WriteTokens, Excess, GoodToken;
    if f[0] == [] {
      EmptyFirst(f);
      g := f[1..];
      assert Text(f) + rest == "E" + (Text(g) + rest);
      EndsList(Text(g) + rest);
    } else {
      var t, f1 := f[0][0], [f[0][1..]] + f[1..];
      FirstToken(f, f1);
      TailKinds(f, f1);
      TokenStart(t);
      var h := ReadsToken(t, f1, TameAll(f), rest);
      Joined(h, f1);
      JoinedKinds(h, f1);
      assert Text(f) + rest == WriteToken(t) + (Text(f1) + rest);
      assert Text(h) + (Text(f1) + rest) == Text(h + f1) + rest;
      g := ReadsArguments(h + f1, rest);
    }
  }

  /** A token is skipped, or a group or what holds one is left in the middle. */
  lemma {:induction false} ReadsToken(t: Token, f: Open, tame: bool, rest: string) returns (h: Open)
    requires f != [] && Readable(t) && (tame ==> TameToken(t)) && Text(f) != ""
    ensures SkipArguments(WriteToken(t) + (Text(f) + rest)) == SkipArguments(Text(h) + (Text(f) + rest))
    ensures Excess(h) >= LooseOf(t) && ReadableAll(h) && (tame ==> TameAll(h))
    ensures |Text(h)| < |WriteToken(t)|
    decreases |WriteToken(t)| + |Text(f)|, 0
  {
    hide SkipArguments, GoodToken;
    var after := Text(f) + rest;
    TokenStart(t);
    if LooseOf(t) == 0 {
      NoneLooseGood(t);
      SkipsToken(t, after);
      h := [];
      assert Text(h) + after == after;
    } else {
      match t
      case Template(args) => h := ReadsList(args, f, tame, rest);
      case Group(open, members) => h := ReadsGroup(open, members, f, tame, rest);
      case Nested(nested) => h := ReadsNested(nested, f, rest);
    }
  }

  lemma ListKinds(ts: seq<Token>)
    ensures AllReadable(ts) ==> ReadableAll([ts])
    ensures TameTokens(ts) ==> TameAll([ts])
    ensures AllNameable(ts) ==> NameableAll([ts])
  {
  }

  lemma {:induction false} ReadsList(args: seq<Token>, f: Open, tame: bool, rest: string) returns (h: Open)
    requires AllReadable(args) && (tame ==> TameTokens(args)) && Text(f) != ""
    ensures var s := WriteToken(Template(args)) + (Text(f) + rest); SkipArguments(s) == SkipArguments(Text(h) + (Text(f) + rest))
    ensures Excess(h) >= LooseIn(args) && ReadableAll(h) && (tame ==> TameAll(h))
    ensures |Text(h)| < |WriteToken(Template(args))|
    decreases |WriteToken(Template(args))| + |Text(f)| - 1, 2
  {
    hide SkipArguments, Readable, TameToken, WriteToken, WriteTokens, Excess, LooseIn, Text;
    var after := Text(f) + rest;
    Single(args);
    ListKinds(args);
    var list := Text([args]);
    TemplateText(args);
    h := ReadsArguments([args], after);
    assert WriteToken(Template(args)) + after == "I" + (list + after);
    SkipsList(list + after);
    Shorter(list, after, Text(h));
  }

  lemma Shorter(s: string, after: string, t: string)
    requires SkipArguments(s + after) == Rest(t + after)
    ensures |t| < |s|
  {
    hide SkipArguments;
    assert ProperSuffix(t + after, s + after);
  }

  lemma {:induction false} ReadsGroup(open: string, members: seq<Token>, f: Open, tame: bool, rest: string) returns (h: Open)
    requires Letters(open) && AllReadable(members) && (tame ==> TameTokens(members)) && Text(f) != ""
    ensures var s := WriteToken(Group(open, members)) + (Text(f) + rest); SkipArguments(s) == SkipArguments(Text(h) + (Text(f) + rest))
    ensures Excess(h) >= 1 + LooseIn(members) && ReadableAll(h) && (tame ==> TameAll(h))
    ensures |Text(h)| < |WriteToken(Group(open, members))|
  {
    hide SkipArguments, Readable, TameToken, WriteTokens, Excess, LooseIn;
    Single(members);
    ListKinds(members);
    h := [members];
    var list := Text(h);
    assert WriteToken(Group(open, members)) == open + list;
    assert WriteToken(Group(open, members)) + (Text(f) + rest) == open + (list + (Text(f) + rest));
    LettersSkipped(open, list + (Text(f) + rest));
  }

  lemma {:induction false} ReadsNested(n: NestedName, f: Open, rest: string) returns (h: Open)
    requires TameNested(n) && Text(f) != ""
    ensures var s := WriteToken(Nested(n)) + (Text(f) + rest); SkipArguments(s) == SkipArguments(Text(h) + (Text(f) + rest))
    ensures Excess(h) >= LooseInNested(n) && ReadableAll(h) && TameAll(h)
    ensures |Text(h)| < |WriteToken(Nested(n))|
    decreases |WriteToken(Nested(n))| + |Text(f)| - 1, 2
  {
    hide SkipArguments, ParseNested, TameToken, WriteToken, WriteTokens, WriteNested, Excess, LooseIn, LooseInNested, FlatOf, TameComponent;
    var after := Text(f) + rest;
    NestedText(n);
    var names;
    NestedLength(n);
    h, names := ReadsFlat(n, after);
    TameAllReadable(h);
    SkipsNested(WriteNested(n) + after);
  }

  lemma NestedLength(n: NestedName)
    requires TameNested(n)
    ensures |Text([FlatOf(n)])| < |WriteNested(n)| && WriteNested(n)[0] == 'N'
  {
    var passed, flat := NestedOpens(n);
    Single(flat);
  }

  /** A nested name is left in the middle, if it has a loose end. */
  lemma {:induction false} ReadsFlat(n: NestedName, after: string) returns (h: Open, names: Names)
    requires TamePrefix(n) && forall c :: c in n.components ==> TameComponent(c)
    ensures ParseNested(WriteNested(n) + after) == Parsed(names, Text(h) + after)
    ensures Excess(h) >= LooseInNested(n) && NameableAll(h) && |Text(h)| < |WriteNested(n)|
    ensures (forall c :: c in n.components ==> c.name.Identifier?) ==> TameAll(h)
    ensures n.std.Some? ==> names != [] && names[0].0 != "" && names[0].0[0] == 'S'
    decreases |WriteNested(n)|, 1
  {
    hide SkipArguments, ParseComponents, TameToken, WriteToken, WriteTokens, WriteNested, Excess, LooseIn, WriteComponents, FlatOf,
         LooseInComponents, AfterPrefix, TameComponent, WriteStd, AnyGeneric, HasTemplate, IsFlat, Nameable;
    var flat := FlatOf(n);
    FlatOfWritten(n);
    FlatOfNameable(n);
    Single(flat);
    ListKinds(flat);
    var body := Text([flat]) + after;
    FlatStart(n, after);
    PassesPrefix(n, body);
    NestedWritten(n, after);
    assert WriteNested(n) + after == "N" + WritePrefix(n) + body;
    if n.std.Some? {
      StdFirst(n);
      h, names := ReadsToFirstE([flat], after, []);
    } else {
      h, names := ReadsNames([flat], after, []);
    }
    ParseNestedOf(n, body);
    NamesShorter(Text([flat]), after, [], Text(h));
  }

  lemma StdFirst(n: NestedName)
    requires n.std.Some?
    ensures FlatOf(n) != [] && FlatOf(n)[0] == Pair('S', n.std.value) && WriteToken(Pair('S', n.std.value))[0] == 'S'
  {
  }

  lemma FlatStart(n: NestedName, after: string)
    requires GoodPrefix(n) && forall c :: c in n.components ==> TameComponent(c)
    ensures StartsNames(Text([FlatOf(n)]) + after)
    ensures Text([FlatOf(n)]) + after == WriteStd(n) + WriteComponents(n.components) + "E" + after
  {
    hide WriteComponents, FlatOf, TameComponent;
    FlatOfWritten(n);
    Single(FlatOf(n));
    if n.std == None {
      NamesGood(n.components);
      ComponentsStart(n.components, after);
      assert WriteStd(n) + WriteComponents(n.components) == WriteComponents(n.components);
    }
  }

  lemma NestedWritten(n: NestedName, rest: string)
    ensures WriteNested(n) + rest == "N" + WritePrefix(n) + (WriteStd(n) + WriteComponents(n.components) + "E" + rest)
    ensures WriteNested(n) == "N" + WritePrefix(n) + (WriteStd(n) + WriteComponents(n.components) + "E")
  {
    hide WriteComponents, WriteStd;
  }

  lemma ParseNestedOf(n: NestedName, body: string)
    requires AfterPrefix("N" + WritePrefix(n) + body) == body
    ensures ParseNested("N" + WritePrefix(n) + body) == ParseComponents(body, [])
  {
  }

  lemma NamesGood(cs: seq<Component>)
    requires forall c :: c in cs ==> TameComponent(c)
    ensures forall c :: c in cs ==> GoodName(c.name)
  {
  }

  lemma NestedText(n: NestedName)
    ensures WriteToken(Nested(n)) == WriteNested(n)
  {
  }

  lemma NamesShorter(s: string, after: string, ret: Names, t: string)
    requires var p := ParseComponents(s + after, ret); p.Parsed? && p.rest == t + after
    ensures |t| < |s|
  {
    hide ParseComponents;
    assert ProperSuffix(t + after, s + after);
  }

  /** Reading names does the same. */
  lemma {:induction false} ReadsNames(f: Open, rest: string, ret: Names) returns (g: Open, names: Names)
    requires f != [] && NameableAll(f)
    ensures ParseComponents(Text(f) + rest, ret) == Parsed(names, Text(g) + rest) && Excess(g) >= Excess(f) - 1
    ensures NameableAll(g) && (TameAll(f) ==> TameAll(g))
    decreases |Text(f)|, 1
  {
    hide ParseComponents, Nameable, TameToken, LooseOf, WriteToken, WriteTokens, Excess, SkipTemplate, ParseName;
    if f[0] == [] {
      EmptyFirst(f);
      g, names := f[1..], ret;
      assert Text(f) + rest == "E" + (Text(g) + rest);
      ParsesEnd(ret, Text(g) + rest);
    } else {
      var t, f1 := f[0][0], [f[0][1..]] + f[1..];
      FirstToken(f, f1);
      TailKinds(f, f1);
      LeafNotLoose(t);
      if t.Source? || (t.Pair? && t.first in "CD" && t.letter in "123") {
        g, names := ReadsNamed(t, f1, TameAll(f), rest, ret);
      } else {
        g, names := ReadsToFirstE(f, rest, ret);
      }
    }
  }

  lemma {:induction false} ReadsToFirstE(f: Open, rest: string, ret: Names) returns (g: Open, names: Names)
    requires f != [] && NameableAll(f) && f[0] != []
    requires !f[0][0].Source? && !(f[0][0].Pair? && f[0][0].first in "CD" && f[0][0].letter in "123")
    ensures ParseComponents(Text(f) + rest, ret) == Parsed(names, Text(g) + rest) && Excess(g) >= Excess(f) - 1
    ensures IsFlat(f[0]) && HasTemplate(f[0]) ==> Excess(g) >= Excess(f)
    ensures NameableAll(g) && (TameAll(f) ==> TameAll(g))
    ensures |names| == |ret| + 1 && names[..|ret|] == ret && names[|ret|].0 != ""
    ensures WriteToken(f[0][0]) != "" && names[|ret|].0[0] == WriteToken(f[0][0])[0]
  {
    hide ParseComponents, Nameable, TameToken, LooseOf, WriteToken, WriteTokens, Excess, SkipTemplate, ParseName, IsFlat, HasTemplate;
    var t, f1 := f[0][0], [f[0][1..]] + f[1..];
    FirstToken(f, f1);
    TailKinds(f, f1);
    var n, e := ToFirstE(f);
    var s := Text(f) + rest;
    EmptyFirst(e);
    OperatorStart(t, Text(f1) + rest);
    TokenStart(t);
    assert s == WriteToken(t) + (Text(f1) + rest);
    assert Text(f)[n] == Text(f)[n..][0];
    assert s[..n] == Text(f)[..n] && s[n..] == Text(e) + rest;
    ReadsOperator(s, n);
    g := e[1..];
    var name := s[..n];
    ReadsName(s, name, s[n..], ret);
    assert s[n..] == "E" + (Text(g) + rest);
    names := ret + [(name, false)];
    ParsesEnd(names, Text(g) + rest);
  }

  /** Other tokens do not look like names. */
  lemma OperatorStart(t: Token, after: string)
    requires Nameable(t) && !t.Source? && !(t.Pair? && t.first in "CD" && t.letter in "123")
    ensures var s := WriteToken(t) + after;
            s != "" && s[0] != 'E' && !Digit(s[0]) && (|s| > 1 ==> !(s[0] in "CD" && s[1] in "123"))
  {
    TokenStart(t);
    var s := WriteToken(t) + after;
    match t
    case Counted(prefix, _) => assert |prefix| > 1 ==> s[1] == prefix[1] && prefix[1] in prefix;
    case Group(open, _) => assert |open| > 1 ==> s[1] == open[1] && open[1] in open;
    case _ =>
  }

  lemma {:induction false} ReadsNamed(t: Token, f: Open, tame: bool, rest: string, ret: Names) returns (g: Open, names: Names)
    requires t.Source? || (t.Pair? && t.first in "CD" && t.letter in "123")
    requires Nameable(t) && f != [] && NameableAll(f) && (tame ==> TameAll(f))
    ensures ParseComponents(WriteToken(t) + Text(f) + rest, ret) == Parsed(names, Text(g) + rest) && Excess(g) >= Excess(f) - 1
    ensures NameableAll(g) && (tame ==> TameAll(g))
    decreases |WriteToken(t)| + |Text(f)|, 0
  {
    hide ParseComponents, Nameable, TameToken, LooseOf, WriteToken, WriteTokens, WriteName, Excess, SkipTemplate, SkipArguments,
         ParseName, Decimal;
    var name := NameOf(t);
    var after := Text(f) + rest;
    var s := WriteToken(t) + after;
    OpenStart(f, rest);
    ParsesName(name, after);
    TokenStart(t);
    ReadsName(s, WriteName(name), after, ret);
    assert WriteToken(t) + Text(f) + rest == s;
    if f[0] != [] && f[0][0].Template? {
      var f2 := ReadsTemplate(f, tame, rest);
      g, names := ReadsNames(f2, rest, ret + [(WriteName(name), true)]);
    } else {
      g, names := ReadsNames(f, rest, ret + [(WriteName(name), false)]);
    }
  }

  /** Template arguments come first. */
  lemma {:induction false} ReadsTemplate(f: Open, tame: bool, rest: string) returns (g: Open)
    requires f != [] && f[0] != [] && f[0][0].Template? && NameableAll(f) && (tame ==> TameAll(f))
    ensures var s := Text(f) + rest; s != "" && s[0] == 'I' && SkipTemplate(s) == Rest(Text(g) + rest)
    ensures g != [] && Excess(g) >= Excess(f) && NameableAll(g) && (tame ==> TameAll(g))
    ensures |Text(g)| < |Text(f)|
    decreases |Text(f)|, 0
  {
    hide SkipArguments, SkipTemplate, Nameable, TameToken, LooseOf, WriteToken, WriteTokens, Excess, Text, Readable, AllReadable,
         AllNameable, TameTokens;
    var args, f2 := f[0][0].args, [f[0][1..]] + f[1..];
    FirstToken(f, f2);
    TailKinds(f, f2);
    ArgsTame(f[0][0]);
    Single(args);
    ListKinds(args);
    TameAllReadable([args]);
    TemplateText(args);
    var s, list, after := Text(f) + rest, Text([args]), Text(f2) + rest;
    assert s == "I" + (list + after);
    assert s[1..] == list + after;
    var h := ReadsArguments([args], after);
    Shorter(list, after, Text(h));
    SkipsTemplateOf(s);
    TameAllReadable(h);
    Joined(h, f2);
    JoinedKinds(h, f2);
    g := h + f2;
    assert Text(h) + after == Text(g) + rest;
  }

  lemma LeafNotLoose(t: Token)
    ensures !t.Template? && !t.Nested? && !t.Group? ==> LooseOf(t) == 0
  {
  }

  function NameOf(t: Token): (n: Name)
    requires t.Source? || (t.Pair? && t.first in "CD" && t.letter in "123")
    ensures WriteName(n) == WriteToken(t) && (Nameable(t) ==> GoodName(n))
  {
    if t.Source? then Identifier(t.chars) else Special(t.first, t.letter)
  }

  lemma ArgsTame(t: Token)
    requires t.Template? && Nameable(t)
    ensures TameTokens(t.args) && LooseOf(t) == LooseIn(t.args)
  {
  }

  lemma TemplateText(args: seq<Token>)
    ensures WriteToken(Template(args)) == "I" + Text([args])
  {
    Single(args);
  }

  lemma SkipsTemplateOf(s: string)
    requires s != "" && s[0] == 'I'
    ensures SkipTemplate(s) == SkipArguments(s[1..])
  {
  }

  /** The next thing to read looks like template arguments just when they are. */
  lemma OpenStart(f: Open, rest: string)
    requires f != [] && NameableAll(f)
    ensures Text(f) != "" && ((Text(f) + rest)[0] == 'I' <==> f[0] != [] && f[0][0].Template?)
  {
    hide Nameable, WriteToken, WriteTokens;
    if f[0] == [] {
      EmptyFirst(f);
    } else {
      FirstToken(f, [f[0][1..]] + f[1..]);
      TokenStart(f[0][0]);
    }
  }

  // ---- when arguments are skipped right -----------------------------------------------------

  /** The list of template arguments is skipped, and just what follows it is left. */
  predicate SkippedRight(ts: seq<Token>, rest: string) {
    SkipTemplate("I" + WriteTokens(ts) + "E" + rest) == Rest(rest)
  }

  lemma ListText(ts: seq<Token>, rest: string)
    ensures SkipTemplate("I" + WriteTokens(ts) + "E" + rest) == SkipArguments(Text([ts]) + rest)
    ensures Text([ts]) + rest == WriteTokens(ts) + "E" + rest
  {
    hide SkipArguments;
    Single(ts);
    var s := "I" + WriteTokens(ts) + "E" + rest;
    assert s[1..] == Text([ts]) + rest;
  }

  /** Template arguments are skipped right if and only if no pack, no function type and no other loose
      end is among them, at any place and any depth; with one the list is taken to end too early. */
  lemma SkippedIffNoneLoose(ts: seq<Token>, rest: string)
    requires AllReadable(ts)
    ensures SkippedRight(ts, rest) <==> LooseIn(ts) == 0
    ensures var s := SkipTemplate("I" + WriteTokens(ts) + "E" + rest); s.Rest? && |s.rest| >= |rest| + LooseIn(ts)
  {
    hide SkipArguments, SkipTemplate, WriteTokens, Readable, LooseIn;
    ListText(ts, rest);
    if LooseIn(ts) == 0 {
      NoneLooseAllGood(ts);
      SkipsTokens(ts, rest);
    } else {
      ListKinds(ts);
      Single(ts);
      var g := ReadsArguments([ts], rest);
      TextLength(g);
    }
  }

  lemma {:induction false} TextLength(f: Open)
    requires Excess(f) >= 0
    ensures |Text(f)| >= Excess(f)
  {
    if f != [] {
      WrittenLength(f[0]);
      TextLength(f[1..]);
    }
  }

  /** Every group writes at least two characters. */
  lemma {:induction false} WrittenLength(ts: seq<Token>)
    ensures |WriteTokens(ts)| >= LooseIn(ts)
    decreases ts, 1
  {
    if ts != [] {
      TokenLength(ts[0]);
      WrittenLength(ts[1..]);
    }
  }

  lemma {:induction false} TokenLength(t: Token)
    ensures |WriteToken(t)| >= LooseOf(t)
    decreases t, 0
  {
    match t
    case Template(args) => WrittenLength(args);
    case Group(_, members) => WrittenLength(members);
    case Nested(nested) => ComponentsLength(nested.components);
    case _ =>
  }

  lemma {:induction false} ComponentsLength(cs: seq<Component>)
    ensures |WriteComponents(cs)| >= LooseInComponents(cs)
    decreases cs, 1
  {
    if cs != [] {
      if cs[0].Generic? {
        WrittenLength(cs[0].args);
      }
      ComponentsLength(cs[1..]);
    }
  }

  /** A nested name is taken apart into what it was put together from if and only if it does not begin
      with an abbreviation and has no loose end among its arguments, at any depth. */
  lemma ParsedIffNoneLoose(n: NestedName, rest: string)
    requires if n.std == None && LooseInNested(n) == 0 then GoodNested(n)
             else TamePrefix(n) && forall c :: c in n.components ==> TameComponent(c)
    ensures ParseNested(WriteNested(n) + rest) == Parsed(NamesOf(n.components), rest) <==> n.std == None && LooseInNested(n) == 0
  {
    hide ParseNested, WriteNested, LooseInNested, TameComponent, NamesOf, Excess;
    if n.std == None && LooseInNested(n) == 0 {
      ParsesNested(n, rest);
    } else {
      var h, names := ReadsFlat(n, rest);
      TextLength(h);
      if n.std.Some? {
        NamesStart(n.components);
      }
    }
  }

  lemma NamesStart(cs: seq<Component>)
    requires forall c :: c in cs ==> TameComponent(c)
    ensures NamesOf(cs) != [] ==> NamesOf(cs)[0].0 != "" && NamesOf(cs)[0].0[0] != 'S'
  {
    if cs != [] {
      assert TameComponent(cs[0]);
      NameStart(cs[0].name);
    }
  }

  // ---- where names with an E make it right by accident ----------------------------------------

  /** The text of a nested name a<J E, i, xEIIy>, with a pack, as the only argument: what is left of
      the identifier happens to close what the pack has left open. */
  lemma AccidentOfName()
    ensures SkipTemplate("I" + WriteTokens(Accident()) + "E") == Rest("") && LooseIn(Accident()) == 1
    ensures "I" + WriteTokens(Accident()) + "E" == "IN1aIJEi5xEIIyEEE"
  {
    hide SkipArguments, WriteTokens, LooseIn, Accident;
    AccidentText();
    var s := "N1aIJE" + "i5xEIIyEEE";
    assert "I" + WriteTokens(Accident()) + "E" == "I" + s;
    assert ("I" + s)[1..] == s;
    AccidentParsed(s);
    AccidentRest();
  }

  function Accident(): seq<Token> {
    [Nested(NestedName(None, "", None, [Generic(Identifier("a"), [Group("J", []), Letter('i'), Source("xEIIy")])]))]
  }

  lemma AccidentParsed(s: string)
    requires s == "N1aIJE" + "i5xEIIyEEE"
    ensures SkipArguments(s) == SkipArguments("IIyEEE")
  {
    hide SkipArguments, ParseNested, ParseComponents, ParseName;
    var t := "i5xEIIyEEE";
    AfterPack(t);
    SkipsNested(s);
    assert t[..3] == "i5x" && t[3..] == "E" + "IIyEEE";
    ReadsOperator(t, 3);
    ReadsName(t, "i5x", t[3..], [("1a", true)]);
    ParsesEnd([("1a", true)] + [("i5x", false)], "IIyEEE");
  }

  lemma AccidentRest()
    ensures SkipArguments("IIyEEE") == Rest("")
  {
    hide SkipArguments;
    assert "IIyEEE" == "I" + "IyEEE" && "IyEEE" == "I" + "yEEE" && "yEEE" == ['y'] + "EEE";
    assert "EEE" == "E" + "EE" && "EE" == "E" + "E" && "E" == "E" + "";
    SkipsLetter('y', "EEE");
    EndsList("EE");
    EndsList("E");
    EndsList("");
    SkipsList("yEEE");
    SkipsList("IyEEE");
  }

  lemma AccidentText()
    ensures WriteTokens(Accident()) == "N1aIJEi5xEIIyEE" && LooseIn(Accident()) == 1
  {
    var args := [Group("J", []), Letter('i'), Source("xEIIy")];
    AccidentArgs();
    hide WriteTokens, LooseIn;
    OneGeneric("a", args);
    assert Decimal(1) == "1";
    assert "N" + WriteSource("a") + "I" + WriteTokens(args) + "EE" == "N1aIJEi5xEIIyEE";
  }

  lemma AccidentArgs()
    ensures var args := [Group("J", []), Letter('i'), Source("xEIIy")]; WriteTokens(args) == "JEi5xEIIy" && LooseIn(args) == 1
  {
    var args, more := [Group("J", []), Letter('i'), Source("xEIIy")], [Letter('i'), Source("xEIIy")];
    assert args[1..] == more && more[1..] == [Source("xEIIy")];
    assert Decimal(5) == "5";
    OneToken(Source("xEIIy"));
    EmptyGroup();
    assert WriteTokens(more) == "i" + "5xEIIy" && LooseIn(more) == 0;
    hide WriteToken;
    assert LooseIn([]) == 0 && LooseOf(Group("J", [])) == 1;
    assert WriteTokens(args) == "JE" + "i5xEIIy";
  }

  lemma OneGeneric(chars: string, args: seq<Token>)
    ensures var t := Nested(NestedName(None, "", None, [Generic(Identifier(chars), args)]));
            WriteTokens([t]) == "N" + WriteSource(chars) + "I" + WriteTokens(args) + "EE" && LooseIn([t]) == LooseIn(args)
  {
    var c := Generic(Identifier(chars), args);
    OneToken(Nested(NestedName(None, "", None, [c])));
    assert [c][1..] == [];
    assert LooseInComponents([c]) == LooseIn(args) + LooseInComponents([]);
    assert WriteComponents([c]) == WriteSource(chars) + ("I" + WriteTokens(args) + "E");
  }

  /** After a pack that comes first, a nested name goes on with what the pack has left. */
  lemma AfterPack(tail: string)
    requires tail != ""
    ensures ParseNested("N1aIJE" + tail) == ParseComponents(tail, [("1a", true)])
  {
    hide ParseComponents, AfterPrefix, WritePrefix;
    var n := NestedName(None, "", None, []);
    var body := "1a" + ("IJE" + tail);
    NoPrefix(n);
    PassesPrefix(n, body);
    assert "N" + WritePrefix(n) + body == "N1aIJE" + tail;
    NameAndPack(tail);
  }

  lemma NoPrefix(n: NestedName)
    requires n == NestedName(None, "", None, [])
    ensures WritePrefix(n) == ""
  {
  }

  lemma NameAndPack(tail: string)
    requires tail != ""
    ensures ParseComponents("1a" + ("IJE" + tail), []) == ParseComponents(tail, [("1a", true)])
  {
    hide ParseComponents, ParseName, SkipTemplate;
    var list := "IJE" + tail;
    assert Decimal(1) == "1";
    assert WriteName(Identifier("a")) == "1a";
    ParsesName(Identifier("a"), list);
    ReadsName("1a" + list, "1a", list, []);
    EmptyGroup();
    assert "I" + (WriteToken(Group("J", [])) + tail) == list;
    GroupEndsList("J", [], tail);
    assert [] + [("1a", true)] == [("1a", true)];
  }

  lemma EmptyGroup()
    ensures WriteToken(Group("J", [])) == "JE"
  {
    assert WriteTokens([]) == "";
  }

  /** A constructor's name after a pack: the digit is taken for a length and hides the next E. */
  lemma AccidentOfConstructor()
    ensures SkipTemplate("IN1aIJEEC1EE") == Rest("")
  {
    hide SkipArguments, ParseNested, ParseComponents;
    assert "IN1aIJEEC1EE"[1..] == "N1aIJE" + "EC1EE";
    AfterPack("EC1EE");
    assert "EC1EE" == "E" + "C1EE";
    ParsesEnd([("1a", true)], "C1EE");
    SkipsNested("N1aIJE" + "EC1EE");
    DigitHidesEnd();
  }

  lemma DigitHidesEnd()
    ensures SkipArguments("C1EE") == Rest("")
  {
    hide SkipArguments, MatchNumber, Number;
    assert "C1EE" == ['C'] + "1EE";
    SkipsLetter('C', "1EE");
    assert Decimal(1) == "1";
    assert "1EE" == "1" + "EE";
    NumberMatches("1", "EE");
    SkipsNumber("1EE", "1", "EE");
    assert Number("1") == 1;
    assert Drop("EE", 1) == "E" + "";
    EndsList("");
  }
}
