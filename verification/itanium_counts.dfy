/** Numbers behind letters among template arguments, such as the lengths of arrays. */
module ItaniumCounts {
  import opened ItaniumNames
  import opened ItaniumRoundTrip
  import opened ItaniumGroups

  // ---- places at any depth ------------------------------------------------------------------

  /** What stands around a list of arguments in the list that holds it: the list is an argument itself,
      or it belongs to a name inside an argument that is a nested name. */
  datatype Around = InList(before: seq<Token>, behind: seq<Token>)
                  | InName(before: seq<Token>, outer: NestedName, name: Name, last: seq<Component>, behind: seq<Token>)

  function Holder(around: Around, ts: seq<Token>): Token {
    match around
    case InList(_, _) => Template(ts)
    case InName(_, outer, name, last, _) => Nested(outer.(components := outer.components + [Generic(name, ts)] + last))
  }

  /** The arguments at some depth of a list of arguments. */
  function Plug(around: seq<Around>, ts: seq<Token>): seq<Token> {
    if around == [] then ts else around[0].before + [Holder(around[0], Plug(around[1..], ts))] + around[0].behind
  }

  /** Good arguments all around; inside nested names tame ones. */
  predicate GoodAround(around: seq<Around>, tame: bool) {
    around == [] ||
    var a := around[0];
    && GoodTokens(a.before) && GoodTokens(a.behind) && (tame ==> TameTokens(a.before) && TameTokens(a.behind))
    && (a.InName? ==> GoodOuter(a.outer, a.name, a.last))
    && GoodAround(around[1..], tame || a.InName?)
  }

  predicate GoodOuter(outer: NestedName, name: Name, last: seq<Component>) {
    && outer.std == None && TamePrefix(outer)
    && forall c :: c in outer.components + [Plain(name)] + last ==> GoodComponent(c) && TameComponent(c) && c.name.Identifier?
  }

  predicate SameReading(a: seq<Token>, b: seq<Token>, after: string) {
    SkipArguments(WriteTokens(a) + after) == SkipArguments(WriteTokens(b) + after)
  }

  lemma {:induction false} SkipsAll(ts: seq<Token>, after: string)
    requires GoodTokens(ts) && after != ""
    ensures SkipArguments(WriteTokens(ts) + after) == SkipArguments(after)
    decreases |ts|
  {
    hide SkipArguments, GoodToken;
    if ts == [] {
      assert WriteTokens(ts) + after == after;
    } else {
      SkipsAll(ts[1..], after);
      assert WriteTokens(ts) + after == WriteToken(ts[0]) + (WriteTokens(ts[1..]) + after);
      SkipsToken(ts[0], WriteTokens(ts[1..]) + after);
    }
  }

  /** What is left to do after a list of arguments inside a nested name. */
  function AfterList(r: Skipped, names: Names): Skipped {
    match r
    case Rest(rest) =>
      (match ParseComponents(rest, names)
       case Parsed(_, after) => SkipArguments(after)
       case NotParsed => NoEnd
       case TooComplexName => TooComplexArgument)
    case other => other
  }

  lemma {:induction false} ReadsComponents(cs: seq<Component>, ret: Names, after: string)
    requires GoodComponents(cs) && after != "" && after[0] != 'I'
    ensures ParseComponents(WriteComponents(cs) + after, ret) == ParseComponents(after, ret + NamesOf(cs))
    decreases |cs|
  {
    hide ParseComponents, WriteComponent, WriteName, GoodComponent;
    if cs == [] {
      assert WriteComponents(cs) + after == after;
      assert ret + NamesOf(cs) == ret;
    } else {
      var c, further := cs[0], WriteComponents(cs[1..]) + after;
      assert WriteComponents(cs) + after == WriteComponent(c) + further;
      assert GoodComponent(c);
      NoListAhead(cs[1..], after);
      ParsesComponent(c, ret, further);
      var more := ret + [(WriteName(c.name), c.Generic?)];
      ReadsComponents(cs[1..], more, after);
      assert more + NamesOf(cs[1..]) == ret + NamesOf(cs);
    }
  }

  /** Expressions that begin with L or X are refused wherever an argument is expected. */
  lemma ExpressionRefused(ts: seq<Token>, c: char, after: string)
    requires GoodTokens(ts) && c in "LX"
    ensures SkipTemplate("I" + (WriteTokens(ts) + ([c] + after))) == TooComplexArgument
  {
    hide SkipArguments;
    var s := [c] + after;
    SkipsAll(ts, s);
    assert ("I" + (WriteTokens(ts) + s))[1..] == WriteTokens(ts) + s;
    Refused(s);
  }

  /** In a nested name's arguments that makes the whole name too complex. */
  lemma NameRefused(cs: seq<Component>, name: Name, ts: seq<Token>, c: char, after: string, ret: Names)
    requires GoodComponents(cs) && GoodName(name) && GoodTokens(ts) && c in "LX"
    ensures ParseComponents(WriteComponents(cs) + (WriteName(name) + ("I" + (WriteTokens(ts) + ([c] + after)))), ret) == TooComplexName
  {
    hide ParseComponents, SkipArguments, SkipTemplate, WriteComponents, WriteTokens, ParseName, WriteName;
    var list := "I" + (WriteTokens(ts) + ([c] + after));
    var rest := WriteName(name) + list;
    NameStart(name);
    ReadsComponents(cs, ret, rest);
    ParsesName(name, list);
    ExpressionRefused(ts, c, after);
    ReadsName(rest, WriteName(name), list, ret + NamesOf(cs));
  }

  /** Without an E nothing is ever taken to end. */
  lemma {:induction false} NoListWithoutE(s: string)
    requires 'E' !in s
    ensures !SkipArguments(s).Rest?
    decreases |s|, 0
  {
    hide MatchNumber, MatchSubstitution, ParseComponents, Number;
    if s != "" {
      if MatchNumber(s).Some? {
        NoListWithoutE(Drop(MatchNumber(s).value.1, Number(MatchNumber(s).value.0)));
      } else if MatchSubstitution(s).Some? {
        NoListWithoutE(MatchSubstitution(s).value);
      } else if s[0] == 'I' {
        NoListWithoutE(s[1..]);
      } else if s[0] == 'N' {
        NoNameWithoutE(AfterPrefix(s), []);
      } else {
        NoListWithoutE(s[1..]);
      }
    }
  }

  lemma {:induction false} NoNameWithoutE(s: string, ret: Names)
    requires 'E' !in s
    ensures !ParseComponents(s, ret).Parsed?
    decreases |s|, 1
  {
    hide ParseName, SkipArguments;
    if s != "" && ParseName(s).Some? {
      var (name, after) := ParseName(s).value;
      if after != "" && after[0] == 'I' {
        NoListWithoutE(after[1..]);
      } else {
        NoNameWithoutE(after, ret + [(name, false)]);
      }
    }
  }

  lemma Refused(s: string)
    requires s != "" && s[0] in "LX"
    ensures SkipArguments(s) == TooComplexArgument
  {
    hide MatchNumber, MatchSubstitution, SkipTemplate, ParseNested;
    NoNumber(s);
    NoSubstitution(s);
  }

  lemma NoListAhead(cs: seq<Component>, after: string)
    requires GoodComponents(cs) && after != "" && after[0] != 'I'
    ensures WriteComponents(cs) + after != "" && (WriteComponents(cs) + after)[0] != 'I'
  {
    if cs != [] {
      assert GoodComponent(cs[0]);
      NameStart(cs[0].name);
    }
  }

  lemma {:induction false} ComponentsConcat(a: seq<Component>, b: seq<Component>)
    ensures WriteComponents(a + b) == WriteComponents(a) + WriteComponents(b)
    ensures LooseInComponents(a + b) == LooseInComponents(a) + LooseInComponents(b)
  {
    hide WriteComponent, LooseIn;
    if a == [] {
      assert a + b == b;
    } else {
      assert (a + b)[1..] == a[1..] + b;
      ComponentsConcat(a[1..], b);
    }
  }

  lemma OneGenericComponent(name: Name, ts: seq<Token>)
    ensures WriteComponents([Generic(name, ts)]) == WriteName(name) + ("I" + WriteTokens(ts) + "E")
    ensures LooseInComponents([Generic(name, ts)]) == LooseIn(ts)
  {
    var c := Generic(name, ts);
    assert [c][1..] == [];
    assert LooseInComponents([c]) == LooseIn(ts) + LooseInComponents([]);
  }

  lemma OuterGood(outer: NestedName, name: Name, last: seq<Component>)
    requires GoodOuter(outer, name, last)
    ensures GoodNested(outer) && GoodComponents(last) && GoodName(name) && name.Identifier? && TameComponent(Plain(name))
    ensures TameNested(outer) && forall c :: c in last ==> TameComponent(c) && c.name.Identifier?
  {
    var cs := outer.components + [Plain(name)] + last;
    assert Plain(name) in cs && GoodComponent(Plain(name));
    assert forall c :: c in outer.components || c in last ==> c in cs;
  }

  /** A nested name around a list of arguments is read as what the list is read as tells. */
  lemma NameReads(outer: NestedName, name: Name, last: seq<Component>, ts: seq<Token>, after: string)
    requires GoodOuter(outer, name, last)
    ensures var nested := outer.(components := outer.components + [Generic(name, ts)] + last);
            var inner := WriteTokens(ts) + ("E" + (WriteComponents(last) + "E" + after));
            SkipArguments(WriteToken(Nested(nested)) + after) ==
            AfterList(SkipArguments(inner), NamesOf(outer.components) + [(WriteName(name), true)])
  {
    hide SkipArguments, ParseComponents, ParseNested, SkipTemplate, WriteTokens, WriteComponents, WriteName, AfterPrefix, WritePrefix,
         WriteNested, NamesOf, GoodComponents, TameComponent;
    OuterGood(outer, name, last);
    var nested := outer.(components := outer.components + [Generic(name, ts)] + last);
    var inner := WriteTokens(ts) + ("E" + (WriteComponents(last) + "E" + after));
    var list := "I" + inner;
    var named := WriteName(name) + list;
    var body := WriteComponents(outer.components) + named;
    NestedBody(outer, name, last, ts, after);
    NameStart(name);
    NoListAhead(outer.components, named);
    BodyStarts(outer.components, name, list);
    PassesPrefix(nested, body);
    SkipsNested("N" + WritePrefix(nested) + body);
    ParseNestedOf(nested, body);
    ReadsComponents(outer.components, [], named);
    assert [] + NamesOf(outer.components) == NamesOf(outer.components);
    OneComponent(name, list, NamesOf(outer.components));
    SkipsTemplateOf(list);
    assert list[1..] == inner;
  }

  lemma NestedBody(outer: NestedName, name: Name, last: seq<Component>, ts: seq<Token>, after: string)
    requires outer.std == None
    ensures var nested := outer.(components := outer.components + [Generic(name, ts)] + last);
            var inner := WriteTokens(ts) + ("E" + (WriteComponents(last) + "E" + after));
            WriteToken(Nested(nested)) + after ==
            "N" + WritePrefix(nested) + (WriteComponents(outer.components) + (WriteName(name) + ("I" + inner)))
  {
    hide WriteTokens, WriteComponents, WriteName, WritePrefix, WriteNested;
    var nested := outer.(components := outer.components + [Generic(name, ts)] + last);
    ComponentsConcat(outer.components + [Generic(name, ts)], last);
    ComponentsConcat(outer.components, [Generic(name, ts)]);
    OneGenericComponent(name, ts);
    NestedWritten(nested, after);
    NestedText(nested);
    assert WriteStd(nested) == "";
  }

  lemma BodyStarts(cs: seq<Component>, name: Name, list: string)
    requires GoodComponents(cs) && GoodName(name)
    ensures StartsNames(WriteComponents(cs) + (WriteName(name) + list))
  {
    NameStart(name);
    if cs != [] {
      assert GoodComponent(cs[0]);
      NameStart(cs[0].name);
    }
  }

  lemma PlugText(around: seq<Around>, ts: seq<Token>, after: string)
    requires around != [] && GoodTokens(around[0].before)
    ensures var holder := Holder(around[0], Plug(around[1..], ts));
            var further := WriteTokens(around[0].behind) + after;
            SkipArguments(WriteTokens(Plug(around, ts)) + after) == SkipArguments(WriteToken(holder) + further)
  {
    hide SkipArguments, GoodToken, WriteToken, Holder;
    var before, t, behind := around[0].before, Holder(around[0], Plug(around[1..], ts)), around[0].behind;
    WriteTokensConcat(before + [t], behind);
    WriteTokensConcat(before, [t]);
    OneToken(t);
    HolderWritten(around[0], Plug(around[1..], ts));
    var further := WriteToken(t) + (WriteTokens(behind) + after);
    assert WriteTokens(Plug(around, ts)) + after == WriteTokens(before) + further;
    SkipsAll(before, further);
  }

  lemma HolderWritten(a: Around, ts: seq<Token>)
    ensures WriteToken(Holder(a, ts)) != ""
  {
  }

  lemma ListReads(ts: seq<Token>, after: string)
    ensures SkipArguments(WriteToken(Template(ts)) + after) ==
            match SkipArguments(WriteTokens(ts) + ("E" + after)) case Rest(r) => SkipArguments(r) case other => other
  {
    hide SkipArguments, WriteTokens;
    var inner := WriteTokens(ts) + ("E" + after);
    assert WriteToken(Template(ts)) + after == "I" + inner;
    SkipsList(inner);
  }

  /** What is read alike is read alike at any depth. */
  lemma {:induction false} SamePlugged(around: seq<Around>, tame: bool, a: seq<Token>, b: seq<Token>, after: string)
    requires GoodAround(around, tame) && after != "" && forall x :: x != "" ==> SameReading(a, b, x)
    ensures SameReading(Plug(around, a), Plug(around, b), after)
    decreases |around|
  {
    hide SkipArguments, WriteTokens, WriteToken, GoodToken, TameToken, GoodOuter, AfterList;
    if around == [] {
      assert SameReading(a, b, after);
    } else {
      var further := WriteTokens(around[0].behind) + after;
      var x, y := Plug(around[1..], a), Plug(around[1..], b);
      PlugText(around, a, after);
      PlugText(around, b, after);
      match around[0]
      case InList(_, _) =>
        SamePlugged(around[1..], tame, a, b, "E" + further);
        ListReads(x, further);
        ListReads(y, further);
      case InName(_, outer, name, last, _) =>
        SamePlugged(around[1..], true, a, b, "E" + (WriteComponents(last) + "E" + further));
        NameReads(outer, name, last, x, further);
        NameReads(outer, name, last, y, further);
    }
  }

  /** What is plugged in keeps its kind and its loose ends. */
  lemma {:induction false} PlugKinds(around: seq<Around>, tame: bool, ts: seq<Token>)
    requires GoodAround(around, tame)
    ensures GoodTokens(ts) ==> GoodTokens(Plug(around, ts))
    ensures TameTokens(ts) ==> AllReadable(Plug(around, ts)) && (tame ==> TameTokens(Plug(around, ts)))
    ensures LooseIn(Plug(around, ts)) >= LooseIn(ts)
    decreases |around|
  {
    hide GoodToken, TameToken, Readable, GoodOuter, LooseOf;
    if around == [] {
      if TameTokens(ts) {
        TameAreReadable(ts);
      }
    } else {
      var a := around[0];
      var inner := Plug(around[1..], ts);
      PlugKinds(around[1..], tame || a.InName?, ts);
      HolderKinds(a, tame, inner);
      var t := Holder(a, inner);
      WriteTokensConcat(a.before + [t], a.behind);
      WriteTokensConcat(a.before, [t]);
      OneToken(t);
      GoodAreReadable(a.before);
      GoodAreReadable(a.behind);
    }
  }

  lemma HolderKinds(a: Around, tame: bool, ts: seq<Token>)
    requires a.InName? ==> GoodOuter(a.outer, a.name, a.last)
    ensures GoodTokens(ts) ==> GoodToken(Holder(a, ts))
    ensures AllReadable(ts) && (tame || a.InName? ==> TameTokens(ts)) ==>
              Readable(Holder(a, ts)) && (tame ==> TameToken(Holder(a, ts)))
    ensures LooseOf(Holder(a, ts)) >= LooseIn(ts)
  {
    if a.InName? {
      OuterHolds(a.outer, a.name, a.last, ts);
    }
  }

  lemma OuterHolds(outer: NestedName, name: Name, last: seq<Component>, ts: seq<Token>)
    requires GoodOuter(outer, name, last)
    ensures var t := Nested(outer.(components := outer.components + [Generic(name, ts)] + last));
            && (GoodTokens(ts) ==> GoodToken(t))
            && (TameTokens(ts) ==> TameToken(t) && Readable(t))
            && LooseOf(t) >= LooseIn(ts)
  {
    OuterGood(outer, name, last);
    var n := outer.(components := outer.components + [Generic(name, ts)] + last);
    ComponentsConcat(outer.components + [Generic(name, ts)], last);
    ComponentsConcat(outer.components, [Generic(name, ts)]);
    OneGenericComponent(name, ts);
    if GoodTokens(ts) {
      forall c | c in n.components
        ensures GoodComponent(c)
      {
        assert c in outer.components || c in last || c == Generic(name, ts);
      }
      assert GoodNested(n);
    }
    if TameTokens(ts) {
      forall c | c in n.components
        ensures TameComponent(c) && c.name.Identifier?
      {
        assert c in outer.components || c in last || c == Generic(name, ts);
      }
      assert TameNested(n);
      TameIsReadable(Nested(n));
    }
  }

  lemma {:induction false} GoodAreReadable(ts: seq<Token>)
    requires GoodTokens(ts)
    ensures AllReadable(ts) && LooseIn(ts) == 0
    decreases ts, 1
  {
    if ts != [] {
      GoodIsReadable(ts[0]);
      GoodAreReadable(ts[1..]);
      assert forall t :: t in ts ==> t == ts[0] || t in ts[1..];
    }
  }

  lemma {:induction false} GoodIsReadable(t: Token)
    requires GoodToken(t)
    ensures Readable(t) && LooseOf(t) == 0
    decreases t, 0
  {
    match t
    case Template(args) => GoodAreReadable(args);
    case Nested(nested) => GoodComponentsClosed(nested.components);
    case _ =>
  }

  lemma {:induction false} GoodComponentsClosed(cs: seq<Component>)
    requires GoodComponents(cs)
    ensures LooseInComponents(cs) == 0
    decreases cs, 1
  {
    if cs != [] {
      assert GoodComponent(cs[0]);
      if cs[0].Generic? {
        GoodAreReadable(cs[0].args);
      }
      GoodComponentsClosed(cs[1..]);
    }
  }

  lemma EmptyText()
    ensures WriteTokens([]) == ""
  {
  }

  lemma LetterText(c: char)
    ensures WriteToken(Letter(c)) == [c]
  {
  }

  // ---- counted types ------------------------------------------------------------------------

  /** Some letters and an empty list of arguments. */
  function Lost(k: nat): (ts: seq<Token>)
    ensures GoodTokens(ts)
  {
    if k == 0 then [Template([])] else [Letter('c')] + Lost(k - 1)
  }

  lemma {:induction false} LostText(k: nat, after: string)
    ensures Drop(WriteTokens(Lost(k)) + after, k + 1) == "E" + after
  {
    hide WriteToken, WriteTokens;
    if k == 0 {
      OneToken(Template([]));
      TemplateText([]);
      Single([]);
      EmptyText();
      assert WriteTokens(Lost(0)) + after == "I" + ("E" + after);
    } else {
      LostText(k - 1, after);
      var c: Token := Letter('c');
      LetterText('c');
      WriteTokensConcat([c], Lost(k - 1));
      OneToken(c);
      assert WriteTokens(Lost(k)) + after == ['c'] + (WriteTokens(Lost(k - 1)) + after);
    }
  }

  /** Behind a count of n, the letters and the I are lost, and the E is left as if it closed a pack. */
  lemma CountedAsGroup(prefix: string, n: nat, after: string)
    requires Letters(prefix) && n >= 2
    ensures SameReading([Counted(prefix, n)] + Lost(n - 2), [Group("J", [])], after)
  {
    hide SkipArguments, WriteTokens, Lost;
    LostBehind(prefix, n, after);
    PackBefore(after);
  }

  lemma LostBehind(prefix: string, n: nat, after: string)
    requires Letters(prefix) && n >= 2
    ensures SkipArguments(WriteTokens([Counted(prefix, n)] + Lost(n - 2)) + after) == SkipArguments("E" + after)
  {
    hide SkipArguments, WriteToken, WriteTokens, Lost, Drop, GoodToken;
    var c, lost := Counted(prefix, n), WriteTokens(Lost(n - 2));
    WriteTokensConcat([c], Lost(n - 2));
    OneToken(c);
    assert WriteTokens([c] + Lost(n - 2)) + after == WriteToken(c) + (lost + after);
    CountedLoses(prefix, n, lost + after);
    LostText(n - 2, after);
  }

  lemma PackBefore(after: string)
    ensures SkipArguments(WriteTokens([Group("J", [])]) + after) == SkipArguments("E" + after)
  {
    hide SkipArguments, WriteToken, WriteTokens;
    OneToken(Group("J", []));
    EmptyGroup();
    assert WriteTokens([Group("J", [])]) + after == ['J'] + ("E" + after);
    SkipsLetter('J', "E" + after);
  }

  /** At any depth, a number behind letters is skipped right, whatever arguments follow it, if and only
      if it is at most 1. */
  lemma CountedIff(around: seq<Around>, prefix: string, n: nat)
    requires GoodAround(around, false) && Letters(prefix)
    ensures (forall more, rest :: GoodTokens(more) ==> SkippedRight(Plug(around, [Counted(prefix, n)] + more), rest)) <==> n <= 1
  {
    hide SkipTemplate, SkipArguments, WriteTokens, SameReading, TameTokens, GoodAround;
    if n <= 1 {
      forall more, rest | GoodTokens(more)
        ensures SkippedRight(Plug(around, [Counted(prefix, n)] + more), rest)
      {
        assert GoodToken(Counted(prefix, n));
        PlugKinds(around, false, [Counted(prefix, n)] + more);
        GoodSkipped(Plug(around, [Counted(prefix, n)] + more), rest);
      }
    } else {
      var a, b := [Counted(prefix, n)] + Lost(n - 2), [Group("J", [])];
      forall x | x != ""
        ensures SameReading(a, b, x)
      {
        CountedAsGroup(prefix, n, x);
      }
      SamePlugged(around, false, a, b, "E" + "");
      PackTame();
      PlugKinds(around, false, b);
      SkippedIffNoneLoose(Plug(around, b), "");
      SameSkipped(Plug(around, a), Plug(around, b));
      assert !SkippedRight(Plug(around, [Counted(prefix, n)] + Lost(n - 2)), "");
    }
  }

  lemma GoodSkipped(ts: seq<Token>, rest: string)
    requires GoodTokens(ts)
    ensures SkippedRight(ts, rest)
  {
    hide SkipArguments, SkipTemplate, WriteTokens;
    ListText(ts, rest);
    SkipsTokens(ts, rest);
  }

  lemma PackTame()
    ensures TameTokens([Group("J", [])]) && LooseIn([Group("J", [])]) == 1
  {
    OneToken(Group("J", []));
    assert TameToken(Group("J", []));
  }

  lemma SameSkipped(a: seq<Token>, b: seq<Token>)
    requires SameReading(a, b, "E" + "")
    ensures SkippedRight(a, "") <==> SkippedRight(b, "")
  {
    hide SkipArguments, SkipTemplate, WriteTokens;
    ListText(a, "");
    ListText(b, "");
    assert WriteTokens(a) + "E" + "" == WriteTokens(a) + ("E" + "");
    assert WriteTokens(b) + "E" + "" == WriteTokens(b) + ("E" + "");
  }

  /** For the arguments that do follow: if more is lost than there is, the list is never skipped right,
      and otherwise it is if and only if the loop gets right what is left of them; which it does if
      whole arguments are lost. */
  lemma CountedLanding(prefix: string, n: nat, more: seq<Token>, rest: string)
    requires Letters(prefix) && n >= 1 && GoodTokens(more)
    ensures n - 1 > |WriteTokens(more)| ==> !SkippedRight([Counted(prefix, n)] + more, rest)
    ensures n - 1 <= |WriteTokens(more)| ==>
              (SkippedRight([Counted(prefix, n)] + more, rest) <==> SkipArguments(WriteTokens(more)[n - 1..] + "E" + rest) == Rest(rest))
    ensures forall k :: 0 <= k <= |more| && n - 1 == |WriteTokens(more[..k])| ==> SkippedRight([Counted(prefix, n)] + more, rest)
  {
    hide SkipArguments, SkipTemplate, WriteToken, GoodToken;
    var c := Counted(prefix, n);
    var ts := [c] + more;
    ListText(ts, rest);
    assert ts[1..] == more;
    var after := WriteTokens(more) + "E" + rest;
    assert WriteTokens(ts) + "E" + rest == WriteToken(c) + after;
    CountedLoses(prefix, n, after);
    if n - 1 > |WriteTokens(more)| {
      assert |Drop(after, n - 1)| <= |rest|;
      TooShort(Drop(after, n - 1), rest);
    } else {
      assert Drop(after, n - 1) == WriteTokens(more)[n - 1..] + "E" + rest;
    }
    forall k | 0 <= k <= |more| && n - 1 == |WriteTokens(more[..k])|
      ensures SkippedRight(ts, rest)
    {
      assert more == more[..k] + more[k..];
      WriteTokensConcat(more[..k], more[k..]);
      assert Drop(after, n - 1) == WriteTokens(more[k..]) + "E" + rest;
      SkipsTokens(more[k..], rest);
    }
  }

  lemma TooShort(s: string, rest: string)
    requires |s| <= |rest|
    ensures SkipArguments(s) != Rest(rest)
  {
    hide SkipArguments;
    var r := SkipArguments(s);
    assert r.Rest? ==> ProperSuffix(r.rest, s);
  }
}
