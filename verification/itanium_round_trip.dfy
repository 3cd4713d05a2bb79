/** Nested names as they are mangled, and that taking them apart gives back their parts. */
module ItaniumRoundTrip {
  import opened ItaniumNames

  // ---- nested names and how they are written -----------------------------------------------

  /** An identifier, or the name of a constructor or destructor. */
  datatype Name = Identifier(chars: string) | Special(kind: char, variant: char)

  datatype Component = Plain(name: Name) | Generic(name: Name, args: seq<Token>)

  /** The pieces of template arguments: source names, substitutions, two-letter abbreviations, single
      letters of types, letters with a number and an underscore (the counts of array and vector types
      without the element type, the widths of floating types, the numbers of template parameters and
      unnamed types: A9_, Dv4_, DF16_, T2_, Ut4_), argument lists, nested names, and what is closed by
      an E of its own but opened by other letters than I or N (packs of arguments, J ... E, function
      types, F ... E, functions around local names, Z ... E, lambdas, Ul ... E, types of expressions,
      DT ... E and Dt ... E, and calls and lists in these). */
  datatype Token = Source(chars: string) | Substitution(id: string) | Pair(first: char, letter: char) | Letter(c: char)
                 | Counted(prefix: string, n: nat) | Template(args: seq<Token>) | Nested(nested: NestedName)
                 | Group(open: string, members: seq<Token>)

  /** A nested name may begin with a standard abbreviation, such as St for namespace std. */
  datatype NestedName = NestedName(substitution: Option<string>, qualifiers: string, std: Option<char>, components: seq<Component>)

  predicate GoodIdentifier(chars: string) {
    chars != "" && !('0' <= chars[0] <= '9')
  }

  predicate GoodId(id: string) {
    forall c :: c in id ==> 'A' <= c <= 'Z' || '0' <= c <= '9'
  }

  predicate GoodName(n: Name) {
    match n
    case Identifier(chars) => GoodIdentifier(chars)
    case Special(kind, variant) => kind in "CD" && variant in "123"
  }

  /** A letter, or another sign, that is passed over on its own. */
  predicate Passed(c: char) {
    !('0' <= c <= '9') && c !in "SINLXE"
  }

  predicate Letters(s: string) {
    s != "" && forall c :: c in s ==> Passed(c)
  }

  /** The tokens that are skipped as they are meant. */
  predicate GoodToken(t: Token) {
    match t
    case Source(chars) => GoodIdentifier(chars)
    case Substitution(id) => GoodId(id)
    case Pair(first, letter) => first in "SD" && 'a' <= letter <= 'z'
    case Letter(c) => Passed(c)
    case Counted(prefix, n) => Letters(prefix) && n <= 1
    case Template(args) => GoodTokens(args)
    case Nested(nested) => if nested.std == None then GoodNested(nested) else GoodStd(nested)
    case Group(_, _) => false
  }

  predicate GoodTokens(ts: seq<Token>) {
    forall t :: t in ts ==> GoodToken(t)
  }

  predicate GoodComponent(c: Component) {
    GoodName(c.name) && (c.Generic? ==> GoodTokens(c.args))
  }

  predicate GoodComponents(cs: seq<Component>) {
    forall c :: c in cs ==> GoodComponent(c)
  }

  predicate GoodPrefix(n: NestedName) {
    && (n.substitution.Some? ==> GoodId(n.substitution.value))
    && (forall c :: c in n.qualifiers ==> c in "rVKRO")
    && (n.std.Some? ==> 'a' <= n.std.value <= 'z')
  }

  predicate GoodNested(n: NestedName) {
    GoodPrefix(n) && n.std == None && GoodComponents(n.components)
  }

  /** What begins with an abbreviation is read up to the next E, as one name. */
  predicate GoodStd(n: NestedName) {
    GoodPrefix(n) && n.std.Some? && forall c :: c in n.components ==> WithoutE(c)
  }

  predicate WithoutE(c: Component) {
    c.Plain? && c.name.Identifier? && GoodName(c.name) && 'E' !in c.name.chars
  }

  function Decimal(n: nat): (s: string)
    ensures s != "" && (forall c :: c in s ==> Digit(c)) && Number(s) == n
  {
    var last := ('0' as int + n % 10) as char;
    if n < 10 then [last]
    else
      var s := Decimal(n / 10) + [last];
      assert s[..|s| - 1] == Decimal(n / 10);
      s
  }

  function WriteSource(chars: string): string {
    Decimal(|chars|) + chars
  }

  function WriteName(n: Name): string {
    match n
    case Identifier(chars) => WriteSource(chars)
    case Special(kind, variant) => [kind, variant]
  }

  function WriteToken(t: Token): string {
    match t
    case Source(chars) => WriteSource(chars)
    case Substitution(id) => "S" + id + "_"
    case Pair(first, letter) => [first, letter]
    case Letter(c) => [c]
    case Counted(prefix, n) => prefix + Decimal(n) + "_"
    case Template(args) => "I" + WriteTokens(args) + "E"
    case Nested(nested) => WriteNested(nested)
    case Group(open, members) => open + WriteTokens(members) + "E"
  }

  function WriteTokens(ts: seq<Token>): string {
    if ts == [] then "" else WriteToken(ts[0]) + WriteTokens(ts[1..])
  }

  function WriteComponent(c: Component): string {
    WriteName(c.name) + if c.Generic? then "I" + WriteTokens(c.args) + "E" else ""
  }

  function WriteComponents(cs: seq<Component>): string {
    if cs == [] then "" else WriteComponent(cs[0]) + WriteComponents(cs[1..])
  }

  function WriteStd(n: NestedName): string {
    if n.std.Some? then ['S', n.std.value] else ""
  }

  function WriteNested(n: NestedName): string {
    "N" + (if n.substitution.Some? then "S" + n.substitution.value + "_" else "") + n.qualifiers + WriteStd(n) +
    WriteComponents(n.components) + "E"
  }

  /** What the parser should find. */
  function NamesOf(cs: seq<Component>): Names {
    if cs == [] then [] else [(WriteName(cs[0].name), cs[0].Generic?)] + NamesOf(cs[1..])
  }

  // ---- the regular expressions on what is written ------------------------------------------

  lemma {:induction false} RunAt(s: string, inClass: char -> bool, n: nat)
    requires n < |s| && !inClass(s[n]) && forall k :: 0 <= k < n ==> inClass(s[k])
    ensures RunOf(s, inClass) == n && Leaving(s, inClass) == n
  {
  }

  lemma TakeDrop(a: string, b: string)
    ensures Take(a + b, |a|) == a && Drop(a + b, |a|) == b
  {
  }

  lemma NumberMatches(digits: string, after: string)
    requires digits != "" && (forall c :: c in digits ==> Digit(c)) && after != "" && !Digit(after[0])
    ensures MatchNumber(digits + after) == Some((digits, after))
  {
    hide RunOf, Leaving;
    var s := digits + after;
    assert s[|digits|] == after[0];
    forall k | 0 <= k < |digits|
      ensures Digit(s[k])
    {
      assert s[k] == digits[k] && digits[k] in digits;
    }
    RunAt(s, Digit, |digits|);
    assert s[..|digits|] == digits && s[|digits|..] == after;
  }

  /** A written source name is read up to its end, when something follows. */
  lemma SourceMatches(chars: string, rest: string)
    requires GoodIdentifier(chars)
    ensures MatchNumber(WriteSource(chars) + rest) == Some((Decimal(|chars|), chars + rest))
    ensures Drop(chars + rest, |chars|) == rest && Take(chars + rest, |chars|) == chars
  {
    hide Number, Decimal, MatchNumber, Take, Drop;
    assert WriteSource(chars) + rest == Decimal(|chars|) + (chars + rest);
    NumberMatches(Decimal(|chars|), chars + rest);
    TakeDrop(chars, rest);
  }

  lemma NoNumber(s: string)
    requires s != "" && !Digit(s[0])
    ensures MatchNumber(s) == None
  {
    RunAt(s, Digit, 0);
  }

  lemma SubstitutionMatches(id: string, rest: string)
    requires GoodId(id) && rest != ""
    ensures MatchSubstitution("S" + id + "_" + rest) == Some(rest)
  {
    var s := "S" + id + "_" + rest;
    assert s[1..] == id + "_" + rest;
    assert s[1..][|id|] == '_';
    assert forall k :: 0 <= k < |id| ==> s[1..][k] == id[k] && id[k] in id;
    RunAt(s[1..], SeqId, |id|);
    assert s[|id| + 2..] == rest;
  }

  lemma NoSubstitution(s: string)
    requires s != "" && s[0] != 'S'
    ensures MatchSubstitution(s) == None
  {
  }

  lemma StdIsNoSubstitution(letter: char, rest: string)
    requires 'a' <= letter <= 'z'
    ensures MatchSubstitution(['S', letter] + rest) == None
  {
    var s := ['S', letter] + rest;
    assert s[1..][0] == letter;
    RunAt(s[1..], SeqId, 0);
  }

  // ---- one step of the loop over arguments ---------------------------------------------------

  lemma EndsList(s: string)
    ensures SkipArguments("E" + s) == Rest(s)
  {
    hide SkipTemplate, ParseNested, MatchNumber, MatchSubstitution;
    NoNumber("E" + s);
    NoSubstitution("E" + s);
    assert ("E" + s)[1..] == s;
  }

  lemma SkipsList(s: string)
    ensures SkipArguments("I" + s) == match SkipArguments(s) case Rest(r) => SkipArguments(r) case other => other
  {
    hide ParseNested, MatchNumber, MatchSubstitution;
    NoNumber("I" + s);
    NoSubstitution("I" + s);
    assert ("I" + s)[1..] == s;
  }

  lemma SkipsNested(s: string)
    requires s != "" && s[0] == 'N'
    ensures SkipArguments(s) == match ParseNested(s)
                                case Parsed(_, rest) => SkipArguments(rest)
                                case NotParsed => NoEnd
                                case TooComplexName => TooComplexArgument
  {
    hide SkipTemplate, ParseNested, MatchNumber, MatchSubstitution;
    NoNumber(s);
    NoSubstitution(s);
  }

  lemma SkipsNumber(s: string, digits: string, after: string)
    requires s != "" && MatchNumber(s) == Some((digits, after)) && forall c :: c in digits ==> Digit(c)
    ensures SkipArguments(s) == SkipArguments(Drop(after, Number(digits)))
  {
    hide MatchSubstitution, ParseNested, SkipTemplate, Number, MatchNumber, Drop;
  }

  lemma SkipsSubstitution(s: string, after: string)
    requires s != "" && s[0] == 'S' && MatchSubstitution(s) == Some(after)
    ensures SkipArguments(s) == SkipArguments(after)
  {
    hide MatchSubstitution, MatchNumber, ParseNested, SkipTemplate;
    NoNumber(s);
  }

  // ---- template arguments ------------------------------------------------------------------

  /** The argument loop passes over what was written for the tokens, to the E that ends them. */
  lemma {:induction false} SkipsTokens(ts: seq<Token>, rest: string)
    requires GoodTokens(ts)
    ensures SkipArguments(WriteTokens(ts) + "E" + rest) == Rest(rest)
    decreases ts, 1
  {
    hide SkipArguments, WriteToken, GoodToken;
    if ts == [] {
      assert WriteTokens(ts) + "E" + rest == "E" + rest;
      EndsList(rest);
    } else {
      var after := WriteTokens(ts[1..]) + "E" + rest;
      assert WriteTokens(ts) + "E" + rest == WriteToken(ts[0]) + after;
      assert GoodToken(ts[0]);
      SkipsToken(ts[0], after);
      SkipsTokens(ts[1..], rest);
    }
  }

  lemma {:induction false} SkipsToken(t: Token, after: string)
    requires GoodToken(t) && after != ""
    ensures SkipArguments(WriteToken(t) + after) == SkipArguments(after)
    decreases t, 0
  {
    hide SkipArguments;
    match t
    case Source(chars) => SkipsSource(chars, after);
    case Substitution(id) =>
      var s := "S" + id + "_" + after;
      SubstitutionMatches(id, after);
      assert WriteToken(t) + after == s;
      SkipsSubstitution(s, after);
    case Pair(first, letter) => SkipsPair(first, letter, after);
    case Letter(c) => SkipsLetter(c, after);
    case Counted(prefix, n) => CountedLoses(prefix, n, after);
    case Template(args) =>
      SkipsTokens(args, after);
      TemplateSkipped(args, after);
    case Nested(nested) =>
      if nested.std == None {
        ParsesNested(nested, after);
      } else {
        ParsesStd(nested, after);
      }
      NestedSkipped(nested, after);
  }

  lemma SkipsSource(chars: string, after: string)
    requires GoodIdentifier(chars)
    ensures SkipArguments(WriteSource(chars) + after) == SkipArguments(after)
  {
    hide SkipArguments, MatchNumber, Decimal, Number, Drop;
    SourceMatches(chars, after);
    SkipsNumber(WriteSource(chars) + after, Decimal(|chars|), chars + after);
  }

  lemma TemplateSkipped(args: seq<Token>, after: string)
    requires SkipArguments(WriteTokens(args) + "E" + after) == Rest(after)
    ensures SkipArguments(WriteToken(Template(args)) + after) == SkipArguments(after)
  {
    hide SkipArguments, WriteTokens;
    var list := WriteTokens(args) + "E" + after;
    assert WriteToken(Template(args)) + after == "I" + list;
    SkipsList(list);
  }

  lemma NestedSkipped(n: NestedName, after: string)
    requires ParseNested(WriteNested(n) + after).Parsed? && ParseNested(WriteNested(n) + after).rest == after
    ensures SkipArguments(WriteToken(Nested(n)) + after) == SkipArguments(after)
  {
    hide SkipArguments, ParseNested, WriteComponents;
    SkipsNested(WriteNested(n) + after);
  }

  lemma SkipsLetter(c: char, after: string)
    requires Passed(c)
    ensures SkipArguments([c] + after) == SkipArguments(after)
  {
    hide MatchNumber, MatchSubstitution, RunOf, Leaving, ParseNested, SkipTemplate, Number;
    var s := [c] + after;
    NoNumber(s);
    NoSubstitution(s);
    assert s[1..] == after;
  }

  lemma {:induction false} LettersSkipped(letters: string, after: string)
    requires forall c :: c in letters ==> Passed(c)
    ensures SkipArguments(letters + after) == SkipArguments(after)
    decreases |letters|
  {
    hide SkipArguments;
    if letters == "" {
      assert letters + after == after;
    } else {
      assert letters + after == [letters[0]] + (letters[1..] + after);
      SkipsLetter(letters[0], letters[1..] + after);
      LettersSkipped(letters[1..], after);
    }
  }

  lemma SkipsPair(first: char, letter: char, after: string)
    requires first in "SD" && 'a' <= letter <= 'z'
    ensures SkipArguments([first, letter] + after) == SkipArguments(after)
  {
    hide SkipTemplate, ParseNested, RunOf, Leaving, MatchNumber, Number;
    var s := [first, letter] + after;
    NoNumber(s);
    if first == 'S' {
      StdIsNoSubstitution(letter, after);
    } else {
      NoSubstitution(s);
    }
    assert s[1..] == [letter] + after;
    SkipsLetter(letter, after);
  }

  /** A number behind letters is taken for the length of a name. A number n loses the n - 1 characters
      that follow its underscore; 0 and 1 do no harm. */
  lemma CountedLoses(prefix: string, n: nat, after: string)
    requires Letters(prefix)
    ensures SkipArguments(WriteToken(Counted(prefix, n)) + after) == SkipArguments(if n == 0 then after else Drop(after, n - 1))
  {
    hide SkipArguments, Decimal, Number, MatchNumber;
    var digits := Decimal(n);
    var number := digits + ("_" + after);
    assert WriteToken(Counted(prefix, n)) + after == prefix + number;
    LettersSkipped(prefix, number);
    NumberMatches(digits, "_" + after);
    SkipsNumber(number, digits, "_" + after);
    LengthLost(n, after);
  }

  lemma LengthLost(n: nat, after: string)
    ensures SkipArguments(Drop("_" + after, n)) == SkipArguments(if n == 0 then after else Drop(after, n - 1))
  {
    hide SkipArguments;
    if n == 0 {
      assert "_" + after == ['_'] + after;
      SkipsLetter('_', after);
    } else {
      assert Drop("_" + after, n) == Drop(after, n - 1);
    }
  }

  /** char[9] as the only argument: the E that ends the list is lost, and the list has no end. */
  lemma ArrayLosesEnd()
    ensures SkipTemplate("IA9_cE") == NoEnd
  {
    hide SkipArguments;
    var c := Counted("A", 9);
    assert Decimal(9) == "9";
    assert WriteToken(c) == "A9_";
    CountedLoses("A", 9, "cE");
    assert "IA9_cE"[1..] == "A9_" + "cE";
    NothingSkipped();
  }

  /** _Float16 and an unnamed type as the only arguments: the same. */
  lemma WidthLosesEnd()
    ensures SkipTemplate("IDF16_E") == NoEnd && SkipTemplate("IUt4_iE") == NoEnd
  {
    hide SkipArguments;
    assert Decimal(16) == "16" && Decimal(4) == "4";
    assert WriteToken(Counted("DF", 16)) == "DF16_" && WriteToken(Counted("Ut", 4)) == "Ut4_";
    CountedLoses("DF", 16, "E");
    CountedLoses("Ut", 4, "iE");
    assert "IDF16_E"[1..] == "DF16_" + "E" && "IUt4_iE"[1..] == "Ut4_" + "iE";
    NothingSkipped();
  }

  lemma NothingSkipped()
    ensures SkipArguments("") == NoEnd
  {
  }

  /** A pack or a function type is not taken apart: its E is taken for the end of the whole list,
      which is left over. */
  lemma GroupEndsList(open: string, ts: seq<Token>, rest: string)
    requires GoodTokens(ts) && Letters(open)
    ensures SkipTemplate("I" + (WriteToken(Group(open, ts)) + rest)) == Rest(rest)
  {
    hide SkipArguments;
    var list := open + (WriteTokens(ts) + "E" + rest);
    assert ("I" + (WriteToken(Group(open, ts)) + rest))[1..] == list;
    LettersSkipped(open, WriteTokens(ts) + "E" + rest);
    SkipsTokens(ts, rest);
  }

  lemma OneLetterMore(c: char, ts: seq<Token>)
    ensures WriteTokens([Letter(c)] + ts) == [c] + WriteTokens(ts)
    ensures [Letter(c)] + [] == [Letter(c)] && WriteTokens([]) == ""
  {
    assert ([Letter(c)] + ts)[1..] == ts;
  }

  /** A pointer to a function without arguments that returns nothing, as the only argument. */
  lemma FunctionEndsList()
    ensures SkipTemplate("IPFvvEE") == Rest("E")
  {
    hide SkipArguments, WriteTokens;
    var ts := [Letter('v')] + [Letter('v')];
    OneLetterMore('v', [Letter('v')]);
    OneLetterMore('v', []);
    assert WriteTokens(ts) == ['v'] + ['v'] == "vv";
    assert "IPFvvEE"[1..] == ['P'] + "FvvEE";
    SkipsLetter('P', "FvvEE");
    assert "I" + (WriteToken(Group("F", ts)) + "E") == "IFvvEE";
    GroupEndsList("F", ts, "E");
    assert "IFvvEE"[1..] == "FvvEE";
  }

  /** The type of an expression as the only argument. */
  lemma DecltypeEndsList()
    ensures SkipTemplate("IDTfp_EE") == Rest("E")
  {
    hide SkipArguments, WriteTokens;
    var ts := [Letter('f')] + ([Letter('p')] + [Letter('_')]);
    OneLetterMore('f', [Letter('p')] + [Letter('_')]);
    OneLetterMore('p', [Letter('_')]);
    OneLetterMore('_', []);
    assert WriteTokens(ts) == ['f'] + (['p'] + ['_']) == "fp_";
    assert "I" + (WriteToken(Group("DT", ts)) + "E") == "IDTfp_EE";
    GroupEndsList("DT", ts, "E");
  }

  // ---- nested names ------------------------------------------------------------------------

  lemma ParsesName(n: Name, after: string)
    requires GoodName(n) && after != ""
    ensures ParseName(WriteName(n) + after) == Some((WriteName(n), after))
  {
    var s := WriteName(n) + after;
    match n
    case Identifier(chars) =>
      SourceMatches(chars, after);
    case Special(kind, variant) =>
      NoNumber(s);
      assert s[..2] == WriteName(n) && s[2..] == after;
  }

  lemma {:induction false} ParsesComponents(cs: seq<Component>, ret: Names, rest: string)
    requires GoodComponents(cs)
    ensures ParseComponents(WriteComponents(cs) + "E" + rest, ret) == Parsed(ret + NamesOf(cs), rest)
    decreases cs, 1
  {
    hide ParseComponents, WriteComponent;
    if cs == [] {
      assert WriteComponents(cs) + "E" + rest == "E" + rest;
      assert ret + NamesOf(cs) == ret;
      ParsesEnd(ret, rest);
    } else {
      var c, after := cs[0], WriteComponents(cs[1..]) + "E" + rest;
      assert WriteComponents(cs) + "E" + rest == WriteComponent(c) + after;
      assert GoodComponent(c);
      NoTemplateAhead(cs[1..], rest);
      ParsesComponent(c, ret, after);
      var more := ret + [(WriteName(c.name), c.Generic?)];
      ParsesComponents(cs[1..], more, rest);
      assert more + NamesOf(cs[1..]) == ret + NamesOf(cs);
    }
  }

  lemma ParsesEnd(ret: Names, rest: string)
    ensures ParseComponents("E" + rest, ret) == Parsed(ret, rest)
  {
    assert ("E" + rest)[1..] == rest;
  }

  /** What follows a component does not look like template arguments. */
  lemma NoTemplateAhead(cs: seq<Component>, rest: string)
    requires GoodComponents(cs)
    ensures var s := WriteComponents(cs) + "E" + rest; s != "" && s[0] != 'I'
  {
    if cs != [] {
      assert GoodComponent(cs[0]);
      NameStart(cs[0].name);
    }
  }

  lemma NameStart(n: Name)
    requires GoodName(n)
    ensures WriteName(n) != "" && (Digit(WriteName(n)[0]) || WriteName(n)[0] in "CD")
  {
    if n.Identifier? {
      var d := Decimal(|n.chars|);
      assert d[0] in d;
    }
  }

  lemma {:induction false} ParsesComponent(c: Component, ret: Names, after: string)
    requires GoodComponent(c) && after != "" && after[0] != 'I'
    ensures ParseComponents(WriteComponent(c) + after, ret) == ParseComponents(after, ret + [(WriteName(c.name), c.Generic?)])
    decreases c, 0
  {
    hide ParseComponents, SkipArguments, WriteName, ParseName;
    match c
    case Plain(name) =>
      assert WriteComponent(c) + after == WriteName(name) + after;
      OneComponent(name, after, ret);
    case Generic(name, args) =>
      var list := "I" + (WriteTokens(args) + "E" + after);
      assert WriteComponent(c) + after == WriteName(name) + list;
      OneComponent(name, list, ret);
      SkipsTokens(args, after);
      assert list[1..] == WriteTokens(args) + "E" + after;
  }

  lemma OneComponent(name: Name, after: string, ret: Names)
    requires GoodName(name) && after != ""
    ensures ParseComponents(WriteName(name) + after, ret) ==
            if after[0] != 'I' then ParseComponents(after, ret + [(WriteName(name), false)])
            else match SkipTemplate(after)
                 case Rest(rest) => ParseComponents(rest, ret + [(WriteName(name), true)])
                 case NoEnd => NotParsed
                 case TooComplexArgument => TooComplexName
  {
    hide ParseName, SkipTemplate, WriteName;
    NameStart(name);
    ParsesName(name, after);
  }

  /** Every nested name, with anything after it, is taken apart into the names it was put
      together from, and what follows is left. */
  lemma {:induction false} ParsesNested(n: NestedName, rest: string)
    requires GoodNested(n)
    ensures ParseNested(WriteNested(n) + rest) == Parsed(NamesOf(n.components), rest)
    decreases n, 0
  {
    hide RunOf, Leaving, MatchSubstitution, AfterPrefix;
    var body := WriteComponents(n.components) + "E" + rest;
    assert WriteNested(n) + rest == "N" + WritePrefix(n) + body;
    assert forall c :: c in n.components ==> GoodComponent(c);
    ComponentsStart(n.components, rest);
    PassesPrefix(n, body);
    ParsesComponents(n.components, [], rest);
    assert [] + NamesOf(n.components) == NamesOf(n.components);
  }

  function WritePrefix(n: NestedName): string {
    (if n.substitution.Some? then "S" + n.substitution.value + "_" else "") + n.qualifiers
  }

  /** The first component, or the closing E, is no qualifier and starts no substitution. */
  lemma ComponentsStart(cs: seq<Component>, rest: string)
    requires forall c :: c in cs ==> GoodName(c.name)
    ensures StartsNames(WriteComponents(cs) + "E" + rest)
  {
    if cs != [] {
      NameStart(cs[0].name);
    }
  }

  /** Neither a qualifier nor a substitution comes first. */
  predicate StartsNames(body: string) {
    body != "" && !Qualifier(body[0]) && (body[0] == 'S' ==> |body| > 1 && 'a' <= body[1] <= 'z')
  }

  lemma NoSubstitutionYet(body: string)
    requires StartsNames(body)
    ensures MatchSubstitution(body) == None
  {
    if body[0] == 'S' {
      StdIsNoSubstitution(body[1], body[2..]);
      assert body == ['S', body[1]] + body[2..];
    }
  }

  lemma PassesPrefix(n: NestedName, body: string)
    requires GoodPrefix(n) && StartsNames(body)
    ensures AfterPrefix("N" + WritePrefix(n) + body) == body
  {
    hide RunOf;
    var arg := "N" + WritePrefix(n) + body;
    QualifiersPass(n.qualifiers, body);
    var tail := n.qualifiers + body;
    if n.substitution.Some? {
      assert arg[1..] == "S" + n.substitution.value + "_" + tail;
      SubstitutionMatches(n.substitution.value, tail);
    } else {
      assert arg[1..] == tail;
      if n.qualifiers == "" {
        assert tail == body;
        NoSubstitutionYet(body);
      } else {
        assert n.qualifiers[0] in n.qualifiers;
        NoSubstitution(tail);
      }
    }
  }

  lemma QualifiersPass(qualifiers: string, body: string)
    requires (forall c :: c in qualifiers ==> Qualifier(c)) && body != "" && !Qualifier(body[0])
    ensures Leaving(qualifiers + body, Qualifier) == |qualifiers| && (qualifiers + body)[|qualifiers|..] == body
  {
    var s := qualifiers + body;
    forall k | 0 <= k < |qualifiers|
      ensures Qualifier(s[k])
    {
      assert s[k] == qualifiers[k] && qualifiers[k] in qualifiers;
    }
    assert s[|qualifiers|] == body[0];
    RunAt(s, Qualifier, |qualifiers|);
  }

  // ---- names that begin with an abbreviation -------------------------------------------------

  lemma ReadsName(s: string, name: string, after: string, ret: Names)
    requires s != "" && s[0] != 'E' && ParseName(s) == Some((name, after)) && after != ""
    ensures ParseComponents(s, ret) ==
            if after[0] != 'I' then ParseComponents(after, ret + [(name, false)])
            else match SkipTemplate(after)
                 case Rest(rest) => ParseComponents(rest, ret + [(name, true)])
                 case NoEnd => NotParsed
                 case TooComplexArgument => TooComplexName
  {
    hide ParseName, SkipTemplate;
  }

  /** What starts no other name is taken up to the next E, as if it were an operator's. */
  lemma ReadsOperator(s: string, n: nat)
    requires 0 < n < |s| && s[n] == 'E' && 'E' !in s[..n] && !Digit(s[0])
    requires !(s[0] in "CD" && n > 1 && s[1] in "123")
    ensures ParseName(s) == Some((s[..n], s[n..]))
  {
    hide RunOf, Leaving;
    NoNumber(s);
    assert MatchSpecial(s) == None;
    forall k | 0 <= k < n
      ensures s[k] != 'E'
    {
      assert s[k] == s[..n][k] && s[..n][k] in s[..n];
    }
    RunAt(s, c => c != 'E', n);
    OperatorMatches(s, n);
  }

  lemma OperatorMatches(s: string, n: nat)
    requires 0 < n < |s| && Leaving(s, c => c != 'E') == n
    ensures MatchOperator(s) == Some((s[..n], s[n..]))
  {
  }

  lemma {:induction false} NoEWritten(cs: seq<Component>)
    requires forall c :: c in cs ==> WithoutE(c)
    ensures 'E' !in WriteComponents(cs)
  {
    if cs != [] {
      assert WithoutE(cs[0]);
      assert forall c :: c in Decimal(|cs[0].name.chars|) ==> Digit(c);
      NoEWritten(cs[1..]);
    }
  }

  /** A nested name that begins with an abbreviation and has no arguments is read to its end, but as
      one name. */
  lemma ParsesStd(n: NestedName, rest: string)
    requires GoodStd(n)
    ensures ParseNested(WriteNested(n) + rest) == Parsed([(WriteStd(n) + WriteComponents(n.components), false)], rest)
  {
    hide WriteComponents, ParseComponents, ParseName, AfterPrefix;
    var name := WriteStd(n) + WriteComponents(n.components);
    var body := name + ("E" + rest);
    NoEWritten(n.components);
    assert body[..|name|] == name && body[|name|..] == "E" + rest;
    PassesPrefix(n, body);
    assert WriteNested(n) + rest == "N" + WritePrefix(n) + body;
    ReadsOperator(body, |name|);
    ReadsName(body, name, "E" + rest, []);
    ParsesEnd([(name, false)], rest);
    assert [] + [(name, false)] == [(name, false)];
  }
}
