/** abtest.py: taking functions out of an assembly file and putting others in their place. */
module AbTestFunctions {

  type Name = string

  /** A line with a marker for the begin or the end of a function, or another one. */
  datatype Line = Begin(name: Name, text: string) | End(text: string) | Other(text: string)

  datatype Option<T> = None | Some(value: T)

  /** An end before any begin has no text to add to, which is an error. */
  datatype Extracted = Functions(all: seq<(Option<Name>, seq<Line>)>) | NoText

  // ---- the loops, line by line ---------------------------------------------------------------

  datatype ExtractState = Reading(found: seq<(Option<Name>, seq<Line>)>, inFunction: Option<Name>, text: Option<seq<Line>>) | Failed

  function ExtractLine(s: ExtractState, line: Line): ExtractState {
    if s.Failed? then s
    else match line
      case Begin(name, _) => s.(inFunction := Some(name), text := Some([line]))
      case End(_) =>
        if s.text == None then Failed
        else
          var text := s.text.value + [line];
          Reading(s.found + [(s.inFunction, text)], None, Some(text))
      case Other(_) =>
        if s.inFunction == None || s.text == None then s else s.(text := Some(s.text.value + [line]))
  }

  function ExtractAll(s: ExtractState, lines: seq<Line>): ExtractState
    decreases |lines|
  {
    if lines == [] then s else ExtractAll(ExtractLine(s, lines[0]), lines[1..])
  }

  /** Line i is an end marker with no begin marker before it. */
  predicate EndsAt(lines: seq<Line>, i: nat)
    requires i < |lines|
  {
    lines[i].End? && forall j :: 0 <= j < i ==> !lines[j].Begin?
  }

  /** An end marker comes before any begin marker. */
  predicate EndsFirst(lines: seq<Line>) {
    exists i :: 0 <= i < |lines| && EndsAt(lines, i)
  }

  lemma {:induction false} FailsIfEndsFirst(found: seq<(Option<Name>, seq<Line>)>, lines: seq<Line>)
    ensures ExtractAll(Reading(found, None, None), lines) == Failed <==> EndsFirst(lines)
    decreases |lines|
  {
    if lines != [] {
      var rest := lines[1..];
      assert forall k :: 0 <= k < |rest| ==> rest[k] == lines[k + 1];
      match lines[0]
      case Begin(name, _) =>
        assert !EndsFirst(lines);
        TextNeverFails(Reading(found, Some(name), Some([lines[0]])), rest);
      case End(_) =>
        FailedStays(rest);
        assert EndsAt(lines, 0);
      case Other(_) =>
        FailsIfEndsFirst(found, rest);
        if EndsFirst(rest) {
          var i :| 0 <= i < |rest| && EndsAt(rest, i);
          assert forall j :: 0 < j < i + 1 ==> lines[j] == rest[j - 1];
          assert EndsAt(lines, i + 1);
        }
        if EndsFirst(lines) {
          var i :| 0 <= i < |lines| && EndsAt(lines, i);
          assert EndsAt(rest, i - 1);
        }
    }
  }

  lemma {:induction false} TextNeverFails(s: ExtractState, lines: seq<Line>)
    requires s.Reading? && s.text.Some?
    ensures ExtractAll(s, lines).Reading?
    decreases |lines|
  {
    if lines != [] {
      TextNeverFails(ExtractLine(s, lines[0]), lines[1..]);
    }
  }

  /** extract_functions. */
  method ExtractFunctions(lines: seq<Line>) returns (r: Extracted)
    ensures r.NoText? <==> EndsFirst(lines)
    ensures match ExtractAll(Reading([], None, None), lines)
            case Failed => r == NoText
            case Reading(found, _, _) => r == Functions(found)
  {
    FailsIfEndsFirst([], lines);
    var functions: seq<(Option<Name>, seq<Line>)> := [];
    var inFunction, text := None, None;
    assert lines[0..] == lines;
    for i := 0 to |lines|
      invariant inFunction.Some? ==> text.Some?
      invariant ExtractAll(Reading([], None, None), lines) == ExtractAll(Reading(functions, inFunction, text), lines[i..])
    {
      var line := lines[i];
      match line {
        case Begin(name, _) =>
          inFunction, text := Some(name), Some([line]);
        case End(_) =>
          if text == None {
            FailedStays(lines[i + 1..]);
            return NoText;
          }
          text := Some(text.value + [line]);
          functions := functions + [(inFunction, text.value)];
          inFunction := None;
        case Other(_) =>
          if inFunction.Some? {
            text := Some(text.value + [line]);
          }
      }
    }
    return Functions(functions);
  }

  lemma {:induction false} FailedStays(lines: seq<Line>)
    ensures ExtractAll(Failed, lines) == Failed
  {
    if lines != [] {
      FailedStays(lines[1..]);
    }
  }

  datatype ReplaceState = Writing(out: seq<Line>, skip: bool)

  function ReplaceLine(s: ReplaceState, line: Line, replacements: map<Name, seq<Line>>): ReplaceState {
    if line.Begin? && line.name in replacements then Writing(s.out + replacements[line.name], true)
    else if line.End? && s.skip then s.(skip := false)
    else if s.skip then s
    else s.(out := s.out + [line])
  }

  function ReplaceAll(s: ReplaceState, lines: seq<Line>, replacements: map<Name, seq<Line>>): ReplaceState
    decreases |lines|
  {
    if lines == [] then s else ReplaceAll(ReplaceLine(s, lines[0], replacements), lines[1..], replacements)
  }

  predicate Replaced(line: Line, replacements: map<Name, seq<Line>>) {
    line.Begin? && line.name in replacements
  }

  /** Line j begins a replaced function, and no end marker follows before place i. */
  predicate Covers(source: seq<Line>, replacements: map<Name, seq<Line>>, j: nat, i: nat)
    requires j < i <= |source|
  {
    Replaced(source[j], replacements) && forall m :: j < m < i ==> !source[m].End?
  }

  /** The begin of a replaced function comes before place i, with no end marker between. */
  predicate Within(source: seq<Line>, replacements: map<Name, seq<Line>>, i: nat)
    requires i <= |source|
  {
    exists j :: 0 <= j < i && Covers(source, replacements, j, i)
  }

  /** What is written for line i, whatever the file looks like: a replacement for the begin of a
      replaced function, nothing within one, and the line itself elsewhere. */
  function Written(source: seq<Line>, replacements: map<Name, seq<Line>>, i: nat): seq<Line>
    requires i < |source|
  {
    if Replaced(source[i], replacements) then replacements[source[i].name]
    else if Within(source, replacements, i) then []
    else [source[i]]
  }

  function AllWritten(source: seq<Line>, replacements: map<Name, seq<Line>>, n: nat): seq<Line>
    requires n <= |source|
  {
    if n == 0 then [] else AllWritten(source, replacements, n - 1) + Written(source, replacements, n - 1)
  }

  /** replace_functions. */
  method ReplaceFunctions(source: seq<Line>, replacements: map<Name, seq<Line>>) returns (out: seq<Line>)
    ensures out == AllWritten(source, replacements, |source|)
    ensures out == ReplaceAll(Writing([], false), source, replacements).out
  {
    out := [];
    var skip := false;
    assert source[0..] == source;
    for i := 0 to |source|
      invariant out == AllWritten(source, replacements, i) && skip == Within(source, replacements, i)
      invariant ReplaceAll(Writing([], false), source, replacements) == ReplaceAll(Writing(out, skip), source[i..], replacements)
    {
      var line := source[i];
      NextWithin(source, replacements, i);
      if line.Begin? {
        if line.name in replacements {
          out := out + replacements[line.name];
          skip := true;
        }
      } else if line.End? {
        if skip {
          skip := false;
          continue;
        }
      }
      if !skip {
        out := out + [line];
      } else if !Replaced(line, replacements) {
        assert out + [] == out;
      }
    }
  }

  lemma NextWithin(source: seq<Line>, replacements: map<Name, seq<Line>>, i: nat)
    requires i < |source|
    ensures Within(source, replacements, i + 1) <==>
            Replaced(source[i], replacements) || (Within(source, replacements, i) && !source[i].End?)
  {
    if Within(source, replacements, i) && !source[i].End? {
      var j :| 0 <= j < i && Covers(source, replacements, j, i);
      assert Covers(source, replacements, j, i + 1);
    }
    if Replaced(source[i], replacements) {
      assert Covers(source, replacements, i, i + 1);
    }
    if Within(source, replacements, i + 1) && !Replaced(source[i], replacements) {
      var j :| 0 <= j < i + 1 && Covers(source, replacements, j, i + 1);
      assert Covers(source, replacements, j, i);
    }
  }

  // ---- files ---------------------------------------------------------------------------------

  /** A line outside all functions, or a whole function. */
  datatype Item = Between(text: string) | Function(name: Name, begin: string, body: seq<string>, end: string)

  function Plain(body: seq<string>): seq<Line> {
    if body == [] then [] else [Other(body[0])] + Plain(body[1..])
  }

  function LinesOf(item: Item): seq<Line> {
    match item
    case Between(text) => [Other(text)]
    case Function(name, begin, body, end) => [Begin(name, begin)] + Plain(body) + [End(end)]
  }

  function File(items: seq<Item>): seq<Line> {
    if items == [] then [] else LinesOf(items[0]) + File(items[1..])
  }

  function FunctionIn(item: Item): seq<(Option<Name>, seq<Line>)> {
    if item.Function? then [(Some(item.name), LinesOf(item))] else []
  }

  function FunctionsOf(items: seq<Item>): seq<(Option<Name>, seq<Line>)> {
    if items == [] then [] else FunctionIn(items[0]) + FunctionsOf(items[1..])
  }

  /** The file with some functions replaced by others of their name. */
  function Swapped(items: seq<Item>, others: map<Name, Item>): seq<Item> {
    if items == [] then [] else [Chosen(items[0], others)] + Swapped(items[1..], others)
  }

  function Chosen(item: Item, others: map<Name, Item>): Item {
    if item.Function? && item.name in others then others[item.name] else item
  }

  function Texts(others: map<Name, Item>): map<Name, seq<Line>> {
    map n | n in others :: LinesOf(others[n])
  }

  // ---- extracting ----------------------------------------------------------------------------

  lemma {:induction false} ExtractConcat(s: ExtractState, a: seq<Line>, b: seq<Line>)
    ensures ExtractAll(s, a + b) == ExtractAll(ExtractAll(s, a), b)
    decreases |a|
  {
    if a == [] {
      assert a + b == b;
    } else {
      assert (a + b)[1..] == a[1..] + b;
      ExtractConcat(ExtractLine(s, a[0]), a[1..], b);
    }
  }

  lemma {:induction false} ExtractBody(found: seq<(Option<Name>, seq<Line>)>, name: Name, text: seq<Line>, body: seq<string>)
    ensures ExtractAll(Reading(found, Some(name), Some(text)), Plain(body)) == Reading(found, Some(name), Some(text + Plain(body)))
    decreases |body|
  {
    if body == [] {
      assert text + [] == text;
    } else {
      var line := Other(body[0]);
      assert Plain(body)[1..] == Plain(body[1..]);
      ExtractBody(found, name, text + [line], body[1..]);
      assert text + [line] + Plain(body[1..]) == text + Plain(body);
    }
  }

  lemma ExtractItem(found: seq<(Option<Name>, seq<Line>)>, text: Option<seq<Line>>, item: Item)
    ensures var s := ExtractAll(Reading(found, None, text), LinesOf(item));
            s.Reading? && s.inFunction == None && s.found == found + FunctionIn(item)
  {
    match item
    case Between(t) =>
      assert LinesOf(item)[1..] == [];
      assert found + [] == found;
    case Function(name, begin, body, end) =>
      var first, last: seq<Line> := [Begin(name, begin)], [End(end)];
      var s := Reading(found, None, text);
      ExtractConcat(s, first + Plain(body), last);
      ExtractConcat(s, first, Plain(body));
      assert first[1..] == [] && last[1..] == [];
      ExtractBody(found, name, first, body);
  }

  /** Every function of a file is found, with all its lines, in order. */
  lemma {:induction false} ExtractsFunctions(items: seq<Item>, found: seq<(Option<Name>, seq<Line>)>, text: Option<seq<Line>>)
    ensures var s := ExtractAll(Reading(found, None, text), File(items)); s.Reading? && s.found == found + FunctionsOf(items)
    decreases |items|
  {
    hide LinesOf, FunctionIn;
    if items == [] {
      assert found + [] == found;
    } else {
      var s := ExtractAll(Reading(found, None, text), LinesOf(items[0]));
      ExtractConcat(Reading(found, None, text), LinesOf(items[0]), File(items[1..]));
      ExtractItem(found, text, items[0]);
      ExtractsFunctions(items[1..], s.found, s.text);
      assert s.found + FunctionsOf(items[1..]) == found + FunctionsOf(items);
    }
  }

  // ---- replacing -----------------------------------------------------------------------------

  lemma {:induction false} ReplaceConcat(s: ReplaceState, a: seq<Line>, b: seq<Line>, r: map<Name, seq<Line>>)
    ensures ReplaceAll(s, a + b, r) == ReplaceAll(ReplaceAll(s, a, r), b, r)
    decreases |a|
  {
    if a == [] {
      assert a + b == b;
    } else {
      assert (a + b)[1..] == a[1..] + b;
      ReplaceConcat(ReplaceLine(s, a[0], r), a[1..], b, r);
    }
  }

  lemma {:induction false} SkipsBody(out: seq<Line>, body: seq<string>, r: map<Name, seq<Line>>)
    ensures ReplaceAll(Writing(out, true), Plain(body), r) == Writing(out, true)
    decreases |body|
  {
    if body != [] {
      assert Plain(body)[1..] == Plain(body[1..]);
      SkipsBody(out, body[1..], r);
    }
  }

  lemma {:induction false} CopiesBody(out: seq<Line>, body: seq<string>, r: map<Name, seq<Line>>)
    ensures ReplaceAll(Writing(out, false), Plain(body), r) == Writing(out + Plain(body), false)
    decreases |body|
  {
    if body == [] {
      assert out + [] == out;
    } else {
      var line := Other(body[0]);
      assert Plain(body)[1..] == Plain(body[1..]);
      CopiesBody(out + [line], body[1..], r);
      assert out + [line] + Plain(body[1..]) == out + Plain(body);
    }
  }

  lemma ReplaceItem(out: seq<Line>, item: Item, others: map<Name, Item>)
    ensures ReplaceAll(Writing(out, false), LinesOf(item), Texts(others)) == Writing(out + LinesOf(Chosen(item, others)), false)
  {
    hide ReplaceAll;
    var r, s := Texts(others), Writing(out, false);
    match item
    case Between(t) =>
      OneReplaced(s, Other(t), r);
    case Function(name, begin, body, end) =>
      ReplaceFunction(out, name, begin, body, end, r);
  }

  lemma OneReplaced(s: ReplaceState, line: Line, r: map<Name, seq<Line>>)
    ensures ReplaceAll(s, [line], r) == ReplaceLine(s, line, r)
  {
    assert [line][1..] == [];
  }

  lemma ReplaceFunction(out: seq<Line>, name: Name, begin: string, body: seq<string>, end: string, r: map<Name, seq<Line>>)
    ensures var lines := LinesOf(Function(name, begin, body, end));
            ReplaceAll(Writing(out, false), lines, r) == Writing(out + (if name in r then r[name] else lines), false)
  {
    hide ReplaceAll, Plain;
    var s, first, last := Writing(out, false), Begin(name, begin), End(end);
    ReplaceConcat(s, [first] + Plain(body), [last], r);
    ReplaceConcat(s, [first], Plain(body), r);
    OneReplaced(s, first, r);
    if name in r {
      SkipsBody(out + r[name], body, r);
      OneReplaced(Writing(out + r[name], true), last, r);
    } else {
      CopiesBody(out + [first], body, r);
      OneReplaced(Writing(out + [first] + Plain(body), false), last, r);
      assert out + [first] + Plain(body) + [last] == out + ([first] + Plain(body) + [last]);
    }
  }

  /** Exactly the named functions are replaced, in their places, and no other line changes. */
  lemma {:induction false} ReplacesFunctions(items: seq<Item>, others: map<Name, Item>, out: seq<Line>)
    ensures ReplaceAll(Writing(out, false), File(items), Texts(others)) == Writing(out + File(Swapped(items, others)), false)
    decreases |items|
  {
    hide LinesOf, Texts, Chosen;
    if items == [] {
      assert out + [] == out;
    } else {
      var s := Writing(out, false);
      var item := Chosen(items[0], others);
      ReplaceConcat(s, LinesOf(items[0]), File(items[1..]), Texts(others));
      ReplaceItem(out, items[0], others);
      ReplacesFunctions(items[1..], others, out + LinesOf(item));
      assert out + LinesOf(item) + File(Swapped(items[1..], others)) == out + File(Swapped(items, others));
    }
  }

  /** Choosing some functions from another file: what is extracted afterwards are the chosen texts
      for these and the old texts for the others. */
  lemma PickedAreExtracted(items: seq<Item>, others: map<Name, Item>)
    ensures var out := ReplaceAll(Writing([], false), File(items), Texts(others)).out;
            var s := ExtractAll(Reading([], None, None), out);
            s.Reading? && s.found == FunctionsOf(Swapped(items, others))
  {
    ReplacesFunctions(items, others, []);
    var picked := Swapped(items, others);
    assert [] + File(picked) == File(picked);
    ExtractsFunctions(picked, [], None);
    assert [] + FunctionsOf(picked) == FunctionsOf(picked);
  }

  /** Putting a file's own functions back changes nothing. */
  lemma {:induction false} OwnFunctionsChangeNothing(items: seq<Item>, others: map<Name, Item>)
    requires forall k :: 0 <= k < |items| && items[k].Function? && items[k].name in others ==> others[items[k].name] == items[k]
    ensures Swapped(items, others) == items
    decreases |items|
  {
    if items != [] {
      OwnFunctionsChangeNothing(items[1..], others);
      assert items == [items[0]] + items[1..];
    }
  }

  /** Replacing functions by themselves gives back the file. */
  lemma ReplacedByOwn(items: seq<Item>, others: map<Name, Item>)
    requires forall k :: 0 <= k < |items| && items[k].Function? && items[k].name in others ==> others[items[k].name] == items[k]
    ensures ReplaceAll(Writing([], false), File(items), Texts(others)).out == File(items)
  {
    ReplacesFunctions(items, others, []);
    OwnFunctionsChangeNothing(items, others);
    assert [] + File(items) == File(items);
  }
}
