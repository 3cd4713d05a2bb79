/** extract_symbols.py: taking nested C++ names apart, as strings without line breaks. */
module ItaniumNames {

  datatype Option<T> = None | Some(value: T)

  // ---- regular expressions, with their backtracking ----------------------------------------

  predicate Digit(c: char) {
    '0' <= c <= '9'
  }

  /** The length of the longest start of s with all its characters in a class. */
  function RunOf(s: string, inClass: char -> bool): (n: nat)
    ensures n <= |s| && (n < |s| ==> !inClass(s[n])) && forall k :: 0 <= k < n ==> inClass(s[k])
  {
    if s == "" || !inClass(s[0]) then 0
    else
      var n := RunOf(s[1..], inClass);
      assert forall k :: 0 < k <= n ==> s[k] == s[1..][k - 1];
      n + 1
  }

  /** A greedy class repeated, followed by at least one character: gives back one if it has to. */
  function Leaving(s: string, inClass: char -> bool): (n: nat)
    ensures n <= |s| && (s != "" ==> n < |s|)
  {
    var n := RunOf(s, inClass);
    if n == |s| && n > 0 then n - 1 else n
  }

  /** (\d+)(.+) */
  function MatchNumber(s: string): (r: Option<(string, string)>)
    ensures r.Some? ==> r.value.0 != "" && r.value.0 + r.value.1 == s && forall c :: c in r.value.0 ==> Digit(c)
  {
    var n := Leaving(s, Digit);
    if n == 0 then None else Some((s[..n], s[n..]))
  }

  /** ([CD][123])(.+) */
  function MatchSpecial(s: string): (r: Option<(string, string)>)
    ensures r.Some? ==> r.value.0 != "" && r.value.0 + r.value.1 == s
  {
    if |s| >= 3 && s[0] in "CD" && s[1] in "123" then Some((s[..2], s[2..])) else None
  }

  /** ([^E]+)(.+) */
  function MatchOperator(s: string): (r: Option<(string, string)>)
    ensures r.Some? ==> r.value.0 != "" && r.value.0 + r.value.1 == s
  {
    var n := Leaving(s, c => c != 'E');
    if n == 0 then None else Some((s[..n], s[n..]))
  }

  predicate SeqId(c: char) {
    'A' <= c <= 'Z' || Digit(c)
  }

  /** S[A-Z0-9]*_(.+) */
  function MatchSubstitution(s: string): (r: Option<string>)
    ensures r.Some? ==> |r.value| < |s| && r.value == s[|s| - |r.value|..]
  {
    if s == "" || s[0] != 'S' then None
    else
      var n := 1 + RunOf(s[1..], SeqId);
      if n + 1 < |s| && s[n] == '_' then Some(s[n + 1..]) else None
  }

  predicate Qualifier(c: char) {
    c in "rVKRO"
  }

  function DigitValue(c: char): (d: nat)
    requires Digit(c)
    ensures d < 10
  {
    c as int - '0' as int
  }

  function Number(s: string): nat
    requires forall c :: c in s ==> Digit(c)
  {
    if s == "" then 0 else Number(s[..|s| - 1]) * 10 + DigitValue(s[|s| - 1])
  }

  /** The slices [:n] and [n:], which stop at the end. */
  function Take(s: string, n: nat): string {
    if n <= |s| then s[..n] else s
  }

  function Drop(s: string, n: nat): (r: string)
    ensures |r| <= |s| && r == s[|s| - |r|..]
  {
    if n <= |s| then s[n..] else ""
  }

  // ---- the parsers, as functions -----------------------------------------------------------

  predicate ProperSuffix(r: string, s: string) {
    |r| < |s| && r == s[|s| - |r|..]
  }

  function ParseName(arg: string): (r: Option<(string, string)>)
    ensures r.Some? ==> r.value.0 != "" && ProperSuffix(r.value.1, arg)
  {
    var number := MatchNumber(arg);
    if number.Some? then
      var (digits, after) := number.value;
      var n := Number(digits);
      Some((digits + Take(after, n), Drop(after, n)))
    else if MatchSpecial(arg).Some? then MatchSpecial(arg)
    else MatchOperator(arg)
  }

  datatype Skipped = Rest(rest: string) | NoEnd | TooComplexArgument

  /** Each name as it is written, and whether it has template arguments. */
  type Names = seq<(string, bool)>

  datatype Parsed = Parsed(names: Names, rest: string) | NotParsed | TooComplexName

  function SkipTemplate(arg: string): (r: Skipped)
    requires arg != "" && arg[0] == 'I'
    ensures r.Rest? ==> ProperSuffix(r.rest, arg)
    decreases |arg|, 0
  {
    SkipArguments(arg[1..])
  }

  function SkipArguments(tmp: string): (r: Skipped)
    ensures r.Rest? ==> ProperSuffix(r.rest, tmp)
    decreases |tmp|, 1
  {
    if tmp == "" then NoEnd
    else if MatchNumber(tmp).Some? then
      var (digits, after) := MatchNumber(tmp).value;
      SkipArguments(Drop(after, Number(digits)))
    else if MatchSubstitution(tmp).Some? then SkipArguments(MatchSubstitution(tmp).value)
    else if tmp[0] == 'I' then
      match SkipTemplate(tmp) case Rest(rest) => SkipArguments(rest) case other => other
    else if tmp[0] == 'N' then
      match ParseNested(tmp)
      case Parsed(_, rest) => SkipArguments(rest)
      case NotParsed => NoEnd
      case TooComplexName => TooComplexArgument
    else if tmp[0] == 'L' || tmp[0] == 'X' then TooComplexArgument
    else if tmp[0] == 'E' then Rest(tmp[1..])
    else SkipArguments(tmp[1..])
  }

  /** The start of a nested name: the N, a substitution and the qualifiers. */
  function AfterPrefix(arg: string): (tmp: string)
    requires arg != "" && arg[0] == 'N'
    ensures ProperSuffix(tmp, arg)
  {
    var tmp := if MatchSubstitution(arg[1..]).Some? then MatchSubstitution(arg[1..]).value else arg[1..];
    tmp[Leaving(tmp, Qualifier)..]
  }

  function ParseNested(arg: string): (r: Parsed)
    requires arg != "" && arg[0] == 'N'
    ensures r.Parsed? ==> ProperSuffix(r.rest, arg)
    decreases |arg|, 0
  {
    ParseComponents(AfterPrefix(arg), [])
  }

  function ParseComponents(tmp: string, ret: Names): (r: Parsed)
    ensures r.Parsed? ==> ProperSuffix(r.rest, tmp)
    decreases |tmp|, 1
  {
    if tmp == "" then NotParsed
    else if tmp[0] == 'E' then Parsed(ret, tmp[1..])
    else if ParseName(tmp) == None then NotParsed
    else
      var (name, after) := ParseName(tmp).value;
      if after != "" && after[0] == 'I' then
        match SkipTemplate(after)
        case Rest(rest) => ParseComponents(rest, ret + [(name, true)])
        case NoEnd => NotParsed
        case TooComplexArgument => TooComplexName
      else ParseComponents(after, ret + [(name, false)])
  }

  // ---- the parsers, as they loop -----------------------------------------------------------

  method SkipItaniumTemplate(arg: string) returns (r: Skipped)
    requires arg != "" && arg[0] == 'I'
    ensures r == SkipTemplate(arg)
    decreases |arg|
  {
    var tmp := arg[1..];
    while tmp != ""
      invariant |tmp| < |arg| && SkipTemplate(arg) == SkipArguments(tmp)
      decreases |tmp|
    {
      var number := MatchNumber(tmp);
      if number.Some? {
        var n := Number(number.value.0);
        tmp := Drop(number.value.1, n);
        continue;
      }
      var substitution := MatchSubstitution(tmp);
      if substitution.Some? {
        tmp := substitution.value;
      } else if tmp[0] == 'I' {
        var inner := SkipItaniumTemplate(tmp);
        match inner {
          case Rest(rest) => tmp := rest;
          case _ => return inner;
        }
      } else if tmp[0] == 'N' {
        var inner := ParseItaniumNestedName(tmp);
        match inner {
          case Parsed(_, rest) => tmp := rest;
          case NotParsed => return NoEnd;
          case TooComplexName => return TooComplexArgument;
        }
      } else if tmp[0] == 'L' || tmp[0] == 'X' {
        return TooComplexArgument;
      } else if tmp[0] == 'E' {
        return Rest(tmp[1..]);
      } else {
        tmp := tmp[1..];
      }
    }
    return NoEnd;
  }

  method ParseItaniumNestedName(arg: string) returns (r: Parsed)
    requires arg != "" && arg[0] == 'N'
    ensures r == ParseNested(arg)
    decreases |arg|
  {
    var ret: Names := [];
    var tmp := arg[1..];
    var substitution := MatchSubstitution(tmp);
    if substitution.Some? {
      tmp := substitution.value;
    }
    tmp := tmp[Leaving(tmp, Qualifier)..];
    while tmp != ""
      invariant |tmp| < |arg| && ParseNested(arg) == ParseComponents(tmp, ret)
      decreases |tmp|
    {
      if tmp[0] == 'E' {
        return Parsed(ret, tmp[1..]);
      }
      var parsed := ParseName(tmp);
      if parsed == None {
        return NotParsed;
      }
      var (name, after) := parsed.value;
      var isTemplate := false;
      if after != "" && after[0] == 'I' {
        var skipped := SkipItaniumTemplate(after);
        match skipped {
          case Rest(rest) => after := rest;
          case NoEnd => return NotParsed;
          case TooComplexArgument => return TooComplexName;
        }
        isTemplate := true;
      }
      ret := ret + [(name, isTemplate)];
      tmp := after;
    }
    return NotParsed;
  }
}
