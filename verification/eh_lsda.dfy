/** The personality routine of the exception demo, over the bytes of one function's tables. */
module Personality {
  import opened ExceptionTables

  type Type = int

  // ---- chains of actions ---------------------------------------------------------------------

  /** From pos on the table lists the type offsets in order; 0 stands for a cleanup. The distance
      to the next record counts from the field that holds it, and 0 ends the chain. */
  ghost predicate Chain(data: Data, pos: nat, offsets: seq<nat>)
    decreases |offsets|
  {
    && offsets != [] && ReadableS(data, pos) && Signed(data, pos) == offsets[0]
    && var field := pos + Length(data, pos);
    && ReadableS(data, field)
    && if |offsets| == 1 then Signed(data, field) == 0
       else Signed(data, field) != 0 && field + Signed(data, field) >= 0 && Chain(data, field + Signed(data, field), offsets[1..])
  }

  /** The place, from 1 on, of the first offset that leads to the type; 0 if there is none. */
  function FirstMatch(offsets: seq<nat>, types: nat -> Type, thrown: Type): nat {
    if offsets == [] then 0
    else if offsets[0] > 0 && types(offsets[0]) == thrown then 1
    else if FirstMatch(offsets[1..], types, thrown) == 0 then 0
    else FirstMatch(offsets[1..], types, thrown) + 1
  }

  /** That is the least place of an offset that leads to the type. */
  lemma {:induction false} MatchIsFirst(offsets: seq<nat>, types: nat -> Type, thrown: Type)
    ensures var m := FirstMatch(offsets, types, thrown);
            && (m == 0 ==> forall j :: 0 <= j < |offsets| ==> offsets[j] == 0 || types(offsets[j]) != thrown)
            && (m > 0 ==> m <= |offsets| && offsets[m - 1] > 0 && types(offsets[m - 1]) == thrown &&
                          forall j :: 0 <= j < m - 1 ==> offsets[j] == 0 || types(offsets[j]) != thrown)
  {
    if offsets != [] {
      var rest := offsets[1..];
      MatchIsFirst(rest, types, thrown);
      assert forall j :: 0 < j < |offsets| ==> offsets[j] == rest[j - 1];
    }
  }

  /** An exception, as far as the personality looks at it: ours, with a type, or a foreign one. */
  datatype Exception = Own(thrown: Type) | Foreign

  /** handleActionValue. Filters, negative offsets, are not supported. */
  method HandleActionValue(data: Data, actionEntry: nat, types: nat -> Type, e: Exception, ghost offsets: seq<nat>)
    returns (matched: bool, action: nat)
    requires Chain(data, actionEntry, offsets)
    ensures e.Foreign? ==> !matched
    ensures e.Own? ==> action == FirstMatch(offsets, types, e.thrown) && (matched <==> action > 0)
  {
    matched, action := false, 0;
    if e.Foreign? {
      return;
    }
    var pos: nat, i: nat := actionEntry, 0;
    ghost var rest := offsets;
    while true
      invariant Chain(data, pos, rest) && i + |rest| == |offsets|
      invariant FirstMatch(offsets, types, e.thrown) ==
                if FirstMatch(rest, types, e.thrown) == 0 then 0 else i + FirstMatch(rest, types, e.thrown)
      decreases |rest|
    {
      var typeOffset, field := ReadSLEB128(data, pos);
      var actionOffset, _ := ReadSLEB128(data, field);
      assert typeOffset >= 0;
      if typeOffset > 0 && types(typeOffset) == e.thrown {
        return true, i + 1;
      }
      if actionOffset == 0 {
        assert rest[1..] == [];
        break;
      }
      pos, i, rest := field + actionOffset, i + 1, rest[1..];
    }
  }

  // ---- call sites ----------------------------------------------------------------------------

  datatype Site = Site(start: nat, length: nat, landingPad: nat, action: nat)

  const OMIT: Byte := 0xff
  const ULEB128: Byte := 0x01
  const UDATA4: Byte := 0x03

  predicate ReadableP(data: Data, pos: nat, encoding: Byte) {
    if encoding == ULEB128 then ReadableU(data, pos) else encoding == UDATA4 && pos + 4 <= |data|
  }

  /** Four bytes, the lowest first. */
  function Word(a: int, b: int, c: int, d: int): (w: int)
    ensures a >= 0 && b >= 0 && c >= 0 && d >= 0 ==> w >= 0
  {
    a + 0x100 * b + 0x10000 * c + 0x1000000 * d
  }

  function PointerLength(data: Data, pos: nat, encoding: Byte): nat
    requires ReadableP(data, pos, encoding)
  {
    if encoding == ULEB128 then Length(data, pos) else 4
  }

  function Pointer(data: Data, pos: nat, encoding: Byte): nat
    requires ReadableP(data, pos, encoding)
  {
    if encoding == ULEB128 then Unsigned(data, pos)
    else Word(data[pos], data[pos + 1], data[pos + 2], data[pos + 3])
  }

  /** readEncodedPointer, for absolute offsets in one of two formats. */
  method ReadEncodedPointer(data: Data, pos: nat, encoding: Byte) returns (value: nat, next: nat)
    requires ReadableP(data, pos, encoding)
    ensures value == Pointer(data, pos, encoding) && next == pos + PointerLength(data, pos, encoding)
  {
    if encoding == ULEB128 {
      value, next := ReadULEB128(data, pos);
    } else {
      value := Word(data[pos], data[pos + 1], data[pos + 2], data[pos + 3]);
      next := pos + 4;
    }
  }

  /** One call site stands at pos and ends before `after`. */
  ghost predicate SiteAt(data: Data, pos: nat, encoding: Byte, s: Site, after: nat) {
    ReadableP(data, pos, encoding) && Pointer(data, pos, encoding) == s.start &&
    var p := pos + PointerLength(data, pos, encoding);
    ReadableP(data, p, encoding) && Pointer(data, p, encoding) == s.length &&
    var q := p + PointerLength(data, p, encoding);
    ReadableP(data, q, encoding) && Pointer(data, q, encoding) == s.landingPad &&
    var r := q + PointerLength(data, q, encoding);
    ReadableU(data, r) && Unsigned(data, r) == s.action && after == r + Length(data, r)
  }

  /** The bytes from pos to end list the call sites. */
  ghost predicate SitesAt(data: Data, pos: nat, end: nat, encoding: Byte, sites: seq<Site>)
    decreases |sites|
  {
    if sites == [] then pos == end
    else exists next: nat :: pos < next <= end && SiteAt(data, pos, encoding, sites[0], next) && SitesAt(data, next, end, encoding, sites[1..])
  }

  /** The first call site with a landing pad that covers the place. */
  function SiteFor(sites: seq<Site>, pc: nat): Option<Site> {
    if sites == [] then None
    else if sites[0].landingPad != 0 && sites[0].start <= pc < sites[0].start + sites[0].length then Some(sites[0])
    else SiteFor(sites[1..], pc)
  }

  lemma {:induction false} SiteForIsFirst(sites: seq<Site>, pc: nat, k: nat)
    requires k < |sites| && sites[k].landingPad != 0 && sites[k].start <= pc < sites[k].start + sites[k].length
    requires forall j :: 0 <= j < k ==> sites[j].landingPad == 0 || pc < sites[j].start || sites[j].start + sites[j].length <= pc
    ensures SiteFor(sites, pc) == Some(sites[k])
  {
    if k > 0 {
      assert sites[0].landingPad == 0 || pc < sites[0].start || sites[0].start + sites[0].length <= pc;
      forall j | 0 <= j < k - 1
        ensures sites[1..][j].landingPad == 0 || pc < sites[1..][j].start || sites[1..][j].start + sites[1..][j].length <= pc
      {
        assert sites[1..][j] == sites[j + 1];
      }
      SiteForIsFirst(sites[1..], pc, k - 1);
    }
  }

  lemma {:induction false} NoSiteFor(sites: seq<Site>, pc: nat)
    requires forall j :: 0 <= j < |sites| ==>
               sites[j].landingPad == 0 || pc < sites[j].start || sites[j].start + sites[j].length <= pc
    ensures SiteFor(sites, pc) == None
  {
    if sites != [] {
      forall j | 0 <= j < |sites| - 1
        ensures sites[1..][j].landingPad == 0 || pc < sites[1..][j].start || sites[1..][j].start + sites[1..][j].length <= pc
      {
        assert sites[1..][j] == sites[j + 1];
      }
      NoSiteFor(sites[1..], pc);
    }
  }

  method ReadSite(data: Data, pos: nat, encoding: Byte, ghost s: Site, ghost after: nat)
    returns (start: nat, length: nat, landingPad: nat, actionEntry: nat, next: nat)
    requires SiteAt(data, pos, encoding, s, after)
    ensures Site(start, length, landingPad, actionEntry) == s && next == after
  {
    var p, q, r;
    start, p := ReadEncodedPointer(data, pos, encoding);
    length, q := ReadEncodedPointer(data, p, encoding);
    landingPad, r := ReadEncodedPointer(data, q, encoding);
    actionEntry, next := ReadULEB128(data, r);
  }

  // ---- the walk ------------------------------------------------------------------------------

  datatype Reason = ContinueUnwind | HandlerFound | InstallContext(landingPad: nat, selector: nat)

  /** What the personality decides at a call site: only clauses count in the search phase; in the
      cleanup phase the landing pad is always entered, with the place of the clause or 0. */
  function Decision(landingPad: nat, place: nat, searching: bool): Reason {
    if searching then if place > 0 then HandlerFound else ContinueUnwind
    else InstallContext(landingPad, place)
  }

  /** The parts of a function's tables. No base for landing pads is given. */
  datatype Layout = Layout(encoding: Byte, siteTable: nat, actionTable: nat, sites: seq<Site>)

  ghost predicate LaidOut(lsda: Data, l: Layout) {
    && |lsda| >= 2 && lsda[0] == OMIT && lsda[1] != OMIT && ReadableU(lsda, 2)
    && var p := 2 + Length(lsda, 2);
    && p < |lsda| && lsda[p] == l.encoding && ReadableU(lsda, p + 1)
    && l.siteTable == p + 1 + Length(lsda, p + 1) && l.actionTable == l.siteTable + Unsigned(lsda, p + 1)
    && SitesAt(lsda, l.siteTable, l.actionTable, l.encoding, l.sites)
  }

  /** The offsets listed for the call site of the place, if it has an action. */
  ghost predicate ListedFor(lsda: Data, l: Layout, pc: nat, offsets: seq<nat>) {
    SiteFor(l.sites, pc).Some? && SiteFor(l.sites, pc).value.action > 0 ==>
      Chain(lsda, l.actionTable + SiteFor(l.sites, pc).value.action - 1, offsets)
  }

  function Answer(l: Layout, pc: nat, offsets: seq<nat>, types: nat -> Type, e: Exception, searching: bool): Reason {
    match SiteFor(l.sites, pc)
    case None => ContinueUnwind
    case Some(s) =>
      Decision(s.landingPad, if e.Own? && s.action > 0 then FirstMatch(offsets, types, e.thrown) else 0, searching)
  }

  /** Where no call site with a landing pad has the place in its range, the exception passes. */
  lemma AnswerElsewhere(l: Layout, pc: nat, offsets: seq<nat>, types: nat -> Type, e: Exception, searching: bool)
    requires forall j :: 0 <= j < |l.sites| ==>
               l.sites[j].landingPad == 0 || pc < l.sites[j].start || l.sites[j].start + l.sites[j].length <= pc
    ensures Answer(l, pc, offsets, types, e, searching) == ContinueUnwind
  {
    NoSiteFor(l.sites, pc);
  }

  /** Otherwise the first such site k decides. The exception is caught there just if it is ours, the site
      has an action and some offset leads to the type; and the landing pad is entered with the place of
      the first such offset, from 1 on, or with 0. */
  lemma AnswerAtSite(l: Layout, pc: nat, offsets: seq<nat>, types: nat -> Type, e: Exception, k: nat)
    requires k < |l.sites| && l.sites[k].landingPad != 0 && l.sites[k].start <= pc < l.sites[k].start + l.sites[k].length
    requires forall j :: 0 <= j < k ==>
               l.sites[j].landingPad == 0 || pc < l.sites[j].start || l.sites[j].start + l.sites[j].length <= pc
    ensures var caught := e.Own? && l.sites[k].action > 0 &&
                          exists j :: 0 <= j < |offsets| && offsets[j] > 0 && types(offsets[j]) == e.thrown;
            && Answer(l, pc, offsets, types, e, true) == (if caught then HandlerFound else ContinueUnwind)
            && var r := Answer(l, pc, offsets, types, e, false);
            && r.InstallContext? && r.landingPad == l.sites[k].landingPad && (r.selector > 0 <==> caught)
            && (caught ==> r.selector <= |offsets| && offsets[r.selector - 1] > 0 && types(offsets[r.selector - 1]) == e.thrown &&
                           forall j :: 0 <= j < r.selector - 1 ==> offsets[j] == 0 || types(offsets[j]) != e.thrown)
  {
    hide SiteFor, FirstMatch;
    SiteForIsFirst(l.sites, pc, k);
    if e.Own? {
      MatchIsFirst(offsets, types, e.thrown);
      var m := FirstMatch(offsets, types, e.thrown);
      assert m > 0 ==> offsets[m - 1] > 0 && types(offsets[m - 1]) == e.thrown;
    }
  }

  /** handleLsda, for a function that has tables. */
  method HandleLsda(lsda: Data, pcOffset: nat, types: nat -> Type, e: Exception, searching: bool,
                    ghost l: Layout, ghost offsets: seq<nat>) returns (ret: Reason)
    requires LaidOut(lsda, l) && ListedFor(lsda, l, pcOffset, offsets)
    ensures ret == Answer(l, pcOffset, offsets, types, e, searching)
  {
    hide Chain, SiteAt;
    ret := ContinueUnwind;
    var classInfoOffset, p := ReadULEB128(lsda, 2);
    var callSiteEncoding := lsda[p];
    var callSiteTableLength, callSiteTableStart := ReadULEB128(lsda, p + 1);
    var callSitePtr: nat := callSiteTableStart;
    var callSiteTableEnd := callSitePtr + callSiteTableLength;
    var actionTableStart := callSiteTableEnd;
    ghost var rest := l.sites;
    while callSitePtr < callSiteTableEnd
      invariant SitesAt(lsda, callSitePtr, callSiteTableEnd, callSiteEncoding, rest)
      invariant SiteFor(rest, pcOffset) == SiteFor(l.sites, pcOffset)
      decreases |rest|
    {
      ghost var after: nat :| callSitePtr < after <= callSiteTableEnd &&
                              SiteAt(lsda, callSitePtr, callSiteEncoding, rest[0], after) &&
                              SitesAt(lsda, after, callSiteTableEnd, callSiteEncoding, rest[1..]);
      var start, length, landingPad, actionEntry;
      start, length, landingPad, actionEntry, callSitePtr := ReadSite(lsda, callSitePtr, callSiteEncoding, rest[0], after);
      ghost var site := rest[0];
      rest := rest[1..];

      if e.Foreign? {
        actionEntry := 0;
      }
      if landingPad == 0 {
        continue;
      }
      if start <= pcOffset < start + length {
        assert SiteFor(l.sites, pcOffset) == Some(site);
        var exceptionMatched, actionValue := false, 0;
        if actionEntry != 0 {
          exceptionMatched, actionValue := HandleActionValue(lsda, actionTableStart + actionEntry - 1, types, e, offsets);
        }
        if !searching {
          ret := InstallContext(landingPad, if actionEntry == 0 || !exceptionMatched then 0 else actionValue);
        } else if exceptionMatched {
          ret := HandlerFound;
        }
        return;
      }
    }
  }

  // ---- functions with a list of catches ------------------------------------------------------

  /** The place, from 1 on, of the first catch of the type; 0 if it is not caught. */
  function CatchFor(catches: seq<Type>, thrown: Type): (k: nat)
    ensures k <= |catches| && (k > 0 <==> thrown in catches)
  {
    if catches == [] then 0
    else if catches[0] == thrown then 1
    else if CatchFor(catches[1..], thrown) == 0 then 0
    else CatchFor(catches[1..], thrown) + 1
  }

  /** The listed offsets are those of the catches in their order, then that of the cleanup. */
  ghost predicate ListsCatches(offsets: seq<nat>, types: nat -> Type, catches: seq<Type>) {
    |offsets| == |catches| + 1 && offsets[|catches|] == 0 &&
    forall k :: 0 <= k < |catches| ==> offsets[k] > 0 && types(offsets[k]) == catches[k]
  }

  lemma {:induction false} MatchIsCatch(offsets: seq<nat>, types: nat -> Type, catches: seq<Type>, thrown: Type)
    requires ListsCatches(offsets, types, catches)
    ensures FirstMatch(offsets, types, thrown) == CatchFor(catches, thrown)
  {
    if catches == [] {
      assert FirstMatch(offsets[1..], types, thrown) == 0;
    } else {
      MatchIsCatch(offsets[1..], types, catches[1..], thrown);
    }
  }

  /** What the personality makes of a function whose invoke has a landing pad for these catches. */
  function Verdict(catches: seq<Type>, landingPad: nat, e: Exception, searching: bool): Reason {
    Decision(landingPad, if e.Own? then CatchFor(catches, e.thrown) else 0, searching)
  }

  /** The tables of a function with catches make the personality catch just these. */
  lemma AnswerIsVerdict(l: Layout, pc: nat, offsets: seq<nat>, types: nat -> Type, e: Exception, searching: bool,
                        catches: seq<Type>)
    requires SiteFor(l.sites, pc).Some? && SiteFor(l.sites, pc).value.action > 0 && ListsCatches(offsets, types, catches)
    ensures Answer(l, pc, offsets, types, e, searching) ==
            Verdict(catches, SiteFor(l.sites, pc).value.landingPad, e, searching)
  {
    if e.Own? {
      MatchIsCatch(offsets, types, catches, e.thrown);
    }
  }
}
