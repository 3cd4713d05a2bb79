/** Tables written for a function with a list of catches, and that the personality reads them as
    meant. */
module ExceptionEmit {
  import opened ExceptionTables
  import opened Personality

  // ---- actions -------------------------------------------------------------------------------

  /** One record after the other; the field with the distance takes one byte. */
  function EmitActions(offsets: seq<nat>): Data {
    if offsets == [] then []
    else EncodeS(offsets[0]) + [if |offsets| == 1 then 0 else 1] + EmitActions(offsets[1..])
  }

  predicate Small(offsets: seq<nat>) {
    forall k :: 0 <= k < |offsets| ==> offsets[k] < 0x800_0000
  }

  lemma {:induction false} ShortSigned(n: nat, k: nat)
    requires n < 64 * Power(k)
    ensures |EncodeS(n)| <= k + 1
  {
    if k > 0 && n >= 64 {
      assert n / 128 < 64 * Power(k - 1);
      ShortSigned(n / 128, k - 1);
    }
  }

  lemma {:induction false} ShortUnsigned(n: nat, k: nat)
    requires n < Power(k + 1)
    ensures |EncodeU(n)| <= k + 1
  {
    if k > 0 && n >= 128 {
      ShortUnsigned(n / 128, k - 1);
    }
  }

  lemma {:induction false} ActionsAreChain(before: Data, offsets: seq<nat>, after: Data)
    requires offsets != [] && Small(offsets)
    ensures Chain(before + EmitActions(offsets) + after, |before|, offsets)
    decreases |offsets|
  {
    hide EncodeS, Signed, Length, ReadableS, Chain, Small, EmitActions;
    var data := before + EmitActions(offsets) + after;
    var first, rest: Data := EncodeS(offsets[0]), if |offsets| == 1 then [] else EmitActions(offsets[1..]);
    var link: Data := [if |offsets| == 1 then 0 else 1];
    ActionsSplit(offsets, first, link, rest);
    Regrouped(before, first, link, rest, after);
    RecordAt(before, offsets[0], link + rest + after);
    LinkAt(before + first, link, rest + after);
    if |offsets| > 1 {
      ActionsAreChain(before + first + link, offsets[1..], after);
    }
    ChainStep(data, |before|, offsets);
  }

  lemma ActionsSplit(offsets: seq<nat>, first: Data, link: Data, rest: Data)
    requires offsets != [] && Small(offsets) && first == EncodeS(offsets[0]) && link == [if |offsets| == 1 then 0 else 1]
    requires rest == if |offsets| == 1 then [] else EmitActions(offsets[1..])
    ensures EmitActions(offsets) == first + link + rest
    ensures offsets[0] < 0x800_0000 && Small(offsets[1..])
  {
    hide EncodeS;
    if |offsets| == 1 {
      assert offsets[1..] == [];
    }
  }

  lemma Regrouped(before: Data, a: Data, b: Data, c: Data, after: Data)
    ensures before + (a + b + c) + after == before + a + (b + c + after)
    ensures before + (a + b + c) + after == (before + a) + b + (c + after)
    ensures before + (a + b + c) + after == (before + a + b) + c + after
  {
  }

  lemma LinkAt(before: Data, link: Data, after: Data)
    requires |link| == 1 && link[0] < 64
    ensures var data := before + link + after;
            ReadableS(data, |before|) && Signed(data, |before|) == link[0] && Length(data, |before|) == 1
  {
    ShortNumber(before + link + after, |before|);
  }

  lemma ChainStep(data: Data, pos: nat, offsets: seq<nat>)
    requires offsets != [] && ReadableS(data, pos) && Signed(data, pos) == offsets[0]
    requires var field := pos + Length(data, pos);
             && ReadableS(data, field)
             && if |offsets| == 1 then Signed(data, field) == 0
                else Signed(data, field) == 1 && Chain(data, field + 1, offsets[1..])
    ensures Chain(data, pos, offsets)
  {
    hide Signed, Length, ReadableS;
  }

  lemma RecordAt(before: Data, offset: nat, after: Data)
    requires offset < 0x800_0000
    ensures var data := before + EncodeS(offset) + after;
            ReadableS(data, |before|) && Signed(data, |before|) == offset && Length(data, |before|) == |EncodeS(offset)|
  {
    SignedRoundTrip(before, offset, after);
    FourBytes();
    ShortSigned(offset, 3);
  }

  lemma ShortNumber(data: Data, pos: nat)
    requires pos < |data| && data[pos] < 64
    ensures ReadableS(data, pos) && Signed(data, pos) == data[pos] && Length(data, pos) == 1
  {
  }

  // ---- call sites ----------------------------------------------------------------------------

  function EmitSite(s: Site): Data {
    EncodeU(s.start) + EncodeU(s.length) + EncodeU(s.landingPad) + EncodeU(s.action)
  }

  predicate SmallSite(s: Site) {
    s.start < 0x8000_0000 && s.length < 0x8000_0000 && s.landingPad < 0x8000_0000 && s.action < 0x8000_0000
  }

  function EmitSites(sites: seq<Site>): Data {
    if sites == [] then [] else EmitSite(sites[0]) + EmitSites(sites[1..])
  }

  lemma NumberAt(before: Data, n: nat, after: Data)
    requires n < 0x8000_0000
    ensures var data := before + EncodeU(n) + after;
            ReadableU(data, |before|) && Unsigned(data, |before|) == n && Length(data, |before|) == |EncodeU(n)|
  {
    UnsignedRoundTrip(before, n, after);
    FourBytes();
    ShortUnsigned(n, 4);
  }

  lemma SiteIsAt(before: Data, s: Site, after: Data)
    requires SmallSite(s)
    ensures SiteAt(before + EmitSite(s) + after, |before|, ULEB128, s, |before| + |EmitSite(s)|)
  {
    hide EncodeU, ReadableU, Unsigned, Length;
    var a, b, c, d := EncodeU(s.start), EncodeU(s.length), EncodeU(s.landingPad), EncodeU(s.action);
    var data := before + EmitSite(s) + after;
    assert data == before + a + (b + c + d + after);
    assert data == (before + a) + b + (c + d + after);
    assert data == (before + a + b) + c + (d + after);
    assert data == (before + a + b + c) + d + after;
    NumberAt(before, s.start, b + c + d + after);
    NumberAt(before + a, s.length, c + d + after);
    NumberAt(before + a + b, s.landingPad, d + after);
    NumberAt(before + a + b + c, s.action, after);
  }

  lemma {:induction false} SitesAreAt(before: Data, sites: seq<Site>, after: Data)
    requires forall k :: 0 <= k < |sites| ==> SmallSite(sites[k])
    ensures SitesAt(before + EmitSites(sites) + after, |before|, |before| + |EmitSites(sites)|, ULEB128, sites)
    decreases |sites|
  {
    hide SiteAt, EmitSite;
    if sites != [] {
      var first, rest := EmitSite(sites[0]), EmitSites(sites[1..]);
      var data := before + EmitSites(sites) + after;
      assert data == before + first + (rest + after);
      assert data == (before + first) + rest + after;
      SiteIsAt(before, sites[0], rest + after);
      SitesAreAt(before + first, sites[1..], after);
      SiteIsLong(sites[0]);
    }
  }

  lemma SiteIsLong(s: Site)
    ensures |EmitSite(s)| > 0
  {
  }

  // ---- several chains of actions --------------------------------------------------------------

  function EmitChains(chains: seq<seq<nat>>): Data {
    if chains == [] then [] else EmitActions(chains[0]) + EmitChains(chains[1..])
  }

  /** What a call site gives as its action for chain c: where that begins in the action table, from 1 on. */
  function ActionFor(chains: seq<seq<nat>>, c: nat): (a: nat)
    requires c <= |chains|
    ensures a > 0
  {
    if c == 0 then 1 else |EmitActions(chains[0])| + ActionFor(chains[1..], c - 1)
  }

  lemma {:induction false} ChainsAreThere(before: Data, chains: seq<seq<nat>>, c: nat)
    requires c < |chains| && chains[c] != [] && Small(chains[c])
    ensures Chain(before + EmitChains(chains), |before| + ActionFor(chains, c) - 1, chains[c])
    decreases c
  {
    hide EmitActions, Chain, Small;
    var first, rest := EmitActions(chains[0]), EmitChains(chains[1..]);
    if c == 0 {
      assert before + EmitChains(chains) == before + first + rest;
      ActionsAreChain(before, chains[0], rest);
    } else {
      assert before + EmitChains(chains) == (before + first) + rest;
      ChainsAreThere(before + first, chains[1..], c - 1);
    }
  }

  // ---- a function's tables -------------------------------------------------------------------

  /** The header, the call sites and the chains of actions; `ttype` is the format of the type table, which
      stands `classInfo` bytes further on. */
  function Emit(ttype: Byte, classInfo: nat, sites: seq<Site>, chains: seq<seq<nat>>): Data {
    var table := EmitSites(sites);
    [OMIT, ttype] + EncodeU(classInfo) + [ULEB128] + EncodeU(|table|) + table + EmitChains(chains)
  }

  function LayoutOf(classInfo: nat, sites: seq<Site>): Layout {
    var table := EmitSites(sites);
    var start := 2 + |EncodeU(classInfo)| + 1 + |EncodeU(|table|)|;
    Layout(ULEB128, start, start + |table|, sites)
  }

  predicate Fits(ttype: Byte, classInfo: nat, sites: seq<Site>) {
    && ttype != OMIT && classInfo < 0x8000_0000 && |EmitSites(sites)| < 0x8000_0000
    && forall k :: 0 <= k < |sites| ==> SmallSite(sites[k])
  }

  /** The parts in front of the call sites. */
  function EmitHead(ttype: Byte, classInfo: nat, length: nat): Data {
    [OMIT, ttype] + EncodeU(classInfo) + [ULEB128] + EncodeU(length)
  }

  lemma HeadIsAt(ttype: Byte, classInfo: nat, length: nat, rest: Data)
    requires ttype != OMIT && classInfo < 0x8000_0000 && length < 0x8000_0000
    ensures var lsda := EmitHead(ttype, classInfo, length) + rest;
            && |lsda| >= 2 && lsda[0] == OMIT && lsda[1] != OMIT && ReadableU(lsda, 2)
            && var p := 2 + Length(lsda, 2);
            && p < |lsda| && lsda[p] == ULEB128 && ReadableU(lsda, p + 1) && Unsigned(lsda, p + 1) == length
            && p + 1 + Length(lsda, p + 1) == |EmitHead(ttype, classInfo, length)|
  {
    hide ReadableU, EncodeU, Unsigned, Length;
    var head: Data := [OMIT, ttype];
    var start := head + EncodeU(classInfo) + [ULEB128];
    var lsda := EmitHead(ttype, classInfo, length) + rest;
    assert lsda == head + EncodeU(classInfo) + ([ULEB128] + EncodeU(length) + rest);
    NumberAt(head, classInfo, [ULEB128] + EncodeU(length) + rest);
    assert lsda == start + EncodeU(length) + rest;
    NumberAt(start, length, rest);
  }

  lemma EmittedParts(ttype: Byte, classInfo: nat, sites: seq<Site>, chains: seq<seq<nat>>)
    ensures var head, table, actions := EmitHead(ttype, classInfo, |EmitSites(sites)|), EmitSites(sites), EmitChains(chains);
            && Emit(ttype, classInfo, sites, chains) == head + (table + actions) == head + table + actions
            && LayoutOf(classInfo, sites) == Layout(ULEB128, |head|, |head| + |table|, sites)
  {
    hide EncodeU, EmitSites, EmitChains;
  }

  /** What is written is what the walk expects, and the chains are where their actions say. */
  lemma EmittedLayout(ttype: Byte, classInfo: nat, sites: seq<Site>, chains: seq<seq<nat>>)
    requires Fits(ttype, classInfo, sites)
    ensures LaidOut(Emit(ttype, classInfo, sites, chains), LayoutOf(classInfo, sites))
  {
    hide SitesAt, EmitChains, ReadableU, Unsigned, Length, EmitSites, EmitHead, Emit, LayoutOf;
    var head, table, actions := EmitHead(ttype, classInfo, |EmitSites(sites)|), EmitSites(sites), EmitChains(chains);
    EmittedParts(ttype, classInfo, sites, chains);
    HeadIsAt(ttype, classInfo, |table|, table + actions);
    SitesAreAt(head, sites, actions);
  }

  lemma EmittedChain(ttype: Byte, classInfo: nat, sites: seq<Site>, chains: seq<seq<nat>>, c: nat)
    requires c < |chains| && chains[c] != [] && Small(chains[c])
    ensures Chain(Emit(ttype, classInfo, sites, chains), LayoutOf(classInfo, sites).actionTable + ActionFor(chains, c) - 1, chains[c])
  {
    hide Chain, EmitChains, EmitSites, EmitHead, Emit, LayoutOf, Small, ActionFor;
    EmittedParts(ttype, classInfo, sites, chains);
    ChainsAreThere(EmitHead(ttype, classInfo, |EmitSites(sites)|) + EmitSites(sites), chains, c);
  }

  /** With any number of call sites: if k is the first one with a landing pad that has the place in its
      range, and its action leads to a chain for a list of catches, the personality catches just these
      there. */
  lemma EmittedVerdict(ttype: Byte, classInfo: nat, sites: seq<Site>, chains: seq<seq<nat>>, k: nat, c: nat,
                       types: nat -> Type, catches: seq<Type>, pc: nat, e: Exception, searching: bool)
    requires Fits(ttype, classInfo, sites) && k < |sites| && c < |chains| && Small(chains[c])
    requires sites[k].landingPad != 0 && sites[k].start <= pc < sites[k].start + sites[k].length
    requires forall j :: 0 <= j < k ==> sites[j].landingPad == 0 || pc < sites[j].start || sites[j].start + sites[j].length <= pc
    requires sites[k].action == ActionFor(chains, c) && ListsCatches(chains[c], types, catches)
    ensures var lsda, l := Emit(ttype, classInfo, sites, chains), LayoutOf(classInfo, sites);
            && LaidOut(lsda, l) && ListedFor(lsda, l, pc, chains[c])
            && Answer(l, pc, chains[c], types, e, searching) == Verdict(catches, sites[k].landingPad, e, searching)
  {
    hide LaidOut, Chain, Emit, Fits, EmitSites;
    EmittedLayout(ttype, classInfo, sites, chains);
    EmittedChain(ttype, classInfo, sites, chains, c);
    SiteForIsFirst(sites, pc, k);
    AnswerIsVerdict(LayoutOf(classInfo, sites), pc, chains[c], types, e, searching, catches);
  }

  /** Elsewhere, as where a landing pad's own code resumes the exception, and at a call site without an
      action, nothing is caught, and at most the landing pad is entered for cleanup. */
  lemma EmittedElsewhere(ttype: Byte, classInfo: nat, sites: seq<Site>, chains: seq<seq<nat>>, types: nat -> Type, pc: nat,
                         e: Exception, searching: bool)
    requires Fits(ttype, classInfo, sites)
    requires forall j :: 0 <= j < |sites| ==>
               sites[j].landingPad == 0 || pc < sites[j].start || sites[j].start + sites[j].length <= pc
    ensures var lsda, l := Emit(ttype, classInfo, sites, chains), LayoutOf(classInfo, sites);
            LaidOut(lsda, l) && ListedFor(lsda, l, pc, []) && Answer(l, pc, [], types, e, searching) == ContinueUnwind
  {
    hide LaidOut, Chain, Emit, Fits, EmitSites;
    EmittedLayout(ttype, classInfo, sites, chains);
    NoSiteFor(sites, pc);
  }

  lemma EmittedCleanup(ttype: Byte, classInfo: nat, sites: seq<Site>, chains: seq<seq<nat>>, k: nat, types: nat -> Type, pc: nat,
                       e: Exception, searching: bool)
    requires Fits(ttype, classInfo, sites) && k < |sites|
    requires sites[k].landingPad != 0 && sites[k].start <= pc < sites[k].start + sites[k].length && sites[k].action == 0
    requires forall j :: 0 <= j < k ==> sites[j].landingPad == 0 || pc < sites[j].start || sites[j].start + sites[j].length <= pc
    ensures var lsda, l := Emit(ttype, classInfo, sites, chains), LayoutOf(classInfo, sites);
            && LaidOut(lsda, l) && ListedFor(lsda, l, pc, [])
            && Answer(l, pc, [], types, e, searching) == if searching then ContinueUnwind else InstallContext(sites[k].landingPad, 0)
  {
    hide LaidOut, Chain, Emit, Fits, EmitSites;
    EmittedLayout(ttype, classInfo, sites, chains);
    SiteForIsFirst(sites, pc, k);
  }
}
