/** update_mca_test_checks.py: texts of equal length as lines with prefixes. */
module McaBreakDown {
  import opened McaBlocks

  type Line = (Prefix, string)

  /** What a run with prefix p checks: its own lines and the common ones. */
  function Checked(lines: seq<Line>, p: Prefix, common: Prefix): Text {
    if lines == [] then []
    else (if lines[0].0 == p || lines[0].0 == common then [lines[0].1] else []) + Checked(lines[1..], p, common)
  }

  lemma {:induction false} CheckedConcat(a: seq<Line>, b: seq<Line>, p: Prefix, common: Prefix)
    ensures Checked(a + b, p, common) == Checked(a, p, common) + Checked(b, p, common)
  {
    if a == [] {
      assert a + b == b;
    } else {
      assert (a + b)[1..] == a[1..] + b;
      CheckedConcat(a[1..], b, p, common);
    }
  }

  // ---- batches -------------------------------------------------------------------------------

  /** Lines waiting to be output, by prefix. */
  type Batches = map<Prefix, seq<Line>>

  function BatchOf(batches: Batches, p: Prefix): seq<Line> {
    if p in batches then batches[p] else []
  }

  /** Every batch holds lines of its own prefix, and the common prefix has no batch. */
  ghost predicate Filed(batches: Batches, common: Prefix) {
    common !in batches && forall p, k :: p in batches && 0 <= k < |batches[p]| ==> batches[p][k].0 == p
  }

  function Flushed(batches: Batches, keys: seq<Prefix>): seq<Line> {
    if keys == [] then [] else BatchOf(batches, keys[0]) + Flushed(batches, keys[1..])
  }

  function Texts(lines: seq<Line>): Text {
    seq(|lines|, k requires 0 <= k < |lines| => lines[k].1)
  }

  lemma {:induction false} CheckedOwn(lines: seq<Line>, q: Prefix, p: Prefix, common: Prefix)
    requires q != common && forall k :: 0 <= k < |lines| ==> lines[k].0 == q
    ensures Checked(lines, p, common) == if p == q then Texts(lines) else []
  {
    if lines != [] {
      CheckedOwn(lines[1..], q, p, common);
      assert p == q ==> Texts(lines) == [lines[0].1] + Texts(lines[1..]);
    }
  }

  /** Flushing gives a prefix just what was waiting for it. */
  lemma {:induction false} CheckedFlush(batches: Batches, keys: seq<Prefix>, p: Prefix, common: Prefix)
    requires Filed(batches, common) && Ascending(keys) && p != common && forall q :: q in keys ==> q in batches
    ensures Checked(Flushed(batches, keys), p, common) == if p in keys then Texts(BatchOf(batches, p)) else []
  {
    hide Texts;
    if keys != [] {
      var q, rest := keys[0], keys[1..];
      assert keys == [q] + rest;
      assert q in keys && q != common;
      assert p in rest ==> p != q;
      CheckedConcat(BatchOf(batches, q), Flushed(batches, rest), p, common);
      CheckedOwn(BatchOf(batches, q), q, p, common);
      CheckedFlush(batches, rest, p, common);
    }
  }

  method Flush(batches: Batches) returns (lines: seq<Line>, ghost keys: seq<Prefix>)
    ensures Ascending(keys) && (forall p :: p in keys <==> p in batches) && lines == Flushed(batches, keys)
  {
    var sorted := Sorted(batches.Keys);
    keys, lines := sorted, [];
    assert sorted[0..] == sorted;
    for k := 0 to |sorted|
      invariant lines + Flushed(batches, sorted[k..]) == Flushed(batches, sorted)
    {
      assert sorted[k] in sorted;
      lines := lines + batches[sorted[k]];
    }
  }

  // ---- one block -----------------------------------------------------------------------------

  /** Texts share no prefix, and none has the common one: what pruning leaves. */
  ghost predicate Clear(prefixes: seq<seq<Prefix>>, common: Prefix) {
    && (forall t :: 0 <= t < |prefixes| ==> Ascending(prefixes[t]) && common !in prefixes[t])
    && forall t, u, p :: 0 <= t < u < |prefixes| && p in prefixes[t] ==> p !in prefixes[u]
  }

  /** Line i is the same in all texts. */
  predicate Common(texts: seq<Text>, i: nat)
    requires forall t :: 0 <= t < |texts| ==> i < |texts[t]|
  {
    forall t :: 0 <= t < |texts| ==> texts[t][i] == texts[0][i]
  }

  /** What is out and what waits make up the first i lines of text t, for its prefix p. */
  ghost predicate Tells(result: seq<Line>, batches: Batches, p: Prefix, common: Prefix, text: Text, i: nat) {
    i <= |text| && Checked(result, p, common) + Texts(BatchOf(batches, p)) == text[..i]
  }

  function FileLine(batches: Batches, p: Prefix, l: string): Batches {
    batches[p := BatchOf(batches, p) + [(p, l)]]
  }

  /** The line of one text, for each of its prefixes. */
  function FileText(batches: Batches, ps: seq<Prefix>, l: string): Batches {
    if ps == [] then batches else FileLine(FileText(batches, ps[..|ps| - 1], l), ps[|ps| - 1], l)
  }

  /** Line i of the first t texts. */
  function FileTexts(batches: Batches, texts: seq<Text>, prefixes: seq<seq<Prefix>>, i: nat, t: nat): Batches
    requires |prefixes| == |texts| && t <= |texts| && forall u :: 0 <= u < |texts| ==> i < |texts[u]|
  {
    if t == 0 then batches
    else FileText(FileTexts(batches, texts, prefixes, i, t - 1), prefixes[t - 1], texts[t - 1][i])
  }

  lemma {:induction false} TextFiled(batches: Batches, ps: seq<Prefix>, l: string, p: Prefix)
    requires Ascending(ps)
    ensures BatchOf(FileText(batches, ps, l), p) == BatchOf(batches, p) + if p in ps then [(p, l)] else []
  {
    if ps != [] {
      var rest, last := ps[..|ps| - 1], ps[|ps| - 1];
      assert ps == rest + [last];
      assert last !in rest;
      TextFiled(batches, rest, l, p);
    }
  }

  lemma {:induction false} TextKeepsFiled(batches: Batches, ps: seq<Prefix>, l: string, common: Prefix)
    requires Filed(batches, common) && common !in ps
    ensures Filed(FileText(batches, ps, l), common)
  {
    if ps != [] {
      var rest, last := ps[..|ps| - 1], ps[|ps| - 1];
      assert ps == rest + [last];
      TextKeepsFiled(batches, rest, l, common);
    }
  }

  lemma {:induction false} TextsFiled(batches: Batches, texts: seq<Text>, prefixes: seq<seq<Prefix>>, i: nat, t: nat, p: Prefix)
    requires |prefixes| == |texts| && t <= |texts| && forall u :: 0 <= u < |texts| ==> i < |texts[u]|
    requires forall u :: 0 <= u < |prefixes| ==> Ascending(prefixes[u])
    requires forall u, w :: 0 <= u < w < |prefixes| && p in prefixes[u] ==> p !in prefixes[w]
    ensures var b := FileTexts(batches, texts, prefixes, i, t);
            && ((forall u :: 0 <= u < t ==> p !in prefixes[u]) ==> BatchOf(b, p) == BatchOf(batches, p))
            && forall u :: 0 <= u < t && p in prefixes[u] ==> BatchOf(b, p) == BatchOf(batches, p) + [(p, texts[u][i])]
  {
    hide FileText, BatchOf;
    if t > 0 {
      TextsFiled(batches, texts, prefixes, i, t - 1, p);
      TextFiled(FileTexts(batches, texts, prefixes, i, t - 1), prefixes[t - 1], texts[t - 1][i], p);
    }
  }

  lemma {:induction false} TextsKeepFiled(batches: Batches, texts: seq<Text>, prefixes: seq<seq<Prefix>>, i: nat, t: nat,
                                          common: Prefix)
    requires |prefixes| == |texts| && t <= |texts| && forall u :: 0 <= u < |texts| ==> i < |texts[u]|
    requires Clear(prefixes, common) && Filed(batches, common)
    ensures Filed(FileTexts(batches, texts, prefixes, i, t), common)
  {
    if t > 0 {
      TextsKeepFiled(batches, texts, prefixes, i, t - 1, common);
      TextKeepsFiled(FileTexts(batches, texts, prefixes, i, t - 1), prefixes[t - 1], texts[t - 1][i], common);
    }
  }

  method BatchLine(batches: Batches, texts: seq<Text>, prefixes: seq<seq<Prefix>>, i: nat) returns (b: Batches)
    requires |prefixes| == |texts| && forall u :: 0 <= u < |texts| ==> i < |texts[u]|
    ensures b == FileTexts(batches, texts, prefixes, i, |texts|)
  {
    b := batches;
    for t := 0 to |texts|
      invariant b == FileTexts(batches, texts, prefixes, i, t)
    {
      ghost var start := b;
      var ps := prefixes[t];
      for k := 0 to |ps|
        invariant b == FileText(start, ps[..k], texts[t][i])
      {
        assert ps[..k + 1][..k] == ps[..k];
        b := FileLine(b, ps[k], texts[t][i]);
      }
      assert ps[..|ps|] == ps;
    }
  }

  // ---- the steps keep what is told -----------------------------------------------------------

  lemma CommonTells(result: seq<Line>, batches: Batches, keys: seq<Prefix>, p: Prefix, common: Prefix, text: Text, i: nat)
    requires Tells(result, batches, p, common, text, i) && i < |text| && Filed(batches, common) && p != common
    requires Ascending(keys) && forall q :: q in keys <==> q in batches
    ensures Tells(result + Flushed(batches, keys) + [(common, text[i])], map[], p, common, text, i + 1)
  {
    hide Checked, Flushed;
    CheckedConcat(result + Flushed(batches, keys), [(common, text[i])], p, common);
    CheckedConcat(result, Flushed(batches, keys), p, common);
    CheckedFlush(batches, keys, p, common);
    OneChecked(p, common, text[i]);
    assert text[..i + 1] == text[..i] + [text[i]];
    assert Texts(BatchOf(map[], p)) == [];
    assert p !in batches ==> Texts(BatchOf(batches, p)) == [];
  }

  lemma OneChecked(p: Prefix, common: Prefix, l: string)
    ensures Checked([(common, l)], p, common) == [l]
  {
    assert [(common, l)][1..] == [];
  }

  lemma BatchTells(result: seq<Line>, batches: Batches, more: Batches, p: Prefix, common: Prefix, text: Text, i: nat)
    requires Tells(result, batches, p, common, text, i) && i < |text|
    requires BatchOf(more, p) == BatchOf(batches, p) + [(p, text[i])]
    ensures Tells(result, more, p, common, text, i + 1)
  {
    var a, l := BatchOf(batches, p), (p, text[i]);
    assert Texts(a + [l]) == Texts(a) + [text[i]];
    assert text[..i + 1] == text[..i] + [text[i]];
  }

  lemma EndTells(result: seq<Line>, batches: Batches, keys: seq<Prefix>, p: Prefix, common: Prefix, text: Text)
    requires Tells(result, batches, p, common, text, |text|) && Filed(batches, common) && p != common
    requires Ascending(keys) && forall q :: q in keys <==> q in batches
    ensures Checked(result + Flushed(batches, keys), p, common) == text
  {
    CheckedConcat(result, Flushed(batches, keys), p, common);
    CheckedFlush(batches, keys, p, common);
    assert text[..|text|] == text;
    assert p !in batches ==> Texts(BatchOf(batches, p)) == [];
  }

  /** The same for every prefix of every text. */
  ghost predicate AllTell(result: seq<Line>, batches: Batches, texts: seq<Text>, prefixes: seq<seq<Prefix>>, common: Prefix, i: nat)
    requires |texts| == |prefixes|
  {
    Filed(batches, common) &&
    forall t, p {:trigger Tells(result, batches, p, common, texts[t], i)} ::
      0 <= t < |texts| && p in prefixes[t] ==> Tells(result, batches, p, common, texts[t], i)
  }

  lemma AllCommon(result: seq<Line>, batches: Batches, keys: seq<Prefix>, texts: seq<Text>, prefixes: seq<seq<Prefix>>,
                  common: Prefix, i: nat)
    requires |texts| == |prefixes| && Clear(prefixes, common) && AllTell(result, batches, texts, prefixes, common, i)
    requires (forall t :: 0 <= t < |texts| ==> i < |texts[t]|) && Common(texts, i) && texts != []
    requires Ascending(keys) && forall q :: q in keys <==> q in batches
    ensures AllTell(result + Flushed(batches, keys) + [(common, texts[0][i])], map[], texts, prefixes, common, i + 1)
  {
    var out := result + Flushed(batches, keys) + [(common, texts[0][i])];
    forall t, p | 0 <= t < |texts| && p in prefixes[t]
      ensures Tells(out, map[], p, common, texts[t], i + 1)
    {
      assert Tells(result, batches, p, common, texts[t], i);
      CommonTells(result, batches, keys, p, common, texts[t], i);
    }
  }

  lemma AllBatch(result: seq<Line>, batches: Batches, texts: seq<Text>, prefixes: seq<seq<Prefix>>, common: Prefix, i: nat)
    requires |texts| == |prefixes| && Clear(prefixes, common) && AllTell(result, batches, texts, prefixes, common, i)
    requires forall t :: 0 <= t < |texts| ==> i < |texts[t]|
    ensures AllTell(result, FileTexts(batches, texts, prefixes, i, |texts|), texts, prefixes, common, i + 1)
  {
    var more := FileTexts(batches, texts, prefixes, i, |texts|);
    TextsKeepFiled(batches, texts, prefixes, i, |texts|, common);
    forall t, p | 0 <= t < |texts| && p in prefixes[t]
      ensures Tells(result, more, p, common, texts[t], i + 1)
    {
      assert Tells(result, batches, p, common, texts[t], i);
      TextsFiled(batches, texts, prefixes, i, |texts|, p);
      BatchTells(result, batches, more, p, common, texts[t], i);
    }
  }

  /** With one prefix kept for a text, the common prefix added, the lines are the text. */
  ghost predicate Restores(result: seq<Line>, texts: seq<Text>, prefixes: seq<seq<Prefix>>, common: Prefix)
    requires |texts| == |prefixes|
  {
    forall t, p :: 0 <= t < |texts| && p in prefixes[t] ==> Checked(result, p, common) == texts[t]
  }

  predicate OfAny(prefixes: seq<seq<Prefix>>, p: Prefix) {
    exists t :: 0 <= t < |prefixes| && p in prefixes[t]
  }

  /** Every line is for the common prefix or one of those of a text. */
  ghost predicate Sourced(result: seq<Line>, prefixes: seq<seq<Prefix>>, common: Prefix) {
    forall k :: 0 <= k < |result| ==> result[k].0 == common || OfAny(prefixes, result[k].0)
  }

  ghost predicate KeysSourced(batches: Batches, prefixes: seq<seq<Prefix>>) {
    forall p :: p in batches ==> OfAny(prefixes, p)
  }

  lemma {:induction false} FlushSourced(batches: Batches, keys: seq<Prefix>, prefixes: seq<seq<Prefix>>, common: Prefix)
    requires Filed(batches, common) && KeysSourced(batches, prefixes) && forall q :: q in keys ==> q in batches
    ensures Sourced(Flushed(batches, keys), prefixes, common)
  {
    if keys != [] {
      assert keys[0] in keys;
      FlushSourced(batches, keys[1..], prefixes, common);
    }
  }

  lemma {:induction false} TextSourced(batches: Batches, ps: seq<Prefix>, l: string, prefixes: seq<seq<Prefix>>)
    requires KeysSourced(batches, prefixes) && forall p :: p in ps ==> OfAny(prefixes, p)
    ensures KeysSourced(FileText(batches, ps, l), prefixes)
  {
    if ps != [] {
      assert ps[|ps| - 1] in ps;
      TextSourced(batches, ps[..|ps| - 1], l, prefixes);
    }
  }

  lemma {:induction false} TextsSourced(batches: Batches, texts: seq<Text>, prefixes: seq<seq<Prefix>>, i: nat, t: nat)
    requires |prefixes| == |texts| && t <= |texts| && forall u :: 0 <= u < |texts| ==> i < |texts[u]|
    requires KeysSourced(batches, prefixes)
    ensures KeysSourced(FileTexts(batches, texts, prefixes, i, t), prefixes)
  {
    if t > 0 {
      TextsSourced(batches, texts, prefixes, i, t - 1);
      TextSourced(FileTexts(batches, texts, prefixes, i, t - 1), prefixes[t - 1], texts[t - 1][i], prefixes);
    }
  }

  method AllTheSame(texts: seq<Text>, i: nat) returns (same: bool)
    requires texts != [] && forall t :: 0 <= t < |texts| ==> i < |texts[t]|
    ensures same == Common(texts, i)
  {
    for t := 0 to |texts|
      invariant forall u :: 0 <= u < t ==> texts[u][i] == texts[0][i]
    {
      if texts[t][i] != texts[0][i] {
        return false;
      }
    }
    return true;
  }

  /** _break_down_block, for texts with n lines each. */
  method BreakDownBlock(texts: seq<Text>, prefixes: seq<seq<Prefix>>, common: Prefix, n: nat) returns (result: seq<Line>)
    requires texts != [] && |texts| == |prefixes| && n > 0 && forall t :: 0 <= t < |texts| ==> |texts[t]| == n
    ensures result == [] <==> !Common(texts, 0) || (prefixes[0] == [] && exists i :: 0 <= i < n && !Common(texts, i))
    ensures Clear(prefixes, common) && result != [] ==> Restores(result, texts, prefixes, common)
    ensures Clear(prefixes, common) ==> Sourced(result, prefixes, common)
  {
    hide AllTell, Clear, Restores, FileTexts, Flushed, OfAny;
    result := [];
    var first := AllTheSame(texts, 0);
    if !first {
      return;
    }
    var batches: Batches := map[];
    StartTells(texts, prefixes, common);
    for i := 0 to n
      invariant i > 0 ==> result != []
      invariant prefixes[0] == [] ==> forall j :: 0 <= j < i ==> Common(texts, j)
      invariant Clear(prefixes, common) ==> AllTell(result, batches, texts, prefixes, common, i)
      invariant Clear(prefixes, common) ==> Sourced(result, prefixes, common) && KeysSourced(batches, prefixes)
    {
      var same := AllTheSame(texts, i);
      if same {
        var lines, keys := Flush(batches);
        if Clear(prefixes, common) {
          AllCommon(result, batches, keys, texts, prefixes, common, i);
          TellFiled(result, batches, texts, prefixes, common, i);
          FlushSourced(batches, keys, prefixes, common);
        }
        result := result + lines;
        batches := map[];
        result := result + [(common, texts[0][i])];
      } else {
        if prefixes[0] == [] {
          return [];
        }
        if Clear(prefixes, common) {
          AllBatch(result, batches, texts, prefixes, common, i);
          TextsSourced(batches, texts, prefixes, i, |texts|);
        }
        batches := BatchLine(batches, texts, prefixes, i);
      }
    }
    var lines, keys := Flush(batches);
    if Clear(prefixes, common) {
      AllEnd(result, batches, keys, texts, prefixes, common, n);
      TellFiled(result, batches, texts, prefixes, common, n);
      FlushSourced(batches, keys, prefixes, common);
    }
    result := result + lines;
  }

  lemma TellFiled(result: seq<Line>, batches: Batches, texts: seq<Text>, prefixes: seq<seq<Prefix>>, common: Prefix, i: nat)
    requires |texts| == |prefixes| && AllTell(result, batches, texts, prefixes, common, i)
    ensures Filed(batches, common)
  {
  }

  lemma StartTells(texts: seq<Text>, prefixes: seq<seq<Prefix>>, common: Prefix)
    requires |texts| == |prefixes|
    ensures AllTell([], map[], texts, prefixes, common, 0)
  {
    forall t, p | 0 <= t < |texts| && p in prefixes[t]
      ensures Tells([], map[], p, common, texts[t], 0)
    {
      assert Texts(BatchOf(map[], p)) == [];
    }
  }

  lemma AllEnd(result: seq<Line>, batches: Batches, keys: seq<Prefix>, texts: seq<Text>, prefixes: seq<seq<Prefix>>,
               common: Prefix, n: nat)
    requires |texts| == |prefixes| && Clear(prefixes, common) && AllTell(result, batches, texts, prefixes, common, n)
    requires forall t :: 0 <= t < |texts| ==> |texts[t]| == n
    requires Ascending(keys) && forall q :: q in keys <==> q in batches
    ensures Restores(result + Flushed(batches, keys), texts, prefixes, common)
  {
    forall t, p | 0 <= t < |texts| && p in prefixes[t]
      ensures Checked(result + Flushed(batches, keys), p, common) == texts[t]
    {
      assert Tells(result, batches, p, common, texts[t], n);
      EndTells(result, batches, keys, p, common, texts[t]);
    }
  }
}
