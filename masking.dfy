/** The reserved-word masking of variable binding (TeXCalc/core.py:259-275):
    reserved words are overwritten by `_` runs of their own length while the
    variable letter is replaced, then written back over their recorded
    spans. */
module Masking {
  import opened Wrappers
  import opened Text
  import opened Dicts
  import opened Evaluator

  /** Spans of reserved-word occurrences, each with its word, in the order
      they were recorded (`reserved_word_span_map`). */
  type Spans = Dict<(nat, nat), string>

  function Underscores(n: nat): (r: string)
    ensures |r| == n && forall i :: 0 <= i < n ==> r[i] == '_'
  {
    seq(n, _ => '_')
  }

  /** The span `m.span()` of an occurrence of `w` at `o`. */
  function SpanOf(o: nat, w: string): (nat, nat)
  {
    (o, o + |w|)
  }

  /** `span_map[m.span()] = word` for each occurrence, in order. */
  function Record(spans: Spans, occ: seq<nat>, w: string): Spans
    decreases |occ|
  {
    if occ == [] then spans else Record(Put(spans, SpanOf(occ[0], w), w), occ[1..], w)
  }

  /** The masking loop over the reserved words: each word present has its
      occurrences recorded and is then overwritten by `_`s of its length. */
  function MaskWords(tmp: string, spans: Spans, words: seq<string>): (string, Spans)
    requires forall j :: 0 <= j < |words| ==> |words[j]| > 0
    decreases |words|
  {
    if words == [] then (tmp, spans)
    else
      var w := words[0];
      if Contains(tmp, w) then
        MaskWords(ReplaceAll(tmp, w, Underscores(|w|)), Record(spans, Occurrences(tmp, w, 0), w), words[1..])
      else MaskWords(tmp, spans, words[1..])
  }

  /** Each recorded word written back over its span, in order. */
  function Restore(tmp: string, spans: Spans): string
    decreases |spans|
  {
    if spans == [] then tmp else Restore(Splice(tmp, spans[0].0.0, spans[0].0.1, spans[0].1), spans[1..])
  }

  /** The text with reserved words intact and the variable's occurrences
      outside them turned into `|`. */
  function Marked(context: string, v: string, words: seq<string>): string
    requires |v| > 0 && forall j :: 0 <= j < |words| ==> |words[j]| > 0
  {
    var masked := MaskWords(context, [], words);
    Restore(ReplaceAll(masked.0, v, "|"), masked.1)
  }

  /** What pass 4 stores for a context other than the variable's own. */
  function Bound(context: string, v: string, index: nat, words: seq<string>): string
    requires |v| > 0 && forall j :: 0 <= j < |words| ==> |words[j]| > 0
  {
    ReplaceAll(Marked(context, v, words), "|", Token(index))
  }

  // ---------------------------------------------------------------------
  // What masking guarantees

  /** Position `q` lies inside a recorded span. */
  predicate Covered(spans: Spans, q: int)
    decreases |spans|
  {
    |spans| > 0 && (spans[0].0.0 <= q < spans[0].0.1 || Covered(spans[1..], q))
  }

  /** The span `e.0` is an occurrence, in `context`, of the word `e.1`. */
  predicate SpanOk(context: string, e: ((nat, nat), string))
  {
    e.0.0 + |e.1| == e.0.1 <= |context| && context[e.0.0..e.0.1] == e.1
  }

  /** Every recorded span is an occurrence of its word. */
  predicate SpansOk(context: string, spans: Spans)
    decreases |spans|
  {
    |spans| == 0 || (SpanOk(context, spans[0]) && SpansOk(context, spans[1..]))
  }

  /** Every occurrence in `occ` is one of `w` in `context`. */
  predicate OccOk(context: string, occ: seq<nat>, w: string)
    decreases |occ|
  {
    |occ| == 0 || (SpanOk(context, ((occ[0], occ[0] + |w|), w)) && OccOk(context, occ[1..], w))
  }

  /** The masking state: spans that are occurrences in the original text,
      and the text is `_` exactly over them. */
  predicate MaskInv(context: string, tmp: string, spans: Spans)
  {
    |tmp| == |context| && SpansOk(context, spans) &&
    forall q :: 0 <= q < |tmp| ==> tmp[q] == if Covered(spans, q) then '_' else context[q]
  }

  predicate NoUnderscore(w: string)
  {
    forall j :: 0 <= j < |w| ==> w[j] != '_'
  }

  // str.replace

  /** `str.replace` keeps the length when the replacement is as long as the
      pattern. */
  lemma {:induction false} ReplaceLength(s: string, pat: string, run: string, from: nat)
    requires |pat| > 0 && |run| == |pat| && from <= |s|
    ensures |ReplaceFrom(s, pat, run, from)| == |s| - from
    decreases |s| - from
  {
    if from + |pat| <= |s| {
      if s[from..from + |pat|] == pat {
        ReplaceLength(s, pat, run, from + |pat|);
      } else {
        ReplaceLength(s, pat, run, from + 1);
      }
    }
  }

  /** Position `q` lies inside an occurrence of `pat` that the
      left-to-right scan from `from` finds. */
  predicate Hit(s: string, pat: string, from: nat, q: int)
    requires |pat| > 0 && from <= |s|
    decreases |s| - from
  {
    from + |pat| <= |s| &&
    if StartsWith(s, from, pat) then from <= q < from + |pat| || Hit(s, pat, from + |pat|, q)
    else Hit(s, pat, from + 1, q)
  }

  lemma {:induction false} ReplaceRun(s: string, pat: string, run: string, c: char, from: nat, q: nat)
    requires |pat| > 0 && |run| == |pat| && forall i :: 0 <= i < |run| ==> run[i] == c
    requires from <= q < |s|
    ensures |ReplaceFrom(s, pat, run, from)| == |s| - from
    ensures ReplaceFrom(s, pat, run, from)[q - from] == if Hit(s, pat, from, q) then c else s[q]
    decreases |s| - from, 1
  {
    ReplaceLength(s, pat, run, from);
    if from + |pat| > |s| {
    } else if StartsWith(s, from, pat) {
      ReplaceRunMatch(s, pat, run, c, from, q);
    } else if q > from {
      ReplaceRun(s, pat, run, c, from + 1, q);
    } else {
      HitBefore(s, pat, from + 1, q);
    }
  }

  lemma {:induction false} ReplaceRunMatch(s: string, pat: string, run: string, c: char, from: nat, q: nat)
    requires |pat| > 0 && |run| == |pat| && forall i :: 0 <= i < |run| ==> run[i] == c
    requires from <= q < |s| && StartsWith(s, from, pat)
    ensures |ReplaceFrom(s, pat, run, from)| == |s| - from
    ensures ReplaceFrom(s, pat, run, from)[q - from] == if Hit(s, pat, from, q) then c else s[q]
    decreases |s| - from, 0
  {
    ReplaceLength(s, pat, run, from + |pat|);
    if q >= from + |pat| {
      ReplaceRun(s, pat, run, c, from + |pat|, q);
    }
  }

  lemma {:induction false} HitBefore(s: string, pat: string, from: nat, q: int)
    requires |pat| > 0 && from <= |s| && q < from
    ensures !Hit(s, pat, from, q)
    decreases |s| - from
  {
    if from + |pat| <= |s| {
      if StartsWith(s, from, pat) {
        HitBefore(s, pat, from + |pat|, q);
      } else {
        HitBefore(s, pat, from + 1, q);
      }
    }
  }

  lemma {:induction false} ReplaceChar(s: string, c: char, d: char, from: nat, q: nat)
    requires from <= q < |s|
    ensures |ReplaceFrom(s, [c], [d], from)| == |s| - from
    ensures ReplaceFrom(s, [c], [d], from)[q - from] == if s[q] == c then d else s[q]
    decreases |s| - from
  {
    ReplaceLength(s, [c], [d], from);
    var r := ReplaceFrom(s, [c], [d], from);
    if s[from..from + 1] == [c] {
      assert r == [d] + ReplaceFrom(s, [c], [d], from + 1);
    } else {
      assert r == [s[from]] + ReplaceFrom(s, [c], [d], from + 1);
    }
    if q > from {
      ReplaceChar(s, c, d, from + 1, q);
    }
  }

  // Recording spans

  lemma {:induction false} CoveredAppend(spans: Spans, e: ((nat, nat), string), q: int)
    ensures Covered(spans + [e], q) <==> Covered(spans, q) || e.0.0 <= q < e.0.1
    decreases |spans|
  {
    if spans != [] {
      assert (spans + [e])[1..] == spans[1..] + [e];
      CoveredAppend(spans[1..], e, q);
    }
  }

  lemma {:induction false} CoveredSameSpans(a: Spans, b: Spans, q: int)
    requires |a| == |b| && forall i :: 0 <= i < |a| ==> a[i].0 == b[i].0
    ensures Covered(a, q) <==> Covered(b, q)
    decreases |a|
  {
    if a != [] {
      CoveredSameSpans(a[1..], b[1..], q);
    }
  }

  /** Recording a span covers it on top of what was covered. */
  lemma PutCovered(spans: Spans, key: (nat, nat), w: string, q: int)
    ensures Covered(Put(spans, key, w), q) <==> Covered(spans, q) || key.0 <= q < key.1
  {
    if HasKey(spans, key) {
      var i := Find(spans, key);
      CoveredSameSpans(Put(spans, key, w), spans, q);
      if key.0 <= q < key.1 {
        CoveredAt(spans, i, q);
      }
    } else {
      CoveredAppend(spans, (key, w), q);
    }
  }

  lemma {:induction false} CoveredAt(spans: Spans, i: nat, q: int)
    requires i < |spans| && spans[i].0.0 <= q < spans[i].0.1
    ensures Covered(spans, q)
    decreases i
  {
    if i > 0 {
      CoveredAt(spans[1..], i - 1, q);
    }
  }

  lemma {:induction false} SpansOkAppend(context: string, spans: Spans, e: ((nat, nat), string))
    requires SpansOk(context, spans) && SpanOk(context, e)
    ensures SpansOk(context, spans + [e])
    decreases |spans|
  {
    if spans != [] {
      assert (spans + [e])[1..] == spans[1..] + [e];
      SpansOkAppend(context, spans[1..], e);
    } else {
      assert ([] + [e])[1..] == [];
    }
  }

  lemma {:induction false} SpansOkEach(context: string, spans: Spans)
    ensures SpansOk(context, spans) <==> forall i :: 0 <= i < |spans| ==> SpanOk(context, spans[i])
    decreases |spans|
  {
    if spans != [] {
      SpansOkEach(context, spans[1..]);
      assert forall i :: 1 <= i < |spans| ==> spans[i] == spans[1..][i - 1];
    }
  }

  /** Recording an occurrence keeps every span an occurrence. */
  lemma PutSpansOk(context: string, spans: Spans, key: (nat, nat), w: string)
    requires SpansOk(context, spans) && SpanOk(context, (key, w))
    ensures SpansOk(context, Put(spans, key, w))
  {
    if HasKey(spans, key) {
      SpansOkEach(context, spans);
      SpansOkEach(context, Put(spans, key, w));
    } else {
      SpansOkAppend(context, spans, (key, w));
    }
  }

  /** One step of recording where the word occurs at `from`. */
  lemma RecordMatch(spans: Spans, tmp: string, w: string, from: nat)
    requires |w| > 0 && StartsWith(tmp, from, w)
    ensures Record(spans, Occurrences(tmp, w, from), w) ==
              Record(Put(spans, SpanOf(from, w), w), Occurrences(tmp, w, from + |w|), w)
  {
    var rest := Occurrences(tmp, w, from + |w|);
    assert Occurrences(tmp, w, from) == [from] + rest;
    RecordCons(spans, from, rest, w);
  }

  lemma RecordCons(spans: Spans, o: nat, rest: seq<nat>, w: string)
    ensures Record(spans, [o] + rest, w) == Record(Put(spans, SpanOf(o, w), w), rest, w)
  {
    assert ([o] + rest)[1..] == rest;
  }

  /** One step of the scan where the word does not occur at `from`. */
  lemma ScanSkip(tmp: string, w: string, from: nat, q: int)
    requires |w| > 0 && from + |w| <= |tmp| && !StartsWith(tmp, from, w)
    ensures Occurrences(tmp, w, from) == Occurrences(tmp, w, from + 1)
    ensures Hit(tmp, w, from, q) == Hit(tmp, w, from + 1, q)
  {
  }

  /** The end of the scan. */
  lemma ScanEnd(tmp: string, w: string, from: nat, q: int)
    requires |w| > 0 && from <= |tmp| < from + |w|
    ensures Occurrences(tmp, w, from) == [] && !Hit(tmp, w, from, q)
  {
  }

  lemma HitMatch(tmp: string, w: string, from: nat, q: int)
    requires |w| > 0 && StartsWith(tmp, from, w)
    ensures Hit(tmp, w, from, q) <==> from <= q < from + |w| || Hit(tmp, w, from + |w|, q)
  {
  }

  /** The spans recorded for the occurrences the scan from `from` finds
      cover exactly the positions inside them, on top of the old ones. */
  lemma {:induction false} RecordCovered(spans: Spans, tmp: string, w: string, from: nat, q: int)
    requires |w| > 0 && from <= |tmp|
    ensures Covered(Record(spans, Occurrences(tmp, w, from), w), q) <==> Covered(spans, q) || Hit(tmp, w, from, q)
    decreases |tmp| - from, 1
  {
    if from + |w| > |tmp| {
      ScanEnd(tmp, w, from, q);
    } else if StartsWith(tmp, from, w) {
      RecordCoveredMatch(spans, tmp, w, from, q);
    } else {
      ScanSkip(tmp, w, from, q);
      RecordCovered(spans, tmp, w, from + 1, q);
    }
  }

  lemma {:induction false} RecordCoveredMatch(spans: Spans, tmp: string, w: string, from: nat, q: int)
    requires |w| > 0 && StartsWith(tmp, from, w)
    ensures Covered(Record(spans, Occurrences(tmp, w, from), w), q) <==> Covered(spans, q) || Hit(tmp, w, from, q)
    decreases |tmp| - from, 0
  {
    var key := SpanOf(from, w);
    var put := Put(spans, key, w);
    RecordCovered(put, tmp, w, from + |w|, q);
    assert Covered(put, q) == (Covered(spans, q) || from <= q < from + |w|) by {
      PutCovered(spans, key, w, q);
    }
    assert Hit(tmp, w, from, q) == (from <= q < from + |w| || Hit(tmp, w, from + |w|, q)) by {
      HitMatch(tmp, w, from, q);
    }
    assert Record(spans, Occurrences(tmp, w, from), w) == Record(put, Occurrences(tmp, w, from + |w|), w) by {
      RecordMatch(spans, tmp, w, from);
    }
  }

  /** `tmp` is `context` with some positions overwritten by `_`. */
  predicate Agrees(context: string, tmp: string)
  {
    |tmp| == |context| && forall q :: 0 <= q < |tmp| && tmp[q] != '_' ==> tmp[q] == context[q]
  }

  /** An occurrence, in the masked text, of a word without `_` is one in the
      original text. */
  lemma OccurrenceInContext(context: string, tmp: string, w: string, p: nat)
    requires Agrees(context, tmp) && NoUnderscore(w) && StartsWith(tmp, p, w)
    ensures SpanOk(context, ((p, p + |w|), w))
  {
    forall j | 0 <= j < |w| ensures context[p + j] == w[j] {
      assert tmp[p + j] == tmp[p..p + |w|][j];
    }
  }

  /** The spans recorded for a word without `_` are occurrences of it in
      the original text. */
  lemma {:induction false} RecordSpansOk(context: string, spans: Spans, tmp: string, w: string, from: nat)
    requires |w| > 0 && from <= |tmp| && NoUnderscore(w)
    requires Agrees(context, tmp) && SpansOk(context, spans)
    ensures SpansOk(context, Record(spans, Occurrences(tmp, w, from), w))
    decreases |tmp| - from, 1
  {
    if from + |w| > |tmp| {
      ScanEnd(tmp, w, from, 0);
    } else if StartsWith(tmp, from, w) {
      RecordSpansOkMatch(context, spans, tmp, w, from);
    } else {
      ScanSkip(tmp, w, from, 0);
      RecordSpansOk(context, spans, tmp, w, from + 1);
    }
  }

  lemma {:induction false} RecordSpansOkMatch(context: string, spans: Spans, tmp: string, w: string, from: nat)
    requires |w| > 0 && StartsWith(tmp, from, w) && NoUnderscore(w)
    requires Agrees(context, tmp) && SpansOk(context, spans)
    ensures SpansOk(context, Record(spans, Occurrences(tmp, w, from), w))
    decreases |tmp| - from, 0
  {
    var key := SpanOf(from, w);
    var put := Put(spans, key, w);
    assert Record(spans, Occurrences(tmp, w, from), w) == Record(put, Occurrences(tmp, w, from + |w|), w) by {
      RecordMatch(spans, tmp, w, from);
    }
    assert SpansOk(context, put) by {
      OccurrenceInContext(context, tmp, w, from);
      PutSpansOk(context, spans, key, w);
    }
    RecordSpansOk(context, put, tmp, w, from + |w|);
  }

  // Masking, restoring, marking

  /** One reserved word masked: the text stays `_` exactly over the
      recorded spans, and those stay occurrences in the original text. */
  lemma MaskStep(context: string, tmp: string, spans: Spans, w: string)
    requires MaskInv(context, tmp, spans) && |w| > 0 && NoUnderscore(w)
    ensures MaskInv(context, ReplaceAll(tmp, w, Underscores(|w|)), Record(spans, Occurrences(tmp, w, 0), w))
  {
    var t := ReplaceAll(tmp, w, Underscores(|w|));
    var recorded := Record(spans, Occurrences(tmp, w, 0), w);
    ReplaceLength(tmp, w, Underscores(|w|), 0);
    RecordSpansOk(context, spans, tmp, w, 0);
    forall q | 0 <= q < |t| ensures t[q] == if Covered(recorded, q) then '_' else context[q] {
      ReplaceRun(tmp, w, Underscores(|w|), '_', 0, q);
      RecordCovered(spans, tmp, w, 0, q);
    }
  }

  /** The masking loop keeps the masking state. */
  lemma {:induction false} MaskAll(context: string, tmp: string, spans: Spans, words: seq<string>)
    requires MaskInv(context, tmp, spans)
    requires forall j :: 0 <= j < |words| ==> |words[j]| > 0 && NoUnderscore(words[j])
    ensures MaskInv(context, MaskWords(tmp, spans, words).0, MaskWords(tmp, spans, words).1)
    decreases |words|
  {
    if words != [] {
      var w := words[0];
      if Contains(tmp, w) {
        MaskStep(context, tmp, spans, w);
        MaskAll(context, ReplaceAll(tmp, w, Underscores(|w|)), Record(spans, Occurrences(tmp, w, 0), w), words[1..]);
      } else {
        MaskAll(context, tmp, spans, words[1..]);
      }
    }
  }

  /** Writing a recorded word back over its span puts the original text
      there and leaves the rest alone. */
  lemma SpliceAt(context: string, t: string, e: ((nat, nat), string), q: nat)
    requires |t| == |context| && SpanOk(context, e) && q < |t|
    ensures |Splice(t, e.0.0, e.0.1, e.1)| == |t|
    ensures Splice(t, e.0.0, e.0.1, e.1)[q] == if e.0.0 <= q < e.0.1 then context[q] else t[q]
  {
    if e.0.0 <= q < e.0.1 {
      assert context[e.0.0..e.0.1][q - e.0.0] == context[q];
    }
  }

  /** Restoring puts the original text back exactly over the recorded
      spans. */
  lemma {:induction false} RestoreAt(context: string, t: string, spans: Spans, q: nat)
    requires |t| == |context| && SpansOk(context, spans) && q < |t|
    ensures |Restore(t, spans)| == |t|
    ensures Restore(t, spans)[q] == if Covered(spans, q) then context[q] else t[q]
    decreases |spans|
  {
    if spans != [] {
      var e := spans[0];
      SpliceAt(context, t, e, q);
      RestoreAt(context, Splice(t, e.0.0, e.0.1, e.1), spans[1..], q);
    }
  }

  /** What variable binding does to a context: every character inside a
      recorded reserved-word span comes back verbatim, every occurrence of
      the variable letter outside them becomes the `|` marker, and every
      recorded span is an occurrence of its reserved word. */
  lemma MarkedSpec(context: string, v: string, words: seq<string>, q: nat)
    requires |v| == 1 && v[0] != '_' && q < |context|
    requires forall j :: 0 <= j < |words| ==> |words[j]| > 0 && NoUnderscore(words[j])
    ensures |Marked(context, v, words)| == |context|
    ensures SpansOk(context, MaskWords(context, [], words).1)
    ensures Marked(context, v, words)[q] ==
              if Covered(MaskWords(context, [], words).1, q) then context[q]
              else if context[q] == v[0] then '|' else context[q]
  {
    var masked := MaskWords(context, [], words);
    MaskAll(context, context, [], words);
    assert v == [v[0]];
    ReplaceChar(masked.0, v[0], '|', 0, q);
    RestoreAt(context, ReplaceAll(masked.0, v, "|"), masked.1, q);
  }

  /** A `|` already in a context is taken for the variable too: binding `x`
      to index 1 in `|x` gives two tokens. */
  lemma PipeAlsoBound()
    ensures Bound("|x", "x", 1, []) == Token(1) + Token(1)
  {
    assert ReplaceAll("|x", "x", "|") == "||" by {
      assert ReplaceFrom("|x", "x", "|", 2) == [];
      assert ReplaceFrom("|x", "x", "|", 1) == "|";
    }
    assert Marked("|x", "x", []) == "||";
    var t := Token(1);
    assert ReplaceFrom("||", "|", t, 2) == [];
    assert ReplaceFrom("||", "|", t, 1) == t;
    assert ReplaceFrom("||", "|", t, 0) == t + t;
  }
}
