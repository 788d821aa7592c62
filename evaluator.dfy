/** `ContextProcessor` (TeXCalc/processors.py): one entry of the context map.
    It knows the index tokens of its context, expands the static operands
    into variants, and computes its tuple of values once per combination of
    variable values, keeping the result in a cache. */
module Evaluator {
  import opened Wrappers
  import opened Text
  import opened Fields
  import opened Scanner
  import opened Bodies

  predicate NoDuplicates<T(==)>(xs: seq<T>)
  {
    forall i, j :: 0 <= i < j < |xs| ==> xs[i] != xs[j]
  }

  /** The elements of `xs`, each once, in order of first occurrence. Stands
      for `tuple(set(xs))`, whose order the model does not fix otherwise. */
  function Dedup<T(==,!new)>(xs: seq<T>): (r: seq<T>)
    ensures NoDuplicates(r)
    ensures forall x :: x in r <==> x in xs
    ensures |r| <= |xs|
  {
    if xs == [] then []
    else
      var rest := Dedup(xs[..|xs| - 1]);
      var last := xs[|xs| - 1];
      assert forall x :: x in xs <==> x in xs[..|xs| - 1] || x == last;
      if last in rest then rest else rest + [last]
  }

  /** `itertools.product(*lists)`: every choice of one element per list, the
      first list varying slowest. */
  function Product<T>(lists: seq<seq<T>>): seq<seq<T>>
    decreases |lists|
  {
    if lists == [] then [[]] else PrefixEach(lists[0], Product(lists[1..]))
  }

  /** `[[x] + rest for x in xs for rest in rests]` */
  function PrefixEach<T>(xs: seq<T>, rests: seq<seq<T>>): seq<seq<T>>
  {
    if xs == [] then [] else seq(|rests|, j requires 0 <= j < |rests| => [xs[0]] + rests[j]) + PrefixEach(xs[1..], rests)
  }

  function CountProduct<T>(lists: seq<seq<T>>): nat
  {
    if lists == [] then 1 else |lists[0]| * CountProduct(lists[1..])
  }

  lemma {:induction false} PrefixEachShape<T>(xs: seq<T>, rests: seq<seq<T>>, n: nat)
    requires forall j :: 0 <= j < |rests| ==> |rests[j]| == n
    ensures |PrefixEach(xs, rests)| == |xs| * |rests|
    ensures forall k :: 0 <= k < |PrefixEach(xs, rests)| ==> |PrefixEach(xs, rests)[k]| == n + 1
    ensures forall k :: 0 <= k < |PrefixEach(xs, rests)| ==>
              PrefixEach(xs, rests)[k][0] in xs && PrefixEach(xs, rests)[k][1..] in rests
  {
    if xs != [] {
      PrefixEachShape(xs[1..], rests, n);
      assert |xs| * |rests| == |rests| + (|xs| - 1) * |rests|;
      var r := PrefixEach(xs, rests);
      var tail := PrefixEach(xs[1..], rests);
      forall k | 0 <= k < |r| ensures |r[k]| == n + 1 && r[k][0] in xs && r[k][1..] in rests {
        if k < |rests| {
          assert r[k] == [xs[0]] + rests[k];
          assert r[k][1..] == rests[k];
        } else {
          assert r[k] == tail[k - |rests|];
          assert xs[1..][0] in xs || tail[k - |rests|][0] in xs[1..];
        }
      }
    }
  }

  /** The product has one entry per choice: as many as the product of the
      list lengths, and each entry takes its `i`-th element from list `i`. */
  lemma {:induction false} ProductShape<T>(lists: seq<seq<T>>)
    ensures |Product(lists)| == CountProduct(lists)
    ensures forall k :: 0 <= k < |Product(lists)| ==> |Product(lists)[k]| == |lists|
    ensures forall k, i :: 0 <= k < |Product(lists)| && 0 <= i < |lists| ==> Product(lists)[k][i] in lists[i]
    decreases |lists|
  {
    if lists != [] {
      var rests := Product(lists[1..]);
      ProductShape(lists[1..]);
      PrefixEachShape(lists[0], rests, |lists| - 1);
      var r := Product(lists);
      forall k, i | 0 <= k < |r| && 0 <= i < |lists| ensures r[k][i] in lists[i] {
        if i > 0 {
          var tail := r[k][1..];
          assert tail in rests;
          var m :| 0 <= m < |rests| && rests[m] == tail;
          assert r[k][i] == rests[m][i - 1];
          assert lists[1..][i - 1] == lists[i];
        }
      }
    }
  }

  /** Entry `a * |rests| + b` of `PrefixEach` prefixes element `a` to rest `b`. */
  lemma {:induction false} PrefixEachAt<T>(xs: seq<T>, rests: seq<seq<T>>, a: nat, b: nat)
    requires a < |xs| && b < |rests|
    ensures a * |rests| + b < |PrefixEach(xs, rests)|
    ensures PrefixEach(xs, rests)[a * |rests| + b] == [xs[a]] + rests[b]
  {
    if a > 0 {
      PrefixEachAt(xs[1..], rests, a - 1, b);
      assert a * |rests| + b == |rests| + ((a - 1) * |rests| + b);
    }
  }

  /** The order of the product: the first list varies slowest, so entry
      `a * |Product(lists[1..])| + m` is element `a` of the first list
      followed by entry `m` of the product of the others. */
  lemma {:induction false} ProductAt<T>(lists: seq<seq<T>>, a: nat, m: nat)
    requires |lists| > 0 && a < |lists[0]| && m < |Product(lists[1..])|
    ensures a * |Product(lists[1..])| + m < |Product(lists)|
    ensures Product(lists)[a * |Product(lists[1..])| + m] == [lists[0][a]] + Product(lists[1..])[m]
  {
    PrefixEachAt(lists[0], Product(lists[1..]), a, m);
  }

  /** Every choice of one element per list is an entry of the product. */
  lemma {:induction false} ProductComplete<T>(lists: seq<seq<T>>, choice: seq<T>)
    requires |choice| == |lists| && forall i :: 0 <= i < |lists| ==> choice[i] in lists[i]
    ensures choice in Product(lists)
    decreases |lists|
  {
    if lists != [] {
      forall i | 0 <= i < |lists| - 1 ensures choice[1..][i] in lists[1..][i] {
        assert choice[1..][i] == choice[i + 1];
      }
      ProductComplete(lists[1..], choice[1..]);
      PrefixEachHas(lists[0], Product(lists[1..]), choice[0], choice[1..]);
      assert [choice[0]] + choice[1..] == choice;
    }
  }

  lemma PrefixEachHas<T>(xs: seq<T>, rests: seq<seq<T>>, x: T, rest: seq<T>)
    requires x in xs && rest in rests
    ensures [x] + rest in PrefixEach(xs, rests)
  {
    var a :| 0 <= a < |xs| && xs[a] == x;
    var b :| 0 <= b < |rests| && rests[b] == rest;
    PrefixEachAt(xs, rests, a, b);
  }

  /** An entry of `STATIC_OPERANDS`: the text its regex matches and the
      alternatives it expands to (as `f"{value}"` writes them). */
  datatype StaticOperand = StaticOperand(text: string, alternatives: seq<string>)

  /** `STATIC_OPERANDS`, in dict order. */
  const StaticOperands: seq<StaticOperand> := [
    StaticOperand("\\pm", ["+", "-"]),
    StaticOperand("\\mp", ["-", "+"]),
    StaticOperand("\\Phi", ["1.6180339887"]),
    StaticOperand("\\pi", ["3.1415926536"]),
    StaticOperand("\\Omega", ["0.0078749969"])]

  /** One replacement: the alternatives and the span `[lo, hi)` they replace. */
  datatype Replacement = Replacement(alternatives: seq<string>, lo: nat, hi: nat)

  /** The `replacements` list: every occurrence of every static operand in
      `context`, operand by operand in dict order, each in text order. */
  function Replacements(context: string, operands: seq<StaticOperand>): (r: seq<Replacement>)
    requires forall i :: 0 <= i < |operands| ==> |operands[i].text| > 0
    ensures forall i :: 0 <= i < |r| ==> r[i].lo <= r[i].hi <= |context|
  {
    if operands == [] then []
    else
      var op := operands[0];
      var occ := Occurrences(context, op.text, 0);
      seq(|occ|, i requires 0 <= i < |occ| => Replacement(op.alternatives, occ[i], occ[i] + |op.text|)) +
      Replacements(context, operands[1..])
  }

  function Alternatives(rs: seq<Replacement>): (r: seq<seq<string>>)
    ensures |r| == |rs| && forall i :: 0 <= i < |rs| ==> r[i] == rs[i].alternatives
  {
    seq(|rs|, i requires 0 <= i < |rs| => rs[i].alternatives)
  }

  function Min(a: nat, b: nat): nat { if a <= b then a else b }

  /** `f"{s[:lo]}{v}{s[hi:]}"` with Python's clamping of slice bounds. */
  function Splice(s: string, lo: nat, hi: nat, v: string): string
  {
    s[..Min(lo, |s|)] + v + s[Min(hi, |s|)..]
  }

  /** The inner loop of `__replace_static_operands`: each chosen value is
      spliced at its span of the original context, in turn. */
  function SpliceAll(s: string, rs: seq<Replacement>, values: seq<string>): string
    requires |rs| == |values|
    decreases |rs|
  {
    if rs == [] then s else SpliceAll(Splice(s, rs[0].lo, rs[0].hi, values[0]), rs[1..], values[1..])
  }

  /** Each choice of alternatives spliced into `original`, in product order. */
  function Variants(original: string, rs: seq<Replacement>): seq<string>
  {
    var choices := Product(Alternatives(rs));
    ProductShape(Alternatives(rs));
    seq(|choices|, k requires 0 <= k < |choices| => SpliceAll(original, rs, choices[k]))
  }

  /** The tuple `__replace_static_operands` returns. */
  function StaticVariants(context: string): seq<string>
  {
    Variants(context, Replacements(context, StaticOperands))
  }

  /** The loops of `__replace_static_operands`: for each choice, splice every
      chosen value into the original context. */
  method SpliceVariants(original: string, rs: seq<Replacement>) returns (contexts: seq<string>)
    ensures contexts == Variants(original, rs)
  {
    var choices := Product(Alternatives(rs));
    ProductShape(Alternatives(rs));
    contexts := [];
    for k := 0 to |choices|
      invariant |contexts| == k
      invariant forall j :: 0 <= j < k ==> contexts[j] == SpliceAll(original, rs, choices[j])
    {
      var tmp := original;
      for i := 0 to |rs|
        invariant SpliceAll(original, rs, choices[k]) == SpliceAll(tmp, rs[i..], choices[k][i..])
      {
        assert rs[i..][1..] == rs[i + 1..] && choices[k][i..][1..] == choices[k][i + 1..];
        tmp := Splice(tmp, rs[i].lo, rs[i].hi, choices[k][i]);
      }
      contexts := contexts + [tmp];
    }
  }

  function AlternativeCounts(rs: seq<Replacement>): nat
  {
    CountProduct(Alternatives(rs))
  }

  /** The number of variants is the product of the alternative counts of all
      static-operand occurrences. */
  lemma VariantCount(context: string)
    ensures |StaticVariants(context)| == AlternativeCounts(Replacements(context, StaticOperands))
  {
    assert StaticVariants(context) == Variants(context, Replacements(context, StaticOperands));
    ProductShape(Alternatives(Replacements(context, StaticOperands)));
  }

  lemma {:induction false} NoOccurrences(s: string, w: string, from: nat)
    requires |w| > 0 && from <= |s|
    requires forall p :: from <= p <= |s| ==> !StartsWith(s, p, w)
    ensures Occurrences(s, w, from) == []
    decreases |s| - from
  {
    if from + |w| <= |s| {
      assert !StartsWith(s, from, w);
      NoOccurrences(s, w, from + 1);
    }
  }

  lemma {:induction false} NoReplacements(context: string, operands: seq<StaticOperand>)
    requires forall i :: 0 <= i < |operands| ==> |operands[i].text| > 0 && !Contains(context, operands[i].text)
    ensures Replacements(context, operands) == []
    decreases |operands|
  {
    if operands != [] {
      NoOccurrences(context, operands[0].text, 0);
      NoReplacements(context, operands[1..]);
    }
  }

  /** Without any static operand there is exactly one variant: the context
      itself. */
  lemma NoStaticOperands(context: string)
    requires forall i :: 0 <= i < |StaticOperands| ==> !Contains(context, StaticOperands[i].text)
    ensures StaticVariants(context) == [context]
  {
    NoReplacements(context, StaticOperands);
  }

  /** `re.fullmatch(r'i=(?P<context>.*)', context)`: the start value of a
      counter loses its `i=` prefix. */
  function StripCounter(context: string): (r: string)
    ensures r == context || "i=" + r == context
    ensures r != context <==>
              |context| >= 2 && context[..2] == "i=" && forall i :: 2 <= i < |context| ==> context[i] != '\n'
  {
    if |context| >= 2 && context[..2] == "i=" && forall i :: 2 <= i < |context| ==> context[i] != '\n'
    then context[2..] else context
  }

  /** The text handed to `eval`: `@@` becomes `@*@`, then each index token
      becomes the text of its chosen value. */
  function Substituted(context: string, idxs: seq<nat>, option: seq<real>, ops: Ops): string
    requires |idxs| == |option|
  {
    SubstituteFrom(ReplaceAll(context, "@@", "@*@"), idxs, option, ops)
  }

  function SubstituteFrom(s: string, idxs: seq<nat>, option: seq<real>, ops: Ops): string
    requires |idxs| == |option|
    decreases |idxs|
  {
    if idxs == [] then s else SubstituteFrom(ReplaceAll(s, Token(idxs[0]), ops.show(option[0])), idxs[1..], option[1..], ops)
  }

  /** `eval` of one variant with each choice of index values, in turn. */
  function EvalRow(context: string, idxs: seq<nat>, options: seq<seq<real>>, ops: Ops): (r: seq<Option<real>>)
    requires forall k :: 0 <= k < |options| ==> |options[k]| == |idxs|
    ensures |r| == |options|
    ensures forall k :: 0 <= k < |options| ==> r[k] == ops.eval(Substituted(context, idxs, options[k], ops))
  {
    seq(|options|, k requires 0 <= k < |options| => ops.eval(Substituted(context, idxs, options[k], ops)))
  }

  /** The values of every variant with every choice of index values,
      variant major, or EvalFailure when one `eval` raises. */
  function Evaluated(contexts: seq<string>, idxs: seq<nat>, options: seq<seq<real>>, ops: Ops): (r: Result<seq<real>>)
    requires forall k :: 0 <= k < |options| ==> |options[k]| == |idxs|
    ensures r.Err? ==> r.error == EvalFailure
  {
    if contexts == [] then Ok([])
    else
      var row :- Collect(EvalRow(contexts[0], idxs, options, ops), EvalFailure);
      var rest :- Evaluated(contexts[1..], idxs, options, ops);
      Ok(row + rest)
  }

  /** The fallback yields one value per variant and choice of index values. */
  lemma {:induction false} EvaluatedCount(contexts: seq<string>, idxs: seq<nat>, options: seq<seq<real>>, ops: Ops)
    requires forall k :: 0 <= k < |options| ==> |options[k]| == |idxs|
    requires Evaluated(contexts, idxs, options, ops).Ok?
    ensures |Evaluated(contexts, idxs, options, ops).value| == |contexts| * |options|
  {
    if contexts != [] {
      EvaluatedCount(contexts[1..], idxs, options, ops);
      assert |contexts| * |options| == |options| + (|contexts| - 1) * |options|;
    }
  }

  /** The token substitution loop of `__calculate_origin` for one variant
      and one choice of index values. */
  method Substitute(context: string, idxs: seq<nat>, option: seq<real>, ops: Ops) returns (tmp: string)
    requires |idxs| == |option|
    ensures tmp == Substituted(context, idxs, option, ops)
  {
    tmp := ReplaceAll(context, "@@", "@*@");
    for i := 0 to |idxs|
      invariant Substituted(context, idxs, option, ops) == SubstituteFrom(tmp, idxs[i..], option[i..], ops)
    {
      assert idxs[i..][1..] == idxs[i + 1..] && option[i..][1..] == option[i + 1..];
      tmp := ReplaceAll(tmp, Token(idxs[i]), ops.show(option[i]));
    }
  }

  /** The loop over the choices of index values for one variant. */
  method EvaluateVariant(context: string, idxs: seq<nat>, options: seq<seq<real>>, ops: Ops)
    returns (r: Result<seq<real>>)
    requires forall k :: 0 <= k < |options| ==> |options[k]| == |idxs|
    ensures r == Collect(EvalRow(context, idxs, options, ops), EvalFailure)
  {
    ghost var row := EvalRow(context, idxs, options, ops);
    var calculated: seq<real> := [];
    for o := 0 to |options|
      invariant |calculated| == o && forall i :: 0 <= i < o ==> row[i] == Some(calculated[i])
    {
      var tmp := Substitute(context, idxs, options[o], ops);
      var v := ops.eval(tmp);
      if v.None? {
        return Err(EvalFailure);
      }
      calculated := calculated + [v.value];
    }
    assert Collect(row, EvalFailure).value == calculated;
    return Ok(calculated);
  }

  /** The nested loops at the end of `__calculate_origin`: every variant
      with every choice of index values goes through `eval`. */
  method EvaluateAll(contexts: seq<string>, idxs: seq<nat>, options: seq<seq<real>>, ops: Ops)
    returns (r: Result<seq<real>>)
    requires forall k :: 0 <= k < |options| ==> |options[k]| == |idxs|
    ensures r == Evaluated(contexts, idxs, options, ops)
  {
    var calculated: seq<real> := [];
    PrefixNothing(Evaluated(contexts, idxs, options, ops));
    for c := 0 to |contexts|
      invariant Evaluated(contexts, idxs, options, ops) == PrefixAll(calculated, Evaluated(contexts[c..], idxs, options, ops))
    {
      assert contexts[c..][1..] == contexts[c + 1..];
      var row := EvaluateVariant(contexts[c], idxs, options, ops);
      if row.Err? {
        return row;
      }
      PrefixStep(calculated, row.value, Evaluated(contexts[c + 1..], idxs, options, ops));
      calculated := calculated + row.value;
    }
    assert contexts[|contexts|..] == [];
    assert calculated + [] == calculated;
    return Ok(calculated);
  }

  /** The leftmost `@/n/@` token at or after `from`: its start. */
  function TokenSearch(s: string, from: nat): (r: Option<nat>)
    requires from <= |s|
    ensures r.Some? ==> from <= r.value < |s| && TokenAt(s, r.value).Some?
    ensures r.Some? ==> forall q :: from <= q < r.value ==> TokenAt(s, q).None?
    ensures r.None? ==> forall q :: from <= q <= |s| ==> TokenAt(s, q).None?
    decreases |s| - from
  {
    if from == |s| then None
    else if TokenAt(s, from).Some? then Some(from)
    else TokenSearch(s, from + 1)
  }

  /** The numbers of the tokens met by searching, resuming after each match. */
  function TokenScan(s: string): seq<nat>
    decreases |s|
  {
    match TokenSearch(s, 0)
    case None => []
    case Some(p) =>
      var e := TokenAt(s, p).value;
      [TokenValue(s, p)] + TokenScan(s[e..])
  }

  /** `_indices`: the token numbers of a context, each once. */
  function TokenIndices(context: string): seq<nat>
  {
    Dedup(TokenScan(context))
  }

  /** Every index stands for a token of the context. */
  lemma {:induction false} TokenScanSound(s: string)
    ensures forall n :: n in TokenScan(s) ==>
              exists p :: 0 <= p <= |s| && TokenAt(s, p).Some? && TokenValue(s, p) == n
    decreases |s|
  {
    match TokenSearch(s, 0)
    case None =>
    case Some(p) =>
      var e := TokenAt(s, p).value;
      var t := s[e..];
      TokenScanSound(t);
      forall n | n in TokenScan(s)
        ensures exists q :: 0 <= q <= |s| && TokenAt(s, q).Some? && TokenValue(s, q) == n
      {
        if n != TokenValue(s, p) {
          assert n in TokenScan(t);
          var q :| 0 <= q <= |t| && TokenAt(t, q).Some? && TokenValue(t, q) == n;
          TokenShift(s, e, q);
        }
      }
  }

  /** Every token the scan can reach is collected: a token at `p` that no
      earlier token overlaps has its number among the indices. (A token
      sharing its first `@` with the last `@` of the token before it, as in
      `@/1/@/2/@`, is skipped, as the resumed search skips it.) */
  lemma TokenIndicesComplete(s: string, p: nat)
    requires p <= |s| && TokenAt(s, p).Some?
    requires forall q :: 0 <= q < p && TokenAt(s, q).Some? ==> TokenAt(s, q).value <= p
    ensures TokenValue(s, p) in TokenIndices(s)
  {
    TokenScanComplete(s, p);
  }

  lemma {:induction false} TokenScanComplete(s: string, p: nat)
    requires p <= |s| && TokenAt(s, p).Some?
    requires forall q :: 0 <= q < p && TokenAt(s, q).Some? ==> TokenAt(s, q).value <= p
    ensures TokenValue(s, p) in TokenScan(s)
    decreases |s|, 1
  {
    var q := TokenSearch(s, 0).value;
    ScanStep(s);
    if q < p {
      TokenScanPast(s, TokenAt(s, q).value, p);
    }
  }

  /** The token at `p` is met again when the scan resumes at `e`, the end of
      an earlier token. */
  lemma {:induction false} TokenScanPast(s: string, e: nat, p: nat)
    requires 0 < e <= p <= |s| && TokenAt(s, p).Some?
    requires forall q :: 0 <= q < p && TokenAt(s, q).Some? ==> TokenAt(s, q).value <= p
    ensures TokenValue(s, p) in TokenScan(s[e..])
    decreases |s|, 0
  {
    TokenAtShiftTo(s, e, p);
    NoOverlapShift(s, e, p);
    TokenScanComplete(s[e..], p - e);
  }

  /** One step of the scan: the first token, then the scan of what follows it. */
  lemma ScanStep(s: string)
    requires TokenSearch(s, 0).Some?
    ensures var q := TokenSearch(s, 0).value;
            TokenScan(s) == [TokenValue(s, q)] + TokenScan(s[TokenAt(s, q).value..])
  {
  }

  /** No token before `p` runs past `p`, in the suffix from `e` as in the whole. */
  lemma NoOverlapShift(s: string, e: nat, p: nat)
    requires e <= p <= |s|
    requires forall q :: 0 <= q < p && TokenAt(s, q).Some? ==> TokenAt(s, q).value <= p
    ensures forall r :: 0 <= r < p - e && TokenAt(s[e..], r).Some? ==> TokenAt(s[e..], r).value <= p - e
  {
    forall r | 0 <= r < p - e && TokenAt(s[e..], r).Some? ensures TokenAt(s[e..], r).value <= p - e {
      TokenAtShift(s, e, r);
    }
  }

  /** A token at `p` is, in the suffix from `e`, a token at `p - e`. */
  lemma TokenAtShiftTo(s: string, e: nat, p: nat)
    requires e <= p <= |s| && TokenAt(s, p).Some?
    ensures TokenAt(s[e..], p - e).Some? && TokenValue(s[e..], p - e) == TokenValue(s, p)
  {
    TokenAtShift(s, e, p - e);
  }

  /** The token recognised at `e + q` is the one recognised at `q` in the
      suffix from `e`. */
  lemma TokenAtShift(s: string, e: nat, q: nat)
    requires e <= |s| && q <= |s| - e
    ensures TokenAt(s[e..], q).Some? <==> TokenAt(s, e + q).Some?
    ensures TokenAt(s[e..], q).Some? ==>
              TokenAt(s, e + q).value == TokenAt(s[e..], q).value + e && TokenValue(s, e + q) == TokenValue(s[e..], q)
  {
    if TokenAt(s, e + q).Some? {
      TokenUnshift(s, e, q);
    }
    if TokenAt(s[e..], q).Some? {
      TokenShift(s, e, q);
    }
  }

  /** A token of the whole string that starts at or after `e` is a token of
      the suffix from `e`. */
  lemma TokenUnshift(s: string, e: nat, q: nat)
    requires e <= |s| && q <= |s| - e && TokenAt(s, e + q).Some?
    ensures TokenAt(s[e..], q).Some?
  {
    var t := s[e..];
    DigitRunShift(s, e, q + 2);
    var d := DigitRunEnd(s, e + q + 2);
    assert t[q] == s[e + q] && t[q + 1] == s[e + q + 1];
    assert t[d - e] == s[d] && t[d - e + 1] == s[d + 1];
  }

  /** A token seen in a suffix is a token of the whole string. */
  lemma TokenShift(s: string, e: nat, q: nat)
    requires e <= |s| && q <= |s| - e && TokenAt(s[e..], q).Some?
    ensures TokenAt(s, e + q) == Some(TokenAt(s[e..], q).value + e)
    ensures TokenValue(s, e + q) == TokenValue(s[e..], q)
  {
    var t := s[e..];
    var end := TokenAt(t, q).value;
    assert s[e + q..e + end] == t[q..end];
    SlashShift(s, e, q + 1);
    assert s[e + q + 2..e + end - 2] == t[q + 2..end - 2];
  }

  lemma SlashShift(s: string, e: nat, q: nat)
    requires e <= |s| && q <= |s| - e && SlashNumberAt(s[e..], q).Some?
    ensures SlashNumberAt(s, e + q) == Some(SlashNumberAt(s[e..], q).value + e)
  {
    var t := s[e..];
    DigitRunShift(s, e, q + 1);
  }

  lemma {:induction false} DigitRunShift(s: string, e: nat, q: nat)
    requires e <= |s| && q <= |s| - e
    ensures DigitRunEnd(s, e + q) == DigitRunEnd(s[e..], q) + e
    decreases |s| - e - q
  {
    if q < |s| - e && IsDigit(s[e + q]) {
      DigitRunShift(s, e, q + 1);
    }
  }

  /** A lone token yields its own number. */
  lemma TokenIndicesOfToken(n: nat)
    ensures TokenIndices(Token(n)) == [n]
  {
    var t := Token(n);
    var digits := NatToString(n);
    assert t == "@/" + digits + "/@";
    assert DigitRunEnd(t, 2) == 2 + |digits| by {
      DigitRunFrom(t, 2, |digits|);
    }
    assert TokenAt(t, 0) == Some(|t|);
    assert t[2..|t| - 2] == digits;
    NatToStringValue(n);
    assert TokenValue(t, 0) == n;
    assert t[|t|..] == [];
    assert TokenScan([]) == [];
    assert TokenScan(t) == [n];
    assert Dedup([n]) == [n] by {
      assert [n][..0] == [];
    }
  }

  lemma {:induction false} DigitRunFrom(s: string, p: nat, k: nat)
    requires p + k <= |s| && (forall i :: p <= i < p + k ==> IsDigit(s[i])) && (p + k == |s| || !IsDigit(s[p + k]))
    ensures DigitRunEnd(s, p) == p + k
    decreases k
  {
    if k > 0 {
      DigitRunFrom(s, p + 1, k - 1);
    }
  }

  /** `tuple(str(kwargs[v]) for v in self._vars)`; a missing variable raises
      KeyError. */
  function ComputationKey(vars: seq<string>, kw: map<string, real>, show: real -> string): (r: Result<seq<string>>)
    ensures r.Ok? <==> forall i :: 0 <= i < |vars| ==> vars[i] in kw
    ensures r.Ok? ==> |r.value| == |vars| && forall i :: 0 <= i < |vars| ==> r.value[i] == show(kw[vars[i]])
    ensures r.Err? ==> r.error == KeyError
  {
    if forall i :: 0 <= i < |vars| ==> vars[i] in kw then
      Ok(seq(|vars|, i requires 0 <= i < |vars| && vars[i] in kw => show(kw[vars[i]])))
    else Err(KeyError)
  }

  /** The first variable, in declared order, that `kw` lacks. */
  function FirstMissingVar(vars: seq<string>, kw: map<string, real>): (r: Option<string>)
    ensures r.None? <==> forall i :: 0 <= i < |vars| ==> vars[i] in kw
    ensures r.Some? ==> exists i :: 0 <= i < |vars| && vars[i] == r.value && r.value !in kw &&
                                    forall j :: 0 <= j < i ==> vars[j] in kw
  {
    if vars == [] then None
    else if vars[0] !in kw then Some(vars[0])
    else
      var r := FirstMissingVar(vars[1..], kw);
      assert forall i :: 1 <= i < |vars| ==> vars[i] == vars[1..][i - 1];
      assert r.Some? ==>
               exists i :: 0 <= i < |vars[1..]| && vars[1..][i] == r.value &&
                           (forall j :: 0 <= j < i + 1 ==> vars[j] in kw);
      r
  }

  predicate Extends<K, V(==)>(now: map<K, V>, before: map<K, V>)
  {
    forall k :: k in before ==> k in now && now[k] == before[k]
  }

  class ContextProcessor {
    const index: int
    var context: string
    const indices: seq<nat>
    const vars: seq<string>
    var computed: map<seq<string>, seq<real>>

    /** Every cached tuple holds each value once. */
    ghost predicate Valid()
      reads this
    {
      forall k :: k in computed ==> NoDuplicates(computed[k])
    }

    /** `__init__`: scans the context for index tokens, resuming after each. */
    constructor (context: string, index: int, variableNames: seq<string>)
      ensures this.context == context && this.index == index && vars == variableNames
      ensures indices == TokenIndices(context) && computed == map[]
      ensures Valid()
    {
      var found: seq<nat> := [];
      var tmp := context;
      while true
        invariant TokenScan(context) == found + TokenScan(tmp)
        decreases |tmp|
      {
        var sr := TokenSearch(tmp, 0);
        if sr.None? {
          break;
        }
        var e := TokenAt(tmp, sr.value).value;
        found := found + [TokenValue(tmp, sr.value)];
        tmp := tmp[e..];
      }
      assert found + [] == found;
      this.context := context;
      this.index := index;
      vars := variableNames;
      indices := Dedup(found);
      computed := map[];
    }

    function Key(kw: map<string, real>, show: real -> string): Result<seq<string>>
    {
      ComputationKey(vars, kw, show)
    }

    /** `is_computed_on`: NotEnoughVariables for the first missing variable,
        else whether the key is cached. */
    function IsComputedOn(kw: map<string, real>, show: real -> string): (r: Result<bool>)
      reads this
      ensures r.Ok? ==> Key(kw, show).Ok? && (r.value <==> Key(kw, show).value in computed)
      ensures r.Err? ==> exists v :: v in vars && v !in kw && r.error == NotEnoughVariables(v)
    {
      match FirstMissingVar(vars, kw)
      case Some(v) => Err(NotEnoughVariables(v))
      case None => Ok(Key(kw, show).value in computed)
    }

    predicate Cached(kw: map<string, real>, show: real -> string)
      reads this
    {
      Key(kw, show).Ok? && Key(kw, show).value in computed
    }

    /** Every index of the context has a node that has cached this key. */
    predicate AllDepsCached(nodes: map<int, ContextProcessor>, kw: map<string, real>, show: real -> string)
      reads nodes.Values
    {
      forall d :: d in indices ==> d in nodes && nodes[d].Cached(kw, show)
    }

    /** `__replace_static_operands`. */
    method ReplaceStaticOperands() returns (contexts: seq<string>)
      ensures contexts == StaticVariants(context)
    {
      contexts := SpliceVariants(context, Replacements(context, StaticOperands));
    }

    /** `__calculate_origin`, reached once every index has its values:
        `values` maps each index to the tuple its `compute` answers from
        the cache. */
    method CalculateOrigin(values: map<int, seq<real>>, rules: seq<Rule>, attempt: Attempter,
                           kw: map<string, real>, ops: Ops)
      returns (r: Result<seq<real>>)
      requires forall i :: 0 <= i < |indices| ==> indices[i] in values
      modifies this
      ensures computed == old(computed)
      ensures r == Origin(rules, attempt, old(context), indices, values, kw, ops)
      ensures context == ContextAfter(rules, attempt, old(context), values, kw)
    {
      var found := FirstRule(rules, attempt, context, values);
      if found.Err? {
        return Err(found.error);
      }
      if found.value.Some? {
        return Ok(found.value.value);
      }
      if context in kw {
        return Ok([kw[context]]);
      }
      context := StripCounter(context);
      var contexts := ReplaceStaticOperands();
      var lists := seq(|indices|, j requires 0 <= j < |indices| => values[indices[j]]);
      ProductShape(lists);
      r := EvaluateAll(contexts, indices, Product(lists), ops);
    }

    /** `compute`: the cached tuple for the variables' values in `kw`,
        computing the missing indices first. Python's recursion limit is
        the fuel. */
    method Compute(nodes: map<int, ContextProcessor>, rules: seq<Rule>, attempt: Attempter,
                   kw: map<string, real>, ops: Ops, fuel: nat)
      returns (r: Result<seq<real>>)
      requires forall n :: n in Members(nodes, this) ==> n.Valid()
      modifies Members(nodes, this)
      ensures forall n :: n in Members(nodes, this) ==> n.Valid()
      // caches only grow
      ensures forall n :: n in Members(nodes, this) ==> Extends(n.computed, old(n.computed))
      // the answer is the cache entry of the key, and holds each value once
      ensures r.Ok? ==> Cached(kw, ops.show) && computed[Key(kw, ops.show).value] == r.value && NoDuplicates(r.value)
      // a repeated call answers from the cache and changes nothing
      ensures old(Cached(kw, ops.show)) ==>
                r == Ok(old(computed)[Key(kw, ops.show).value]) &&
                forall n :: n in Members(nodes, this) ==> n.computed == old(n.computed) && n.context == old(n.context)
      // a fresh answer comes after every index has its values
      ensures r.Ok? && !old(Cached(kw, ops.show)) ==> AllDepsCached(nodes, kw, ops.show)
      ensures Key(kw, ops.show).Err? ==> r == Err(KeyError)
      decreases fuel, 2
    {
      var key :- Key(kw, ops.show);
      while key !in computed
        invariant forall n :: n in Members(nodes, this) ==> n.Valid() && Extends(n.computed, old(n.computed))
        invariant key in old(computed) ==>
                    forall n :: n in Members(nodes, this) ==> n.computed == old(n.computed) && n.context == old(n.context)
        invariant key in computed && key !in old(computed) ==> AllDepsCached(nodes, kw, ops.show)
        decreases if key in computed then 0 else if AllDepsCached(nodes, kw, ops.show) then 1 else 2
      {
        var failure := Round(nodes, rules, attempt, kw, ops, fuel);
        if failure.Some? {
          return Err(failure.value);
        }
      }
      r := Ok(computed[key]);
    }

    /** `self._computed[key] = tuple(set(self.__calculate_origin(...)))`:
        the calculated tuple is cached under the key, each value once. */
    method Store(nodes: map<int, ContextProcessor>, rules: seq<Rule>, attempt: Attempter,
                 kw: map<string, real>, ops: Ops)
      returns (failure: Option<Error>)
      requires Key(kw, ops.show).Ok? && AllDepsCached(nodes, kw, ops.show) && Valid()
      modifies this
      ensures Valid()
      ensures var values := old(DepValues(nodes, indices, kw, ops.show));
              var o := Origin(rules, attempt, old(context), indices, values, kw, ops);
              (failure.None? <==> o.Ok?) &&
              (o.Ok? ==> computed == old(computed)[Key(kw, ops.show).value := Dedup(o.value)]) &&
              (o.Err? ==> failure == Some(o.error) && computed == old(computed)) &&
              // only the arithmetic fallback rewrites the context
              context == ContextAfter(rules, attempt, old(context), values, kw)
    {
      var origin := CalculateOrigin(DepValues(nodes, indices, kw, ops.show), rules, attempt, kw, ops);
      if origin.Err? {
        return Some(origin.error);
      }
      computed := computed[Key(kw, ops.show).value := Dedup(origin.value)];
      return None;
    }

    /** One pass of the `while` loop of `compute`: with every index at hand
        the tuple is calculated and cached; otherwise the missing indices
        are computed. Either way every index ends up with its values. */
    method Round(nodes: map<int, ContextProcessor>, rules: seq<Rule>, attempt: Attempter,
                 kw: map<string, real>, ops: Ops, fuel: nat)
      returns (failure: Option<Error>)
      requires Key(kw, ops.show).Ok? && !Cached(kw, ops.show)
      requires forall n :: n in Members(nodes, this) ==> n.Valid()
      modifies Members(nodes, this)
      ensures forall n :: n in Members(nodes, this) ==> n.Valid() && Extends(n.computed, old(n.computed))
      ensures failure.None? ==> AllDepsCached(nodes, kw, ops.show)
      ensures failure.None? && old(AllDepsCached(nodes, kw, ops.show)) ==> Cached(kw, ops.show)
      // with every index at hand the entry written is the calculated tuple, each value once
      ensures old(AllDepsCached(nodes, kw, ops.show)) ==>
                var values := old(DepValues(nodes, indices, kw, ops.show));
                var o := Origin(rules, attempt, old(context), indices, values, kw, ops);
                (failure.None? <==> o.Ok?) &&
                (o.Ok? ==> computed[Key(kw, ops.show).value] == Dedup(o.value)) &&
                (o.Err? ==> failure == Some(o.error)) &&
                context == ContextAfter(rules, attempt, old(context), values, kw)
      decreases fuel, 1
    {
      var key := Key(kw, ops.show).value;
      var notCalculated := NotCalculated(nodes, indices, kw, ops.show);
      if AllDepsCached(nodes, kw, ops.show) {
        NothingToCalculate(nodes, indices, kw, ops.show);
      }
      if notCalculated.Err? {
        return Some(notCalculated.error);
      }
      var missing := notCalculated.value;
      if |missing| == 0 {
        failure := Store(nodes, rules, attempt, kw, ops);
        return;
      }
      // the loop over an empty `indices` does nothing, so it is only entered here
      assert missing[0] in missing;
      failure := ComputeAll(nodes, missing, rules, attempt, kw, ops, fuel);
      if failure.Some? {
        return;
      }
      forall d | d in indices ensures d in nodes && nodes[d].Cached(kw, ops.show) {
        if d !in missing {
          assert old(nodes[d].Cached(kw, ops.show));
        }
      }
    }
  }

  /** The loop over the missing indices in `compute`: each node computes its
      tuple in turn; the first failure stops the loop. */
  method ComputeAll(nodes: map<int, ContextProcessor>, ds: seq<nat>, rules: seq<Rule>, attempt: Attempter,
                    kw: map<string, real>, ops: Ops, fuel: nat)
    returns (failure: Option<Error>)
    requires forall i :: 0 <= i < |ds| ==> ds[i] in nodes
    requires forall n :: n in nodes.Values ==> n.Valid()
    modifies nodes.Values
    ensures forall n :: n in nodes.Values ==> n.Valid() && Extends(n.computed, old(n.computed))
    ensures failure.None? ==> forall d :: d in ds ==> nodes[d].Cached(kw, ops.show)
    decreases fuel, 0
  {
    for j := 0 to |ds|
      invariant forall n :: n in nodes.Values ==> n.Valid() && Extends(n.computed, old(n.computed))
      invariant forall t :: 0 <= t < j ==> nodes[ds[t]].Cached(kw, ops.show)
    {
      if fuel == 0 {
        return Some(OutOfFuel);
      }
      var node := nodes[ds[j]];
      assert Members(nodes, node) == nodes.Values;
      var sub := node.Compute(nodes, rules, attempt, kw, ops, fuel - 1);
      if sub.Err? {
        return Some(sub.error);
      }
    }
    assert forall d :: d in ds ==> exists t :: 0 <= t < |ds| && ds[t] == d;
    return None;
  }

  /** The nodes a computation may touch. */
  function Members(nodes: map<int, ContextProcessor>, self: ContextProcessor): set<ContextProcessor>
  {
    nodes.Values + {self}
  }

  /** `get_not_calculated_indices_for` over `idxs`: KeyError for an index
      without a node, a dependency's own NotEnoughVariables, else the
      indices whose node has not cached this key. */
  function NotCalculated(nodes: map<int, ContextProcessor>, idxs: seq<nat>, kw: map<string, real>,
                         show: real -> string): (r: Result<seq<nat>>)
    reads nodes.Values
    ensures r.Ok? ==> forall d :: d in idxs ==> d in nodes && nodes[d].Key(kw, show).Ok?
    ensures r.Ok? ==> forall d :: d in r.value <==> d in idxs && !nodes[d].Cached(kw, show)
  {
    if idxs == [] then Ok([])
    else if idxs[0] !in nodes then Err(KeyError)
    else
      var dep := nodes[idxs[0]];
      var here :- dep.IsComputedOn(kw, show);
      var rest :- NotCalculated(nodes, idxs[1..], kw, show);
      assert forall i :: 1 <= i < |idxs| ==> idxs[i] == idxs[1..][i - 1];
      Ok(if here then rest else [idxs[0]] + rest)
  }

  /** With every index cached for the key, nothing is left to calculate. */
  lemma {:induction false} NothingToCalculate(nodes: map<int, ContextProcessor>, idxs: seq<nat>, kw: map<string, real>,
                                              show: real -> string)
    requires forall d :: d in idxs ==> d in nodes && nodes[d].Cached(kw, show)
    ensures NotCalculated(nodes, idxs, kw, show) == Ok([])
    decreases |idxs|
  {
    if idxs != [] {
      var dep := nodes[idxs[0]];
      assert dep.Cached(kw, show);
      assert FirstMissingVar(dep.vars, kw).None?;
      NothingToCalculate(nodes, idxs[1..], kw, show);
    }
  }

  /** The index values `compute` hands to a rule, read from the caches. */
  function DepValues(nodes: map<int, ContextProcessor>, idxs: seq<nat>, kw: map<string, real>,
                     show: real -> string): (m: map<int, seq<real>>)
    reads nodes.Values
    ensures forall d :: d in m <==> d in idxs && d in nodes && nodes[d].Cached(kw, show)
  {
    map d | d in idxs && d in nodes && nodes[d].Cached(kw, show) :: nodes[d].computed[nodes[d].Key(kw, show).value]
  }

  /** One turn of the dispatch loop of `__calculate_origin`: None when the
      rule's pattern does not occur. A failure while creating the processor
      propagates as it is; a failure of its `compute` becomes
      NotComputableProcessor. */
  function Attempt(rule: Rule, context: string, values: map<int, seq<real>>, ops: Ops): (r: Result<Option<seq<real>>>)
    ensures r == Ok(None) <==> ProcessOnce(rule, context) == Ok(None)
    ensures ProcessOnce(rule, context).Err? ==> r == Err(ProcessOnce(rule, context).error)
    ensures ProcessOnce(rule, context).Ok? && ProcessOnce(rule, context).value.Some? ==>
              var p := ProcessOnce(rule, context).value.value;
              WellShaped(p) &&
              (RuleCompute(p, values, ops).Ok? ==> r == Ok(Some(RuleCompute(p, values, ops).value))) &&
              (RuleCompute(p, values, ops).Err? ==> r == Err(NotComputableProcessor(RuleCompute(p, values, ops).error)))
  {
    match ProcessOnce(rule, context)
    case Err(e) => Err(e)
    case Ok(None) => Ok(None)
    case Ok(Some(p)) =>
      match RuleCompute(p, values, ops)
      case Ok(vs) => Ok(Some(vs))
      case Err(e) => Err(NotComputableProcessor(e))
  }

  /** A rule tried on a context with the index values at hand. */
  type Attempter = (Rule, string, map<int, seq<real>>) -> Result<Option<seq<real>>>

  /** The rules as the library applies them. */
  function RuleAttempt(ops: Ops): (attempt: Attempter)
    ensures forall rule, context, values :: attempt(rule, context, values) == Attempt(rule, context, values, ops)
  {
    (rule, context, values) => Attempt(rule, context, values, ops)
  }

  /** The library's attempter skips a rule exactly when its pattern does
      not occur in the context. */
  lemma AttemptSkips(rule: Rule, ops: Ops, context: string, values: map<int, seq<real>>)
    ensures RuleAttempt(ops)(rule, context, values) == Ok(None) <==> Search(rule, context).None?
  {
    assert RuleAttempt(ops)(rule, context, values) == Attempt(rule, context, values, ops);
  }

  /** The rule at `i` decides when every rule before it skips and it does
      not. */
  lemma {:induction false} FirstDecides(rules: seq<Rule>, attempt: Attempter, context: string,
                                        values: map<int, seq<real>>, i: nat)
    requires i < |rules| && attempt(rules[i], context, values) != Ok(None)
    requires forall j :: 0 <= j < i ==> attempt(rules[j], context, values) == Ok(None)
    ensures Dispatch(rules, attempt, context, values) == attempt(rules[i], context, values)
  {
    if i > 0 {
      assert attempt(rules[0], context, values) == Ok(None);
      assert rules[1..][i - 1] == rules[i];
      forall j | 0 <= j < i - 1 ensures attempt(rules[1..][j], context, values) == Ok(None) {
        assert rules[1..][j] == rules[j + 1];
      }
      FirstDecides(rules[1..], attempt, context, values, i - 1);
    }
  }

  /** With the library's rules, the dispatch loop skips exactly when no
      rule's pattern occurs in the context; otherwise the first rule whose
      pattern occurs decides. */
  lemma LibraryDispatch(rules: seq<Rule>, ops: Ops, context: string, values: map<int, seq<real>>)
    ensures Dispatch(rules, RuleAttempt(ops), context, values) == Ok(None) <==>
              forall i :: 0 <= i < |rules| ==> Search(rules[i], context).None?
    ensures forall i :: 0 <= i < |rules| && Search(rules[i], context).Some? &&
                        (forall j :: 0 <= j < i ==> Search(rules[j], context).None?) ==>
              Dispatch(rules, RuleAttempt(ops), context, values) == Attempt(rules[i], context, values, ops)
  {
    var attempt := RuleAttempt(ops);
    forall i | 0 <= i < |rules|
      ensures attempt(rules[i], context, values) == Ok(None) <==> Search(rules[i], context).None?
    {
      AttemptSkips(rules[i], ops, context, values);
    }
    forall i | 0 <= i < |rules| && Search(rules[i], context).Some? &&
               (forall j :: 0 <= j < i ==> Search(rules[j], context).None?)
      ensures Dispatch(rules, attempt, context, values) == Attempt(rules[i], context, values, ops)
    {
      FirstDecides(rules, attempt, context, values, i);
    }
  }

  /** The dispatch loop of `__calculate_origin`: the first rule that does
      not skip gives the values or the failure; None when every rule skips. */
  function Dispatch(rules: seq<Rule>, attempt: Attempter, context: string, values: map<int, seq<real>>): (r: Result<Option<seq<real>>>)
    ensures r == Ok(None) <==> forall i :: 0 <= i < |rules| ==> attempt(rules[i], context, values) == Ok(None)
    ensures r != Ok(None) ==>
              exists i :: 0 <= i < |rules| && attempt(rules[i], context, values) == r &&
                          forall j :: 0 <= j < i ==> attempt(rules[j], context, values) == Ok(None)
  {
    if rules == [] then Ok(None)
    else
      var first := attempt(rules[0], context, values);
      if first == Ok(None) then
        var r := Dispatch(rules[1..], attempt, context, values);
        assert forall i :: 1 <= i < |rules| ==> rules[i] == rules[1..][i - 1];
        if r != Ok(None) then
          var i :| 0 <= i < |rules[1..]| && attempt(rules[1..][i], context, values) == r &&
                   forall j :: 0 <= j < i ==> attempt(rules[1..][j], context, values) == Ok(None);
          assert attempt(rules[i + 1], context, values) == r;
          r
        else r
      else first
  }

  /** The `for` loop over the processor classes in `__calculate_origin`:
      it returns at the first class that does not skip. */
  method FirstRule(rules: seq<Rule>, attempt: Attempter, context: string, values: map<int, seq<real>>)
    returns (r: Result<Option<seq<real>>>)
    ensures r == Dispatch(rules, attempt, context, values)
  {
    for i := 0 to |rules|
      invariant Dispatch(rules, attempt, context, values) == Dispatch(rules[i..], attempt, context, values)
    {
      var found := attempt(rules[i], context, values);
      if found != Ok(None) {
        return found;
      }
      assert rules[i..][1..] == rules[i + 1..];
    }
    return Ok(None);
  }

  /** `__calculate_origin` on a context whose index values are known: a rule,
      else the value of a variable that is the whole context, else the
      arithmetic fallback over every static variant and every choice of
      index values. */
  function Origin(rules: seq<Rule>, attempt: Attempter, context: string, idxs: seq<nat>, values: map<int, seq<real>>,
                  kw: map<string, real>, ops: Ops): Result<seq<real>>
    requires forall i :: 0 <= i < |idxs| ==> idxs[i] in values
  {
    var dispatched :- Dispatch(rules, attempt, context, values);
    if dispatched.Some? then Ok(dispatched.value)
    else if context in kw then Ok([kw[context]])
    else
      var lists := seq(|idxs|, i requires 0 <= i < |idxs| => values[idxs[i]]);
      ProductShape(lists);
      Evaluated(StaticVariants(StripCounter(context)), idxs, Product(lists), ops)
  }

  /** The fallback yields one value per static variant and per choice of
      index values. */
  lemma OriginCount(rules: seq<Rule>, attempt: Attempter, context: string, idxs: seq<nat>, values: map<int, seq<real>>,
                    kw: map<string, real>, ops: Ops)
    requires forall i :: 0 <= i < |idxs| ==> idxs[i] in values
    requires Dispatch(rules, attempt, context, values) == Ok(None) && context !in kw
    requires Origin(rules, attempt, context, idxs, values, kw, ops).Ok?
    ensures var lists := seq(|idxs|, i requires 0 <= i < |idxs| => values[idxs[i]]);
            |Origin(rules, attempt, context, idxs, values, kw, ops).value| ==
              |StaticVariants(StripCounter(context))| * CountProduct(lists)
  {
    var lists := seq(|idxs|, i requires 0 <= i < |idxs| => values[idxs[i]]);
    ProductShape(lists);
    EvaluatedCount(StaticVariants(StripCounter(context)), idxs, Product(lists), ops);
  }

  /** The context `__calculate_origin` leaves behind: only the fallback
      strips a counter's `i=`. */
  function ContextAfter(rules: seq<Rule>, attempt: Attempter, context: string, values: map<int, seq<real>>,
                        kw: map<string, real>): string
  {
    if Dispatch(rules, attempt, context, values) == Ok(None) && context !in kw then StripCounter(context) else context
  }
}
