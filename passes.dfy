/** The rewriting passes of `TeXCalc.__make_context_map` (TeXCalc/core.py):
    braces, then parentheses and square brackets, then grammar reduction to a
    fixpoint, then variable binding. Every extracted sub-expression gets an
    index and is replaced by its `@/n/@` token. */
module Passes {
  import opened Wrappers
  import opened Text
  import opened Dicts
  import opened Scanner
  import opened Evaluator
  import opened Masking

  // ---------------------------------------------------------------------
  // avoid_parentheses

  /** The change in nesting depth a character makes. */
  function Delta(c: char): int
  {
    if c == '(' then 1 else if c == ')' then -1 else 0
  }

  /** Opening minus closing parentheses in `s`. */
  function Depth(s: string): int
  {
    if s == [] then 0 else Depth(s[..|s| - 1]) + Delta(s[|s| - 1])
  }

  /** No prefix of `m` closes more parentheses than it opened. */
  predicate NeverBelowZero(m: string)
  {
    forall i :: 0 <= i <= |m| ==> Depth(m[..i]) >= 0
  }

  /** The outer characters are dropped: at least three characters, a `(`
      first or a `)` last, and a middle that is balanced. */
  predicate Strippable(c: string)
  {
    |c| > 2 && (c[0] == '(' || c[|c| - 1] == ')') &&
    NeverBelowZero(c[1..|c| - 1]) && Depth(c[1..|c| - 1]) == 0
  }

  /** What `avoid_parentheses` returns for a string. */
  function Unwrapped(c: string): (r: string)
    ensures |c| <= 2 || (c[0] != '(' && c[|c| - 1] != ')') ==> r == c
    ensures r == c || (|r| == |c| - 2 && r == c[1..|c| - 1])
  {
    if Strippable(c) then c[1..|c| - 1] else c
  }

  /** `avoid_parentheses(context)`: a single pass over the middle with a
      running balance, giving up at a `)` that closes nothing. */
  method AvoidParentheses(context: string) returns (r: string)
    ensures r == Unwrapped(context)
  {
    if |context| <= 2 || (context[0] != '(' && context[|context| - 1] != ')') {
      return context;
    }
    var middle := context[1..|context| - 1];
    var balance := 0;
    for i := 0 to |middle|
      invariant balance == Depth(middle[..i])
      invariant forall j :: 0 <= j <= i ==> Depth(middle[..j]) >= 0
    {
      assert middle[..i + 1][..i] == middle[..i];
      if middle[i] == '(' {
        balance := balance + 1;
      } else if middle[i] == ')' && balance > 0 {
        balance := balance - 1;
      } else if middle[i] == ')' && balance <= 0 {
        assert Depth(middle[..i + 1]) < 0;
        return context;
      }
    }
    assert middle[..|middle|] == middle;
    r := if balance == 0 then middle else context;
  }

  lemma {:induction false} DepthAppend(s: string, t: string)
    ensures Depth(s + t) == Depth(s) + Depth(t)
    decreases |t|
  {
    if t != [] {
      var t' := t[..|t| - 1];
      assert (s + t)[..|s + t| - 1] == s + t';
      assert t[..|t| - 1] == t';
      assert (s + t)[|s + t| - 1] == t[|t| - 1];
      DepthAppend(s, t');
    } else {
      assert s + t == s;
    }
  }

  /** When both ends are parentheses and the middle is dropped, the first
      `(` is closed by the last `)` and by nothing before it. */
  lemma OuterPairCloses(c: string)
    requires Strippable(c) && c[0] == '(' && c[|c| - 1] == ')'
    ensures Depth(c) == 0
    ensures forall i :: 1 <= i < |c| ==> Depth(c[..i]) >= 1
  {
    var m := c[1..|c| - 1];
    forall i | 1 <= i < |c|
      ensures Depth(c[..i]) >= 1
    {
      assert c[..i] == "(" + m[..i - 1];
      DepthAppend("(", m[..i - 1]);
      assert Depth("(") == 1 by { assert "("[..0] == []; }
    }
    assert c[..|c| - 1] == c[..1] + m;
    assert c == c[..|c| - 1] + [c[|c| - 1]];
    assert c == "(" + m + ")";
    DepthAppend("(", m);
    DepthAppend("(" + m, ")");
    assert Depth(")") == -1 by { assert ")"[..0] == []; }
  }

  /** `"((x))"` loses one pair only, so the function is not idempotent. */
  lemma UnwrappedNotIdempotent()
    ensures Unwrapped("((x))") == "(x)"
    ensures Unwrapped(Unwrapped("((x))")) == "x"
  {
    var m := "(x)";
    assert m[..0] == [] && m[..1] == "(" && m[..2] == "(x" && m[..3] == m;
    assert "(x"[..1] == "(" && "("[..0] == [];
    assert Depth("(") == 1;
    assert Depth("(x") == 1;
    assert Depth(m) == 0;
    assert NeverBelowZero(m) by {
      forall i | 0 <= i <= |m| ensures Depth(m[..i]) >= 0 {
        if i == 0 {} else if i == 1 {} else if i == 2 {} else {}
      }
    }
    assert "((x))"[1..4] == m;
    assert "x"[..0] == [] && "x"[..1] == "x";
    assert Depth("x") == 0;
    assert NeverBelowZero("x") by {
      forall i | 0 <= i <= 1 ensures Depth("x"[..i]) >= 0 {
        if i == 0 {} else {}
      }
    }
    assert m[1..2] == "x";
  }

  /** A parenthesis at one end is enough: `"(ab"` loses both of its ends. */
  lemma UnwrappedOneSided()
    ensures Unwrapped("(ab") == "a"
  {
    assert "(ab"[1..2] == "a";
    assert "a"[..0] == [] && "a"[..1] == "a";
    assert Depth("a") == 0;
    assert NeverBelowZero("a") by {
      forall i | 0 <= i <= 1 ensures Depth("a"[..i]) >= 0 {
        if i == 0 {} else {}
      }
    }
  }

  /** `"(2 - 7) - (34 + 4x)"` keeps its ends: its middle closes a `)` at depth 0. */
  lemma UnwrappedSeparateGroups()
    ensures Unwrapped("(a)(b)") == "(a)(b)"
  {
    var m := "a)(b";
    assert "(a)(b)"[1..5] == m;
    assert m[..2] == "a)" && "a)"[..1] == "a" && "a"[..0] == [];
    assert Depth(m[..2]) == -1;
  }

  // ---------------------------------------------------------------------
  // Pass 1: `{…}` groups

  /** Every character of a token is `@`, `/` or a digit. */
  lemma TokenChars(n: nat)
    ensures forall i :: 0 <= i < |Token(n)| ==> Token(n)[i] == '@' || Token(n)[i] == '/' || IsDigit(Token(n)[i])
  {
    var t := Token(n);
    forall i | 0 <= i < |t|
      ensures t[i] == '@' || t[i] == '/' || IsDigit(t[i])
    {
      if i < 2 {
        assert t[..2][i] == t[i];
      } else if i >= |t| - 2 {
        assert t[|t| - 2..][i - (|t| - 2)] == t[i];
      } else {
        assert t[2..|t| - 2][i - 2] == t[i];
      }
    }
  }

  /** The two bracket pairs whose innermost groups are extracted:
      `\{[^{}]+\}` in the first pass and `\(([^()]+)\)` in the second. */
  datatype Pair = Braces | Parens

  function Open(pair: Pair): char { if pair == Braces then '{' else '(' }
  function Close(pair: Pair): char { if pair == Braces then '}' else ')' }

  /** `[^{}]` or `[^()]` */
  predicate Outside(c: char, pair: Pair) { c != Open(pair) && c != Close(pair) }

  /** Non-empty and free of the pair's characters. */
  predicate Free(s: string, pair: Pair)
  {
    |s| > 0 && forall i :: 0 <= i < |s| ==> Outside(s[i], pair)
  }

  /** `s` contains an innermost group: the pair around a non-empty content
      free of the pair's characters. */
  predicate HasGroup(s: string, pair: Pair)
  {
    exists p, q :: 0 <= p && p + 1 < q < |s| && s[p] == Open(pair) && s[q] == Close(pair) && Free(s[p + 1..q], pair)
  }

  /** The group pattern at `p`: the end of the group that starts there. */
  function GroupAt(s: string, p: nat, pair: Pair): (r: Option<nat>)
    requires p <= |s|
    ensures r.Some? ==> p + 3 <= r.value <= |s| && s[p] == Open(pair) && s[r.value - 1] == Close(pair) &&
                        Free(s[p + 1..r.value - 1], pair)
  {
    if p < |s| && s[p] == Open(pair) then
      var e := RunEnd(s, p + 1, c => Outside(c, pair));
      if e > p + 1 && e < |s| && s[e] == Close(pair) then Some(e + 1) else None
    else None
  }

  /** `pattern.search(s)` from `from`: the leftmost group. */
  function GroupSearch(s: string, from: nat, pair: Pair): (r: Option<(nat, nat)>)
    requires from <= |s|
    ensures r.Some? ==> from <= r.value.0 < |s| && GroupAt(s, r.value.0, pair) == Some(r.value.1)
    ensures r.Some? ==> forall p :: from <= p < r.value.0 ==> GroupAt(s, p, pair).None?
    ensures r.None? ==> forall p :: from <= p <= |s| ==> GroupAt(s, p, pair).None?
    decreases |s| - from
  {
    if from == |s| then None
    else match GroupAt(s, from, pair)
      case Some(e) => Some((from, e))
      case None => GroupSearch(s, from + 1, pair)
  }

  /** The matcher finds every group that the regex admits. */
  lemma GroupFound(s: string, p: nat, q: nat, pair: Pair)
    requires p + 1 < q < |s| && s[p] == Open(pair) && s[q] == Close(pair) && Free(s[p + 1..q], pair)
    ensures GroupAt(s, p, pair) == Some(q + 1)
  {
    forall i | p + 1 <= i < q ensures Outside(s[i], pair) {
      assert s[p + 1..q][i - (p + 1)] == s[i];
    }
  }

  /** A search that finds nothing leaves no group anywhere. */
  lemma NoGroup(s: string, pair: Pair)
    requires GroupSearch(s, 0, pair).None?
    ensures !HasGroup(s, pair)
  {
    if HasGroup(s, pair) {
      var p, q :| 0 <= p && p + 1 < q < |s| && s[p] == Open(pair) && s[q] == Close(pair) && Free(s[p + 1..q], pair);
      GroupFound(s, p, q, pair);
      assert false;
    }
  }

  lemma GroupWitness(s: string, a: nat, b: nat, pair: Pair)
    requires a <= |s| && GroupAt(s, a, pair) == Some(b)
    ensures HasGroup(s, pair)
  {
    assert s[a] == Open(pair) && s[b - 1] == Close(pair) && Free(s[a + 1..b - 1], pair);
  }

  /** Entries `1..k` in order, each under a distinct brace-free text. */
  predicate Numbered(groups: Dict<string, int>, k: nat)
  {
    |groups| == k && DistinctKeys(groups) &&
    forall i :: 0 <= i < |groups| ==> groups[i].1 == i + 1 && Free(groups[i].0, Braces)
  }

  /** `if context not in map: k += 1; map[context] = k`, then `map[context]`. */
  function Enter(groups: Dict<string, int>, k: nat, context: string): (r: (Dict<string, int>, nat, nat))
    requires Numbered(groups, k) && Free(context, Braces)
    ensures Numbered(r.0, r.1) && Get(r.0, context) == Some(r.2 as int)
    ensures HasKey(groups, context) ==> r.0 == groups && r.1 == k
    ensures !HasKey(groups, context) ==> r.0 == groups + [(context, k + 1)] && r.1 == k + 1 == r.2
  {
    if HasKey(groups, context) then
      (groups, k, groups[Find(groups, context)].1)
    else
      var g := groups + [(context, k + 1)];
      assert Keys(g)[k] == context;
      (g, k + 1, k + 1)
  }

  /** Replacing a group by a token removes one `{`. */
  lemma BraceReplaced(expr: string, a: nat, b: nat, n: nat)
    requires a < b <= |expr| && expr[a] == '{'
    ensures multiset(expr[..a] + Token(n) + expr[b..])['{'] < multiset(expr)['{']
  {
    TokenChars(n);
    assert '{' !in multiset(Token(n));
    assert expr == expr[..a] + expr[a..b] + expr[b..];
    assert expr[a..b][0] == '{';
  }

  /** The content of a group stays non-empty and brace-free once
      `avoid_parentheses` has dropped its ends. */
  lemma UnwrappedFree(content: string)
    requires Free(content, Braces)
    ensures Free(Unwrapped(content), Braces)
  {
    var c := Unwrapped(content);
    if c != content {
      forall i | 0 <= i < |c| ensures Outside(c[i], Braces) {
        assert c[i] == content[i + 1];
      }
    }
  }

  /** One round of the brace loop: the group found at `a..b` is replaced
      by the token of its content's index. */
  method ReplaceBraceGroup(expr: string, groups: Dict<string, int>, k: nat, a: nat, b: nat)
    returns (expr': string, groups': Dict<string, int>, k': nat)
    requires a <= |expr| && GroupAt(expr, a, Braces) == Some(b) && Numbered(groups, k)
    ensures Numbered(groups', k') && k <= k' <= k + 1
    ensures multiset(expr')['{'] < multiset(expr)['{']
    ensures exists n :: expr' == expr[..a] + Token(n) + expr[b..] && Get(groups', Unwrapped(expr[a + 1..b - 1])) == Some(n as int)
    ensures ' ' !in expr && SpaceFreeKeys(groups) ==> ' ' !in expr' && SpaceFreeKeys(groups')
  {
    var context := AvoidParentheses(expr[a + 1..b - 1]);
    UnwrappedFree(expr[a + 1..b - 1]);
    var entered := Enter(groups, k, context);
    var n := entered.2;
    groups', k' := entered.0, entered.1;
    BraceReplaced(expr, a, b, n);
    expr' := expr[..a] + Token(n) + expr[b..];
    if ' ' !in expr && SpaceFreeKeys(groups) {
      SpliceSpaceFree(expr, a, b, n);
      EnterSpaceFree(groups, k, context);
    }
  }

  lemma EnterSpaceFree(groups: Dict<string, int>, k: nat, context: string)
    requires Numbered(groups, k) && Free(context, Braces)
    requires SpaceFreeKeys(groups) && ' ' !in context
    ensures SpaceFreeKeys(Enter(groups, k, context).0)
  {
  }

  /** Replacing a group of a space-free text by a token leaves no space, and
      neither does the group's content after `avoid_parentheses`. */
  lemma SpliceSpaceFree(expr: string, a: nat, b: nat, n: nat)
    requires a + 2 <= b <= |expr| && ' ' !in expr
    ensures ' ' !in expr[..a] + Token(n) + expr[b..]
    ensures ' ' !in Unwrapped(expr[a + 1..b - 1])
  {
    TokenChars(n);
    assert ' ' !in Token(n);
    assert ' ' !in expr[..a] && ' ' !in expr[b..];
    var c := expr[a + 1..b - 1];
    assert ' ' !in c;
    assert Unwrapped(c) == c || Unwrapped(c) == c[1..|c| - 1];
  }

  /** No group text holds a space. */
  predicate SpaceFreeKeys(groups: Dict<string, int>)
  {
    forall i :: 0 <= i < |groups| ==> ' ' !in groups[i].0
  }

  /** The loop of the brace pass over the space-free expression. */
  method ReplaceBraceGroups(normalized: string) returns (expr: string, groups: Dict<string, int>, k: nat)
    ensures !HasGroup(expr, Braces) && Numbered(groups, k)
    ensures !HasGroup(normalized, Braces) ==> expr == normalized && k == 0
    ensures ' ' !in normalized ==> ' ' !in expr && SpaceFreeKeys(groups)
  {
    expr := normalized;
    groups := [];
    k := 0;
    var found := GroupSearch(expr, 0, Braces);
    while found.Some?
      invariant found == GroupSearch(expr, 0, Braces)
      invariant Numbered(groups, k)
      invariant k > 0 ==> HasGroup(normalized, Braces)
      invariant k == 0 ==> expr == normalized
      invariant ' ' !in normalized ==> ' ' !in expr && SpaceFreeKeys(groups)
      decreases multiset(expr)['{']
    {
      GroupWitness(expr, found.value.0, found.value.1, Braces);
      expr, groups, k := ReplaceBraceGroup(expr, groups, k, found.value.0, found.value.1);
      found := GroupSearch(expr, 0, Braces);
    }
    NoGroup(expr, Braces);
  }

  /** The brace pass (TeXCalc/core.py:165-181): spaces are deleted, then the
      leftmost `{…}` group is replaced by the token of its content (with
      `avoid_parentheses` applied) until none is left; a new content gets
      the next index. The rewritten expression is finally stored under 0. */
  method ExtractBraces(expression: string) returns (expr: string, groups: Dict<string, int>, k: nat)
    ensures !HasGroup(expr, Braces)
    ensures DistinctKeys(groups) && Get(groups, expr) == Some(0)
    ensures forall i :: 0 <= i < |groups| && groups[i].0 != expr ==> groups[i].1 == i + 1 && Free(groups[i].0, Braces)
    ensures k <= |groups| <= k + 1 && Indexed(groups, k)
    ensures !HasGroup(ReplaceAll(expression, " ", ""), Braces) ==>
              expr == ReplaceAll(expression, " ", "") && groups == [(expr, 0)] && k == 0
    // spaces are gone from the expression and from every group text
    ensures ' ' !in expr && SpaceFreeKeys(groups)
    ensures ValuesDistinct(groups)
  {
    var numbered;
    DeleteAll(expression, ' ', 0);
    expr, numbered, k := ReplaceBraceGroups(ReplaceAll(expression, " ", ""));
    groups := Put(numbered, expr, 0);
    PutSpec(numbered, expr, 0);
    forall i | 0 <= i < |groups|
      ensures groups[i].0 != expr ==> groups[i].1 == i + 1 && Free(groups[i].0, Braces)
      ensures 0 <= groups[i].1 <= k
    {
      if i < |numbered| {
        assert groups[i] == if numbered[i].0 == expr then (expr, 0) else numbered[i];
      } else {
        assert groups[i] == (expr, 0);
      }
    }
    if numbered == [] {
      assert groups == [(expr, 0)];
    }
    NumberedDistinct(groups, expr);
  }

  /** The expression under 0 and every other text under its position plus
      one: no two texts share an index. */
  lemma NumberedDistinct(groups: Dict<string, int>, expr: string)
    requires DistinctKeys(groups) && Get(groups, expr) == Some(0)
    requires forall i :: 0 <= i < |groups| && groups[i].0 != expr ==> groups[i].1 == i + 1
    ensures ValuesDistinct(groups)
  {
    forall x, y, v | (x, v) in groups && (y, v) in groups ensures x == y {
      var p :| 0 <= p < |groups| && groups[p] == (x, v);
      var q :| 0 <= q < |groups| && groups[q] == (y, v);
      assert x == expr ==> v == 0;
      assert y == expr ==> v == 0;
    }
  }

  // ---------------------------------------------------------------------
  // Pass 2: `(…)` and `[…]` groups

  /** The largest `q` with `lo < q < hi` and `s[q] == ']'`. */
  function LastCloseBracket(s: string, lo: nat, hi: nat): (r: Option<nat>)
    requires hi <= |s|
    ensures r.Some? ==> lo < r.value < hi && s[r.value] == ']' && forall q :: r.value < q < hi ==> s[q] != ']'
    ensures r.None? ==> forall q :: lo < q < hi ==> s[q] != ']'
    decreases hi
  {
    if hi <= lo + 1 then None
    else if s[hi - 1] == ']' then Some(hi - 1)
    else LastCloseBracket(s, lo, hi - 1)
  }

  /** `(?<=\[)(?P<context>[^\(\)]+)(?=\])` at `p`: the end of the content
      that starts there. The run of non-parentheses is greedy, so the
      content ends at the last `]` the run reaches. */
  function BracketContentAt(s: string, p: nat): (r: Option<nat>)
    requires p <= |s|
    ensures r.Some? ==> 0 < p < r.value < |s| && s[p - 1] == '[' && s[r.value] == ']' &&
                        Free(s[p..r.value], Parens)
  {
    if 0 < p < |s| && s[p - 1] == '[' then
      var e := RunEnd(s, p, c => Outside(c, Parens));
      var r := LastCloseBracket(s, p, e);
      if r.Some? then
        assert forall i :: 0 <= i < r.value - p ==> s[p..r.value][i] == s[p + i];
        r
      else r
    else None
  }

  /** `pat_sq_brackets.search(s)` from `from`: the leftmost content. */
  function BracketSearch(s: string, from: nat): (r: Option<(nat, nat)>)
    requires from <= |s|
    ensures r.Some? ==> from <= r.value.0 < |s| && BracketContentAt(s, r.value.0) == Some(r.value.1)
    ensures r.Some? ==> forall p :: from <= p < r.value.0 ==> BracketContentAt(s, p).None?
    ensures r.None? ==> forall p :: from <= p <= |s| ==> BracketContentAt(s, p).None?
    decreases |s| - from
  {
    if from == |s| then None
    else match BracketContentAt(s, from)
      case Some(e) => Some((from, e))
      case None => BracketSearch(s, from + 1)
  }

  /** What one round of the inner loop of pass 2 extracts from `tmp`: the
      span to replace and the content to index, or None when the loop
      breaks. A parenthesised group is replaced with its parentheses; a
      square-bracket content is replaced inside its brackets, and one that
      is already a single token ends the loop. */
  function NextGroup(tmp: string): (r: Option<(nat, nat, string)>)
    ensures r.Some? ==> r.value.0 < r.value.1 <= |tmp| && Free(r.value.2, Parens)
    ensures r.None? <==> !HasGroup(tmp, Parens) && (BracketSearch(tmp, 0).Some? ==>
                           IsToken(tmp[BracketSearch(tmp, 0).value.0..BracketSearch(tmp, 0).value.1]))
  {
    match GroupSearch(tmp, 0, Parens)
    case Some((a, b)) =>
      GroupWitness(tmp, a, b, Parens);
      Some((a, b, tmp[a + 1..b - 1]))
    case None =>
      NoGroup(tmp, Parens);
      match BracketSearch(tmp, 0)
      case None => None
      case Some((a, b)) => if IsToken(tmp[a..b]) then None else Some((a, b, tmp[a..b]))
  }

  /** Keys distinct and every value an index between 0 and `k`. */
  predicate Indexed(d: Dict<string, int>, k: nat)
  {
    DistinctKeys(d) && forall i :: 0 <= i < |d| ==> 0 <= d[i].1 <= k
  }

  /** `map[content]`, entering `content` under `k + 1` when it is new. */
  function Lookup(d: Dict<string, int>, k: nat, content: string): (r: (Dict<string, int>, nat, nat))
    requires Indexed(d, k)
    ensures Indexed(r.0, r.1) && Get(r.0, content) == Some(r.2 as int)
    ensures HasKey(d, content) ==> r.0 == d && r.1 == k
    ensures !HasKey(d, content) ==> r.0 == d + [(content, k + 1)] && r.1 == k + 1 == r.2
  {
    if HasKey(d, content) then
      (d, k, d[Find(d, content)].1)
    else
      var g := d + [(content, k + 1)];
      assert Keys(g)[|d|] == content;
      (g, k + 1, k + 1)
  }

  lemma TokenIsToken(n: nat)
    ensures IsToken(Token(n))
  {
    var t := Token(n);
    var digits := NatToString(n);
    assert t == "@/" + digits + "/@";
    DigitRunFrom(t, 2, |digits|);
  }

  /** Replacing a span that is not already the token changes the text. */
  lemma SpliceChanges(tmp: string, a: nat, b: nat, n: nat)
    requires a < b <= |tmp| && tmp[a..b] != Token(n)
    ensures tmp[..a] + Token(n) + tmp[b..] != tmp
  {
    var t := tmp[..a] + Token(n) + tmp[b..];
    if |t| == |tmp| {
      assert t[a..b] == Token(n);
    }
  }

  /** The span the inner loop replaces is never already the token that
      replaces it. */
  lemma NextGroupNotToken(tmp: string, n: nat)
    requires NextGroup(tmp).Some?
    ensures var g := NextGroup(tmp).value; tmp[g.0..g.1] != Token(n)
  {
    TokenIsToken(n);
    var g := NextGroup(tmp).value;
    if GroupSearch(tmp, 0, Parens).Some? {
      assert tmp[g.0..g.1][0] == '(' && Token(n)[0] == '@';
    }
  }

  /** `map[tmp'] = i; del map[tmp]` keeps the dict indexed and leaves `tmp'`
      under `i`. */
  lemma MoveEntry(d: Dict<string, int>, k: nat, tmp: string, tmp': string, i: nat)
    requires Indexed(d, k) && i <= k && HasKey(d, tmp) && tmp' != tmp
    ensures Remove(Put(d, tmp', i as int), tmp).Ok?
    ensures Indexed(Remove(Put(d, tmp', i as int), tmp).value, k)
    ensures Get(Remove(Put(d, tmp', i as int), tmp).value, tmp') == Some(i as int)
  {
    PutSpec(d, tmp', i as int);
    var put := Put(d, tmp', i as int);
    assert HasKey(put, tmp) by { assert Keys(put)[Find(d, tmp)] == tmp; }
    var removed := Remove(put, tmp).value;
    assert (tmp', i as int) in removed by {
      var j := Find(put, tmp');
      assert put[j] == (tmp', i as int);
    }
    assert Indexed(removed, k) by {
      forall j | 0 <= j < |removed| ensures 0 <= removed[j].1 <= k {
        assert removed[j] in put;
      }
    }
  }

  /** No two texts are stored under the same index. */
  ghost predicate ValuesDistinct(d: Dict<string, int>)
  {
    forall x, y, v :: (x, v) in d && (y, v) in d ==> x == y
  }

  /** Every text stored under `i` is empty or has no group left to
      replace. */
  ghost predicate GroupFree(d: Dict<string, int>, i: int)
  {
    forall x :: (x, i) in d ==> x == "" || NextGroup(x).None?
  }

  /** The entries after one round: the old text is gone, the new text sits
      under `i`, and every other entry was there before, except the content
      entered under the fresh index `kk + 1`. */
  lemma RewriteEntries(cur: Dict<string, int>, kk: nat, tmp: string, i: nat)
    requires Indexed(cur, kk) && i <= kk && Get(cur, tmp) == Some(i as int) && NextGroup(tmp).Some?
    ensures var r := Rewrite(cur, kk, tmp, i);
            forall x, v :: (x, v) in r.0 ==>
              x != tmp && ((x, v) == (r.2, i as int) || (x, v) in cur || (x, v) == (NextGroup(tmp).value.2, kk + 1))
  {
    var g := NextGroup(tmp).value;
    var looked := Lookup(cur, kk, g.2);
    var tmp' := tmp[..g.0] + Token(looked.2) + tmp[g.1..];
    assert HasKey(looked.0, tmp) by { assert Keys(looked.0)[Find(cur, tmp)] == tmp; }
    LookupEntries(cur, kk, g.2);
    MoveEntries(looked.0, tmp, tmp', i as int);
  }

  /** `Lookup` adds at most the content under the fresh index. */
  lemma LookupEntries(d: Dict<string, int>, k: nat, content: string)
    requires Indexed(d, k)
    ensures forall e :: e in Lookup(d, k, content).0 ==> e in d || e == (content, k + 1)
  {
  }

  /** `map[tmp'] = i; del map[tmp]`: the old key is gone, and every entry is
      the new one or was there before. */
  lemma MoveEntries(d: Dict<string, int>, tmp: string, tmp': string, i: int)
    requires DistinctKeys(d) && HasKey(d, tmp)
    ensures Remove(Put(d, tmp', i), tmp).Ok?
    ensures forall e :: e in Remove(Put(d, tmp', i), tmp).value ==> e.0 != tmp && (e == (tmp', i) || e in d)
  {
    PutSpec(d, tmp', i);
    PutMembers(d, tmp', i);
  }

  /** A round keeps the texts under distinct indices. */
  lemma RewriteDistinct(cur: Dict<string, int>, kk: nat, tmp: string, i: nat)
    requires Indexed(cur, kk) && i <= kk && Get(cur, tmp) == Some(i as int) && NextGroup(tmp).Some?
    requires ValuesDistinct(cur)
    ensures ValuesDistinct(Rewrite(cur, kk, tmp, i).0)
  {
    var r := Rewrite(cur, kk, tmp, i);
    RewriteEntries(cur, kk, tmp, i);
    MovedDistinct(cur, r.0, kk, tmp, r.2, i, NextGroup(tmp).value.2);
  }

  /** Moving the text under `i` from `gone` to `t` and entering `c` under the
      fresh index `kk + 1` keeps the texts under distinct indices. */
  lemma MovedDistinct(cur: Dict<string, int>, d: Dict<string, int>, kk: nat, gone: string, t: string, i: nat, c: string)
    requires Indexed(cur, kk) && i <= kk && (gone, i as int) in cur && ValuesDistinct(cur)
    requires forall x, v :: (x, v) in d ==>
               x != gone && ((x, v) == (t, i as int) || (x, v) in cur || (x, v) == (c, kk + 1))
    ensures ValuesDistinct(d)
  {
    forall x, y, v | (x, v) in d && (y, v) in d ensures x == y {
      if (x, v) in cur {
        var p :| 0 <= p < |cur| && cur[p] == (x, v);
        assert v <= kk;
      }
      if (y, v) in cur {
        var p :| 0 <= p < |cur| && cur[p] == (y, v);
        assert v <= kk;
      }
    }
  }

  /** One round of the inner loop of pass 2 (TeXCalc/core.py:192-212): the
      next group of `tmp` is replaced by the token of its content's index,
      `map[tmp] = i`, and the previous text is deleted. */
  function Rewrite(cur: Dict<string, int>, kk: nat, tmp: string, i: nat): (r: (Dict<string, int>, nat, string))
    requires Indexed(cur, kk) && i <= kk && Get(cur, tmp) == Some(i as int) && NextGroup(tmp).Some?
    ensures Indexed(r.0, r.1) && kk <= r.1 && Get(r.0, r.2) == Some(i as int)
    ensures var g := NextGroup(tmp).value;
            r.2 == tmp[..g.0] + Token(Lookup(cur, kk, g.2).2) + tmp[g.1..]
  {
    var g := NextGroup(tmp).value;
    var looked := Lookup(cur, kk, g.2);
    NextGroupNotToken(tmp, looked.2);
    SpliceChanges(tmp, g.0, g.1, looked.2);
    var tmp' := tmp[..g.0] + Token(looked.2) + tmp[g.1..];
    assert HasKey(looked.0, tmp) by { assert Keys(looked.0)[Find(cur, tmp)] == tmp; }
    MoveEntry(looked.0, looked.1, tmp, tmp', i);
    (Remove(Put(looked.0, tmp', i as int), tmp).value, looked.1, tmp')
  }

  /** The inner loop of pass 2 for index `i` (TeXCalc/core.py:185-212): the
      text stored under `i` (the last key holding it) has its groups
      replaced by tokens one at a time; after each replacement the new text
      takes the old one's place under `i`. `text` is the final text, or
      None when no non-empty text holds `i`. */
  method ReduceGroups(d: Dict<string, int>, k: nat, i: nat, fuel: nat)
    returns (r: Result<(Dict<string, int>, nat)>, text: Option<string>)
    requires Indexed(d, k) && i <= k
    ensures r.Ok? ==> Indexed(r.value.0, r.value.1) && k <= r.value.1
    ensures r.Ok? && text.Some? ==> Get(r.value.0, text.value) == Some(i as int) && NextGroup(text.value).None?
    ensures text.None? && r.Ok? ==> r.value == (d, k) && (LastKeyOf(d, i as int) == None || LastKeyOf(d, i as int) == Some(""))
    // the texts under the other indices up to `k` are left alone
    ensures r.Ok? ==> forall x, v :: (x, v) in r.value.0 && v != i as int && v <= k ==> (x, v) in d
    // with one text per index, every text under `i` ends empty or group-free
    ensures r.Ok? && ValuesDistinct(d) ==> ValuesDistinct(r.value.0) && GroupFree(r.value.0, i)
    ensures r.Err? ==> r.error == OutOfFuel
  {
    InvertGet(d, i as int);
    var start := Get(Invert(d), i as int);
    if start.None? || start.value == "" {
      if ValuesDistinct(d) && start.Some? {
        var j :| 0 <= j < |d| && d[j] == ("", i as int) && LaterMiss(d, j, i as int);
        assert ("", i as int) in d;
      }
      return Ok((d, k)), None;
    }
    var tmp := start.value;
    var cur, kk, f := d, k, fuel;
    while true
      invariant Indexed(cur, kk) && k <= kk && i <= kk && Get(cur, tmp) == Some(i as int)
      invariant forall x, v :: (x, v) in cur && v != i as int && v <= k ==> (x, v) in d
      invariant ValuesDistinct(d) ==> ValuesDistinct(cur)
      decreases f
    {
      if NextGroup(tmp).None? {
        assert (tmp, i as int) in cur;
        return Ok((cur, kk)), Some(tmp);
      }
      if f == 0 {
        return Err(OutOfFuel), None;
      }
      f := f - 1;
      RewriteEntries(cur, kk, tmp, i);
      if ValuesDistinct(d) {
        RewriteDistinct(cur, kk, tmp, i);
      }
      var next := Rewrite(cur, kk, tmp, i);
      cur, kk, tmp := next.0, next.1, next.2;
    }
  }

  /** Pass 2 (TeXCalc/core.py:184-212): the inner loop for every index up to
      the counter as it stood after pass 1 (`range(k + 1)` is evaluated
      once, so indices entered during this pass are not visited). */
  method ExtractGroups(d: Dict<string, int>, k: nat, fuel: nat) returns (r: Result<(Dict<string, int>, nat)>)
    requires Indexed(d, k)
    ensures r.Ok? ==> Indexed(r.value.0, r.value.1) && k <= r.value.1
    // with one text per index (as pass 1 leaves it), every index up to `k`
    // ends with no text, the empty text or a text without groups
    ensures r.Ok? && ValuesDistinct(d) ==> forall i :: 0 <= i <= k ==> GroupFree(r.value.0, i)
    ensures r.Err? ==> r.error == OutOfFuel
  {
    var cur, kk := d, k;
    for i := 0 to k + 1
      invariant Indexed(cur, kk) && k <= kk
      invariant ValuesDistinct(d) ==> ValuesDistinct(cur) && forall j :: 0 <= j < i ==> GroupFree(cur, j)
    {
      var step, _ := ReduceGroups(cur, kk, i, fuel);
      if step.Err? {
        return Err(step.error);
      }
      if ValuesDistinct(d) {
        forall j | 0 <= j < i ensures GroupFree(step.value.0, j) {
          assert GroupFree(cur, j);
          forall x | (x, j) in step.value.0 ensures x == "" || NextGroup(x).None? {
            assert (x, j) in cur;
          }
        }
      }
      cur, kk := step.value.0, step.value.1;
    }
    return Ok((cur, kk));
  }

  // ---------------------------------------------------------------------
  // Pass 3: grammar reduction

  /** Keys distinct and each an index between 0 and `k`. */
  predicate Numbering(m: Dict<int, string>, k: nat)
  {
    DistinctKeys(m) && forall i :: 0 <= i < |m| ==> 0 <= m[i].0 <= k
  }

  /** `{index: context for context, index in map.items()}` turns an indexed
      map around. */
  lemma InvertIndexed(d: Dict<string, int>, k: nat)
    requires Indexed(d, k)
    ensures Numbering(Invert(d), k)
    decreases |d|
  {
    if d != [] {
      var front := d[..|d| - 1];
      assert Indexed(front, k) by {
        forall i, j | 0 <= i < j < |front| ensures front[i].0 != front[j].0 {
          assert front[i] == d[i] && front[j] == d[j];
        }
        forall i | 0 <= i < |front| ensures 0 <= front[i].1 <= k {
          assert front[i] == d[i];
        }
      }
      InvertIndexed(front, k);
      InvertGet(front, d[|d| - 1].1);
      PutSpec(Invert(front), d[|d| - 1].1, d[|d| - 1].0);
    }
  }

  /** `processor.borders == (0, len(context))`: the match is the whole text. */
  predicate Whole(p: Processor, context: string)
  {
    p.borders == (0, |context|)
  }

  lemma PutNumbering(m: Dict<int, string>, k: nat, key: int, v: string)
    requires Numbering(m, k) && 0 <= key <= k
    ensures Numbering(Put(m, key, v), k)
    ensures forall other :: other != key ==> Get(Put(m, key, v), other) == Get(m, other)
    ensures Get(Put(m, key, v), key) == Some(v)
  {
    PutSpec(m, key, v);
  }

  /** One extraction of pass 3 (TeXCalc/core.py:226-243). The reversed map
      `hashmap_reversed` is looked up as `LastKeyOf`, which `InvertGet`
      shows to be the same lookup. */
  function Extract(m: Dict<int, string>, k: nat, index: nat, context: string, p: Processor): (r: (Dict<int, string>, nat))
    requires Numbering(m, k) && index <= k && Get(m, index) == Some(context)
    ensures Numbering(r.0, r.1)
    // matched text already in the map reuses the index of its last entry
    ensures LastKeyOf(m, p.matched).Some? ==>
              var j := LastKeyOf(m, p.matched).value;
              0 <= j && r.1 == k && Get(r.0, index) == Some(Splice(context, p.borders.0, p.borders.1, Token(j)))
    // new matched text is entered under k + 1
    ensures LastKeyOf(m, p.matched).None? ==>
              r.1 == k + 1 && Get(r.0, k + 1) == Some(p.matched) &&
              Get(r.0, index) == Some(Splice(context, p.borders.0, p.borders.1, Token(k + 1)))
  {
    var found := LastKeyOf(m, p.matched);
    if found.Some? then
      var j := found.value;
      PutNumbering(m, k, index, Splice(context, p.borders.0, p.borders.1, Token(j)));
      (Put(m, index, Splice(context, p.borders.0, p.borders.1, Token(j))), k)
    else
      assert Numbering(m, k + 1);
      PutNumbering(m, k + 1, k + 1, p.matched);
      var m1 := Put(m, k + 1, p.matched);
      PutNumbering(m1, k + 1, index, Splice(context, p.borders.0, p.borders.1, Token(k + 1)));
      (Put(m1, index, Splice(context, p.borders.0, p.borders.1, Token(k + 1))), k + 1)
  }

  /** An extraction changes no entry but the reduced one and the new one. */
  lemma ExtractKeepsOthers(m: Dict<int, string>, k: nat, index: nat, context: string, p: Processor, key: int)
    requires Numbering(m, k) && index <= k && Get(m, index) == Some(context)
    requires key != index && key != k + 1
    ensures Get(Extract(m, k, index, context, p).0, key) == Get(m, key)
  {
    var v := Splice(context, p.borders.0, p.borders.1, Token(if LastKeyOf(m, p.matched).Some? then LastKeyOf(m, p.matched).value else k + 1));
    if LastKeyOf(m, p.matched).Some? {
      PutNumbering(m, k, index, v);
    } else {
      assert Numbering(m, k + 1);
      PutNumbering(m, k + 1, k + 1, p.matched);
      PutNumbering(Put(m, k + 1, p.matched), k + 1, index, v);
    }
  }

  /** `processor_class.process(context, once=True)` for each rule class;
      `RuleOnce` supplies the model of it. */
  type Once = (Rule, string) -> Result<Option<Processor>>

  function RuleOnce(): Once
  {
    (rule, context) => ProcessOnce(rule, context)
  }

  /** Applying `rule` to the text under `index` extracts nothing: there is no
      match, or the match spans the whole text. */
  predicate Settled(once: Once, rule: Rule, m: Dict<int, string>, index: int)
  {
    Get(m, index).Some? && once(rule, Get(m, index).value).Ok? &&
    (once(rule, Get(m, index).value).value.None? ||
     Whole(once(rule, Get(m, index).value).value.value, Get(m, index).value))
  }

  /** The `while processor:` loop of pass 3 for one index and one rule
      (TeXCalc/core.py:223-245). `changed` is whether anything was
      extracted, which sets `processing`. */
  method ReduceRule(m: Dict<int, string>, k: nat, index: nat, rule: Rule, once: Once, fuel: nat)
    returns (r: Result<(Dict<int, string>, nat)>, changed: bool)
    requires Numbering(m, k) && index <= k
    ensures r.Ok? ==> Numbering(r.value.0, r.value.1) && k <= r.value.1
    ensures r.Ok? && !changed ==> r.value == (m, k) && Settled(once, rule, m, index)
    ensures r.Err? && Get(m, index).None? ==> r.error == KeyError
  {
    changed := false;
    var cur := Get(m, index);
    if cur.None? {
      return Err(KeyError), false;
    }
    var ctx := cur.value;
    var first := once(rule, ctx);
    if first.Err? {
      return Err(first.error), false;
    }
    var proc := first.value;
    var mm, kk, f := m, k, fuel;
    while proc.Some?
      invariant Numbering(mm, kk) && k <= kk && index <= kk && Get(mm, index) == Some(ctx)
      invariant once(rule, ctx) == Ok(proc)
      invariant !changed ==> mm == m && kk == k
      decreases f
    {
      if Whole(proc.value, ctx) {
        break;
      }
      if f == 0 {
        return Err(OutOfFuel), changed;
      }
      f := f - 1;
      changed := true;
      var e := Extract(mm, kk, index, ctx, proc.value);
      mm, kk := e.0, e.1;
      ctx := Get(mm, index).value;
      var next := once(rule, ctx);
      if next.Err? {
        return Err(next.error), changed;
      }
      proc := next.value;
    }
    return Ok((mm, kk)), changed;
  }

  /** All rules, in order, on one index. */
  method ReduceIndex(m: Dict<int, string>, k: nat, index: nat, rules: seq<Rule>, once: Once, fuel: nat)
    returns (r: Result<(Dict<int, string>, nat)>, changed: bool)
    requires Numbering(m, k) && index <= k
    ensures r.Ok? ==> Numbering(r.value.0, r.value.1) && k <= r.value.1
    ensures r.Ok? && !changed ==> r.value == (m, k) && forall rule :: rule in rules ==> Settled(once, rule, m, index)
  {
    changed := false;
    var mm, kk := m, k;
    for j := 0 to |rules|
      invariant Numbering(mm, kk) && k <= kk && index <= kk
      invariant !changed ==> mm == m && kk == k && forall i :: 0 <= i < j ==> Settled(once, rules[i], m, index)
    {
      var step, c := ReduceRule(mm, kk, index, rules[j], once, fuel);
      if step.Err? {
        return Err(step.error), changed || c;
      }
      mm, kk := step.value.0, step.value.1;
      changed := changed || c;
    }
    return Ok((mm, kk)), changed;
  }

  /** One round of `while processing:`: every index up to the counter as it
      stood when the round began. */
  method ReduceRound(m: Dict<int, string>, k: nat, rules: seq<Rule>, once: Once, fuel: nat)
    returns (r: Result<(Dict<int, string>, nat)>, processing: bool)
    requires Numbering(m, k)
    ensures r.Ok? ==> Numbering(r.value.0, r.value.1) && k <= r.value.1
    ensures r.Ok? && !processing ==>
              r.value == (m, k) && forall index, rule :: 0 <= index <= k && rule in rules ==> Settled(once, rule, m, index)
  {
    processing := false;
    var mm, kk := m, k;
    for index := 0 to k + 1
      invariant Numbering(mm, kk) && k <= kk
      invariant !processing ==>
                  mm == m && kk == k && forall i, rule :: 0 <= i < index && rule in rules ==> Settled(once, rule, m, i)
    {
      var step, c := ReduceIndex(mm, kk, index, rules, once, fuel);
      if step.Err? {
        return Err(step.error), processing || c;
      }
      mm, kk := step.value.0, step.value.1;
      processing := processing || c;
    }
    return Ok((mm, kk)), processing;
  }

  /** Pass 3 (TeXCalc/core.py:216-245): rounds until one extracts nothing.
      On success every rule is settled on every index. */
  method ReduceGrammar(m: Dict<int, string>, k: nat, rules: seq<Rule>, once: Once, fuel: nat)
    returns (r: Result<(Dict<int, string>, nat)>)
    requires Numbering(m, k)
    ensures r.Ok? ==> Numbering(r.value.0, r.value.1) && k <= r.value.1
    ensures r.Ok? ==> forall index, rule :: 0 <= index <= r.value.1 && rule in rules ==>
                        Settled(once, rule, r.value.0, index)
  {
    var mm, kk, f := m, k, fuel;
    var processing := true;
    while processing
      invariant Numbering(mm, kk) && k <= kk
      invariant !processing ==> forall index, rule :: 0 <= index <= kk && rule in rules ==> Settled(once, rule, mm, index)
      decreases f, processing
    {
      if f == 0 {
        return Err(OutOfFuel);
      }
      f := f - 1;
      var round;
      round, processing := ReduceRound(mm, kk, rules, once, fuel);
      if round.Err? {
        return Err(round.error);
      }
      mm, kk := round.value.0, round.value.1;
    }
    return Ok((mm, kk));
  }

  // ---------------------------------------------------------------------
  // Pass 4: variable binding

  /** The body of `for i, context in map.items()` (TeXCalc/core.py:259-275). */
  method BindText(context: string, v: string, index: nat, words: seq<string>) returns (r: string)
    requires |v| > 0 && forall j :: 0 <= j < |words| ==> |words[j]| > 0
    ensures r == Bound(context, v, index, words)
  {
    var tmp := context;
    var spans: Spans := [];
    for j := 0 to |words|
      invariant MaskWords(context, [], words) == MaskWords(tmp, spans, words[j..])
    {
      assert words[j..][1..] == words[j + 1..];
      var w := words[j];
      if Contains(tmp, w) {
        var occ := Occurrences(tmp, w, 0);
        ghost var recorded := Record(spans, occ, w);
        for o := 0 to |occ|
          invariant Record(spans, occ[o..], w) == recorded
        {
          assert occ[o..][1..] == occ[o + 1..];
          spans := Put(spans, SpanOf(occ[o], w), w);
        }
        assert occ[|occ|..] == [];
        tmp := ReplaceAll(tmp, w, Underscores(|w|));
      }
    }
    assert words[|words|..] == [];
    var masked := (tmp, spans);
    tmp := ReplaceAll(tmp, v, "|");
    for j := 0 to |spans|
      invariant Restore(ReplaceAll(masked.0, v, "|"), masked.1) == Restore(tmp, spans[j..])
    {
      assert spans[j..][1..] == spans[j + 1..];
      tmp := Splice(tmp, spans[j].0.0, spans[j].0.1, spans[j].1);
    }
    assert spans[|spans|..] == [];
    r := ReplaceAll(tmp, "|", Token(index));
  }

  /** The text stored under a variable's own index: the letter itself, or
      the decimal approximation of Euler's number for `e`. */
  function VariableText(v: string): (r: string)
    ensures v != "e" ==> r == v
    ensures v == "e" ==> r == "2.7182818284"
  {
    if v == "e" then "2.7182818284" else v
  }

  /** The index a variable is bound to: the last entry whose text is the
      variable itself (`{v: k for k, v in map.items()}.get(var)`), else a
      fresh `k + 1`. */
  function VariableIndex(m: Dict<int, string>, k: nat, v: string): (r: (nat, nat))
    requires Numbering(m, k)
    ensures LastKeyOf(m, v).Some? ==> r == (LastKeyOf(m, v).value, k) && r.0 <= k
    ensures LastKeyOf(m, v).None? ==> r == (k + 1, k + 1)
  {
    match LastKeyOf(m, v)
    case Some(j) => (j, k)
    case None => (k + 1, k + 1)
  }

  /** Every entry not under `index` gets its text bound, in place and in
      order (TeXCalc/core.py:255-275). */
  method BindOthers(put: Dict<int, string>, index: nat, v: string, words: seq<string>) returns (r: Dict<int, string>)
    requires |v| > 0 && forall j :: 0 <= j < |words| ==> |words[j]| > 0
    ensures |r| == |put|
    ensures forall j :: 0 <= j < |r| ==>
              r[j] == (if put[j].0 == index then put[j] else (put[j].0, Bound(put[j].1, v, index, words)))
  {
    r := put;
    for j := 0 to |put|
      invariant |r| == |put|
      invariant forall q :: 0 <= q < |r| ==>
                  r[q] == (if q >= j || put[q].0 == index then put[q] else (put[q].0, Bound(put[q].1, v, index, words)))
    {
      if put[j].0 != index {
        var text := BindText(put[j].1, v, index, words);
        r := r[j := (put[j].0, text)];
      }
    }
  }

  /** Rewriting the texts of a map keeps its numbering. */
  lemma SameKeysNumbering(m: Dict<int, string>, r: Dict<int, string>, k: nat)
    requires Numbering(m, k) && |r| == |m| && forall j :: 0 <= j < |r| ==> r[j].0 == m[j].0
    ensures Numbering(r, k)
  {
  }

  /** Binding one variable (TeXCalc/core.py:248-275). The variable's own
      index gets its text; every other entry, in place and in order, gets its
      text with the variable's free occurrences replaced by the index token. */
  method BindVariable(m: Dict<int, string>, k: nat, v: string, words: seq<string>)
    returns (m': Dict<int, string>, k': nat)
    requires Numbering(m, k) && |v| > 0 && forall j :: 0 <= j < |words| ==> |words[j]| > 0
    ensures k' == VariableIndex(m, k, v).1
    ensures Numbering(m', k')
    ensures var index := VariableIndex(m, k, v).0;
            var put := Put(m, index, VariableText(v));
            |m'| == |put| &&
            forall j :: 0 <= j < |m'| ==>
              m'[j] == (if put[j].0 == index then put[j] else (put[j].0, Bound(put[j].1, v, index, words)))
  {
    InvertGet(m, v);
    var found := Get(Invert(m), v);
    var index: nat;
    if found.None? {
      k' := k + 1;
      index := k';
    } else {
      k' := k;
      index := found.value;
    }
    assert (index, k') == VariableIndex(m, k, v);
    assert Numbering(m, k');
    PutNumbering(m, k', index, VariableText(v));
    var put := Put(m, index, VariableText(v));
    m' := BindOthers(put, index, v, words);
    SameKeysNumbering(put, m', k');
  }

  /** Pass 4 (TeXCalc/core.py:247-275): every declared variable in order.
      Iterating over `None` raises TypeError. */
  method BindVariables(m: Dict<int, string>, k: nat, vars: Option<seq<string>>, words: seq<string>)
    returns (r: Result<(Dict<int, string>, nat)>)
    requires Numbering(m, k) && forall j :: 0 <= j < |words| ==> |words[j]| > 0
    requires vars.Some? ==> forall j :: 0 <= j < |vars.value| ==> |vars.value[j]| > 0
    ensures r.Ok? <==> vars.Some?
    ensures r.Err? ==> r.error == TypeError
    ensures r.Ok? ==> Numbering(r.value.0, r.value.1) && k <= r.value.1 <= k + |vars.value|
    ensures r.Ok? && vars.value == [] ==> r.value == (m, k)
  {
    if vars.None? {
      return Err(TypeError);
    }
    var mm: Dict<int, string>, kk: nat := m, k;
    for j := 0 to |vars.value|
      invariant Numbering(mm, kk) && k <= kk <= k + j
      invariant j == 0 ==> mm == m && kk == k
    {
      mm, kk := BindVariable(mm, kk, vars.value[j], words);
    }
    return Ok((mm, kk));
  }
}

