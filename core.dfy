/** The `TeXCalc` class (TeXCalc/core.py): the checks its constructor makes
    on the expression and the variables, the four passes that turn the
    expression into a map of indexed sub-expressions wrapped as
    `ContextProcessor`s, and the call that checks the variable values and
    computes entry 0. `reserved_words` (TeXCalc/defines.py) and the order of
    the processor classes are parameters. */
module Core {
  import opened Wrappers
  import opened Text
  import opened Dicts
  import opened Scanner
  import opened Bodies
  import opened Evaluator
  import opened Passes

  // ---------------------------------------------------------------------
  // `__has_unsupported_operands`

  /** `\\(?P<operand>\w+)` at `p`: the end of the operand when it matches. */
  function CommandAt(s: string, p: nat): Option<nat>
    requires p <= |s|
  {
    if p + 1 < |s| && s[p] == '\\' && IsWordChar(s[p + 1]) then Some(WordRunEnd(s, p + 1)) else None
  }

  /** The operand spans `re.finditer(r'\\(?P<operand>\w+)', s)` reports from
      `from`, in order; the search resumes at the end of each match. */
  function Commands(s: string, from: nat): (r: seq<(nat, nat)>)
    requires from <= |s|
    ensures forall i :: 0 <= i < |r| ==> from < r[i].0 < r[i].1 <= |s|
    decreases |s| - from
  {
    if from == |s| then []
    else match CommandAt(s, from)
      case Some(e) => [(from + 1, e)] + Commands(s, e)
      case None => Commands(s, from + 1)
  }

  /** The start of each span. */
  function Starts(spans: seq<(nat, nat)>): (r: seq<nat>)
    ensures |r| == |spans| && forall i :: 0 <= i < |spans| ==> r[i] == spans[i].0
  {
    if spans == [] then [] else [spans[0].0] + Starts(spans[1..])
  }

  /** Every reported operand is a maximal run of word characters right after
      a backslash. */
  lemma {:induction false} CommandsSound(s: string, from: nat)
    requires from <= |s|
    ensures forall i :: 0 <= i < |Commands(s, from)| ==>
              var (a, b) := Commands(s, from)[i];
              s[a - 1] == '\\' && a < b && (forall j :: a <= j < b ==> IsWordChar(s[j])) &&
              (b == |s| || !IsWordChar(s[b]))
    decreases |s| - from
  {
    if from < |s| {
      match CommandAt(s, from)
      case Some(e) =>
        CommandsSound(s, e);
      case None =>
        CommandsSound(s, from + 1);
    }
  }

  /** Every backslash followed by a word character at or after `from` starts
      a reported operand: no operand is missed. */
  lemma {:induction false} CommandsComplete(s: string, from: nat, p: nat)
    requires from <= p && p + 1 < |s| && s[p] == '\\' && IsWordChar(s[p + 1])
    ensures p + 1 in Starts(Commands(s, from))
    decreases |s| - from
  {
    var r := Commands(s, from);
    match CommandAt(s, from)
    case Some(e) =>
      assert r == [(from + 1, e)] + Commands(s, e);
      assert Starts(r) == [from + 1] + Starts(Commands(s, e));
      if p != from {
        // a backslash is no word character, so it lies at or after the end
        assert p >= e;
        CommandsComplete(s, e, p);
      }
    case None =>
      assert p != from;
      CommandsComplete(s, from + 1, p);
  }

  /** The operand words, in order of occurrence. */
  function CommandWords(s: string): (r: seq<string>)
  {
    var spans := Commands(s, 0);
    seq(|spans|, i requires 0 <= i < |spans| => s[spans[i].0..spans[i].1])
  }

  /** The words of `ws` that are not reserved, in order. */
  function Unsupported(ws: seq<string>, words: seq<string>): (r: seq<string>)
    ensures forall x :: x in r <==> x in ws && x !in words
    ensures |r| <= |ws|
  {
    if ws == [] then []
    else
      var rest := Unsupported(ws[..|ws| - 1], words);
      assert forall x :: x in ws <==> x in ws[..|ws| - 1] || x == ws[|ws| - 1];
      if ws[|ws| - 1] in words then rest else rest + [ws[|ws| - 1]]
  }

  /** `__has_unsupported_operands`: None without an expression, else every
      operand word that is not reserved, appended in order. */
  method HasUnsupportedOperands(expr: Option<string>, words: seq<string>) returns (r: Option<seq<string>>)
    ensures expr.None? || expr.value == [] ==> r.None?
    ensures expr.Some? && expr.value != [] ==> r == Some(Unsupported(CommandWords(expr.value), words))
  {
    if expr.None? || expr.value == [] {
      return None;
    }
    var ws := CommandWords(expr.value);
    var found: seq<string> := [];
    for i := 0 to |ws|
      invariant found == Unsupported(ws[..i], words)
    {
      assert ws[..i + 1][..i] == ws[..i];
      if ws[i] !in words {
        found := found + [ws[i]];
      }
    }
    assert ws[..|ws|] == ws;
    return Some(found);
  }

  // ---------------------------------------------------------------------
  // `__is_immutable`

  /** `(?<!\\)\w+` can start at `p`: a word character not right after a
      backslash. */
  predicate FreeWordAt(s: string, p: nat)
  {
    p < |s| && IsWordChar(s[p]) && (p == 0 || s[p - 1] != '\\')
  }

  /** Where the first match of `(?<!\\)\w+` at or after `from` starts. */
  function FirstFreeWord(s: string, from: nat): (r: Option<nat>)
    requires from <= |s|
    ensures r.Some? ==> from <= r.value < |s| && FreeWordAt(s, r.value)
    ensures r.Some? ==> forall p :: from <= p < r.value ==> !FreeWordAt(s, p)
    ensures r.None? ==> forall p :: from <= p < |s| ==> !FreeWordAt(s, p)
    decreases |s| - from
  {
    if from == |s| then None
    else if FreeWordAt(s, from) then Some(from)
    else FirstFreeWord(s, from + 1)
  }

  /** `__is_immutable`: None without an expression. The loop compares each
      regex match object, not its text, with the reserved words, so the
      test `word not in reserved_words` always holds and the first match
      decides: False when there is one, True otherwise. */
  function IsImmutable(expr: Option<string>): Option<bool>
  {
    if expr.None? || expr.value == [] then None
    else Some(FirstFreeWord(expr.value, 0).None?)
  }

  /** An expression counts as immutable exactly when every word character in
      it comes right after a backslash. */
  lemma ImmutableIff(e: string)
    requires e != []
    ensures IsImmutable(Some(e)) == Some(true) <==> forall p :: 0 <= p < |e| ==> !FreeWordAt(e, p)
  {
    if FirstFreeWord(e, 0).Some? {
      assert FreeWordAt(e, FirstFreeWord(e, 0).value);
    }
  }

  /** Even a lone reserved word is not immutable: in `\pi` the `i` follows a
      word character, so the match `i` makes `__is_immutable` False. */
  lemma PiIsNotImmutable()
    ensures IsImmutable(Some("\\pi")) == Some(false)
  {
    assert FreeWordAt("\\pi", 2);
  }

  // ---------------------------------------------------------------------
  // `__init__` checks

  /** An entry of `variables`: a string, or any other Python object. */
  datatype Arg = Str(s: string) | NonStr

  /** The `variables` argument: None, a tuple, or another object, with its
      truth value. */
  datatype VarsArg = NoVars | Tuple(items: seq<Arg>) | NotTuple(truthy: bool)

  predicate VarsTruthy(v: VarsArg)
  {
    match v
    case NoVars => false
    case Tuple(items) => |items| > 0
    case NotTuple(t) => t
  }

  predicate StrTruthy(e: Option<string>)
  {
    e.Some? && e.value != []
  }

  /** The texts of the static operands (`STATIC_OPERANDS.keys()`). */
  function StaticTexts(): (r: seq<string>)
    ensures |r| == |StaticOperands| && forall i :: 0 <= i < |r| ==> r[i] == StaticOperands[i].text
  {
    seq(|StaticOperands|, i requires 0 <= i < |StaticOperands| => StaticOperands[i].text)
  }

  /** The check at lines 54-58: every entry a one-character string that
      names no static operand. */
  predicate ShapeOk(items: seq<Arg>)
  {
    (forall i :: 0 <= i < |items| ==> items[i].Str? && |items[i].s| == 1) &&
    (forall i :: 0 <= i < |items| ==> items[i].NonStr? || items[i].s !in StaticTexts())
  }

  /** `re.match('[a-z]$', v)`: a lower-case letter, then the end or a final
      newline. */
  predicate LetterName(v: string)
  {
    |v| >= 1 && IsLowerLetter(v[0]) && (|v| == 1 || (|v| == 2 && v[1] == '\n'))
  }

  /** The check at lines 85-90 on a tuple: every entry a letter name that is
      not reserved. */
  predicate NamesOk(items: seq<Arg>, words: seq<string>)
  {
    forall i :: 0 <= i < |items| ==> items[i].Str? && LetterName(items[i].s) && items[i].s !in words
  }

  function Names(items: seq<Arg>): (r: seq<string>)
    requires forall i :: 0 <= i < |items| ==> items[i].Str?
    ensures |r| == |items| && forall i :: 0 <= i < |items| ==> r[i] == items[i].s
  {
    seq(|items|, i requires 0 <= i < |items| => items[i].s)
  }

  /** What `__init__` keeps after its checks: the expression it works on and
      the declared variables. */
  datatype Kept = Kept(expr: Option<string>, vars: Option<seq<string>>)

  /** The checks of `__init__` (TeXCalc/core.py:53-95), in the order they are
      made. `mapTruthy` is the truth value of `context_map`. */
  function Validate(expression: Option<string>, variables: VarsArg, mapTruthy: bool, skip: bool,
                    words: seq<string>): (r: Result<Kept>)
  {
    if VarsTruthy(variables) && !(variables.Tuple? && ShapeOk(variables.items)) then Err(BadVariables)
    else if StrTruthy(expression) && mapTruthy then Err(BadArguments)
    else if !skip && mapTruthy then Err(BadArguments)
    else
      var expr := if mapTruthy then None else expression;
      var unsupported := if StrTruthy(expr) then Unsupported(CommandWords(expr.value), words) else [];
      if unsupported != [] then Err(UnsupportedOperands(unsupported))
      else if variables.NotTuple? then Err(BadVariables)
      else if variables.Tuple? && !NamesOk(variables.items, words) then Err(BadVariables)
      else
        var vars := if variables.Tuple? then Some(Names(variables.items)) else None;
        if (vars.None? || vars.value == []) && StrTruthy(expr) && IsImmutable(expr) != Some(true) then Err(NotAConst)
        else Ok(Kept(expr, vars))
  }

  /** Construction refuses, in order, every `\word` whose word is not
      reserved, once the variables and arguments passed their first checks. */
  lemma UnsupportedRaised(expression: string, variables: VarsArg, skip: bool, words: seq<string>)
    requires expression != [] && !(VarsTruthy(variables) && !(variables.Tuple? && ShapeOk(variables.items)))
    requires Unsupported(CommandWords(expression), words) != []
    ensures Validate(Some(expression), variables, false, skip, words) ==
              Err(UnsupportedOperands(Unsupported(CommandWords(expression), words)))
    ensures forall x :: x in Unsupported(CommandWords(expression), words) <==> x in CommandWords(expression) && x !in words
  {
  }

  /** Declared variables pass exactly when they form a tuple of one-letter
      lower-case names, none reserved (the shape check and the name check
      together). */
  lemma VariablesAccepted(expression: Option<string>, variables: VarsArg, skip: bool, words: seq<string>)
    requires !StrTruthy(expression) || Unsupported(CommandWords(expression.value), words) == []
    requires variables != NoVars
    ensures Validate(expression, variables, false, skip, words) != Err(BadVariables) <==>
              variables.Tuple? && forall i :: 0 <= i < |variables.items| ==>
                variables.items[i].Str? && |variables.items[i].s| == 1 &&
                IsLowerLetter(variables.items[i].s[0]) && variables.items[i].s !in words
  {
    if variables.Tuple? {
      var items := variables.items;
      if NamesOk(items, words) {
        forall i | 0 <= i < |items| ensures items[i].s !in StaticTexts() {
          StaticTextsLong(items[i].s);
        }
      }
    }
  }

  /** Every static operand's text is longer than one character. */
  lemma StaticTextsLong(v: string)
    requires |v| <= 2 && (|v| <= 1 || v[1] == '\n')
    ensures v !in StaticTexts()
  {
    var t := StaticTexts();
    forall i | 0 <= i < |t| ensures t[i] != v {
      assert t[i][0] == '\\' && t[i][1] != '\n';
    }
  }

  /** With no declared variables, an expression that has a word character not
      right after a backslash is refused as not constant. */
  lemma NoVariablesNotAConst(expression: string, words: seq<string>, p: nat)
    requires Unsupported(CommandWords(expression), words) == []
    requires FreeWordAt(expression, p)
    ensures Validate(Some(expression), NoVars, false, false, words) == Err(NotAConst)
  {
    ImmutableIff(expression);
  }

  // ---------------------------------------------------------------------
  // `__make_context_map`

  /** `avoid_parentheses` and the index token only ever see non-empty
      reserved words and variable names. */
  predicate NonEmptyAll(ws: seq<string>)
  {
    forall j :: 0 <= j < |ws| ==> |ws[j]| > 0
  }

  /** The four passes (TeXCalc/core.py:157-275) on the texts: braces, then
      `(…)` and `[…]` groups, then grammar reduction, then variable
      binding. A missing expression fails on `None.replace`, and iterating
      missing variables fails in pass 4. */
  method MakeTexts(expression: Option<string>, vars: Option<seq<string>>, words: seq<string>,
                   rules: seq<Rule>, once: Once, fuel: nat)
    returns (r: Result<(Dict<int, string>, nat)>)
    requires NonEmptyAll(words) && (vars.Some? ==> NonEmptyAll(vars.value))
    ensures expression.None? ==> r == Err(AttributeError)
    ensures r.Ok? ==> expression.Some? && vars.Some?
    ensures r.Ok? ==> Numbering(r.value.0, r.value.1)
    ensures expression.Some? && vars.None? ==> r.Err?
  {
    if expression.None? {
      return Err(AttributeError);
    }
    var expr, groups, k := ExtractBraces(expression.value);
    var grouped := ExtractGroups(groups, k, fuel);
    if grouped.Err? {
      return Err(grouped.error);
    }
    var d, k2 := grouped.value.0, grouped.value.1;
    InvertIndexed(d, k2);
    var reduced := ReduceGrammar(Invert(d), k2, rules, once, fuel);
    if reduced.Err? {
      return Err(reduced.error);
    }
    r := BindVariables(reduced.value.0, reduced.value.1, vars, words);
  }

  /** `{index: ContextProcessor(self, context, index, variable_names=…)}`:
      a fresh processor per entry, under the entry's index. */
  method Wrap(m: Dict<int, string>, vars: seq<string>) returns (nodes: map<int, ContextProcessor>)
    requires DistinctKeys(m)
    ensures nodes.Keys == set i | 0 <= i < |m| :: m[i].0
    ensures forall i :: 0 <= i < |m| ==>
              var n := nodes[m[i].0];
              fresh(n) && n.context == m[i].1 && n.index == m[i].0 && n.vars == vars && n.computed == map[] && n.Valid()
  {
    nodes := map[];
    for j := 0 to |m|
      invariant nodes.Keys == set i | 0 <= i < j :: m[i].0
      invariant forall i :: 0 <= i < j ==>
                  var n := nodes[m[i].0];
                  fresh(n) && n.context == m[i].1 && n.index == m[i].0 && n.vars == vars && n.computed == map[] && n.Valid()
    {
      var n := new ContextProcessor(m[j].1, m[j].0, vars);
      nodes := nodes[m[j].0 := n];
    }
  }

  // ---------------------------------------------------------------------
  // `__call__`

  const DefaultRound: int := 5

  /** The error of the first declared variable, in order, that has no
      keyword value (NotEnoughVariables) or whose text is not a decimal
      (NotDecimal). `parse` stands for `Decimal(str(value))`. */
  function FirstBadVar(vars: seq<string>, kw: map<string, string>, parse: string -> Option<real>): (r: Option<Error>)
  {
    if vars == [] then None
    else if vars[0] !in kw then Some(NotEnoughVariables(vars[0]))
    else if parse(kw[vars[0]]).None? then Some(NotDecimal(vars[0]))
    else FirstBadVar(vars[1..], kw, parse)
  }

  predicate AllReadable(vars: seq<string>, kw: map<string, string>, parse: string -> Option<real>)
  {
    forall v :: v in vars ==> v in kw && parse(kw[v]).Some?
  }

  /** No error exactly when every variable has a decimal value; an error
      names a variable that lacks one, for the reason it gives. */
  lemma {:induction false} FirstBadVarSpec(vars: seq<string>, kw: map<string, string>, parse: string -> Option<real>)
    ensures FirstBadVar(vars, kw, parse).None? <==> AllReadable(vars, kw, parse)
    ensures FirstBadVar(vars, kw, parse).Some? ==>
              match FirstBadVar(vars, kw, parse).value
              case NotEnoughVariables(v) => v in vars && v !in kw
              case NotDecimal(v) => v in vars && v in kw && parse(kw[v]).None?
              case _ => false
  {
    if vars != [] {
      FirstBadVarSpec(vars[1..], kw, parse);
      assert forall v :: v in vars <==> v == vars[0] || v in vars[1..];
    }
  }

  /** The check stops at the first bad variable: variables declared before it
      are fine. */
  lemma {:induction false} FirstBadVarAppend(a: seq<string>, b: seq<string>, kw: map<string, string>,
                                             parse: string -> Option<real>)
    ensures FirstBadVar(a + b, kw, parse) ==
              if FirstBadVar(a, kw, parse).Some? then FirstBadVar(a, kw, parse) else FirstBadVar(b, kw, parse)
  {
    if a != [] {
      assert (a + b)[1..] == a[1..] + b;
      FirstBadVarAppend(a[1..], b, kw, parse);
    } else {
      assert a + b == b;
    }
  }

  /** `vars_dict` once every variable reads as a decimal. */
  function VarValues(vars: seq<string>, kw: map<string, string>, parse: string -> Option<real>): map<string, real>
    requires AllReadable(vars, kw, parse)
  {
    map v | v in vars :: parse(kw[v]).value
  }

  /** The loop of `__call__` that fills `vars_dict`, failing on the first bad
      variable. */
  method ReadVariables(vars: seq<string>, kw: map<string, string>, parse: string -> Option<real>)
    returns (r: Result<map<string, real>>)
    ensures FirstBadVar(vars, kw, parse).Some? ==> r == Err(FirstBadVar(vars, kw, parse).value)
    ensures FirstBadVar(vars, kw, parse).None? ==> AllReadable(vars, kw, parse) && r == Ok(VarValues(vars, kw, parse))
  {
    var d: map<string, real> := map[];
    for j := 0 to |vars|
      invariant FirstBadVar(vars[..j], kw, parse).None? && AllReadable(vars[..j], kw, parse)
      invariant d == VarValues(vars[..j], kw, parse)
    {
      var v := vars[j];
      assert vars[..j + 1] == vars[..j] + [v];
      FirstBadVarAppend(vars[..j], [v], kw, parse);
      FirstBadVarAppend(vars[..j + 1], vars[j + 1..], kw, parse);
      assert vars == vars[..j + 1] + vars[j + 1..];
      if v !in kw {
        FirstBadVarAppend(vars[..j], vars[j..], kw, parse);
        assert vars == vars[..j] + vars[j..];
        return Err(NotEnoughVariables(v));
      }
      var parsed := parse(kw[v]);
      if parsed.None? {
        FirstBadVarAppend(vars[..j], vars[j..], kw, parse);
        assert vars == vars[..j] + vars[j..];
        return Err(NotDecimal(v));
      }
      d := d[v := parsed.value];
    }
    assert vars[..|vars|] == vars;
    FirstBadVarSpec(vars, kw, parse);
    return Ok(d);
  }

  /** `round(answer, places)` for each answer, in order. */
  function RoundAll(answers: seq<real>, places: int, round: (real, int) -> real): (r: seq<real>)
    ensures |r| == |answers|
  {
    seq(|answers|, i requires 0 <= i < |answers| => round(answers[i], places))
  }

  /** The `TeXCalc` object: the declared variables and the map of
      processors (None until one is built or given). */
  class TeXCalc {
    const vars: Option<seq<string>>
    var contextMap: Option<map<int, ContextProcessor>>

    constructor (vars: Option<seq<string>>, contextMap: Option<map<int, ContextProcessor>>)
      ensures this.vars == vars && this.contextMap == contextMap
    {
      this.vars := vars;
      this.contextMap := contextMap;
    }

    function Nodes(): set<ContextProcessor>
      reads this
    {
      if contextMap.Some? then contextMap.value.Values else {}
    }

    ghost predicate Valid()
      reads this, Nodes()
    {
      forall n :: n in Nodes() ==> n.Valid()
    }

    /** `TeXCalc(expression, variables, context_map, skip_context_processing=skip)`:
        the checks of `Validate`, then, unless skipped, the context map built
        from the expression. `given` is the `context_map` argument. */
    static method Create(expression: Option<string>, variables: VarsArg, given: Option<map<int, ContextProcessor>>,
                         skip: bool, words: seq<string>, rules: seq<Rule>, fuel: nat)
      returns (r: Result<TeXCalc>, ghost texts: Dict<int, string>)
      requires NonEmptyAll(words)
      requires given.Some? ==> forall n :: n in given.value.Values ==> n.Valid()
      ensures var v := Validate(expression, variables, given.Some? && |given.value| > 0, skip, words);
              v.Err? ==> r == Err(v.error)
      ensures var v := Validate(expression, variables, given.Some? && |given.value| > 0, skip, words);
              r.Ok? ==> v.Ok? && fresh(r.value) && r.value.Valid() && r.value.vars == v.value.vars
      ensures r.Ok? && skip ==> r.value.contextMap == if StrTruthy(expression) then None else given
      // a built map holds fresh, empty processors that know the variables
      ensures r.Ok? && !skip ==>
                expression.Some? && r.value.vars.Some? && r.value.contextMap.Some? &&
                forall n :: n in r.value.Nodes() ==> fresh(n) && n.vars == r.value.vars.value && n.computed == map[]
      // ... one under each index of the numbered texts the passes produce,
      // holding that index's text
      ensures r.Ok? && !skip ==>
                DistinctKeys(texts) && r.value.contextMap.Some? &&
                r.value.contextMap.value.Keys == (set i | 0 <= i < |texts| :: texts[i].0) &&
                forall i :: 0 <= i < |texts| ==>
                  r.value.contextMap.value[texts[i].0].index == texts[i].0 &&
                  r.value.contextMap.value[texts[i].0].context == texts[i].1
      ensures var v := Validate(expression, variables, given.Some? && |given.value| > 0, skip, words);
              v.Ok? && !skip && expression.None? ==> r == Err(AttributeError)
    {
      texts := [];
      var mapTruthy := given.Some? && |given.value| > 0;
      var v := Validate(expression, variables, mapTruthy, skip, words);
      if v.Err? {
        return Err(v.error), texts;
      }
      var vars := v.value.vars;
      if skip {
        var built := new TeXCalc(vars, if StrTruthy(expression) then None else given);
        return Ok(built), texts;
      }
      assert vars.Some? ==> NonEmptyAll(vars.value) by {
        if vars.Some? {
          assert forall j :: 0 <= j < |vars.value| ==> LetterName(vars.value[j]);
        }
      }
      var made := MakeTexts(expression, vars, words, rules, RuleOnce(), fuel);
      if made.Err? {
        return Err(made.error), texts;
      }
      texts := made.value.0;
      var nodes := Wrap(made.value.0, vars.value);
      var built := new TeXCalc(vars, Some(nodes));
      return Ok(built), texts;
    }

    /** `__call__`: NotDefined without a map, TypeError when no variables were
        declared, the first bad variable's error, KeyError without entry 0;
        otherwise entry 0's values for the variables, each rounded to
        `round_to` places (5 by default). `kw` holds `str(value)` for each
        keyword argument. */
    method Call(kw: map<string, string>, roundTo: Option<int>, parse: string -> Option<real>,
                rules: seq<Rule>, ops: Ops, fuel: nat) returns (r: Result<seq<real>>)
      requires Valid()
      modifies Nodes()
      ensures Valid()
      ensures contextMap.None? ==> r == Err(NotDefined)
      ensures contextMap.Some? && vars.None? ==> r == Err(TypeError)
      ensures contextMap.Some? && vars.Some? && FirstBadVar(vars.value, kw, parse).Some? ==>
                r == Err(FirstBadVar(vars.value, kw, parse).value)
      ensures contextMap.Some? && vars.Some? && FirstBadVar(vars.value, kw, parse).None? && 0 !in contextMap.value ==>
                r == Err(KeyError)
      ensures r.Ok? ==>
                contextMap.Some? && vars.Some? && 0 in contextMap.value && AllReadable(vars.value, kw, parse) &&
                var n := contextMap.value[0];
                var values := VarValues(vars.value, kw, parse);
                n.Cached(values, ops.show) &&
                r.value == RoundAll(n.computed[n.Key(values, ops.show).value],
                                    if roundTo.Some? then roundTo.value else DefaultRound, ops.round)
    {
      if contextMap.None? {
        return Err(NotDefined);
      }
      if vars.None? {
        return Err(TypeError);
      }
      var read := ReadVariables(vars.value, kw, parse);
      if read.Err? {
        return Err(read.error);
      }
      var nodes := contextMap.value;
      if 0 !in nodes {
        return Err(KeyError);
      }
      var n := nodes[0];
      assert Members(nodes, n) == Nodes();
      var answers := n.Compute(nodes, rules, RuleAttempt(ops), read.value, ops, fuel);
      if answers.Err? {
        return Err(answers.error);
      }
      var places := if roundTo.Some? then roundTo.value else DefaultRound;
      return Ok(RoundAll(answers.value, places, ops.round));
    }
  }
}
