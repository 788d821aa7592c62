/** The rule patterns of TeXCalc/processors.py as hand-written matchers,
    leftmost search (`pattern.search`), and `Processor.process`, which
    searches the remaining tail of a context again and again while a
    carriage offset keeps the borders relative to the whole context. */
module Scanner {
  import opened Wrappers
  import opened Text
  import opened Fields

  /** The registered rule classes. `Fibonacci` is the custom function whose
      `<name>` is `fib`. */
  datatype Rule = Constant | Trig | InverseTrig | Log | Fraction | Exponentiation | Sqrt | Fibonacci

  const TrigNames: seq<string> := ["sin", "cos", "tan", "cot", "sec", "csc", "sinh", "cosh", "tanh", "coth"]
  const InverseTrigNames: seq<string> := ["arcsin", "arccos", "arctan", "arccot", "arcsec", "arccsc"]
  const LogNames: seq<string> := ["lg", "ln", "log"]
  const FibName: string := "fib"

  /** The `pattern` of the CustomFunction class, before `<name>` is filled in. */
  const CustomTemplate: string := "<name>@(?P<parameter>[\\d/]+)@"

  /** The `<name>` substitution of ProcessorMetaclass: a customised class
      without a name is refused, and every `<name>` in the pattern becomes
      the class's name. */
  function CompilePattern(template: string, custom: bool, name: string): (r: Result<string>)
    ensures !custom ==> r == Ok(template)
    ensures custom && name == [] ==> r == Err(NotFoundName)
  {
    if !custom then Ok(template)
    else if name == [] then Err(NotFoundName)
    else Ok(ReplaceAll(template, "<name>", name))
  }

  /** `pat` occurs nowhere in `s`. */
  predicate Absent(s: string, pat: string)
  {
    forall i :: 0 <= i <= |s| ==> !StartsWith(s, i, pat)
  }

  /** With no occurrence of `pat` at or after `from`, `str.replace` leaves
      the rest of `s` as it is. */
  lemma {:induction false} ReplaceFromAbsent(s: string, pat: string, rep: string, from: nat)
    requires |pat| > 0 && from <= |s|
    requires forall i :: from <= i <= |s| ==> !StartsWith(s, i, pat)
    ensures ReplaceFrom(s, pat, rep, from) == s[from..]
    decreases |s| - from
  {
    if from + |pat| <= |s| {
      assert !StartsWith(s, from, pat);
      ReplaceFromAbsent(s, pat, rep, from + 1);
      assert s[from..] == [s[from]] + s[from + 1..];
    }
  }

  /** A custom pattern that starts with `<name>` and has no other `<name>`
      compiles to the class's name followed by the rest of the pattern, which
      is what `CustomAt` matches for the CustomFunction pattern. */
  lemma CustomPatternIsNamed(rest: string, name: string)
    requires name != [] && Absent(rest, "<name>")
    ensures CompilePattern("<name>" + rest, true, name) == Ok(name + rest)
  {
    var t := "<name>" + rest;
    assert t[..6] == "<name>" && t[6..] == rest;
    forall i | 6 <= i <= |t| ensures !StartsWith(t, i, "<name>") {
      assert !StartsWith(rest, i - 6, "<name>");
      if i + 6 <= |t| {
        assert t[i..i + 6] == rest[i - 6..i];
      }
    }
    ReplaceFromAbsent(t, "<name>", name, 6);
  }

  /** The field names of a rule, in the order the class body declares them
      (the order `__init__` assigns them, and so the order of their errors). */
  function FieldNames(rule: Rule): seq<string>
  {
    match rule
    case Constant => ["value"]
    case Trig => ["parameter", "function"]
    case InverseTrig => ["parameter", "function"]
    case Log => ["base", "parameter", "function"]
    case Fraction => ["numerator", "denominator"]
    case Exponentiation => ["value", "exponent"]
    case Sqrt => ["exponent", "value"]
    case Fibonacci => ["parameter"]
  }

  /** `DecimalField(indexed=…, context=…, default=…)`. */
  function DecimalField(indexed: bool, context: bool, default: Payload): FieldSpec
  {
    FieldSpec(DecimalType, context, indexed, map[], default)
  }

  /** `Field(choices=…)`: each function name maps to the function it names. */
  function FunctionField(names: seq<string>): FieldSpec
  {
    FieldSpec(StrType, false, false, map n | n in names :: Str(n) := Func(n), NoValue)
  }

  function FieldSpecs(rule: Rule): (specs: seq<FieldSpec>)
    ensures |specs| == |FieldNames(rule)|
  {
    match rule
    case Constant => [DecimalField(false, false, NoValue)]
    case Trig => [DecimalField(true, false, NoValue), FunctionField(TrigNames)]
    case InverseTrig => [DecimalField(true, false, NoValue), FunctionField(InverseTrigNames)]
    case Log => [DecimalField(true, false, NoValue), DecimalField(true, false, NoValue), FunctionField(LogNames)]
    case Fraction => [DecimalField(true, false, NoValue), DecimalField(true, false, NoValue)]
    case Exponentiation => [DecimalField(true, true, NoValue), DecimalField(true, false, NoValue)]
    case Sqrt => [DecimalField(true, false, Num(2.0)), DecimalField(true, false, NoValue)]
    case Fibonacci => [DecimalField(true, false, NoValue)]
  }

  /** End of the maximal run of characters of class `cls` from `p`. */
  function RunEnd(s: string, p: nat, cls: char -> bool): (e: nat)
    requires p <= |s|
    ensures p <= e <= |s|
    ensures forall i :: p <= i < e ==> cls(s[i])
    ensures e < |s| ==> !cls(s[e])
    decreases |s| - p
  {
    if p < |s| && cls(s[p]) then RunEnd(s, p + 1, cls) else p
  }

  /** `[\d.]` */
  predicate IsNumChar(c: char) { IsDigit(c) || c == '.' }

  /** `[^^*\-+]` */
  predicate IsNonOp(c: char) { c != '^' && c != '*' && c != '-' && c != '+' }

  /** `.` (any character but a newline) */
  predicate IsNotNewline(c: char) { c != '\n' }

  /** `[\d/]` */
  predicate IsDigitOrSlash(c: char) { IsDigit(c) || c == '/' }

  /** `@(/\d+/)@` at `p`: the end of the token and its `/n/` group. */
  function TokenGroupAt(s: string, p: nat): (r: Option<(nat, string)>)
    requires p <= |s|
    ensures r.Some? ==> p + 5 <= r.value.0 <= |s| && r.value.1 == s[p + 1..r.value.0 - 1]
  {
    match TokenAt(s, p)
    case Some(e) => Some((e, s[p + 1..e - 1]))
    case None => None
  }

  /** `\^@(/\d+/)@` at `r`: the exponent part of Exponentiation. */
  function CaretTail(s: string, r: nat): (t: Option<(nat, string)>)
    requires r <= |s|
    ensures t.Some? ==> r + 6 <= t.value.0 <= |s|
  {
    if r < |s| && s[r] == '^' then TokenGroupAt(s, r + 1) else None
  }

  type Groups = seq<Option<string>>

  /** `(?<![@\d/])(?P<value>[\d\.]+)` at `p`. The lookbehind sees only the
      searched string, so position 0 always passes it. */
  function ConstantAt(s: string, p: nat): (r: Option<(nat, Groups)>)
    requires p <= |s|
    ensures r.Some? ==> p < r.value.0 <= |s| && |r.value.1| == 1
  {
    if p < |s| && IsNumChar(s[p]) && (p == 0 || !(s[p - 1] == '@' || IsDigit(s[p - 1]) || s[p - 1] == '/')) then
      var e := RunEnd(s, p, IsNumChar);
      Some((e, [Some(s[p..e])]))
    else None
  }

  /** `\\(?P<function>n1|n2|…)(_@(?P<base>/\d+/)@)?@(?P<parameter>/\d+/)@`
      at `p`, trying the names in order; without `withBase` the optional
      base group is not part of the pattern (the trigonometric rules). The
      groups are in field order: [base,] parameter, function. */
  function FunctionAt(s: string, p: nat, names: seq<string>, withBase: bool): (r: Option<(nat, Groups)>)
    requires p <= |s|
    ensures r.Some? ==> p < r.value.0 <= |s| && |r.value.1| == (if withBase then 3 else 2)
    decreases |names|
  {
    if names == [] || !(p < |s| && s[p] == '\\') then None
    else
      var name := names[0];
      var q := p + 1 + |name|;
      if StartsWith(s, p + 1, name) then
        var based :=
          if withBase && q < |s| && s[q] == '_' then
            match TokenGroupAt(s, q + 1)
            case Some((e1, base)) =>
              (match TokenGroupAt(s, e1)
               case Some((e2, param)) => Some((e2, [Some(base), Some(param), Some(name)]))
               case None => None)
            case None => None
          else None;
        if based.Some? then based
        else
          match TokenGroupAt(s, q)
          case Some((e, param)) =>
            Some((e, if withBase then [None, Some(param), Some(name)] else [Some(param), Some(name)]))
          case None => FunctionAt(s, p, names[1..], withBase)
      else FunctionAt(s, p, names[1..], withBase)
  }

  /** `\\frac@(?P<numerator>/\d+/)@@(?P<denominator>/\d+/)@` at `p`. */
  function FractionAt(s: string, p: nat): (r: Option<(nat, Groups)>)
    requires p <= |s|
    ensures r.Some? ==> p < r.value.0 <= |s| && |r.value.1| == 2
  {
    if StartsWith(s, p, "\\frac") then
      match TokenGroupAt(s, p + 5)
      case Some((e1, num)) =>
        (match TokenGroupAt(s, e1)
         case Some((e2, den)) => Some((e2, [Some(num), Some(den)]))
         case None => None)
      case None => None
    else None
  }

  /** `\\sqrt(\[@(?P<exponent>/\d+/)@\])?@(?P<value>/\d+/)@` at `p`; the
      optional root exponent is tried first. */
  function SqrtAt(s: string, p: nat): (r: Option<(nat, Groups)>)
    requires p <= |s|
    ensures r.Some? ==> p < r.value.0 <= |s| && |r.value.1| == 2
  {
    if StartsWith(s, p, "\\sqrt") then
      var q := p + 5;
      var rooted :=
        if q < |s| && s[q] == '[' then
          match TokenGroupAt(s, q + 1)
          case Some((e1, exponent)) =>
            if e1 < |s| && s[e1] == ']' then
              (match TokenGroupAt(s, e1 + 1)
               case Some((e2, value)) => Some((e2, [Some(exponent), Some(value)]))
               case None => None)
            else None
          case None => None
        else None;
      if rooted.Some? then rooted
      else
        match TokenGroupAt(s, q)
        case Some((e, value)) => Some((e, [None, Some(value)]))
        case None => None
    else None
  }

  /** The greedy `\(.+\)` alternative: the last `)` in `[lo, hi)` that the
      exponent tail follows. */
  function CloseParenDown(s: string, lo: nat, hi: nat): (r: Option<nat>)
    requires lo <= hi <= |s|
    ensures r.Some? ==> lo <= r.value < hi && s[r.value] == ')' && CaretTail(s, r.value + 1).Some?
    decreases hi
  {
    if hi <= lo then None
    else if s[hi - 1] == ')' && CaretTail(s, hi).Some? then Some(hi - 1)
    else CloseParenDown(s, lo, hi - 1)
  }

  /** Where the `value` group of Exponentiation ends at `p`: the first of the
      five alternatives (a word character; a backslash command; a number; a
      parenthesised group; a token) that the exponent tail can follow. */
  function ExponentBaseEnd(s: string, p: nat): (r: Option<nat>)
    requires p < |s|
    ensures r.Some? ==> p < r.value <= |s| && CaretTail(s, r.value).Some?
  {
    if IsWordChar(s[p]) && CaretTail(s, p + 1).Some? then Some(p + 1)
    else if s[p] == '\\' && !StartsWith(s, p + 1, "sum_") && !StartsWith(s, p + 1, "prod_") &&
            p + 1 < |s| && IsWordChar(s[p + 1]) && RunEnd(s, p + 1, IsNonOp) >= p + 3 &&
            CaretTail(s, RunEnd(s, p + 1, IsNonOp)).Some? then
      Some(RunEnd(s, p + 1, IsNonOp))
    else if IsNumChar(s[p]) && CaretTail(s, RunEnd(s, p, IsNumChar)).Some? then
      Some(RunEnd(s, p, IsNumChar))
    else if s[p] == '(' && p + 2 <= RunEnd(s, p + 1, IsNotNewline) &&
            CloseParenDown(s, p + 2, RunEnd(s, p + 1, IsNotNewline)).Some? then
      Some(CloseParenDown(s, p + 2, RunEnd(s, p + 1, IsNotNewline)).value + 1)
    else
      match TokenAt(s, p)
      case Some(e) => if CaretTail(s, e).Some? then Some(e) else None
      case None => None
  }

  /** The Exponentiation pattern at `p`, behind its `(?<!_)` lookbehind. */
  function ExponentiationAt(s: string, p: nat): (r: Option<(nat, Groups)>)
    requires p <= |s|
    ensures r.Some? ==> p < r.value.0 <= |s| && |r.value.1| == 2
  {
    if p < |s| && (p == 0 || s[p - 1] != '_') then
      match ExponentBaseEnd(s, p)
      case Some(r) =>
        var (e, exponent) := CaretTail(s, r).value;
        Some((e, [Some(s[p..r]), Some(exponent)]))
      case None => None
    else None
  }

  /** `<name>@(?P<parameter>[\d/]+)@` at `p`, for the compiled custom pattern. */
  function CustomAt(s: string, p: nat, name: string): (r: Option<(nat, Groups)>)
    requires p <= |s|
    ensures r.Some? ==> p < r.value.0 <= |s| && |r.value.1| == 1
  {
    var q := p + |name|;
    if StartsWith(s, p, name) && q < |s| && s[q] == '@' then
      var m := RunEnd(s, q + 1, IsDigitOrSlash);
      if m > q + 1 && m < |s| && s[m] == '@' then Some((m + 1, [Some(s[q + 1..m])]))
      else None
    else None
  }

  /** The pattern of `rule` matched at position `p`: the end of the match and
      its groups in field order. Every match is non-empty, as each matcher
      states. */
  function MatchAt(rule: Rule, s: string, p: nat): (r: Option<(nat, Groups)>)
    requires p <= |s|
    ensures r.Some? ==> p < r.value.0 <= |s| && |r.value.1| == |FieldNames(rule)|
  {
    match rule
      case Constant => ConstantAt(s, p)
      case Trig => FunctionAt(s, p, TrigNames, false)
      case InverseTrig => FunctionAt(s, p, InverseTrigNames, false)
      case Log => FunctionAt(s, p, LogNames, true)
      case Fraction => FractionAt(s, p)
      case Exponentiation => ExponentiationAt(s, p)
      case Sqrt => SqrtAt(s, p)
      case Fibonacci => CustomAt(s, p, FibName)
  }

  /** A successful search: the span and the groups. */
  datatype Match = Match(start: nat, end: nat, groups: Groups)

  /** `pattern.search(s[from..])` shifted by `from`: the leftmost match
      (`SearchFromLeftmost`). */
  function SearchFrom(rule: Rule, s: string, from: nat): (r: Option<Match>)
    requires from <= |s|
    ensures r.Some? ==> from <= r.value.start < r.value.end <= |s| && |r.value.groups| == |FieldNames(rule)|
    decreases |s| - from
  {
    match MatchAt(rule, s, from)
    case Some((e, g)) => Some(Match(from, e, g))
    case None => if from == |s| then None else SearchFrom(rule, s, from + 1)
  }

  /** The search finds the match at the smallest position where the pattern
      matches, and finds nothing when it matches nowhere. */
  lemma SearchFromLeftmost(rule: Rule, s: string, from: nat)
    requires from <= |s|
    ensures var r := SearchFrom(rule, s, from);
            (r.Some? ==> MatchAt(rule, s, r.value.start) == Some((r.value.end, r.value.groups)) &&
                         forall q :: from <= q < r.value.start ==> MatchAt(rule, s, q).None?) &&
            (r.None? ==> forall q :: from <= q <= |s| ==> MatchAt(rule, s, q).None?)
  {
    if SearchFrom(rule, s, from).Some? {
      SearchFromFound(rule, s, from);
    } else {
      SearchFromMissing(rule, s, from);
    }
  }

  lemma {:induction false} SearchFromFound(rule: Rule, s: string, from: nat)
    requires from <= |s| && SearchFrom(rule, s, from).Some?
    ensures var r := SearchFrom(rule, s, from).value;
            MatchAt(rule, s, r.start) == Some((r.end, r.groups)) &&
            forall q :: from <= q < r.start ==> MatchAt(rule, s, q).None?
    decreases |s| - from
  {
    if MatchAt(rule, s, from).None? {
      var r := SearchFrom(rule, s, from + 1).value;
      SearchFromFound(rule, s, from + 1);
      forall q | from <= q < r.start ensures MatchAt(rule, s, q).None? {
        if q == from {
        }
      }
    }
  }

  lemma {:induction false} SearchFromMissing(rule: Rule, s: string, from: nat)
    requires from <= |s| && SearchFrom(rule, s, from).None?
    ensures forall q :: from <= q <= |s| ==> MatchAt(rule, s, q).None?
    decreases |s| - from
  {
    if from < |s| {
      SearchFromMissing(rule, s, from + 1);
      forall q | from <= q <= |s| ensures MatchAt(rule, s, q).None? {
        if q == from {
        }
      }
    }
  }

  /** `pattern.search(s)`. */
  function Search(rule: Rule, s: string): (r: Option<Match>)
    ensures r.Some? ==> r.value.start < r.value.end <= |s| && |r.value.groups| == |FieldNames(rule)|
  {
    SearchFrom(rule, s, 0)
  }

  /** A processor instance: its operand fields in declaration order, the
      borders and text of its match, and the context it was searched in. */
  datatype Processor = Processor(
    rule: Rule,
    operands: seq<FieldValue>,
    borders: (nat, nat),
    matched: string,
    context: string)

  /** `Field.__set__` on each field in declaration order; the first failure
      is the one raised (`ClassifyAllFirstError`). */
  function ClassifyAll(specs: seq<FieldSpec>, groups: Groups): (r: Result<seq<FieldValue>>)
    requires |specs| == |groups|
    ensures r.Ok? ==> |r.value| == |specs|
  {
    if specs == [] then Ok([])
    else
      match Classify(specs[0], groups[0])
      case Err(e) => Err(e)
      case Ok(v) =>
        match ClassifyAll(specs[1..], groups[1..])
        case Err(e) => Err(e)
        case Ok(vs) => Ok([v] + vs)
  }

  /** Each operand is its field's classification of its group; a failure is
      the failure of the first field that fails. */
  lemma {:induction false} ClassifyAllFirstError(specs: seq<FieldSpec>, groups: Groups)
    requires |specs| == |groups|
    ensures var r := ClassifyAll(specs, groups);
            (r.Ok? ==> forall i :: 0 <= i < |specs| ==> Classify(specs[i], groups[i]) == Ok(r.value[i])) &&
            (r.Err? ==> exists i :: 0 <= i < |specs| && Classify(specs[i], groups[i]) == Err(r.error) &&
                                   forall j :: 0 <= j < i ==> Classify(specs[j], groups[j]).Ok?)
  {
    if specs != [] && Classify(specs[0], groups[0]).Ok? {
      ClassifyAllFirstError(specs[1..], groups[1..]);
      var r := ClassifyAll(specs, groups);
      var rest := ClassifyAll(specs[1..], groups[1..]);
      if rest.Err? {
        var i :| 0 <= i < |specs[1..]| && Classify(specs[1..][i], groups[1..][i]) == Err(rest.error) &&
                 forall j :: 0 <= j < i ==> Classify(specs[1..][j], groups[1..][j]).Ok?;
        assert Classify(specs[i + 1], groups[i + 1]) == Err(r.error);
        forall j | 0 <= j < i + 1 ensures Classify(specs[j], groups[j]).Ok? {
          if j > 0 {
            assert specs[j] == specs[1..][j - 1] && groups[j] == groups[1..][j - 1];
          }
        }
      } else {
        forall i | 0 <= i < |specs| ensures Classify(specs[i], groups[i]) == Ok(r.value[i]) {
          if i > 0 {
            assert specs[i] == specs[1..][i - 1] && groups[i] == groups[1..][i - 1];
          }
        }
      }
    }
  }

  /** `__create_from_search`: a processor for a match in `tail`, whose borders
      are shifted by the carriage. */
  function Create(rule: Rule, m: Match, carriage: nat, tail: string): (r: Result<Processor>)
    requires m.start < m.end <= |tail| && |m.groups| == |FieldNames(rule)|
    ensures r.Ok? ==> r.value.rule == rule && r.value.borders == (m.start + carriage, m.end + carriage) &&
                      r.value.matched == tail[m.start..m.end] && r.value.context == tail &&
                      |r.value.operands| == |FieldNames(rule)|
  {
    var operands :- ClassifyAll(FieldSpecs(rule), m.groups);
    Ok(Processor(rule, operands, (m.start + carriage, m.end + carriage), tail[m.start..m.end], tail))
  }

  /** `process(context, once=True)`: the processor of the leftmost match, or
      None when the pattern does not occur. */
  function ProcessOnce(rule: Rule, context: string): (r: Result<Option<Processor>>)
    ensures r.Ok? && r.value.Some? ==>
              var b := r.value.value.borders;
              r.value.value.rule == rule && |r.value.value.operands| == |FieldNames(rule)| &&
              b.0 < b.1 <= |context| && r.value.value.matched == context[b.0..b.1] &&
              MatchAt(rule, context, b.0).Some? &&
              forall q :: 0 <= q < b.0 ==> MatchAt(rule, context, q).None?
    ensures r.Ok? && r.value.None? <==> Search(rule, context).None?
  {
    SearchFromLeftmost(rule, context, 0);
    match Search(rule, context)
    case None => Ok(None)
    case Some(m) =>
      var p :- Create(rule, m, 0, context);
      Ok(Some(p))
  }

  function Prepend(ps: seq<Processor>, r: Result<seq<Processor>>): Result<seq<Processor>>
  {
    match r
    case Ok(qs) => Ok(ps + qs)
    case Err(e) => Err(e)
  }

  lemma PrependNothing(r: Result<seq<Processor>>)
    ensures Prepend([], r) == r
  {
    if r.Ok? {
      assert [] + r.value == r.value;
    }
  }

  /** What one round of the `process` loop yields on the remaining `tail`:
      nothing found, the error of creating the processor, or the processor
      and the end of its match within `tail`. */
  type Step = Option<Result<(Processor, nat)>>

  /** A round fits its tail: the match is non-empty and lies in the tail, the
      borders are its span shifted by the carriage, and the processor records
      the tail it was searched in. */
  predicate StepFits(step: Step, tail: string, carriage: nat)
  {
    step.Some? && step.value.Ok? ==>
      var (p, e) := step.value.value;
      carriage <= p.borders.0 < p.borders.1 && p.borders.1 == e + carriage && e <= |tail| &&
      p.matched == tail[p.borders.0 - carriage..e] && p.context == tail
  }

  /** `cls.pattern.search(tail)` followed by `__create_from_search` for the
      class of `rule`. */
  function NextProcessor(rule: Rule, tail: string, carriage: nat): (r: Step)
    ensures StepFits(r, tail, carriage)
  {
    match Search(rule, tail)
    case None => None
    case Some(m) =>
      match Create(rule, m, carriage, tail)
      case Err(e) => Some(Err(e))
      case Ok(p) => Some(Ok((p, m.end)))
  }

  /** `process` is a class method shared by every rule; a rule contributes
      only its round, and every rule's round fits. */
  ghost predicate Stepper(next: (string, nat) -> Step)
  {
    forall t, c :: StepFits(next(t, c), t, c)
  }

  function RuleStep(rule: Rule): (next: (string, nat) -> Step)
    ensures Stepper(next)
  {
    (t, c) => NextProcessor(rule, t, c)
  }

  /** What `process(context)` returns when its loop has `carriage` characters
      behind it and `tail` still to search. */
  function Scan(next: (string, nat) -> Step, tail: string, carriage: nat): Result<seq<Processor>>
    requires Stepper(next)
    decreases |tail|
  {
    var step := next(tail, carriage);
    assert StepFits(step, tail, carriage);
    match step
    case None => Ok([])
    case Some(Err(e)) => Err(e)
    case Some(Ok((p, e))) => Prepend([p], Scan(next, tail[e..], carriage + e))
  }

  lemma PrependAppend(done: seq<Processor>, p: Processor, rest: Result<seq<Processor>>)
    ensures Prepend(done, Prepend([p], rest)) == Prepend(done + [p], rest)
  {
    if rest.Ok? {
      assert done + ([p] + rest.value) == (done + [p]) + rest.value;
    }
  }

  /** `Processor.process(context)` for the class whose round is `next`:
      search the tail, record a processor, move the carriage to the end of
      the match, repeat. */
  method Process(next: (string, nat) -> Step, context: string) returns (r: Result<seq<Processor>>)
    requires Stepper(next)
    ensures r == Scan(next, context, 0)
  {
    var processors: seq<Processor> := [];
    var carriage: nat := 0;
    var tail := context;
    PrependNothing(Scan(next, tail, carriage));
    while true
      invariant Scan(next, context, 0) == Prepend(processors, Scan(next, tail, carriage))
      decreases |tail|
    {
      var step := next(tail, carriage);
      assert StepFits(step, tail, carriage);
      if step.None? {
        assert processors + [] == processors;
        return Ok(processors);
      }
      if step.value.Err? {
        return Err(step.value.error);
      }
      var (p, end) := step.value.value;
      PrependAppend(processors, p, Scan(next, tail[end..], carriage + end));
      processors := processors + [p];
      tail := tail[end..];
      carriage := carriage + end;
    }
  }

  /** The borders of a scan: every processor's `matched` is the slice of the
      whole context at its borders, its `context` is what was left after the
      previous match, and successive borders are increasing and do not
      overlap. */
  predicate Bordered(ps: seq<Processor>, s: string, lo: nat)
    decreases |ps|
  {
    ps == [] ||
    (lo <= ps[0].borders.0 < ps[0].borders.1 <= |s| &&
     ps[0].matched == s[ps[0].borders.0..ps[0].borders.1] &&
     ps[0].context == s[lo..] &&
     Bordered(ps[1..], s, ps[0].borders.1))
  }

  lemma {:induction false} ScanBordered(next: (string, nat) -> Step, s: string, carriage: nat)
    requires Stepper(next) && carriage <= |s|
    requires Scan(next, s[carriage..], carriage).Ok?
    ensures Bordered(Scan(next, s[carriage..], carriage).value, s, carriage)
    decreases |s| - carriage
  {
    var tail := s[carriage..];
    var step := next(tail, carriage);
    assert StepFits(step, tail, carriage);
    if step.Some? {
      var (p, e) := step.value.value;
      var after := carriage + e;
      assert tail[e..] == s[after..];
      assert tail[p.borders.0 - carriage..e] == s[p.borders.0..p.borders.1];
      ScanBordered(next, s, after);
      var rest := Scan(next, s[after..], after).value;
      assert ([p] + rest)[1..] == rest;
    }
  }

  lemma {:induction false} BorderedOrdered(ps: seq<Processor>, s: string, lo: nat)
    requires Bordered(ps, s, lo)
    ensures forall i :: 0 <= i < |ps| ==>
              lo <= ps[i].borders.0 < ps[i].borders.1 <= |s| &&
              ps[i].matched == s[ps[i].borders.0..ps[i].borders.1]
    ensures forall i, j :: 0 <= i < j < |ps| ==> ps[i].borders.1 <= ps[j].borders.0
    decreases |ps|
  {
    if ps != [] {
      BorderedOrdered(ps[1..], s, ps[0].borders.1);
      forall i, j | 0 <= i < j < |ps| ensures ps[i].borders.1 <= ps[j].borders.0 {
        assert ps[j] == ps[1..][j - 1];
        if i > 0 {
          assert ps[i] == ps[1..][i - 1];
        }
      }
      forall i | 0 <= i < |ps|
        ensures lo <= ps[i].borders.0 < ps[i].borders.1 <= |s| &&
                ps[i].matched == s[ps[i].borders.0..ps[i].borders.1]
      {
        if i > 0 {
          assert ps[i] == ps[1..][i - 1];
        }
      }
    }
  }

  /** `process(context)`: one processor per match, each `matched` the slice
      of the context at its borders, borders increasing and non-overlapping. */
  lemma ProcessBorders(next: (string, nat) -> Step, context: string)
    requires Stepper(next) && Scan(next, context, 0).Ok?
    ensures var ps := Scan(next, context, 0).value;
            (forall i :: 0 <= i < |ps| ==>
               ps[i].borders.0 < ps[i].borders.1 <= |context| &&
               ps[i].matched == context[ps[i].borders.0..ps[i].borders.1]) &&
            (forall i, j :: 0 <= i < j < |ps| ==> ps[i].borders.1 <= ps[j].borders.0)
  {
    assert context[0..] == context;
    ScanBordered(next, context, 0);
    BorderedOrdered(Scan(next, context, 0).value, context, 0);
  }
}
