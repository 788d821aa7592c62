/** The `validate` guard and the `compute` bodies of the rules
    (TeXCalc/processors.py). Decimal arithmetic and the calls the model does
    not interpret are parameters, gathered in `Ops`. */
module Bodies {
  import opened Wrappers
  import opened Text
  import opened Fields
  import opened Scanner

  /** Operations kept uninterpreted; None stands for a raised exception.
      `leftOut` is the body of the trigonometric and logarithm rules. */
  datatype Ops = Ops(
    quot: (real, real) -> Option<real>,
    power: (real, real) -> Option<real>,
    show: real -> string,
    eval: string -> Option<real>,
    round: (real, int) -> real,
    leftOut: (Processor, map<int, seq<real>>) -> Option<seq<real>>)

  /** A processor carries one operand per field of its rule. */
  predicate WellShaped(p: Processor)
  {
    |p.operands| == |FieldNames(p.rule)|
  }

  /** The `not_context` tuple of each rule's `validate`, as field positions. */
  function NotContext(rule: Rule): (pos: seq<nat>)
    ensures forall k :: 0 <= k < |pos| ==> pos[k] < |FieldNames(rule)|
  {
    match rule
    case Log => [1, 0]
    case Fraction => [0, 1]
    case Exponentiation => [0, 1]
    case Sqrt => [1, 0]
    case _ => [0]
  }

  /** The `index_exist` tuple of each rule's `validate`, as field positions. */
  function IndexExist(rule: Rule): (pos: seq<nat>)
    ensures forall k :: 0 <= k < |pos| ==> pos[k] < |FieldNames(rule)|
  {
    match rule
    case Log => [1, 0]
    case Fraction => [0, 1]
    case Exponentiation => [0, 1]
    case Sqrt => [1]
    case _ => [0]
  }

  /** An index operand whose index has no values in `indices`. */
  predicate MissingIndex(fv: FieldValue, indices: map<int, seq<real>>)
  {
    fv.index && !(fv.value.Whole? && fv.value.n in indices)
  }

  /** The first field, in `pos` order, that holds a raw context. */
  function FirstContext(names: seq<string>, operands: seq<FieldValue>, pos: seq<nat>): (r: Option<string>)
    requires |names| == |operands| && forall k :: 0 <= k < |pos| ==> pos[k] < |operands|
    ensures r.None? <==> forall k :: 0 <= k < |pos| ==> !operands[pos[k]].context
    ensures r.Some? ==> exists k :: 0 <= k < |pos| && operands[pos[k]].context && r.value == names[pos[k]] &&
                                    forall j :: 0 <= j < k ==> !operands[pos[j]].context
  {
    if pos == [] then None
    else if operands[pos[0]].context then Some(names[pos[0]])
    else
      var r := FirstContext(names, operands, pos[1..]);
      assert forall k :: 1 <= k < |pos| ==> pos[k] == pos[1..][k - 1];
      assert r.Some? ==>
               exists k :: 0 <= k < |pos[1..]| && operands[pos[1..][k]].context && r.value == names[pos[1..][k]] &&
                           (forall j :: 0 <= j < k + 1 ==> !operands[pos[j]].context);
      r
  }

  /** The first field, in `pos` order, that is an index missing from `indices`. */
  function FirstMissing(names: seq<string>, operands: seq<FieldValue>, pos: seq<nat>,
                        indices: map<int, seq<real>>): (r: Option<string>)
    requires |names| == |operands| && forall k :: 0 <= k < |pos| ==> pos[k] < |operands|
    ensures r.None? <==> forall k :: 0 <= k < |pos| ==> !MissingIndex(operands[pos[k]], indices)
    ensures r.Some? ==> exists k :: 0 <= k < |pos| && MissingIndex(operands[pos[k]], indices) &&
                                    r.value == names[pos[k]] &&
                                    forall j :: 0 <= j < k ==> !MissingIndex(operands[pos[j]], indices)
  {
    if pos == [] then None
    else if MissingIndex(operands[pos[0]], indices) then Some(names[pos[0]])
    else
      var r := FirstMissing(names, operands, pos[1..], indices);
      assert forall k :: 1 <= k < |pos| ==> pos[k] == pos[1..][k - 1];
      assert r.Some? ==>
               exists k :: 0 <= k < |pos[1..]| && MissingIndex(operands[pos[1..][k]], indices) &&
                           r.value == names[pos[1..][k]] &&
                           (forall j :: 0 <= j < k + 1 ==> !MissingIndex(operands[pos[j]], indices));
      r
  }

  /** `Processor.validate(not_context, index_exist)`: the error the guard
      raises, or None when it calls the body. */
  function Guard(p: Processor, indices: map<int, seq<real>>): (r: Option<Error>)
    requires WellShaped(p)
    ensures r.None? <==>
              (forall k :: 0 <= k < |NotContext(p.rule)| ==> !p.operands[NotContext(p.rule)[k]].context) &&
              (forall k :: 0 <= k < |IndexExist(p.rule)| ==> !MissingIndex(p.operands[IndexExist(p.rule)[k]], indices))
    ensures r.Some? ==> (exists f :: 0 <= f < |FieldNames(p.rule)| &&
                           r.value == NotComputableField(FieldNames(p.rule)[f]) &&
                           (p.operands[f].context || MissingIndex(p.operands[f], indices)))
  {
    var names := FieldNames(p.rule);
    match FirstContext(names, p.operands, NotContext(p.rule))
    case Some(name) => Some(NotComputableField(name))
    case None =>
      match FirstMissing(names, p.operands, IndexExist(p.rule), indices)
      case Some(name) => Some(NotComputableField(name))
      case None => None
  }

  /** `Decimal(str(value))` of a literal operand. */
  function Literal(v: Payload): Result<real>
  {
    match v
    case Num(d) => Ok(d)
    case Whole(n) => Ok(n as real)
    case Str(s) => (match ParseDecimal(s) case Some(d) => Ok(d) case None => Err(DecimalFailure))
    case _ => Err(DecimalFailure)
  }

  /** `indices[operand['value']]` of an index operand. */
  function Indexed(fv: FieldValue, indices: map<int, seq<real>>): Result<seq<real>>
  {
    if fv.value.Whole? && fv.value.n in indices then Ok(indices[fv.value.n]) else Err(KeyError)
  }

  /** The values an operand stands for: its index's values, or its literal. */
  function Values(fv: FieldValue, indices: map<int, seq<real>>): Result<seq<real>>
  {
    if fv.index then Indexed(fv, indices)
    else
      var x :- Literal(fv.value);
      Ok([x])
  }

  /** A tuple of results, or `failure` when one of them raised. */
  function Collect(xs: seq<Option<real>>, failure: Error): (r: Result<seq<real>>)
    ensures r.Ok? <==> forall i :: 0 <= i < |xs| ==> xs[i].Some?
    ensures r.Ok? ==> |r.value| == |xs| && forall i :: 0 <= i < |xs| ==> r.value[i] == xs[i].value
    ensures r.Err? ==> r.error == failure
  {
    if forall i :: 0 <= i < |xs| ==> xs[i].Some? then
      Ok(seq(|xs|, i requires 0 <= i < |xs| => xs[i].value))
    else Err(failure)
  }

  /** `[f(x, y) for y in ys]` */
  function Row(x: real, ys: seq<real>, f: (real, real) -> Option<real>): seq<Option<real>>
  {
    seq(|ys|, j requires 0 <= j < |ys| => f(x, ys[j]))
  }

  /** `[f(x, y) for x in xs]` */
  function Column(xs: seq<real>, y: real, f: (real, real) -> Option<real>): seq<Option<real>>
  {
    seq(|xs|, i requires 0 <= i < |xs| => f(xs[i], y))
  }

  /** `[f(x, y) for x in xs for y in ys]` */
  function Grid(xs: seq<real>, ys: seq<real>, f: (real, real) -> Option<real>): seq<Option<real>>
  {
    if xs == [] then [] else Row(xs[0], ys, f) + Grid(xs[1..], ys, f)
  }

  lemma {:induction false} GridLength(xs: seq<real>, ys: seq<real>, f: (real, real) -> Option<real>)
    ensures |Grid(xs, ys, f)| == |xs| * |ys|
    decreases |xs|
  {
    if xs != [] {
      GridLength(xs[1..], ys, f);
      assert |xs| * |ys| == |ys| + (|xs| - 1) * |ys|;
    }
  }

  /** The grid is the Cartesian product, first operand major: entry
      `i * |ys| + j` pairs `xs[i]` with `ys[j]`. */
  lemma {:induction false} GridAt(xs: seq<real>, ys: seq<real>, f: (real, real) -> Option<real>, i: nat, j: nat)
    requires i < |xs| && j < |ys|
    ensures i * |ys| + j < |Grid(xs, ys, f)|
    ensures Grid(xs, ys, f)[i * |ys| + j] == f(xs[i], ys[j])
    decreases i
  {
    GridLength(xs, ys, f);
    ProductBound(i, j, |xs|, |ys|);
    if i > 0 {
      GridAt(xs[1..], ys, f, i - 1, j);
      assert i * |ys| + j == |ys| + ((i - 1) * |ys| + j);
      assert xs[i] == xs[1..][i - 1];
    }
  }

  lemma ProductBound(i: nat, j: nat, m: nat, n: nat)
    requires i < m && j < n
    ensures i * n + j < m * n
  {
    assert i * n + j < (i + 1) * n;
    assert (i + 1) * n <= m * n;
  }

  lemma GridSingle(x: real, ys: seq<real>, f: (real, real) -> Option<real>)
    ensures Grid([x], ys, f) == Row(x, ys, f)
  {
    assert [x][1..] == [];
  }

  /** The four branches of the Fraction and Exponentiation bodies: literal
      or index for each of the two operands. */
  function Binary(a: FieldValue, b: FieldValue, indices: map<int, seq<real>>,
                  f: (real, real) -> Option<real>): Result<seq<real>>
  {
    if !a.index && !b.index then
      var x :- Literal(a.value);
      var y :- Literal(b.value);
      Collect([f(x, y)], DecimalFailure)
    else if !a.index && b.index then
      var x :- Literal(a.value);
      var ys :- Indexed(b, indices);
      Collect(Row(x, ys, f), DecimalFailure)
    else if a.index && !b.index then
      var xs :- Indexed(a, indices);
      var y :- Literal(b.value);
      Collect(Column(xs, y, f), DecimalFailure)
    else
      var xs :- Indexed(a, indices);
      var ys :- Indexed(b, indices);
      Collect(Grid(xs, ys, f), DecimalFailure)
  }

  /** Whatever the branch, a successful binary body is `f` over the Cartesian
      product of the two operands' values, first operand major, and it
      succeeds exactly when both operands have values and `f` succeeds on
      every pair. */
  lemma BinaryIsGrid(a: FieldValue, b: FieldValue, indices: map<int, seq<real>>, f: (real, real) -> Option<real>)
    ensures var r := Binary(a, b, indices, f);
            var xs := Values(a, indices);
            var ys := Values(b, indices);
            (r.Ok? <==> xs.Ok? && ys.Ok? && Collect(Grid(xs.value, ys.value, f), DecimalFailure).Ok?) &&
            (r.Ok? ==> r.value == Collect(Grid(xs.value, ys.value, f), DecimalFailure).value)
  {
    var xs := Values(a, indices);
    var ys := Values(b, indices);
    if xs.Ok? && ys.Ok? {
      var g := Grid(xs.value, ys.value, f);
      if !a.index && !b.index {
        GridSingle(xs.value[0], ys.value, f);
        assert xs.value == [xs.value[0]] && ys.value == [ys.value[0]];
        assert Row(xs.value[0], ys.value, f) == [f(xs.value[0], ys.value[0])];
      } else if !a.index {
        GridSingle(xs.value[0], ys.value, f);
        assert xs.value == [xs.value[0]];
      } else if !b.index {
        ColumnIsGrid(xs.value, ys.value[0], f);
        assert ys.value == [ys.value[0]];
      }
    }
  }

  lemma {:induction false} ColumnIsGrid(xs: seq<real>, y: real, f: (real, real) -> Option<real>)
    ensures Grid(xs, [y], f) == Column(xs, y, f)
    decreases |xs|
  {
    if xs != [] {
      ColumnIsGrid(xs[1..], y, f);
      assert Column(xs, y, f) == [f(xs[0], y)] + Column(xs[1..], y, f);
    }
  }

  /** The Fraction body: numerator / denominator over the product. */
  function FractionBody(p: Processor, indices: map<int, seq<real>>, ops: Ops): Result<seq<real>>
    requires p.rule == Fraction && WellShaped(p)
  {
    Binary(p.operands[0], p.operands[1], indices, ops.quot)
  }

  /** The Exponentiation body: value ** exponent over the product. */
  function ExponentiationBody(p: Processor, indices: map<int, seq<real>>, ops: Ops): Result<seq<real>>
    requires p.rule == Exponentiation && WellShaped(p)
  {
    Binary(p.operands[0], p.operands[1], indices, ops.power)
  }

  /** The result count of Fraction and Exponentiation: the product of the
      operands' value counts, a literal counting once. */
  lemma BinaryCount(a: FieldValue, b: FieldValue, indices: map<int, seq<real>>, f: (real, real) -> Option<real>)
    requires Binary(a, b, indices, f).Ok?
    ensures |Binary(a, b, indices, f).value| == |Values(a, indices).value| * |Values(b, indices).value|
  {
    BinaryIsGrid(a, b, indices, f);
    GridLength(Values(a, indices).value, Values(b, indices).value, f);
  }

  /** `x % 2 == 0` for a Decimal: `x` is an even integer. */
  predicate IsEven(x: real)
  {
    x.Floor as real == x && x.Floor % 2 == 0
  }

  predicate AnyNonPositive(xs: seq<real>) { exists i :: 0 <= i < |xs| && xs[i] <= 0.0 }
  predicate AnyEven(xs: seq<real>) { exists i :: 0 <= i < |xs| && IsEven(xs[i]) }
  predicate AnyNegative(xs: seq<real>) { exists i :: 0 <= i < |xs| && xs[i] < 0.0 }

  /** The four-branch domain check of Sqrt: whether it raises
      SqrtOfNegativeValue. */
  function SqrtRefused(value: FieldValue, exponent: FieldValue, indices: map<int, seq<real>>): Result<bool>
  {
    if !value.index && !exponent.index then
      var e :- Literal(exponent.value);
      var v :- Literal(value.value);
      Ok(e <= 0.0 || (IsEven(e) && v < 0.0))
    else if !value.index && exponent.index then
      var es :- Indexed(exponent, indices);
      var v :- Literal(value.value);
      Ok(AnyNonPositive(es) || (AnyEven(es) && v < 0.0))
    else if value.index && !exponent.index then
      var e :- Literal(exponent.value);
      var vs :- Indexed(value, indices);
      Ok(e <= 0.0 || (IsEven(e) && AnyNegative(vs)))
    else
      var es :- Indexed(exponent, indices);
      var vs :- Indexed(value, indices);
      Ok(AnyNonPositive(es) || (AnyEven(es) && AnyNegative(vs)))
  }

  /** `value ** (Decimal('1') / exponent)` */
  function Root(ops: Ops, v: real, e: real): Option<real>
  {
    match ops.quot(1.0, e)
    case Some(q) => ops.power(v, q)
    case None => None
  }

  /** The Sqrt body: the domain check, then the root over the product of
      values and exponents, value major. */
  function SqrtBody(p: Processor, indices: map<int, seq<real>>, ops: Ops): Result<seq<real>>
    requires p.rule == Sqrt && WellShaped(p)
  {
    var exponent := p.operands[0];
    var value := p.operands[1];
    var refused :- SqrtRefused(value, exponent, indices);
    if refused then Err(SqrtOfNegativeValue)
    else Binary(value, exponent, indices, (v, e) => Root(ops, v, e))
  }

  /** Sqrt refuses exactly when some exponent is not positive, or some
      exponent is even and some value is negative. */
  lemma SqrtRefusedExactly(value: FieldValue, exponent: FieldValue, indices: map<int, seq<real>>)
    requires Values(value, indices).Ok? && Values(exponent, indices).Ok?
    ensures var vs := Values(value, indices).value;
            var es := Values(exponent, indices).value;
            SqrtRefused(value, exponent, indices) ==
              Ok(AnyNonPositive(es) || (AnyEven(es) && AnyNegative(vs)))
  {
    var vs := Values(value, indices).value;
    var es := Values(exponent, indices).value;
    if !exponent.index {
      assert es == [es[0]];
      assert AnyNonPositive(es) <==> es[0] <= 0.0;
      assert AnyEven(es) <==> IsEven(es[0]);
    }
    if !value.index {
      assert vs == [vs[0]];
      assert AnyNegative(vs) <==> vs[0] < 0.0;
    }
  }

  /** `int(x)` for a Decimal: truncation toward zero. */
  function Trunc(x: real): int
  {
    if x >= 0.0 then x.Floor else -((-x).Floor)
  }

  /** The positions the Fibonacci body works on. */
  function FibParameters(param: FieldValue, indices: map<int, seq<real>>): Result<seq<int>>
  {
    var xs :- Values(param, indices);
    Ok(seq(|xs|, i requires 0 <= i < |xs| => Trunc(xs[i])))
  }

  /** The Fibonacci sequence from position 1: 1, 1, 2, 3, 5, … */
  function Fib(n: nat): nat
    requires n >= 1
  {
    if n <= 2 then 1 else Fib(n - 1) + Fib(n - 2)
  }

  function PrefixAll(xs: seq<real>, r: Result<seq<real>>): Result<seq<real>>
  {
    match r
    case Ok(ys) => Ok(xs + ys)
    case Err(e) => Err(e)
  }

  /** One answer per position, in order; the first position below 1 is
      refused. */
  function FibAnswers(ps: seq<int>): Result<seq<real>>
    decreases |ps|
  {
    if ps == [] then Ok([])
    else if ps[0] < 1 then Err(InvalidFibonacciPosition(ps[0]))
    else PrefixAll([Fib(ps[0]) as real], FibAnswers(ps[1..]))
  }

  /** The answers are the Fibonacci numbers of the positions, and a refusal
      names the first position below 1. */
  lemma {:induction false} FibAnswersSpec(ps: seq<int>)
    ensures var r := FibAnswers(ps);
            (r.Ok? <==> forall i :: 0 <= i < |ps| ==> ps[i] >= 1) &&
            (r.Ok? ==> |r.value| == |ps| && forall i :: 0 <= i < |ps| ==> r.value[i] == Fib(ps[i]) as real) &&
            (r.Err? ==> exists i :: 0 <= i < |ps| && ps[i] < 1 && r.error == InvalidFibonacciPosition(ps[i]) &&
                                    forall j :: 0 <= j < i ==> ps[j] >= 1)
    decreases |ps|
  {
    if ps != [] && ps[0] >= 1 {
      FibAnswersSpec(ps[1..]);
      var r := FibAnswers(ps);
      var rest := FibAnswers(ps[1..]);
      assert forall i :: 1 <= i < |ps| ==> ps[i] == ps[1..][i - 1];
      if rest.Ok? {
        assert r.value == [Fib(ps[0]) as real] + rest.value;
      } else {
        var i :| 0 <= i < |ps[1..]| && ps[1..][i] < 1 && rest.error == InvalidFibonacciPosition(ps[1..][i]) &&
                 forall j :: 0 <= j < i ==> ps[1..][j] >= 1;
        assert ps[i + 1] < 1 && r.error == InvalidFibonacciPosition(ps[i + 1]);
      }
    }
  }

  lemma PrefixStep(answers: seq<real>, xs: seq<real>, rest: Result<seq<real>>)
    ensures PrefixAll(answers, PrefixAll(xs, rest)) == PrefixAll(answers + xs, rest)
  {
    if rest.Ok? {
      assert answers + (xs + rest.value) == (answers + xs) + rest.value;
    }
  }

  lemma PrefixNothing(r: Result<seq<real>>)
    ensures PrefixAll([], r) == r
  {
    if r.Ok? {
      assert [] + r.value == r.value;
    }
  }

  /** `FibonacciFunction.compute` once the positions are known: for each
      position, the `prev`/`curr` loop. */
  method FibonacciCompute(parameters: seq<int>) returns (r: Result<seq<real>>)
    ensures r == FibAnswers(parameters)
  {
    var answers: seq<real> := [];
    var k := 0;
    assert parameters[0..] == parameters;
    PrefixNothing(FibAnswers(parameters));
    while k < |parameters|
      invariant k <= |parameters|
      invariant FibAnswers(parameters) == PrefixAll(answers, FibAnswers(parameters[k..]))
    {
      var parameter := parameters[k];
      if parameter < 1 {
        return Err(InvalidFibonacciPosition(parameter));
      }
      var prev: nat := 1;
      var curr: nat := 1;
      var i := 3;
      while i <= parameter
        invariant 3 <= i <= if parameter >= 3 then parameter + 1 else 3
        invariant prev == Fib(i - 2) && curr == Fib(i - 1)
      {
        var tmp := curr;
        curr := curr + prev;
        prev := tmp;
        i := i + 1;
      }
      assert curr == Fib(parameter);
      assert parameters[k..][1..] == parameters[k + 1..];
      PrefixStep(answers, [curr as real], FibAnswers(parameters[k + 1..]));
      answers := answers + [curr as real];
      k := k + 1;
    }
    assert answers + [] == answers;
    return Ok(answers);
  }

  /** The Fibonacci body on its operand. */
  function FibonacciBody(p: Processor, indices: map<int, seq<real>>): Result<seq<real>>
    requires p.rule == Fibonacci && WellShaped(p)
  {
    var ps :- FibParameters(p.operands[0], indices);
    FibAnswers(ps)
  }

  /** A rule's `compute`: the guard, then the body. */
  function RuleCompute(p: Processor, indices: map<int, seq<real>>, ops: Ops): (r: Result<seq<real>>)
    requires WellShaped(p)
    ensures Guard(p, indices).Some? ==> r == Err(Guard(p, indices).value)
  {
    match Guard(p, indices)
    case Some(e) => Err(e)
    case None =>
      match p.rule
      case Constant =>
        var v :- Literal(p.operands[0].value);
        Ok([v])
      case Fraction => FractionBody(p, indices, ops)
      case Exponentiation => ExponentiationBody(p, indices, ops)
      case Sqrt => SqrtBody(p, indices, ops)
      case Fibonacci => FibonacciBody(p, indices)
      case _ =>
        match ops.leftOut(p, indices)
        case Some(vs) => Ok(vs)
        case None => Err(DecimalFailure)
  }

  /** Constant returns its own literal, and only that. */
  lemma ConstantComputesItself(p: Processor, indices: map<int, seq<real>>, ops: Ops)
    requires p.rule == Constant && WellShaped(p) && p.operands[0].value.Num?
    requires !p.operands[0].context && !p.operands[0].index
    ensures RuleCompute(p, indices, ops) == Ok([p.operands[0].value.d])
  {
  }
}
