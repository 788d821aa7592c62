/** Operand fields of a rule (TeXCalc/fields.py). A field classifies the text
    a pattern group captured as a literal of the field's type, a raw context
    or an index reference, and keeps one stored value per processor id. */
module Fields {
  import opened Wrappers
  import opened Text

  /** The `_type` of a field class: Field (str), IntegerField (int) and
      DecimalField (Decimal). */
  datatype FieldType = StrType | IntType | DecimalType

  /** A stored `'value'`: Python's None, a string, a Decimal, an int, or the
      entry of a `choices` table (the trigonometric and logarithm functions,
      named by the key they are stored under). */
  datatype Payload = NoValue | Str(s: string) | Num(d: real) | Whole(n: int) | Func(name: string)

  /** The constructor arguments of a field. An empty `choices` map stands for
      `choices=None` (both are falsy in the source). */
  datatype FieldSpec = FieldSpec(
    kind: FieldType,
    mayContext: bool,
    mayIndexed: bool,
    choices: map<Payload, Payload>,
    default: Payload)

  /** The dict `{'value': …, 'context': …, 'index': …}` stored per instance. */
  datatype FieldValue = FieldValue(value: Payload, context: bool, index: bool)

  function Pow10(n: nat): (r: nat)
    ensures r >= 1
  {
    if n == 0 then 1 else 10 * Pow10(n - 1)
  }

  predicate DigitsOnly(s: string)
  {
    forall i :: 0 <= i < |s| ==> IsDigit(s[i])
  }

  /** `Decimal(s)` for unsigned text `digits[.digits]` with at least one digit. */
  function ParseUnsigned(s: string): Option<real>
  {
    var k := DigitRunEnd(s, 0);
    if k == |s| then
      if k > 0 then Some(DigitsValue(s) as real) else None
    else if s[k] == '.' && DigitsOnly(s[k + 1..]) && (k > 0 || k + 1 < |s|) then
      var f := s[k + 1..];
      Some(DigitsValue(s[..k]) as real + DigitsValue(f) as real / Pow10(|f|) as real)
    else None
  }

  /** `Decimal(s)`: an optional sign, then digits with at most one point. */
  function ParseDecimal(s: string): (r: Option<real>)
    ensures AllDigits(s) ==> r == Some(DigitsValue(s) as real)
  {
    if |s| > 0 && (s[0] == '+' || s[0] == '-') then
      match ParseUnsigned(s[1..])
      case Some(v) => Some(if s[0] == '-' then -v else v)
      case None => None
    else
      if AllDigits(s) then
        AllDigitsRun(s, 0);
        ParseUnsigned(s)
      else ParseUnsigned(s)
  }

  lemma AllDigitsRun(s: string, p: nat)
    requires AllDigits(s) && p <= |s|
    ensures DigitRunEnd(s, p) == |s|
    decreases |s| - p
  {
    if p < |s| {
      AllDigitsRun(s, p + 1);
    }
  }

  /** `int(s)`: an optional sign and one or more digits. */
  function ParseInt(s: string): Option<int>
  {
    if |s| > 0 && (s[0] == '+' || s[0] == '-') then
      if AllDigits(s[1..]) then
        var v: int := DigitsValue(s[1..]);
        Some(if s[0] == '-' then -v else v)
      else None
    else if AllDigits(s) then Some(DigitsValue(s))
    else None
  }

  /** `self._type(value)`: the literal of the field's type, or None when the
      conversion raises. */
  function ParseAs(kind: FieldType, s: string): Option<Payload>
  {
    match kind
    case StrType => Some(Str(s))
    case IntType => (match ParseInt(s) case Some(n) => Some(Whole(n)) case None => None)
    case DecimalType => (match ParseDecimal(s) case Some(d) => Some(Num(d)) case None => None)
  }

  /** `re.fullmatch(r'/\d+/', s)`. */
  predicate IsSlashNumber(s: string)
  {
    SlashNumberAt(s, 0) == Some(|s|)
  }

  /** `s.replace('/', '').replace('@', '')`. */
  function DropMarks(s: string): (r: string)
    ensures |r| <= |s|
    ensures forall i :: 0 <= i < |r| ==> r[i] != '/' && r[i] != '@'
  {
    if s == [] then []
    else if s[0] == '/' || s[0] == '@' then DropMarks(s[1..])
    else [s[0]] + DropMarks(s[1..])
  }

  /** The three-way classification of a captured string, before `choices`:
      a literal when the field's type accepts it; else a raw context where
      allowed and the text is not `/n/` or `@/n/@`; else an index where
      allowed and only digits are left after dropping the marks. */
  function Classified(spec: FieldSpec, s: string): (r: Result<FieldValue>)
    // a value the type accepts is always stored as that literal
    ensures ParseAs(spec.kind, s).Some? ==> r == Ok(FieldValue(ParseAs(spec.kind, s).value, false, false))
    // otherwise a context-shaped value is stored as the raw text where contexts are allowed
    ensures ParseAs(spec.kind, s).None? && spec.mayContext && !IsSlashNumber(s) && !IsToken(s) ==>
              r == Ok(FieldValue(Str(s), true, false))
    // otherwise an index-shaped value is stored as its number where indices are allowed
    ensures ParseAs(spec.kind, s).None? && !(spec.mayContext && !IsSlashNumber(s) && !IsToken(s)) &&
            spec.mayIndexed && AllDigits(DropMarks(s)) ==>
              r == Ok(FieldValue(Whole(DigitsValue(DropMarks(s))), false, true))
    // it fails exactly when none of the three forms fits
    ensures r.Err? <==>
              ParseAs(spec.kind, s).None? && !(spec.mayContext && !IsSlashNumber(s) && !IsToken(s)) &&
              !(spec.mayIndexed && AllDigits(DropMarks(s)))
    ensures r.Err? ==> r.error == BadFieldArgument(s)
  {
    match ParseAs(spec.kind, s)
    case Some(v) => Ok(FieldValue(v, false, false))
    case None =>
      if spec.mayContext && !(IsSlashNumber(s) || IsToken(s)) then
        Ok(FieldValue(Str(s), true, false))
      else if spec.mayIndexed && AllDigits(DropMarks(s)) then
        Ok(FieldValue(Whole(DigitsValue(DropMarks(s))), false, true))
      else
        Err(BadFieldArgument(s))
  }

  /** `Field.__set__`: the outcome of storing the captured group `value`
      (None when the group did not take part in the match). */
  function Classify(spec: FieldSpec, value: Option<string>): (r: Result<FieldValue>)
    // None stores the default, unflagged, and skips `choices`
    ensures value.None? ==> r == Ok(FieldValue(spec.default, false, false))
    // never both a raw context and an index
    ensures r.Ok? ==> !(r.value.context && r.value.index)
    // a raw context is only stored where allowed and never for `/n/` or `@/n/@`
    ensures r.Ok? && r.value.context ==>
              spec.mayContext && value.Some? && ParseAs(spec.kind, value.value).None? &&
              !IsSlashNumber(value.value) && !IsToken(value.value)
    // an index is only stored where allowed, and is the digits left after dropping `/` and `@`
    ensures r.Ok? && r.value.index ==>
              spec.mayIndexed && value.Some? && ParseAs(spec.kind, value.value).None? &&
              AllDigits(DropMarks(value.value)) &&
              (|spec.choices| == 0 ==> r.value.value == Whole(DigitsValue(DropMarks(value.value))))
    // a literal is the parsed value (seen through `choices` when there are any)
    ensures r.Ok? && value.Some? && !r.value.context && !r.value.index ==>
              ParseAs(spec.kind, value.value).Some? &&
              (|spec.choices| == 0 ==> r.value.value == ParseAs(spec.kind, value.value).value)
    // failures: a string fitting none of the three forms, or a missing choices key
    ensures r.Err? ==>
              value.Some? && (r.error == BadFieldArgument(value.value) || (r.error == BadChoicesMap && |spec.choices| > 0))
    // a value that fits no form fails with BadFieldArgument; without choices the outcome is kept
    ensures value.Some? && (Classified(spec, value.value).Err? || |spec.choices| == 0) ==>
              r == Classified(spec, value.value)
    // with choices the outcome's value is looked up: mapped when present, BadChoicesMap exactly when absent
    ensures value.Some? && Classified(spec, value.value).Ok? && |spec.choices| > 0 ==>
              var fv := Classified(spec, value.value).value;
              (r == Err(BadChoicesMap) <==> fv.value !in spec.choices) &&
              (fv.value in spec.choices ==> r == Ok(fv.(value := spec.choices[fv.value])))
  {
    match value
    case None => Ok(FieldValue(spec.default, false, false))
    case Some(s) =>
      match Classified(spec, s)
      case Err(e) => Err(e)
      case Ok(fv) =>
        if |spec.choices| == 0 then Ok(fv)
        else if fv.value in spec.choices then Ok(fv.(value := spec.choices[fv.value]))
        else Err(BadChoicesMap)
  }

  /** The dict left behind by `Field.__set__`, also when it raised: the
      default dict when no form fitted, the unmapped value when the choices
      lookup failed. */
  function Stored(spec: FieldSpec, value: Option<string>): FieldValue
  {
    match value
    case None => FieldValue(spec.default, false, false)
    case Some(s) =>
      match Classified(spec, s)
      case Err(_) => FieldValue(spec.default, false, false)
      case Ok(fv) =>
        if |spec.choices| > 0 && fv.value in spec.choices then fv.(value := spec.choices[fv.value])
        else fv
  }

  lemma StoredIsOutcome(spec: FieldSpec, value: Option<string>)
    requires Classify(spec, value).Ok?
    ensures Stored(spec, value) == Classify(spec, value).value
  {
  }

  /** A field descriptor: one dict per processor id (`self.__value`). */
  class Field {
    const spec: FieldSpec
    var values: map<int, FieldValue>

    constructor (spec: FieldSpec)
      ensures this.spec == spec && values == map[]
    {
      this.spec := spec;
      values := map[];
    }

    /** `Field.__get__`: the dict stored for this instance, or None. */
    function Get(id: int): (r: Option<FieldValue>)
      reads this
      ensures r.Some? <==> id in values
      ensures r.Some? ==> r.value == values[id]
    {
      if id in values then Some(values[id]) else None
    }

    /** `Field.__set__` on the instance with id `id`. */
    method Set(id: int, value: Option<string>) returns (r: Result<FieldValue>)
      modifies this
      ensures r == Classify(spec, value)
      ensures values == old(values)[id := Stored(spec, value)]
      ensures forall other :: other != id ==> Get(other) == old(Get(other))
      ensures r.Ok? ==> Get(id) == Some(r.value)
    {
      values := values[id := FieldValue(spec.default, false, false)];
      if value.None? {
        return Ok(values[id]);
      }
      var s := value.value;
      match ParseAs(spec.kind, s) {
        case Some(v) =>
          values := values[id := values[id].(value := v)];
        case None =>
          if spec.mayContext && !(IsSlashNumber(s) || IsToken(s)) {
            values := values[id := values[id].(value := Str(s))];
            values := values[id := values[id].(context := true)];
          } else if spec.mayIndexed && AllDigits(DropMarks(s)) {
            values := values[id := values[id].(value := Whole(DigitsValue(DropMarks(s))))];
            values := values[id := values[id].(index := true)];
          } else {
            return Err(BadFieldArgument(s));
          }
      }
      if |spec.choices| > 0 {
        if values[id].value in spec.choices {
          values := values[id := values[id].(value := spec.choices[values[id].value])];
        } else {
          return Err(BadChoicesMap);
        }
      }
      r := Ok(values[id]);
    }
  }
}
