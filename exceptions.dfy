/** Error templates (TeXCalc/exceptions.py). Each error class is declared as a
    table from attribute name to message; the metaclass scans every message
    for `{name}` placeholders and installs a factory that refuses to build
    the error unless every placeholder is supplied. */
module Exceptions {
  import opened Wrappers
  import opened Text

  /** The pattern `\{(?P<kwarg_name>\w+)\}` tried at position `p`: the end of
      the match, if it matches there. */
  function PlaceholderAt(s: string, p: nat): (r: Option<nat>)
    requires p <= |s|
    ensures r.Some? ==> p + 3 <= r.value <= |s| && s[p] == '{' && s[r.value - 1] == '}'
    ensures r.Some? ==> IsName(s[p + 1..r.value - 1])
  {
    if p < |s| && s[p] == '{' then
      var e := WordRunEnd(s, p + 1);
      if e > p + 1 && e < |s| && s[e] == '}' then
        Some(e + 1)
      else None
    else None
  }

  /** A placeholder name: one or more word characters. */
  predicate IsName(s: string)
  {
    |s| > 0 && forall i :: 0 <= i < |s| ==> IsWordChar(s[i])
  }

  /** `re.search` of the placeholder pattern, starting at `from`: the leftmost
      match as (start, end). */
  function FindPlaceholder(s: string, from: nat): (r: Option<(nat, nat)>)
    requires from <= |s|
    ensures r.Some? ==> from <= r.value.0 <= |s| && PlaceholderAt(s, r.value.0) == Some(r.value.1)
    ensures r.Some? ==> forall q :: from <= q < r.value.0 ==> PlaceholderAt(s, q).None?
    ensures r.None? ==> forall q :: from <= q <= |s| ==> PlaceholderAt(s, q).None?
    decreases |s| - from
  {
    match PlaceholderAt(s, from)
    case Some(e) => Some((from, e))
    case None => if from == |s| then None else FindPlaceholder(s, from + 1)
  }

  /** The placeholder names of a message, in order of occurrence: search,
      record the name, continue after the match. */
  function Placeholders(msg: string): (names: seq<string>)
    ensures forall i :: 0 <= i < |names| ==> IsName(names[i])
    decreases |msg|
  {
    match FindPlaceholder(msg, 0)
    case None => []
    case Some((a, e)) => [msg[a + 1..e - 1]] + Placeholders(msg[e..])
  }

  /** The scanning loop of TeXCalcError.__new__ for one message. */
  method ExtractPlaceholders(message: string) returns (kwargs: seq<string>)
    ensures kwargs == Placeholders(message)
  {
    kwargs := [];
    var tmp := message;
    while true
      invariant kwargs + Placeholders(tmp) == Placeholders(message)
      decreases |tmp|
    {
      var found := FindPlaceholder(tmp, 0);
      if found.None? {
        break;
      }
      var (a, e) := found.value;
      kwargs := kwargs + [tmp[a + 1..e - 1]];
      tmp := tmp[e..];
    }
  }

  /** `message.format(**kwargs)` for messages whose only replacement fields
      are `{name}` placeholders. */
  function Format(msg: string, kwargs: map<string, string>): string
    requires forall n :: n in Placeholders(msg) ==> n in kwargs
    decreases |msg|
  {
    match FindPlaceholder(msg, 0)
    case None => msg
    case Some((a, e)) =>
      assert msg[a + 1..e - 1] in Placeholders(msg);
      msg[..a] + kwargs[msg[a + 1..e - 1]] + Format(msg[e..], kwargs)
  }

  /** What the metaclass installs per attribute: `texcalc_error(attr, message, kwargs)`. */
  datatype ErrorFactory = ErrorFactory(attr: string, message: string, kwargs: seq<string>)

  predicate WellFormed(f: ErrorFactory)
  {
    f.kwargs == Placeholders(f.message)
  }

  /** Calling the installed class method with keyword arguments `attrKwargs`:
      AttributeError unless every recorded placeholder is supplied, otherwise
      the message `[attr] ` followed by the substituted template. */
  function Raise(f: ErrorFactory, attrKwargs: map<string, string>): (r: Result<string>)
    requires WellFormed(f)
    ensures r.Err? <==> exists i :: 0 <= i < |f.kwargs| && f.kwargs[i] !in attrKwargs
    ensures r.Err? ==> r.error == AttributeError
    ensures r.Ok? ==> "[" + f.attr + "] " <= r.value
    ensures r.Ok? ==> r.value == "[" + f.attr + "] " + Format(f.message, attrKwargs)
  {
    if forall i :: 0 <= i < |f.kwargs| ==> f.kwargs[i] in attrKwargs then
      Ok("[" + f.attr + "] " + Format(f.message, attrKwargs))
    else
      Err(AttributeError)
  }

  /** TeXCalcError.__new__: one factory per entry of the class's `errors` table. */
  method MakeErrorClass(errors: seq<(string, string)>) returns (attrs: map<string, ErrorFactory>)
    requires forall i, j :: 0 <= i < j < |errors| ==> errors[i].0 != errors[j].0
    ensures attrs.Keys == set i | 0 <= i < |errors| :: errors[i].0
    ensures forall i :: 0 <= i < |errors| ==>
              attrs[errors[i].0] == ErrorFactory(errors[i].0, errors[i].1, Placeholders(errors[i].1))
    ensures forall a :: a in attrs ==> WellFormed(attrs[a])
  {
    attrs := map[];
    for n := 0 to |errors|
      invariant attrs.Keys == set i | 0 <= i < n :: errors[i].0
      invariant forall i :: 0 <= i < n ==>
                  attrs[errors[i].0] == ErrorFactory(errors[i].0, errors[i].1, Placeholders(errors[i].1))
      invariant forall a :: a in attrs ==> WellFormed(attrs[a])
    {
      var (attr, message) := errors[n];
      var kwargs := ExtractPlaceholders(message);
      attrs := attrs[attr := ErrorFactory(attr, message, kwargs)];
    }
  }

  // ---------------------------------------------------------------------
  // Properties of the templates

  /** A message built from literal parts (without `{`) and placeholder names. */
  function Template(parts: seq<string>, names: seq<string>): string
    requires |parts| == |names| + 1
  {
    if names == [] then parts[0]
    else parts[0] + "{" + names[0] + "}" + Template(parts[1..], names[1..])
  }

  /** The same message with each placeholder replaced by its value. */
  function Filled(parts: seq<string>, names: seq<string>, kwargs: map<string, string>): string
    requires |parts| == |names| + 1
    requires forall i :: 0 <= i < |names| ==> names[i] in kwargs
  {
    if names == [] then parts[0]
    else parts[0] + kwargs[names[0]] + Filled(parts[1..], names[1..], kwargs)
  }

  predicate NoOpenBrace(s: string)
  {
    forall i :: 0 <= i < |s| ==> s[i] != '{'
  }

  /** The first placeholder of `part + "{" + name + "}" + rest` is the one after `part`. */
  lemma {:induction false} FirstPlaceholder(part: string, name: string, rest: string)
    requires NoOpenBrace(part) && IsName(name)
    ensures var s := part + "{" + name + "}" + rest;
            FindPlaceholder(s, 0) == Some((|part|, |part| + |name| + 2))
  {
    var s := part + "{" + name + "}" + rest;
    var p := |part|;
    assert s[p] == '{';
    assert forall i :: 0 <= i < |name| ==> s[p + 1 + i] == name[i];
    assert s[p + 1 + |name|] == '}';
    WordRunAt(s, p + 1, |name|);
    assert PlaceholderAt(s, p) == Some(p + |name| + 2);
    FindFrom(s, 0, p);
  }

  lemma WordRunAt(s: string, p: nat, n: nat)
    requires p + n < |s|
    requires forall i :: p <= i < p + n ==> IsWordChar(s[i])
    requires !IsWordChar(s[p + n])
    ensures WordRunEnd(s, p) == p + n
    decreases n
  {
    if n > 0 {
      WordRunAt(s, p + 1, n - 1);
    }
  }

  /** A search that meets no `{` before `p` finds its match at `p` if one starts there. */
  lemma FindFrom(s: string, from: nat, p: nat)
    requires from <= p < |s|
    requires forall q :: from <= q < p ==> s[q] != '{'
    requires PlaceholderAt(s, p).Some?
    ensures FindPlaceholder(s, from) == Some((p, PlaceholderAt(s, p).value))
    decreases p - from
  {
    if from < p {
      FindFrom(s, from + 1, p);
    }
  }

  /** A message without `{` has no placeholders. */
  lemma NoBraceNoPlaceholders(msg: string)
    requires NoOpenBrace(msg)
    ensures Placeholders(msg) == [] && Format(msg, map[]) == msg
  {
    assert FindPlaceholder(msg, 0).None?;
  }

  /** One placeholder step of the scan over `part + "{" + name + "}" + rest`. */
  lemma PlaceholdersStep(part: string, name: string, rest: string)
    requires NoOpenBrace(part) && IsName(name)
    ensures Placeholders(part + "{" + name + "}" + rest) == [name] + Placeholders(rest)
  {
    var head := part + "{" + name + "}";
    var s := head + rest;
    FirstPlaceholder(part, name, rest);
    var e := |head|;
    assert s[|part| + 1..e - 1] == head[|part| + 1..e - 1] == name;
    assert s[e..] == rest;
  }

  /** One substitution step of `format` over `part + "{" + name + "}" + rest`. */
  lemma FormatStep(part: string, name: string, rest: string, kwargs: map<string, string>)
    requires NoOpenBrace(part) && IsName(name) && name in kwargs
    requires forall n :: n in Placeholders(rest) ==> n in kwargs
    requires Placeholders(part + "{" + name + "}" + rest) == [name] + Placeholders(rest)
    ensures Format(part + "{" + name + "}" + rest, kwargs) == part + kwargs[name] + Format(rest, kwargs)
  {
    var head := part + "{" + name + "}";
    var s := head + rest;
    FirstPlaceholder(part, name, rest);
    var e := |head|;
    assert s[|part| + 1..e - 1] == head[|part| + 1..e - 1] == name;
    assert s[e..] == rest;
    assert s[..|part|] == head[..|part|] == part;
  }

  /** Scanning a template gives back exactly its placeholder names, in order. */
  lemma {:induction false} PlaceholdersOfTemplate(parts: seq<string>, names: seq<string>)
    requires |parts| == |names| + 1
    requires forall i :: 0 <= i < |parts| ==> NoOpenBrace(parts[i])
    requires forall i :: 0 <= i < |names| ==> IsName(names[i])
    ensures Placeholders(Template(parts, names)) == names
  {
    if names == [] {
      NoBraceNoPlaceholders(parts[0]);
    } else {
      var rest := Template(parts[1..], names[1..]);
      PlaceholdersStep(parts[0], names[0], rest);
      PlaceholdersOfTemplate(parts[1..], names[1..]);
    }
  }

  /** Formatting a template substitutes each placeholder by its value. */
  lemma {:induction false} FormatTemplate(parts: seq<string>, names: seq<string>, kwargs: map<string, string>)
    requires |parts| == |names| + 1
    requires forall i :: 0 <= i < |parts| ==> NoOpenBrace(parts[i])
    requires forall i :: 0 <= i < |names| ==> IsName(names[i]) && names[i] in kwargs
    ensures Placeholders(Template(parts, names)) == names
    ensures Format(Template(parts, names), kwargs) == Filled(parts, names, kwargs)
  {
    PlaceholdersOfTemplate(parts, names);
    if names == [] {
      NoBraceNoPlaceholders(parts[0]);
      assert FindPlaceholder(parts[0], 0).None?;
    } else {
      var rest := Template(parts[1..], names[1..]);
      FormatTemplate(parts[1..], names[1..], kwargs);
      PlaceholdersStep(parts[0], names[0], rest);
      FormatStep(parts[0], names[0], rest, kwargs);
    }
  }

  /** Extra keyword arguments are allowed and change nothing. */
  lemma {:induction false} FormatIgnoresExtra(msg: string, kwargs: map<string, string>, more: map<string, string>)
    requires forall n :: n in Placeholders(msg) ==> n in kwargs
    requires forall n :: n in kwargs ==> n in more && more[n] == kwargs[n]
    ensures Format(msg, more) == Format(msg, kwargs)
    decreases |msg|
  {
    match FindPlaceholder(msg, 0)
    case None =>
    case Some((a, e)) =>
      FormatUnfold(msg, kwargs, a, e);
      FormatUnfold(msg, more, a, e);
      FormatIgnoresExtra(msg[e..], kwargs, more);
  }

  /** One step of `Format`: the text before the first placeholder, its
      value, then the rest formatted with the same arguments. */
  lemma FormatUnfold(msg: string, kwargs: map<string, string>, a: nat, e: nat)
    requires forall n :: n in Placeholders(msg) ==> n in kwargs
    requires FindPlaceholder(msg, 0) == Some((a, e))
    ensures msg[a + 1..e - 1] in kwargs && forall n :: n in Placeholders(msg[e..]) ==> n in kwargs
    ensures Format(msg, kwargs) == msg[..a] + kwargs[msg[a + 1..e - 1]] + Format(msg[e..], kwargs)
  {
    assert Placeholders(msg) == [msg[a + 1..e - 1]] + Placeholders(msg[e..]);
    forall n | n in Placeholders(msg[e..]) ensures n in kwargs {
      assert n in Placeholders(msg);
    }
  }



  lemma RaiseAcceptsExtra(f: ErrorFactory, kwargs: map<string, string>, more: map<string, string>)
    requires WellFormed(f) && Raise(f, kwargs).Ok?
    requires forall n :: n in kwargs ==> n in more && more[n] == kwargs[n]
    ensures Raise(f, more) == Raise(f, kwargs)
  {
    assert forall n :: n in Placeholders(f.message) ==> n in kwargs by {
      forall n | n in Placeholders(f.message) ensures n in kwargs {
        var i :| 0 <= i < |f.kwargs| && f.kwargs[i] == n;
      }
    }
    FormatIgnoresExtra(f.message, kwargs, more);
  }

  /** A factory whose message has no `{` accepts a call without arguments
      and reproduces its message after the `[attr] ` prefix. */
  lemma RaiseWithoutPlaceholders(f: ErrorFactory)
    requires WellFormed(f) && NoOpenBrace(f.message)
    ensures Raise(f, map[]) == Ok("[" + f.attr + "] " + f.message)
  {
    NoBraceNoPlaceholders(f.message);
  }

  /** A factory whose message is a template, called with a value for every
      placeholder, gives the `[attr] ` prefix followed by the filled template. */
  lemma RaiseTemplate(f: ErrorFactory, parts: seq<string>, names: seq<string>, kwargs: map<string, string>)
    requires WellFormed(f) && |parts| == |names| + 1 && f.message == Template(parts, names)
    requires forall i :: 0 <= i < |parts| ==> NoOpenBrace(parts[i])
    requires forall i :: 0 <= i < |names| ==> IsName(names[i]) && names[i] in kwargs
    ensures Raise(f, kwargs) == Ok("[" + f.attr + "] " + Filled(parts, names, kwargs))
  {
    FormatTemplate(parts, names, kwargs);
  }

  /** A template called without a value for one of its placeholders raises
      AttributeError. */
  lemma RaiseTemplateMissing(f: ErrorFactory, parts: seq<string>, names: seq<string>, kwargs: map<string, string>, i: nat)
    requires WellFormed(f) && |parts| == |names| + 1 && f.message == Template(parts, names)
    requires forall j :: 0 <= j < |parts| ==> NoOpenBrace(parts[j])
    requires forall j :: 0 <= j < |names| ==> IsName(names[j])
    requires i < |names| && names[i] !in kwargs
    ensures Raise(f, kwargs) == Err(AttributeError)
  {
    PlaceholdersOfTemplate(parts, names);
  }
}
