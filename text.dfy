/** Character classes, digit strings, the `@/n/@` index token and the two
    Python string operations the library leans on (`str.replace` and
    `re.finditer` of a literal word). Character classes are ASCII. */
module Text {
  import opened Wrappers

  predicate IsDigit(c: char) { '0' <= c <= '9' }

  /** Python's `\w` restricted to ASCII. */
  predicate IsWordChar(c: char)
  {
    IsDigit(c) || 'a' <= c <= 'z' || 'A' <= c <= 'Z' || c == '_'
  }

  predicate IsLowerLetter(c: char) { 'a' <= c <= 'z' }

  predicate AllDigits(s: string)
  {
    |s| > 0 && forall i :: 0 <= i < |s| ==> IsDigit(s[i])
  }

  /** The value of a string of decimal digits, read left to right. */
  function DigitsValue(s: string): nat
    requires forall i :: 0 <= i < |s| ==> IsDigit(s[i])
  {
    if s == [] then 0
    else 10 * DigitsValue(s[..|s| - 1]) + DigitValue(s[|s| - 1])
  }

  function DigitValue(c: char): nat
    requires IsDigit(c)
  {
    c as int - '0' as int
  }

  /** `str(n)` for a non-negative integer. */
  function NatToString(n: nat): (r: string)
    ensures AllDigits(r)
  {
    if n < 10 then [('0' as int + n) as char]
    else NatToString(n / 10) + [('0' as int + n % 10) as char]
  }

  lemma {:induction false} NatToStringValue(n: nat)
    ensures DigitsValue(NatToString(n)) == n
  {
    var r := NatToString(n);
    if n >= 10 {
      NatToStringValue(n / 10);
      assert r[..|r| - 1] == NatToString(n / 10);
    }
  }

  lemma NatToStringInjective(m: nat, n: nat)
    requires NatToString(m) == NatToString(n)
    ensures m == n
  {
    NatToStringValue(m);
    NatToStringValue(n);
  }

  /** The index token `@/n/@` that stands for entry `n` of the context map. */
  function Token(n: nat): (t: string)
    ensures |t| >= 5 && t[..2] == "@/" && t[|t| - 2..] == "/@"
    ensures AllDigits(t[2..|t| - 2]) && DigitsValue(t[2..|t| - 2]) == n
  {
    var t := "@/" + NatToString(n) + "/@";
    assert t[2..|t| - 2] == NatToString(n);
    NatToStringValue(n);
    t
  }

  predicate StartsWith(s: string, p: nat, w: string)
  {
    p + |w| <= |s| && s[p..p + |w|] == w
  }

  /** End of the maximal run of digits that starts at `p`. */
  function DigitRunEnd(s: string, p: nat): (e: nat)
    requires p <= |s|
    ensures p <= e <= |s|
    ensures forall i :: p <= i < e ==> IsDigit(s[i])
    ensures e < |s| ==> !IsDigit(s[e])
    decreases |s| - p
  {
    if p < |s| && IsDigit(s[p]) then DigitRunEnd(s, p + 1) else p
  }

  /** End of the maximal run of word characters (`\w`) that starts at `p`. */
  function WordRunEnd(s: string, p: nat): (e: nat)
    requires p <= |s|
    ensures p <= e <= |s|
    ensures forall i :: p <= i < e ==> IsWordChar(s[i])
    ensures e < |s| ==> !IsWordChar(s[e])
    decreases |s| - p
  {
    if p < |s| && IsWordChar(s[p]) then WordRunEnd(s, p + 1) else p
  }

  /** The regex `/\d+/` at position `p`: its end, if it matches there. */
  function SlashNumberAt(s: string, p: nat): (r: Option<nat>)
    requires p <= |s|
    ensures r.Some? ==> p + 3 <= r.value <= |s| && s[p] == '/' && s[r.value - 1] == '/'
    ensures r.Some? ==> AllDigits(s[p + 1..r.value - 1])
  {
    if p < |s| && s[p] == '/' then
      var e := DigitRunEnd(s, p + 1);
      if e > p + 1 && e < |s| && s[e] == '/' then
        Some(e + 1)
      else None
    else None
  }

  /** The regex `@/\d+/@` at position `p`: its end, if it matches there. */
  function TokenAt(s: string, p: nat): (r: Option<nat>)
    requires p <= |s|
    ensures r.Some? ==> p + 5 <= r.value <= |s| && s[p] == '@' && s[r.value - 1] == '@'
    ensures r.Some? ==> SlashNumberAt(s, p + 1) == Some(r.value - 1)
  {
    if p < |s| && s[p] == '@' then
      match SlashNumberAt(s, p + 1)
      case Some(e) => if e < |s| && s[e] == '@' then Some(e + 1) else None
      case None => None
    else None
  }

  /** `re.fullmatch(r"@/\d+/@", s)`. */
  predicate IsToken(s: string)
  {
    TokenAt(s, 0) == Some(|s|)
  }

  /** The number written in a token that matches at `p` (`int(group)`). */
  function TokenValue(s: string, p: nat): nat
    requires p <= |s| && TokenAt(s, p).Some?
  {
    var e := TokenAt(s, p).value;
    DigitsValue(s[p + 2..e - 2])
  }

  /** Python's `s.replace(pat, rep)`: every non-overlapping occurrence of
      `pat`, found left to right, is replaced. */
  function ReplaceAll(s: string, pat: string, rep: string): string
    requires |pat| > 0
  {
    ReplaceFrom(s, pat, rep, 0)
  }

  /** `s[from:].replace(pat, rep)`: the scan goes the way `Occurrences`
      goes, emitting `rep` at each occurrence and the character otherwise. */
  function ReplaceFrom(s: string, pat: string, rep: string, from: nat): string
    requires |pat| > 0 && from <= |s|
    decreases |s| - from
  {
    if from + |pat| > |s| then s[from..]
    else if s[from..from + |pat|] == pat then rep + ReplaceFrom(s, pat, rep, from + |pat|)
    else [s[from]] + ReplaceFrom(s, pat, rep, from + 1)
  }

  /** `s.replace(c, '')` leaves no `c`. */
  lemma {:induction false} DeleteAll(s: string, c: char, from: nat)
    requires from <= |s|
    ensures c !in ReplaceFrom(s, [c], "", from)
    decreases |s| - from
  {
    if from + 1 <= |s| {
      DeleteAll(s, c, from + 1);
      if s[from..from + 1] != [c] {
        assert s[from] != c by {
          assert s[from..from + 1] == [s[from]];
        }
      }
    }
  }

  /** Start positions of the non-overlapping occurrences of `w` in `s` at or
      after `from`, as `re.finditer` reports them for a literal pattern. */
  function Occurrences(s: string, w: string, from: nat): (r: seq<nat>)
    requires |w| > 0 && from <= |s|
    ensures forall i :: 0 <= i < |r| ==> from <= r[i] && r[i] + |w| <= |s|
    decreases |s| - from
  {
    if from + |w| > |s| then []
    else if s[from..from + |w|] == w then [from] + Occurrences(s, w, from + |w|)
    else Occurrences(s, w, from + 1)
  }

  /** `w in s` for strings. */
  predicate Contains(s: string, w: string)
  {
    exists p :: 0 <= p <= |s| && StartsWith(s, p, w)
  }

  /** Every position `finditer` reports is an occurrence, in increasing
      order and without overlap. */
  lemma {:induction false} OccurrencesSpec(s: string, w: string, from: nat)
    requires |w| > 0 && from <= |s|
    ensures forall i :: 0 <= i < |Occurrences(s, w, from)| ==> StartsWith(s, Occurrences(s, w, from)[i], w)
    ensures forall i, j :: 0 <= i < j < |Occurrences(s, w, from)| ==>
              Occurrences(s, w, from)[i] + |w| <= Occurrences(s, w, from)[j]
    decreases |s| - from
  {
    if from + |w| <= |s| {
      if s[from..from + |w|] == w {
        OccurrencesSpec(s, w, from + |w|);
      } else {
        OccurrencesSpec(s, w, from + 1);
      }
    }
  }
}
