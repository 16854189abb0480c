/**
 The pieces of JavaScript value semantics the controllers rely on: truthiness
 (`if (x)`, `x || d`), property access on a plain object, `Number(s)` as
 written `s * 1`, `String.prototype.split`/`Array.prototype.join` on a single
 character, and the decimal rendering of a count inside a template literal.
 */
module Js {

  datatype Option<+T> = None | Some(value: T)

  /** A value of a parsed JSON request body, or `undefined` for a missing
      property. Numbers are integers here; arrays and objects are `Composite`
      (they are always truthy, which is all the controllers ask of them). */
  datatype Value = Undefined | Null | Bool(b: bool) | Num(n: int) | Str(s: string) | Composite

  /** JavaScript truthiness of a body value. */
  predicate Truthy(v: Value)
  {
    match v
    case Undefined => false
    case Null => false
    case Bool(b) => b
    case Num(n) => n != 0
    case Str(s) => s != ""
    case Composite => true
  }

  /** `obj[key]`: a missing property reads as `undefined`. */
  function Get(obj: map<string, Value>, key: string): Value
  {
    if key in obj then obj[key] else Undefined
  }

  /** Truthiness of `m[key]` in a map of strings such as `req.query` or
      `req.params`: present and not empty. */
  predicate StringTruthy(m: map<string, string>, key: string)
  {
    key in m && m[key] != ""
  }

  predicate IsDigit(c: char)
  {
    '0' <= c <= '9'
  }

  predicate IsDigits(s: string)
  {
    |s| > 0 && forall i :: 0 <= i < |s| ==> IsDigit(s[i])
  }

  /** The value of a string of decimal digits (leading zeros allowed). */
  function DigitsValue(s: string): nat
    requires forall i :: 0 <= i < |s| ==> IsDigit(s[i])
  {
    if s == [] then 0
    else
      var last := s[|s| - 1];
      assert IsDigit(last);
      DigitsValue(s[..|s| - 1]) * 10 + (last as int - '0' as int)
  }

  /** `s * 1`, that is `Number(s)`, for the decimal integer forms: an optional
      sign followed by at least one digit. The empty string is 0; every other
      string is `NaN`, written `None`. */
  function ToNumber(s: string): (r: Option<int>)
    ensures r.Some? && s != "" ==> exists i :: 0 <= i < |s| && IsDigit(s[i])
    ensures IsDigits(s) ==> r == Some(DigitsValue(s))
    ensures r.Some? && r.value < 0 ==> s != [] && s[0] == '-'
  {
    if s == "" then Some(0)
    else if s[0] == '-' && IsDigits(s[1..]) then Some(0 - DigitsValue(s[1..]) as int)
    else if s[0] == '+' && IsDigits(s[1..]) then Some(DigitsValue(s[1..]))
    else if IsDigits(s) then Some(DigitsValue(s))
    else None
  }

  /** A non-empty string of lower-case letters, which `Number` never reads
      as a number (`Infinity` is capitalised, hexadecimal needs `0x`). */
  predicate IsLowerWord(s: string)
  {
    |s| > 0 && forall i :: 0 <= i < |s| ==> 'a' <= s[i] <= 'z'
  }

  /** The largest integer a JavaScript number holds exactly, 2^53 - 1. */
  const MaxSafeInteger: nat := 9007199254740991

  function DigitChar(d: nat): (c: char)
    requires d < 10
    ensures IsDigit(c) && c as int - '0' as int == d
  {
    ('0' as int + d) as char
  }

  /** `${n}` for a non-negative integer: decimal digits, no leading zero. */
  function NatToString(n: nat): (s: string)
    ensures IsDigits(s)
    ensures |s| > 1 ==> s[0] != '0'
  {
    if n < 10 then [DigitChar(n)] else NatToString(n / 10) + [DigitChar(n % 10)]
  }

  /** Reading back a rendered count gives the count: `Number(`${n}`) === n`. */
  lemma {:induction false} NatToStringRoundTrip(n: nat)
    ensures DigitsValue(NatToString(n)) == n
    ensures ToNumber(NatToString(n)) == Some(n)
  {
    var s := NatToString(n);
    if n >= 10 {
      NatToStringRoundTrip(n / 10);
      assert s[..|s| - 1] == NatToString(n / 10);
    }
  }

  /** `s.split(sep)`: the pieces between separators, empty pieces included;
      `"".split(sep)` is `[""]`. */
  function Split(s: string, sep: char): (parts: seq<string>)
    ensures |parts| >= 1
    ensures forall i, j :: 0 <= i < |parts| && 0 <= j < |parts[i]| ==> parts[i][j] != sep
    decreases |s|
  {
    if s == [] then [[]]
    else
      var rest := Split(s[1..], sep);
      if s[0] == sep then [[]] + rest
      else [[s[0]] + rest[0]] + rest[1..]
  }

  /** `parts.join(glue)`. */
  function Join(parts: seq<string>, glue: char): string
  {
    if |parts| == 0 then []
    else if |parts| == 1 then parts[0]
    else parts[0] + [glue] + Join(parts[1..], glue)
  }

  /** `s` with every `sep` replaced by `glue`, character by character. */
  function ReplaceChar(s: string, sep: char, glue: char): string
  {
    seq(|s|, i requires 0 <= i < |s| => if s[i] == sep then glue else s[i])
  }

  /** `s.split(sep).join(glue)`: the same as replacing each `sep` by `glue`. */
  function SplitJoin(s: string, sep: char, glue: char): (r: string)
    ensures r == ReplaceChar(s, sep, glue)
  {
    JoinSplitReplaces(s, sep, glue);
    Join(Split(s, sep), glue)
  }

  /** Splitting and joining again handles the first character on its own. */
  lemma JoinSplitFirst(s: string, sep: char, glue: char)
    requires s != []
    ensures Join(Split(s, sep), glue)
         == [if s[0] == sep then glue else s[0]] + Join(Split(s[1..], sep), glue)
  {
    var rest := Split(s[1..], sep);
    if s[0] == sep {
      assert Split(s, sep) == [[]] + rest;
      assert ([[]] + rest)[1..] == rest;
    } else {
      var parts := [[s[0]] + rest[0]] + rest[1..];
      assert Split(s, sep) == parts;
      if |rest| > 1 {
        assert parts[1..] == rest[1..];
        assert Join(rest, glue) == rest[0] + [glue] + Join(rest[1..], glue);
      }
    }
  }

  /** Splitting on one character and joining with another replaces every
      occurrence of the first by the second and changes nothing else. */
  lemma {:induction false} JoinSplitReplaces(s: string, sep: char, glue: char)
    ensures |Join(Split(s, sep), glue)| == |s|
    ensures forall i :: 0 <= i < |s| ==>
      Join(Split(s, sep), glue)[i] == if s[i] == sep then glue else s[i]
  {
    if s != [] {
      JoinSplitReplaces(s[1..], sep, glue);
      JoinSplitFirst(s, sep, glue);
      ReplacedCons(s, sep, glue, Join(Split(s[1..], sep), glue), Join(Split(s, sep), glue));
    }
  }

  /** The step of `JoinSplitReplaces`: one replaced character in front of a replaced tail. */
  lemma ReplacedCons(s: string, sep: char, glue: char, tail: string, r: string)
    requires s != []
    requires |tail| == |s| - 1
    requires forall i :: 0 <= i < |s| - 1 ==> tail[i] == if s[1..][i] == sep then glue else s[1..][i]
    requires r == [if s[0] == sep then glue else s[0]] + tail
    ensures |r| == |s|
    ensures forall i :: 0 <= i < |s| ==> r[i] == if s[i] == sep then glue else s[i]
  {
    forall i | 0 <= i < |s|
      ensures r[i] == if s[i] == sep then glue else s[i]
    {
      if i > 0 {
        assert r[i] == tail[i - 1] && s[1..][i - 1] == s[i];
      }
    }
  }
}
