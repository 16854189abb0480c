/**
 The comparison-operator rewrite of `getAllTours`:
 `queryStr.replace(/\b(gte|gt|lte|lt)\b/g, match => `$${match}`)`.

 `Replace` follows the regular-expression engine: it tries each position from
 left to right, checks the word boundary, tries the alternatives in pattern
 order and resumes after a match. `Prefixed` is an independent reading of the
 same rewrite by maximal runs of word characters. They are proved equal; the
 rewrite is proved injective (`Unprefixed` undoes it) and to act separately on
 the pieces of a string between non-word characters, which is why rewriting
 the serialised filter object rewrites each key and each value on its own.
 */
module OperatorRewrite {
  import opened Js

  /** The characters of `\w`; `\b` sits between a word and a non-word character. */
  predicate IsWordChar(c: char)
  {
    'a' <= c <= 'z' || 'A' <= c <= 'Z' || '0' <= c <= '9' || c == '_'
  }

  predicate AllWord(s: string)
  {
    forall i :: 0 <= i < |s| ==> IsWordChar(s[i])
  }

  /** The alternatives of the pattern, in the order the engine tries them. */
  const Alternatives: seq<string> := ["gte", "gt", "lte", "lt"]

  predicate IsOperator(w: string)
  {
    w == "gte" || w == "gt" || w == "lte" || w == "lt"
  }

  /** `\b` between a previous character (a word character or not) and the rest of the input. */
  predicate IsBoundary(prevWord: bool, rest: string)
  {
    prevWord != (rest != [] && IsWordChar(rest[0]))
  }

  /** Alternative `a` matches at the front of `rest`: its characters come next,
      and `\b` holds right after them. */
  predicate MatchesAt(rest: string, a: string)
  {
    |a| > 0 && a <= rest && IsBoundary(IsWordChar(a[|a| - 1]), rest[|a|..])
  }

  /** The first of `Alternatives[k..]` that matches at the front of `rest`. */
  function MatchAt(rest: string, k: nat): (m: Option<string>)
    requires k <= |Alternatives|
    ensures m.Some? ==> m.value in Alternatives && |m.value| <= |rest|
    decreases |Alternatives| - k
  {
    if k == |Alternatives| then None
    else if MatchesAt(rest, Alternatives[k]) then Some(Alternatives[k])
    else MatchAt(rest, k + 1)
  }

  /** What the engine matches where it stands: nothing unless `\b` holds there. */
  function MatchHere(prevWord: bool, rest: string): (m: Option<string>)
    ensures m.Some? ==> m.value in Alternatives && |m.value| <= |rest|
  {
    if IsBoundary(prevWord, rest) then MatchAt(rest, 0) else None
  }

  /** The global replace, as the engine runs it, over the input `rest` still
      to scan; `prevWord` says whether the character before it is a word
      character (at the start of the input it is not). */
  function ReplaceFrom(prevWord: bool, rest: string): string
    decreases |rest|
  {
    if rest == [] then []
    else
      match MatchHere(prevWord, rest)
      case Some(a) =>
        assert |a| > 0;
        "$" + a + ReplaceFrom(true, rest[|a|..])
      case None => [rest[0]] + ReplaceFrom(IsWordChar(rest[0]), rest[1..])
  }

  /** `s.replace(/\b(gte|gt|lte|lt)\b/g, match => `$${match}`)`. */
  function Replace(s: string): string
  {
    ReplaceFrom(false, s)
  }

  /** The length of the run of word characters that `s` starts with. */
  function WordRun(s: string): (n: nat)
    ensures n <= |s|
    ensures n < |s| ==> !IsWordChar(s[n])
  {
    if s != [] && IsWordChar(s[0]) then 1 + WordRun(s[1..]) else 0
  }

  /** What `Prefixed` writes for one run of word characters. */
  function RunImage(w: string): string
  {
    if IsOperator(w) then "$" + w else w
  }

  /** The reference reading: every maximal run of word characters that is
      exactly an operator name gets a `$` in front; nothing else changes. */
  function Prefixed(s: string): string
    decreases |s|
  {
    if s == [] then []
    else if !IsWordChar(s[0]) then [s[0]] + Prefixed(s[1..])
    else
      var n := WordRun(s);
      RunImage(s[..n]) + Prefixed(s[n..])
  }

  /** Removes the `$` that `Prefixed` put before each operator run. */
  function Unprefixed(s: string): string
    decreases |s|
  {
    if s == [] then []
    else if IsWordChar(s[0]) then
      var n := WordRun(s);
      s[..n] + Unprefixed(s[n..])
    else if s[0] == '$' && IsOperator(s[1..][..WordRun(s[1..])]) then
      var n := WordRun(s[1..]);
      s[1..][..n] + Unprefixed(s[1..][n..])
    else [s[0]] + Unprefixed(s[1..])
  }

  // ---------------------------------------------------------------------------
  // Facts about runs of word characters

  /** A word run stops at the first non-word character, whatever follows it. */
  lemma {:induction false} WordRunAppend(a: string, x: string)
    requires x == [] || !IsWordChar(x[0])
    ensures WordRun(a + x) == WordRun(a)
  {
    if a != [] && IsWordChar(a[0]) {
      assert (a + x)[1..] == a[1..] + x;
      WordRunAppend(a[1..], x);
    } else if a == [] {
      assert a + x == x;
    }
  }

  /** The run consists of word characters. */
  lemma {:induction false} WordRunIsWord(s: string)
    ensures AllWord(s[..WordRun(s)])
  {
    if s != [] && IsWordChar(s[0]) {
      WordRunIsWord(s[1..]);
      assert s[..WordRun(s)] == [s[0]] + s[1..][..WordRun(s[1..])];
    }
  }

  lemma {:induction false} WordRunAll(w: string)
    requires AllWord(w)
    ensures WordRun(w) == |w|
  {
    if w != [] {
      WordRunAll(w[1..]);
    }
  }

  /** The run of a string of word characters followed by a non-word character is that string. */
  lemma WordRunOfWord(w: string, x: string)
    requires AllWord(w)
    requires x == [] || !IsWordChar(x[0])
    ensures WordRun(w + x) == |w|
    ensures (w + x)[..|w|] == w
  {
    WordRunAppend(w, x);
    assert w + [] == w;
    WordRunAll(w);
  }

  /** The output of `Prefixed` starts like its input: with nothing, or with a
      non-word character, when the input does. */
  lemma PrefixedStartsNonWord(x: string)
    requires x == [] || !IsWordChar(x[0])
    ensures Prefixed(x) == [] || !IsWordChar(Prefixed(x)[0])
  {
  }

  // ---------------------------------------------------------------------------
  // The engine and the reference reading agree

  /** An alternative matches at the start of a word run exactly when it is the whole run. */
  lemma AlternativeMatchesRun(rest: string, a: string)
    requires rest != [] && IsWordChar(rest[0])
    requires |a| > 0 && AllWord(a)
    ensures MatchesAt(rest, a) <==> rest[..WordRun(rest)] == a
  {
    var n := WordRun(rest);
    WordRunIsWord(rest);
    assert forall i :: 0 <= i < n ==> IsWordChar(rest[i]) by {
      forall i | 0 <= i < n ensures IsWordChar(rest[i]) { assert rest[..n][i] == rest[i]; }
    }
    if MatchesAt(rest, a) {
      assert forall i :: 0 <= i < |a| ==> rest[i] == a[i];
      assert |a| < |rest| ==> rest[|a|..][0] == rest[|a|];
    }
    if rest[..n] == a {
      assert n < |rest| ==> rest[n..][0] == rest[n];
    }
  }

  /** At the start of a word run the engine matches exactly the run, when it is an operator. */
  lemma MatchAtRun(rest: string)
    requires rest != [] && IsWordChar(rest[0])
    ensures var w := rest[..WordRun(rest)];
      MatchAt(rest, 0) == if IsOperator(w) then Some(w) else None
  {
    AlternativeMatchesRun(rest, "gte");
    AlternativeMatchesRun(rest, "gt");
    AlternativeMatchesRun(rest, "lte");
    AlternativeMatchesRun(rest, "lt");
    assert MatchAt(rest, 3) == if MatchesAt(rest, "lt") then Some("lt") else None;
    assert MatchAt(rest, 2) == if MatchesAt(rest, "lte") then Some("lte") else MatchAt(rest, 3);
    assert MatchAt(rest, 1) == if MatchesAt(rest, "gt") then Some("gt") else MatchAt(rest, 2);
  }

  /** No alternative matches in front of a non-word character. */
  lemma NoMatchAtNonWord(rest: string)
    requires rest != [] && !IsWordChar(rest[0])
    ensures MatchAt(rest, 0) == None
  {
    assert MatchAt(rest, 3) == None;
    assert MatchAt(rest, 2) == None;
    assert MatchAt(rest, 1) == None;
  }

  /** In front of a non-word character (or at the end) the engine does the same
      whatever character came before. */
  lemma ReplaceFromAtNonWord(rest: string)
    requires rest == [] || !IsWordChar(rest[0])
    ensures ReplaceFrom(true, rest) == ReplaceFrom(false, rest)
  {
    if rest != [] {
      NoMatchAtNonWord(rest);
    }
  }

  /** The run of a string that starts with a word character, seen from its second character. */
  lemma WordRunTail(rest: string)
    requires rest != [] && IsWordChar(rest[0])
    ensures 1 <= WordRun(rest) && WordRun(rest[1..]) == WordRun(rest) - 1
  {
  }

  /** Inside a run the engine copies the character: no alternative starts after a word character. */
  lemma CopyInsideRun(rest: string)
    requires rest != [] && IsWordChar(rest[0])
    ensures ReplaceFrom(true, rest) == [rest[0]] + ReplaceFrom(true, rest[1..])
  {
    assert MatchHere(true, rest) == None;
    ReplaceFromCopy(true, rest);
  }

  /** Slicing a string after its first character. */
  lemma ConsSlices(s: string, n: nat)
    requires 1 <= n <= |s|
    ensures s[..n] == [s[0]] + s[1..][..n - 1]
    ensures s[1..][n - 1..] == s[n..]
  {
  }

  /** Taking the first character off a non-empty string in front of another. */
  lemma ConsAppend(w: string, x: string)
    requires w != []
    ensures (w + x)[0] == w[0] && (w + x)[1..] == w[1..] + x && [w[0]] + w[1..] == w
  {
  }

  /** Putting the first character back in front of a decomposed tail. */
  lemma Chain(x: string, c: char, y: string, a: string, z: string, w: string)
    requires x == [c] + y && y == a + z && [c] + a == w
    ensures x == w + z
  {
    assert [c] + (a + z) == ([c] + a) + z;
  }

  /** The step of `InsideWord` over one word character. */
  lemma InsideWordStep(w: string, x: string)
    requires w != [] && IsWordChar(w[0])
    requires ReplaceFrom(true, w[1..] + x) == w[1..] + ReplaceFrom(false, x)
    ensures ReplaceFrom(true, w + x) == w + ReplaceFrom(false, x)
  {
    ConsAppend(w, x);
    CopyInsideRun(w + x);
    Chain(ReplaceFrom(true, w + x), w[0], ReplaceFrom(true, w[1..] + x), w[1..], ReplaceFrom(false, x), w);
  }

  /** Inside a run of word characters the engine sees no boundary: it copies
      the rest of the run and goes on as at the start of a run. */
  lemma {:induction false} InsideWord(w: string, x: string)
    requires AllWord(w)
    requires x == [] || !IsWordChar(x[0])
    ensures ReplaceFrom(true, w + x) == w + ReplaceFrom(false, x)
    decreases |w|
  {
    if w == [] {
      assert w + x == x;
      ReplaceFromAtNonWord(x);
    } else {
      assert AllWord(w[1..]) by {
        forall i | 0 <= i < |w[1..]| ensures IsWordChar(w[1..][i]) { assert w[1..][i] == w[i + 1]; }
      }
      InsideWord(w[1..], x);
      InsideWordStep(w, x);
    }
  }

  /** `InsideWord` for the run a string starts with. */
  lemma InsideRun(rest: string)
    ensures ReplaceFrom(true, rest)
         == rest[..WordRun(rest)] + ReplaceFrom(false, rest[WordRun(rest)..])
  {
    var n := WordRun(rest);
    WordRunIsWord(rest);
    TakeDrop(rest, n);
    assert n < |rest| ==> rest[n..][0] == rest[n];
    InsideWord(rest[..n], rest[n..]);
  }

  /** `Prefixed` over a string that starts with a word character. */
  lemma PrefixedAtWord(s: string)
    requires s != [] && IsWordChar(s[0])
    ensures Prefixed(s) == RunImage(s[..WordRun(s)]) + Prefixed(s[WordRun(s)..])
  {
  }

  /** The engine where it matches: a `$`, the match, then on after it. */
  lemma ReplaceFromMatch(prevWord: bool, rest: string)
    requires rest != [] && MatchHere(prevWord, rest).Some?
    ensures var a := MatchHere(prevWord, rest).value;
      ReplaceFrom(prevWord, rest) == "$" + a + ReplaceFrom(true, rest[|a|..])
  {
  }

  /** The engine where nothing matches: the character is copied. */
  lemma ReplaceFromCopy(prevWord: bool, rest: string)
    requires rest != [] && MatchHere(prevWord, rest).None?
    ensures ReplaceFrom(prevWord, rest) == [rest[0]] + ReplaceFrom(IsWordChar(rest[0]), rest[1..])
  {
  }

  /** The engine over a word run that is an operator name. */
  lemma StepOperator(rest: string)
    requires rest != [] && IsWordChar(rest[0]) && IsOperator(rest[..WordRun(rest)])
    ensures ReplaceFrom(false, rest) == RunImage(rest[..WordRun(rest)]) + ReplaceFrom(false, rest[WordRun(rest)..])
  {
    var n := WordRun(rest);
    MatchAtRun(rest);
    ReplaceFromMatch(false, rest);
    ReplaceFromAtNonWord(rest[n..]);
  }

  /** At the start of a word run that is not an operator name the engine copies the first character. */
  lemma CopyFirstOfPlainRun(rest: string)
    requires rest != [] && IsWordChar(rest[0]) && !IsOperator(rest[..WordRun(rest)])
    ensures ReplaceFrom(false, rest) == [rest[0]] + ReplaceFrom(true, rest[1..])
  {
    MatchAtRun(rest);
    ReplaceFromCopy(false, rest);
  }

  /** The engine over a word run that is not an operator name. */
  lemma StepPlain(rest: string)
    requires rest != [] && IsWordChar(rest[0]) && !IsOperator(rest[..WordRun(rest)])
    ensures ReplaceFrom(false, rest) == RunImage(rest[..WordRun(rest)]) + ReplaceFrom(false, rest[WordRun(rest)..])
  {
    var n := WordRun(rest);
    var tail := rest[1..];
    WordRunTail(rest);
    ConsSlices(rest, n);
    CopyFirstOfPlainRun(rest);
    InsideRun(tail);
    Chain(ReplaceFrom(false, rest), rest[0], ReplaceFrom(true, tail), tail[..n - 1], ReplaceFrom(false, rest[n..]), rest[..n]);
  }

  /** The operator rewrite as the engine runs it equals the run-by-run reading. */
  lemma {:induction false} ReplaceIsPrefixed(s: string)
    ensures Replace(s) == Prefixed(s)
    decreases |s|
  {
    if s != [] {
      if !IsWordChar(s[0]) {
        ReplaceIsPrefixed(s[1..]);
      } else {
        ReplaceIsPrefixed(s[WordRun(s)..]);
        PrefixedAtWord(s);
        if IsOperator(s[..WordRun(s)]) {
          StepOperator(s);
        } else {
          StepPlain(s);
        }
      }
    }
  }

  // ---------------------------------------------------------------------------
  // The rewrite loses nothing

  /** The output of `Prefixed` never starts with an operator run (a `$` stands before each). */
  lemma PrefixedHeadNotOperator(t: string)
    ensures var p := Prefixed(t); !IsOperator(p[..WordRun(p)])
  {
    var p := Prefixed(t);
    if t != [] && IsWordChar(t[0]) {
      var n := WordRun(t);
      var w := t[..n];
      if !IsOperator(w) {
        WordRunIsWord(t);
        PrefixedStartsNonWord(t[n..]);
        WordRunOfWord(w, Prefixed(t[n..]));
      }
    }
  }

  /** `Unprefixed` steps over a non-word character that `Prefixed` copied. */
  lemma UnprefixedAtNonWord(c: char, t: string)
    requires !IsWordChar(c)
    ensures Unprefixed([c] + Prefixed(t)) == [c] + Unprefixed(Prefixed(t))
  {
    var p := Prefixed(t);
    PrefixedHeadNotOperator(t);
    assert ([c] + p)[1..] == p;
  }

  /** `Unprefixed` steps over the image of a word run. */
  lemma UnprefixedAtRun(w: string, r: string)
    requires w != [] && AllWord(w)
    requires r == [] || !IsWordChar(r[0])
    ensures Unprefixed(RunImage(w) + r) == w + Unprefixed(r)
  {
    WordRunOfWord(w, r);
    assert (w + r)[|w|..] == r;
    if IsOperator(w) {
      assert ("$" + w + r)[1..] == w + r;
    }
  }

  /** The step of `UnprefixedPrefixed` at a non-word character. */
  lemma UndoNonWord(s: string)
    requires s != [] && !IsWordChar(s[0])
    requires Unprefixed(Prefixed(s[1..])) == s[1..]
    ensures Unprefixed(Prefixed(s)) == s
  {
    assert Prefixed(s) == [s[0]] + Prefixed(s[1..]);
    UnprefixedAtNonWord(s[0], s[1..]);
  }

  /** The step of `UnprefixedPrefixed` over a word run. */
  lemma UndoRun(s: string)
    requires s != [] && IsWordChar(s[0])
    requires Unprefixed(Prefixed(s[WordRun(s)..])) == s[WordRun(s)..]
    ensures Unprefixed(Prefixed(s)) == s
  {
    var n := WordRun(s);
    WordRunIsWord(s);
    PrefixedStartsNonWord(s[n..]);
    PrefixedAtWord(s);
    UnprefixedAtRun(s[..n], Prefixed(s[n..]));
    TakeDrop(s, n);
  }

  lemma TakeDrop(s: string, n: nat)
    requires n <= |s|
    ensures s[..n] + s[n..] == s
  {
  }

  /** `Unprefixed` undoes `Prefixed`. */
  lemma {:induction false} UnprefixedPrefixed(s: string)
    ensures Unprefixed(Prefixed(s)) == s
    decreases |s|
  {
    if s != [] {
      if !IsWordChar(s[0]) {
        UnprefixedPrefixed(s[1..]);
        UndoNonWord(s);
      } else {
        UnprefixedPrefixed(s[WordRun(s)..]);
        UndoRun(s);
      }
    }
  }

  /** No two different strings are rewritten to the same string, so two query
      keys never collapse into one filter key. */
  lemma PrefixedInjective(a: string, b: string)
    requires Prefixed(a) == Prefixed(b)
    ensures a == b
  {
    UnprefixedPrefixed(a);
    UnprefixedPrefixed(b);
  }

  /** The rewrite acts separately on the two sides of a non-word character. */
  lemma {:induction false} PrefixedAroundNonWord(a: string, c: char, b: string)
    requires !IsWordChar(c)
    ensures Prefixed(a + [c] + b) == Prefixed(a) + [c] + Prefixed(b)
    decreases |a|
  {
    if a == [] {
      AroundNonWordEmpty(c, b);
    } else if !IsWordChar(a[0]) {
      PrefixedAroundNonWord(a[1..], c, b);
      AroundNonWordNonWord(a, c, b);
    } else {
      var n := WordRun(a);
      PrefixedAroundNonWord(a[n..], c, b);
      AroundNonWordRun(a, c, b);
    }
  }

  /** The case of `PrefixedAroundNonWord` with nothing before the character. */
  lemma AroundNonWordEmpty(c: char, b: string)
    requires !IsWordChar(c)
    ensures Prefixed([] + [c] + b) == Prefixed([]) + [c] + Prefixed(b)
  {
    assert [] + [c] + b == [c] + b;
    assert ([c] + b)[1..] == b;
  }

  /** The step of `PrefixedAroundNonWord` over a leading non-word character. */
  lemma AroundNonWordNonWord(a: string, c: char, b: string)
    requires a != [] && !IsWordChar(a[0])
    requires Prefixed(a[1..] + [c] + b) == Prefixed(a[1..]) + [c] + Prefixed(b)
    ensures Prefixed(a + [c] + b) == Prefixed(a) + [c] + Prefixed(b)
  {
    var x := a + [c] + b;
    assert x[0] == a[0] && x[1..] == a[1..] + [c] + b;
    assert Prefixed(x) == [a[0]] + Prefixed(x[1..]);
    assert Prefixed(a) == [a[0]] + Prefixed(a[1..]);
    Associate([a[0]], Prefixed(a[1..]) + [c], Prefixed(b));
    Associate([a[0]], Prefixed(a[1..]), [c]);
  }

  /** `Prefixed` over a word run followed by anything that starts with a non-word character. */
  lemma PrefixedRunThenRest(a: string, x: string)
    requires a != [] && IsWordChar(a[0]) && x != [] && !IsWordChar(x[0])
    ensures Prefixed(a + x) == RunImage(a[..WordRun(a)]) + Prefixed(a[WordRun(a)..] + x)
  {
    var n := WordRun(a);
    WordRunAppend(a, x);
    SplitAppend(a, x, n);
    PrefixedAtWord(a + x);
  }

  lemma SplitAppend(a: string, x: string, n: nat)
    requires n <= |a|
    ensures (a + x)[..n] == a[..n] && (a + x)[n..] == a[n..] + x
  {
  }

  /** The step of `PrefixedAroundNonWord` over the word run that `a` starts with. */
  lemma AroundNonWordRun(a: string, c: char, b: string)
    requires !IsWordChar(c) && a != [] && IsWordChar(a[0])
    requires Prefixed(a[WordRun(a)..] + [c] + b) == Prefixed(a[WordRun(a)..]) + [c] + Prefixed(b)
    ensures Prefixed(a + [c] + b) == Prefixed(a) + [c] + Prefixed(b)
  {
    var n := WordRun(a);
    var head := RunImage(a[..n]);
    Associate(a, [c], b);
    Associate(a[n..], [c], b);
    PrefixedRunThenRest(a, [c] + b);
    PrefixedAtWord(a);
    Associate(head, Prefixed(a[n..]) + [c], Prefixed(b));
    Associate(head, Prefixed(a[n..]), [c]);
  }

  lemma Associate(x: string, y: string, z: string)
    ensures x + y + z == x + (y + z)
  {
  }

  // ---------------------------------------------------------------------------
  // Consequences for the rewrite as the engine runs it

  /** `Unprefixed` undoes the rewrite as the engine runs it. */
  lemma ReplaceUndone(s: string)
    ensures Unprefixed(Replace(s)) == s
  {
    ReplaceIsPrefixed(s);
    UnprefixedPrefixed(s);
  }

  /** `ReplaceUndone` for every string at once. */
  lemma ReplaceUndoneAll()
    ensures forall s :: Unprefixed(Replace(s)) == s
  {
    forall s ensures Unprefixed(Replace(s)) == s {
      ReplaceUndone(s);
    }
  }

  /** Two different strings are never rewritten to the same string. */
  lemma ReplaceInjective(a: string, b: string)
    requires Replace(a) == Replace(b)
    ensures a == b
  {
    ReplaceUndone(a);
    ReplaceUndone(b);
  }

  /** A single word is prefixed exactly when it is one of the four operator names. */
  lemma ReplaceOfWord(w: string)
    requires w != [] && AllWord(w)
    ensures Replace(w) == if IsOperator(w) then "$" + w else w
  {
    ReplaceIsPrefixed(w);
    WordRunAll(w);
    assert w[..|w|] == w && w[|w|..] == [];
    PrefixedAtWord(w);
  }

  /** `gte` gets its `$`; inside the longer word `agte` nothing matches. */
  lemma ReplaceExamples()
    ensures Replace("gte") == "$gte" && Replace("agte") == "agte"
  {
    ReplaceOfWord("gte");
    ReplaceOfWord("agte");
  }

  // ---------------------------------------------------------------------------
  // The rewrite on the serialised filter object

  /** One member `"key":"value"` of `JSON.stringify` of a flat object of
      strings that need no escaping. */
  function Member(key: string, value: string): string
  {
    ['"'] + (key + (['"'] + ([':'] + (['"'] + (value + ['"'])))))
  }

  /** The members of such an object, in insertion order, separated by commas. */
  function Members(entries: seq<(string, string)>): string
  {
    if |entries| == 0 then []
    else if |entries| == 1 then Member(entries[0].0, entries[0].1)
    else Member(entries[0].0, entries[0].1) + [','] + Members(entries[1..])
  }

  /** `JSON.stringify` of a flat object of strings that need no escaping. */
  function Stringify(entries: seq<(string, string)>): string
  {
    ['{'] + (Members(entries) + ['}'])
  }

  /** Each key and each value rewritten on its own. */
  function RewriteEntries(entries: seq<(string, string)>): (r: seq<(string, string)>)
    ensures |r| == |entries|
    ensures forall i :: 0 <= i < |entries| ==> r[i] == (Replace(entries[i].0), Replace(entries[i].1))
  {
    if entries == [] then []
    else [(Replace(entries[0].0), Replace(entries[0].1))] + RewriteEntries(entries[1..])
  }

  /** `Prefixed` steps over a leading non-word character. */
  lemma PrefixedCons(c: char, b: string)
    requires !IsWordChar(c)
    ensures Prefixed([c] + b) == [c] + Prefixed(b)
  {
    assert ([c] + b)[1..] == b;
  }

  /** `Prefixed` steps over a trailing non-word character. */
  lemma PrefixedSnoc(a: string, c: char)
    requires !IsWordChar(c)
    ensures Prefixed(a + [c]) == Prefixed(a) + [c]
  {
    PrefixedAroundNonWord(a, c, []);
    assert a + [c] + [] == a + [c];
    assert Prefixed(a) + [c] + [] == Prefixed(a) + [c];
  }

  /** `Prefixed` across a non-word character written as `a + ([c] + b)`. */
  lemma PrefixedAround(a: string, c: char, b: string)
    requires !IsWordChar(c)
    ensures Prefixed(a + ([c] + b)) == Prefixed(a) + ([c] + Prefixed(b))
  {
    PrefixedAroundNonWord(a, c, b);
    Associate(a, [c], b);
    Associate(Prefixed(a), [c], Prefixed(b));
  }

  /** The rewrite of one member rewrites its key and its value. */
  lemma PrefixedMember(key: string, value: string)
    ensures Prefixed(Member(key, value)) == Member(Replace(key), Replace(value))
  {
    ReplaceIsPrefixed(key);
    ReplaceIsPrefixed(value);
    var tail := ['"'] + (value + ['"']);
    PrefixedSnoc(value, '"');
    PrefixedCons('"', value + ['"']);
    PrefixedCons(':', tail);
    PrefixedAround(key, '"', [':'] + tail);
    PrefixedCons('"', key + (['"'] + ([':'] + tail)));
  }

  /** The rewrite of the members rewrites each member. */
  lemma {:induction false} PrefixedMembers(entries: seq<(string, string)>)
    ensures Prefixed(Members(entries)) == Members(RewriteEntries(entries))
    decreases |entries|
  {
    if |entries| == 1 {
      PrefixedMember(entries[0].0, entries[0].1);
    } else if |entries| > 1 {
      var first := Member(entries[0].0, entries[0].1);
      PrefixedMembers(entries[1..]);
      PrefixedMember(entries[0].0, entries[0].1);
      PrefixedAroundNonWord(first, ',', Members(entries[1..]));
      assert RewriteEntries(entries)[1..] == RewriteEntries(entries[1..]);
    }
  }

  /** Rewriting the serialised filter object is serialising the object whose
      keys and values are each rewritten: no match ever spans a quote, a
      colon or a comma. */
  lemma ReplaceStringify(entries: seq<(string, string)>)
    ensures Replace(Stringify(entries)) == Stringify(RewriteEntries(entries))
  {
    ReplaceIsPrefixed(Stringify(entries));
    PrefixedMembers(entries);
    PrefixedSnoc(Members(entries), '}');
    PrefixedCons('{', Members(entries) + ['}']);
  }

  /** `{"field":{"op":"value"}}`: what `JSON.stringify` writes for the
      nested query object that the query string `field[op]=value` parses to. */
  function Bracketed(field: string, op: string, value: string): string
  {
    ['{'] + (['"'] + (field + (['"'] + ([':'] + (Stringify([(op, value)]) + ['}'])))))
  }

  /** The rewrite of the bracket form rewrites the field, the operator and the value on their own. */
  lemma ReplaceBracketed(field: string, op: string, value: string)
    ensures Replace(Bracketed(field, op, value)) == Bracketed(Replace(field), Replace(op), Replace(value))
  {
    var inner := Stringify([(op, value)]);
    ReplaceStringify([(op, value)]);
    assert RewriteEntries([(op, value)]) == [(Replace(op), Replace(value))];
    ReplaceIsPrefixed(inner);
    ReplaceIsPrefixed(field);
    var x := [':'] + (inner + ['}']);
    PrefixedSnoc(inner, '}');
    PrefixedCons(':', inner + ['}']);
    PrefixedAround(field, '"', x);
    PrefixedCons('"', field + (['"'] + x));
    PrefixedCons('{', ['"'] + (field + (['"'] + x)));
    ReplaceIsPrefixed(Bracketed(field, op, value));
  }

  /** `?price[gte]=500` filters on `{"price":{"$gte":"500"}}`: for a field
      and a value that are plain words, only the operator gets its `$`. */
  lemma BracketedOperator(field: string, op: string, value: string)
    requires field != [] && AllWord(field) && !IsOperator(field)
    requires value != [] && AllWord(value) && !IsOperator(value)
    requires IsOperator(op)
    ensures Replace(Bracketed(field, op, value)) == Bracketed(field, "$" + op, value)
  {
    ReplaceBracketed(field, op, value);
    ReplaceOfWord(field);
    ReplaceOfWord(op);
    ReplaceOfWord(value);
  }
}
