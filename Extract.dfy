/**
 * The two text scanners of the generator: `getOutputs`, which collects the
 * names of `output "<name>"` declarations, and `getDependencies`, which
 * collects the state keys read by `data "terraform_remote_state"` blocks.
 *
 * Both stand in for JavaScript regular expressions run with the `g` and `m`
 * flags. Each regex is described by a predicate saying whether it matches at
 * a position and what it captures there, and the `exec` loops of the source
 * become methods that are proved to return the specification's list.
 */
module Extract {
  import opened Wrappers
  import opened Text

  /** `^` in multi-line mode: the start of the text or just after a line terminator. */
  predicate IsLineStart(s: string, i: nat) {
    i <= |s| && (i == 0 || IsLineTerminator(s[i - 1]))
  }

  /** End of the longest run of `\w` characters starting at `j`. */
  function WordRunEnd(s: string, j: nat): (k: nat)
    requires j <= |s|
    ensures j <= k <= |s|
    ensures forall t :: j <= t < k ==> IsWordChar(s[t])
    ensures k < |s| ==> !IsWordChar(s[k])
    decreases |s| - j
  {
    if j < |s| && IsWordChar(s[j]) then WordRunEnd(s, j + 1) else j
  }

  // ---------------------------------------------------------------------------
  // getOutputs: /^output\s"(\w+)".*$/gm
  // ---------------------------------------------------------------------------

  /**
   * The output regex matches at `i`: a line starts with `output`, one `\s`
   * character, a quote, a maximal non-empty run of word characters and a
   * closing quote. The trailing `.*$` always succeeds, so it decides nothing.
   */
  predicate OutputAt(s: string, i: nat) {
    && IsLineStart(s, i)
    && i + 8 <= |s|
    && s[i..i + 6] == "output"
    && IsSpace(s[i + 6])
    && s[i + 7] == '"'
    && var k := WordRunEnd(s, i + 8);
       i + 8 < k < |s| && s[k] == '"'
  }

  /** The name captured by a match of the output regex at `i`. */
  function NameAt(s: string, i: nat): string
    requires OutputAt(s, i)
  {
    s[i + 8..WordRunEnd(s, i + 8)]
  }

  /**
   * Names declared at positions `i` and later, in text order. A match ends at
   * the end of its line and can only span a line break through its `\s`, after
   * which the next line begins with a quote; so looking at every position
   * finds exactly the matches that repeated `exec` calls return.
   */
  function OutputsFrom(s: string, i: nat): seq<string>
    decreases |s| - i
  {
    if i >= |s| then []
    else (if OutputAt(s, i) then [NameAt(s, i)] else []) + OutputsFrom(s, i + 1)
  }

  /** What `getOutputs` returns for `s`. */
  function Outputs(s: string): seq<string> {
    OutputsFrom(s, 0)
  }

  /**
   * `getOutputs`: scans the text and keeps every captured name, then drops
   * empty ones. The scan visits every position; `ExecOutputsAgree` shows it
   * finds what the source's `exec` calls, each resuming at `lastIndex`, find.
   */
  method GetOutputs(str: string) returns (names: seq<string>)
    ensures names == Outputs(str)
    ensures names == ExecOutputs(str, 0)
  {
    var matches: seq<string> := [];
    var i := 0;
    while i < |str|
      invariant 0 <= i <= |str|
      invariant matches + OutputsFrom(str, i) == Outputs(str)
    {
      if OutputAt(str, i) {
        matches := matches + [NameAt(str, i)];
      }
      i := i + 1;
    }
    assert matches == Outputs(str);
    OutputsWellFormed(str);
    names := Compact(matches);
    ExecOutputsAgree(str, 0);
  }

  lemma {:induction false} OutputsFromWellFormed(s: string, i: nat)
    ensures forall k :: 0 <= k < |OutputsFrom(s, i)| ==>
              OutputsFrom(s, i)[k] != "" && AllWordChars(OutputsFrom(s, i)[k])
    decreases |s| - i
  {
    if i < |s| {
      OutputsFromWellFormed(s, i + 1);
    }
  }

  /** Every extracted name is a non-empty run of word characters. */
  lemma OutputsWellFormed(s: string)
    ensures forall k :: 0 <= k < |Outputs(s)| ==> Outputs(s)[k] != "" && AllWordChars(Outputs(s)[k])
  {
    OutputsFromWellFormed(s, 0);
  }

  lemma {:induction false} OutputsFromMembership(s: string, i: nat, name: string)
    ensures name in OutputsFrom(s, i) <==> exists j :: i <= j < |s| && OutputAt(s, j) && NameAt(s, j) == name
    decreases |s| - i
  {
    if i < |s| {
      OutputsFromMembership(s, i + 1, name);
    }
  }

  /** A name is extracted exactly when some line declares it. */
  lemma OutputsMembership(s: string, name: string)
    ensures name in Outputs(s) <==> exists j :: 0 <= j < |s| && OutputAt(s, j) && NameAt(s, j) == name
  {
    OutputsFromMembership(s, 0, name);
  }

  /** Text with no declaration line yields no names, and only such text does. */
  lemma OutputsEmpty(s: string)
    ensures Outputs(s) == [] <==> forall j :: 0 <= j < |s| ==> !OutputAt(s, j)
  {
    forall j | 0 <= j < |s| && OutputAt(s, j)
      ensures Outputs(s) != []
    {
      OutputsFromMembership(s, 0, NameAt(s, j));
    }
    if Outputs(s) != [] {
      OutputsFromMembership(s, 0, Outputs(s)[0]);
    }
  }

  // The `exec` loop of `getOutputs`

  /** Where a match of the output regex at `i` ends: `.*$` runs to the end of its last line. */
  function OutputEnd(s: string, i: nat): (e: nat)
    requires OutputAt(s, i)
    ensures i < e <= |s|
  {
    LineEnd(s, WordRunEnd(s, i + 8) + 1)
  }

  /** `re.exec(str)` with `lastIndex == from`: the first position at or after `from` where the regex matches. */
  function NextOutput(s: string, from: nat): (r: Option<nat>)
    ensures r.Some? ==> from <= r.value < |s| && OutputAt(s, r.value)
    decreases |s| - from
  {
    if from >= |s| then None
    else if OutputAt(s, from) then Some(from)
    else NextOutput(s, from + 1)
  }

  /** The names captured by successive `exec` calls, each resuming where the previous match ended. */
  function ExecOutputs(s: string, from: nat): seq<string>
    decreases if from <= |s| then |s| - from else 0
  {
    match NextOutput(s, from)
    case None => []
    case Some(i) => [NameAt(s, i)] + ExecOutputs(s, OutputEnd(s, i))
  }

  /**
   * No match starts inside another: every line start a match covers is
   * just after its `\s`, where the next character is a quote, not `o`.
   */
  lemma NoOutputInside(s: string, i: nat, p: nat)
    requires OutputAt(s, i) && i < p < OutputEnd(s, i)
    ensures !OutputAt(s, p)
  {
    var q := p - 1;
    if q < i + 6 {
      assert s[q] == s[i..i + 6][q - i];
    } else if q == i + 6 && p + 6 <= |s| {
      assert s[p..p + 6][0] == s[p];
    }
  }

  lemma {:induction false} OutputsFromNext(s: string, from: nat)
    ensures NextOutput(s, from).None? ==> OutputsFrom(s, from) == []
    ensures NextOutput(s, from).Some? ==> OutputsFrom(s, from) == OutputsFrom(s, NextOutput(s, from).value)
    decreases |s| - from
  {
    if from < |s| && !OutputAt(s, from) {
      OutputsFromNext(s, from + 1);
    }
  }

  lemma {:induction false} OutputsFromInside(s: string, i: nat, p: nat)
    requires OutputAt(s, i) && i < p <= OutputEnd(s, i)
    ensures OutputsFrom(s, p) == OutputsFrom(s, OutputEnd(s, i))
    decreases OutputEnd(s, i) - p
  {
    if p < OutputEnd(s, i) {
      NoOutputInside(s, i, p);
      OutputsFromInside(s, i, p + 1);
    }
  }

  /** Resuming each `exec` at the end of the previous match finds exactly what looking at every position finds. */
  lemma {:induction false} ExecOutputsAgree(s: string, from: nat)
    ensures ExecOutputs(s, from) == OutputsFrom(s, from)
    decreases if from <= |s| then |s| - from else 0
  {
    OutputsFromNext(s, from);
    match NextOutput(s, from)
    case None =>
    case Some(i) =>
      OutputsFromInside(s, i, i + 1);
      ExecOutputsAgree(s, OutputEnd(s, i));
  }

  lemma {:induction false} WordRunEndPrefix(a: string, r: string, j: nat)
    requires j <= |a|
    requires r == "" || !IsWordChar(r[0])
    ensures WordRunEnd(a + r, j) == WordRunEnd(a, j)
    decreases |a| - j
  {
    if j < |a| && IsWordChar(a[j]) {
      WordRunEndPrefix(a, r, j + 1);
    }
  }

  lemma {:induction false} WordRunEndShift(p: string, t: string, j: nat)
    requires j <= |t|
    ensures WordRunEnd(p + t, |p| + j) == |p| + WordRunEnd(t, j)
    decreases |t| - j
  {
    if j < |t| && IsWordChar(t[j]) {
      WordRunEndShift(p, t, j + 1);
    }
  }

  /** Positions inside `a` match the same way in `a + "\n" + b`. */
  lemma OutputAtPrefix(a: string, b: string, i: nat)
    requires i < |a|
    requires b == "" || b[0] != '"'
    ensures OutputAt(a + "\n" + b, i) == OutputAt(a, i)
    ensures OutputAt(a, i) ==> NameAt(a + "\n" + b, i) == NameAt(a, i)
  {
    var s := a + "\n" + b;
    assert s[|a|] == '\n';
    assert forall t :: 0 <= t < |a| ==> s[t] == a[t];
    assert IsLineStart(s, i) == IsLineStart(a, i);
    if i + 8 <= |a| {
      assert s[i..i + 6] == a[i..i + 6];
      WordRunEndPrefix(a, "\n" + b, i + 8);
      assert s == a + ("\n" + b);
    } else if i + 7 == |a| {
      assert s[i + 7] == '\n';
    } else if i + 6 == |a| {
      assert i + 8 <= |s| ==> s[i + 7] == b[0];
    } else {
      assert i + 6 <= |s| ==> s[i..i + 6][|a| - i] == s[|a|];
      assert "output"[|a| - i] != '\n';
    }
  }

  lemma LineStartShift(p: string, t: string, j: nat)
    requires p == "" || IsLineTerminator(p[|p| - 1])
    requires j <= |t|
    ensures IsLineStart(p + t, |p| + j) == IsLineStart(t, j)
  {
    if j > 0 {
      assert (p + t)[|p| + j - 1] == t[j - 1];
    } else if p != "" {
      assert (p + t)[|p| - 1] == p[|p| - 1];
    }
  }

  lemma OutputTailShift(p: string, t: string, j: nat)
    requires j + 8 <= |t|
    ensures var k := WordRunEnd(t, j + 8);
      && WordRunEnd(p + t, |p| + j + 8) == |p| + k
      && (k < |t| ==> (p + t)[|p| + k] == t[k])
      && (p + t)[|p| + j + 8..|p| + k] == t[j + 8..k]
  {
    WordRunEndShift(p, t, j + 8);
  }

  /** Positions of `t` match the same way after a prefix that ends a line. */
  lemma OutputAtShift(p: string, t: string, j: nat)
    requires p == "" || IsLineTerminator(p[|p| - 1])
    requires j <= |t|
    ensures OutputAt(p + t, |p| + j) == OutputAt(t, j)
    ensures OutputAt(t, j) ==> NameAt(p + t, |p| + j) == NameAt(t, j)
  {
    var s := p + t;
    var i := |p| + j;
    LineStartShift(p, t, j);
    if j + 8 <= |t| {
      assert s[i..i + 6] == t[j..j + 6];
      assert s[i + 6] == t[j + 6] && s[i + 7] == t[j + 7];
      OutputTailShift(p, t, j);
    }
  }

  lemma {:induction false} OutputsFromShift(p: string, t: string, j: nat)
    requires p == "" || IsLineTerminator(p[|p| - 1])
    requires j <= |t|
    ensures OutputsFrom(p + t, |p| + j) == OutputsFrom(t, j)
    decreases |t| - j
  {
    if j < |t| {
      OutputAtShift(p, t, j);
      OutputsFromShift(p, t, j + 1);
    }
  }

  lemma {:induction false} OutputsFromJoin(a: string, b: string, i: nat)
    requires i <= |a|
    requires b == "" || b[0] != '"'
    ensures OutputsFrom(a + "\n" + b, i) == OutputsFrom(a, i) + Outputs(b)
    decreases |a| - i
  {
    if i < |a| {
      OutputAtPrefix(a, b, i);
      OutputsFromJoin(a, b, i + 1);
    } else {
      OutputsFromJoinEnd(a, b);
    }
  }

  /** From the joining newline on, the joined text declares what the second text does. */
  lemma OutputsFromJoinEnd(a: string, b: string)
    ensures OutputsFrom(a + "\n" + b, |a|) == Outputs(b)
  {
    var s := a + "\n" + b;
    assert s[|a|] == '\n';
    assert !OutputAt(s, |a|);
    assert s == (a + "\n") + b;
    OutputsFromShift(a + "\n", b, 0);
  }

  /**
   * Scanning two texts joined by a newline finds the names of the first, then
   * those of the second, duplicates included. The one exception the regex
   * allows, a line ending in `output` whose `\s` is the joining newline, is
   * ruled out by the second text not starting with a quote.
   */
  lemma OutputsJoin(a: string, b: string)
    requires b == "" || b[0] != '"'
    ensures Outputs(a + "\n" + b) == Outputs(a) + Outputs(b)
  {
    OutputsFromJoin(a, b, 0);
  }

  /** A single line holds at most one declaration, at its start. */
  lemma OutputsOfLine(s: string)
    requires NoLineBreak(s)
    ensures Outputs(s) == if s != "" && OutputAt(s, 0) then [NameAt(s, 0)] else []
  {
    OutputsOfLineFrom(s, 1);
  }

  lemma {:induction false} OutputsOfLineFrom(s: string, i: nat)
    requires NoLineBreak(s) && i >= 1
    ensures OutputsFrom(s, i) == []
    decreases |s| - i
  {
    if i < |s| {
      assert !IsLineStart(s, i);
      OutputsOfLineFrom(s, i + 1);
    }
  }

  lemma OutputAtStartsWithKeyword(s: string, i: nat)
    requires OutputAt(s, i)
    ensures s[i] == 'o'
  {
    assert s[i..i + 6][0] == s[i];
  }

  /** A line that does not start with `o` declares nothing. */
  lemma NoOutputsInLine(s: string)
    requires NoLineBreak(s)
    requires s == "" || s[0] != 'o'
    ensures Outputs(s) == []
  {
    OutputsOfLine(s);
    if s != "" && OutputAt(s, 0) {
      OutputAtStartsWithKeyword(s, 0);
    }
  }

  lemma {:induction false} WordRunEndOfWord(s: string, j: nat, k: nat)
    requires j <= k <= |s|
    requires forall t :: j <= t < k ==> IsWordChar(s[t])
    requires k == |s| || !IsWordChar(s[k])
    ensures WordRunEnd(s, j) == k
    decreases k - j
  {
    if j < k {
      WordRunEndOfWord(s, j + 1, k);
    }
  }

  /** A declaration line `output "<name>"...` yields exactly its name. */
  lemma OutputsOfDeclaration(name: string, rest: string)
    requires name != "" && AllWordChars(name)
    requires NoLineBreak(rest)
    ensures Outputs("output \"" + name + "\"" + rest) == [name]
  {
    var s := "output \"" + name + "\"" + rest;
    var k := 8 + |name|;
    assert s[..8] == "output \"";
    assert s[8..k] == name;
    assert s[k] == '"';
    forall t | 0 <= t < |s|
      ensures !IsLineTerminator(s[t])
    {
      if 8 <= t < k {
        assert s[t] == name[t - 8];
      } else if k + 1 <= t {
        assert s[t] == rest[t - k - 1];
      }
    }
    forall t | 8 <= t < k
      ensures IsWordChar(s[t])
    {
      assert s[t] == name[t - 8];
    }
    WordRunEndOfWord(s, 8, k);
    assert s[0..6] == "output";
    assert IsSpace(s[6]);
    assert OutputAt(s, 0);
    OutputsOfLine(s);
  }

  // ---------------------------------------------------------------------------
  // getDependencies:
  // /^data\s"terraform_remote_state".*\{\n((?:.*?|\n)*?)key\s*=\s*"(.+)"\n/gim
  // ---------------------------------------------------------------------------

  /** The placeholder replaced by the environment name in every captured key. */
  const Placeholder := "${var.environment}"

  /** `lit` read at `i` under the `i` flag. */
  predicate MatchesIgnoreCase(s: string, i: nat, lit: string) {
    i + |lit| <= |s| && forall t :: 0 <= t < |lit| ==> ToUpperAscii(s[i + t]) == ToUpperAscii(lit[t])
  }

  /** First line terminator at or after `j`, or the end of the text: where `.*` stops. */
  function LineEnd(s: string, j: nat): (e: nat)
    requires j <= |s|
    ensures j <= e <= |s|
    ensures forall t :: j <= t < e ==> !IsLineTerminator(s[t])
    ensures e < |s| ==> IsLineTerminator(s[e])
    decreases |s| - j
  {
    if j < |s| && !IsLineTerminator(s[j]) then LineEnd(s, j + 1) else j
  }

  /** End of the longest run of `\s` starting at `j`: where `\s*` stops. */
  function SkipSpaces(s: string, j: nat): (k: nat)
    requires j <= |s|
    ensures j <= k <= |s|
    ensures forall t :: j <= t < k ==> IsSpace(s[t])
    ensures k < |s| ==> !IsSpace(s[k])
    decreases |s| - j
  {
    if j < |s| && IsSpace(s[j]) then SkipSpaces(s, j + 1) else j
  }

  /**
   * The opening line matches at `i`: `data`, one `\s`, the quoted label
   * `"terraform_remote_state"` (letters in any case), and the rest of the line
   * ending in `{` immediately followed by "\n" (so a "\r\n" ending never matches).
   */
  predicate OpenerAt(s: string, i: nat) {
    && IsLineStart(s, i)
    && i + 29 <= |s|
    && MatchesIgnoreCase(s, i, "data")
    && IsSpace(s[i + 4])
    && MatchesIgnoreCase(s, i + 5, "\"terraform_remote_state\"")
    && var e := LineEnd(s, i + 29);
       i + 29 < e < |s| && s[e] == '\n' && s[e - 1] == '{'
  }

  /** Where the block body starts: just after the opener's "\n". */
  function BodyStart(s: string, i: nat): nat
    requires OpenerAt(s, i)
  {
    LineEnd(s, i + 29) + 1
  }

  /** A match: the captured key and the index just after the match. */
  datatype Match = Match(capture: string, end: nat)

  /**
   * `key\s*=\s*"(.+)"\n` matches at `p`. The greedy `(.+)` cannot cross a line
   * terminator and must be followed by `"` and "\n", so it takes the rest of
   * the line up to a final quote.
   */
  function KeyAt(s: string, p: nat): (r: Option<Match>)
    ensures r.Some? ==> p < r.value.end <= |s| && r.value.capture != ""
  {
    if p + 3 <= |s| && MatchesIgnoreCase(s, p, "key") then
      var q1 := SkipSpaces(s, p + 3);
      if q1 < |s| && s[q1] == '=' then
        var q2 := SkipSpaces(s, q1 + 1);
        if q2 < |s| && s[q2] == '"' then
          var e := LineEnd(s, q2 + 1);
          if e < |s| && s[e] == '\n' && q2 + 3 <= e && s[e - 1] == '"' then
            Some(Match(s[q2 + 1..e - 1], e + 1))
          else None
        else None
      else None
    else None
  }

  /** The lazy body `(?:.*?|\n)*?` can span any character except '\r', U+2028 and U+2029. */
  predicate IsBodyChar(c: char) {
    c == '\n' || !IsLineTerminator(c)
  }

  predicate BodySpans(s: string, p: nat, q: nat) {
    q <= |s| && forall t :: p <= t < q ==> IsBodyChar(s[t])
  }

  /**
   * The lazy body stops at the first position where the key assignment
   * matches; a position the body cannot reach is never tried.
   */
  function FindKey(s: string, p: nat): (r: Option<nat>)
    requires p <= |s|
    ensures r.Some? ==> p <= r.value && KeyAt(s, r.value).Some? && BodySpans(s, p, r.value)
    ensures r.Some? ==> forall q :: p <= q < r.value ==> KeyAt(s, q).None?
    ensures r.None? ==> forall q :: p <= q && BodySpans(s, p, q) ==> KeyAt(s, q).None?
    decreases |s| - p
  {
    if p == |s| then None
    else if KeyAt(s, p).Some? then Some(p)
    else if IsBodyChar(s[p]) then FindKey(s, p + 1)
    else None
  }

  /** The whole dependency regex matches at `i`. */
  function MatchAt(s: string, i: nat): (r: Option<Match>)
    ensures r.Some? ==> i < r.value.end <= |s| && r.value.capture != ""
    ensures r.Some? ==> OpenerAt(s, i)
  {
    if OpenerAt(s, i) then
      match FindKey(s, BodyStart(s, i))
      case None => None
      case Some(p) => KeyAt(s, p)
    else None
  }

  /** A match returned by `exec`, with the position where it starts. */
  datatype Hit = Hit(start: nat, m: Match)

  /** `re.exec(s)` with `re.lastIndex == from`: the first match starting at or after `from`. */
  function NextMatch(s: string, from: nat): (r: Option<Hit>)
    ensures r.Some? ==> from <= r.value.start < |s| && MatchAt(s, r.value.start) == Some(r.value.m)
    decreases |s| - from
  {
    if from >= |s| then None
    else match MatchAt(s, from)
      case Some(m) => Some(Hit(from, m))
      case None => NextMatch(s, from + 1)
  }

  /** `exec` skips no match: none starts between `lastIndex` and the match it returns. */
  lemma NextMatchFirst(s: string, from: nat, i: nat)
    requires NextMatch(s, from).Some? && from <= i < NextMatch(s, from).value.start
    ensures MatchAt(s, i).None?
  {
    NextMatchSame(s, from, i);
    NextMatchPast(s, i);
  }

  /** Up to the match it returns, `exec` from any later `lastIndex` returns the same match. */
  lemma {:induction false} NextMatchSame(s: string, from: nat, i: nat)
    requires NextMatch(s, from).Some? && from <= i <= NextMatch(s, from).value.start
    ensures NextMatch(s, i) == NextMatch(s, from)
    decreases i - from
  {
    if i > from {
      NextMatchPast(s, from);
      NextMatchSame(s, from + 1, i);
    }
  }

  /** A match found past `lastIndex` is the one `exec` finds from the next position, and none starts at `lastIndex`. */
  lemma NextMatchPast(s: string, from: nat)
    requires NextMatch(s, from).Some? && from < NextMatch(s, from).value.start
    ensures MatchAt(s, from).None? && NextMatch(s, from + 1) == NextMatch(s, from)
  {
  }

  /** When `exec` returns no match, none starts at or after `lastIndex`. */
  lemma {:induction false} NextMatchNone(s: string, from: nat, i: nat)
    requires NextMatch(s, from).None? && from <= i
    ensures MatchAt(s, i).None?
    decreases |s| - from
  {
    if from < |s| && i > from {
      NextMatchNone(s, from + 1, i);
    }
  }

  /** The successive results of `exec` starting from `lastIndex == from`. */
  function Hits(s: string, from: nat): seq<Hit>
    decreases if from <= |s| then |s| - from else 0
  {
    match NextMatch(s, from)
    case None => []
    case Some(h) => [h] + Hits(s, h.m.end)
  }

  function Captures(hs: seq<Hit>): seq<string> {
    seq(|hs|, k requires 0 <= k < |hs| => hs[k].m.capture)
  }

  function Substitute(keys: seq<string>, env: string): seq<string> {
    seq(|keys|, k requires 0 <= k < |keys| => ReplaceAll(keys[k], Placeholder, env))
  }

  /** What `getDependencies` returns for environment `env` and text `content`. */
  function Dependencies(env: string, content: string): seq<string> {
    Compact(Substitute(Captures(Hits(content, 0)), env))
  }

  /** `getDependencies`: the `exec` loop, the placeholder replacement and the final filter. */
  method GetDependencies(env: string, content: string) returns (deps: seq<string>)
    ensures deps == Dependencies(env, content)
  {
    var dependencies: seq<string> := [];
    var lastIndex := 0;
    var res := NextMatch(content, lastIndex);
    while res.Some?
      invariant res == NextMatch(content, lastIndex)
      invariant dependencies + Substitute(Captures(Hits(content, lastIndex)), env)
                == Substitute(Captures(Hits(content, 0)), env)
      decreases |content| - lastIndex
    {
      var hit := res.value;
      HitsStep(content, lastIndex);
      SubstituteCapturesCons(hit, Hits(content, hit.m.end), env);
      dependencies := dependencies + [ReplaceAll(hit.m.capture, Placeholder, env)];
      lastIndex := hit.m.end;
      res := NextMatch(content, lastIndex);
    }
    assert Hits(content, lastIndex) == [];
    assert Substitute(Captures([]), env) == [];
    assert dependencies == Substitute(Captures(Hits(content, 0)), env);
    deps := Compact(dependencies);
  }

  lemma HitsStep(s: string, from: nat)
    requires NextMatch(s, from).Some?
    ensures Hits(s, from) == [NextMatch(s, from).value] + Hits(s, NextMatch(s, from).value.m.end)
  {
  }

  lemma SubstituteCapturesCons(h: Hit, rest: seq<Hit>, env: string)
    ensures Substitute(Captures([h] + rest), env)
            == [ReplaceAll(h.m.capture, Placeholder, env)] + Substitute(Captures(rest), env)
  {
    assert Captures([h] + rest) == [h.m.capture] + Captures(rest);
  }

  /** Where `exec` resumes after the `k`-th hit (the search start for `k == 0`). */
  function ResumeAt(hs: seq<Hit>, from: nat, k: nat): nat
    requires k <= |hs|
  {
    if k == 0 then from else hs[k - 1].m.end
  }

  lemma ResumeAtCons(h: Hit, rest: seq<Hit>, from: nat, k: nat)
    requires 1 <= k <= |rest| + 1
    ensures ResumeAt([h] + rest, from, k) == ResumeAt(rest, h.m.end, k - 1)
  {
  }

  lemma {:induction false} HitsMatch(s: string, from: nat)
    ensures forall k :: 0 <= k < |Hits(s, from)| ==> MatchAt(s, Hits(s, from)[k].start) == Some(Hits(s, from)[k].m)
    decreases if from <= |s| then |s| - from else 0
  {
    match NextMatch(s, from)
    case None =>
    case Some(h) =>
      HitsMatch(s, h.m.end);
  }

  lemma {:induction false} HitsOrdered(s: string, from: nat)
    ensures forall k :: 0 <= k < |Hits(s, from)| ==> ResumeAt(Hits(s, from), from, k) <= Hits(s, from)[k].start
    decreases if from <= |s| then |s| - from else 0
  {
    match NextMatch(s, from)
    case None =>
    case Some(h) =>
      var rest := Hits(s, h.m.end);
      HitsOrdered(s, h.m.end);
      forall k | 1 <= k <= |rest| {
        ResumeAtCons(h, rest, from, k);
      }
  }

  lemma {:induction false} HitsSkipNothing(s: string, from: nat)
    ensures forall k, i :: 0 <= k < |Hits(s, from)| && ResumeAt(Hits(s, from), from, k) <= i < Hits(s, from)[k].start
              ==> MatchAt(s, i).None?
    ensures forall i :: ResumeAt(Hits(s, from), from, |Hits(s, from)|) <= i ==> MatchAt(s, i).None?
    decreases if from <= |s| then |s| - from else 0
  {
    match NextMatch(s, from)
    case None =>
      forall i | from <= i ensures MatchAt(s, i).None? {
        NextMatchNone(s, from, i);
      }
    case Some(h) =>
      var rest := Hits(s, h.m.end);
      HitsSkipNothing(s, h.m.end);
      forall i | from <= i < h.start ensures MatchAt(s, i).None? {
        NextMatchFirst(s, from, i);
      }
      forall k | 1 <= k <= |rest| + 1 {
        ResumeAtCons(h, rest, from, k);
      }
  }

  /**
   * The hits are exactly the matches `exec` finds: each is a match of the
   * regex, each starts at or after the point where the previous one ended,
   * no match starts in between, and none starts after the last one ended.
   */
  lemma HitsAreExecMatches(s: string, from: nat)
    ensures var hs := Hits(s, from);
      && (forall k :: 0 <= k < |hs| ==> MatchAt(s, hs[k].start) == Some(hs[k].m))
      && (forall k :: 0 <= k < |hs| ==> ResumeAt(hs, from, k) <= hs[k].start)
      && (forall k, i :: 0 <= k < |hs| && ResumeAt(hs, from, k) <= i < hs[k].start ==> MatchAt(s, i).None?)
      && (forall i :: ResumeAt(hs, from, |hs|) <= i ==> MatchAt(s, i).None?)
  {
    HitsMatch(s, from);
    HitsOrdered(s, from);
    HitsSkipNothing(s, from);
  }

  lemma {:induction false} HitsNonEmptyCaptures(s: string, from: nat)
    ensures forall k :: 0 <= k < |Hits(s, from)| ==> Hits(s, from)[k].m.capture != ""
    decreases if from <= |s| then |s| - from else 0
  {
    match NextMatch(s, from)
    case None =>
    case Some(h) =>
      HitsNonEmptyCaptures(s, h.m.end);
  }

  /**
   * For a non-empty environment name the final filter drops nothing: there is
   * one dependency per match, in match order, with the placeholder replaced.
   */
  lemma OneEntryPerMatch(env: string, content: string)
    requires env != ""
    ensures Dependencies(env, content) == Substitute(Captures(Hits(content, 0)), env)
  {
    HitsNonEmptyCaptures(content, 0);
  }

  /** For a non-empty environment name, no dependency is found exactly when the regex matches nowhere. */
  lemma DependenciesEmpty(env: string, content: string)
    requires env != ""
    ensures Dependencies(env, content) == [] <==> forall i :: 0 <= i < |content| ==> MatchAt(content, i).None?
  {
    OneEntryPerMatch(env, content);
    HitsAreExecMatches(content, 0);
  }

  /** Text without a `data "terraform_remote_state"` opening line has no dependencies. */
  lemma NoRemoteStateNoDependencies(env: string, content: string)
    requires forall i :: 0 <= i < |content| ==> !OpenerAt(content, i)
    ensures Dependencies(env, content) == []
  {
    assert NextMatch(content, 0).None?;
  }
}
