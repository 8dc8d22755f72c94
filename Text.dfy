/**
 * Character classes of JavaScript regular expressions (without the `u` flag)
 * and the string helpers the generator relies on: splitting into lines,
 * `String.replace` with a global pattern, and lodash's `filter(identity)`.
 */
module Text {

  /** The characters that end a line for `^`, `$` and `.` in a multi-line regex. */
  predicate IsLineTerminator(c: char) {
    c == '\n' || c == '\r' || c == '\U{2028}' || c == '\U{2029}'
  }

  /** `\s`: JavaScript's white space and line terminators. */
  predicate IsSpace(c: char) {
    c == ' ' || c == '\t' || c == '\n' || c == '\r' || c == '\U{000B}' || c == '\U{000C}' ||
    c == '\U{00A0}' || c == '\U{1680}' || ('\U{2000}' <= c <= '\U{200A}') ||
    c == '\U{2028}' || c == '\U{2029}' || c == '\U{202F}' || c == '\U{205F}' ||
    c == '\U{3000}' || c == '\U{FEFF}'
  }

  /** `\w`: ASCII letters, digits and '_'. */
  predicate IsWordChar(c: char) {
    ('a' <= c <= 'z') || ('A' <= c <= 'Z') || ('0' <= c <= '9') || c == '_'
  }

  /** Case folding of the `i` flag as it affects ASCII letters. */
  function ToUpperAscii(c: char): (u: char)
    ensures 'a' <= c <= 'z' ==> 'A' <= u <= 'Z' && u as int == c as int - 32
    ensures !('a' <= c <= 'z') ==> u == c
  {
    if 'a' <= c <= 'z' then (c as int - 32) as char else c
  }

  /** `s` fits on one line: it holds no line terminator. */
  predicate NoLineBreak(s: string) {
    forall i :: 0 <= i < |s| ==> !IsLineTerminator(s[i])
  }

  predicate StartsWith(s: string, prefix: string) {
    |prefix| <= |s| && s[..|prefix|] == prefix
  }

  predicate AllWordChars(s: string) {
    forall i :: 0 <= i < |s| ==> IsWordChar(s[i])
  }

  /** The lines joined with "\n" (no trailing newline). */
  function JoinLines(ls: seq<string>): string
    decreases |ls|
  {
    if |ls| == 0 then "" else if |ls| == 1 then ls[0] else ls[0] + "\n" + JoinLines(ls[1..])
  }

  /** The text cut at every "\n"; a text without one is a single line. */
  function SplitLines(s: string): (ls: seq<string>)
    ensures |ls| >= 1
    decreases |s|
  {
    if s == [] then [""]
    else
      var rest := SplitLines(s[1..]);
      if s[0] == '\n' then [""] + rest else [[s[0]] + rest[0]] + rest[1..]
  }

  lemma {:induction false} SplitLinesAppend(a: string, b: string)
    ensures SplitLines(a + "\n" + b) == SplitLines(a) + SplitLines(b)
    decreases |a|
  {
    if a == [] {
      assert a + "\n" + b == "\n" + b;
      assert ("\n" + b)[1..] == b;
    } else {
      assert (a + "\n" + b)[1..] == a[1..] + "\n" + b;
      assert (a + "\n" + b)[0] == a[0];
      SplitLinesAppend(a[1..], b);
    }
  }

  lemma {:induction false} SplitLinesOfLine(s: string)
    requires '\n' !in s
    ensures SplitLines(s) == [s]
    decreases |s|
  {
    if s != [] {
      assert s[0] in s;
      assert forall c :: c in s[1..] ==> c in s;
      SplitLinesOfLine(s[1..]);
      assert s == [s[0]] + s[1..];
    }
  }

  /** Cutting joined lines at "\n" gives the lines back when none holds a "\n". */
  lemma {:induction false} SplitJoin(ls: seq<string>)
    requires |ls| >= 1
    requires forall i :: 0 <= i < |ls| ==> '\n' !in ls[i]
    ensures SplitLines(JoinLines(ls)) == ls
    decreases |ls|
  {
    SplitLinesOfLine(ls[0]);
    if |ls| > 1 {
      SplitLinesAppend(ls[0], JoinLines(ls[1..]));
      SplitJoin(ls[1..]);
      assert ls == [ls[0]] + ls[1..];
    }
  }

  lemma {:induction false} JoinLinesSnoc(ls: seq<string>, x: string)
    requires |ls| >= 1
    ensures JoinLines(ls + [x]) == JoinLines(ls) + "\n" + x
    decreases |ls|
  {
    if |ls| > 1 {
      assert (ls + [x])[1..] == ls[1..] + [x];
      JoinLinesSnoc(ls[1..], x);
    }
  }

  /**
   * `s.replace(/pat/g, rep)` for a pattern without metacharacters: every
   * occurrence, scanning left to right without overlap, becomes `rep`.
   */
  function ReplaceAll(s: string, pat: string, rep: string): (r: string)
    requires pat != ""
    ensures s != "" && rep != "" ==> r != ""
    decreases |s|
  {
    if s == "" then ""
    else if StartsWith(s, pat) then rep + ReplaceAll(s[|pat|..], pat, rep)
    else [s[0]] + ReplaceAll(s[1..], pat, rep)
  }

  /** Text before the first character of the pattern passes through unchanged. */
  lemma {:induction false} ReplaceAllSkips(x: string, y: string, pat: string, rep: string)
    requires pat != "" && pat[0] !in x
    ensures ReplaceAll(x + y, pat, rep) == x + ReplaceAll(y, pat, rep)
    decreases |x|
  {
    if x != "" {
      var s := x + y;
      assert s[0] == x[0] && x[0] in x;
      assert !StartsWith(s, pat);
      assert s[1..] == x[1..] + y;
      assert forall c :: c in x[1..] ==> c in x;
      ReplaceAllSkips(x[1..], y, pat, rep);
      assert x == [x[0]] + x[1..];
    } else {
      assert x + y == y;
    }
  }

  /**
   * One placeholder surrounded by text that cannot start another one is
   * replaced by `rep`, and the surrounding text is kept.
   */
  lemma ReplaceAllOnce(pre: string, post: string, pat: string, rep: string)
    requires pat != "" && pat[0] !in pre && pat[0] !in post
    ensures ReplaceAll(pre + pat + post, pat, rep) == pre + rep + post
  {
    assert pre + pat + post == pre + (pat + post);
    ReplaceAllSkips(pre, pat + post, pat, rep);
    var s := pat + post;
    assert StartsWith(s, pat);
    assert s[|pat|..] == post;
    ReplaceAllSkips(post, "", pat, rep);
    assert post + "" == post;
    assert ReplaceAll("", pat, rep) == "";
  }

  /** lodash `filter(identity)` on strings: drops the empty ones, keeps the order. */
  function Compact(xs: seq<string>): (r: seq<string>)
    ensures |r| <= |xs|
    ensures forall k :: 0 <= k < |r| ==> r[k] != ""
    ensures (forall k :: 0 <= k < |xs| ==> xs[k] != "") ==> r == xs
    decreases |xs|
  {
    if xs == [] then []
    else
      var rest := Compact(xs[..|xs| - 1]);
      if xs[|xs| - 1] == "" then rest else rest + [xs[|xs| - 1]]
  }
}
