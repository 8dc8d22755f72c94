/**
 * The dependency manifest `dependencies.json`: the generator writes the list
 * of state keys with `JSON.stringify(deps, null, 2)` and the scheduler reads
 * it back with `JSON.parse`. The parser here accepts JSON arrays of strings
 * with any JSON white space between tokens; anything else is malformed.
 */
module Manifest {
  import opened Wrappers

  /** A lower-case hexadecimal digit. */
  function HexDigit(n: nat): (c: char)
    requires n < 16
  {
    if n < 10 then ('0' as int + n) as char else ('a' as int + n - 10) as char
  }

  /** The one-letter escapes of JSON, from the character to its letter. */
  function ShortEscape(c: char): Option<char> {
    if c == '"' then Some('"')
    else if c == '\\' then Some('\\')
    else if c == '\U{0008}' then Some('b')
    else if c == '\U{000C}' then Some('f')
    else if c == '\n' then Some('n')
    else if c == '\r' then Some('r')
    else if c == '\t' then Some('t')
    else None
  }

  /** How `JSON.stringify` writes one character inside a string literal. */
  function EscapeChar(c: char): (e: string)
    ensures |e| >= 1 && e[0] != '"'
  {
    match ShortEscape(c)
    case Some(x) => ['\\', x]
    case None =>
      if c < ' ' then ['\\', 'u', '0', '0', HexDigit(c as int / 16), HexDigit(c as int % 16)]
      else [c]
  }

  function Escape(s: string): string
    decreases |s|
  {
    if s == [] then [] else EscapeChar(s[0]) + Escape(s[1..])
  }

  /** A string literal. */
  function Quote(s: string): string {
    "\"" + Escape(s) + "\""
  }

  /** The array elements, one per line, indented by two spaces. */
  function Items(keys: seq<string>): (r: string)
    requires keys != []
    ensures |r| >= 3 && r[0] == ' ' && r[1] == ' ' && r[2] == '"'
    decreases |keys|
  {
    if |keys| == 1 then "  " + Quote(keys[0]) else "  " + Quote(keys[0]) + ",\n" + Items(keys[1..])
  }

  /** `JSON.stringify(keys, null, 2)`. */
  function ManifestText(keys: seq<string>): string {
    if keys == [] then "[]" else "[\n" + Items(keys) + "\n]"
  }

  // ---------------------------------------------------------------------------
  // JSON.parse, for arrays of strings
  // ---------------------------------------------------------------------------

  predicate IsJsonSpace(c: char) {
    c == ' ' || c == '\t' || c == '\n' || c == '\r'
  }

  function SkipWs(t: string, i: nat): (j: nat)
    requires i <= |t|
    ensures i <= j <= |t|
    ensures j < |t| ==> !IsJsonSpace(t[j])
    decreases |t| - i
  {
    if i < |t| && IsJsonSpace(t[i]) then SkipWs(t, i + 1) else i
  }

  function HexValue(c: char): Option<nat> {
    if '0' <= c <= '9' then Some(c as int - '0' as int)
    else if 'a' <= c <= 'f' then Some(c as int - 'a' as int + 10)
    else if 'A' <= c <= 'F' then Some(c as int - 'A' as int + 10)
    else None
  }

  /** A value read from the text and the index just after it. */
  datatype Decoded<T> = Decoded(value: T, next: nat)

  /** The elements read from the text and the index just after the closing bracket. */
  datatype Parsed = Parsed(keys: seq<string>, next: nat)

  /** The code of four hex digits at `i`. */
  function Hex4(t: string, i: nat): Option<nat> {
    if i + 4 <= |t| && HexValue(t[i]).Some? && HexValue(t[i + 1]).Some? &&
       HexValue(t[i + 2]).Some? && HexValue(t[i + 3]).Some?
    then
      Some(((HexValue(t[i]).value * 16 + HexValue(t[i + 1]).value) * 16 + HexValue(t[i + 2]).value) * 16 +
           HexValue(t[i + 3]).value)
    else None
  }

  /** The one-letter escapes `JSON.parse` accepts, from the letter to the character. */
  function ShortUnescape(x: char): Option<char> {
    if x == '"' then Some('"')
    else if x == '\\' then Some('\\')
    else if x == '/' then Some('/')
    else if x == 'b' then Some('\U{0008}')
    else if x == 'f' then Some('\U{000C}')
    else if x == 'n' then Some('\n')
    else if x == 'r' then Some('\r')
    else if x == 't' then Some('\t')
    else None
  }

  /**
   * The escape sequence whose letter is at `i` (just after a backslash).
   * A `\u` escape naming half of a surrogate pair is not decoded.
   */
  function DecodeEscape(t: string, i: nat): (r: Option<Decoded<char>>)
    ensures r.Some? ==> i < r.value.next <= |t|
  {
    if i >= |t| then None
    else match ShortUnescape(t[i])
      case Some(c) => Some(Decoded(c, i + 1))
      case None =>
        if t[i] != 'u' then None
        else match Hex4(t, i + 1)
          case None => None
          case Some(code) =>
            if 0xD800 <= code < 0xE000 then None else Some(Decoded(code as char, i + 5))
  }

  /** One character of a string literal at `i`, which is not its closing quote. */
  function NextChar(t: string, i: nat): (r: Option<Decoded<char>>)
    requires i < |t|
    ensures r.Some? ==> i < r.value.next <= |t|
  {
    if t[i] < ' ' then None
    else if t[i] == '\\' then DecodeEscape(t, i + 1)
    else Some(Decoded(t[i], i + 1))
  }

  /** The rest of a string literal from `i` (just after its opening quote) up to and past the closing quote. */
  function StringBody(t: string, i: nat): (r: Option<Decoded<string>>)
    ensures r.Some? ==> i < r.value.next <= |t|
    decreases |t| - i
  {
    if i >= |t| then None
    else if t[i] == '"' then Some(Decoded("", i + 1))
    else match NextChar(t, i)
      case None => None
      case Some(c) =>
        match StringBody(t, c.next)
        case None => None
        case Some(s) => Some(Decoded([c.value] + s.value, s.next))
  }

  /** The elements of an array from the first one at `i` up to and past the closing bracket. */
  function Elements(t: string, i: nat): (r: Option<Parsed>)
    ensures r.Some? ==> i < r.value.next <= |t| && r.value.keys != []
    decreases |t| - i
  {
    if !(i < |t| && t[i] == '"') then None
    else
      var s := StringBody(t, i + 1);
      if s.None? then None
      else
        var j := SkipWs(t, s.value.next);
        if j == |t| then None
        else if t[j] == ']' then Some(Parsed([s.value.value], j + 1))
        else if t[j] != ',' then None
        else
          var rest := Elements(t, SkipWs(t, j + 1));
          if rest.None? then None
          else Some(Parsed([s.value.value] + rest.value.keys, rest.value.next))
  }

  /** `JSON.parse` of a manifest: the list of keys, or `None` when the text is not an array of strings. */
  function ParseManifest(t: string): Option<seq<string>> {
    var i := SkipWs(t, 0);
    if i < |t| && t[i] == '[' then
      var j := SkipWs(t, i + 1);
      if j < |t| && t[j] == ']' then
        if SkipWs(t, j + 1) == |t| then Some([]) else None
      else
        match Elements(t, j)
        case None => None
        case Some(e) => if SkipWs(t, e.next) == |t| then Some(e.keys) else None
    else None
  }

  // ---------------------------------------------------------------------------
  // Round trip
  // ---------------------------------------------------------------------------

  lemma {:induction false} SkipWsTo(t: string, i: nat, j: nat)
    requires i <= j <= |t|
    requires forall k :: i <= k < j ==> IsJsonSpace(t[k])
    requires j == |t| || !IsJsonSpace(t[j])
    ensures SkipWs(t, i) == j
    decreases j - i
  {
    if i < j {
      SkipWsTo(t, i + 1, j);
    }
  }

  lemma HexRoundTrip(n: nat)
    requires n < 16
    ensures HexValue(HexDigit(n)) == Some(n)
  {
  }

  lemma ShortEscapeRoundTrip(c: char)
    requires ShortEscape(c).Some?
    ensures ShortUnescape(ShortEscape(c).value) == Some(c)
  {
  }

  /** `w` is written in `t` from index `i` on. */
  predicate WrittenAt(t: string, i: nat, w: string)
    decreases |w|
  {
    i + |w| <= |t| && (w == [] || (t[i] == w[0] && WrittenAt(t, i + 1, w[1..])))
  }

  lemma {:induction false} WrittenAtIndex(t: string, i: nat, w: string, k: nat)
    requires WrittenAt(t, i, w) && k < |w|
    ensures t[i + k] == w[k]
    decreases k
  {
    if k > 0 {
      WrittenAtIndex(t, i + 1, w[1..], k - 1);
    }
  }

  lemma {:induction false} WrittenAtSplit(t: string, i: nat, a: string, b: string)
    requires WrittenAt(t, i, a + b)
    ensures WrittenAt(t, i, a) && WrittenAt(t, i + |a|, b)
    decreases |a|
  {
    if a == [] {
      assert a + b == b;
    } else {
      assert (a + b)[1..] == a[1..] + b;
      WrittenAtSplit(t, i + 1, a[1..], b);
    }
  }

  lemma {:induction false} WrittenAtSlice(t: string, i: nat, w: string)
    requires i + |w| <= |t| && t[i..i + |w|] == w
    ensures WrittenAt(t, i, w)
    decreases |w|
  {
    if w != [] {
      assert t[i + 1..i + 1 + |w[1..]|] == w[1..];
      WrittenAtSlice(t, i + 1, w[1..]);
    }
  }

  /** The escape of `c`, found at `i`, decodes to `c`. */
  lemma NextCharOfEscape(t: string, i: nat, c: char)
    requires WrittenAt(t, i, EscapeChar(c))
    ensures i < |t| && NextChar(t, i) == Some(Decoded(c, i + |EscapeChar(c)|))
  {
    var e := EscapeChar(c);
    forall k | 0 <= k < |e| ensures t[i + k] == e[k] {
      WrittenAtIndex(t, i, e, k);
    }
    match ShortEscape(c)
    case Some(x) =>
      ShortEscapeRoundTrip(c);
    case None =>
      if c < ' ' {
        assert t[i + 2] == e[2] && t[i + 3] == e[3] && t[i + 4] == e[4] && t[i + 5] == e[5];
        var hi, lo := c as int / 16, c as int % 16;
        HexRoundTrip(hi);
        HexRoundTrip(lo);
        assert hi == 0 || hi == 1;
        assert Hex4(t, i + 2) == Some(c as int);
      }
  }

  /** An escaped string at `i`, followed by its closing quote, decodes to the string. */
  lemma StringBodyOfEscape(t: string, i: nat, s: string)
    requires i + |Escape(s)| < |t| && t[i..i + |Escape(s)|] == Escape(s) && t[i + |Escape(s)|] == '"'
    ensures StringBody(t, i) == Some(Decoded(s, i + |Escape(s)| + 1))
  {
    WrittenAtSlice(t, i, Escape(s));
    StringBodyOfWritten(t, i, s);
  }

  lemma {:induction false} StringBodyOfWritten(t: string, i: nat, s: string)
    requires WrittenAt(t, i, Escape(s)) && i + |Escape(s)| < |t| && t[i + |Escape(s)|] == '"'
    ensures StringBody(t, i) == Some(Decoded(s, i + |Escape(s)| + 1))
    decreases |s|
  {
    if s == [] {
      assert |Escape(s)| == 0;
    } else {
      var e := EscapeChar(s[0]);
      EscapeSplit(t, i, s);
      NextCharOfEscape(t, i, s[0]);
      var end := i + |e| + |Escape(s[1..])| + 1;
      StringBodyOfWritten(t, i + |e|, s[1..]);
      assert t[i] != '"' && StringBody(t, i + |e|) == Some(Decoded(s[1..], end));
      StringBodyStep(t, i, s, i + |e|, end);
    }
  }

  /** The text of an escaped non-empty string: its first character's escape, then the rest. */
  lemma EscapeSplit(t: string, i: nat, s: string)
    requires s != [] && WrittenAt(t, i, Escape(s))
    ensures var e := EscapeChar(s[0]);
      && |Escape(s)| == |e| + |Escape(s[1..])|
      && WrittenAt(t, i, e)
      && WrittenAt(t, i + |e|, Escape(s[1..]))
      && t[i] == e[0]
  {
    var e := EscapeChar(s[0]);
    assert Escape(s) == e + Escape(s[1..]);
    WrittenAtSplit(t, i, e, Escape(s[1..]));
    WrittenAtIndex(t, i, e, 0);
  }

  /** One character, then the rest of the string body. */
  lemma StringBodyStep(t: string, i: nat, s: string, next: nat, end: nat)
    requires s != [] && i < |t| && t[i] != '"' && NextChar(t, i) == Some(Decoded(s[0], next))
    requires StringBody(t, next) == Some(Decoded(s[1..], end))
    ensures StringBody(t, i) == Some(Decoded(s, end))
  {
    assert [s[0]] + s[1..] == s;
  }

  /** One element written by `Items` parses back, leaving the text that follows it. */
  lemma ElementOfItem(t: string, i: nat, k: string, rest: string)
    requires i <= |t| && t[i..] == "  " + Quote(k) + rest
    ensures i + 3 <= |t| && StringBody(t, i + 3).Some?
    ensures var n := StringBody(t, i + 3).value.next;
      ElementAt(t, i, k, n) && n <= |t| && t[n..] == rest
  {
    var e := Escape(k);
    var u := t[i..];
    assert u == "  \"" + e + "\"" + rest;
    assert u[2] == '"';
    assert u[3..3 + |e|] == e;
    assert u[3 + |e|] == '"';
    assert u[4 + |e|..] == rest;
    assert t[i + 3..i + 3 + |e|] == u[3..3 + |e|];
    StringBodyOfEscape(t, i + 3, k);
  }

  /** The last element of an array, then its closing bracket. */
  lemma ElementsLast(t: string, p: nat, k: string, m: nat)
    requires p < |t| && t[p] == '"' && StringBody(t, p + 1) == Some(Decoded(k, m))
    requires SkipWs(t, m) < |t| && t[SkipWs(t, m)] == ']'
    ensures Elements(t, p) == Some(Parsed([k], SkipWs(t, m) + 1))
  {
  }

  /** An element, a comma, and the elements after it. */
  lemma ElementsMore(t: string, p: nat, k: string, m: nat, j: nat, j2: nat, ks: seq<string>, q: nat)
    requires p < |t| && t[p] == '"' && StringBody(t, p + 1) == Some(Decoded(k, m))
    requires j == SkipWs(t, m) && j < |t| && t[j] == ','
    requires j2 == SkipWs(t, j + 1)
    requires Elements(t, j2) == Some(Parsed(ks, q))
    ensures Elements(t, p) == Some(Parsed([k] + ks, q))
  {
  }

  /** The text after a comma that separates two elements. */
  lemma AfterComma(t: string, n: nat, ks: seq<string>)
    requires ks != []
    requires n <= |t| && t[n..] == ",\n" + (Items(ks) + "\n]")
    ensures CommaAt(t, n)
  {
    var more := Items(ks) + "\n]";
    assert more[0] == ' ' && more[1] == ' ' && more[2] == '"';
    assert t[n] == t[n..][0];
    assert t[n + 1] == t[n..][1];
    assert t[n + 2] == more[0] && t[n + 3] == more[1] && t[n + 4] == more[2];
    SkipWsTo(t, n, n);
    SkipWsTo(t, n + 1, n + 4);
  }

  /** A string literal holding `k` opens at `i + 2` and ends just before `n`. */
  ghost predicate ElementAt(t: string, i: nat, k: string, n: nat) {
    i + 3 <= |t| && t[i + 2] == '"' && StringBody(t, i + 3) == Some(Decoded(k, n))
  }

  /** A comma at `n`, and the next element's quote at `n + 4`. */
  ghost predicate CommaAt(t: string, n: nat) {
    n + 2 <= |t| && SkipWs(t, n) == n && t[n] == ',' && SkipWs(t, n + 1) == n + 4
  }

  /** The closing line "\n]" at `n`, ending the text. */
  ghost predicate CloseAt(t: string, n: nat) {
    n + 2 == |t| && SkipWs(t, n) == n + 1 && t[n + 1] == ']'
  }

  /** The first of several elements is written as its literal, a comma and a new line. */
  lemma ItemsSplit(keys: seq<string>)
    requires |keys| > 1
    ensures Items(keys) + "\n]" == "  " + Quote(keys[0]) + (",\n" + (Items(keys[1..]) + "\n]"))
  {
  }

  /** The first of several elements, then a comma. */
  lemma ItemsHead(t: string, i: nat, keys: seq<string>)
    requires |keys| > 1
    requires i <= |t| && t[i..] == Items(keys) + "\n]"
    ensures i + 3 <= |t| && StringBody(t, i + 3).Some?
    ensures ElementAt(t, i, keys[0], StringBody(t, i + 3).value.next)
    ensures CommaAt(t, StringBody(t, i + 3).value.next)
  {
    var more := Items(keys[1..]) + "\n]";
    ItemsSplit(keys);
    ElementOfItem(t, i, keys[0], ",\n" + more);
    AfterComma(t, StringBody(t, i + 3).value.next, keys[1..]);
  }

  /** After the first of several elements and its comma, the other elements follow. */
  lemma ItemsTail(t: string, i: nat, keys: seq<string>)
    requires |keys| > 1
    requires i <= |t| && t[i..] == Items(keys) + "\n]"
    ensures i + 3 <= |t| && StringBody(t, i + 3).Some?
    ensures var n := StringBody(t, i + 3).value.next;
      n + 2 <= |t| && t[n + 2..] == Items(keys[1..]) + "\n]"
  {
    ItemsSplit(keys);
    ElementOfItem(t, i, keys[0], ",\n" + (Items(keys[1..]) + "\n]"));
    var n := StringBody(t, i + 3).value.next;
    assert t[n + 2..] == t[n..][2..];
  }

  /** The last element is followed by the closing bracket and the end of the text. */
  lemma ItemsLast(t: string, i: nat, k: string)
    requires i <= |t| && t[i..] == Items([k]) + "\n]"
    ensures i + 3 <= |t| && StringBody(t, i + 3).Some?
    ensures ElementAt(t, i, k, StringBody(t, i + 3).value.next)
    ensures CloseAt(t, StringBody(t, i + 3).value.next)
  {
    ElementOfItem(t, i, k, "\n]");
    var n := StringBody(t, i + 3).value.next;
    assert t[n] == t[n..][0] && t[n + 1] == t[n..][1];
    SkipWsTo(t, n, n + 1);
  }

  /**
   * The layout of the elements from `i`: two spaces, a string literal holding
   * `keys[0]`, then either the closing line or a comma and the next element.
   */
  ghost predicate Laid(t: string, i: nat, keys: seq<string>)
    decreases |keys|
  {
    && keys != [] && i + 3 <= |t|
    && var s := StringBody(t, i + 3);
    && s.Some? && ElementAt(t, i, keys[0], s.value.next)
    && if |keys| == 1 then CloseAt(t, s.value.next)
       else CommaAt(t, s.value.next) && Laid(t, s.value.next + 2, keys[1..])
  }

  /** Elements laid out this way parse back up to the end of the text. */
  lemma {:induction false} ElementsOfLaid(t: string, i: nat, keys: seq<string>)
    requires Laid(t, i, keys)
    ensures Elements(t, i + 2) == Some(Parsed(keys, |t|))
    decreases |keys|
  {
    var n := StringBody(t, i + 3).value.next;
    if |keys| == 1 {
      ElementsLast(t, i + 2, keys[0], n);
      assert keys == [keys[0]];
    } else {
      ElementsOfLaid(t, n + 2, keys[1..]);
      ElementsMore(t, i + 2, keys[0], n, n, n + 4, keys[1..], |t|);
      assert [keys[0]] + keys[1..] == keys;
    }
  }

  /** An element and a comma in front of a layout. */
  lemma LaidCons(t: string, i: nat, keys: seq<string>, n: nat)
    requires |keys| > 1 && ElementAt(t, i, keys[0], n) && CommaAt(t, n) && Laid(t, n + 2, keys[1..])
    ensures Laid(t, i, keys)
  {
  }

  lemma LaidLast(t: string, i: nat, keys: seq<string>, n: nat)
    requires |keys| == 1 && ElementAt(t, i, keys[0], n) && CloseAt(t, n)
    ensures Laid(t, i, keys)
  {
  }

  /** `Items` followed by the closing line is laid out as `Laid` describes. */
  lemma {:induction false} LaidOfItems(t: string, i: nat, keys: seq<string>)
    requires keys != []
    requires i <= |t| && t[i..] == Items(keys) + "\n]"
    ensures Laid(t, i, keys)
    decreases |keys|, 1
  {
    if |keys| == 1 {
      LaidOfOne(t, i, keys);
    } else {
      ItemsHead(t, i, keys);
      LaidOfRest(t, i, keys);
      LaidCons(t, i, keys, StringBody(t, i + 3).value.next);
    }
  }

  lemma LaidOfOne(t: string, i: nat, keys: seq<string>)
    requires |keys| == 1
    requires i <= |t| && t[i..] == Items(keys) + "\n]"
    ensures Laid(t, i, keys)
  {
    assert keys == [keys[0]];
    ItemsLast(t, i, keys[0]);
    LaidLast(t, i, keys, StringBody(t, i + 3).value.next);
  }

  /** The elements after the first of several are laid out too. */
  lemma {:induction false} LaidOfRest(t: string, i: nat, keys: seq<string>)
    requires |keys| > 1
    requires i <= |t| && t[i..] == Items(keys) + "\n]"
    ensures i + 3 <= |t| && StringBody(t, i + 3).Some?
    ensures Laid(t, StringBody(t, i + 3).value.next + 2, keys[1..])
    decreases |keys|, 0
  {
    ItemsTail(t, i, keys);
    LaidOfItems(t, StringBody(t, i + 3).value.next + 2, keys[1..]);
  }

  /** How a non-empty manifest opens: the bracket, a new line, then the elements. */
  lemma ManifestOpening(keys: seq<string>)
    requires keys != []
    ensures var t := ManifestText(keys);
      && |t| >= 5 && t[0] == '[' && t[1] == '\n' && t[2] == ' ' && t[3] == ' ' && t[4] == '"'
      && t[2..] == Items(keys) + "\n]"
  {
    var t := ManifestText(keys);
    assert t == "[\n" + (Items(keys) + "\n]");
  }

  /** A bracket and a new line, then laid-out elements: the elements are the parse. */
  lemma ParseOfLaid(t: string, keys: seq<string>)
    requires |t| >= 5 && t[0] == '[' && t[1] == '\n' && t[2] == ' ' && t[3] == ' ' && t[4] == '"'
    requires Laid(t, 2, keys)
    ensures ParseManifest(t) == Some(keys)
  {
    SkipWsTo(t, 0, 0);
    SkipWsTo(t, 1, 4);
    ElementsOfLaid(t, 2, keys);
    SkipWsTo(t, |t|, |t|);
  }

  /** What the generator writes, the scheduler reads back unchanged. */
  lemma ManifestRoundTrip(keys: seq<string>)
    ensures ParseManifest(ManifestText(keys)) == Some(keys)
  {
    var t := ManifestText(keys);
    if keys == [] {
      SkipWsTo(t, 0, 0);
      SkipWsTo(t, 1, 1);
      SkipWsTo(t, 2, 2);
    } else {
      ManifestOpening(keys);
      LaidOfItems(t, 2, keys);
      ParseOfLaid(t, keys);
    }
  }

  /** The characters of `t` from `i` on that are not JSON white space. */
  function Unspaced(t: string, i: nat): string
    decreases |t| - i
  {
    if i >= |t| then ""
    else (if IsJsonSpace(t[i]) then "" else [t[i]]) + Unspaced(t, i + 1)
  }

  lemma {:induction false} UnspacedSkip(t: string, i: nat)
    requires i <= |t|
    ensures Unspaced(t, i) == Unspaced(t, SkipWs(t, i))
    ensures SkipWs(t, i) < |t| ==> Unspaced(t, i) == [t[SkipWs(t, i)]] + Unspaced(t, SkipWs(t, i) + 1)
    ensures SkipWs(t, i) == |t| <==> Unspaced(t, i) == ""
    decreases |t| - i
  {
    if i < |t| && IsJsonSpace(t[i]) {
      UnspacedSkip(t, i + 1);
    }
  }

  /**
   * A manifest holds no keys, the case `dependencies.length > 0` sends to
   * the first section, exactly when it reads `[]` once white space is set aside.
   */
  lemma EmptyManifest(t: string)
    ensures ParseManifest(t) == Some([]) <==> Unspaced(t, 0) == "[]"
  {
    UnspacedSkip(t, 0);
    var i := SkipWs(t, 0);
    if i < |t| {
      UnspacedSkip(t, i + 1);
      var j := SkipWs(t, i + 1);
      if j < |t| {
        UnspacedSkip(t, j + 1);
        if Unspaced(t, 0) == "[]" {
          var u, v := Unspaced(t, i + 1), Unspaced(t, j + 1);
          assert ([t[i]] + u)[0] == t[i] && ([t[i]] + u)[1..] == u;
          assert ([t[j]] + v)[0] == t[j] && ([t[j]] + v)[1..] == v;
        }
      }
    }
  }
}
