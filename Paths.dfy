/**
 * File-system paths as lists of segments, and the path computations the
 * materializer performs with Node's `path` module: `dirname`, `parse(..).name`,
 * `join`, the removal of a root with `String.replace`, and the remote-state key.
 *
 * A path `a/b/c` is the list ["a", "b", "c"]; the current directory is [].
 * `join` of normalised paths is list concatenation.
 */
module Paths {
  import opened Wrappers

  type Path = seq<string>

  /** A segment as `path.join` leaves it after normalisation. */
  predicate ValidSegment(s: string) {
    s != "" && '/' !in s && s != "." && s != ".."
  }

  predicate ValidPath(p: Path) {
    forall i :: 0 <= i < |p| ==> ValidSegment(p[i])
  }

  predicate IsPrefix(pre: Path, p: Path) {
    |pre| <= |p| && p[..|pre|] == pre
  }

  /** `path.dirname`: everything but the last segment. */
  function Dirname(p: Path): (d: Path)
    ensures p != [] ==> d + [p[|p| - 1]] == p
  {
    if p == [] then [] else p[..|p| - 1]
  }

  /** Index of the last '.' in `s`, if any. */
  function LastDot(s: string): (r: Option<nat>)
    ensures r.Some? ==> r.value < |s| && s[r.value] == '.' &&
                        forall j :: r.value < j < |s| ==> s[j] != '.'
    ensures r.None? ==> '.' !in s
  {
    if s == [] then None
    else if s[|s| - 1] == '.' then Some(|s| - 1)
    else LastDot(s[..|s| - 1])
  }

  /**
   * `path.parse(x).name` for a last segment: the segment without its extension.
   * Node gives no extension when there is no dot, when the only candidate dot
   * opens the segment (".hidden"), and for "..".
   */
  function Stem(seg: string): (r: string)
    ensures |r| <= |seg| && r == seg[..|r|]
    ensures '.' !in seg ==> r == seg
    ensures seg != "" ==> r != ""
  {
    match LastDot(seg)
    case None => seg
    case Some(i) => if i == 0 || seg == ".." then seg else seg[..i]
  }

  /** `path.parse(p).name` for a whole path; `parse(".").name` is ".". */
  function Name(p: Path): string {
    Stem(if p == [] then "." else p[|p| - 1])
  }

  /** `pat` occurs in `p` starting at index `j`. */
  predicate OccursAt(p: Path, pat: Path, j: nat) {
    j + |pat| <= |p| && p[j..j + |pat|] == pat
  }

  /** First index at or after `from` where `pat` occurs in `p` as a contiguous run. */
  function FirstOccurrence(p: Path, pat: Path, from: nat): (r: Option<nat>)
    ensures r.Some? ==> from <= r.value && OccursAt(p, pat, r.value)
    ensures r.Some? ==> forall j :: from <= j < r.value ==> !OccursAt(p, pat, j)
    ensures r.None? ==> forall j :: from <= j ==> !OccursAt(p, pat, j)
    decreases |p| - from
  {
    if from + |pat| > |p| then None
    else if p[from..from + |pat|] == pat then Some(from)
    else FirstOccurrence(p, pat, from + 1)
  }

  /**
   * `p.replace(pat, '')` on paths: removes the first occurrence of `pat` only;
   * a path without one is returned unchanged.
   */
  function ReplaceFirst(p: Path, pat: Path): (r: Path)
    ensures IsPrefix(pat, p) ==> r == p[|pat|..]
    ensures (forall j :: !OccursAt(p, pat, j)) ==> r == p
  {
    match FirstOccurrence(p, pat, 0)
    case None => p
    case Some(i) => assert IsPrefix(pat, p) ==> OccursAt(p, pat, 0); p[..i] + p[i + |pat|..]
  }

  /** The segments joined with '/'. */
  function JoinSlash(p: Path): string
    decreases |p|
  {
    if |p| == 0 then "" else if |p| == 1 then p[0] else p[0] + "/" + JoinSlash(p[1..])
  }

  /** The text Node prints for a normalised relative path; the empty path is ".". */
  function Render(p: Path): string {
    if p == [] then "." else JoinSlash(p)
  }

  /** Index of the first '/' in `s`, if any. */
  function FirstSlash(s: string): (r: Option<nat>)
    ensures r.Some? ==> r.value < |s| && s[r.value] == '/' && '/' !in s[..r.value]
    ensures r.None? ==> '/' !in s
  {
    if s == [] then None
    else if s[0] == '/' then Some(0)
    else match FirstSlash(s[1..])
      case None => None
      case Some(i) => assert s[..i + 1] == [s[0]] + s[1..][..i]; Some(i + 1)
  }

  lemma {:induction false} FirstSlashAt(s: string, k: nat)
    requires k < |s| && s[k] == '/' && '/' !in s[..k]
    ensures FirstSlash(s) == Some(k)
    decreases k
  {
    if k > 0 {
      assert s[0] in s[..k];
      assert s[1..][..k - 1] == s[1..k];
      assert s[..k] == [s[0]] + s[1..k];
      FirstSlashAt(s[1..], k - 1);
    }
  }

  lemma {:induction false} FirstSlashOfJoin(p: Path)
    requires ValidPath(p) && p != []
    ensures FirstSlash(JoinSlash(p)) == if |p| > 1 then Some(|p[0]|) else None
  {
    var s := JoinSlash(p);
    if |p| > 1 {
      assert s == p[0] + "/" + JoinSlash(p[1..]);
      assert s[..|p[0]|] == p[0];
      assert ValidSegment(p[0]);
      FirstSlashAt(s, |p[0]|);
    } else {
      assert ValidSegment(p[0]);
    }
  }

  lemma {:induction false} JoinSlashInjective(p: Path, q: Path)
    requires ValidPath(p) && ValidPath(q) && p != [] && q != []
    requires JoinSlash(p) == JoinSlash(q)
    ensures p == q
    decreases |p|
  {
    var s := JoinSlash(p);
    FirstSlashOfJoin(p);
    FirstSlashOfJoin(q);
    if |p| == 1 {
      assert |q| == 1;
    } else {
      var a, b := p[0], q[0];
      assert |a| == |b|;
      assert s == a + "/" + JoinSlash(p[1..]);
      assert s == b + "/" + JoinSlash(q[1..]);
      assert a == s[..|a|] == b;
      assert JoinSlash(p[1..]) == s[|a| + 1..] == JoinSlash(q[1..]);
      JoinSlashInjective(p[1..], q[1..]);
      assert p == [a] + p[1..];
      assert q == [b] + q[1..];
    }
  }

  /** Rendering is one-to-one on normalised paths. */
  lemma {:induction false} RenderInjective(p: Path, q: Path)
    requires ValidPath(p) && ValidPath(q)
    requires Render(p) == Render(q)
    ensures p == q
  {
    if p != [] {
      FirstSlashOfJoin(p);
      assert ValidSegment(p[0]);
    }
    if q != [] {
      FirstSlashOfJoin(q);
      assert ValidSegment(q[0]);
    }
    if p != [] && q != [] {
      JoinSlashInjective(p, q);
    }
  }

  const StateFile := "terraform.tfstate"

  /** `.replace(/^\//, '')`: drops one leading '/'. */
  function StripLeadingSlash(s: string): string {
    if |s| > 0 && s[0] == '/' then s[1..] else s
  }

  /**
   * The remote-state key `join(keyBase, env, 'terraform.tfstate')` with any
   * leading '/' stripped.
   */
  function StateKey(keyBase: Path, env: string): string {
    StripLeadingSlash(Render(keyBase + [env, StateFile]))
  }

  lemma {:induction false} JoinSlashAppend(p: Path, x: string)
    requires p != []
    ensures JoinSlash(p + [x]) == JoinSlash(p) + "/" + x
    decreases |p|
  {
    if |p| > 1 {
      assert (p + [x])[1..] == p[1..] + [x];
      JoinSlashAppend(p[1..], x);
    }
  }

  lemma {:induction false} JoinSlashStartsWithFirst(p: Path)
    requires p != []
    ensures |p[0]| <= |JoinSlash(p)| && JoinSlash(p)[..|p[0]|] == p[0]
  {
  }

  /**
   * The state key never begins with '/', and it ends in
   * `<env>/terraform.tfstate` below the key base.
   */
  lemma StateKeyShape(keyBase: Path, env: string)
    requires ValidPath(keyBase + [env])
    ensures var key := StateKey(keyBase, env);
            key != "" && key[0] != '/' &&
            key == Render(keyBase + [env]) + "/" + StateFile
  {
    var p := keyBase + [env];
    assert p + [StateFile] == keyBase + [env, StateFile];
    JoinSlashAppend(p, StateFile);
    JoinSlashStartsWithFirst(p);
    assert ValidSegment(p[0]);
    var s := JoinSlash(p) + "/" + StateFile;
    assert s[0] == p[0][0];
    assert p[0][0] in p[0];
  }

  /**
   * Distinct key bases or environments never share a state key: the key
   * determines where it came from.
   */
  lemma StateKeyInjective(kb1: Path, e1: string, kb2: Path, e2: string)
    requires ValidPath(kb1 + [e1]) && ValidPath(kb2 + [e2])
    requires StateKey(kb1, e1) == StateKey(kb2, e2)
    ensures kb1 == kb2 && e1 == e2
  {
    var p1, p2 := kb1 + [e1], kb2 + [e2];
    StateKeyShape(kb1, e1);
    StateKeyShape(kb2, e2);
    var s1, s2 := Render(p1), Render(p2);
    var key := StateKey(kb1, e1);
    assert key == s1 + "/" + StateFile == s2 + "/" + StateFile;
    assert |s1| == |s2|;
    assert s1 == key[..|s1|] == s2;
    RenderInjective(p1, p2);
    assert kb1 == p1[..|kb1|] && e1 == p1[|kb1|];
    assert kb2 == p2[..|kb2|] && e2 == p2[|kb2|];
  }
}
