/** File-system locations as sequences of segments, standing for the strings that `path.join`,
    `path.dirname` and `path.resolve` produce. */
module Paths {

  /** A location; `[]` is the file-system root. */
  type Path = seq<string>

  /** The directory that holds a non-root location. */
  function Parent(p: Path): Path
    requires p != []
  {
    p[..|p| - 1]
  }

  /** `path.dirname(p)`, which is also `path.resolve(p, '../')`: the root is its own parent. */
  function Dirname(p: Path): (d: Path)
    ensures p == [] ==> d == []
    ensures p != [] ==> d + [p[|p| - 1]] == p
  {
    if p == [] then [] else Parent(p)
  }

  /** Length of the segment at the front of `s`, up to the first '/'. */
  function SegmentLength(s: string): (n: nat)
    ensures n <= |s|
    ensures forall i :: 0 <= i < n ==> s[i] != '/'
    ensures n < |s| ==> s[n] == '/'
  {
    if s == "" || s[0] == '/' then 0 else 1 + SegmentLength(s[1..])
  }

  /** The segments of a '/'-separated path string; empty segments (a leading, trailing or doubled
      separator) are dropped, as `path.join` does. */
  function Split(s: string): (p: Path)
    ensures forall i :: 0 <= i < |p| ==> p[i] != "" && '/' !in p[i]
    decreases |s|
  {
    if s == "" then []
    else if s[0] == '/' then Split(s[1..])
    else
      var n := SegmentLength(s);
      [s[..n]] + Split(s[n..])
  }

  /** A segment as `Split` produces it. */
  predicate IsSegment(w: string) {
    w != "" && '/' !in w
  }

  /** The '/'-prefixed segments of `p`, one after the other. */
  function JoinTail(p: Path): (s: string)
    ensures p != [] ==> s != "" && s[0] == '/'
    ensures p == [] ==> s == ""
  {
    if p == [] then "" else "/" + p[0] + JoinTail(p[1..])
  }

  /** The absolute path string of a location, its `fsPath`. */
  function Join(p: Path): (s: string)
    ensures s != "" && s[0] == '/'
  {
    if p == [] then "/" else JoinTail(p)
  }

  lemma {:induction false} SegmentLengthOfSegment(w: string, t: string)
    requires '/' !in w && (t == "" || t[0] == '/')
    ensures SegmentLength(w + t) == |w|
    decreases |w|
  {
    if w != "" {
      assert (w + t)[1..] == w[1..] + t;
      SegmentLengthOfSegment(w[1..], t);
    } else {
      assert w + t == t;
    }
  }

  lemma {:induction false} SplitJoinTail(p: Path)
    requires forall i :: 0 <= i < |p| ==> IsSegment(p[i])
    ensures Split(JoinTail(p)) == p
    decreases |p|
  {
    if p != [] {
      var rest := JoinTail(p[1..]);
      var s := "/" + p[0] + rest;
      assert s[1..] == p[0] + rest;
      SegmentLengthOfSegment(p[0], rest);
      assert (p[0] + rest)[..|p[0]|] == p[0];
      assert (p[0] + rest)[|p[0]|..] == rest;
      SplitJoinTail(p[1..]);
      assert p == [p[0]] + p[1..];
    }
  }

  /** Splitting a location's path string gives the location back. */
  lemma SplitJoin(p: Path)
    requires forall i :: 0 <= i < |p| ==> IsSegment(p[i])
    ensures Split(Join(p)) == p
  {
    if p == [] {
      assert Split("/") == Split("");
    } else {
      SplitJoinTail(p);
    }
  }

  /** A single segment splits into itself. */
  lemma SplitSegment(w: string)
    requires IsSegment(w)
    ensures Split(w) == [w]
  {
    SegmentLengthOfSegment(w, "");
    assert w + "" == w;
    assert w[|w|..] == "";
  }

  /** `path.join(a, b)` of two absolute or segment strings: the segments of `b` follow those of
      `a`, whether or not `b` starts with a separator. */
  function PathJoin(a: string, b: string): (s: string)
    ensures Split(s) == Split(a) + Split(b)
  {
    var p := Split(a) + Split(b);
    SplitJoin(p);
    Join(p)
  }
}
