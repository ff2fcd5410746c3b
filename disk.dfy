/** The host file system the extension works on, as a map from locations to nodes, together with
    the primitives it calls: Node's `fs` module, `mkdirp` and `rimraf`. Each primitive reports a
    failure with the raw errno code the host gives; the wrappers in `FileUtils` translate it. */
module Disk {
  import opened Outcomes
  import opened Paths

  newtype byte = x: int | 0 <= x < 256

  datatype Node = Directory | File(content: seq<byte>)

  type Fs = map<Path, Node>

  /** There is a root directory, and every other node lies inside a directory. */
  ghost predicate WellFormed(fs: Fs) {
    && [] in fs && fs[[]] == Directory
    && forall p :: p in fs && p != [] ==> Parent(p) in fs && fs[Parent(p)] == Directory
  }

  predicate IsDir(fs: Fs, p: Path) {
    p in fs && fs[p] == Directory
  }

  /** `q` is an immediate child of `dir`. */
  predicate IsChild(dir: Path, q: Path) {
    |q| == |dir| + 1 && dir <= q
  }

  predicate HasChildren(fs: Fs, dir: Path) {
    exists q :: q in fs && IsChild(dir, q)
  }

  /** `names` is what `readdir(dir)` yields: every child of `dir` once, in the host's order. */
  ghost predicate IsListing(fs: Fs, dir: Path, names: seq<string>) {
    && (forall i, j :: 0 <= i < j < |names| ==> names[i] != names[j])
    && (forall i :: 0 <= i < |names| ==> dir + [names[i]] in fs)
    && (forall q :: q in fs && IsChild(dir, q) ==> q[|dir|] in names)
  }

  /** `names` stands for the host's listing of `dir` whenever `dir` is a directory. */
  ghost predicate ListingFits(fs: Fs, dir: Path, names: seq<string>) {
    IsDir(fs, dir) ==> IsListing(fs, dir, names)
  }

  /** Every node of `fs` is still in `fs'`, unchanged. */
  ghost predicate Extends(fs: Fs, fs': Fs) {
    forall q :: q in fs ==> q in fs' && fs'[q] == fs[q]
  }

  /** No existing location on the way down to `p`, `p` included, is a file. */
  ghost predicate PathClear(fs: Fs, p: Path) {
    forall k :: 0 <= k <= |p| && p[..k] in fs ==> fs[p[..k]] == Directory
  }

  /** Some location strictly above `p` is a file, so resolving `p` stops at it. */
  function BelowFile(fs: Fs, p: Path): (b: bool)
    ensures b <==> exists k :: 0 <= k < |p| && p[..k] in fs && fs[p[..k]].File?
    decreases |p|
  {
    if p == [] then false
    else
      assert p[..|p| - 1] == Parent(p);
      assert forall k :: 0 <= k < |p| - 1 ==> Parent(p)[..k] == p[..k];
      (Parent(p) in fs && fs[Parent(p)].File?) || BelowFile(fs, Parent(p))
  }

  /** The errno the host reports for a location that does not exist: ENOTDIR when a file stands
      in the way, ENOENT otherwise. */
  function MissingError(fs: Fs, p: Path): (code: string)
    ensures code == "ENOTDIR" <==> BelowFile(fs, p)
    ensures code == "ENOENT" <==> !BelowFile(fs, p)
  {
    if BelowFile(fs, p) then "ENOTDIR" else "ENOENT"
  }

  /** The nodes at or below `p`, keyed by their location relative to `p`. */
  function Subtree(fs: Fs, p: Path): map<Path, Node> {
    SuffixInjective(p);
    map q | q in fs && p <= q :: q[|p|..] := fs[q]
  }

  lemma SuffixInjective(p: Path)
    ensures forall q1, q2 :: p <= q1 && p <= q2 && q1[|p|..] == q2[|p|..] ==> q1 == q2
  {
    forall q1, q2 | p <= q1 && p <= q2 && q1[|p|..] == q2[|p|..]
      ensures q1 == q2
    {
      assert q1 == p + q1[|p|..];
      assert q2 == p + q2[|p|..];
    }
  }

  lemma PrefixInjective(b: Path)
    ensures forall s1, s2 :: b + s1 == b + s2 ==> s1 == s2
  {
    forall s1, s2 | b + s1 == b + s2
      ensures s1 == s2
    {
      assert (b + s1)[|b|..] == s1;
      assert (b + s2)[|b|..] == s2;
    }
  }

  lemma SubtreeAt(fs: Fs, p: Path, s: Path)
    ensures s in Subtree(fs, p) <==> p + s in fs
    ensures p + s in fs ==> Subtree(fs, p)[s] == fs[p + s]
  {
    assert (p + s)[|p|..] == s;
    SuffixInjective(p);
    if s in Subtree(fs, p) {
      var q :| q in fs && p <= q && q[|p|..] == s;
      assert q == p + s;
    }
  }

  lemma {:induction false} AncestorsExist(fs: Fs, p: Path, k: nat)
    requires WellFormed(fs) && p in fs && k <= |p|
    ensures p[..k] in fs
    ensures k < |p| ==> fs[p[..k]] == Directory
    decreases |p| - k
  {
    if k < |p| {
      var q := Parent(p);
      if k < |q| {
        AncestorsExist(fs, q, k);
        assert q[..k] == p[..k];
      } else {
        assert p[..k] == q;
      }
    } else {
      assert p[..k] == p;
    }
  }

  /** Nothing lies below a location that does not exist. */
  lemma NothingBelowAbsent(fs: Fs, b: Path, q: Path)
    requires WellFormed(fs) && b !in fs && q in fs
    ensures !(b <= q)
  {
    if b <= q {
      assert q[..|b|] == b;
      AncestorsExist(fs, q, |b|);
    }
  }

  /** A file has no children. */
  lemma NothingBelowFile(fs: Fs, f: Path, q: Path)
    requires WellFormed(fs) && f in fs && fs[f].File? && q in fs
    ensures !(f < q)
  {
    if f < q {
      assert q[..|f|] == f;
      AncestorsExist(fs, q, |f|);
    }
  }

  /** An existing location has only directories above it. */
  lemma PresentNotBelowFile(fs: Fs, p: Path)
    requires WellFormed(fs) && p in fs
    ensures !BelowFile(fs, p)
  {
    forall k | 0 <= k < |p|
      ensures p[..k] in fs && fs[p[..k]] == Directory
    {
      AncestorsExist(fs, p, k);
    }
  }

  /** A path is clear of files exactly when no file lies above it and it is not a file itself. */
  lemma PathClearBelowFile(fs: Fs, p: Path)
    ensures PathClear(fs, p) <==> !BelowFile(fs, p) && !(p in fs && fs[p].File?)
  {
    assert p[..|p|] == p;
  }

  lemma PathClearOfExisting(fs: Fs, p: Path)
    requires WellFormed(fs) && p in fs
    ensures PathClear(fs, p) <==> fs[p] == Directory
  {
    if fs[p] == Directory {
      forall k | 0 <= k <= |p| && p[..k] in fs
        ensures fs[p[..k]] == Directory
      {
        if k < |p| { AncestorsExist(fs, p, k); } else { assert p[..k] == p; }
      }
    } else {
      assert p[..|p|] == p;
    }
  }

  lemma PathClearOfAbsent(fs: Fs, p: Path)
    requires p != [] && p !in fs
    ensures PathClear(fs, p) <==> PathClear(fs, Parent(p))
  {
    var q := Parent(p);
    assert p[..|p|] == p;
    if PathClear(fs, q) {
      forall k | 0 <= k <= |p| && p[..k] in fs
        ensures fs[p[..k]] == Directory
      {
        if k < |p| { assert p[..k] == q[..k]; }
      }
    }
    if PathClear(fs, p) {
      forall k | 0 <= k <= |q| && q[..k] in fs
        ensures fs[q[..k]] == Directory
      {
        assert q[..k] == p[..k];
      }
    }
  }

  /** `mkdirp(p)`: creates `p` and every missing ancestor, all as directories. It fails with
      EEXIST when `p` is a file and with ENOTDIR when an ancestor is a file, creating nothing. */
  function Mkdirp(fs: Fs, p: Path): (r: Result<Fs, string>)
    requires WellFormed(fs)
    ensures r.Ok? <==> PathClear(fs, p)
    ensures r.Ok? ==> WellFormed(r.value) && IsDir(r.value, p) && Extends(fs, r.value)
    ensures r.Ok? ==> forall q :: q in r.value && q !in fs ==> q <= p
    ensures r.Err? ==> r.error == (if p in fs then "EEXIST" else "ENOTDIR")
    decreases |p|
  {
    if p in fs then
      PathClearOfExisting(fs, p);
      if fs[p] == Directory then Ok(fs) else Err("EEXIST")
    else
      PathClearOfAbsent(fs, p);
      match Mkdirp(fs, Parent(p))
      case Ok(fs1) => Ok(fs1[p := Directory])
      case Err(_) => Err("ENOTDIR")
  }

  /** What `rimraf` leaves: every node at or below `p` is gone. */
  function RemoveTree(fs: Fs, p: Path): (r: Fs)
    ensures forall q :: q in r <==> q in fs && !(p <= q)
    ensures Subtree(r, p) == map[]
  {
    var r := map q | q in fs && !(p <= q) :: fs[q];
    assert Subtree(r, p).Keys == {};
    r
  }

  lemma RemoveTreeWellFormed(fs: Fs, p: Path)
    requires WellFormed(fs) && p != []
    ensures WellFormed(RemoveTree(fs, p))
  {
    var r := RemoveTree(fs, p);
    forall q | q in r && q != []
      ensures Parent(q) in r && r[Parent(q)] == Directory
    {
      assert !(p <= Parent(q));
    }
  }

  /** The subtree at `a` relocated to `b`. */
  function Relocated(fs: Fs, a: Path, b: Path): map<Path, Node> {
    var sub := Subtree(fs, a);
    PrefixInjective(b);
    map s | s in sub :: b + s := sub[s]
  }

  /** What `rename(a, b)` leaves when `b` is free: the subtree at `a` now sits at `b`. */
  function Move(fs: Fs, a: Path, b: Path): Fs {
    RemoveTree(fs, a) + Relocated(fs, a, b)
  }

  lemma RelocatedAt(fs: Fs, a: Path, b: Path, s: Path)
    ensures b + s in Relocated(fs, a, b) <==> a + s in fs
    ensures a + s in fs ==> Relocated(fs, a, b)[b + s] == fs[a + s]
  {
    SubtreeAt(fs, a, s);
    PrefixInjective(b);
  }

  lemma RelocatedShape(fs: Fs, a: Path, b: Path, q: Path)
    requires q in Relocated(fs, a, b)
    ensures b <= q && a + q[|b|..] in fs
  {
    var s :| s in Subtree(fs, a) && b + s == q;
    assert q[|b|..] == s;
    SubtreeAt(fs, a, s);
  }

  /** Under the conditions of `rename`, nothing relocated lands below the source, and nothing that
      stays lies below the destination. */
  lemma MoveSeparated(fs: Fs, a: Path, b: Path)
    requires WellFormed(fs) && a in fs && b !in fs && !(a <= b)
    ensures forall q :: q in fs ==> !(b <= q)
    ensures forall q :: q in Relocated(fs, a, b) ==> !(a <= q) && b <= q
  {
    forall q | q in fs
      ensures !(b <= q)
    {
      NothingBelowAbsent(fs, b, q);
    }
    forall q | q in Relocated(fs, a, b)
      ensures !(a <= q) && b <= q
    {
      RelocatedShape(fs, a, b, q);
    }
  }

  lemma MoveDestination(fs: Fs, a: Path, b: Path)
    requires WellFormed(fs) && a in fs && b !in fs && !(a <= b)
    ensures Subtree(Move(fs, a, b), b) == Subtree(fs, a)
  {
    var m := Move(fs, a, b);
    MoveSeparated(fs, a, b);
    forall s | s in Subtree(m, b)
      ensures s in Subtree(fs, a) && Subtree(m, b)[s] == Subtree(fs, a)[s]
    {
      SubtreeAt(m, b, s);
      SubtreeAt(fs, a, s);
      RelocatedAt(fs, a, b, s);
    }
    forall s | s in Subtree(fs, a)
      ensures s in Subtree(m, b)
    {
      SubtreeAt(m, b, s);
      SubtreeAt(fs, a, s);
      RelocatedAt(fs, a, b, s);
    }
  }

  lemma MoveWellFormed(fs: Fs, a: Path, b: Path)
    requires WellFormed(fs) && a in fs && b !in fs && b != [] && IsDir(fs, Parent(b))
    requires !(a <= b)
    ensures WellFormed(Move(fs, a, b))
  {
    var m := Move(fs, a, b);
    var rel := Relocated(fs, a, b);
    MoveSeparated(fs, a, b);
    assert !(a <= Parent(b));
    assert Parent(b) in m;
    forall q | q in m && q != []
      ensures Parent(q) in m && m[Parent(q)] == Directory
    {
      MoveParent(fs, a, b, q);
    }
  }

  lemma MoveParent(fs: Fs, a: Path, b: Path, q: Path)
    requires WellFormed(fs) && a in fs && b !in fs && b != [] && IsDir(fs, Parent(b))
    requires !(a <= b) && !(a <= Parent(b))
    requires forall q :: q in Relocated(fs, a, b) ==> !(a <= q) && b <= q
    requires q in Move(fs, a, b) && q != []
    ensures Parent(q) in Move(fs, a, b) && Move(fs, a, b)[Parent(q)] == Directory
  {
    if q in Relocated(fs, a, b) {
      MoveParentRelocated(fs, a, b, q);
    } else {
      assert q in RemoveTree(fs, a);
      NothingBelowAbsent(fs, b, q);
      MoveParentOutside(fs, a, b, q);
    }
  }

  lemma MoveParentRelocated(fs: Fs, a: Path, b: Path, q: Path)
    requires WellFormed(fs) && b != [] && IsDir(fs, Parent(b)) && !(a <= Parent(b))
    requires forall q :: q in Relocated(fs, a, b) ==> b <= q
    requires q in Relocated(fs, a, b)
    ensures Parent(q) in Move(fs, a, b) && Move(fs, a, b)[Parent(q)] == Directory
  {
    RelocatedShape(fs, a, b, q);
    if q == b {
      MoveParentOfDestination(fs, a, b);
    } else {
      MoveParentInside(fs, a, b, q);
    }
  }

  lemma MoveParentOfDestination(fs: Fs, a: Path, b: Path)
    requires b != [] && IsDir(fs, Parent(b)) && !(a <= Parent(b))
    requires forall q :: q in Relocated(fs, a, b) ==> b <= q
    ensures Parent(b) in Move(fs, a, b) && Move(fs, a, b)[Parent(b)] == Directory
  {
    assert Parent(b) !in Relocated(fs, a, b);
    assert Parent(b) in RemoveTree(fs, a);
  }

  lemma MoveParentInside(fs: Fs, a: Path, b: Path, q: Path)
    requires WellFormed(fs) && b < q && a + q[|b|..] in fs
    ensures Parent(q) in Move(fs, a, b) && Move(fs, a, b)[Parent(q)] == Directory
  {
    var s := q[|b|..];
    var s' := s[..|s| - 1];
    assert Parent(q) == b + s';
    assert Parent(a + s) == a + s';
    assert IsDir(fs, a + s');
    RelocatedAt(fs, a, b, s');
  }

  lemma MoveParentOutside(fs: Fs, a: Path, b: Path, q: Path)
    requires WellFormed(fs) && q in fs && q != [] && !(a <= q) && !(b <= q)
    ensures Parent(q) in Move(fs, a, b) && Move(fs, a, b)[Parent(q)] == Directory
  {
    assert !(a <= Parent(q));
    if Parent(q) in Relocated(fs, a, b) {
      RelocatedShape(fs, a, b, Parent(q));
    }
  }

  /** Moving a subtree to a free location that is not inside it keeps the file system well
      formed, leaves the source empty, puts the source's former contents at the destination, and
      changes nothing elsewhere. */
  lemma MoveSpec(fs: Fs, a: Path, b: Path)
    requires WellFormed(fs) && a in fs && b !in fs && b != [] && IsDir(fs, Parent(b))
    requires !(a <= b)
    ensures WellFormed(Move(fs, a, b))
    ensures Subtree(Move(fs, a, b), a) == map[]
    ensures Subtree(Move(fs, a, b), b) == Subtree(fs, a)
    ensures forall q :: !(a <= q) && !(b <= q) ==>
              (q in Move(fs, a, b) <==> q in fs) && (q in fs ==> Move(fs, a, b)[q] == fs[q])
  {
    MoveWellFormed(fs, a, b);
    MoveDestination(fs, a, b);
    MoveSeparated(fs, a, b);
    assert Subtree(Move(fs, a, b), a).Keys == {};
  }

  /** `fs.writeFile(p, data)`: creates or truncates the file at `p`. */
  function HostWriteFile(fs: Fs, p: Path, data: seq<byte>): (r: Result<Fs, string>)
    requires WellFormed(fs)
    ensures r.Ok? ==> WellFormed(r.value) && r.value == fs[p := File(data)]
    ensures r.Ok? <==> p != [] && !IsDir(fs, p) && IsDir(fs, Parent(p))
    ensures r.Err? ==> r.error == if IsDir(fs, p) then "EISDIR" else MissingError(fs, p)
  {
    if IsDir(fs, p) then Err("EISDIR")
    else if p != [] && IsDir(fs, Parent(p)) then Ok(fs[p := File(data)])
    else Err(MissingError(fs, p))
  }

  /** `fs.mkdirSync(p)`: creates the single directory `p`; it fails with EEXIST when `p` exists,
      with ENOTDIR when a file lies above it and with ENOENT when its parent is otherwise missing. */
  function HostMkdir(fs: Fs, p: Path): (r: Result<Fs, string>)
    ensures r.Ok? <==> p !in fs && IsDir(fs, Dirname(p))
    ensures r.Ok? ==> r.value == fs[p := Directory]
    ensures WellFormed(fs) && r.Ok? ==> WellFormed(r.value)
    ensures r.Err? ==> r.error == if p in fs then "EEXIST" else MissingError(fs, p)
  {
    if p in fs then Err("EEXIST")
    else if IsDir(fs, Dirname(p)) then Ok(fs[p := Directory])
    else Err(MissingError(fs, p))
  }

  /** `fs.readFile(p)`. */
  function HostReadFile(fs: Fs, p: Path): (r: Result<seq<byte>, string>)
    ensures r.Ok? <==> p in fs && fs[p].File?
    ensures r.Ok? ==> r.value == fs[p].content
    ensures p !in fs ==> r == Err(MissingError(fs, p))
    ensures IsDir(fs, p) ==> r == Err("EISDIR")
  {
    if p !in fs then Err(MissingError(fs, p))
    else if fs[p] == Directory then Err("EISDIR")
    else Ok(fs[p].content)
  }

  /** `fs.unlink(p)`: removes a single non-directory entry (Linux reports EISDIR on a directory). */
  function HostUnlink(fs: Fs, p: Path): (r: Result<Fs, string>)
    requires WellFormed(fs)
    ensures r.Ok? <==> p in fs && fs[p].File?
    ensures r.Ok? ==> WellFormed(r.value) && r.value == fs - {p}
    ensures p !in fs ==> r == Err(MissingError(fs, p))
    ensures IsDir(fs, p) ==> r == Err("EISDIR")
  {
    if p !in fs then Err(MissingError(fs, p))
    else if fs[p] == Directory then Err("EISDIR")
    else
      var r := fs - {p};
      assert WellFormed(r) by {
        forall q | q in r && q != [] ensures Parent(q) in r && r[Parent(q)] == Directory {
          assert Parent(q) != p;
        }
      }
      Ok(r)
  }

  /** `rimraf(p)`: removes the subtree at `p`; an absent `p` (ENOENT) is not an error. A `p`
      below a file fails: its `lstat` reports ENOTDIR, the `unlink` tried next reports ENOTDIR
      again and that error is passed on. The root cannot be removed. */
  function HostRimraf(fs: Fs, p: Path): (r: Result<Fs, string>)
    requires WellFormed(fs)
    ensures r.Ok? <==> p != [] && !BelowFile(fs, p)
    ensures r.Ok? ==> WellFormed(r.value) && r.value == RemoveTree(fs, p)
    ensures r.Err? ==> r.error == if p == [] then "EBUSY" else "ENOTDIR"
  {
    if p == [] then Err("EBUSY")
    else if BelowFile(fs, p) then Err("ENOTDIR")
    else
      RemoveTreeWellFormed(fs, p);
      Ok(RemoveTree(fs, p))
  }

  /** `fs.rename(a, b)` following POSIX `rename`. */
  function HostRename(fs: Fs, a: Path, b: Path): (r: Result<Fs, string>)
    requires WellFormed(fs)
    ensures r.Ok? ==> WellFormed(r.value)
    ensures b !in fs ==>
              (r.Ok? <==> a in fs && IsDir(fs, Dirname(b)) && !(a <= b)) &&
              (r.Ok? ==> r.value == Move(fs, a, b))
    ensures a !in fs ==> r == Err(MissingError(fs, a))
    ensures a in fs && b != [] && !IsDir(fs, Parent(b)) ==> r == Err(MissingError(fs, b))
  {
    if a !in fs then Err(MissingError(fs, a))
    else if b != [] && !IsDir(fs, Parent(b)) then Err(MissingError(fs, b))
    else if a == b then Ok(fs)
    else if a <= b then Err("EINVAL")
    else if b == [] then Err("EBUSY")
    else if b in fs then
      if fs[a].File? && fs[b].Directory? then Err("EISDIR")
      else if fs[a].Directory? && fs[b].File? then Err("ENOTDIR")
      else if fs[b].Directory? && HasChildren(fs, b) then Err("ENOTEMPTY")
      else
        // `b` is a file or an empty directory: it is replaced
        var fs1 := RemoveTree(fs, b);
        RemoveTreeWellFormed(fs, b);
        ReplaceableTarget(fs, a, b);
        MoveSpec(fs1, a, b);
        Ok(Move(fs1, a, b))
    else
      MoveSpec(fs, a, b);
      Ok(Move(fs, a, b))
  }

  /** Removing a file or an empty directory `b` keeps `a` and the parent of `b`. */
  lemma ReplaceableTarget(fs: Fs, a: Path, b: Path)
    requires WellFormed(fs) && a in fs && b in fs && b != [] && a != b && !(a <= b)
    requires fs[b].File? || !HasChildren(fs, b)
    ensures a in RemoveTree(fs, b) && IsDir(RemoveTree(fs, b), Parent(b))
  {
    if b <= a {
      assert b < a;
      if fs[b].File? {
        NothingBelowFile(fs, b, a);
      } else {
        AncestorsExist(fs, a, |b| + 1);
        assert IsChild(b, a[..|b| + 1]);
      }
    }
    assert !(b <= Parent(b));
  }

  /** The host's file system as one shared, mutable store: every component that touches the disk
      holds a reference to the same volume. */
  class Volume {
    var nodes: Fs

    ghost predicate Valid()
      reads this
    {
      WellFormed(nodes)
    }

    constructor(nodes: Fs)
      ensures this.nodes == nodes
    {
      this.nodes := nodes;
    }
  }
}
