/** The file helpers of the extension (src/files/file-utils.ts): translation of host errors into
    the editor's file-system errors, promise wrappers over the host primitives, project-type
    sniffing of `package.json`, the directory-only child filter and the line collector. */
module FileUtils {
  import opened Outcomes
  import opened Paths
  import opened Disk

  /** The editor's `FileSystemError` kinds, and a host error passed on untouched. */
  datatype FsError = FileNotFound | FileIsADirectory | FileExists | NoPermissions | Unclassified(code: string)

  /** `massageError`: the four recognised errno codes become editor errors, anything else is kept.
      The source tests for the literal "EACCESS", which no host produces; the real "EACCES" is kept. */
  function MassageError(code: string): (e: FsError)
    ensures e == FileNotFound <==> code == "ENOENT"
    ensures e == FileIsADirectory <==> code == "EISDIR"
    ensures e == FileExists <==> code == "EEXIST"
    ensures e == NoPermissions <==> code == "EPERM" || code == "EACCESS"
    ensures e.Unclassified? ==> e.code == code
  {
    if code == "ENOENT" then FileNotFound
    else if code == "EISDIR" then FileIsADirectory
    else if code == "EEXIST" then FileExists
    else if code == "EPERM" || code == "EACCESS" then NoPermissions
    else Unclassified(code)
  }

  /** The errno code an editor error stands for. */
  function Errno(e: FsError): string {
    match e
    case FileNotFound => "ENOENT"
    case FileIsADirectory => "EISDIR"
    case FileExists => "EEXIST"
    case NoPermissions => "EPERM"
    case Unclassified(code) => code
  }

  /** Translation loses nothing but the spelling "EACCESS", which it merges with "EPERM"; the
      real errno "EACCES" is not recognised. */
  lemma MassageErrorRoundTrip(code: string)
    ensures code != "EACCESS" ==> Errno(MassageError(code)) == code
    ensures Errno(MassageError("EACCESS")) == "EPERM"
    ensures MassageError("EACCES") == Unclassified("EACCES")
  {
  }

  /** `handleResult`: a host callback's error rejects with the translated error, otherwise the
      result resolves. */
  function HandleResult<T>(host: Result<T, string>): (r: Result<T, FsError>)
    ensures r.Ok? <==> host.Ok?
    ensures host.Ok? ==> r.value == host.value
    ensures host.Err? ==> r.error == MassageError(host.error)
  {
    match host
    case Ok(v) => Ok(v)
    case Err(code) => Err(MassageError(code))
  }

  /** How a call on a location that does not exist rejects: the host's ENOENT becomes
      `FileNotFound`, while ENOTDIR (a file lies above the location) is passed on unclassified. */
  function NotFound(fs: Fs, p: Path): (e: FsError)
    ensures BelowFile(fs, p) ==> e == Unclassified("ENOTDIR")
    ensures !BelowFile(fs, p) ==> e == FileNotFound
  {
    MassageError(MissingError(fs, p))
  }

  /** `exists`: `fs.exists` reports no error, so the promise never rejects. */
  function Exists(fs: Fs, p: Path): (r: Result<bool, FsError>)
    ensures r == Ok(p in fs)
  {
    HandleResult(Ok(p in fs))
  }

  function Stat(fs: Fs, p: Path): (r: Result<Node, FsError>)
    ensures r.Ok? <==> p in fs
    ensures r.Ok? ==> r.value == fs[p]
    ensures r.Err? ==> r.error == NotFound(fs, p)
  {
    HandleResult(if p in fs then Ok(fs[p]) else Err(MissingError(fs, p)))
  }

  /** `readdir`: `listing` is the host's listing of `p` when `p` is a directory. */
  function Readdir(fs: Fs, p: Path, listing: seq<string>): (r: Result<seq<string>, FsError>)
    ensures r.Ok? <==> IsDir(fs, p)
    ensures r.Ok? ==> r.value == listing
    ensures p !in fs ==> r == Err(NotFound(fs, p))
    ensures p in fs && fs[p].File? ==> r == Err(Unclassified("ENOTDIR"))
  {
    HandleResult(if p !in fs then Err(MissingError(fs, p)) else if fs[p].File? then Err("ENOTDIR") else Ok(listing))
  }

  function Readfile(fs: Fs, p: Path): (r: Result<seq<byte>, FsError>)
    ensures r.Ok? <==> p in fs && fs[p].File?
    ensures r.Ok? ==> r.value == fs[p].content
    ensures p !in fs ==> r == Err(NotFound(fs, p))
    ensures IsDir(fs, p) ==> r == Err(FileIsADirectory)
  {
    HandleResult(HostReadFile(fs, p))
  }

  function Writefile(fs: Fs, p: Path, data: seq<byte>): (r: Result<Fs, FsError>)
    requires WellFormed(fs)
    ensures r.Ok? <==> p != [] && !IsDir(fs, p) && IsDir(fs, Parent(p))
    ensures r.Ok? ==> WellFormed(r.value) && r.value == fs[p := File(data)]
    ensures r.Err? ==> r.error == if IsDir(fs, p) then FileIsADirectory else NotFound(fs, p)
  {
    HandleResult(HostWriteFile(fs, p, data))
  }

  /** `mkdir`, which is `mkdirp`: creates `p` and its missing ancestors. */
  function Mkdir(fs: Fs, p: Path): (r: Result<Fs, FsError>)
    requires WellFormed(fs)
    ensures r.Ok? <==> PathClear(fs, p)
    ensures r.Ok? ==> WellFormed(r.value) && IsDir(r.value, p) && Extends(fs, r.value)
    ensures r.Ok? ==> forall q :: q in r.value && q !in fs ==> q <= p
    ensures r.Err? ==> r.error == (if p in fs then FileExists else Unclassified("ENOTDIR"))
  {
    HandleResult(Mkdirp(fs, p))
  }

  /** `rmrf`, which is `rimraf`: removes the subtree at `p`; an absent `p` is not an error, a `p`
      below a file is. */
  function Rmrf(fs: Fs, p: Path): (r: Result<Fs, FsError>)
    requires WellFormed(fs)
    ensures r.Ok? <==> p != [] && !BelowFile(fs, p)
    ensures r.Err? ==> r.error == Unclassified(if p == [] then "EBUSY" else "ENOTDIR")
    ensures r.Ok? ==> WellFormed(r.value) && r.value == RemoveTree(fs, p)
  {
    HandleResult(HostRimraf(fs, p))
  }

  function Rename(fs: Fs, a: Path, b: Path): (r: Result<Fs, FsError>)
    requires WellFormed(fs)
    ensures r.Ok? ==> WellFormed(r.value)
    ensures b !in fs ==>
              (r.Ok? <==> a in fs && IsDir(fs, Dirname(b)) && !(a <= b)) &&
              (r.Ok? ==> r.value == Move(fs, a, b))
    ensures a !in fs ==> r == Err(NotFound(fs, a))
    ensures a in fs && b != [] && !IsDir(fs, Parent(b)) ==> r == Err(NotFound(fs, b))
  {
    HandleResult(HostRename(fs, a, b))
  }

  /** `unlink`: removes one non-directory entry. */
  function Unlink(fs: Fs, p: Path): (r: Result<Fs, FsError>)
    requires WellFormed(fs)
    ensures r.Ok? <==> p in fs && fs[p].File?
    ensures r.Ok? ==> WellFormed(r.value) && r.value == fs - {p}
    ensures p !in fs ==> r == Err(NotFound(fs, p))
    ensures IsDir(fs, p) ==> r == Err(FileIsADirectory)
  {
    HandleResult(HostUnlink(fs, p))
  }

  // ---------------------------------------------------------------------------------------------
  // Project-type sniffing

  const Manifest := "package.json"

  /** The alternatives of the pattern `/(angular|nodejs|react|vue)/ig`, in the order tried. */
  const Keywords: seq<string> := ["angular", "nodejs", "react", "vue"]

  /** A file's bytes as text, one character per byte. */
  function Text(bytes: seq<byte>): (t: string)
    ensures |t| == |bytes|
  {
    seq(|bytes|, i requires 0 <= i < |bytes| => bytes[i] as int as char)
  }

  /** ASCII case folding, the folding the `i` flag applies to these alternatives. */
  function Lower(c: char): char {
    if 'A' <= c <= 'Z' then (c as int + 32) as char else c
  }

  function LowerAll(s: string): (t: string)
    ensures |t| == |s| && forall i :: 0 <= i < |s| ==> t[i] == Lower(s[i])
  {
    seq(|s|, i requires 0 <= i < |s| => Lower(s[i]))
  }

  /** `s` holds keyword `w` at position `i`, ignoring case. */
  predicate WordAt(s: string, i: nat, w: string) {
    i + |w| <= |s| && LowerAll(s[i..i + |w|]) == w
  }

  /** The length of the first alternative, from the `k`-th on, that matches at position `i`. */
  function AlternativeAt(s: string, i: nat, k: nat): (n: Option<nat>)
    requires k <= |Keywords|
    ensures n.Some? ==> 0 < n.value && i + n.value <= |s|
    decreases |Keywords| - k
  {
    if k == |Keywords| then None
    else if WordAt(s, i, Keywords[k]) then Some(|Keywords[k]|)
    else AlternativeAt(s, i, k + 1)
  }

  /** A match found from the `k`-th alternative on spells one of them; no match means none of
      them occurs. */
  lemma {:induction false} AlternativeAtSpec(s: string, i: nat, k: nat)
    requires k <= |Keywords|
    ensures AlternativeAt(s, i, k).Some? ==>
              LowerAll(s[i..i + AlternativeAt(s, i, k).value]) in Keywords[k..]
    ensures AlternativeAt(s, i, k).None? ==> forall j :: k <= j < |Keywords| ==> !WordAt(s, i, Keywords[j])
    decreases |Keywords| - k
  {
    if k < |Keywords| && !WordAt(s, i, Keywords[k]) {
      AlternativeAtSpec(s, i, k + 1);
      assert Keywords[k..] == [Keywords[k]] + Keywords[k + 1..];
    }
  }

  /** The length of the match of the pattern at position `i`, if any. */
  function KeywordAt(s: string, i: nat): (n: Option<nat>)
    ensures n.Some? ==> 0 < n.value && i + n.value <= |s|
  {
    AlternativeAt(s, i, 0)
  }

  /** The pattern matches at `i` iff one of the keywords occurs there, ignoring case, and the
      match spells a keyword. */
  lemma KeywordAtSpec(s: string, i: nat)
    ensures KeywordAt(s, i).None? <==> forall w :: w in Keywords ==> !WordAt(s, i, w)
    ensures KeywordAt(s, i).Some? ==> LowerAll(s[i..i + KeywordAt(s, i).value]) in Keywords
  {
    AlternativeAtSpec(s, i, 0);
    assert Keywords[0..] == Keywords;
    if KeywordAt(s, i).Some? {
      var n := KeywordAt(s, i).value;
      assert WordAt(s, i, LowerAll(s[i..i + n]));
    }
  }

  /** Position `i` holds the leftmost match of the pattern in `s`. */
  ghost predicate Leftmost(s: string, i: nat) {
    KeywordAt(s, i).Some? && forall j :: 0 <= j < i ==> KeywordAt(s, j).None?
  }

  /** The positions of `s`, each marked with whether the pattern matches there. */
  function Hits(s: string): (h: seq<bool>)
    ensures |h| == |s| && forall j :: 0 <= j < |s| ==> (h[j] <==> KeywordAt(s, j).Some?)
  {
    seq(|s|, j requires 0 <= j < |s| => KeywordAt(s, j).Some?)
  }

  /** The first marked position at or after `from`, as a global `match` reports first. */
  function FirstKeyword(hits: seq<bool>, from: nat): (r: Option<nat>)
    ensures r.Some? ==> from <= r.value < |hits| && hits[r.value]
    ensures r.Some? ==> forall j :: from <= j < r.value ==> !hits[j]
    ensures r.None? ==> forall j :: from <= j < |hits| ==> !hits[j]
    decreases |hits| - from
  {
    if from >= |hits| then None
    else if hits[from] then Some(from)
    else FirstKeyword(hits, from + 1)
  }

  /** Text without upper-case letters is its own folding. */
  lemma LowerCaseFixed(s: string)
    requires forall i :: 0 <= i < |s| ==> !('A' <= s[i] <= 'Z')
    ensures LowerAll(s) == s
  {
  }

  /** The project type a manifest's text names: its leftmost case-insensitive occurrence of one
      of the keywords, as spelled there, or "nodejs" when there is none. */
  function Sniff(t: string): (w: string)
    ensures LowerAll(w) in Keywords
    ensures (forall i :: 0 <= i < |t| ==> KeywordAt(t, i).None?) ==> w == "nodejs"
  {
    match FirstKeyword(Hits(t), 0)
    case Some(i) =>
      KeywordAtSpec(t, i);
      t[i..i + KeywordAt(t, i).value]
    case None =>
      LowerCaseFixed("nodejs");
      "nodejs"
  }

  /** The scan from `from` stops at the first match. */
  lemma {:induction false} FirstKeywordAt(hits: seq<bool>, from: nat, i: nat)
    requires from <= i < |hits| && hits[i]
    requires forall j :: from <= j < i ==> !hits[j]
    ensures FirstKeyword(hits, from) == Some(i)
    decreases i - from
  {
    if from < i {
      FirstKeywordAt(hits, from + 1, i);
    }
  }

  /** When the manifest mentions a keyword, the type is its leftmost occurrence. */
  lemma {:induction false} SniffLeftmost(t: string, i: nat)
    requires Leftmost(t, i)
    ensures Sniff(t) == t[i..i + KeywordAt(t, i).value]
  {
    FirstKeywordAt(Hits(t), 0, i);
    SniffAt(t, i);
  }

  lemma SniffAt(t: string, i: nat)
    requires FirstKeyword(Hits(t), 0) == Some(i)
    ensures Sniff(t) == t[i..i + KeywordAt(t, i).value]
  {
  }

  /** `isProjectType(dir)`: nothing when `dir` holds no `package.json`, otherwise the type its
      text names; reading a `package.json` that is a directory throws EISDIR. */
  function IsProjectType(fs: Fs, dir: Path): (r: Result<Option<string>, string>)
    ensures dir + [Manifest] !in fs <==> r == Ok(None)
    ensures IsDir(fs, dir + [Manifest]) <==> r == Err("EISDIR")
    ensures r.Ok? && r.value.Some? ==> LowerAll(r.value.value) in Keywords
    ensures dir + [Manifest] in fs && fs[dir + [Manifest]].File? ==>
              r == Ok(Some(Sniff(Text(fs[dir + [Manifest]].content))))
  {
    var manifest := dir + [Manifest];
    if manifest !in fs then Ok(None)
    else if fs[manifest] == Directory then Err("EISDIR")
    else Ok(Some(Sniff(Text(fs[manifest].content))))
  }

  // ---------------------------------------------------------------------------------------------
  // Directory-only children and line collection

  /** The message `forEachDir` returns for a missing path ("the directory does not exist"). */
  const DirMissingMessage := "目录不存在"

  /** What `forEachDir` gives back: the message string, the list of sub-directory names, or the
      exception `readdirSync` throws on a file. */
  datatype DirScan = Message(text: string) | Dirs(names: seq<string>) | Failed(code: string)

  /** The names in `listing` that are sub-directories of `dir`, in listing order. */
  function DirsOnly(fs: Fs, dir: Path, listing: seq<string>): (r: seq<string>)
    ensures forall n :: n in r <==> n in listing && IsDir(fs, dir + [n])
    ensures |r| <= |listing|
  {
    if listing == [] then []
    else
      var last := listing[|listing| - 1];
      DirsOnly(fs, dir, listing[..|listing| - 1]) + (if IsDir(fs, dir + [last]) then [last] else [])
  }

  /** `forEachDir(path)`. */
  method ForEachDir(fs: Fs, path: Path, listing: seq<string>) returns (r: DirScan)
    requires ListingFits(fs, path, listing)
    ensures path !in fs <==> r == Message(DirMissingMessage)
    ensures path in fs && fs[path].File? <==> r == Failed("ENOTDIR")
    ensures IsDir(fs, path) ==> r == Dirs(DirsOnly(fs, path, listing))
  {
    if path !in fs {
      return Message(DirMissingMessage);
    }
    if fs[path].File? {
      return Failed("ENOTDIR");
    }
    var found: seq<string> := [];
    var i := 0;
    while i < |listing|
      invariant 0 <= i <= |listing|
      invariant found == DirsOnly(fs, path, listing[..i])
    {
      var sub := listing[i];
      assert listing[..i + 1][..i] == listing[..i];
      if IsDir(fs, path + [sub]) {
        found := found + [sub];
      }
      i := i + 1;
    }
    assert listing[..i] == listing;
    return Dirs(found);
  }

  /** Length of the line at the front of `t`, up to the first line break. */
  function LineLength(t: string): (n: nat)
    ensures n <= |t|
    ensures forall i :: 0 <= i < n ==> t[i] != '\n' && t[i] != '\r'
    ensures n < |t| ==> t[n] == '\n' || t[n] == '\r'
  {
    if t == "" || t[0] == '\n' || t[0] == '\r' then 0 else 1 + LineLength(t[1..])
  }

  /** The lines `readline` emits for text `t`: breaks are "\r\n", "\n" or "\r", and a final break
      does not start another line. */
  function Lines(t: string): (ls: seq<string>)
    ensures forall k :: 0 <= k < |ls| ==> '\n' !in ls[k] && '\r' !in ls[k]
    decreases |t|
  {
    if t == "" then []
    else
      var n := LineLength(t);
      var rest :=
        if n == |t| then ""
        else if t[n] == '\r' && n + 1 < |t| && t[n + 1] == '\n' then t[n + 2..]
        else t[n + 1..];
      [t[..n]] + Lines(rest)
  }

  /** The three line breaks `readline` recognises. */
  predicate IsLineBreak(eol: string) {
    eol == "\n" || eol == "\r\n" || eol == "\r"
  }

  predicate BreakFree(w: string) {
    '\n' !in w && '\r' !in w
  }

  /** Text holding each of `ls` followed by the line break `eol`. */
  function Terminated(ls: seq<string>, eol: string): (t: string)
    ensures ls == [] ==> t == ""
  {
    if ls == [] then "" else ls[0] + eol + Terminated(ls[1..], eol)
  }

  /** A break-free line is read whole. */
  lemma WholeLine(w: string)
    requires BreakFree(w)
    ensures LineLength(w) == |w|
  {
  }

  /** After lines ended by a lone carriage return, the next character is never a line feed, so
      no "\r" is read as half of a "\r\n". */
  lemma NoLineFeedAhead(ls: seq<string>, w: string)
    requires forall k :: 0 <= k < |ls| ==> BreakFree(ls[k])
    requires BreakFree(w)
    ensures Terminated(ls, "\r") + w == "" || (Terminated(ls, "\r") + w)[0] != '\n'
  {
    if ls == [] {
      if w != "" {
        assert w[0] in w;
      }
    } else if ls[0] != "" {
      assert ls[0][0] in ls[0];
    }
  }

  /** A break-free line followed by a break is read as that line, then the rest. */
  lemma LinesCons(v: string, eol: string, u: string)
    requires IsLineBreak(eol) && BreakFree(v)
    requires eol == "\r" ==> u == "" || u[0] != '\n'
    ensures Lines(v + eol + u) == [v] + Lines(u)
  {
    var t := v + eol + u;
    WholeLine(v);
    var n := LineLength(t);
    assert t[|v|] == eol[0];
    assert n == |v| by {
      assert forall i :: 0 <= i < |v| ==> t[i] == v[i];
    }
    assert t[..n] == v;
    if eol == "\r\n" {
      assert t[n + 2..] == u;
    } else {
      assert t[n + 1..] == u;
    }
  }

  /** The last, unterminated line is read whole, and an empty one is not read. */
  lemma LinesLast(w: string)
    requires BreakFree(w)
    ensures Lines(w) == if w == "" then [] else [w]
  {
    if w != "" {
      WholeLine(w);
      assert w[..|w|] == w;
    }
  }

  /** One line more in front is one line more in the reading. */
  lemma LinesTerminatedStep(ls: seq<string>, eol: string, w: string, tail: seq<string>)
    requires IsLineBreak(eol) && ls != []
    requires forall k :: 0 <= k < |ls| ==> BreakFree(ls[k])
    requires BreakFree(w)
    requires Lines(Terminated(ls[1..], eol) + w) == ls[1..] + tail
    ensures Lines(Terminated(ls, eol) + w) == ls + tail
  {
    var u := Terminated(ls[1..], eol) + w;
    assert Terminated(ls, eol) + w == ls[0] + eol + u;
    if eol == "\r" {
      NoLineFeedAhead(ls[1..], w);
    }
    assert BreakFree(ls[0]);
    LinesCons(ls[0], eol, u);
    ConsAppend(ls, tail);
  }

  lemma ConsAppend<T>(s: seq<T>, t: seq<T>)
    requires s != []
    ensures s + t == [s[0]] + (s[1..] + t)
  {
    assert s == [s[0]] + s[1..];
  }

  /** Splitting into lines undoes writing the lines out with any one of the line breaks, so no
      line is lost, split or invented, empty lines included; a last line without a break is
      read too, unless it is empty. */
  lemma {:induction false} LinesTerminated(ls: seq<string>, eol: string, w: string)
    requires IsLineBreak(eol)
    requires forall k :: 0 <= k < |ls| ==> BreakFree(ls[k])
    requires BreakFree(w)
    ensures Lines(Terminated(ls, eol) + w) == ls + if w == "" then [] else [w]
  {
    if ls == [] {
      assert Terminated(ls, eol) + w == w;
      LinesLast(w);
    } else {
      LinesTerminated(ls[1..], eol, w);
      LinesTerminatedStep(ls, eol, w, if w == "" then [] else [w]);
    }
  }

  /** `readFileline(path, callback)`: every `line` event pushes onto `lines`, and `close` hands
      the whole list to the callback. The result records the callback's invocations; a path
      that is not a file makes the stream fail before any callback. */
  method ReadFileline(fs: Fs, path: Path) returns (calls: seq<seq<string>>, c: Completion)
    ensures path in fs && fs[path].File? ==> c == Normal && calls == [Lines(Text(fs[path].content))]
    ensures path !in fs ==> c == Threw(MissingError(fs, path)) && calls == []
    ensures IsDir(fs, path) ==> c == Threw("EISDIR") && calls == []
  {
    if path !in fs {
      return [], Threw(MissingError(fs, path));
    }
    if fs[path] == Directory {
      return [], Threw("EISDIR");
    }
    var events := Lines(Text(fs[path].content));
    var lines: seq<string> := [];
    for i := 0 to |events|
      invariant lines == events[..i]
    {
      lines := lines + [events[i]];
    }
    assert events[..|events|] == events;
    calls := [lines];
    c := Normal;
  }
}
