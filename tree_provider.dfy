/** The explorer's file-system provider and tree data provider
    (src/files/file-system-tree-provider.ts): change-event classification, directory reads,
    create/overwrite rules for writes, recursive and single-node deletes, renames with
    conflict handling, the root listing's display order and the tree item of an entry. */
module TreeProvider {
  import opened Outcomes
  import opened Paths
  import opened Disk
  import opened FileUtils

  /** The editor's `FileType` for the two kinds of node the host reports. */
  datatype FileType = File | Directory

  /** `Entry`: a location and its type. */
  datatype Entry = Entry(uri: Path, kind: FileType)

  datatype ChangeType = Changed | Created | Deleted

  datatype FileChangeEvent = FileChangeEvent(kind: ChangeType, uri: Path)

  /** A workspace folder: its URI scheme and its location. */
  datatype WorkspaceFolder = WorkspaceFolder(scheme: string, path: Path)

  datatype Command = OpenFile(target: Path)

  /** The parts of a `TreeItem` the provider sets. */
  datatype TreeItem = TreeItem(resource: Path, collapsed: bool, icon: Option<Path>, command: Option<Command>, contextValue: Option<string>)

  function TypeOf(n: Node): (t: FileType)
    ensures t == FileType.Directory <==> n == Node.Directory
  {
    if n == Node.Directory then FileType.Directory else FileType.File
  }

  /** The type of a watch event: "change" is a change; any other event is a creation when the
      location exists afterwards and a deletion when it does not. */
  function ChangeTypeFor(event: string, present: bool): (t: ChangeType)
    ensures t == Changed <==> event == "change"
    ensures t == Created <==> event != "change" && present
    ensures t == Deleted <==> event != "change" && !present
  {
    if event == "change" then Changed else if present then Created else Deleted
  }

  /** `_stat`: the type of the node at `p`. */
  function StatType(fs: Fs, p: Path): (r: Result<FileType, FsError>)
    ensures r.Ok? <==> p in fs
    ensures r.Ok? ==> r.value == TypeOf(fs[p])
    ensures r.Err? ==> r.error == NotFound(fs, p)
  {
    match Stat(fs, p)
    case Ok(n) => Ok(TypeOf(n))
    case Err(e) => Err(e)
  }

  /** The directory `readDirectory(uri, flag)` lists: the parent of `uri` when `flag` is set. */
  function ListedDir(uri: Path, flag: bool): (d: Path)
    ensures flag && uri != [] ==> d + [uri[|uri| - 1]] == uri
    ensures flag && uri == [] ==> d == []
    ensures !flag ==> d == uri
  {
    if flag then Dirname(uri) else uri
  }

  /** What reading directory `dir` yields: each listed name with the type of the node it names,
      in listing order. */
  function Children(fs: Fs, dir: Path, listing: seq<string>): (r: Result<seq<(string, FileType)>, FsError>)
    requires ListingFits(fs, dir, listing)
    ensures r.Ok? <==> IsDir(fs, dir)
    ensures dir !in fs ==> r == Err(NotFound(fs, dir))
    ensures dir in fs && fs[dir].File? ==> r == Err(Unclassified("ENOTDIR"))
    ensures r.Ok? ==> |r.value| == |listing|
    ensures r.Ok? ==> forall k :: 0 <= k < |listing| ==>
              r.value[k].0 == listing[k] && r.value[k].1 == TypeOf(fs[dir + [listing[k]]])
  {
    match Readdir(fs, dir, listing)
    case Err(e) => Err(e)
    case Ok(names) =>
      Ok(seq(|names|, k requires 0 <= k < |names| => (names[k], TypeOf(fs[dir + [names[k]]]))))
  }

  /** Every child of a directory appears in its reading, once, with its type. */
  lemma {:induction false} ChildrenCoverDirectory(fs: Fs, dir: Path, listing: seq<string>, q: Path)
    requires IsListing(fs, dir, listing) && IsDir(fs, dir)
    requires q in fs && IsChild(dir, q)
    ensures exists k :: 0 <= k < |listing| && Children(fs, dir, listing).value[k] == (q[|dir|], TypeOf(fs[q]))
    ensures forall k, l :: 0 <= k < l < |listing| ==>
              Children(fs, dir, listing).value[k].0 != Children(fs, dir, listing).value[l].0
  {
    var k :| 0 <= k < |listing| && listing[k] == q[|dir|];
    assert dir + [listing[k]] == q;
    assert Children(fs, dir, listing).value[k] == (q[|dir|], TypeOf(fs[q]));
  }

  /** The position of the first workspace folder with the `file` scheme, `|folders|` if none. */
  function FirstFileIndex(folders: seq<WorkspaceFolder>): (k: nat)
    ensures k <= |folders|
    ensures forall l :: 0 <= l < k ==> folders[l].scheme != "file"
    ensures k < |folders| ==> folders[k].scheme == "file"
  {
    if folders == [] then 0
    else if folders[0].scheme == "file" then 0
    else 1 + FirstFileIndex(folders[1..])
  }

  /** The folder `filter(folder => folder.uri.scheme === 'file')[0]` picks. */
  function FirstFileFolder(folders: seq<WorkspaceFolder>): (r: Option<WorkspaceFolder>)
    ensures r.None? <==> forall l :: 0 <= l < |folders| ==> folders[l].scheme != "file"
    ensures r.Some? ==> r.value.scheme == "file"
    ensures r.Some? ==> exists k :: 0 <= k < |folders| && folders[k] == r.value &&
                                    forall l :: 0 <= l < k ==> folders[l].scheme != "file"
  {
    var k := FirstFileIndex(folders);
    if k < |folders| then Some(folders[k]) else None
  }

  /** The directory `getChildren` reads, if any. */
  function RequestedDir(element: Option<Entry>, folders: Option<seq<WorkspaceFolder>>): (r: Option<Path>)
    ensures element.Some? ==> r == Some(element.value.uri)
    ensures element.None? ==>
              (r.Some? <==> folders.Some? && exists l :: 0 <= l < |folders.value| && folders.value[l].scheme == "file")
    ensures element.None? && r.Some? ==> r.value == Dirname(FirstFileFolder(folders.value).value.path)
  {
    if element.Some? then Some(element.value.uri)
    else if folders.None? then None
    else match FirstFileFolder(folders.value)
      case None => None
      case Some(f) => Some(ListedDir(f.path, true))
  }

  // ---------------------------------------------------------------------------------------------
  // Display order of the root listing

  /** The comparator of the root listing: directories before files, names of the same type by
      `le`, the `localeCompare(a, b) <= 0` relation. */
  predicate Before(x: (string, FileType), y: (string, FileType), le: (string, string) -> bool) {
    if x.1 == y.1 then le(x.0, y.0) else x.1 == FileType.Directory
  }

  /** `le` is total and transitive, as collation is. */
  ghost predicate TotalPreorder(le: (string, string) -> bool) {
    && (forall x, y :: le(x, y) || le(y, x))
    && (forall x, y, z :: le(x, y) && le(y, z) ==> le(x, z))
  }

  ghost predicate Sorted(s: seq<(string, FileType)>, le: (string, string) -> bool) {
    forall p, q :: 0 <= p < q < |s| ==> Before(s[p], s[q], le)
  }

  lemma BeforeTotal(x: (string, FileType), y: (string, FileType), le: (string, string) -> bool)
    requires TotalPreorder(le)
    ensures Before(x, y, le) || Before(y, x, le)
  {
  }

  lemma BeforeTransitive(x: (string, FileType), y: (string, FileType), z: (string, FileType), le: (string, string) -> bool)
    requires TotalPreorder(le)
    requires Before(x, y, le) && Before(y, z, le)
    ensures Before(x, z, le)
  {
  }

  /** In a sorted listing every directory precedes every file, and entries of one type are in
      name order. */
  lemma SortedMeansDirectoriesFirst(s: seq<(string, FileType)>, le: (string, string) -> bool, p: nat, q: nat)
    requires Sorted(s, le) && p < q < |s|
    ensures s[q].1 == FileType.Directory ==> s[p].1 == FileType.Directory
    ensures s[p].1 == s[q].1 ==> le(s[p].0, s[q].0)
  {
  }

  /** `x` and `y` compare equal: the comparator returns 0 both ways. */
  predicate Ties(x: (string, FileType), y: (string, FileType), le: (string, string) -> bool) {
    Before(x, y, le) && Before(y, x, le)
  }

  /** The entries of `s` that compare equal to `y`, in their order in `s`. A sort is stable when
      it keeps every such subsequence. */
  function TiesWith(s: seq<(string, FileType)>, y: (string, FileType), le: (string, string) -> bool): (t: seq<(string, FileType)>)
    ensures |t| <= |s|
  {
    if s == [] then []
    else TiesWith(s[..|s| - 1], y, le) + if Ties(s[|s| - 1], y, le) then [s[|s| - 1]] else []
  }

  /** Inserting `x` into `s` from the back: `x` moves left past every entry that must follow it
      and stops behind the first one that may precede it. */
  function Insert(s: seq<(string, FileType)>, x: (string, FileType), le: (string, string) -> bool): (t: seq<(string, FileType)>)
    ensures |t| == |s| + 1
  {
    if s == [] || Before(s[|s| - 1], x, le) then s + [x]
    else Insert(s[..|s| - 1], x, le) + [s[|s| - 1]]
  }

  /** Insertion sort: each entry in turn is inserted into the sorted prefix before it. */
  function InsertionSort(s: seq<(string, FileType)>, le: (string, string) -> bool): (t: seq<(string, FileType)>)
    ensures |t| == |s|
  {
    if s == [] then [] else Insert(InsertionSort(s[..|s| - 1], le), s[|s| - 1], le)
  }

  lemma {:induction false} InsertPermutes(s: seq<(string, FileType)>, x: (string, FileType), le: (string, string) -> bool)
    ensures multiset(Insert(s, x, le)) == multiset(s) + multiset{x}
    decreases |s|
  {
    if s != [] && !Before(s[|s| - 1], x, le) {
      var init, last := s[..|s| - 1], s[|s| - 1];
      assert s == init + [last];
      InsertPermutes(init, x, le);
    }
  }

  lemma {:induction false} InsertSorted(s: seq<(string, FileType)>, x: (string, FileType), le: (string, string) -> bool)
    requires TotalPreorder(le) && Sorted(s, le)
    ensures Sorted(Insert(s, x, le), le)
    decreases |s|
  {
    var last := if s == [] then x else s[|s| - 1];
    if s == [] {
    } else if Before(last, x, le) {
      var t := s + [x];
      forall p, q | 0 <= p < q < |t| ensures Before(t[p], t[q], le) {
        if q == |s| && p < |s| - 1 {
          BeforeTransitive(s[p], last, x, le);
        }
      }
    } else {
      var init := s[..|s| - 1];
      assert s == init + [last];
      InsertSorted(init, x, le);
      InsertPermutes(init, x, le);
      BeforeTotal(last, x, le);
      var u := Insert(init, x, le);
      forall p | 0 <= p < |u| ensures Before(u[p], last, le) {
        assert u[p] in multiset(u);
        if u[p] != x {
          var k :| 0 <= k < |init| && init[k] == u[p];
        }
      }
    }
  }

  /** Entries that tie with `y` keep their relative order, `x` joining them last. */
  lemma {:induction false} InsertKeepsTies(s: seq<(string, FileType)>, x: (string, FileType), y: (string, FileType), le: (string, string) -> bool)
    requires TotalPreorder(le)
    ensures TiesWith(Insert(s, x, le), y, le) == TiesWith(s, y, le) + if Ties(x, y, le) then [x] else []
    decreases |s|
  {
    if s == [] || Before(s[|s| - 1], x, le) {
      assert (s + [x])[..|s|] == s;
    } else {
      var init, last := s[..|s| - 1], s[|s| - 1];
      var u := Insert(init, x, le);
      InsertKeepsTies(init, x, y, le);
      assert (u + [last])[..|u|] == u;
      if Ties(x, y, le) && Ties(last, y, le) {
        BeforeTransitive(last, y, x, le);
      }
    }
  }

  /** The insertion sort orders the entries, keeps them, and is stable. */
  lemma {:induction false} InsertionSortSpec(s: seq<(string, FileType)>, le: (string, string) -> bool)
    requires TotalPreorder(le)
    ensures Sorted(InsertionSort(s, le), le)
    ensures multiset(InsertionSort(s, le)) == multiset(s)
    ensures forall y :: TiesWith(InsertionSort(s, le), y, le) == TiesWith(s, y, le)
    decreases |s|
  {
    if s != [] {
      var init, last := s[..|s| - 1], s[|s| - 1];
      assert s == init + [last];
      InsertionSortSpec(init, le);
      InsertSorted(InsertionSort(init, le), last, le);
      InsertPermutes(InsertionSort(init, le), last, le);
      forall y {
        InsertKeepsTies(InsertionSort(init, le), last, y, le);
      }
    }
  }

  /** One step of the inner loop: `x` moves left past `pre[j - 1]`, which must follow it. */
  lemma InsertMoves(pre: seq<(string, FileType)>, x: (string, FileType), rest: seq<(string, FileType)>, j: nat, le: (string, string) -> bool)
    requires 0 < j <= |pre| && !Before(pre[j - 1], x, le)
    ensures Insert(pre[..j], x, le) + pre[j..] == Insert(pre[..j - 1], x, le) + pre[j - 1..]
    ensures (pre[..j] + [x] + pre[j..] + rest)[j - 1 := x][j := pre[j - 1]] == pre[..j - 1] + [x] + pre[j - 1..] + rest
  {
    assert pre[..j][..j - 1] == pre[..j - 1];
    assert pre[j - 1..] == [pre[j - 1]] + pre[j..];
  }

  /** The inner loop's view of the array: `x` at `j`, the sorted prefix around it. */
  lemma InsertAt(pre: seq<(string, FileType)>, x: (string, FileType), rest: seq<(string, FileType)>, j: nat)
    requires j <= |pre|
    ensures (pre[..j] + [x] + pre[j..] + rest)[j] == x
    ensures 0 < j ==> (pre[..j] + [x] + pre[j..] + rest)[j - 1] == pre[j - 1]
  {
  }

  /** Where the inner loop stops, `x` is in place. */
  lemma InsertStops(pre: seq<(string, FileType)>, x: (string, FileType), j: nat, le: (string, string) -> bool)
    requires j <= |pre| && (j == 0 || Before(pre[j - 1], x, le))
    ensures Insert(pre[..j], x, le) + pre[j..] == pre[..j] + [x] + pre[j..]
  {
  }

  /** The sorted prefix grows by one entry of the input. */
  lemma SortGrows(input: seq<(string, FileType)>, i: nat, le: (string, string) -> bool)
    requires i < |input|
    ensures InsertionSort(input[..i + 1], le) == Insert(InsertionSort(input[..i], le), input[i], le)
    ensures input[i..] == [input[i]] + input[i + 1..]
  {
    assert input[..i + 1][..i] == input[..i];
  }

  /** One pass of the sort: `a[i]` moves left into the prefix `a[..i]`. */
  method Sink(a: array<(string, FileType)>, i: nat, le: (string, string) -> bool)
    requires i < a.Length
    modifies a
    ensures a[..] == Insert(old(a[..i]), old(a[i]), le) + old(a[i + 1..])
  {
    ghost var prefix, rest := a[..i], a[i + 1..];
    var x := a[i];
    assert prefix[..i] == prefix && prefix[i..] == [];
    assert a[..] == prefix[..i] + [x] + prefix[i..] + rest;
    var j := i;
    while j > 0 && !Before(a[j - 1], a[j], le)
      invariant 0 <= j <= i
      invariant a[..] == prefix[..j] + [x] + prefix[j..] + rest
      invariant Insert(prefix, x, le) == Insert(prefix[..j], x, le) + prefix[j..]
    {
      InsertAt(prefix, x, rest, j);
      InsertMoves(prefix, x, rest, j, le);
      a[j - 1], a[j] := a[j], a[j - 1];
      j := j - 1;
    }
    InsertAt(prefix, x, rest, j);
    InsertStops(prefix, x, j, le);
  }

  /** `children.sort(compare)`, in place, as the insertion sort `InsertionSort` (so stable, as
      `Array.prototype.sort` is). */
  method SortChildren(a: array<(string, FileType)>, le: (string, string) -> bool)
    requires TotalPreorder(le)
    modifies a
    ensures a[..] == InsertionSort(old(a[..]), le)
    ensures Sorted(a[..], le)
    ensures multiset(a[..]) == multiset(old(a[..]))
    ensures forall y :: TiesWith(a[..], y, le) == TiesWith(old(a[..]), y, le)
  {
    ghost var input := a[..];
    var i := 0;
    while i < a.Length
      invariant 0 <= i <= a.Length == |input|
      invariant a[..] == InsertionSort(input[..i], le) + input[i..]
    {
      SortGrows(input, i, le);
      assert a[..i] == InsertionSort(input[..i], le) && a[i] == input[i] && a[i + 1..] == input[i + 1..];
      Sink(a, i, le);
      i := i + 1;
    }
    assert input[..a.Length] == input;
    InsertionSortSpec(input, le);
  }

  /** Entries for the names of `rows`, placed in directory `base`. */
  function Place(base: Path, rows: seq<(string, FileType)>): (es: seq<Entry>)
    ensures |es| == |rows|
    ensures forall k :: 0 <= k < |rows| ==> es[k] == Entry(base + [rows[k].0], rows[k].1)
  {
    seq(|rows|, k requires 0 <= k < |rows| => Entry(base + [rows[k].0], rows[k].1))
  }

  // ---------------------------------------------------------------------------------------------
  // Tree items

  /** Where the project-type icons live, relative to the extension's root. */
  const ImagesDir: Path := ["public", "webview", "images"]

  /** `getTreeItem(element)`: directories are collapsible, files open on click, and a location
      whose `package.json` names a project type gets that type's icon. `extensionRoot` is the
      directory three levels above the compiled module. Sniffing a `package.json` that is a
      directory throws. */
  function GetTreeItem(fs: Fs, extensionRoot: Path, e: Entry): (r: Result<TreeItem, string>)
    ensures r.Err? <==> IsDir(fs, e.uri + [Manifest])
    ensures r.Ok? ==> r.value.resource == e.uri
    ensures r.Ok? ==> (r.value.collapsed <==> e.kind == FileType.Directory)
    ensures r.Ok? ==> (r.value.command.Some? <==> e.kind == FileType.File)
    ensures r.Ok? && r.value.command.Some? ==> r.value.command.value == OpenFile(e.uri) && r.value.contextValue == Some("file")
    ensures r.Ok? ==> (r.value.icon.Some? <==> e.uri + [Manifest] in fs)
    ensures r.Ok? && r.value.icon.Some? ==>
              exists t :: LowerAll(t) in Keywords && r.value.icon.value == extensionRoot + ImagesDir + [t + ".svg"]
  {
    match IsProjectType(fs, e.uri)
    case Err(code) => Err(code)
    case Ok(pType) =>
      var icon := if pType.Some? then Some(extensionRoot + ImagesDir + [pType.value + ".svg"]) else None;
      match e.kind
      case File => Ok(TreeItem(e.uri, false, icon, Some(OpenFile(e.uri)), Some("file")))
      case Directory => Ok(TreeItem(e.uri, true, icon, None, None))
  }

  /** An entry that is a file in a well-formed file system never gets an icon: nothing lies
      below a file. */
  lemma FileEntriesHaveNoIcon(fs: Fs, extensionRoot: Path, e: Entry)
    requires WellFormed(fs) && e.uri in fs && fs[e.uri].File?
    ensures GetTreeItem(fs, extensionRoot, e).Ok?
    ensures GetTreeItem(fs, extensionRoot, e).value.icon.None?
  {
    if e.uri + [Manifest] in fs {
      NothingBelowFile(fs, e.uri, e.uri + [Manifest]);
    }
  }

  // ---------------------------------------------------------------------------------------------
  // The provider

  class FileSystemTreeProvider {
    /** The disk the provider reads and writes. */
    const volume: Volume
    /** Every batch fired on `onDidChangeFile`, oldest first. */
    var fired: seq<seq<FileChangeEvent>>

    constructor(volume: Volume)
      ensures this.volume == volume && fired == []
    {
      this.volume := volume;
      fired := [];
    }

    /** The callback `watch` installs: fires one event for `filename` under the watched `root`;
        the `excludes` option is not consulted. */
    method OnWatchEvent(root: Path, excludes: seq<string>, event: string, filename: string)
      modifies this
      ensures var path := root + Split(filename);
              fired == old(fired) + [[FileChangeEvent(ChangeTypeFor(event, path in volume.nodes), path)]]
    {
      var path := root + Split(filename);
      var kind := ChangeTypeFor(event, Exists(volume.nodes, path).value);
      fired := fired + [[FileChangeEvent(kind, path)]];
    }

    /** `readDirectory(uri, flag)`: `listing` is the host's listing of the directory read. */
    method ReadDirectory(uri: Path, flag: bool, listing: seq<string>) returns (r: Result<seq<(string, FileType)>, FsError>)
      requires ListingFits(volume.nodes, ListedDir(uri, flag), listing)
      ensures r == Children(volume.nodes, ListedDir(uri, flag), listing)
    {
      var dir := ListedDir(uri, flag);
      var names := Readdir(volume.nodes, dir, listing);
      if names.Err? {
        return Err(names.error);
      }
      var children := names.value;
      var result: seq<(string, FileType)> := [];
      for i := 0 to |children|
        invariant |result| == i
        invariant forall k :: 0 <= k < i ==> result[k] == (listing[k], TypeOf(volume.nodes[dir + [listing[k]]]))
      {
        var child := children[i];
        var stat := StatType(volume.nodes, dir + [child]);
        result := result + [(child, stat.value)];
      }
      assert result == Children(volume.nodes, dir, listing).value;
      return Ok(result);
    }

    /** `createDirectory(uri)`. */
    method CreateDirectory(uri: Path) returns (r: Result<(), FsError>)
      requires volume.Valid()
      modifies volume
      ensures volume.Valid()
      ensures r.Ok? <==> PathClear(old(volume.nodes), uri)
      ensures r.Ok? ==> volume.nodes == Mkdirp(old(volume.nodes), uri).value
      ensures r.Err? ==> volume.nodes == old(volume.nodes)
    {
      var m := Mkdir(volume.nodes, uri);
      if m.Err? {
        return Err(m.error);
      }
      volume.nodes := m.value;
      return Ok(());
    }

    /** `readFile(uri)`. */
    method ReadFile(uri: Path) returns (r: Result<seq<byte>, FsError>)
      ensures r.Ok? <==> uri in volume.nodes && volume.nodes[uri].File?
      ensures r.Ok? ==> r.value == volume.nodes[uri].content
      ensures uri !in volume.nodes ==> r == Err(NotFound(volume.nodes, uri))
      ensures IsDir(volume.nodes, uri) ==> r == Err(FileIsADirectory)
    {
      r := Readfile(volume.nodes, uri);
    }

    /** `writeFile(uri, content, {create, overwrite})`. */
    method WriteFile(uri: Path, content: seq<byte>, create: bool, overwrite: bool) returns (r: Result<(), FsError>)
      requires volume.Valid()
      modifies volume
      ensures volume.Valid()
      ensures uri !in old(volume.nodes) && !create ==> r == Err(FileNotFound)
      ensures uri in old(volume.nodes) && !overwrite ==> r == Err(FileExists)
      ensures r.Ok? <==>
                if uri in old(volume.nodes) then overwrite && old(volume.nodes)[uri].File?
                else create && PathClear(old(volume.nodes), Dirname(uri))
      ensures r.Ok? ==> Readfile(volume.nodes, uri) == Ok(content)
      ensures r.Ok? ==> forall q :: q in old(volume.nodes) && q != uri ==>
                q in volume.nodes && volume.nodes[q] == old(volume.nodes)[q]
      ensures r.Ok? ==> forall q :: q in volume.nodes && q !in old(volume.nodes) ==> q <= uri
      ensures r.Err? ==> volume.nodes == old(volume.nodes)
    {
      var present := Exists(volume.nodes, uri).value;
      if !present {
        if !create {
          return Err(FileNotFound);
        }
        var m := Mkdir(volume.nodes, Dirname(uri));
        if m.Err? {
          return Err(m.error);
        }
        assert uri != [];
        assert !(uri <= Dirname(uri));
        volume.nodes := m.value;
      } else {
        if !overwrite {
          return Err(FileExists);
        }
        if uri == [] {
          assert volume.nodes[uri] == Node.Directory;
        }
      }
      var w := Writefile(volume.nodes, uri, content);
      if w.Err? {
        return Err(w.error);
      }
      volume.nodes := w.value;
      return Ok(());
    }

    /** `delete(uri, {recursive})`: the whole subtree, or a single non-directory node. */
    method Delete(uri: Path, recursive: bool) returns (r: Result<(), FsError>)
      requires volume.Valid()
      modifies volume
      ensures volume.Valid()
      ensures recursive ==> (r.Ok? <==> uri != [] && !BelowFile(old(volume.nodes), uri))
      ensures recursive && r.Err? ==> r.error == Unclassified(if uri == [] then "EBUSY" else "ENOTDIR")
      ensures recursive && r.Ok? ==>
                forall q :: q in volume.nodes <==> q in old(volume.nodes) && !(uri <= q)
      ensures !recursive ==> (r.Ok? <==> uri in old(volume.nodes) && old(volume.nodes)[uri].File?)
      ensures !recursive && r.Ok? ==> volume.nodes == old(volume.nodes) - {uri}
      ensures !recursive && uri !in old(volume.nodes) ==> r == Err(NotFound(old(volume.nodes), uri))
      ensures !recursive && IsDir(old(volume.nodes), uri) ==> r == Err(FileIsADirectory)
      ensures r.Ok? ==> forall q :: q in volume.nodes ==> volume.nodes[q] == old(volume.nodes)[q]
      ensures r.Err? ==> volume.nodes == old(volume.nodes)
    {
      var d := if recursive then Rmrf(volume.nodes, uri) else Unlink(volume.nodes, uri);
      if d.Err? {
        return Err(d.error);
      }
      volume.nodes := d.value;
      return Ok(());
    }

    /** `rename(oldUri, newUri, {overwrite})`: an existing destination is refused unless
        `overwrite`, in which case it is removed first; missing parents of the destination are
        created; then the host moves the node. A failure after the removal or the creation does
        not undo them. */
    method Rename(a: Path, b: Path, overwrite: bool) returns (r: Result<(), FsError>)
      requires volume.Valid()
      modifies volume
      ensures volume.Valid()
      ensures (r, volume.nodes) == RenameRun(old(volume.nodes), a, b, overwrite)
      ensures b in old(volume.nodes) && !overwrite ==> r == Err(FileExists) && volume.nodes == old(volume.nodes)
      ensures r.Ok? <==>
                && a in old(volume.nodes) && !(a <= b) && !(b <= a)
                && if b in old(volume.nodes) then overwrite else PathClear(old(volume.nodes), Dirname(b))
      ensures r.Ok? ==> Subtree(volume.nodes, a) == map[] && Subtree(volume.nodes, b) == Subtree(old(volume.nodes), a)
      ensures r.Ok? ==> forall q :: q in old(volume.nodes) && !(a <= q) && !(b <= q) ==>
                q in volume.nodes && volume.nodes[q] == old(volume.nodes)[q]
      ensures r.Ok? ==> forall q :: q in volume.nodes && q !in old(volume.nodes) ==> b <= q || q < b
      ensures r.Err? && b in old(volume.nodes) && overwrite && b == [] ==>
                r == Err(Unclassified("EBUSY")) && volume.nodes == old(volume.nodes)
      ensures r.Err? && !(b in old(volume.nodes) && (b == [] || !overwrite)) ==>
                var fs1 := Cleared(old(volume.nodes), b);
                if Dirname(b) !in fs1 && !PathClear(fs1, Dirname(b)) then
                  r == Err(Unclassified("ENOTDIR")) && volume.nodes == old(volume.nodes)
                else
                  var fs2 := Parented(fs1, b);
                  volume.nodes == fs2 && r == Err(FileUtils.Rename(fs2, a, b).error)
    {
      RenameRunSucceeds(volume.nodes, a, b, overwrite);
      RenameRunFails(volume.nodes, a, b, overwrite);
      var present := Exists(volume.nodes, b).value;
      if present {
        if !overwrite {
          return Err(FileExists);
        }
        PresentNotBelowFile(volume.nodes, b);
        var rm := Rmrf(volume.nodes, b);
        if rm.Err? {
          return Err(rm.error);
        }
        volume.nodes := rm.value;
      }
      var parentExists := Exists(volume.nodes, Dirname(b)).value;
      if !parentExists {
        var m := Mkdir(volume.nodes, Dirname(b));
        if m.Err? {
          return Err(m.error);
        }
        volume.nodes := m.value;
      }
      var mv := FileUtils.Rename(volume.nodes, a, b);
      if mv.Err? {
        return Err(mv.error);
      }
      volume.nodes := mv.value;
      return Ok(());
    }

    /** `getChildren(element)`: an element's reading in listing order; for the root, the reading
        of the parent of the first `file` workspace folder, directories first and names in
        collation order; nothing without such a folder. */
    method GetChildren(element: Option<Entry>, folders: Option<seq<WorkspaceFolder>>, listing: seq<string>, le: (string, string) -> bool)
      returns (r: Result<seq<Entry>, FsError>)
      requires TotalPreorder(le)
      requires RequestedDir(element, folders).Some? ==> ListingFits(volume.nodes, RequestedDir(element, folders).value, listing)
      ensures RequestedDir(element, folders).None? ==> r == Ok([])
      ensures element.Some? ==>
                var c := Children(volume.nodes, element.value.uri, listing);
                r == if c.Ok? then Ok(Place(element.value.uri, c.value)) else Err(c.error)
      ensures element.None? && RequestedDir(element, folders).Some? ==>
                var dir := RequestedDir(element, folders).value;
                var c := Children(volume.nodes, dir, listing);
                && (r.Ok? <==> c.Ok?)
                && (c.Err? ==> r == Err(c.error))
                && (r.Ok? ==> var s := InsertionSort(c.value, le);
                              && r.value == Place(dir, s)
                              && Sorted(s, le) && multiset(s) == multiset(c.value)
                              && forall y :: TiesWith(s, y, le) == TiesWith(c.value, y, le))
    {
      if element.Some? {
        var children := ReadDirectory(element.value.uri, false, listing);
        if children.Err? {
          return Err(children.error);
        }
        return Ok(Place(element.value.uri, children.value));
      }
      var folder := if folders.Some? then FirstFileFolder(folders.value) else None;
      if folder.Some? {
        var children := ReadDirectory(folder.value.path, true, listing);
        if children.Err? {
          return Err(children.error);
        }
        var rows := new (string, FileType)[|children.value|](k requires 0 <= k < |children.value| => children.value[k]);
        assert rows[..] == children.value;
        SortChildren(rows, le);
        return Ok(Place(ListedDir(folder.value.path, true), rows[..]));
      }
      return Ok([]);
    }
  }

  /** The disk once `_rename` has removed an existing destination; rimraf refuses the root. */
  ghost function Cleared(fs: Fs, b: Path): (c: Fs)
    requires WellFormed(fs)
    ensures WellFormed(c)
    ensures b in fs && b != [] ==> forall q :: q in c <==> q in fs && !(b <= q)
    ensures b in fs && b != [] ==> forall q :: q in c ==> c[q] == fs[q]
    ensures !(b in fs && b != []) ==> c == fs
  {
    if b in fs && b != [] then RemoveTreeWellFormed(fs, b); RemoveTree(fs, b) else fs
  }

  /** The disk once `_rename` has created the destination's missing parent, when it can. */
  ghost function Parented(fs: Fs, b: Path): (p: Fs)
    requires WellFormed(fs)
    ensures WellFormed(p) && Extends(fs, p)
    ensures Dirname(b) in fs || PathClear(fs, Dirname(b)) ==> Dirname(b) in p
    ensures forall q :: q in p && q !in fs ==> q <= Dirname(b)
  {
    if Dirname(b) !in fs && PathClear(fs, Dirname(b)) then Mkdirp(fs, Dirname(b)).value else fs
  }

  /** What `_rename` returns and leaves on the disk: an existing destination is refused without
      `overwrite` and otherwise removed; a missing parent of the destination is created; then the
      host moves the node. A failing step keeps what the earlier steps did. */
  ghost function RenameRun(fs: Fs, a: Path, b: Path, overwrite: bool): (res: (Result<(), FsError>, Fs))
    requires WellFormed(fs)
    ensures WellFormed(res.1)
  {
    if b in fs && !overwrite then (Err(FileExists), fs)
    else if b in fs && b == [] then (Err(Unclassified("EBUSY")), fs)
    else
      var fs1 := Cleared(fs, b);
      if Dirname(b) !in fs1 && !PathClear(fs1, Dirname(b)) then (Err(Unclassified("ENOTDIR")), fs1)
      else
        var fs2 := Parented(fs1, b);
        var mv := FileUtils.Rename(fs2, a, b);
        if mv.Ok? then (Ok(()), mv.value) else (Err(mv.error), fs2)
  }

  /** A rename succeeds iff the source exists, neither location lies inside the other, and the
      destination may be overwritten or its parent path is clear; the source's subtree then
      sits at the destination and nothing outside both changes. */
  lemma RenameRunSucceeds(fs: Fs, a: Path, b: Path, overwrite: bool)
    requires WellFormed(fs)
    ensures var (r, fs') := RenameRun(fs, a, b, overwrite);
            && (r.Ok? <==> a in fs && !(a <= b) && !(b <= a) && if b in fs then overwrite else PathClear(fs, Dirname(b)))
            && (r.Ok? ==> Subtree(fs', a) == map[] && Subtree(fs', b) == Subtree(fs, a))
            && (r.Ok? ==> forall q :: q in fs && !(a <= q) && !(b <= q) ==> q in fs' && fs'[q] == fs[q])
            && (r.Ok? ==> forall q :: q in fs' && q !in fs ==> b <= q || q < b)
  {
    if !(b in fs && (b == [] || !overwrite)) {
      var fs1 := Cleared(fs, b);
      if b in fs {
        PresentNotBelowFile(fs, b);
        assert fs1 == RemoveTree(fs, b);
      }
      if Dirname(b) !in fs1 && !PathClear(fs1, Dirname(b)) {
        RenameMkdirFailed(fs, fs1, a, b, overwrite);
      } else {
        var fs2 := Parented(fs1, b);
        if Dirname(b) in fs1 {
          assert fs2 == fs1;
        }
        RenameSteps(fs, fs1, fs2, a, b, overwrite, FileUtils.Rename(fs2, a, b).Ok?);
      }
    } else if b in fs && overwrite {
      assert b <= a;
    }
  }

  /** A failed rename other than a refused overwrite keeps the removal of the destination and the
      creation of its parent; only a failed parent creation leaves the disk as it was. */
  lemma RenameRunFails(fs: Fs, a: Path, b: Path, overwrite: bool)
    requires WellFormed(fs)
    ensures var (r, fs') := RenameRun(fs, a, b, overwrite);
            && (b in fs && !overwrite ==> r == Err(FileExists) && fs' == fs)
            && (r.Err? && b in fs && overwrite && b == [] ==> r == Err(Unclassified("EBUSY")) && fs' == fs)
            && (r.Err? && !(b in fs && (b == [] || !overwrite)) ==>
                  var fs1 := Cleared(fs, b);
                  if Dirname(b) !in fs1 && !PathClear(fs1, Dirname(b)) then
                    r == Err(Unclassified("ENOTDIR")) && fs' == fs
                  else
                    var fs2 := Parented(fs1, b);
                    fs' == fs2 && r == Err(FileUtils.Rename(fs2, a, b).error))
  {
    if b in fs && b != [] {
      assert Dirname(b) in Cleared(fs, b) by {
        assert !(b <= Dirname(b));
      }
    }
  }

  /** Renaming a node onto itself with `overwrite` loses it: the destination, which is the
      source, is removed first, so the host rename then finds no source. */
  lemma SelfRenameLoses(fs: Fs, x: Path)
    requires WellFormed(fs) && x in fs && x != []
    ensures RenameRun(fs, x, x, true).0 == Err(FileNotFound)
    ensures x !in RenameRun(fs, x, x, true).1
    ensures forall q :: q in RenameRun(fs, x, x, true).1 <==> q in fs && !(x <= q)
  {
    var c := Cleared(fs, x);
    assert Dirname(x) in fs && !(x <= Dirname(x));
    assert !BelowFile(c, x) by {
      forall k | 0 <= k < |x| && x[..k] in c
        ensures !c[x[..k]].File?
      {
        AncestorsExist(fs, x, k);
      }
    }
  }

  /** When creating the destination's parent fails, nothing was removed before. */
  lemma RenameMkdirFailed(fs0: Fs, fs1: Fs, a: Path, b: Path, overwrite: bool)
    requires WellFormed(fs0) && WellFormed(fs1)
    requires b in fs0 ==> overwrite && b != [] && fs1 == RemoveTree(fs0, b)
    requires b !in fs0 ==> fs1 == fs0
    requires Dirname(b) !in fs1 && !PathClear(fs1, Dirname(b))
    ensures b !in fs0 && !PathClear(fs0, Dirname(b))
  {
  }

  /** Two prefixes of one location are prefixes of each other. */
  lemma PrefixesComparable(a: Path, b: Path, q: Path)
    requires a <= q && b <= q
    ensures a <= b || b <= a
  {
    if |a| <= |b| {
      assert a == q[..|a|] == b[..|a|];
    } else {
      assert b == q[..|b|] == a[..|b|];
    }
  }

  /** Two file systems that agree at and below `a` have the same subtree there. */
  lemma SubtreeAgrees(f: Fs, g: Fs, a: Path)
    requires forall q :: a <= q ==> (q in f <==> q in g) && (q in f ==> f[q] == g[q])
    ensures Subtree(f, a) == Subtree(g, a)
  {
    forall s
      ensures s in Subtree(f, a) <==> s in Subtree(g, a)
      ensures s in Subtree(f, a) ==> Subtree(f, a)[s] == Subtree(g, a)[s]
    {
      SubtreeAt(f, a, s);
      SubtreeAt(g, a, s);
    }
  }

  /** The state just before the host rename: the destination is free, and the source's subtree
      and everything outside both subtrees are as they were at the start. */
  lemma RenamePrepared(fs0: Fs, fs1: Fs, fs2: Fs, a: Path, b: Path, overwrite: bool)
    requires WellFormed(fs0) && WellFormed(fs1) && WellFormed(fs2)
    requires b in fs0 ==> overwrite && b != [] && fs1 == RemoveTree(fs0, b)
    requires b !in fs0 ==> fs1 == fs0
    requires Dirname(b) in fs1 ==> fs2 == fs1
    requires Dirname(b) !in fs1 ==> PathClear(fs1, Dirname(b)) && fs2 == Mkdirp(fs1, Dirname(b)).value
    ensures b !in fs2
    ensures IsDir(fs2, Dirname(b)) <==> (b in fs0 || PathClear(fs0, Dirname(b)))
    ensures (a in fs2 && !(a <= b)) <==> (a in fs0 && !(a <= b) && !(b <= a))
    ensures forall q :: q in fs0 && !(b <= q) ==> q in fs2 && fs2[q] == fs0[q]
    ensures forall q :: q in fs2 && q !in fs0 ==> q < b
  {
    assert !(b <= Dirname(b));
    if b in fs0 {
      assert Dirname(b) in fs0;
      PathClearOfExisting(fs1, Dirname(b));
    } else {
      forall q | q in fs0
        ensures !(b <= q)
      {
        NothingBelowAbsent(fs0, b, q);
      }
      if Dirname(b) in fs0 {
        PathClearOfExisting(fs0, Dirname(b));
      }
    }
  }

  /** The outcome of the host rename, in terms of the state before `_rename` began. */
  lemma RenameSteps(fs0: Fs, fs1: Fs, fs2: Fs, a: Path, b: Path, overwrite: bool, ok: bool)
    requires WellFormed(fs0) && WellFormed(fs1) && WellFormed(fs2)
    requires b in fs0 ==> overwrite && b != [] && fs1 == RemoveTree(fs0, b)
    requires b !in fs0 ==> fs1 == fs0
    requires Dirname(b) in fs1 ==> fs2 == fs1
    requires Dirname(b) !in fs1 ==> PathClear(fs1, Dirname(b)) && fs2 == Mkdirp(fs1, Dirname(b)).value
    requires ok <==> FileUtils.Rename(fs2, a, b).Ok?
    ensures ok <==>
              && a in fs0 && !(a <= b) && !(b <= a)
              && if b in fs0 then overwrite else PathClear(fs0, Dirname(b))
    ensures ok ==>
              var fs3 := FileUtils.Rename(fs2, a, b).value;
              && Subtree(fs3, a) == map[] && Subtree(fs3, b) == Subtree(fs0, a)
              && (forall q :: q in fs0 && !(a <= q) && !(b <= q) ==> q in fs3 && fs3[q] == fs0[q])
              && (forall q :: q in fs3 && q !in fs0 ==> b <= q || q < b)
  {
    RenamePrepared(fs0, fs1, fs2, a, b, overwrite);
    if ok {
      var fs3 := Move(fs2, a, b);
      assert b != [];
      MoveSpec(fs2, a, b);
      forall q | a <= q
        ensures (q in fs2 <==> q in fs0) && (q in fs2 ==> fs2[q] == fs0[q])
      {
        if b <= q {
          PrefixesComparable(a, b, q);
        }
      }
      SubtreeAgrees(fs2, fs0, a);
    }
  }
}
