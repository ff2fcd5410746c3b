/** The webview panels of the extension (src/webview/webview-panel.ts): a registry holding at
    most one panel per page file, create-or-reveal, dispose with its subscriptions released in
    reverse order, the page rendering that fills `{{token}}` placeholders line by line, and the
    script nonce. */
module WebviewPanel {
  import opened Outcomes
  import opened Paths
  import opened Disk
  import opened FileUtils
  import opened TreeProvider
  import opened WebviewMessage

  // ---------------------------------------------------------------------------------------------
  // View type

  /** `fileName.lastIndexOf('.')`: -1 when there is no dot. */
  function LastDot(s: string): (k: int)
    ensures -1 <= k < |s|
    ensures k >= 0 ==> s[k] == '.'
    ensures forall j :: k < j < |s| ==> s[j] != '.'
  {
    if s == "" then -1
    else if s[|s| - 1] == '.' then |s| - 1
    else LastDot(s[..|s| - 1])
  }

  /** The panel's view type: the file name up to its last dot, then "_panel"; `substring(0, -1)`
      is empty, so a name without a dot gives "_panel" alone. */
  function ViewType(fileName: string): (v: string)
    ensures '.' !in fileName ==> v == "_panel"
    ensures forall k :: 0 <= k < |fileName| && fileName[k] == '.' && '.' !in fileName[k + 1..] ==>
              v == fileName[..k] + "_panel"
  {
    var k := LastDot(fileName);
    (if k < 0 then "" else fileName[..k]) + "_panel"
  }

  // ---------------------------------------------------------------------------------------------
  // Nonce

  /** The k-th character of "ABCDEFGHIJKLMNOPQRSTUVWXYZabcdefghijklmnopqrstuvwxyz0123456789". */
  function AlphabetAt(k: nat): char
    requires k < 62
  {
    if k < 26 then ('A' as int + k) as char
    else if k < 52 then ('a' as int + (k - 26)) as char
    else ('0' as int + (k - 52)) as char
  }

  /** The characters `getNonce` draws from: upper-case letters, lower-case letters, digits. */
  const Alphabet: string := seq(62, k requires 0 <= k < 62 => AlphabetAt(k))
  const NonceLength := 32

  predicate Alphanumeric(c: char) {
    'A' <= c <= 'Z' || 'a' <= c <= 'z' || '0' <= c <= '9'
  }

  /** The alphabet has 62 characters, all alphanumeric, and holds every alphanumeric character. */
  lemma AlphabetShape()
    ensures |Alphabet| == 62
    ensures forall k :: 0 <= k < |Alphabet| ==> Alphanumeric(Alphabet[k])
    ensures forall c :: Alphanumeric(c) ==> c in Alphabet
  {
    forall c | Alphanumeric(c)
      ensures c in Alphabet
    {
      var k := if 'A' <= c <= 'Z' then c as int - 'A' as int
               else if 'a' <= c <= 'z' then 26 + c as int - 'a' as int
               else 52 + c as int - '0' as int;
      assert Alphabet[k] == c;
    }
  }

  /** `getNonce()`: `draws` are the 32 values of `Math.floor(Math.random() * 62)`. */
  method GetNonce(draws: seq<nat>) returns (text: string)
    requires |draws| == NonceLength && forall i :: 0 <= i < |draws| ==> draws[i] < |Alphabet|
    ensures |text| == NonceLength
    ensures forall i :: 0 <= i < NonceLength ==> text[i] == Alphabet[draws[i]] && Alphanumeric(text[i])
  {
    AlphabetShape();
    text := "";
    for i := 0 to NonceLength
      invariant |text| == i
      invariant forall k :: 0 <= k < i ==> text[k] == Alphabet[draws[k]]
    {
      text := text + [Alphabet[draws[i]]];
    }
  }

  // ---------------------------------------------------------------------------------------------
  // Placeholder substitution

  predicate OccursAt(s: string, i: nat, pat: string) {
    i + |pat| <= |s| && s[i..i + |pat|] == pat
  }

  /** `s.indexOf(pat, from)`, as an option. */
  function IndexOf(s: string, pat: string, from: nat): (r: Option<nat>)
    ensures r.Some? ==> from <= r.value && OccursAt(s, r.value, pat)
    ensures r.Some? ==> forall j :: from <= j < r.value ==> !OccursAt(s, j, pat)
    ensures r.None? ==> forall j :: from <= j ==> !OccursAt(s, j, pat)
    decreases |s| - from
  {
    if from + |pat| > |s| then None
    else if OccursAt(s, from, pat) then Some(from)
    else IndexOf(s, pat, from + 1)
  }

  /** `s.replace(pat, rep)` with a string pattern: the leftmost occurrence only. */
  function ReplaceFirst(s: string, pat: string, rep: string): (r: string)
    ensures IndexOf(s, pat, 0).None? ==> r == s
    ensures IndexOf(s, pat, 0).Some? ==>
              var i := IndexOf(s, pat, 0).value;
              && |r| == |s| - |pat| + |rep|
              && r[..i] == s[..i] && r[i..i + |rep|] == rep && r[i + |rep|..] == s[i + |pat|..]
  {
    match IndexOf(s, pat, 0)
    case None => s
    case Some(i) => s[..i] + rep + s[i + |pat|..]
  }

  /** `s.replace(new RegExp(pat, 'g'), rep)` for a pattern without special characters: every
      occurrence, scanning left to right without overlaps. */
  function ReplaceAll(s: string, pat: string, rep: string): (r: string)
    requires pat != ""
    ensures IndexOf(s, pat, 0).None? ==> r == s
    ensures IndexOf(s, pat, 0).Some? ==>
              var i := IndexOf(s, pat, 0).value;
              i + |rep| <= |r| && r[..i] == s[..i] && r[i..i + |rep|] == rep
    decreases |s|
  {
    match IndexOf(s, pat, 0)
    case None => s
    case Some(i) => s[..i] + rep + ReplaceAll(s[i + |pat|..], pat, rep)
  }

  lemma OccursShift(s: string, pat: string, d: nat, j: nat)
    requires d <= |s|
    ensures OccursAt(s[d..], j, pat) <==> OccursAt(s, d + j, pat)
  {
    if d + j + |pat| <= |s| {
      assert s[d..][j..j + |pat|] == s[d + j..d + j + |pat|];
    }
  }

  /** An occurrence at `j` survives replacing `s[i..i + |pat|]` by `rep`, shifted accordingly. */
  lemma OccursAfter(s: string, pat: string, rep: string, i: nat, j: nat)
    requires i + |pat| <= j && OccursAt(s, j, pat)
    ensures OccursAt(s[..i] + rep + s[i + |pat|..], j - |pat| + |rep|, pat)
  {
    var r := s[..i] + rep + s[i + |pat|..];
    var j' := j - |pat| + |rep|;
    assert r[j'..j' + |pat|] == s[j..j + |pat|];
  }

  /** Replacing the first occurrence keeps any later occurrence, shifted by the change in length. */
  lemma ReplaceFirstKeepsLater(s: string, pat: string, rep: string, j: nat)
    requires IndexOf(s, pat, 0).Some? && IndexOf(s, pat, 0).value + |pat| <= j && OccursAt(s, j, pat)
    ensures OccursAt(ReplaceFirst(s, pat, rep), j - |pat| + |rep|, pat)
  {
    var i := IndexOf(s, pat, 0).value;
    OccursAfter(s, pat, rep, i, j);
  }

  /** With a single occurrence the two replacements agree. */
  lemma {:induction false} ReplaceAllSingle(s: string, pat: string, rep: string)
    requires pat != "" && IndexOf(s, pat, 0).Some?
    requires IndexOf(s, pat, IndexOf(s, pat, 0).value + |pat|).None?
    ensures ReplaceAll(s, pat, rep) == ReplaceFirst(s, pat, rep)
  {
    var i := IndexOf(s, pat, 0).value;
    var rest := s[i + |pat|..];
    forall j
      ensures !OccursAt(rest, j, pat)
    {
      OccursShift(s, pat, i + |pat|, j);
    }
    assert IndexOf(rest, pat, 0).None?;
  }

  /** The placeholder text of a token. */
  function Placeholder(token: string): (p: string)
    ensures |p| == |token| + 4 && p[..2] == "{{" && p[|p| - 2..] == "}}"
  {
    "{{" + token + "}}"
  }

  const CspToken := "webview.cspSource"
  const NonceToken := "nonce"

  /** The directory the pages and their assets are read from, below the extension. */
  const WebviewDir: Path := ["public", "webview"]

  /** Where asset `name` is read from. */
  function AssetPath(extensionPath: Path, name: string): (p: Path)
    ensures extensionPath + WebviewDir <= p
  {
    extensionPath + WebviewDir + Split(name)
  }

  /** The host's part in rendering: the webview's `cspSource`, `asWebviewUri`, the token the
      placeholder regular expression finds in a line (if it matches), and the random draws
      `Math.floor(Math.random() * 62)`, by line and by character. */
  datatype Host = Host(
    cspSource: string,
    asWebviewUri: Path -> string,
    extract: string -> Option<string>,
    draw: (nat, nat) -> nat)

  ghost predicate HostOk(h: Host) {
    forall i, j :: h.draw(i, j) < |Alphabet|
  }

  /** The draws for the nonce of line `i`. */
  function NonceDraws(h: Host, i: nat): (d: seq<nat>)
    requires HostOk(h)
    ensures |d| == NonceLength && forall k :: 0 <= k < |d| ==> d[k] < |Alphabet| && d[k] == h.draw(i, k)
  {
    seq(NonceLength, k requires 0 <= k < NonceLength => h.draw(i, k))
  }

  /** The nonce line `i` receives. */
  function NonceOf(h: Host, i: nat): (n: string)
    requires HostOk(h)
    ensures |n| == NonceLength && forall k :: 0 <= k < NonceLength ==> Alphanumeric(n[k])
  {
    AlphabetShape();
    seq(NonceLength, k requires 0 <= k < NonceLength => Alphabet[h.draw(i, k)])
  }

  /** Line `i` of the page after its placeholder is filled: the CSP source at every occurrence,
      a fresh nonce or an asset's webview URI at the first occurrence only. */
  function RenderLine(extensionPath: Path, h: Host, line: string, i: nat): (r: string)
    requires HostOk(h)
    ensures h.extract(line).None? ==> r == line
    ensures h.extract(line).Some? && IndexOf(line, Placeholder(h.extract(line).value), 0).None? ==> r == line
    ensures h.extract(line) == Some(CspToken) ==> r == ReplaceAll(line, Placeholder(CspToken), h.cspSource)
    ensures h.extract(line) == Some(NonceToken) ==> r == ReplaceFirst(line, Placeholder(NonceToken), NonceOf(h, i))
    ensures h.extract(line).Some? && h.extract(line).value != CspToken && h.extract(line).value != NonceToken ==>
              var name := h.extract(line).value;
              r == ReplaceFirst(line, Placeholder(name), h.asWebviewUri(AssetPath(extensionPath, name)))
  {
    match h.extract(line)
    case None => line
    case Some(name) =>
      if name == CspToken then ReplaceAll(line, Placeholder(CspToken), h.cspSource)
      else if name == NonceToken then ReplaceFirst(line, Placeholder(NonceToken), NonceOf(h, i))
      else ReplaceFirst(line, Placeholder(name), h.asWebviewUri(AssetPath(extensionPath, name)))
  }

  /** `contents.join('')`. */
  function Concat(lines: seq<string>): (s: string)
    ensures |s| == TotalLength(lines)
  {
    if lines == [] then "" else lines[0] + Concat(lines[1..])
  }

  function TotalLength(lines: seq<string>): nat {
    if lines == [] then 0 else |lines[0]| + TotalLength(lines[1..])
  }

  /** Joining with '' puts nothing between lines: it distributes over concatenation and adds no
      character of its own. */
  lemma {:induction false} ConcatAppend(a: seq<string>, b: seq<string>)
    ensures Concat(a + b) == Concat(a) + Concat(b)
  {
    if a != [] {
      assert (a + b)[1..] == a[1..] + b;
      ConcatAppend(a[1..], b);
    } else {
      assert a + b == b;
    }
  }

  /** The page for `lines`: each line rendered, joined with nothing between. A page without
      placeholders is its lines run together. */
  function Page(extensionPath: Path, h: Host, lines: seq<string>): (p: string)
    requires HostOk(h)
    ensures (forall i :: 0 <= i < |lines| ==> h.extract(lines[i]).None?) ==> p == Concat(lines)
  {
    var rendered := seq(|lines|, i requires 0 <= i < |lines| => RenderLine(extensionPath, h, lines[i], i));
    assert (forall i :: 0 <= i < |lines| ==> h.extract(lines[i]).None?) ==> rendered == lines;
    Concat(rendered)
  }

  /** The `forEach` of `getHtmlForWebview`, rewriting `contents[ind]` in place. */
  method RenderLines(contents: array<string>, extensionPath: Path, h: Host)
    requires HostOk(h)
    modifies contents
    ensures forall i :: 0 <= i < contents.Length ==> contents[i] == RenderLine(extensionPath, h, old(contents[i]), i)
  {
    for i := 0 to contents.Length
      invariant forall k :: 0 <= k < i ==> contents[k] == RenderLine(extensionPath, h, old(contents[k]), k)
      invariant forall k :: i <= k < contents.Length ==> contents[k] == old(contents[k])
    {
      var line := contents[i];
      var token := h.extract(line);
      var rendered := line;
      if token.Some? {
        var name := token.value;
        if name == CspToken {
          rendered := ReplaceAll(line, Placeholder(CspToken), h.cspSource);
        } else if name == NonceToken {
          var nonce := GetNonce(NonceDraws(h, i));
          assert nonce == NonceOf(h, i);
          rendered := ReplaceFirst(line, Placeholder(NonceToken), nonce);
        } else {
          var uri := h.asWebviewUri(AssetPath(extensionPath, name));
          rendered := ReplaceFirst(line, Placeholder(name), uri);
        }
      }
      assert rendered == RenderLine(extensionPath, h, line, i);
      contents[i] := rendered;
    }
  }

  // ---------------------------------------------------------------------------------------------
  // Panels and their registry

  /** The three subscriptions a panel registers, in the order it registers them. */
  datatype Subscription = DisposeListener | ViewStateListener | MessageListener

  function Reverse<T>(s: seq<T>): (r: seq<T>)
    ensures |r| == |s| && forall i :: 0 <= i < |s| ==> r[i] == s[|s| - 1 - i]
  {
    if s == [] then [] else Reverse(s[1..]) + [s[0]]
  }

  class Panel {
    const fileName: string
    const viewType: string
    const extensionPath: Path
    /** The host webview the panel shows. */
    const webview: nat
    const router: MessageRouter
    /** `webview.html`. */
    var html: string
    /** `_disposables`. */
    var disposables: seq<Subscription>
    /** Every subscription disposed, in the order it was disposed. */
    var released: seq<Subscription>

    constructor(fileName: string, extensionPath: Path, webview: nat, router: MessageRouter)
      ensures this.fileName == fileName && viewType == ViewType(fileName)
      ensures this.extensionPath == extensionPath && this.webview == webview && this.router == router
      ensures html == "" && released == []
      ensures disposables == [DisposeListener, ViewStateListener, MessageListener]
    {
      this.fileName := fileName;
      viewType := ViewType(fileName);
      this.extensionPath := extensionPath;
      this.webview := webview;
      this.router := router;
      html := "";
      disposables := [DisposeListener, ViewStateListener, MessageListener];
      released := [];
    }

    /** The `while`/`pop` loop of `dispose()`: disposes the subscriptions, last registered
        first, until none is left. */
    method ReleaseDisposables()
      modifies this
      ensures disposables == [] && released == old(released) + Reverse(old(disposables))
      ensures html == old(html)
    {
      ghost var pending := disposables;
      while |disposables| > 0
        invariant disposables == pending[..|disposables|]
        invariant released == old(released) + Reverse(pending[|disposables|..])
        invariant html == old(html)
        decreases |disposables|
      {
        var last := disposables[|disposables| - 1];
        assert pending[|disposables| - 1..] == [last] + pending[|disposables|..];
        disposables := disposables[..|disposables| - 1];
        released := released + [last];
      }
    }

    /** `update(fileName)`: reads the page line by line and sets the rendered page; a page that
        cannot be read leaves the html as it was. */
    method Update(fs: Fs, h: Host) returns (c: Completion)
      requires HostOk(h)
      modifies this
      ensures var page := extensionPath + WebviewDir + Split(fileName);
              && (page in fs && fs[page].File? ==>
                    c == Normal && html == Page(extensionPath, h, Lines(Text(fs[page].content))))
              && (!(page in fs && fs[page].File?) ==> c.Threw? && html == old(html))
      ensures disposables == old(disposables) && released == old(released)
    {
      var page := extensionPath + WebviewDir + Split(fileName);
      var calls;
      calls, c := ReadFileline(fs, page);
      if c.Threw? {
        return;
      }
      var lines := calls[0];
      var contents := new string[|lines|](k requires 0 <= k < |lines| => lines[k]);
      assert contents[..] == lines;
      RenderLines(contents, extensionPath, h);
      assert contents[..] == seq(|lines|, i requires 0 <= i < |lines| => RenderLine(extensionPath, h, lines[i], i));
      html := Concat(contents[..]);
    }
  }

  /** The registry without the panels showing `fileName`, the others in order. */
  function Without(panels: seq<Panel>, fileName: string): (r: seq<Panel>)
    ensures |r| <= |panels|
    ensures forall i :: 0 <= i < |r| ==> r[i].fileName != fileName
    ensures (forall i :: 0 <= i < |panels| ==> panels[i].fileName != fileName) ==> r == panels
  {
    if panels == [] then []
    else (if panels[0].fileName == fileName then [] else [panels[0]]) + Without(panels[1..], fileName)
  }

  /** No two panels show the same file. */
  ghost predicate UniqueNames(panels: seq<Panel>) {
    forall i, j :: 0 <= i < j < |panels| ==> panels[i].fileName != panels[j].fileName
  }

  /** What is left is exactly the panels that show another file. */
  lemma {:induction false} WithoutMembers(panels: seq<Panel>, fileName: string)
    ensures forall i :: 0 <= i < |Without(panels, fileName)| ==>
              Without(panels, fileName)[i] in panels && Without(panels, fileName)[i].fileName != fileName
    ensures forall i :: 0 <= i < |panels| && panels[i].fileName != fileName ==> panels[i] in Without(panels, fileName)
  {
    if panels != [] {
      WithoutMembers(panels[1..], fileName);
      assert forall i :: 1 <= i < |panels| ==> panels[i] == panels[1..][i - 1];
    }
  }

  lemma {:induction false} WithoutAbsent(panels: seq<Panel>, fileName: string)
    requires forall i :: 0 <= i < |panels| ==> panels[i].fileName != fileName
    ensures Without(panels, fileName) == panels
  {
    if panels != [] {
      assert forall i :: 0 <= i < |panels[1..]| ==> panels[1..][i] == panels[i + 1];
      WithoutAbsent(panels[1..], fileName);
    }
  }

  /** With unique names, removing a name removes exactly the one panel showing it. */
  lemma {:induction false} WithoutUnique(panels: seq<Panel>, fileName: string, m: nat)
    requires UniqueNames(panels) && m < |panels| && panels[m].fileName == fileName
    ensures Without(panels, fileName) == panels[..m] + panels[m + 1..]
  {
    var tail := panels[1..];
    assert forall i :: 0 <= i < |tail| ==> tail[i] == panels[i + 1];
    if m == 0 {
      WithoutAbsent(tail, fileName);
    } else {
      assert panels[0].fileName != fileName;
      assert UniqueNames(tail);
      WithoutUnique(tail, fileName, m - 1);
      assert tail[..m - 1] + tail[m..] == panels[1..m] + panels[m + 1..];
      assert panels[..m] == [panels[0]] + panels[1..m];
    }
  }

  /** Splicing one panel out keeps the names unique. */
  lemma SplicedUnique(panels: seq<Panel>, m: nat)
    requires UniqueNames(panels) && m < |panels|
    ensures UniqueNames(panels[..m] + panels[m + 1..])
  {
    var r := panels[..m] + panels[m + 1..];
    assert forall k :: 0 <= k < |r| ==> r[k] == panels[if k < m then k else k + 1];
  }

  /** Once the panel at `m` is spliced out, no later position shows its file again. */
  lemma SkipsRemoved(panels: seq<Panel>, fileName: string, m: nat, ind: nat)
    requires UniqueNames(panels) && m < ind < |panels| - 1 && panels[m].fileName == fileName
    ensures (panels[..m] + panels[m + 1..])[ind].fileName != fileName
  {
    assert (panels[..m] + panels[m + 1..])[ind] == panels[ind + 1];
  }

  /** The position of the first panel showing `fileName`, `|panels|` if none. */
  function FindIndex(panels: seq<Panel>, fileName: string): (k: nat)
    ensures k <= |panels|
    ensures forall j :: 0 <= j < k ==> panels[j].fileName != fileName
    ensures k < |panels| ==> panels[k].fileName == fileName
  {
    if panels == [] then 0
    else if panels[0].fileName == fileName then 0
    else 1 + FindIndex(panels[1..], fileName)
  }

  /** The router part of the panel constructor: the shared router, created on first use, is
      bound to the webview, registers its two handlers and announces the project. */
  method BindRouter(webview: nat, context: Path, slot: RouterSlot, folders: Option<seq<WorkspaceFolder>>, cfg: ConfigRead)
    returns (router: MessageRouter, c: Completion)
    modifies slot, slot.instance
    ensures slot.instance == router
    ensures old(slot.instance) != null ==> router == old(slot.instance)
    ensures router.params == Params(Some(webview), context)
    ensures router.handlers == InitTable(if old(slot.instance) == null then map[] else old(slot.instance.handlers))
    ensures router.shownErrors == (if old(slot.instance) == null then [] else old(slot.instance.shownErrors))
    ensures c == (if cfg.ReadThrew? then Threw(cfg.reason)
                  else if InitData(folders, cfg.config).Err? then Threw(NullAccess)
                  else Normal)
    ensures var before := if old(slot.instance) == null then [] else old(slot.instance.outbox);
            router.outbox == before + if c.Normal? then [Posted(webview, InitData(folders, cfg.config).value)] else []
  {
    router := slot.GetInstance(Params(Some(webview), context));
    router.InitListens();
    c := router.InitProjectInfo(folders, cfg);
  }

  /** The static `webviewPanels` list and the host effects on its panels. */
  class PanelRegistry {
    var panels: seq<Panel>
    /** The file names of the host panels opened by `createWebviewPanel`, oldest first. */
    var created: seq<string>
    /** The file names of the panels revealed again, oldest first. */
    var revealed: seq<string>
    /** The file names of the host panels closed, oldest first. */
    var closed: seq<string>

    ghost predicate Valid()
      reads this
    {
      UniqueNames(panels)
    }

    constructor()
      ensures panels == [] && created == [] && revealed == [] && closed == []
      ensures Valid()
    {
      panels := [];
      created := [];
      revealed := [];
      closed := [];
    }

    /** `hasOpenWeb(fileName)`: the first panel showing `fileName`. */
    function HasOpenWeb(fileName: string): (r: Option<Panel>)
      reads this
      ensures r.Some? ==> r.value in panels && r.value.fileName == fileName
      ensures r.None? <==> forall i :: 0 <= i < |panels| ==> panels[i].fileName != fileName
    {
      var k := FindIndex(panels, fileName);
      if k < |panels| then Some(panels[k]) else None
    }

    /** `createOrShow(extensionPath, title, fileName)`: reveals the panel showing `fileName`, or
        opens a new one on host webview `webview`, binding the shared router to it, and appends
        it. When announcing the project information throws, no panel is added. */
    method CreateOrShow(extensionPath: Path, fileName: string, webview: nat, context: Path, slot: RouterSlot,
                        fs: Fs, folders: Option<seq<WorkspaceFolder>>, cfg: ConfigRead, h: Host)
      returns (c: Completion)
      requires Valid() && HostOk(h)
      modifies this, slot, slot.instance
      ensures Valid()
      ensures old(HasOpenWeb(fileName)).Some? ==>
                c == Normal && panels == old(panels) && revealed == old(revealed) + [fileName]
      ensures old(HasOpenWeb(fileName)).None? && c.Normal? ==>
                && |panels| == |old(panels)| + 1 && panels[..|old(panels)|] == old(panels)
                && fresh(panels[|old(panels)|])
                && panels[|old(panels)|].fileName == fileName
                && panels[|old(panels)|].viewType == ViewType(fileName)
                && panels[|old(panels)|].webview == webview
                && panels[|old(panels)|].router == slot.instance
                && panels[|old(panels)|].disposables == [DisposeListener, ViewStateListener, MessageListener]
                && revealed == old(revealed)
      ensures old(HasOpenWeb(fileName)).None? && c.Threw? ==> panels == old(panels) && revealed == old(revealed)
      ensures closed == old(closed)
      // a host panel is opened before the router announces the project, so a throw leaves it
      // open but unregistered
      ensures created == old(created) + if old(HasOpenWeb(fileName)).None? then [fileName] else []
      // revealing an open panel leaves the router alone
      ensures old(HasOpenWeb(fileName)).Some? ==>
                slot.instance == old(slot.instance) && (slot.instance != null ==> unchanged(slot.instance))
      // otherwise the shared router is bound to the webview, listens, and announces the project
      ensures old(HasOpenWeb(fileName)).None? ==>
                && slot.instance != null
                && (old(slot.instance) != null ==> slot.instance == old(slot.instance))
                && slot.instance.params == Params(Some(webview), context)
                && slot.instance.handlers == InitTable(if old(slot.instance) == null then map[] else old(slot.instance.handlers))
                && slot.instance.shownErrors == (if old(slot.instance) == null then [] else old(slot.instance.shownErrors))
      ensures old(HasOpenWeb(fileName)).None? ==>
                var before := if old(slot.instance) == null then [] else old(slot.instance.outbox);
                && c == (if cfg.ReadThrew? then Threw(cfg.reason)
                         else if InitData(folders, cfg.config).Err? then Threw(NullAccess)
                         else Normal)
                && slot.instance.outbox == before + if c.Normal? then [Posted(webview, InitData(folders, cfg.config).value)] else []
      // the new panel shows the rendered page, or nothing when the page cannot be read
      ensures old(HasOpenWeb(fileName)).None? && c.Normal? ==>
                var page := extensionPath + WebviewDir + Split(fileName);
                && panels[|old(panels)|].extensionPath == extensionPath
                && panels[|old(panels)|].html ==
                     if page in fs && fs[page].File? then Page(extensionPath, h, Lines(Text(fs[page].content))) else ""
    {
      var open := HasOpenWeb(fileName);
      if open.Some? {
        revealed := revealed + [fileName];
        return Normal;
      }
      created := created + [fileName];
      var router;
      router, c := BindRouter(webview, context, slot, folders, cfg);
      if c.Threw? {
        return;
      }
      var panel := new Panel(fileName, extensionPath, webview, router);
      var _ := panel.Update(fs, h);
      panels := panels + [panel];
    }

    /** The `forEach`/`splice` pass of `dispose()`: closes the host panel of every registered
        panel showing `fileName` and removes it from the list. */
    method Unregister(fileName: string)
      requires Valid()
      modifies this
      ensures Valid()
      ensures panels == Without(old(panels), fileName)
      ensures closed == old(closed) + if old(HasOpenWeb(fileName)).Some? then [fileName] else []
      ensures revealed == old(revealed) && created == old(created)
    {
      ghost var before := panels;
      ghost var removed: Option<nat> := None;
      var n := |panels|;
      var ind := 0;
      while ind < n
        invariant 0 <= ind <= n == |before|
        invariant removed.None? ==>
                    && panels == before && closed == old(closed)
                    && forall j :: 0 <= j < ind ==> before[j].fileName != fileName
        invariant removed.Some? ==>
                    && removed.value < ind && before[removed.value].fileName == fileName
                    && panels == before[..removed.value] + before[removed.value + 1..]
                    && closed == old(closed) + [fileName]
        invariant revealed == old(revealed) && created == old(created)
      {
        if removed.Some? && ind < |panels| {
          SkipsRemoved(before, fileName, removed.value, ind);
        }
        if ind < |panels| && panels[ind].fileName == fileName {
          if removed.Some? {
            assert false;
          }
          closed := closed + [fileName];
          panels := panels[..ind] + panels[ind + 1..];
          removed := Some(ind);
        }
        ind := ind + 1;
      }
      if removed.Some? {
        WithoutUnique(before, fileName, removed.value);
        SplicedUnique(before, removed.value);
        WithoutMembers(before, fileName);
      } else {
        WithoutAbsent(before, fileName);
      }
    }

    /** `dispose()` of panel `p`: removes the registered panel showing `p`'s file, then
        disposes `p`'s subscriptions. */
    method Dispose(p: Panel)
      requires Valid()
      modifies this, p
      ensures Valid()
      ensures panels == Without(old(panels), p.fileName)
      ensures closed == old(closed) + if old(HasOpenWeb(p.fileName)).Some? then [p.fileName] else []
      ensures p.disposables == [] && p.released == old(p.released) + Reverse(old(p.disposables))
      ensures revealed == old(revealed) && created == old(created) && p.html == old(p.html)
    {
      Unregister(p.fileName);
      p.ReleaseDisposables();
    }
  }
}
