# GenerateCode extension core, modelled in Dafny

This project models the core of the GenerateCode editor extension:

- **The file explorer** (`src/files/file-system-tree-provider.ts`). A file-system provider that classifies change events and reads directories. It creates files and folders under the create/overwrite rules, deletes recursively or one node at a time, and renames with conflict handling. It is also a tree provider that orders the root listing (directories first, then names in collation order) and builds tree items with project-type icons.
- **The file helpers** (`src/files/file-utils.ts`). They translate host errno codes into the editor's file-system errors and wrap the host primitives. They also sniff the project type from `package.json`, keep only the sub-directories of a listing, and collect a file's lines.
- **The webview message router** (`src/webview/webview-message.ts`). It is a singleton that registers command handlers (first registration wins) and dispatches incoming commands. It posts the `init` message with the workspace path and project types, and answers `projectType` with the template folders of that type.
- **The webview panels** (`src/webview/webview-panel.ts`). A registry keeps at most one panel per page file and either reveals an existing panel or opens a new one. A page is rendered line by line: the `{{webview.cspSource}}`, `{{nonce}}` and `{{asset}}` placeholders are filled in, and the nonce is 32 random alphanumeric characters. Disposing a panel removes it from the registry and releases its subscriptions, last registered first.
- **Project scaffolding** (`src/generate/generate.core.ts`, `src/generate/angular.generate.ts`). The configuration is checked key by key. `mkdir` joins onto the storage path. The base project folders are created, and then the Angular folders.

The file system is a map from locations (sequences of path segments) to nodes, either a directory or a file holding bytes. The host primitives (`fs`, `mkdirp`, `rimraf`) are total functions on that map, and each reports its errno code on failure (module `Disk`). The disk that the provider and the generator share is one mutable `Volume` object.

Exceptions become a `Completion` (`Normal` or `Threw(reason)`), and a JavaScript `undefined` result becomes `None`. Host inputs that the code cannot see are parameters of the model:

- the order of a directory listing;
- the collation relation behind `localeCompare`;
- the random draws;
- the token that the placeholder regular expression extracts from a line;
- the webview's URIs;
- the parsed configuration.

Where the source and its description disagree, the model follows the source:

- `trigger` returns `undefined`, not `true`, after dispatching a command.
- The `excludes` option of `watch` is ignored.
- `verify()` never returns `true`, so `init()` always returns `false` and never creates folders.
- The nonce placeholder is replaced at its first occurrence only.
- The storage path is joined twice into the source folder and three times into each Angular folder.

## Model

| member | source | states |
|---|---|---|
| FileUtils.MassageError | src/files/file-utils.ts:16-34 | ENOENT, EISDIR and EEXIST map to their own error, and EPERM or the literal "EACCESS" to NoPermissions, each as an iff; any other code is passed on unchanged |
| FileUtils.MassageErrorRoundTrip | src/files/file-utils.ts:29-33 | translation is undone by `Errno` for every code except "EACCESS", which becomes "EPERM"; the real "EACCES" is not recognised |
| FileUtils.HandleResult | src/files/file-utils.ts:8-14 | a host error rejects with the translated error, and a result resolves with the value unchanged |
| FileUtils.NotFound | src/files/file-utils.ts:16-34 | the host's ENOENT becomes FileNotFound, while the ENOTDIR reported below a file is passed on unclassified |
| FileUtils.Exists | src/files/file-utils.ts:88-92 | never rejects, and resolves with whether the location exists |
| FileUtils.Stat | src/files/file-utils.ts:62-66 | resolves with the node iff it exists; otherwise FileNotFound for a missing location, or the raw ENOTDIR when a file lies above it |
| FileUtils.Readdir | src/files/file-utils.ts:56-60 | resolves with the host listing iff the location is a directory; a missing location gives FileNotFound for a missing location, or the raw ENOTDIR when a file lies above it; a file gives the raw ENOTDIR |
| FileUtils.Readfile | src/files/file-utils.ts:68-72 | resolves with the file's bytes iff the location is a file; a directory gives FileIsADirectory, and a missing location FileNotFound for a missing location, or the raw ENOTDIR when a file lies above it |
| FileUtils.Writefile | src/files/file-utils.ts:78-82 | succeeds iff the location is not a directory and its parent is one; the file then holds exactly the new content and nothing else changes; a directory gives FileIsADirectory, and a missing parent FileNotFound for a missing location, or the raw ENOTDIR when a file lies above it |
| FileUtils.Mkdir | src/files/file-utils.ts:104-108 | succeeds iff no prefix of the location is a file; afterwards the location is a directory, nothing old is changed, and every new node is an ancestor of the location or the location itself; EEXIST or ENOTDIR otherwise |
| FileUtils.Rmrf | src/files/file-utils.ts:98-102 | removes exactly the nodes at or below the location, and is not an error on a missing location; it fails with the raw ENOTDIR iff a file lies above the location, and on the root |
| FileUtils.Rename | src/files/file-utils.ts:110-114 | onto a free destination, succeeds iff the source exists, the destination's parent is a directory and the destination is not inside the source, and the subtree is then moved; a missing source, or else a missing destination parent, gives FileNotFound for a missing location, or the raw ENOTDIR when a file lies above it |
| FileUtils.Unlink | src/files/file-utils.ts:116-120 | succeeds iff the location is a file, which alone is removed; a directory gives FileIsADirectory, and a missing node FileNotFound for a missing location, or the raw ENOTDIR when a file lies above it |
| FileUtils.KeywordAtSpec | src/files/file-utils.ts:123 | the pattern matches at a position iff one of angular, nodejs, react or vue occurs there, ignoring case |
| FileUtils.FirstKeyword | src/files/file-utils.ts:128 | the first position at or after `from` marked as a match, with no mark before it; `None` only when no position from `from` on is marked |
| FileUtils.Sniff | src/files/file-utils.ts:128-133 | the result folds to one of the keywords, and is "nodejs" when the text has no match |
| FileUtils.SniffLeftmost | src/files/file-utils.ts:128-130 | when the text has a match, the result is its leftmost match as spelled in the text |
| FileUtils.IsProjectType | src/files/file-utils.ts:122-137 | nothing iff there is no `package.json`; a `package.json` that is a directory throws EISDIR; otherwise the sniffed type of its text |
| FileUtils.DirsOnly | src/files/file-utils.ts:159-165 | a name is kept iff it is in the listing and names a sub-directory |
| FileUtils.ForEachDir | src/files/file-utils.ts:151-168 | the "directory missing" message iff the path is absent, ENOTDIR iff it is a file, and otherwise the sub-directories in listing order |
| FileUtils.Lines | src/files/file-utils.ts:139-145 | no emitted line contains a line break |
| FileUtils.LinesTerminated | src/files/file-utils.ts:139-145 | splitting lines written out with "\n", "\r\n" or a lone "\r" gives the lines back, empty lines included; an unterminated last line is read too, and an empty remainder adds no line |
| FileUtils.ReadFileline | src/files/file-utils.ts:139-149 | the callback runs once, with every line of a file; for a path that is not a file the stream fails before any callback, with ENOENT or ENOTDIR for a missing path and EISDIR for a directory |
| Disk.Mkdirp | src/files/file-utils.ts:106 | creates the location and its missing ancestors iff no prefix is a file, keeping every existing node and the tree well formed |
| Disk.HostRimraf | src/files/file-utils.ts:100 | removes exactly the subtree at a non-root location, keeping the tree well formed; fails with ENOTDIR iff a file lies above the location |
| Disk.HostRename | src/files/file-utils.ts:112 | onto a free destination, succeeds iff the source exists, the destination's parent is a directory and the destination is not inside the source, and then moves the subtree; it always keeps the tree well formed; a missing source or destination parent gives ENOTDIR when a file lies above it and ENOENT otherwise |
| Disk.MoveSpec | src/files/file-utils.ts:112 | a moved subtree leaves the source empty and sits at the destination unchanged, and nothing outside both changes |
| Disk.HostMkdir | src/generate/generate.core.ts:47 | creates one directory iff it is absent and its parent is a directory; otherwise EEXIST for an existing one, ENOTDIR when a file lies above it, and ENOENT |
| Disk.HostWriteFile | src/files/file-utils.ts:80 | writes the file iff the location is not a directory and its parent is one; otherwise EISDIR, or ENOTDIR when a file lies above it, or ENOENT |
| Disk.HostUnlink | src/files/file-utils.ts:118 | removes the single file at the location iff it is a file; a directory gives EISDIR, and a missing location ENOTDIR when a file lies above it and ENOENT otherwise |
| Disk.HostReadFile | src/files/file-utils.ts:70 | yields the content iff the location is a file; a directory gives EISDIR, and a missing location ENOTDIR when a file lies above it and ENOENT otherwise |
| Disk.BelowFile | src/files/file-utils.ts:2 | holds iff some proper prefix of the location is a file, where path resolution stops with ENOTDIR |
| Disk.MissingError | src/files/file-utils.ts:2 | the errno for a missing location is ENOTDIR iff a file lies above it, and ENOENT otherwise |
| Disk.PresentNotBelowFile | src/files/file-utils.ts:2 | an existing location never lies below a file |
| Disk.PathClearBelowFile | src/files/file-utils.ts:106 | `mkdirp` can create a location iff no file lies above it and it is not a file itself |
| Disk.Volume.constructor | src/files/file-utils.ts:2-4 | the shared disk starts as the given nodes |
| TreeProvider.ChangeTypeFor | src/files/file-system-tree-provider.ts:45 | a "change" event is Changed, and any other event is Created or Deleted according to whether the location exists, each as an iff |
| TreeProvider.FileSystemTreeProvider.OnWatchEvent | src/files/file-system-tree-provider.ts:39-47 | fires exactly one event for the joined location, typed by the event and by the location's existence |
| TreeProvider.StatType | src/files/file-system-tree-provider.ts:57-59 | the node's type iff it exists; otherwise FileNotFound for a missing location, or the raw ENOTDIR when a file lies above it |
| TreeProvider.ListedDir | src/files/file-system-tree-provider.ts:66 | with the flag set, the directory of the location, which the location extends by one segment, and the root for the root; without it, the location |
| TreeProvider.Children | src/files/file-system-tree-provider.ts:65-77 | succeeds iff the listed location is a directory, pairing each listed name, in order, with its node's type; a missing location gives FileNotFound for a missing location, or the raw ENOTDIR when a file lies above it, and a file the raw ENOTDIR |
| TreeProvider.ChildrenCoverDirectory | src/files/file-system-tree-provider.ts:67-74 | every child of a directory appears in the reading once, with its type |
| TreeProvider.FileSystemTreeProvider.ReadDirectory | src/files/file-system-tree-provider.ts:61-77 | the loop yields the reading of the requested directory |
| TreeProvider.FileSystemTreeProvider.CreateDirectory | src/files/file-system-tree-provider.ts:79-81 | the disk becomes the `mkdirp` result iff no prefix is a file, and is unchanged otherwise |
| TreeProvider.FileSystemTreeProvider.ReadFile | src/files/file-system-tree-provider.ts:83-85 | the file's content iff the location is a file; a directory gives FileIsADirectory, and a missing location FileNotFound for a missing location, or the raw ENOTDIR when a file lies above it |
| TreeProvider.FileSystemTreeProvider.WriteFile | src/files/file-system-tree-provider.ts:91-106 | a missing file without create is FileNotFound, and an existing one without overwrite is FileExists; succeeds iff overwriting an existing file, or creating one whose parent path is clear; afterwards the file reads back the content, no other old node changes and new nodes are only ancestors; a failure changes nothing |
| TreeProvider.FileSystemTreeProvider.Delete | src/files/file-system-tree-provider.ts:108-114 | recursive: succeeds iff the location is not the root and no file lies above it, and removes exactly its subtree; the raw ENOTDIR otherwise; single: succeeds iff the location is a file, and removes it alone, while a directory gives FileIsADirectory and a missing location FileNotFound for a missing location, or the raw ENOTDIR when a file lies above it; a failure changes nothing |
| TreeProvider.FileSystemTreeProvider.Rename | src/files/file-system-tree-provider.ts:120-136 | result and new disk are `RenameRun` of the old disk; an existing destination without overwrite is FileExists and changes nothing; succeeds iff the source exists, neither location is inside the other, and the destination is overwritable or its parent path is clear, after which the source subtree sits at the destination and nothing outside both changes; on any other failure the destination stays removed and its created parent stays (only a failed parent creation, ENOTDIR, leaves the disk as it was), and the error is the host rename's on that disk, so `rename(x, x, {overwrite: true})` deletes x and then fails with FileNotFound |
| TreeProvider.RenameRun | src/files/file-system-tree-provider.ts:119-135 | the steps of `_rename` in order (refuse or remove the destination, create its missing parent, host rename), each failure keeping the earlier steps' effects; the disk stays well formed |
| TreeProvider.RenameRunSucceeds | src/files/file-system-tree-provider.ts:119-135 | succeeds iff the source exists, neither location lies inside the other, and the destination is overwritable or its parent path is clear; then the source's subtree sits at the destination, nothing remains at the source, and nothing outside both changes |
| TreeProvider.RenameRunFails | src/files/file-system-tree-provider.ts:121-135 | the error and the disk left behind by each failing step: FileExists or EBUSY with no change, ENOTDIR from the parent creation with no change, otherwise the host rename's error on the cleared and parented disk |
| TreeProvider.SelfRenameLoses | src/files/file-system-tree-provider.ts:121-135 | renaming a node onto itself with overwrite removes its subtree and then fails with FileNotFound |
| TreeProvider.RenameSteps | src/files/file-system-tree-provider.ts:121-135 | the remove, create-parent and host-rename steps together give the outcome stated for `Rename`, in terms of the starting disk |
| TreeProvider.RenameMkdirFailed | src/files/file-system-tree-provider.ts:130-133 | when creating the destination's parent fails, no destination had been removed before |
| TreeProvider.SortChildren | src/files/file-system-tree-provider.ts:149-154 | the rows end up as the insertion sort of the input: ordered by the comparator, a permutation of the input, and stable (entries that compare equal keep their order) |
| TreeProvider.InsertionSortSpec | src/files/file-system-tree-provider.ts:149-154 | the insertion sort is ordered by the comparator, a permutation of its input, and keeps the order of every class of equal entries |
| TreeProvider.InsertKeepsTies | src/files/file-system-tree-provider.ts:149-154 | inserting an entry keeps the order of the entries equal to any given one, and puts the new entry after them |
| TreeProvider.InsertSorted | src/files/file-system-tree-provider.ts:149-154 | inserting into a sorted sequence keeps it sorted |
| TreeProvider.InsertPermutes | src/files/file-system-tree-provider.ts:149-154 | inserting adds exactly the new entry |
| TreeProvider.Sink | src/files/file-system-tree-provider.ts:149-154 | one pass of the in-place sort leaves the array as the insertion of its `i`-th entry into the prefix before it |
| TreeProvider.SortedMeansDirectoriesFirst | src/files/file-system-tree-provider.ts:150-153 | in a sorted listing every directory precedes every file, and entries of one type are in collation order |
| TreeProvider.FirstFileIndex | src/files/file-system-tree-provider.ts:146 | the first workspace folder with the `file` scheme |
| TreeProvider.FirstFileFolder | src/files/file-system-tree-provider.ts:146 | none iff no folder has the `file` scheme; otherwise a `file` folder with none before it |
| TreeProvider.RequestedDir | src/files/file-system-tree-provider.ts:140-147 | an element's own location; for the root, a directory iff some workspace folder has the `file` scheme, and then the parent of the first such folder |
| TreeProvider.FileSystemTreeProvider.constructor | src/files/file-system-tree-provider.ts:30-32 | the provider works on the given disk and has fired no event |
| TreeProvider.Place | src/files/file-system-tree-provider.ts:143 | each row becomes an entry for its name inside the base directory, with its type, in order |
| TreeProvider.FileSystemTreeProvider.GetChildren | src/files/file-system-tree-provider.ts:140-159 | an element's reading in listing order; for the root, the parent of the first `file` folder, read and then sorted stably (ordered, a permutation of the reading, equal entries in listing order); nothing without such a folder |
| TreeProvider.GetTreeItem | src/files/file-system-tree-provider.ts:161-173 | throws iff `package.json` is a directory; directories are collapsible; files, and only files, open on click and have context "file"; there is an icon iff `package.json` exists, named after a keyword |
| TreeProvider.FileEntriesHaveNoIcon | src/files/file-system-tree-provider.ts:163-167 | a file entry never gets an icon, because nothing lies below a file |
| WebviewMessage.Listen | src/webview/webview-message.ts:39-43 | a registered command keeps its handler; a new one gets `fn`; no other entry changes |
| WebviewMessage.ListenFirstWins | src/webview/webview-message.ts:40-42 | registering a command again changes nothing |
| WebviewMessage.InitListensIdempotent | src/webview/webview-message.ts:29-32 | `initListens` is idempotent, and on a fresh router registers exactly the two handlers |
| WebviewMessage.MessageRouter.constructor | src/webview/webview-message.ts:20-24 | keeps the parameters, with no handlers, messages or errors |
| WebviewMessage.MessageRouter.Listens | src/webview/webview-message.ts:39-43 | the table becomes the `Listen` update, and nothing else changes |
| WebviewMessage.MessageRouter.InitListens | src/webview/webview-message.ts:29-32 | registers `createProject` and then `projectType` |
| WebviewMessage.MessageRouter.PostMessage | src/webview/webview-message.ts:120-125 | delivered to the bound webview, and dropped when there is none |
| WebviewMessage.InitData | src/webview/webview-message.ts:72-79 | a null configuration throws; otherwise the path of the first `file` folder (or "") and the configured project types (or the four defaults) |
| WebviewMessage.MessageRouter.InitProjectInfo | src/webview/webview-message.ts:72-79 | posts the `init` message, or throws when reading or indexing the configuration throws, posting nothing |
| WebviewMessage.TemplateLookup | src/webview/webview-message.ts:97-118 | a missing configuration or template path is refused with its message; otherwise the outcome of scanning the type's template folder |
| WebviewMessage.MessageRouter.GetProjectTmpl | src/webview/webview-message.ts:97-118 | returns the templates, or `[]` after showing the refusal message, or throws |
| WebviewMessage.MessageRouter.ProjectTypeHandler | src/webview/webview-message.ts:85-91 | replies with `tmpls` only when the template list is not empty |
| WebviewMessage.MessageRouter.Trigger | src/webview/webview-message.ts:50-58 | false iff the command is unregistered, and undefined otherwise; `createProject` changes nothing; `projectType` posts the templates found (when there are any and a webview is bound), shows the refusal message, or throws, as the template lookup decides |
| WebviewMessage.RouterSlot.GetInstance | src/webview/webview-message.ts:63-70 | the first call creates a router with no handlers, messages or errors; later calls return the same router with the parameters replaced and everything else kept |
| WebviewMessage.RouterSlot.constructor | src/webview/webview-message.ts:13 | there is no router until the first `getInstance` |
| WebviewPanel.LastDot | src/webview/webview-panel.ts:33 | the position of the last '.', or -1 when there is none |
| WebviewPanel.ViewType | src/webview/webview-panel.ts:33 | the file name up to its last dot, followed by "_panel"; just "_panel" without a dot |
| WebviewPanel.AlphabetShape | src/webview/webview-panel.ts:132 | the alphabet has 62 characters, all alphanumeric, and contains every alphanumeric character |
| WebviewPanel.GetNonce | src/webview/webview-panel.ts:130-137 | 32 characters, each the alphabet entry of its draw and alphanumeric |
| WebviewPanel.IndexOf | src/webview/webview-panel.ts:112 | the first occurrence at or after `from`, or none at all |
| WebviewPanel.ReplaceFirst | src/webview/webview-panel.ts:112 | replaces only the leftmost occurrence and keeps everything around it; no occurrence leaves the text unchanged |
| WebviewPanel.ReplaceFirstKeepsLater | src/webview/webview-panel.ts:112 | later occurrences survive a first-only replacement, shifted by the change in length |
| WebviewPanel.ReplaceAll | src/webview/webview-panel.ts:109-110 | replaces from the leftmost occurrence on; no occurrence leaves the text unchanged |
| WebviewPanel.ReplaceAllSingle | src/webview/webview-panel.ts:109-112 | with a single occurrence, global and first-only replacement agree |
| WebviewPanel.RenderLine | src/webview/webview-panel.ts:103-118 | a line without a token, or whose placeholder is absent, is unchanged; the CSP source replaces every occurrence; the nonce and asset URIs replace the first occurrence |
| WebviewPanel.NonceOf | src/webview/webview-panel.ts:112 | each line's nonce is 32 alphanumeric characters |
| WebviewPanel.RenderLines | src/webview/webview-panel.ts:102-119 | every line of the array is replaced by its rendering |
| WebviewPanel.ConcatAppend | src/webview/webview-panel.ts:120 | joining with '' distributes over concatenation |
| WebviewPanel.Concat | src/webview/webview-panel.ts:120 | the joined text is exactly as long as the lines together: nothing is put between them |
| WebviewPanel.Page | src/webview/webview-panel.ts:102-120 | a page whose lines hold no placeholder is its lines run together |
| WebviewPanel.Panel.constructor | src/webview/webview-panel.ts:49-75 | the view type follows the file name, and the three subscriptions are registered in order |
| WebviewPanel.Panel.Update | src/webview/webview-panel.ts:77-79 | a readable page sets the html to the rendered page; otherwise the html is unchanged and the read throws |
| WebviewPanel.Panel.ReleaseDisposables | src/webview/webview-panel.ts:91-96 | every subscription is released, last registered first, and none is left |
| WebviewPanel.FindIndex | src/webview/webview-panel.ts:125-127 | the first panel showing the file, with none before it |
| WebviewPanel.PanelRegistry.HasOpenWeb | src/webview/webview-panel.ts:124-128 | a panel showing the file, and none iff no panel shows it |
| WebviewPanel.PanelRegistry.CreateOrShow | src/webview/webview-panel.ts:20-47 | an open panel is revealed and nothing else changes, the router included; otherwise a host panel is opened first, and stays opened even when the rest throws, leaving it unregistered; the shared router (created if needed) is bound to the webview, gains the two handlers and posts the `init` message, or throws while posting nothing; then one fresh panel is appended, with its view type, its webview, the shared router and the rendered page (empty when the page cannot be read); no two panels ever show the same file |
| WebviewPanel.BindRouter | src/webview/webview-panel.ts:54-59 | the shared router, the existing one if any, is bound to the webview and context, gains the two handlers on top of its old table, keeps its shown errors, and posts `init` exactly when announcing does not throw, throwing with the config read's reason or the null-config access otherwise |
| WebviewPanel.WithoutMembers | src/webview/webview-panel.ts:82-87 | what remains is exactly the panels that show another file |
| WebviewPanel.Without | src/webview/webview-panel.ts:82-87 | no remaining panel shows the file, and nothing is removed when none did |
| WebviewPanel.WithoutUnique | src/webview/webview-panel.ts:82-87 | when file names are unique, exactly the one panel showing the file is removed |
| WebviewPanel.PanelRegistry.Unregister | src/webview/webview-panel.ts:82-87 | removes the panels showing the file and closes the host panel iff one was open |
| WebviewPanel.PanelRegistry.Dispose | src/webview/webview-panel.ts:81-97 | unregisters the panel's file, then releases its subscriptions in reverse order |
| WebviewPanel.PanelRegistry.constructor | src/webview/webview-panel.ts:8 | the registry starts with no panels, and nothing created, revealed or closed |
| Paths.PathJoin | src/generate/generate.core.ts:70 | the joined path's segments are those of the first part followed by those of the second |
| Paths.SplitJoin | src/generate/generate.core.ts:43 | a location's path string splits back into the location |
| Generate.Complaint | src/generate/generate.core.ts:23-40 | each message iff its check is the first to fail, in order: empty configuration, then name, storagePath, projectType; no complaint iff all three keys are present |
| Generate.ComplaintIgnoresValues | src/generate/generate.core.ts:19-21 | only the presence of keys matters, not their values, the empty string included |
| Generate.AngularGenerate.Verify | src/generate/generate.core.ts:23-40 | never true; false iff there is a complaint, and that complaint is shown |
| Generate.AngularGenerate.constructor | src/generate/generate.core.ts:12-17 | keeps the configuration and the disk, with an empty project path and no message shown |
| Generate.AngularGenerate.Init | src/generate/generate.core.ts:54-60 | always false, showing the complaint if there is one, with no folder created |
| Generate.MkdirStep | src/generate/generate.core.ts:44-47 | an existing target is accepted unless `isNew`; otherwise it succeeds iff the parent is a directory, and an existing target with `isNew` is EEXIST |
| Generate.RunPlan | src/generate/generate.core.ts:66-75 | running a sequence of `mkdir` calls keeps the tree well formed |
| Generate.RunPlanAppend | src/generate/generate.core.ts:66-75 | running two call sequences one after the other runs the second only if the first did not throw |
| Generate.RunPlanExtends | src/generate/generate.core.ts:44-47 | a sequence of `mkdir` calls never removes or changes a node |
| Generate.RunPlanCreated | src/generate/generate.core.ts:44-47 | after a sequence that did not throw, every target exists, and every `isNew` target is a directory |
| Generate.AngularGenerate.Mkdir | src/generate/generate.core.ts:42-49 | without a storage path, throws and changes nothing; otherwise the disk takes one `mkdir` step on the storage path joined with `sub`, and the joined path is returned |
| Generate.SrcDir | src/generate/generate.core.ts:70 | the source folder's location is the storage path followed by the project folder's location and "src" |
| Generate.AngularFolderPlan | src/generate/angular.generate.ts:8-11 | four calls in order, each creating the storage path, then the source folder, then the folder name, with `isNew` |
| Generate.DoubledSourceFolderFails | src/generate/generate.core.ts:68-70 | with a non-root storage path, the base folders throw unless the doubled location already exists |
| Generate.AngularGenerate.CoreInitProjectAllFolder | src/generate/generate.core.ts:66-75 | the disk is the result of running the two base calls; the result is the source folder iff neither throws; `projectPath` is set iff the first succeeds |
| Generate.AngularGenerate.InitProjectAllFolder | src/generate/angular.generate.ts:6-13 | the disk is the result of running the base calls and then the four Angular calls, and the method throws iff one of them throws, with that call's error; `projectPath` is left as it was without `storagePath` or `name`, and otherwise becomes the project folder iff the first base call succeeds |
| Generate.AngularGenerate.AngularFolders | src/generate/angular.generate.ts:8-11 | the disk is the result of running the four Angular calls in order, stopping at the first that throws |

## Left out

- Asynchrony: promises are modelled as immediate results, event emitters as recorded lists, and `watch` registration and its disposal are not modelled. Only the callback that `watch` installs is modelled.
- `console.log` calls, window titles, view columns and `enableScripts`/`localResourceRoots` options have no effect on any modelled state.
- `checkCancellation`, `readFileSync`, `writeFileSync` and `existsSync` in `file-utils.ts` are thin wrappers that the core does not call; only `src/core/config.ts` does. The core calls `fs.existsSync` and `fs.readFileSync` directly (`src/files/file-utils.ts:125`, `:127`, `:152` and `src/generate/generate.core.ts:44`); those direct calls are modelled inside `IsProjectType`, `ForEachDir` and `AngularGenerate.Mkdir`.
- `normalizeNFC` is the identity, as on every platform except macOS. Unicode normalisation is not modelled.
- File contents are decoded one character per byte. UTF-8 decoding is not modelled.
- Path strings are modelled as segment sequences. `..` and `.` segments are not modelled, and neither is a relative storage path resolved against the working directory. Symbolic links and special files are not modelled.
- `localeCompare` is an abstract total preorder. `SortChildren` is an insertion sort, which is stable like `Array.prototype.sort`. Any other stable sort gives the same order, since a stable sort's result is fixed by the comparator; the model does not prove that uniqueness.
- The placeholder regular expression of `getHtmlForWebview` is a parameter (`Host.extract`). It returns the token a line names, if any.
- Replacements are modelled as literal text. The `.` of `{{webview.cspSource}}` in the generated pattern matches any character in the source, and `$` patterns in replacement strings are not interpreted; neither is modelled.
- `Math.random` is a parameter (`Host.draw`).
- `Config.readCfg` and `JSON.parse` are inputs: a throw, `null`, another falsy value, or an object with optional `projectTypes` and `tmplPath`. Configuration values other than strings are not modelled.
- `src/core/config.ts`, `src/extension.ts` and `src/files/file-explorer.ts` are not part of this model.
- `GenerateCore` is abstract, so its members are modelled inside `AngularGenerate`, the only concrete subclass. `getProjectFolder` has an empty body, and `context` is never read.
- `createProject` only logs, so `Trigger` on it changes nothing.
- WebviewPanel.PanelRegistry.Unregister: does not model the index shift that `splice` inside `forEach` causes with two panels on one file, because `Valid()` keeps file names unique.
- WebviewPanel.Panel.Update: renders the page synchronously; the source sets the html when the line stream closes.
- WebviewPanel.ReplaceAll: states only the leftmost replacement; every later one follows from its recursion.
- Disk.HostRename: states the outcome only for a free destination; an existing one is removed by `_rename` before the call, so the core never renames onto one.
