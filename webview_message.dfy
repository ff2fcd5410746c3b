/** The message router between the project-creation webview and the extension
    (src/webview/webview-message.ts): a single shared instance with a table of command handlers,
    the `init` message announcing the workspace and the project types, and the `tmpls` reply
    listing a project type's templates. */
module WebviewMessage {
  import opened Outcomes
  import opened Paths
  import opened Disk
  import opened FileUtils
  import opened TreeProvider

  /** The handlers the router can register: its own `createProject` and `projectType`. */
  datatype Handler = CreateProject | ProjectType

  /** `MessageParams`: the bound webview (`None` when there is none), identified by a number, and
      the extension context's `extensionPath`. */
  datatype Params = Params(webview: Option<nat>, extensionPath: Path)

  /** The messages posted to the webview. */
  datatype Outbound = Init(projectPath: string, projectTypes: seq<string>) | Tmpls(names: seq<string>)

  /** A message as delivered: the webview it went to and its content. */
  datatype Posted = Posted(webview: nat, message: Outbound)

  /** What `JSON.parse` makes of the project configuration: `null`, another falsy value, or an
      object whose `projectTypes` and `tmplPath` are present or not. */
  datatype Config = NullConfig | FalsyConfig | ConfigObject(projectTypes: Option<seq<string>>, tmplPath: Option<string>)

  /** `Config.readCfg`: it throws when the file is missing or does not parse. */
  datatype ConfigRead = ReadThrew(reason: string) | Parsed(config: Config)

  const DefaultProjectTypes: seq<string> := ["angular", "react", "vue", "nodejs"]
  /** "The configuration does not exist; configure the project basics first." */
  const ConfigMissingMessage := "配置项不存在，请先配置项目基础配置"
  /** "The template path is not configured." */
  const TmplPathMissingMessage := "模板地址配置不存在"
  /** Property access on `null` throws. */
  const NullAccess := "TypeError"

  /** `listens(command, fn)` on a table: a command keeps the first handler registered for it. */
  function Listen(table: map<string, Handler>, command: string, fn: Handler): (r: map<string, Handler>)
    ensures command in r
    ensures command in table ==> r == table
    ensures command !in table ==> r[command] == fn && r.Keys == table.Keys + {command}
    ensures forall c :: c in table ==> c in r && r[c] == table[c]
  {
    if command in table then table else table[command := fn]
  }

  /** The table after `initListens`. */
  function InitTable(table: map<string, Handler>): map<string, Handler> {
    Listen(Listen(table, "createProject", CreateProject), "projectType", ProjectType)
  }

  /** Registering again changes nothing: the first registration wins. */
  lemma ListenFirstWins(table: map<string, Handler>, command: string, fn: Handler, other: Handler)
    ensures Listen(Listen(table, command, fn), command, other) == Listen(table, command, fn)
    ensures Listen(Listen(table, command, fn), command, other)[command] ==
              if command in table then table[command] else fn
  {
  }

  /** `initListens` is idempotent, and on an empty table registers exactly the two handlers. */
  lemma InitListensIdempotent(table: map<string, Handler>)
    ensures InitTable(InitTable(table)) == InitTable(table)
    ensures InitTable(map[]) == map["createProject" := CreateProject, "projectType" := ProjectType]
  {
    ListenFirstWins(Listen(table, "createProject", CreateProject), "projectType", ProjectType, ProjectType);
  }

  /** The `data` of the `init` message. */
  function InitData(folders: Option<seq<WorkspaceFolder>>, config: Config): (m: Result<Outbound, string>)
    ensures config == NullConfig <==> m == Err(NullAccess)
    ensures m.Ok? ==> m.value.Init?
    ensures m.Ok? ==> (m.value.projectPath == "" <==> RequestedDir(None, folders).None?)
    ensures m.Ok? && folders.Some? && FirstFileFolder(folders.value).Some? ==>
              m.value.projectPath == Join(FirstFileFolder(folders.value).value.path)
    ensures m.Ok? && config.ConfigObject? && config.projectTypes.Some? ==> m.value.projectTypes == config.projectTypes.value
    ensures m.Ok? && !(config.ConfigObject? && config.projectTypes.Some?) ==> m.value.projectTypes == DefaultProjectTypes
  {
    if config == NullConfig then Err(NullAccess)
    else
      var folder := if folders.Some? then FirstFileFolder(folders.value) else None;
      var projectPath := if folder.Some? then Join(folder.value.path) else "";
      var types := if config.ConfigObject? && config.projectTypes.Some? then config.projectTypes.value else DefaultProjectTypes;
      Ok(Init(projectPath, types))
  }

  /** What `getProjectTmpl` settles on: a template list, a refusal shown as an error message
      (the list is then empty), or an exception. */
  datatype TmplLookup = Templates(names: seq<string>) | Refused(message: string) | Broken(reason: string)

  /** The configured template path, when it is present and not empty. */
  function TmplPathOf(config: Config): Option<string> {
    if config.ConfigObject? && config.tmplPath.Some? && config.tmplPath.value != "" then Some(config.tmplPath.value)
    else None
  }

  /** The directory whose sub-directories are the templates of `projectType`. */
  function TemplateDir(extensionPath: Path, cfg: ConfigRead, projectType: string): Option<Path> {
    if cfg.Parsed? && TmplPathOf(cfg.config).Some? then
      Some(extensionPath + Split(TmplPathOf(cfg.config).value) + Split(projectType))
    else None
  }

  /** The decision `getProjectTmpl(projectType)` makes: `listing` is the host's listing of the
      template directory. */
  function TemplateLookup(fs: Fs, extensionPath: Path, cfg: ConfigRead, projectType: string, listing: seq<string>): (r: TmplLookup)
    requires TemplateDir(extensionPath, cfg, projectType).Some? ==>
               ListingFits(fs, TemplateDir(extensionPath, cfg, projectType).value, listing)
    ensures cfg.ReadThrew? ==> r == Broken(cfg.reason)
    ensures cfg.Parsed? && !cfg.config.ConfigObject? ==> r == Refused(ConfigMissingMessage)
    ensures cfg.Parsed? && cfg.config.ConfigObject? && TmplPathOf(cfg.config).None? ==> r == Refused(TmplPathMissingMessage)
    ensures TemplateDir(extensionPath, cfg, projectType).Some? ==>
              var dir := TemplateDir(extensionPath, cfg, projectType).value;
              && (dir !in fs <==> r == Refused(DirMissingMessage))
              && (dir in fs && fs[dir].File? <==> r == Broken("ENOTDIR"))
              && (IsDir(fs, dir) <==> r.Templates?)
              && (r.Templates? ==> forall n :: n in r.names <==> n in listing && IsDir(fs, dir + [n]))
  {
    match cfg
    case ReadThrew(reason) => Broken(reason)
    case Parsed(config) =>
      if !config.ConfigObject? then Refused(ConfigMissingMessage)
      else if TmplPathOf(config).None? then Refused(TmplPathMissingMessage)
      else
        var dir := extensionPath + Split(TmplPathOf(config).value) + Split(projectType);
        if dir !in fs then Refused(DirMissingMessage)
        else if fs[dir].File? then Broken("ENOTDIR")
        else Templates(DirsOnly(fs, dir, listing))
  }

  class MessageRouter {
    var params: Params
    /** Fixed from the parameters the instance was created with. */
    const extensionPath: Path
    /** `messageListen`. */
    var handlers: map<string, Handler>
    /** Every message posted to a webview, oldest first. */
    var outbox: seq<Posted>
    /** Every error message shown to the user, oldest first. */
    var shownErrors: seq<string>

    constructor(params: Params)
      ensures this.params == params && extensionPath == params.extensionPath
      ensures handlers == map[] && outbox == [] && shownErrors == []
    {
      this.params := params;
      extensionPath := params.extensionPath;
      handlers := map[];
      outbox := [];
      shownErrors := [];
    }

    /** `listens(command, fn)`. */
    method Listens(command: string, fn: Handler)
      modifies this
      ensures handlers == Listen(old(handlers), command, fn)
      ensures params == old(params) && outbox == old(outbox) && shownErrors == old(shownErrors)
    {
      if command !in handlers {
        handlers := handlers[command := fn];
      }
    }

    /** `initListens()`. */
    method InitListens()
      modifies this
      ensures handlers == InitTable(old(handlers))
      ensures params == old(params) && outbox == old(outbox) && shownErrors == old(shownErrors)
    {
      Listens("createProject", CreateProject);
      Listens("projectType", ProjectType);
    }

    /** `postMessage(message)`: delivered to the bound webview, dropped when there is none. */
    method PostMessage(message: Outbound)
      modifies this
      ensures params.webview.None? ==> outbox == old(outbox)
      ensures params.webview.Some? ==> outbox == old(outbox) + [Posted(params.webview.value, message)]
      ensures params == old(params) && handlers == old(handlers) && shownErrors == old(shownErrors)
    {
      if params.webview.Some? {
        outbox := outbox + [Posted(params.webview.value, message)];
      }
    }

    /** `initProjectInfo()`: posts the `init` message; reading the configuration may throw. */
    method InitProjectInfo(folders: Option<seq<WorkspaceFolder>>, cfg: ConfigRead) returns (c: Completion)
      modifies this
      ensures cfg.ReadThrew? ==> c == Threw(cfg.reason) && outbox == old(outbox)
      ensures cfg.Parsed? && InitData(folders, cfg.config).Err? ==> c == Threw(NullAccess) && outbox == old(outbox)
      ensures cfg.Parsed? && InitData(folders, cfg.config).Ok? ==>
                c == Normal &&
                outbox == old(outbox) + if params.webview.Some? then [Posted(params.webview.value, InitData(folders, cfg.config).value)] else []
      ensures params == old(params) && handlers == old(handlers) && shownErrors == old(shownErrors)
    {
      if cfg.ReadThrew? {
        return Threw(cfg.reason);
      }
      var data := InitData(folders, cfg.config);
      if data.Err? {
        return Threw(data.error);
      }
      PostMessage(data.value);
      return Normal;
    }

    /** `getProjectTmpl(projectType)`: the template names, or `[]` after showing why there are
        none; a template path that is a file makes `readdirSync` throw. */
    method GetProjectTmpl(fs: Fs, projectType: string, cfg: ConfigRead, listing: seq<string>) returns (names: seq<string>, c: Completion)
      requires TemplateDir(extensionPath, cfg, projectType).Some? ==>
                 ListingFits(fs, TemplateDir(extensionPath, cfg, projectType).value, listing)
      modifies this
      ensures match TemplateLookup(fs, extensionPath, cfg, projectType, listing)
              case Templates(found) => names == found && c == Normal && shownErrors == old(shownErrors)
              case Refused(message) => names == [] && c == Normal && shownErrors == old(shownErrors) + [message]
              case Broken(reason) => c == Threw(reason) && shownErrors == old(shownErrors)
      ensures params == old(params) && handlers == old(handlers) && outbox == old(outbox)
    {
      names := [];
      if cfg.ReadThrew? {
        return [], Threw(cfg.reason);
      }
      var config := cfg.config;
      if !config.ConfigObject? {
        shownErrors := shownErrors + [ConfigMissingMessage];
        return [], Normal;
      }
      if TmplPathOf(config).None? {
        shownErrors := shownErrors + [TmplPathMissingMessage];
        return [], Normal;
      }
      var dir := extensionPath + Split(TmplPathOf(config).value) + Split(projectType);
      var subDirs := ForEachDir(fs, dir, listing);
      match subDirs
      case Message(text) =>
        shownErrors := shownErrors + [text];
        return [], Normal;
      case Failed(code) =>
        return [], Threw(code);
      case Dirs(found) =>
        return found, Normal;
    }

    /** `projectType(data)`: replies with `tmpls` only when there are templates; a missing
        `data` stands for the empty project type. */
    method ProjectTypeHandler(fs: Fs, data: Option<string>, cfg: ConfigRead, listing: seq<string>) returns (c: Completion)
      requires var t := if data.Some? then data.value else "";
               TemplateDir(extensionPath, cfg, t).Some? ==> ListingFits(fs, TemplateDir(extensionPath, cfg, t).value, listing)
      modifies this
      ensures var t := if data.Some? then data.value else "";
              match TemplateLookup(fs, extensionPath, cfg, t, listing)
              case Templates(found) =>
                && c == Normal && shownErrors == old(shownErrors)
                && outbox == old(outbox) + if found != [] && params.webview.Some? then [Posted(params.webview.value, Tmpls(found))] else []
              case Refused(message) => c == Normal && outbox == old(outbox) && shownErrors == old(shownErrors) + [message]
              case Broken(reason) => c == Threw(reason) && outbox == old(outbox) && shownErrors == old(shownErrors)
      ensures params == old(params) && handlers == old(handlers)
    {
      var t := if data.Some? then data.value else "";
      var tmpls;
      tmpls, c := GetProjectTmpl(fs, t, cfg, listing);
      if c.Threw? {
        return;
      }
      if |tmpls| > 0 {
        PostMessage(Tmpls(tmpls));
      }
    }

    /** `trigger(command, data)`: `Some(false)` for an unregistered command; otherwise the
        handler runs once and the result is `undefined`, here `None`. `createProject` only logs. */
    method Trigger(fs: Fs, command: string, data: Option<string>, cfg: ConfigRead, listing: seq<string>) returns (r: Option<bool>, c: Completion)
      requires var t := if data.Some? then data.value else "";
               TemplateDir(extensionPath, cfg, t).Some? ==> ListingFits(fs, TemplateDir(extensionPath, cfg, t).value, listing)
      modifies this
      ensures command !in old(handlers) <==> r == Some(false)
      ensures command in old(handlers) ==> r == None
      ensures (command !in old(handlers) || old(handlers)[command] == CreateProject) ==>
                c == Normal && outbox == old(outbox) && shownErrors == old(shownErrors)
      ensures command in old(handlers) && old(handlers)[command] == ProjectType ==>
                var t := if data.Some? then data.value else "";
                match TemplateLookup(fs, extensionPath, cfg, t, listing)
                case Templates(found) =>
                  && c == Normal && shownErrors == old(shownErrors)
                  && outbox == old(outbox) + if found != [] && params.webview.Some? then [Posted(params.webview.value, Tmpls(found))] else []
                case Refused(message) => c == Normal && outbox == old(outbox) && shownErrors == old(shownErrors) + [message]
                case Broken(reason) => c == Threw(reason) && outbox == old(outbox) && shownErrors == old(shownErrors)
      ensures params == old(params) && handlers == old(handlers)
    {
      if command !in handlers {
        return Some(false), Normal;
      }
      r := None;
      var fn := handlers[command];
      match fn
      case CreateProject =>
        c := Normal;
      case ProjectType =>
        c := ProjectTypeHandler(fs, data, cfg, listing);
    }
  }

  /** The static `instance` slot of the router class. */
  class RouterSlot {
    var instance: MessageRouter?

    constructor()
      ensures instance == null
    {
      instance := null;
    }

    /** `getInstance(params)`: creates the router on the first call; later calls return the
        same router, keeping its handlers, with its parameters rebound. */
    method GetInstance(params: Params) returns (r: MessageRouter)
      modifies this, instance
      ensures instance == r && r.params == params
      ensures old(instance) == null ==>
                && fresh(r) && r.extensionPath == params.extensionPath
                && r.handlers == map[] && r.outbox == [] && r.shownErrors == []
      ensures old(instance) != null ==>
                && r == old(instance) && r.handlers == old(instance.handlers)
                && r.outbox == old(instance.outbox) && r.shownErrors == old(instance.shownErrors)
    {
      if instance == null {
        r := new MessageRouter(params);
        instance := r;
      } else {
        r := instance;
        r.params := params;
      }
    }
  }
}
