/** Project scaffolding: `GenerateCore` checks the project configuration and creates folders
    under the configured storage path; `AngularGenerate`, its only concrete subclass, adds the
    Angular source sub-folders. The configuration is the parsed `IProjectConfig` object, absent
    when it is `null` or `undefined`; only the string values that `mkdir` joins are used. */
module Generate {
  import opened Outcomes
  import opened Paths
  import opened Disk

  type Config = Option<map<string, string>>

  const ConfigureFirstMessage := "Please configure project information first!"
  const NameMissingMessage := "Project name cannot be empty!"
  const StorageMissingMessage := "Project storage path cannot be empty!"
  const TypeMissingMessage := "Project type cannot be empty!"

  /** The exception reading a property of a missing configuration, or joining a missing
      property into a path, raises. */
  const NullAccess := "TypeError"

  /** The folders `AngularGenerate` creates under the source folder, in this order. */
  const AngularDirs := ["app", "styles", "testing", "webassets"]

  lemma AngularDirsAreSegments(i: nat)
    requires i < |AngularDirs|
    ensures IsSegment(AngularDirs[i])
  {
    if i == 0 {
      assert AngularDirs[0] == "app";
    } else if i == 1 {
      assert AngularDirs[1] == "styles";
    } else if i == 2 {
      assert AngularDirs[2] == "testing";
    } else {
      assert AngularDirs[3] == "webassets";
    }
  }

  /** The message `verify()` shows, if any. The configuration must exist and have a key; then
      `name`, `storagePath` and `projectType` are looked for in that order by key presence alone
      (`Reflect.has`), so a present key with an empty value passes. */
  function Complaint(config: Config): (m: Option<string>)
    ensures m == Some(ConfigureFirstMessage) <==> config.None? || |config.value| == 0
    ensures m == Some(NameMissingMessage) <==>
              config.Some? && |config.value| != 0 && "name" !in config.value
    ensures m == Some(StorageMissingMessage) <==>
              config.Some? && |config.value| != 0 && "name" in config.value &&
              "storagePath" !in config.value
    ensures m == Some(TypeMissingMessage) <==>
              config.Some? && |config.value| != 0 && "name" in config.value &&
              "storagePath" in config.value && "projectType" !in config.value
    ensures m.None? <==>
              config.Some? && "name" in config.value && "storagePath" in config.value &&
              "projectType" in config.value
  {
    if config.None? || |config.value| == 0 then Some(ConfigureFirstMessage)
    else if "name" !in config.value then Some(NameMissingMessage)
    else if "storagePath" !in config.value then Some(StorageMissingMessage)
    else if "projectType" !in config.value then Some(TypeMissingMessage)
    else None
  }

  /** Only the keys are looked at: changing the value of a present key, to the empty string for
      instance, never changes the verdict. */
  lemma ComplaintIgnoresValues(m: map<string, string>, key: string, v: string)
    requires key in m
    ensures Complaint(Some(m[key := v])) == Complaint(Some(m))
  {
    assert |m[key := v]| == |m| by {
      assert m[key := v].Keys == m.Keys;
    }
  }

  /** `this.config.<key>` as a string, when the configuration and the key exist. */
  function Field(config: Config, key: string): (r: Option<string>)
    ensures r.Some? <==> config.Some? && key in config.value
    ensures r.Some? ==> r.value == config.value[key]
  {
    if config.Some? && key in config.value then Some(config.value[key]) else None
  }

  // ---------------------------------------------------------------------------------------------
  // Folder creation plans

  /** One `mkdir` call: the location it targets and its `isNew` flag. */
  datatype MkdirCall = MkdirCall(target: Path, isNew: bool)

  /** The disk after a sequence of `mkdir` calls, and the error of the call that threw, if any. */
  datatype Run = Run(fs: Fs, failure: Option<string>)

  /** `mkdir` on the final target: a target that exists already is accepted as it is when
      `isNew` is false; otherwise `mkdirSync` creates the single directory. */
  function MkdirStep(fs: Fs, c: MkdirCall): (r: Result<Fs, string>)
    ensures r.Ok? <==> (c.target in fs && !c.isNew) || (c.target !in fs && IsDir(fs, Dirname(c.target)))
    ensures r.Ok? ==> c.target in r.value
    ensures WellFormed(fs) && r.Ok? ==> WellFormed(r.value)
    ensures r.Ok? ==> r.value == (if c.target in fs then fs else fs[c.target := Directory])
    ensures c.isNew && c.target in fs ==> r == Err("EEXIST")
  {
    if c.target in fs && !c.isNew then Ok(fs) else HostMkdir(fs, c.target)
  }

  /** The calls of `plan` in order, stopping at the first one that throws. */
  function RunPlan(fs: Fs, plan: seq<MkdirCall>): (r: Run)
    ensures WellFormed(fs) ==> WellFormed(r.fs)
    decreases |plan|
  {
    if plan == [] then Run(fs, None)
    else
      match MkdirStep(fs, plan[0])
      case Err(e) => Run(fs, Some(e))
      case Ok(fs') => RunPlan(fs', plan[1..])
  }

  /** Running the calls from the `k`-th on: the `k`-th call, then the rest after it. */
  lemma Advance(fs: Fs, plan: seq<MkdirCall>, k: nat)
    requires k < |plan|
    ensures var m := MkdirStep(fs, plan[k]);
            RunPlan(fs, plan[k..]) ==
              if m.Err? then Run(fs, Some(m.error)) else RunPlan(m.value, plan[k + 1..])
  {
    assert plan[k..][1..] == plan[k + 1..];
  }

  /** Running `a` then `b` is running `a`, then, unless a call of `a` threw, `b` on what `a`
      left: once a call throws, none after it runs. */
  lemma {:induction false} RunPlanAppend(fs: Fs, a: seq<MkdirCall>, b: seq<MkdirCall>)
    ensures RunPlan(fs, a + b) ==
              if RunPlan(fs, a).failure.Some? then RunPlan(fs, a)
              else RunPlan(RunPlan(fs, a).fs, b)
    decreases |a|
  {
    if a == [] {
      assert a + b == b;
    } else {
      assert (a + b)[0] == a[0];
      assert (a + b)[1..] == a[1..] + b;
      match MkdirStep(fs, a[0])
      case Err(_) =>
      case Ok(fs') => RunPlanAppend(fs', a[1..], b);
    }
  }

  /** A plan never removes or changes a node. */
  lemma {:induction false} RunPlanExtends(fs: Fs, plan: seq<MkdirCall>)
    ensures Extends(fs, RunPlan(fs, plan).fs)
    decreases |plan|
  {
    if plan != [] {
      match MkdirStep(fs, plan[0])
      case Err(_) =>
      case Ok(fs') => RunPlanExtends(fs', plan[1..]);
    }
  }

  /** After a plan that ran to the end, every target of it exists, and every target of a call
      with `isNew` true is a directory (a call with `isNew` false keeps a file it finds). */
  lemma {:induction false} RunPlanCreated(fs: Fs, plan: seq<MkdirCall>, i: nat)
    requires i < |plan| && RunPlan(fs, plan).failure.None?
    ensures plan[i].target in RunPlan(fs, plan).fs
    ensures plan[i].isNew ==> IsDir(RunPlan(fs, plan).fs, plan[i].target)
    decreases |plan|
  {
    var fs' := MkdirStep(fs, plan[0]).value;
    if i == 0 {
      RunPlanExtends(fs', plan[1..]);
    } else {
      RunPlanCreated(fs', plan[1..], i - 1);
    }
  }

  /** The location `mkdir(sub)` targets: `sub` joined onto the storage path. */
  function MkdirTarget(storage: string, sub: string): (t: Path)
    ensures Split(storage) <= t
  {
    Split(storage) + Split(sub)
  }

  /** The location of the project folder. */
  function ProjectDir(storage: string, name: string): Path {
    Split(storage) + Split(name)
  }

  /** The location of the source folder: `join(this.projectPath, 'src')` is joined onto the
      storage path once more, so the storage path appears twice. */
  function SrcDir(storage: string, name: string): (p: Path)
    ensures p == Split(storage) + ProjectDir(storage, name) + ["src"]
  {
    Split(storage) + Split(storage) + Split(name) + ["src"]
  }

  /** The calls `GenerateCore.initProjectAllFolder` makes. */
  function CorePlan(storage: string, name: string): seq<MkdirCall> {
    [MkdirCall(ProjectDir(storage, name), false), MkdirCall(SrcDir(storage, name), true)]
  }

  /** The calls the Angular override adds: one folder per name of `AngularDirs`, in order,
      under the source folder joined onto the storage path yet again. */
  function AngularFolderPlan(storage: string, name: string): (plan: seq<MkdirCall>)
    ensures |plan| == |AngularDirs|
    ensures forall i :: 0 <= i < |plan| ==>
              plan[i] == MkdirCall(Split(storage) + SrcDir(storage, name) + [AngularDirs[i]], true)
  {
    var src := Split(storage) + SrcDir(storage, name);
    seq(|AngularDirs|, i requires 0 <= i < |AngularDirs| => MkdirCall(src + [AngularDirs[i]], true))
  }

  /** The calls `AngularGenerate.initProjectAllFolder` makes: the base ones, then its own. */
  function AngularPlan(storage: string, name: string): seq<MkdirCall> {
    CorePlan(storage, name) + AngularFolderPlan(storage, name)
  }

  /** With a storage path other than the root, the source folder's parent is the doubled
      location, so the base plan throws unless that location already exists. */
  lemma DoubledSourceFolderFails(fs: Fs, storage: string, name: string)
    requires Split(storage) != []
    requires Split(storage) + Split(storage) + Split(name) !in fs
    ensures RunPlan(fs, CorePlan(storage, name)).failure.Some?
  {
    var plan := CorePlan(storage, name);
    Advance(fs, plan, 0);
    assert plan[0..] == plan;
    match MkdirStep(fs, plan[0])
    case Err(_) =>
    case Ok(fs1) =>
      var doubled := Split(storage) + Split(storage) + Split(name);
      assert |doubled| != |ProjectDir(storage, name)|;
      assert Dirname(plan[1].target) == doubled;
      Advance(fs1, plan, 1);
  }

  // ---------------------------------------------------------------------------------------------
  // The generator

  /** An `AngularGenerate`, with the members it inherits from the abstract `GenerateCore`. */
  class AngularGenerate {
    const config: Config
    const volume: Volume
    var projectPath: string
    /** Messages shown with `showErrorMessage`, oldest first. */
    var shownErrors: seq<string>

    constructor(config: Config, volume: Volume)
      ensures this.config == config && this.volume == volume
      ensures projectPath == "" && shownErrors == []
    {
      this.config := config;
      this.volume := volume;
      projectPath := "";
      shownErrors := [];
    }

    /** `verify()`: shows the complaint, if any, and returns false; with none it falls off the
        end, returning `undefined`. It never returns true. */
    method Verify() returns (r: Option<bool>)
      modifies this
      ensures r != Some(true)
      ensures r == Some(false) <==> Complaint(config).Some?
      ensures shownErrors == old(shownErrors) + (if r == Some(false) then [Complaint(config).value] else [])
      ensures projectPath == old(projectPath)
    {
      var m := Complaint(config);
      if m.Some? {
        shownErrors := shownErrors + [m.value];
        r := Some(false);
      } else {
        r := None;
      }
    }

    /** `init()`: as `verify()` is never true, it returns false on every path and the folder
        creation is never reached. */
    method Init() returns (r: bool)
      modifies this
      ensures !r
      ensures shownErrors == old(shownErrors) + if Complaint(config).Some? then [Complaint(config).value] else []
      ensures projectPath == old(projectPath)
    {
      var v := Verify();
      if v == Some(true) {
        assert false;
      }
      r := false;
    }

    /** `mkdir(sub, isNew)`: joins `sub` onto the storage path and makes sure a directory is
        there, returning the joined path. */
    method Mkdir(sub: string, isNew: bool) returns (r: Result<string, string>)
      requires volume.Valid()
      modifies volume
      ensures volume.Valid()
      ensures Field(config, "storagePath").None? ==>
                r == Err(NullAccess) && volume.nodes == old(volume.nodes)
      ensures Field(config, "storagePath").Some? ==>
                var t := MkdirTarget(Field(config, "storagePath").value, sub);
                var m := MkdirStep(old(volume.nodes), MkdirCall(t, isNew));
                && (r.Ok? <==> m.Ok?)
                && (r.Ok? ==> Split(r.value) == t && volume.nodes == m.value)
                && (r.Err? ==> r.error == m.error && volume.nodes == old(volume.nodes))
    {
      var storage := Field(config, "storagePath");
      if storage.None? {
        return Err(NullAccess);
      }
      var target := PathJoin(storage.value, sub);
      var t := Split(target);
      if t in volume.nodes && !isNew {
        return Ok(target);
      }
      var m := HostMkdir(volume.nodes, t);
      if m.Err? {
        return Err(m.error);
      }
      volume.nodes := m.value;
      r := Ok(target);
    }

    /** `GenerateCore.initProjectAllFolder()`: creates (or keeps) the project folder, records
        it in `projectPath`, then creates the source folder and returns its path. */
    method CoreInitProjectAllFolder() returns (r: Result<string, string>)
      requires volume.Valid()
      modifies this, volume
      ensures volume.Valid() && shownErrors == old(shownErrors)
      ensures Field(config, "storagePath").None? || Field(config, "name").None? ==>
                r == Err(NullAccess) && volume.nodes == old(volume.nodes) &&
                projectPath == old(projectPath)
      ensures Field(config, "storagePath").Some? && Field(config, "name").Some? ==>
                var storage := Field(config, "storagePath").value;
                var name := Field(config, "name").value;
                var run := RunPlan(old(volume.nodes), CorePlan(storage, name));
                && volume.nodes == run.fs
                && (r.Ok? <==> run.failure.None?)
                && (r.Ok? ==> Split(r.value) == SrcDir(storage, name))
                && (r.Err? ==> r.error == run.failure.value)
      ensures Field(config, "storagePath").Some? && Field(config, "name").Some? ==>
                var storage := Field(config, "storagePath").value;
                var name := Field(config, "name").value;
                if MkdirStep(old(volume.nodes), CorePlan(storage, name)[0]).Ok?
                then Split(projectPath) == ProjectDir(storage, name)
                else projectPath == old(projectPath)
    {
      var storage := Field(config, "storagePath");
      var name := Field(config, "name");
      if storage.None? || name.None? {
        return Err(NullAccess);
      }
      ghost var plan := CorePlan(storage.value, name.value);
      Advance(volume.nodes, plan, 0);
      assert plan[0..] == plan;
      var p := Mkdir(name.value, false);
      if p.Err? {
        return Err(p.error);
      }
      projectPath := p.value;
      Advance(volume.nodes, plan, 1);
      SplitSegment("src");
      var sub := PathJoin(projectPath, "src");
      assert MkdirTarget(storage.value, sub) == plan[1].target;
      r := Mkdir(sub, true);
      assert plan[2..] == [];
    }

    /** `this.mkdir(join(src, AngularDirs[i]))`, the `i`-th call the Angular override adds. */
    method MkdirUnder(src: string, i: nat) returns (r: Result<string, string>)
      requires volume.Valid() && i < |AngularDirs|
      requires Field(config, "storagePath").Some? && Field(config, "name").Some?
      requires Split(src) == SrcDir(Field(config, "storagePath").value, Field(config, "name").value)
      modifies volume
      ensures volume.Valid()
      ensures var plan := AngularFolderPlan(Field(config, "storagePath").value, Field(config, "name").value);
              RunPlan(old(volume.nodes), plan[i..]) ==
              if r.Ok? then RunPlan(volume.nodes, plan[i + 1..]) else Run(volume.nodes, Some(r.error))
    {
      ghost var plan := AngularFolderPlan(Field(config, "storagePath").value, Field(config, "name").value);
      Advance(volume.nodes, plan, i);
      var dir := AngularDirs[i];
      AngularDirsAreSegments(i);
      SplitSegment(dir);
      var sub := PathJoin(src, dir);
      assert MkdirTarget(Field(config, "storagePath").value, sub) == plan[i].target;
      r := Mkdir(sub, true);
    }

    /** `AngularGenerate.initProjectAllFolder()`: the base folders, then `app`, `styles`,
        `testing` and `webassets` under the returned source folder, each with `isNew` true, so
        an existing one throws; the first exception ends the sequence. */
    method InitProjectAllFolder() returns (c: Completion)
      requires volume.Valid()
      modifies this, volume
      ensures volume.Valid() && shownErrors == old(shownErrors)
      ensures Field(config, "storagePath").None? || Field(config, "name").None? ==>
                c == Threw(NullAccess) && volume.nodes == old(volume.nodes)
      ensures Field(config, "storagePath").Some? && Field(config, "name").Some? ==>
                var run := RunPlan(old(volume.nodes),
                                   AngularPlan(Field(config, "storagePath").value, Field(config, "name").value));
                && volume.nodes == run.fs
                && (c.Normal? <==> run.failure.None?)
                && (c.Threw? ==> c.reason == run.failure.value)
      ensures Field(config, "storagePath").None? || Field(config, "name").None? ==> projectPath == old(projectPath)
      ensures Field(config, "storagePath").Some? && Field(config, "name").Some? ==>
                var storage := Field(config, "storagePath").value;
                var name := Field(config, "name").value;
                if MkdirStep(old(volume.nodes), CorePlan(storage, name)[0]).Ok?
                then Split(projectPath) == ProjectDir(storage, name)
                else projectPath == old(projectPath)
    {
      var src := CoreInitProjectAllFolder();
      if Field(config, "storagePath").None? || Field(config, "name").None? {
        return Threw(src.error);
      }
      RunPlanAppend(old(volume.nodes), CorePlan(Field(config, "storagePath").value, Field(config, "name").value),
                    AngularFolderPlan(Field(config, "storagePath").value, Field(config, "name").value));
      if src.Err? {
        return Threw(src.error);
      }
      c := AngularFolders(src.value);
    }

    /** The four `this.mkdir(join(srcPath, ...))` calls of the Angular override, in order. */
    method AngularFolders(src: string) returns (c: Completion)
      requires volume.Valid()
      requires Field(config, "storagePath").Some? && Field(config, "name").Some?
      requires Split(src) == SrcDir(Field(config, "storagePath").value, Field(config, "name").value)
      modifies volume
      ensures volume.Valid()
      ensures var run := RunPlan(old(volume.nodes),
                                 AngularFolderPlan(Field(config, "storagePath").value, Field(config, "name").value));
              && volume.nodes == run.fs
              && (c.Normal? <==> run.failure.None?)
              && (c.Threw? ==> c.reason == run.failure.value)
    {
      ghost var plan := AngularFolderPlan(Field(config, "storagePath").value, Field(config, "name").value);
      ghost var run := RunPlan(volume.nodes, plan);
      assert plan[0..] == plan;
      var d := MkdirUnder(src, 0);
      if d.Err? {
        return Threw(d.error);
      }
      assert run == RunPlan(volume.nodes, plan[1..]);
      d := MkdirUnder(src, 1);
      if d.Err? {
        return Threw(d.error);
      }
      assert run == RunPlan(volume.nodes, plan[2..]);
      d := MkdirUnder(src, 2);
      if d.Err? {
        return Threw(d.error);
      }
      assert run == RunPlan(volume.nodes, plan[3..]);
      d := MkdirUnder(src, 3);
      if d.Err? {
        return Threw(d.error);
      }
      assert plan[4..] == [];
      c := Normal;
    }
  }
}
