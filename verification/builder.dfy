/**
 * The build controller: a builder instance made by `Build.factory`, the
 * stages `load`, `unpack`, `patch`, `scramble`, `melt`, `sign`, `pack` run in
 * that order by `create`, which on any error runs `clean` and re-raises it.
 */
module Builder {
  import opened Wrappers
  import opened Errors
  import opened Registry
  import opened Patcher
  import opened Extractor

  /** The instance variables of a builder. */
  datatype Build = Build(
    klass: BuilderClass,
    /** Output file names relative to the workspace, in the order they were produced. */
    outputs: seq<string>,
    /** The workspace path, once `unpack` has chosen it. */
    tmpdir: Option<string>,
    /** The local copy of the template archive, from `load` until `unpack` releases it. */
    core: Option<Archive>,
    /** The deployment record `load` found. */
    factory: Option<FactoryItem>)

  /**
   * Directories on disk, by path, with the files in each. A key is never
   * nested under another key: whatever lies below a directory is in that
   * directory's files, under its relative name, so removing a key removes
   * the whole tree.
   */
  type Disk = map<string, Files>

  datatype State = State(build: Build, disk: Disk)

  /** What a stage leaves behind: the state and, when it raised, the error. */
  datatype StageResult = Ok(state: State) | Raised(state: State, error: BuildError)

  /** The request: the factory ident and, for `patch`, the core and config file names and the demo flag. */
  datatype Params = Params(ident: seq<byte>, core: string, config: string, demo: bool)

  /**
   * The stores `load` and `patch` query: templates by platform, factory items
   * by ident, and the MD5 digest of the agent-scope signature (None when
   * there is no such signature or it has no value).
   */
  datatype Stores = Stores(
    templates: map<string, Archive>,
    factories: map<seq<byte>, FactoryItem>,
    agentSignature: Option<seq<byte>>)

  /**
   * Everything from outside one `create` call: stores, request, the
   * clock-derived workspace name and randomness. `writeBack` chooses the
   * `patch` stage: false is the program as written, which never stores the
   * patched bytes; true is the corrected stage that writes them to the core file.
   */
  datatype Env = Env(stores: Stores, params: Params, tmpdirName: string, entropy: Entropy, writeBack: bool)

  datatype Stage = Load | Unpack | Patch | Scramble | Melt | Sign | Pack

  /** The fixed order `create` runs the stages in. */
  const Pipeline: seq<Stage> := [Load, Unpack, Patch, Scramble, Melt, Sign, Pack]

  /** A fresh instance: `initialize` sets only the empty output list. */
  function NewBuild(cls: BuilderClass): Build
  {
    Build(cls, [], None, None, None)
  }

  /**
   * `Build.factory(platform)`: a new instance of the class registered under
   * `p`, or the "Builder for p not found" error when there is none.
   */
  function Factory(reg: Builders, p: string): (r: Result<Build, BuildError>)
    ensures r.Failure? <==> p !in reg
    ensures r.Failure? ==> r.error == BuilderNotFound(p) && Message(r.error) == "Builder for " + p + " not found"
    ensures r.Success? ==> r.value.klass == reg[p] && r.value.outputs == [] && r.value.tmpdir.None?
  {
    if p in reg then Success(NewBuild(reg[p])) else Failure(BuilderNotFound(p))
  }

  /**
   * With the registry filled from the discovered classes, `factory(p)`
   * succeeds exactly when some class registers under `p`, and instantiates
   * the last such class.
   */
  lemma FactoryAfterDiscovery(classes: seq<BuilderClass>, p: string)
    ensures var r := Factory(RegisterAll(map[], classes), p);
            && (r.Success? <==> exists i :: 0 <= i < |classes| && RegistersAs(classes[i], p))
            && (r.Success? ==> Some(r.value.klass) == LastFor(classes, p))
  {
    RegisterAllLookup(map[], classes, p);
  }

  /** `load`: the template of the builder's platform, then the factory item of the requested ident. */
  function LoadStage(s: State, stores: Stores, ident: seq<byte>): (r: StageResult)
    ensures s.build.klass.platform !in stores.templates <==> r == Raised(s, CoreNotFound(s.build.klass.platform))
    ensures r.Raised? && r.error.FactoryNotFound? <==>
              s.build.klass.platform in stores.templates && ident !in stores.factories
    ensures r.Raised? ==> r.error == CoreNotFound(s.build.klass.platform) || r.error == FactoryNotFound(ident)
    ensures r.Raised? && r.error.FactoryNotFound? ==> r.state.build.factory.None?
    ensures r.Ok? ==> r.state.build.factory == Some(stores.factories[ident])
                      && r.state.build.core == Some(stores.templates[s.build.klass.platform])
    ensures r.state.disk == s.disk && r.state.build.outputs == s.build.outputs && r.state.build.tmpdir == s.build.tmpdir
  {
    var platform := s.build.klass.platform;
    if platform !in stores.templates then Raised(s, CoreNotFound(platform))
    else
      var b := s.build.(core := Some(stores.templates[platform]));
      if ident !in stores.factories then Raised(State(b.(factory := None), s.disk), FactoryNotFound(ident))
      else Ok(State(b.(factory := Some(stores.factories[ident])), s.disk))
  }

  /**
   * `unpack`: records the workspace path, creates the directory (raising when
   * it exists), extracts the template into it and releases the template.
   */
  function UnpackStage(s: State, tmpdirName: string): (r: StageResult)
    ensures r.state.build.tmpdir == Some(tmpdirName)
    ensures r.Raised? && r.error.DirectoryExists? <==> tmpdirName in s.disk
    ensures tmpdirName in s.disk ==> r.state.disk == s.disk
    ensures r.Ok? <==> tmpdirName !in s.disk && s.build.core.Some?
    ensures r.Ok? ==>
              && r.state.disk == s.disk[tmpdirName := Extracted(map[], s.build.core.value)]
              && r.state.build.outputs == s.build.outputs + Names(s.build.core.value)
              && r.state.build.core.None?
              && r.state.build.factory == s.build.factory
    ensures forall d :: d in s.disk ==> d in r.state.disk && r.state.disk[d] == s.disk[d]
    ensures r.state.disk - {tmpdirName} == s.disk - {tmpdirName}
  {
    var b := s.build.(tmpdir := Some(tmpdirName));
    if tmpdirName in s.disk then Raised(State(b, s.disk), DirectoryExists(tmpdirName))
    else
      match s.build.core
      case None => Raised(State(b, s.disk[tmpdirName := map[]]), NilReceiver("@core"))
      case Some(archive) =>
        Ok(State(b.(outputs := b.outputs + Names(archive), core := None),
                 s.disk[tmpdirName := Extracted(map[], archive)]))
  }

  /** The workspace directory and its core file are on disk. */
  predicate CoreFilePresent(s: State, core: string)
  {
    s.build.tmpdir.Some? && s.build.tmpdir.value in s.disk && core in s.disk[s.build.tmpdir.value]
  }

  /**
   * `patch`: patches the core file's bytes, then writes the factory's
   * encrypted config as a new file and appends its name to the outputs.
   * `writeBack` says whether the patched bytes replace the core file; the
   * program as written never stores them.
   */
  function PatchWorkspace(s: State, signature: Option<seq<byte>>, p: Params, rnd: Entropy, writeBack: bool)
    : (r: StageResult)
    ensures !CoreFilePresent(s, p.core) ==> r == Raised(s, NoSuchFile(p.core))
    ensures r.Raised? ==> r.state == s
    ensures CoreFilePresent(s, p.core) && s.build.factory.None? ==> r == Raised(s, EvidenceKeyMarkerNotFound)
    ensures CoreFilePresent(s, p.core) && s.build.factory.Some? ==>
              var c := PatchContent(s.disk[s.build.tmpdir.value][p.core], s.build.factory.value, signature, rnd, p.demo);
              && (c.Failure? ==> r == Raised(s, c.error))
              && (c.Success? && s.build.factory.value.config.None? ==> r == Raised(s, NilReceiver("configs.first")))
    ensures r.Ok? <==>
              && CoreFilePresent(s, p.core)
              && s.build.factory.Some?
              && PatchContent(s.disk[s.build.tmpdir.value][p.core], s.build.factory.value, signature, rnd, p.demo).Success?
              && s.build.factory.value.config.Some?
    ensures r.Ok? ==> r.state.build == s.build.(outputs := s.build.outputs + [p.config])
  {
    if !CoreFilePresent(s, p.core) then Raised(s, NoSuchFile(p.core))
    else
      var dir := s.build.tmpdir.value;
      match s.build.factory
      case None => Raised(s, EvidenceKeyMarkerNotFound)
      case Some(f) =>
        match PatchContent(s.disk[dir][p.core], f, signature, rnd, p.demo)
        case Failure(e) => Raised(s, e)
        case Success(patched) =>
          match f.config
          case None => Raised(s, NilReceiver("configs.first"))
          case Some(config) =>
            var files := if writeBack then s.disk[dir][p.core := patched] else s.disk[dir];
            Ok(State(s.build.(outputs := s.build.outputs + [p.config]), s.disk[dir := files[p.config := config]]))
  }

  /**
   * A successful patch touches only the workspace directory, where it adds
   * the config file and leaves every file other than the core and the config as it was.
   */
  lemma PatchWorkspaceFrame(s: State, signature: Option<seq<byte>>, p: Params, rnd: Entropy, writeBack: bool)
    requires PatchWorkspace(s, signature, p, rnd, writeBack).Ok?
    ensures var r := PatchWorkspace(s, signature, p, rnd, writeBack);
            var dir := s.build.tmpdir.value;
            && r.state.disk.Keys == s.disk.Keys
            && (forall d :: d in s.disk && d != dir ==> r.state.disk[d] == s.disk[d])
            && r.state.disk[dir].Keys == s.disk[dir].Keys + {p.config}
            && r.state.disk[dir][p.config] == s.build.factory.value.config.value
            && (forall n :: n in s.disk[dir] && n != p.config && n != p.core ==>
                              r.state.disk[dir][n] == s.disk[dir][n])
  {
  }

  /** The patch stage as the program is written: the patched bytes are never stored. */
  function PatchAsWritten(s: State, signature: Option<seq<byte>>, p: Params, rnd: Entropy): StageResult
  {
    PatchWorkspace(s, signature, p, rnd, false)
  }

  /** The patch stage with the patched bytes written back to the core file, as the rest of the model uses it. */
  function PatchStage(s: State, signature: Option<seq<byte>>, p: Params, rnd: Entropy): StageResult
  {
    PatchWorkspace(s, signature, p, rnd, true)
  }

  /**
   * As written, a successful patch leaves the core file as it was, so every
   * substitution it made is lost whenever it changed the buffer.
   */
  lemma PatchAsWrittenDiscardsBuffer(s: State, signature: Option<seq<byte>>, p: Params, rnd: Entropy)
    requires PatchAsWritten(s, signature, p, rnd).Ok?
    requires p.core != p.config
    ensures var dir := s.build.tmpdir.value;
            var original := s.disk[dir][p.core];
            var patched := PatchContent(original, s.build.factory.value, signature, rnd, p.demo).value;
            var stored := PatchAsWritten(s, signature, p, rnd).state.disk[dir][p.core];
            && stored == original
            && (patched != original ==> stored != patched)
  {
  }

  /**
   * With the write-back, a successful patch stores the patched buffer in the
   * core file, and with a 14-byte ident that file keeps its length.
   */
  lemma PatchStageStoresBuffer(s: State, signature: Option<seq<byte>>, p: Params, rnd: Entropy)
    requires PatchStage(s, signature, p, rnd).Ok?
    requires p.core != p.config
    ensures var dir := s.build.tmpdir.value;
            var original := s.disk[dir][p.core];
            var f := s.build.factory.value;
            var stored := PatchStage(s, signature, p, rnd).state.disk[dir][p.core];
            && stored == PatchContent(original, f, signature, rnd, p.demo).value
            && (WellFormedEntropy(rnd) && WellFormedSecrets(f, signature) && |f.ident| == 14 ==>
                  |stored| == |original|)
  {
    var dir := s.build.tmpdir.value;
    var f := s.build.factory.value;
    if WellFormedEntropy(rnd) && WellFormedSecrets(f, signature) && |f.ident| == 14 {
      PatchLength(s.disk[dir][p.core], f, signature, rnd, p.demo);
    }
  }

  /** The workspace a successful patch stage leaves: the patched core written back, then the config. */
  lemma PatchStageWorkspace(s: State, signature: Option<seq<byte>>, p: Params, rnd: Entropy)
    requires PatchStage(s, signature, p, rnd).Ok?
    ensures var dir := s.build.tmpdir.value;
            var f := s.build.factory.value;
            var patched := PatchContent(s.disk[dir][p.core], f, signature, rnd, p.demo).value;
            PatchStage(s, signature, p, rnd).state.disk == s.disk[dir := s.disk[dir][p.core := patched][p.config := f.config.value]]
  {
  }

  /** The core file's bytes after a successful patch: the patched buffer only when the stage writes it back. */
  function StoredCore(writeBack: bool, original: seq<byte>, patched: seq<byte>): seq<byte>
  {
    if writeBack then patched else original
  }

  /** A platform's implementation of the later stages. */
  type Hooks = (Stage, State) -> StageResult

  /** The base class's `scramble`, `melt`, `sign` and `pack`: they change nothing and cannot fail. */
  function BaseStage(stage: Stage, s: State): StageResult
  {
    Ok(s)
  }

  /** Runs one stage: the shared ones here, the others through the platform's hooks. */
  function Exec(env: Env, hooks: Hooks, stage: Stage, s: State): StageResult
  {
    match stage
    case Load => LoadStage(s, env.stores, env.params.ident)
    case Unpack => UnpackStage(s, env.tmpdirName)
    case Patch => PatchWorkspace(s, env.stores.agentSignature, env.params, env.entropy, env.writeBack)
    case _ => hooks(stage, s)
  }

  /** The result of running stages in order: the stages started, and the error if one raised. */
  datatype RunResult =
    | Completed(state: State, trace: seq<Stage>)
    | Aborted(state: State, error: BuildError, trace: seq<Stage>)

  /** Runs `stages` in order, stopping at the first that raises. */
  function Run(env: Env, hooks: Hooks, s: State, stages: seq<Stage>): (r: RunResult)
    ensures r.trace <= stages
    ensures r.Completed? ==> r.trace == stages
    ensures r.Aborted? ==> |r.trace| > 0
    decreases |stages|
  {
    if |stages| == 0 then Completed(s, [])
    else
      match Exec(env, hooks, stages[0], s)
      case Raised(s', e) => Aborted(s', e, [stages[0]])
      case Ok(s') => Prepend(stages[0], Run(env, hooks, s', stages[1..]))
  }

  /** Records `stage` as started before the stages of `r`. */
  function Prepend(stage: Stage, r: RunResult): RunResult
  {
    match r
    case Completed(t, tr) => Completed(t, [stage] + tr)
    case Aborted(t, e, tr) => Aborted(t, e, [stage] + tr)
  }

  /**
   * A run that raised stopped at the last stage it started: every stage
   * before it completed, and that stage raised the reported error.
   */
  lemma {:induction false} RunAbortsAtLastStarted(env: Env, hooks: Hooks, s: State, stages: seq<Stage>)
    requires Run(env, hooks, s, stages).Aborted?
    ensures var r := Run(env, hooks, s, stages);
            var n := |r.trace|;
            var before := Run(env, hooks, s, stages[..n - 1]);
            && before.Completed?
            && Exec(env, hooks, stages[n - 1], before.state) == Raised(r.state, r.error)
    decreases |stages|
  {
    var r := Run(env, hooks, s, stages);
    assert stages[..0] == [];
    match Exec(env, hooks, stages[0], s)
    case Raised(_, _) =>
    case Ok(s') =>
      var rest := stages[1..];
      RunAbortsAtLastStarted(env, hooks, s', rest);
      var n' := |Run(env, hooks, s', rest).trace|;
      var pre := stages[..n'];
      assert pre[0] == stages[0] && pre[1..] == rest[..n' - 1];
      assert stages[n'] == rest[n' - 1];
  }

  /** `clean`: removes the workspace tree when one was chosen, and does nothing otherwise. */
  function Clean(s: State): (r: State)
    ensures r.build == s.build
    ensures s.build.tmpdir.None? ==> r == s
    ensures s.build.tmpdir.Some? ==> s.build.tmpdir.value !in r.disk
    ensures forall d :: d in s.disk && Some(d) != s.build.tmpdir ==> d in r.disk && r.disk[d] == s.disk[d]
    ensures r.disk.Keys <= s.disk.Keys
  {
    match s.build.tmpdir
    case None => s
    case Some(dir) => s.(disk := s.disk - {dir})
  }

  /** Cleaning twice is cleaning once. */
  lemma CleanIdempotent(s: State)
    ensures Clean(Clean(s)) == Clean(s)
  {
  }

  /** What `create` returns or raises, with the stages it started. */
  datatype Outcome =
    | Done(state: State, trace: seq<Stage>)
    | Failed(state: State, error: BuildError, trace: seq<Stage>)

  /**
   * `create`: runs the stages in the fixed order; on an error it cleans the
   * workspace and re-raises. A successful build keeps its workspace for the caller.
   */
  function Create(s: State, env: Env, hooks: Hooks): (r: Outcome)
    ensures r.trace <= Pipeline && |r.trace| > 0
    ensures r.Done? ==> r.trace == Pipeline
    ensures r.Failed? ==> r.state.build.tmpdir.None? || r.state.build.tmpdir.value !in r.state.disk
  {
    match Run(env, hooks, s, Pipeline)
    case Completed(t, tr) => Done(t, tr)
    case Aborted(t, e, tr) => Failed(Clean(t), e, tr)
  }

  /**
   * A failed `create` re-raises, unchanged, the error of the last stage it
   * started, after every earlier stage completed, and the state it leaves is
   * that stage's state after `clean`.
   */
  lemma CreateReraises(s: State, env: Env, hooks: Hooks)
    requires Create(s, env, hooks).Failed?
    ensures var r := Create(s, env, hooks);
            var n := |r.trace|;
            var before := Run(env, hooks, s, Pipeline[..n - 1]);
            var last := Exec(env, hooks, Pipeline[n - 1], before.state);
            && before.Completed?
            && last.Raised?
            && last.error == r.error
            && r.state == Clean(last.state)
  {
    RunAbortsAtLastStarted(env, hooks, s, Pipeline);
  }

  /** The stages a platform may override. */
  predicate IsPlatformStage(stage: Stage)
  {
    stage.Scramble? || stage.Melt? || stage.Sign? || stage.Pack?
  }

  /** With the base implementations, the platform stages complete and leave the state, outputs included, as it was. */
  lemma {:induction false} BaseStagesChangeNothing(env: Env, s: State, stages: seq<Stage>)
    requires forall i :: 0 <= i < |stages| ==> IsPlatformStage(stages[i])
    ensures Run(env, BaseStage, s, stages) == Completed(s, stages)
    decreases |stages|
  {
    if |stages| > 0 {
      assert IsPlatformStage(stages[0]);
      BaseStagesChangeNothing(env, s, stages[1..]);
      assert [stages[0]] + stages[1..] == stages;
    }
  }

  /** A run of a first stage then the rest. */
  lemma RunFirst(env: Env, hooks: Hooks, s: State, first: Stage, rest: seq<Stage>)
    ensures var x := Exec(env, hooks, first, s);
            Run(env, hooks, s, [first] + rest) ==
              if x.Raised? then Aborted(x.state, x.error, [first])
              else Prepend(first, Run(env, hooks, x.state, rest))
  {
    assert ([first] + rest)[0] == first && ([first] + rest)[1..] == rest;
  }

  /** The stages from `patch` on, with the base implementations of the platform stages. */
  lemma RunFromPatch(env: Env, s: State)
    ensures var pt := Exec(env, BaseStage, Patch, s);
            Run(env, BaseStage, s, Pipeline[2..]) ==
              if pt.Raised? then Aborted(pt.state, pt.error, [Patch]) else Completed(pt.state, Pipeline[2..])
  {
    var late := [Scramble, Melt, Sign, Pack];
    assert Pipeline[2..] == [Patch] + late;
    RunFirst(env, BaseStage, s, Patch, late);
    var pt := Exec(env, BaseStage, Patch, s);
    if pt.Ok? {
      BaseStagesChangeNothing(env, pt.state, late);
    }
  }

  /** The stages from `unpack` on, with the base implementations of the platform stages. */
  lemma RunFromUnpack(env: Env, s: State)
    ensures var u := Exec(env, BaseStage, Unpack, s);
            var pt := Exec(env, BaseStage, Patch, u.state);
            Run(env, BaseStage, s, Pipeline[1..]) ==
              if u.Raised? then Aborted(u.state, u.error, [Unpack])
              else if pt.Raised? then Aborted(pt.state, pt.error, [Unpack, Patch])
              else Completed(pt.state, Pipeline[1..])
  {
    assert Pipeline[1..] == [Unpack] + Pipeline[2..];
    RunFirst(env, BaseStage, s, Unpack, Pipeline[2..]);
    var u := Exec(env, BaseStage, Unpack, s);
    if u.Ok? {
      RunFromPatch(env, u.state);
    }
  }

  /**
   * With the base implementations, `create` is `load`, `unpack` and `patch`
   * in that order, stopping at the first that raises; `clean` runs only on a
   * failure, and a success starts every stage of the pipeline.
   */
  lemma CreateWithBaseStages(s0: State, env: Env)
    ensures var h: Hooks := BaseStage;
            var l := Exec(env, h, Load, s0);
            var u := Exec(env, h, Unpack, l.state);
            var pt := Exec(env, h, Patch, u.state);
            Create(s0, env, h) ==
              if l.Raised? then Failed(Clean(l.state), l.error, [Load])
              else if u.Raised? then Failed(Clean(u.state), u.error, [Load, Unpack])
              else if pt.Raised? then Failed(Clean(pt.state), pt.error, [Load, Unpack, Patch])
              else Done(pt.state, Pipeline)
  {
    assert Pipeline == [Load] + Pipeline[1..];
    RunFirst(env, BaseStage, s0, Load, Pipeline[1..]);
    var l := Exec(env, BaseStage, Load, s0);
    if l.Ok? {
      RunFromUnpack(env, l.state);
    }
  }

  /**
   * A fresh instance with the base stages builds exactly when the template
   * and the factory item exist, the workspace name is free, the template
   * holds the core file, every marker patch of its first copy passes and the
   * factory has a config.
   */
  lemma BuildSucceedsExactlyWhen(cls: BuilderClass, disk: Disk, env: Env)
    ensures var st, p := env.stores, env.params;
            Create(State(NewBuild(cls), disk), env, BaseStage).Done? <==>
              && cls.platform in st.templates
              && p.ident in st.factories
              && env.tmpdirName !in disk
              && FirstData(st.templates[cls.platform], p.core).Some?
              && PatchContent(FirstData(st.templates[cls.platform], p.core).value, st.factories[p.ident],
                              st.agentSignature, env.entropy, p.demo).Success?
              && st.factories[p.ident].config.Some?
  {
    var s0 := State(NewBuild(cls), disk);
    CreateWithBaseStages(s0, env);
    var l := LoadStage(s0, env.stores, env.params.ident);
    if l.Ok? {
      ExtractFresh(env.stores.templates[cls.platform], env.params.core);
    }
  }

  /**
   * A fresh instance whose template and factory item exist, whose workspace
   * name is free and whose template holds the core file, but whose marker
   * patch fails, re-raises that marker's error from `patch` and leaves the
   * disk as it was.
   */
  lemma BuildFailsWithMarkerError(cls: BuilderClass, disk: Disk, env: Env)
    ensures var st, p := env.stores, env.params;
            var r := Create(State(NewBuild(cls), disk), env, BaseStage);
            && cls.platform in st.templates
            && p.ident in st.factories
            && env.tmpdirName !in disk
            && FirstData(st.templates[cls.platform], p.core).Some?
            && PatchContent(FirstData(st.templates[cls.platform], p.core).value, st.factories[p.ident],
                            st.agentSignature, env.entropy, p.demo).Failure?
            ==>
            && r.Failed?
            && r.error == PatchContent(FirstData(st.templates[cls.platform], p.core).value, st.factories[p.ident],
                                       st.agentSignature, env.entropy, p.demo).error
            && r.error in MarkerErrors
            && r.trace == [Load, Unpack, Patch]
            && r.state.disk == disk
  {
    var s0 := State(NewBuild(cls), disk);
    var st, p, tmp := env.stores, env.params, env.tmpdirName;
    if && cls.platform in st.templates && p.ident in st.factories && tmp !in disk
       && FirstData(st.templates[cls.platform], p.core).Some?
    {
      var c := PatchContent(FirstData(st.templates[cls.platform], p.core).value, st.factories[p.ident],
                            st.agentSignature, env.entropy, p.demo);
      if c.Failure? {
        CreateWithBaseStages(s0, env);
        var pt := FreshStagesUpToPatch(cls, disk, env);
        assert Clean(pt.state).disk == disk;
      }
    }
  }

  /** The `patch` outcome of a fresh instance whose `load` and `unpack` pass, and what it leaves on disk. */
  lemma FreshStagesUpToPatch(cls: BuilderClass, disk: Disk, env: Env) returns (pt: StageResult)
    requires cls.platform in env.stores.templates && env.params.ident in env.stores.factories
    requires env.tmpdirName !in disk
    ensures var l := Exec(env, BaseStage, Load, State(NewBuild(cls), disk));
            var u := Exec(env, BaseStage, Unpack, l.state);
            && l.Ok? && u.Ok?
            && pt == Exec(env, BaseStage, Patch, u.state)
            && (pt.Raised? ==> pt.state.build.tmpdir == Some(env.tmpdirName) && pt.state.disk - {env.tmpdirName} == disk)
            && var archive := env.stores.templates[cls.platform];
               FirstData(archive, env.params.core).Some? ==>
                 var c := PatchContent(FirstData(archive, env.params.core).value, env.stores.factories[env.params.ident],
                                       env.stores.agentSignature, env.entropy, env.params.demo);
                 c.Failure? ==> pt.Raised? && pt.error == c.error
  {
    var st, p, tmp := env.stores, env.params, env.tmpdirName;
    var archive := st.templates[cls.platform];
    var l := LoadStage(State(NewBuild(cls), disk), st, p.ident);
    var u := UnpackStage(l.state, tmp);
    assert u.state.disk == disk[tmp := Extracted(map[], archive)];
    assert u.state.disk - {tmp} == disk;
    ExtractFresh(archive, p.core);
    pt := PatchWorkspace(u.state, st.agentSignature, p, env.entropy, env.writeBack);
  }

  /** A successful `create` with the base stages is one whose `load`, `unpack` and `patch` all passed. */
  lemma CreateDone(s0: State, env: Env)
    requires Create(s0, env, BaseStage).Done?
    ensures var l := LoadStage(s0, env.stores, env.params.ident);
            var u := UnpackStage(l.state, env.tmpdirName);
            var pt := PatchWorkspace(u.state, env.stores.agentSignature, env.params, env.entropy, env.writeBack);
            && l.Ok? && u.Ok? && pt.Ok?
            && Create(s0, env, BaseStage) == Done(pt.state, Pipeline)
  {
    CreateWithBaseStages(s0, env);
  }

  /**
   * A successful build with the base stages found the template and the
   * factory item, and the outputs are the entry names in archive order
   * followed by the config name. The workspace holds the extracted files and
   * the config; as written the core file keeps its extracted bytes, and only
   * with the write-back does it hold the patched ones.
   */
  lemma SuccessfulBuildWorkspace(cls: BuilderClass, disk: Disk, env: Env)
    requires Create(State(NewBuild(cls), disk), env, BaseStage).Done?
    ensures var r := Create(State(NewBuild(cls), disk), env, BaseStage);
            var st, p := env.stores, env.params;
            && cls.platform in st.templates
            && p.ident in st.factories
            && var archive := st.templates[cls.platform];
               var f := st.factories[p.ident];
               var files := Extracted(map[], archive);
               && p.core in files
               && f.config.Some?
               && PatchContent(files[p.core], f, st.agentSignature, env.entropy, p.demo).Success?
               && r.state.build.outputs == Names(archive) + [p.config]
               && r.state.build.tmpdir == Some(env.tmpdirName)
               && (!env.writeBack ==> r.state.disk == disk[env.tmpdirName := files[p.config := f.config.value]])
               && (env.writeBack ==>
                     r.state.disk ==
                       disk[env.tmpdirName :=
                              files[p.core := PatchContent(files[p.core], f, st.agentSignature, env.entropy, p.demo).value]
                                   [p.config := f.config.value]])
  {
    var s0 := State(NewBuild(cls), disk);
    CreateDone(s0, env);
    var l := LoadStage(s0, env.stores, env.params.ident).state;
    UnpackThenPatch(l, env);
    var files := Extracted(map[], l.build.core.value);
    assert files[env.params.core := files[env.params.core]] == files;
  }

  /** A successful patch stage over a workspace holding `files`: the outputs and the workspace it leaves. */
  lemma PatchOverFiles(u: State, env: Env, files: Files)
    requires u.build.tmpdir == Some(env.tmpdirName) && env.tmpdirName in u.disk && u.disk[env.tmpdirName] == files
    requires PatchWorkspace(u, env.stores.agentSignature, env.params, env.entropy, env.writeBack).Ok?
    ensures var p := env.params;
            var pt := PatchWorkspace(u, env.stores.agentSignature, p, env.entropy, env.writeBack);
            var f := u.build.factory.value;
            && p.core in files
            && pt.state.build.outputs == u.build.outputs + [p.config]
            && pt.state.build.tmpdir == Some(env.tmpdirName)
            && pt.state.disk ==
                 u.disk[env.tmpdirName :=
                          files[p.core := StoredCore(env.writeBack, files[p.core],
                                                     PatchContent(files[p.core], f, env.stores.agentSignature, env.entropy, p.demo).value)]
                               [p.config := f.config.value]]
  {
    var p := env.params;
    if !env.writeBack {
      assert files[p.core := files[p.core]] == files;
    }
  }

  /** `unpack` then `patch`, when both pass, after a `load` that found the template and the factory item. */
  lemma UnpackThenPatch(s1: State, env: Env)
    requires s1.build.core.Some? && s1.build.factory.Some?
    requires UnpackStage(s1, env.tmpdirName).Ok?
    requires PatchWorkspace(UnpackStage(s1, env.tmpdirName).state, env.stores.agentSignature, env.params, env.entropy,
                            env.writeBack).Ok?
    ensures var p, tmp := env.params, env.tmpdirName;
            var pt := PatchWorkspace(UnpackStage(s1, tmp).state, env.stores.agentSignature, p, env.entropy, env.writeBack);
            var archive := s1.build.core.value;
            var f := s1.build.factory.value;
            var files := Extracted(map[], archive);
            && p.core in files
            && pt.state.build.outputs == s1.build.outputs + Names(archive) + [p.config]
            && pt.state.build.tmpdir == Some(tmp)
            && pt.state.disk ==
                 s1.disk[tmp := files[p.core := StoredCore(env.writeBack, files[p.core],
                                                           PatchContent(files[p.core], f, env.stores.agentSignature, env.entropy, p.demo).value)]
                                     [p.config := f.config.value]]
  {
    var tmp := env.tmpdirName;
    var files := Extracted(map[], s1.build.core.value);
    var u := UnpackStage(s1, tmp).state;
    PatchOverFiles(u, env, files);
    var p, f := env.params, s1.build.factory.value;
    var ws := files[p.core := StoredCore(env.writeBack, files[p.core],
                                         PatchContent(files[p.core], f, env.stores.agentSignature, env.entropy, p.demo).value)]
                   [p.config := f.config.value];
    assert u.disk == s1.disk[tmp := files];
    assert u.disk[tmp := ws] == s1.disk[tmp := ws];
  }

  /**
   * What a failed build removes. Failing in `load`, it removes the workspace
   * an earlier build of the same instance left, if any, and nothing on a fresh
   * instance. Once `unpack` has named the workspace, `clean` removes the
   * directory of that name, even one that existed before the build and made
   * `Dir.mkdir` fail.
   */
  lemma FailedBuildLeavesNoWorkspace(s0: State, env: Env)
    ensures var r := Create(s0, env, BaseStage);
            && (r.Failed? && |r.trace| == 1 ==>
                  r.state.disk == if s0.build.tmpdir.Some? then s0.disk - {s0.build.tmpdir.value} else s0.disk)
            && (r.Failed? && |r.trace| > 1 ==> r.state.disk == s0.disk - {env.tmpdirName})
  {
    CreateWithBaseStages(s0, env);
  }
}
