/** The merge callback (`merge` with its inner `deployAssemblies` and
    `getGameAssemblies`). The filesystem and the external patcher are the
    functions of an `Env`; the active game is an `Option` input. */
module Merge {
  import opened Wrappers
  import opened Strings
  import opened Paths
  import opened Types
  import opened PatchTarget
  import opened Assemblies
  import opened Deploy

  /** The message of the error raised when no game is being managed. */
  const NotManagingMessage: string := "Not actively managing any game"

  /** The message of the exception thrown when details are read off `undefined`. */
  const UndefinedDetailsMessage: string := "Cannot read properties of undefined (reading 'dataPath')"

  /** The arguments passed to `runPatcher`; the extension context is omitted. */
  datatype PatcherCall = PatcherCall(
    extensionPath: string,
    mergedFilePath: string,
    entryPoint: string,
    dryRun: bool,
    modsPath: string,
    injectVIGO: bool,
    unityEnginePath: string)

  /** The environment a merge runs in. `modulesUnpacked` is the host's
      unpacked-modules directory; the functions stand for `readdirAsync`,
      `lstatAsync`, `statAsync`, `copyAsync`, `removeAsync` and `runPatcher`. */
  datatype Env = Env(
    modulesUnpacked: string,
    readdir: string -> Result<seq<string>, Error>,
    lstat: string -> LstatResult,
    stat: string -> Outcome<Error>,
    copy: (string, string) -> Outcome<Error>,
    remove: string -> Outcome<Error>,
    runPatcher: PatcherCall -> Outcome<Error>)

  /** One merge: what the caller sees, the filesystem requests, and the
      patcher invocation if it happened. */
  datatype MergeRun = MergeRun(outcome: Outcome<Error>, ops: seq<FsOp>, patcherCall: Option<PatcherCall>)

  /** `MODULE_PATH`: where the patcher module's own assemblies live. */
  function ModulePath(env: Env): string {
    Join(Join(env.modulesUnpacked, "harmony-patcher"), "dist")
  }

  /** The directory of an assembly path; a path that is not a `.dll` already
      is one. The directory of a `.dll` path is `.` or the part before its
      last separator. */
  function AssemblyDir(path: string): (r: string)
    ensures !EndsWith(path, DllExtension) ==> r == path
    ensures EndsWith(path, DllExtension) ==>
      || (r == "." && IsComponent(path))
      || (|r| < |path| && path[..|r|] == r && path[|r|] == Sep && IsComponent(path[|r| + 1..]))
  {
    if EndsWith(path, DllExtension) then Dirname(path) else path
  }

  /** The directory of an assembly joined onto a directory is that directory. */
  lemma AssemblyDirJoin(dir: string, name: string)
    requires IsComponent(name) && EndsWith(name, DllExtension)
    ensures AssemblyDir(Join(dir, name)) == dir
  {
    JoinEndsWith(dir, name, DllExtension);
    DirnameJoin(dir, name);
  }

  /** A declared `dataPath` naming a directory is where the patcher looks for
      the runtime: normalising it and taking the assembly directory gives it back. */
  lemma NormalisedDirectoryRoundTrip(dataPath: string)
    requires !EndsWith(dataPath, DllExtension)
    ensures AssemblyDir(NormaliseDataPath(dataPath)) == dataPath
  {
    assert IsComponent(DefaultUnityAssembly) by {
      forall i | 0 <= i < |DefaultUnityAssembly| ensures DefaultUnityAssembly[i] != Sep {
      }
    }
    AssemblyDirJoin(dataPath, DefaultUnityAssembly);
  }

  /** The `.catch` at the end of `merge`: a user cancellation becomes success
      and every other error is re-raised unchanged. */
  function Settle(o: Outcome<Error>): (r: Outcome<Error>)
    ensures r.Pass? <==> o.Pass? || o == Fail(UserCanceled)
    ensures r.Fail? ==> r == o
  {
    match o
    case Pass => Pass
    case Fail(e) => if e == UserCanceled then Pass else Fail(e)
  }

  /** The three listings `deployAssemblies` waits for: the module directory,
      the merge destination, and the game-owned assemblies. When several
      fail, the first in this order is reported. */
  datatype Listings = Listings(bundled: seq<string>, destination: seq<string>, gameOwned: seq<string>)

  function ReadListings(env: Env, assemblyPath: string, unityDataPath: string)
    : (r: Result<Listings, Error>)
    ensures r.Ok? <==>
      env.readdir(ModulePath(env)).Ok? && env.readdir(assemblyPath).Ok?
      && env.readdir(unityDataPath).Ok?
    ensures r.Err? ==>
      || env.readdir(ModulePath(env)) == Err(r.error)
      || env.readdir(assemblyPath) == Err(r.error)
      || env.readdir(unityDataPath) == Err(r.error)
    ensures r.Ok? ==>
      && r.value.bundled == env.readdir(ModulePath(env)).value
      && r.value.destination == env.readdir(assemblyPath).value
      && r.value.gameOwned
         == GameAssemblies(unityDataPath, env.readdir(unityDataPath).value, env.lstat)
  {
    var bundled :- env.readdir(ModulePath(env));
    var destination :- env.readdir(assemblyPath);
    var entries :- env.readdir(unityDataPath);
    Ok(Listings(bundled, destination, GameAssemblies(unityDataPath, entries, env.lstat)))
  }

  /** The assemblies a deployment copies, once its listings are read. */
  function DeployDiff(l: Listings): seq<string> {
    Diff(l.bundled, l.destination, l.gameOwned)
  }

  /** `deployAssemblies`: copy the diff into the merge directory's copy of
      the data directory, with rollback. Every copy takes a module assembly
      that passes the filter and is neither deployed yet nor owned by the
      game, so no file of the game is ever overwritten. */
  function DeployAssemblies(env: Env, mergeDir: string, relDataPath: string, unityDataPath: string)
    : (r: DeployRun)
    ensures var listings := ReadListings(env, Join(mergeDir, AssemblyDir(relDataPath)), unityDataPath);
      listings.Err? ==> r.ops == [] && r.outcome == Fail(listings.error)
    ensures var assemblyPath := Join(mergeDir, AssemblyDir(relDataPath));
      var listings := ReadListings(env, assemblyPath, unityDataPath);
      listings.Ok? ==>
        var diff := DeployDiff(listings.value);
        r.outcome.Pass? <==> forall i :: 0 <= i < |diff| ==>
          env.copy(Join(ModulePath(env), diff[i]), Join(assemblyPath, diff[i])) == Pass
    ensures var assemblyPath := Join(mergeDir, AssemblyDir(relDataPath));
      var listings := ReadListings(env, assemblyPath, unityDataPath);
      listings.Ok? && r.outcome.Fail? ==>
        var diff := DeployDiff(listings.value);
        exists k :: 0 <= k < |diff|
          && (forall i :: 0 <= i < k ==>
                env.copy(Join(ModulePath(env), diff[i]), Join(assemblyPath, diff[i])) == Pass)
          && env.copy(Join(ModulePath(env), diff[k]), Join(assemblyPath, diff[k])) == r.outcome
    ensures var assemblyPath := Join(mergeDir, AssemblyDir(relDataPath));
      var listings := ReadListings(env, assemblyPath, unityDataPath);
      listings.Ok? ==>
        var l := listings.value;
        var diff := DeployDiff(l);
        forall j :: 0 <= j < |r.ops| && r.ops[j].Copy? ==>
          && j < |diff|
          && r.ops[j] == Copy(Join(ModulePath(env), diff[j]), Join(assemblyPath, diff[j]))
          && diff[j] in l.bundled && KeepModuleAssembly(diff[j])
          && diff[j] !in l.destination && diff[j] !in l.gameOwned
    ensures var assemblyPath := Join(mergeDir, AssemblyDir(relDataPath));
      var listings := ReadListings(env, assemblyPath, unityDataPath);
      listings.Ok? ==>
        var diff := DeployDiff(listings.value);
        forall j :: 0 <= j < |r.ops| && r.ops[j].Remove? ==>
          exists i :: 0 <= i < |diff| && r.ops[j].path == Join(assemblyPath, diff[i])
  {
    var assemblyPath := Join(mergeDir, AssemblyDir(relDataPath));
    match ReadListings(env, assemblyPath, unityDataPath)
    case Err(e) => DeployRun([], Fail(e), None)
    case Ok(l) =>
      var diff := DeployDiff(l);
      RollbackRequests(diff, ModulePath(env), assemblyPath, env.copy, env.remove);
      DiffElements(l.bundled, l.destination, l.gameOwned);
      CopyWithRollback(diff, ModulePath(env), assemblyPath, env.copy, env.remove)
  }

  /** A successful deployment adds exactly the destination of every assembly
      in the diff to the file set, and nothing else changes. */
  lemma DeploymentAddsDiff(env: Env, mergeDir: string, relDataPath: string, unityDataPath: string,
                           files: set<string>)
    requires DeployAssemblies(env, mergeDir, relDataPath, unityDataPath).outcome.Pass?
    ensures ReadListings(env, Join(mergeDir, AssemblyDir(relDataPath)), unityDataPath).Ok?
    ensures var assemblyPath := Join(mergeDir, AssemblyDir(relDataPath));
      var listings := ReadListings(env, assemblyPath, unityDataPath);
      listings.Ok? ==>
      Effect(files, DeployAssemblies(env, mergeDir, relDataPath, unityDataPath).ops,
                env.copy, env.remove)
         == files + (set x | x in DeployDiff(listings.value) :: Join(assemblyPath, x))
  {
    var assemblyPath := Join(mergeDir, AssemblyDir(relDataPath));
    var l := ReadListings(env, assemblyPath, unityDataPath).value;
    DeployPlacesEveryItem(files, DeployDiff(l), ModulePath(env), assemblyPath, env.copy, env.remove);
  }

  /** `merge`: resolve the patch target, check the merged assembly exists,
      deploy the support assemblies, run the patcher. */
  function Merge(env: Env, gameInfo: Option<GameStoredInfo>, mergeDir: string): (r: MergeRun)
    ensures r.outcome != Fail(UserCanceled)
    ensures gameInfo.None? ==>
      r == MergeRun(Fail(NotFound(NotManagingMessage)), [], None)
    ensures gameInfo.Some? && GetPatcherDetails(gameInfo.value.game).None? ==>
      r.outcome.Fail? && r.outcome.error.TypeError? && r.ops == [] && r.patcherCall.None?
    ensures gameInfo.Some? && GetPatcherDetails(gameInfo.value.game).Some? ==>
      var info := gameInfo.value;
      var d := GetPatcherDetails(info.game).value;
      var mergedFilePath := Join(mergeDir, d.dataPath);
      && (r.ops != [] || r.patcherCall.Some? ==> env.stat(mergedFilePath).Pass?)
      && (env.stat(mergedFilePath).Fail? ==>
            r.ops == [] && r.patcherCall.None? && r.outcome == Settle(env.stat(mergedFilePath)))
      && (r.patcherCall.Some? <==>
            env.stat(mergedFilePath).Pass?
            && DeployAssemblies(env, mergeDir, d.dataPath,
                                Dirname(Join(info.discoveryPath, d.dataPath))).outcome.Pass?)
      && (env.stat(mergedFilePath).Pass? ==>
            var deploy := DeployAssemblies(env, mergeDir, d.dataPath,
                                           Dirname(Join(info.discoveryPath, d.dataPath)));
            && r.ops == deploy.ops
            && (deploy.outcome.Fail? ==> r.outcome == Settle(deploy.outcome)))
      && (r.patcherCall.Some? ==>
            && r.patcherCall.value == PatcherCall(info.game.extensionPath, mergedFilePath,
                 d.entryPoint, false, Join(info.discoveryPath, d.modsPath), d.injectVIGO,
                 Dirname(Join(info.discoveryPath, d.dataPath)))
            && EndsWith(r.patcherCall.value.mergedFilePath, DllExtension)
            && r.outcome == Settle(env.runPatcher(r.patcherCall.value)))
  {
    if gameInfo.None? then MergeRun(Fail(NotFound(NotManagingMessage)), [], None)
    else
      var info := gameInfo.value;
      match GetPatcherDetails(info.game)
      case None => MergeRun(Fail(TypeError(UndefinedDetailsMessage)), [], None)
      case Some(d) =>
        var dataPath := Join(info.discoveryPath, d.dataPath);
        var modsPath := Join(info.discoveryPath, d.modsPath);
        var mergedFilePath := Join(mergeDir, d.dataPath);
        JoinEndsWith(info.discoveryPath, d.dataPath, DllExtension);
        JoinEndsWith(mergeDir, d.dataPath, DllExtension);
        var unityEnginePath := AssemblyDir(dataPath);
        match env.stat(mergedFilePath)
        case Fail(e) => MergeRun(Settle(Fail(e)), [], None)
        case Pass =>
          var deploy := DeployAssemblies(env, mergeDir, d.dataPath, unityEnginePath);
          if deploy.outcome.Fail? then MergeRun(Settle(deploy.outcome), deploy.ops, None)
          else
            var call := PatcherCall(info.game.extensionPath, mergedFilePath, d.entryPoint,
                                    false, modsPath, d.injectVIGO, unityEnginePath);
            MergeRun(Settle(env.runPatcher(call)), deploy.ops, Some(call))
  }

  /** A missing merged assembly is not skipped: the failing `stat` is not a
      cancellation, so its error reaches the caller and nothing is copied. */
  lemma MissingMergedFileFails(env: Env, info: GameStoredInfo, mergeDir: string, e: Error)
    requires GetPatcherDetails(info.game).Some?
    requires env.stat(Join(mergeDir, GetPatcherDetails(info.game).value.dataPath)) == Fail(e)
    requires e != UserCanceled
    ensures Merge(env, Some(info), mergeDir) == MergeRun(Fail(e), [], None)
  {
  }

  /** A user cancellation raised by the stat, the deployment or the patcher
      ends the merge successfully. */
  lemma CancellationIsSuccess(env: Env, info: GameStoredInfo, mergeDir: string)
    requires GetPatcherDetails(info.game).Some?
    requires var d := GetPatcherDetails(info.game).value;
      var mergedFilePath := Join(mergeDir, d.dataPath);
      var deploy := DeployAssemblies(env, mergeDir, d.dataPath,
                                     Dirname(Join(info.discoveryPath, d.dataPath)));
      || env.stat(mergedFilePath) == Fail(UserCanceled)
      || (env.stat(mergedFilePath).Pass? && deploy.outcome == Fail(UserCanceled))
      || (env.stat(mergedFilePath).Pass? && deploy.outcome.Pass?
          && env.runPatcher(PatcherCall(info.game.extensionPath, mergedFilePath, d.entryPoint,
               false, Join(info.discoveryPath, d.modsPath), d.injectVIGO,
               Dirname(Join(info.discoveryPath, d.dataPath)))) == Fail(UserCanceled))
    ensures Merge(env, Some(info), mergeDir).outcome == Pass
  {
  }
}
