# Harmony patcher mod type — a Dafny model

This project models the decision logic of the Vortex extension that registers
the `harmonypatchermod` mod type. At deployment time the extension injects the
Harmony runtime patcher into a Unity game. The model covers:

- resolving a game's `harmonyPatchDetails` into `IPatcherDetails`, with
  `dataPath` normalised to name a `.dll`;
- the assembly filter and diff of `deployAssemblies`, and the symlink filter of
  `getGameAssemblies`;
- copy-with-rollback of the diffed assemblies. This includes the ledger of
  copied files, cleanup that stops at the first failed removal, and the
  original copy error being re-raised;
- the `merge` pipeline (stat → deploy → `runPatcher`), where a user
  cancellation becomes success;
- the `test` instruction predicate and the `canMerge` filter. Both look for the
  sentinel file `__harmony_merge_fake_file`;
- the marker mod: profile-name sanitisation, its id, its creation record, and
  `ensureHarmonyMod`'s create-or-refresh of the registry;
- the `will-deploy` hook's decision whether to enable the marker mod.

The host store, the filesystem and the patcher are explicit inputs:

- directory listings are `seq<string>`;
- `lstat`, `stat`, `copy`, `remove`, `ensureFile` and `runPatcher` are total
  functions from their arguments to outcomes (the `Env` and `ModHost` records);
- the active game is an `Option<GameStoredInfo>`;
- the registry is a `map` from game id to mod id to mod;
- every store dispatch, `create-mod` event and sentinel write is returned as a
  `Command`.

Modules follow the source: `Types` (src/types.ts), `PatchTarget`,
`Assemblies`, `Deploy`, `Merge`, `ModType` and `Gate` (src/index.ts), and
`HarmonyMod` (src/harmonymod.ts). `Wrappers`, `Strings`, `Paths` and `Seqs` are
helpers. They model `Option`/`Result`, `startsWith`/`endsWith`/`indexOf`, an
abstract `path.join`/`path.dirname`, and `Array.prototype.filter`.

In three places the model follows the code as written:

- A missing merged assembly is not skipped. `statAsync` rejects with an error
  that is not a cancellation, so `merge` re-raises it (`Merge.MissingMergedFileFails`).
- Cleanup after a failed copy is not one independent removal per file.
  `Promise.each` stops at the first removal that fails (`Deploy.RemoveEach`).
- The `will-deploy` hook looks the marker mod up at the root path
  `['mods', modId]`, in the snapshot taken before `ensureHarmonyMod` runs
  (`Gate.WillDeploy`). See Findings.

## Model

| member | source | states |
|---|---|---|
| PatchTarget.GetPatcherDetails | src/index.ts:60-75 | Details are present iff `details` exists, holds a truthy value under `harmonyPatchDetails`, that value survives the clone, and its `dataPath` is a string. A present result's `dataPath` ends in `.dll`: it is kept when it already did, otherwise it is `join(dataPath, "Assembly-CSharp.dll")`. The other fields are copied unchanged. |
| PatchTarget.NormaliseDataPath | src/index.ts:65-67 | The normalised path always ends in `.dll`. A path that already ends in `.dll` is kept as it is. Any other path becomes `join(dataPath, "Assembly-CSharp.dll")`. |
| PatchTarget.NormaliseIdempotent | src/index.ts:65-67 | Normalising twice gives the same path as normalising once. |
| PatchTarget.ResolveRoundTrip | src/index.ts:60-75 | Declaring resolved details on a game and resolving them again returns the same details. |
| PatchTarget.AbsentCases | src/index.ts:61-74 | Each of these yields absent details and raises no error: no `details`, no `harmonyPatchDetails` key, a falsy value there, or a `dataPath` that is not a string. |
| Strings.IndexOf | src/index.ts:55 | `indexOf` returns -1 iff the substring does not occur. Otherwise it returns a position where it occurs, with no earlier occurrence. |
| Seqs.FindIndex | src/index.ts:54-55 | `find`'s search: the index found satisfies the callback and no earlier element does. -1 means no element satisfies it. |
| Assemblies.ModuleAssemblies | src/index.ts:115-117 | An entry of the module listing is kept iff it is a `.dll` not starting with `System`, or it is exactly `System.Runtime.Serialization.dll`. The kept entries are a subsequence of the listing, in listing order. |
| Assemblies.GameAssemblies | src/index.ts:88-103 | An entry is game-owned iff it is a `.dll` whose `lstat` succeeds and reports no symbolic link. Entries whose `lstat` fails are dropped. The result keeps listing order. |
| Assemblies.Diff | src/index.ts:119-120 | The diff is an order-preserving subsequence of the filtered module listing. It holds exactly the kept module assemblies that are neither at the destination nor game-owned. |
| Assemblies.SerializationAllowListed | src/index.ts:115-117 | `System.Runtime.Serialization.dll` starts with `System` yet passes the filter. `System.Core.dll` and a non-`.dll` file do not. |
| Assemblies.DiffDisjoint | src/index.ts:119-120 | The diff shares no file with the destination listing or the game-owned listing. |
| Assemblies.DiffElements | src/index.ts:115-120 | Every position of the diff holds an entry of the module listing that passes the filter and is neither in the destination listing nor game-owned. |
| Assemblies.DiffExample | src/index.ts:115-120 | Module `[A.dll, System.Core.dll, System.Runtime.Serialization.dll]`, destination `[]` and game `[A.dll]` give `[System.Runtime.Serialization.dll]`. |
| Assemblies.RediffEmpty | src/index.ts:119-120 | Once the destination holds its old files and every diffed file, diffing again yields nothing. |
| Deploy.CopyEach | src/index.ts:124-128 | The ledger is a prefix of the item destinations, each one a successful copy. The run stops at the first failing copy, which sits at index `len(ledger)` and carries the reported error. Without a failure the ledger covers every item. |
| Deploy.RemoveEach | src/index.ts:133 | The removals that succeeded are a prefix of the ledger. The first failing removal stops the cleanup and its error is kept. |
| Deploy.CopyWithRollback | src/index.ts:123-141 | Success holds iff every copy succeeds, and then the requests are exactly the copies in diff order. On failure the caller sees the first failing copy's error. The requests are then the copies up to and including that copy, followed by the ordered removals of the ledger, and the cleanup error is only logged. |
| Deploy.RollbackFailureIsFirst | src/index.ts:125-129 | A failed deployment reports the error of some item whose copy fails, and every earlier item's copy succeeded. |
| Deploy.RequestShape | src/index.ts:125-133 | In copies of a prefix of the items followed by removals of a ledger prefix, a copy at position `j` copies item `j` from the module directory to the destination. Every removal targets some item's destination. |
| Deploy.RollbackRequestShape | src/index.ts:123-139 | Every copy request of a deployment at position `j` copies item `j`, and every removal targets the destination of some item. |
| Deploy.RollbackRequests | src/index.ts:123-139 | Combines the two above: the first failing item's error is reported, each copy at position `j` copies item `j`, and removals only target item destinations. |
| Deploy.FirstFailureIsReported | src/index.ts:124-139 | When item k is the first whose copy fails, the caller sees that copy's error, no later copy is attempted, and every later request removes the destination of an item before k. |
| Deploy.FirstFailureLedger | src/index.ts:124-129 | When item k is the first whose copy fails, the ledger holds exactly k entries and the recorded failure is that copy's error. |
| Deploy.CleanupNeverMasksError | src/index.ts:129-139 | The error the caller sees is the same whatever the removals do. |
| Deploy.RollbackRestoresFiles | src/index.ts:129-134 | After a failed copy and a cleanup where no removal fails, the file set equals the initial set minus the ledger. No copied file is left. |
| Deploy.CleanRollbackOps | src/index.ts:124-134 | After a failed copy with a clean cleanup, the requests are the successful copies, then the failing copy, then one removal per ledger entry in ledger order. |
| Deploy.FailedCopyNoEffect | src/index.ts:126-128 | A copy request that fails leaves the file set unchanged. |
| Deploy.LedgerDestinations | src/index.ts:124-128 | The ledger holds exactly the destinations of the items it covers. |
| Deploy.DeployPlacesEveryItem | src/index.ts:125-128 | A successful deployment adds exactly the destination of every diffed item to the file set. |
| Merge.AssemblyDir | src/index.ts:106 | The directory step of `deployAssemblies`, which `merge` repeats for `unityEnginePath` at src/index.ts:148. A path that does not end in `.dll` is kept. A `.dll` path is reduced to `.` when it is a single component, and otherwise to its prefix before the last separator. |
| Merge.AssemblyDirJoin | src/index.ts:106 | The directory of a `.dll` name joined onto a directory is that directory. |
| Merge.NormalisedDirectoryRoundTrip | src/index.ts:65-67 | A declared `dataPath` that names a directory comes back from normalising it and then taking its assembly directory. |
| Merge.Settle | src/index.ts:159-161 | The merge's catch turns a `UserCanceled` into success and re-raises every other error unchanged. |
| Merge.ReadListings | src/index.ts:108-110 | The listings exist iff all three directory reads succeed. The game listing is then filtered by `getGameAssemblies`. A failure reports the error of one of the failing reads. |
| Merge.DeployAssemblies | src/index.ts:105-142 | A failed listing issues no filesystem request and fails with its error. Otherwise the outcome is success iff every assembly of the diff copies from the module directory into `join(mergeDir, dirname(relDataPath))`. A failure is the error of the first failing copy. Each copy request takes a module assembly that passes the filter and is neither at the destination nor game-owned, so no game file is overwritten. Every removal targets a destination of the diff. |
| Merge.DeploymentAddsDiff | src/index.ts:119-128 | A successful deployment adds to the file set exactly the destination of every diffed assembly, and nothing else changes. |
| Merge.Merge | src/index.ts:77-162 | With no active game the merge fails with NotFound. With no details it fails with a TypeError. No copy and no patcher call happen unless the merged assembly's `stat` succeeds. The patcher runs iff stat and deployment succeed. Its arguments are the extension path, `join(mergeDir, dataPath)` (a `.dll`), the entry point, `false`, the joined mods path, the inject flag and the runtime directory. The merge never ends in `UserCanceled`. |
| Merge.MissingMergedFileFails | src/index.ts:149-161 | A failing `stat` of the merged assembly that is not a cancellation is re-raised. Nothing is copied and the patcher does not run. |
| Merge.CancellationIsSuccess | src/index.ts:149-161 | A `UserCanceled` from the stat, the deployment or the patcher ends the merge with success. |
| ModType.FindSentinel | src/index.ts:53-55 | A found instruction is the first in the list whose source contains the sentinel. When nothing is found, no instruction with a source contains it. |
| ModType.IsPatcherGame | src/index.ts:189-198 | `isHarmonyPatcherGame` holds iff a game is managed and it declares patch details that survive the clone and carry a string `dataPath`. The game id argument is ignored. |
| ModType.Test | src/index.ts:41-58 | `test` is true iff a game is managed, it has patcher details, and some instruction with a truthy source contains the sentinel file name. |
| ModType.MergeFilterAccepts | src/index.ts:175 | The merge filter accepts a path iff the path contains the sentinel file name. |
| ModType.CanMerge | src/index.ts:164-177 | A merge filter exists iff the game has patcher details. Its one base file goes from `join(discoveryPath, dataPath)` to `dataPath`, and both end in `.dll`. |
| ModType.SentinelRecognised | src/index.ts:53-55 | A sentinel file deployed under any directory passes the merge filter. Any instruction list that deploys it makes `test` true. |
| HarmonyMod.SanitizeProfileName | src/harmonymod.ts:7-11 | Sanitisation preserves length. Each invalid character (`: / \ * ? " < > \|`) becomes `_` and every other character is unchanged, so no invalid character remains. |
| HarmonyMod.SanitizeIdempotent | src/harmonymod.ts:28 | Sanitising twice equals sanitising once. |
| HarmonyMod.HarmonyDataMod | src/harmonymod.ts:13-15 | The marker mod id parses back to exactly the sanitised profile name between `Vortex Harmony Mod (` and `)`. |
| HarmonyMod.DataModIdStable | src/harmonymod.ts:13-15 | A profile name and its sanitised form give the same marker mod id. |
| HarmonyMod.DataModIdValid | src/harmonymod.ts:13-15 | The marker mod id, which is also its installation path, contains no invalid character. |
| HarmonyMod.DataModIdExample | src/harmonymod.ts:13-15 | `My:Profile/1` gives `Vortex Harmony Mod (My_Profile_1)`. |
| HarmonyMod.CreateHarmonyMod | src/harmonymod.ts:17-48 | Creation issues exactly one create request for the new record. If creation reports an error, that error is the outcome and no sentinel file is written. Otherwise the sentinel is written beneath `installPath/modName` and its outcome is the result. |
| HarmonyMod.EnsureHarmonyMod | src/harmonymod.ts:51-75 | A successful ensure returns `harmonyDataMod(profile.name)`. It never enables a mod. One create request is issued iff the mod is absent. That request's record has `id` = `installationPath` = the mod name and type `harmonypatchermod`. A creation error fails the ensure and nothing else is issued. Otherwise the sentinel is written under the new mod's path, and the ensure succeeds iff that write succeeds; a failed write's error is the ensure's error. A present mod gets no create request. Only attribute updates of that mod are issued, covering exactly `installTime`, `name`, `type`, `logicalFileName`, `modId`, `version` and `variant`. |
| HarmonyMod.RefreshMatchesCreation | src/harmonymod.ts:57-72 | The refreshed attributes equal the creation attributes plus `type`, which carries the created record's type. The once-sanitised `variant` equals the twice-sanitised one. |
| HarmonyMod.RefreshCommandsShape | src/harmonymod.ts:58-72 | A refresh issues no create request. It issues only attribute updates of the marker mod in its game, covering exactly `installTime`, `name`, `type`, `logicalFileName`, `modId`, `version` and `variant`. |
| HarmonyMod.RefreshUpdates | src/harmonymod.ts:59-72 | Applying the seven updates in dispatch order to any attribute map gives that map overwritten by the refreshed attributes. |
| HarmonyMod.UpdatedOverlay | src/harmonymod.ts:59-72 | Attribute updates applied over a union of two maps change only the right-hand map. |
| HarmonyMod.RefreshFromScratch | src/harmonymod.ts:59-72 | The seven updates applied to an empty attribute map give exactly the refreshed attributes. |
| HarmonyMod.RefreshOnlyTouchesMarker | src/harmonymod.ts:57-72 | Applying a refresh to the registry changes only the marker mod's refreshed attributes. All other attributes, mods and games are unchanged. |
| HarmonyMod.EnsureTwice | src/harmonymod.ts:51-56 | A second ensure, on the registry the first one produced, returns the same id. The two calls together issue at most one create request. |
| Gate.RunGate | src/index.ts:213-238 | The hook is a no-op iff there is no managed game or it has no patcher details. It completes iff it is not a no-op, the profile is known and `ensureHarmonyMod` succeeds. An unknown profile stalls with a TypeError and issues nothing. A failing ensure stalls with that ensure's error and its dispatches, and issues no enable. When the hook completes, its dispatches are exactly the ensure's, followed by one `setModEnabled(profile.id, modId, true)` unless the mod is known and its flag is explicitly false. A missing flag counts as true. |
| Gate.WillDeploy | src/index.ts:213-238 | As written: a no-op iff no patch target is managed, and complete iff the profile is known and the ensure succeeds. On completion, nothing is enabled iff the mod is under the store's top-level `mods` key and its profile flag is explicitly false. Otherwise exactly one enable is issued, and every enable is `setModEnabled(profile.id, modId, true)`. |
| Gate.WillDeployIntended | src/index.ts:213-238 | Corrected lookup, with the same no-op and completion conditions. On completion, nothing is enabled iff the mod is in the registry (`persistent.mods`) and its profile flag is explicitly false. Otherwise exactly one enable is issued, and every enable is `setModEnabled(profile.id, modId, true)`. |
| Gate.OptOutOverridden | src/index.ts:228-233 | A mod that is registered and explicitly disabled, but absent from the top-level `mods` key, is enabled by the hook as written and left alone by the corrected hook. |
| Gate.IntendedRespectsOptOut | src/index.ts:228-235 | The corrected hook enables the mod exactly once when the flag is unset or the mod is not yet registered. |

## Left out

- Filesystem and host I/O: `readdirAsync`, `lstatAsync`, `statAsync`, `copyAsync`, `removeAsync` and `ensureFileAsync` are function inputs. Errors are plain values.
- `runPatcher` is an external library. Only its argument tuple and its outcome are modelled. The extension context argument is omitted.
- `init`'s registrations (`registerModType` with priority 25, `registerMerge`, `once`/`onAsync`) are host plumbing and are not modelled. Neither is `getPath`. `isHarmonyPatcherGame` is modelled by `ModType.IsPatcherGame`.
- `getCurrentGameInfo` and `getDiscoveryPath` read the host store. Their results are an `Option<GameStoredInfo>` and a discovery path string.
- The JSON stringify/parse clone is the identity on cloneable data. A value that cannot be cloned is a `cloneable = false` flag, which leads to absent details.
- The `entryPoint`, `modsPath` and `injectVIGO` fields are passed through as declared. Non-string or missing values there are not modelled.
- `new Date()` is an opaque `Timestamp` input.
- `path.join` and `path.dirname` are abstract: `Join` inserts a separator and `Dirname` drops the last component. A three-part join is two joins. Normalisation of `.`, `..`, doubled separators and drive letters is not modelled.
- A copy that fails is taken to leave no partial file (`Deploy.Step`).
- The host's reaction to `create-mod` and `setModAttribute` (`HarmonyMod.Apply`) is part of the host, not of this extension. A creation adds the mod, an attribute update on a known mod sets that attribute, and anything else leaves the registry alone.
- Merge.ReadListings: when several of the three concurrent directory reads fail, which error `Promise.all` reports depends on timing. The model reports the first in argument order, and its contract only promises one of the failing reads' errors.
- Promise settling in the `will-deploy` hook: when `ensureHarmonyMod` rejects, the hook's promise never resolves. The model reports this as `Stalled` with the dispatches already made. An unknown profile id ends the same way, through a TypeError.
- Logging (`log('error' …)`, `log('warn' …)`) is not modelled. Cleanup errors appear only as `cleanupError`.
- The warning "failed to clean up copied assemblies" is also logged after a cleanup that succeeded. The `Promise.reject(err)` in the `.then` at src/index.ts:134 flows into the `.catch` at src/index.ts:135-139. The error the caller sees is the same either way, so only the log line is affected, and logging is not modelled.
- Merge: with no patcher details, `merge` throws a TypeError synchronously at src/index.ts:145 rather than returning a rejected promise. The model folds both into a `Fail` outcome carrying a TypeError.
- `getGameAssemblies` lists the closure's `unityEnginePath` (src/index.ts:89) but lstats entries under its parameter `unityDataPath` (src/index.ts:93). The model uses one directory for both. The only call site passes `unityEnginePath` as the parameter (src/index.ts:150), so the two agree.
- Null instructions (`instr?.source` on `null`) are not modelled. An instruction's missing source is `None`.
- `merge`'s `filePath` parameter is unused by the source and is not modelled.
- `ISortedEntries` and `IDeployment` in src/types.ts are unused by the modelled logic.

## Findings

| source | as written | input that shows it | evidently intended | confidence | as-written member | corrected member |
|---|---|---|---|---|---|---|
| src/index.ts:228 | The hook decides whether the marker mod is "known" by reading the store at `['mods', modId]`. Mods live under `['persistent', 'mods', gameId, modId]`, which is where `ensureHarmonyMod` reads and creates them. | The marker mod is registered under `persistent.mods` and the profile's `modState[modId].enabled` is `false`. The store has no top-level `mods` entry for it. The hook dispatches `setModEnabled(profile.id, modId, true)` and undoes the user's opt-out. | Look the mod up in the registry it is created in, so an explicit opt-out is respected, as the comment at src/index.ts:230-231 says. | medium, not executed | Gate.WillDeploy (exhibited by Gate.OptOutOverridden) | Gate.WillDeployIntended (proved by Gate.OptOutOverridden and Gate.IntendedRespectsOptOut) |
