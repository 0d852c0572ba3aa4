/** The `will-deploy` hook: make sure the marker mod exists, then enable it
    for the profile unless the user has explicitly disabled it. The store is
    a snapshot taken when the hook fires; dispatches are returned as commands. */
module Gate {
  import opened Wrappers
  import opened Types
  import opened PatchTarget
  import opened HarmonyMod

  /** The slice of the host store the hook reads. `rootMods` is the store's
      top-level `mods` key, which the host does not normally populate;
      `mods` is `persistent.mods`. */
  datatype HostState = HostState(
    profiles: map<string, Profile>,
    rootMods: map<string, Mod>,
    mods: Registry)

  /** Where the hook looks to decide whether the marker mod is already known. */
  datatype RegistryLookup =
    | RootPath        // `['mods', modId]`, as the hook is written
    | PersistentPath  // `['persistent', 'mods', gameId, modId]`, where mods are stored

  /** The hook's end: it did nothing, it finished with these dispatches, or
      `ensureHarmonyMod` rejected, in which case the hook's promise never settles. */
  datatype GateRun =
    | Skipped
    | Stalled(commands: seq<Command>, error: Error)
    | Completed(commands: seq<Command>)

  /** The message of the exception thrown when the profile id is unknown. */
  const UndefinedProfileMessage: string := "Cannot read properties of undefined (reading 'name')"

  /** `getSafe(profile, ['modState', modId, 'enabled'], true)`. */
  function EnabledFlag(profile: Profile, modId: string): bool {
    if modId in profile.modState && profile.modState[modId].enabled.Some?
    then profile.modState[modId].enabled.value
    else true
  }

  predicate Known(state: HostState, lookup: RegistryLookup, gameId: string, modId: string) {
    match lookup
    case RootPath => modId in state.rootMods
    case PersistentPath => Registered(state.mods, gameId, modId)
  }

  /** The number of enable dispatches among some commands. */
  function EnableRequests(commands: seq<Command>): (n: nat)
    ensures n <= |commands|
    ensures n == 0 <==> forall i :: 0 <= i < |commands| ==> !commands[i].SetModEnabled?
    decreases |commands|
  {
    if commands == [] then 0
    else (if commands[0].SetModEnabled? then 1 else 0) + EnableRequests(commands[1..])
  }

  lemma {:induction false} EnableRequestsAppend(a: seq<Command>, b: seq<Command>)
    ensures EnableRequests(a + b) == EnableRequests(a) + EnableRequests(b)
    decreases |a|
  {
    if a == [] {
      assert a + b == b;
    } else {
      assert (a + b)[1..] == a[1..] + b;
      EnableRequestsAppend(a[1..], b);
    }
  }

  /** The hook with the known-mod lookup as a parameter. */
  function RunGate(state: HostState, profileId: string, gameInfo: Option<GameStoredInfo>,
                   now: Timestamp, host: ModHost, lookup: RegistryLookup): (r: GateRun)
    ensures r.Skipped? <==> gameInfo.None? || GetPatcherDetails(gameInfo.value.game).None?
    ensures r.Completed? <==>
      && !r.Skipped? && profileId in state.profiles
      && EnsureHarmonyMod(state.mods, state.profiles[profileId], now, host).result.Ok?
    ensures r.Stalled? && profileId !in state.profiles ==>
      r == Stalled([], TypeError(UndefinedProfileMessage))
    ensures r.Stalled? && profileId in state.profiles ==>
      var ensured := EnsureHarmonyMod(state.mods, state.profiles[profileId], now, host);
      ensured.result == Err(r.error) && r.commands == ensured.commands
    ensures r.Completed? ==>
      EnsureHarmonyMod(state.mods, state.profiles[profileId], now, host).commands <= r.commands
    ensures r.Completed? ==>
      && profileId in state.profiles
      && var profile := state.profiles[profileId];
         var modId := HarmonyDataMod(profile.name);
         && EnableRequests(r.commands)
            == (if Known(state, lookup, profile.gameId, modId) && !EnabledFlag(profile, modId)
                then 0 else 1)
         && (forall i :: 0 <= i < |r.commands| && r.commands[i].SetModEnabled? ==>
               r.commands[i] == SetModEnabled(profile.id, modId, true))
    ensures r.Completed? ==>
      && profileId in state.profiles
      && var profile := state.profiles[profileId];
         var modId := HarmonyDataMod(profile.name);
         r.commands
         == EnsureHarmonyMod(state.mods, profile, now, host).commands
            + (if Known(state, lookup, profile.gameId, modId) && !EnabledFlag(profile, modId)
               then [] else [SetModEnabled(profile.id, modId, true)])
    ensures r.Stalled? ==> EnableRequests(r.commands) == 0
  {
    if gameInfo.None? || GetPatcherDetails(gameInfo.value.game).None? then Skipped
    else if profileId !in state.profiles then Stalled([], TypeError(UndefinedProfileMessage))
    else
      var profile := state.profiles[profileId];
      var ensured := EnsureHarmonyMod(state.mods, profile, now, host);
      assert EnableRequests(ensured.commands) == 0;
      match ensured.result
      case Err(e) => Stalled(ensured.commands, e)
      case Ok(modId) =>
        if Known(state, lookup, profile.gameId, modId) && !EnabledFlag(profile, modId) then
          Completed(ensured.commands)
        else
          var enable := SetModEnabled(profile.id, modId, true);
          EnableRequestsAppend(ensured.commands, [enable]);
          Completed(ensured.commands + [enable])
  }

  /** The hook as written: the known-mod check reads `['mods', modId]`. */
  function WillDeploy(state: HostState, profileId: string, gameInfo: Option<GameStoredInfo>,
                      now: Timestamp, host: ModHost): (r: GateRun)
    ensures r.Skipped? <==> gameInfo.None? || GetPatcherDetails(gameInfo.value.game).None?
    ensures r.Completed? <==>
      && !r.Skipped? && profileId in state.profiles
      && EnsureHarmonyMod(state.mods, state.profiles[profileId], now, host).result.Ok?
    ensures r.Completed? ==>
      && profileId in state.profiles
      && var profile := state.profiles[profileId];
      var modId := HarmonyDataMod(profile.name);
      && (EnableRequests(r.commands) == 0 <==>
            modId in state.rootMods && modId in profile.modState
            && profile.modState[modId].enabled == Some(false))
      && EnableRequests(r.commands) <= 1
      && (forall i :: 0 <= i < |r.commands| && r.commands[i].SetModEnabled? ==>
            r.commands[i] == SetModEnabled(profile.id, modId, true))
  {
    RunGate(state, profileId, gameInfo, now, host, RootPath)
  }

  /** The hook as evidently intended: the known-mod check reads the
      registry the marker mod is created in. */
  function WillDeployIntended(state: HostState, profileId: string, gameInfo: Option<GameStoredInfo>,
                              now: Timestamp, host: ModHost): (r: GateRun)
    ensures r.Skipped? <==> gameInfo.None? || GetPatcherDetails(gameInfo.value.game).None?
    ensures r.Completed? <==>
      && !r.Skipped? && profileId in state.profiles
      && EnsureHarmonyMod(state.mods, state.profiles[profileId], now, host).result.Ok?
    ensures r.Completed? ==>
      && profileId in state.profiles
      && var profile := state.profiles[profileId];
      var modId := HarmonyDataMod(profile.name);
      && (EnableRequests(r.commands) == 0 <==>
            Registered(state.mods, profile.gameId, modId) && modId in profile.modState
            && profile.modState[modId].enabled == Some(false))
      && EnableRequests(r.commands) <= 1
      && (forall i :: 0 <= i < |r.commands| && r.commands[i].SetModEnabled? ==>
            r.commands[i] == SetModEnabled(profile.id, modId, true))
  {
    RunGate(state, profileId, gameInfo, now, host, PersistentPath)
  }

  /** As written, an explicit opt-out is overridden: a marker mod that is in
      the registry and disabled for the profile is enabled again on every
      deployment whenever the store has no top-level `mods` entry for it. The
      corrected hook leaves it disabled. */
  lemma OptOutOverridden(state: HostState, profileId: string, gameInfo: Option<GameStoredInfo>,
                         now: Timestamp, host: ModHost)
    requires gameInfo.Some? && GetPatcherDetails(gameInfo.value.game).Some?
    requires profileId in state.profiles
    requires var profile := state.profiles[profileId];
      var modId := HarmonyDataMod(profile.name);
      && Registered(state.mods, profile.gameId, modId)
      && modId !in state.rootMods
      && modId in profile.modState && profile.modState[modId].enabled == Some(false)
    ensures WillDeploy(state, profileId, gameInfo, now, host).Completed?
    ensures EnableRequests(WillDeploy(state, profileId, gameInfo, now, host).commands) == 1
    ensures WillDeployIntended(state, profileId, gameInfo, now, host).Completed?
    ensures EnableRequests(WillDeployIntended(state, profileId, gameInfo, now, host).commands) == 0
  {
  }

  /** The corrected hook enables the marker mod exactly once unless the user
      disabled it; a flag that is unset counts as enabled. */
  lemma IntendedRespectsOptOut(state: HostState, profileId: string, gameInfo: Option<GameStoredInfo>,
                               now: Timestamp, host: ModHost)
    requires WillDeployIntended(state, profileId, gameInfo, now, host).Completed?
    ensures profileId in state.profiles
    ensures var profile := state.profiles[profileId];
      var modId := HarmonyDataMod(profile.name);
      var n := EnableRequests(WillDeployIntended(state, profileId, gameInfo, now, host).commands);
      && (modId !in profile.modState || profile.modState[modId].enabled.None? ==> n == 1)
      && (!Registered(state.mods, profile.gameId, modId) ==> n == 1)
  {
  }
}
