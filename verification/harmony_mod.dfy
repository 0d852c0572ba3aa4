/** The marker mod: its identity derived from the profile name
    (`sanitizeProfileName`, `harmonyDataMod`), its record (`createHarmonyMod`)
    and its create-or-refresh upkeep in the registry (`ensureHarmonyMod`). */
module HarmonyMod {
  import opened Wrappers
  import opened Strings
  import opened Paths
  import opened Types

  const DataModName: string := "Vortex Harmony Mod"
  const DataModVersion: string := "1.0.0"
  /** Any fixed id works; the host only needs one for grouping. */
  const DataModNumericId: int := 42
  const InstalledState: string := "installed"
  const Placeholder: char := '_'

  /** The characters replaced in profile names: `: / \ * ? " < > |`. */
  predicate IsInvalidChar(c: char) {
    c == ':' || c == '/' || c == '\\' || c == '*' || c == '?'
    || c == '"' || c == '<' || c == '>' || c == '|'
  }

  /** `sanitizeProfileName`: a global replace of every invalid character. */
  function SanitizeProfileName(input: string): (r: string)
    ensures |r| == |input|
    ensures forall i :: 0 <= i < |input| ==>
      (IsInvalidChar(input[i]) ==> r[i] == Placeholder)
      && (!IsInvalidChar(input[i]) ==> r[i] == input[i])
    ensures forall i :: 0 <= i < |r| ==> !IsInvalidChar(r[i])
    decreases |input|
  {
    if input == [] then []
    else
      var c := if IsInvalidChar(input[0]) then Placeholder else input[0];
      [c] + SanitizeProfileName(input[1..])
  }

  /** `harmonyDataMod`: the marker mod's id for a profile name. The id
      carries exactly the sanitised profile name, which reads back out of it. */
  function HarmonyDataMod(profileName: string): (r: string)
    ensures ProfileTag(r) == Some(SanitizeProfileName(profileName))
  {
    var tag := SanitizeProfileName(profileName);
    var prefix := DataModName + " (";
    var id := prefix + tag + ")";
    assert id[..|prefix|] == prefix;
    assert id[|prefix|..|id| - 1] == tag;
    id
  }

  /** Reads the sanitised profile name back out of a marker mod id. */
  function ProfileTag(modId: string): Option<string> {
    var prefix := DataModName + " (";
    if |modId| >= |prefix| + 1 && StartsWith(modId, prefix) && modId[|modId| - 1] == ')'
    then Some(modId[|prefix|..|modId| - 1])
    else None
  }

  lemma {:induction false} SanitizeIdempotent(name: string)
    ensures SanitizeProfileName(SanitizeProfileName(name)) == SanitizeProfileName(name)
  {
    var once := SanitizeProfileName(name);
    var twice := SanitizeProfileName(once);
    assert forall i :: 0 <= i < |once| ==> twice[i] == once[i];
  }

  /** Two profile names that sanitise alike share one marker mod. */
  lemma DataModIdStable(profileName: string)
    ensures HarmonyDataMod(SanitizeProfileName(profileName)) == HarmonyDataMod(profileName)
  {
    SanitizeIdempotent(profileName);
  }

  /** The marker mod id (also its install directory) holds no invalid character. */
  lemma DataModIdValid(profileName: string)
    ensures forall i :: 0 <= i < |HarmonyDataMod(profileName)| ==>
      !IsInvalidChar(HarmonyDataMod(profileName)[i])
  {
    var s := SanitizeProfileName(profileName);
    var id := HarmonyDataMod(profileName);
    forall i | 0 <= i < |id| ensures !IsInvalidChar(id[i]) {
      if i < |DataModName + " ("| {
        assert id[i] == (DataModName + " (")[i];
      } else if i < |id| - 1 {
        assert id[i] == s[i - |DataModName + " ("|];
      }
    }
  }

  /** The worked example: `My:Profile/1` gets the id `Vortex Harmony Mod (My_Profile_1)`. */
  lemma DataModIdExample(profileName: string)
    requires profileName == "My:Profile/1"
    ensures HarmonyDataMod(profileName) == "Vortex Harmony Mod (My_Profile_1)"
  {
    var s := SanitizeProfileName(profileName);
    assert forall i :: 0 <= i < 12 ==> s[i] == "My_Profile_1"[i];
  }

  /** The attributes a newly created marker mod carries. The variant is
      sanitised twice, as the creation code does. */
  function CreationAttributes(profile: Profile, now: Timestamp): map<string, AttrValue> {
    map[
      "name" := Text(DataModName),
      "logicalFileName" := Text(DataModName),
      "modId" := Number(DataModNumericId),
      "version" := Text(DataModVersion),
      "variant" := Text(SanitizeProfileName(SanitizeProfileName(profile.name))),
      "installTime" := Time(now)]
  }

  /** The record `createHarmonyMod` asks the host to create. */
  function NewHarmonyMod(modName: string, profile: Profile, now: Timestamp): Mod {
    Mod(modName, InstalledState, CreationAttributes(profile, now), modName, ModTypeName)
  }

  /** The attribute updates issued for a known marker mod, in dispatch order. */
  function RefreshCommands(gameId: string, modName: string, profile: Profile, now: Timestamp)
    : seq<Command>
  {
    [ SetModAttribute(gameId, modName, "installTime", Time(now)),
      SetModAttribute(gameId, modName, "name", Text(DataModName)),
      SetModAttribute(gameId, modName, "type", Text(ModTypeName)),
      SetModAttribute(gameId, modName, "logicalFileName", Text(DataModName)),
      SetModAttribute(gameId, modName, "modId", Number(DataModNumericId)),
      SetModAttribute(gameId, modName, "version", Text(DataModVersion)),
      SetModAttribute(gameId, modName, "variant", Text(SanitizeProfileName(profile.name))) ]
  }

  /** A refresh only updates attributes of the one marker mod, and it
      covers each refreshed key. */
  lemma RefreshCommandsShape(gameId: string, modName: string, profile: Profile, now: Timestamp)
    ensures var commands := RefreshCommands(gameId, modName, profile, now);
      && CreateRequests(commands) == 0
      && (forall i :: 0 <= i < |commands| ==>
            commands[i].SetModAttribute? && commands[i].gameId == gameId
            && commands[i].modId == modName)
      && (set i | 0 <= i < |commands| :: commands[i].key)
         == {"installTime", "name", "type", "logicalFileName", "modId", "version", "variant"}
  {
    var commands := RefreshCommands(gameId, modName, profile, now);
    var keys := set i | 0 <= i < |commands| :: commands[i].key;
    var expected := {"installTime", "name", "type", "logicalFileName", "modId", "version", "variant"};
    assert keys <= expected;
    assert expected <= keys by {
      assert commands[0].key in keys;
      assert commands[1].key in keys;
      assert commands[2].key in keys;
      assert commands[3].key in keys;
      assert commands[4].key in keys;
      assert commands[5].key in keys;
      assert commands[6].key in keys;
    }
  }

  /** The attributes a refresh writes, as one map. */
  function RefreshAttributes(profile: Profile, now: Timestamp): map<string, AttrValue> {
    map[
      "installTime" := Time(now),
      "name" := Text(DataModName),
      "type" := Text(ModTypeName),
      "logicalFileName" := Text(DataModName),
      "modId" := Number(DataModNumericId),
      "version" := Text(DataModVersion),
      "variant" := Text(SanitizeProfileName(profile.name))]
  }

  /** What the host does for this extension: the `create-mod` event's error
      argument (`None` for `null`), the `installPathForGame` selector, and
      `ensureFileAsync`. */
  datatype ModHost = ModHost(
    createError: Option<Error>,
    installPathForGame: string -> string,
    ensureFile: string -> Outcome<Error>)

  datatype CreateRun = CreateRun(commands: seq<Command>, outcome: Outcome<Error>)

  datatype EnsureRun = EnsureRun(commands: seq<Command>, result: Result<string, Error>)

  /** Where the sentinel file of a marker mod is written. */
  function SentinelPath(host: ModHost, gameId: string, modName: string): string {
    Join(Join(host.installPathForGame(gameId), modName), FakeFile)
  }

  predicate Registered(registry: Registry, gameId: string, modId: string) {
    gameId in registry && modId in registry[gameId]
  }

  /** The number of creation requests among some commands. */
  function CreateRequests(commands: seq<Command>): (n: nat)
    ensures n <= |commands|
    ensures n == 0 <==> forall i :: 0 <= i < |commands| ==> !commands[i].CreateMod?
    decreases |commands|
  {
    if commands == [] then 0
    else (if commands[0].CreateMod? then 1 else 0) + CreateRequests(commands[1..])
  }

  /** `createHarmonyMod`: one creation request; only when it succeeds is the
      sentinel file written, and a failure of either step is the result. */
  function CreateHarmonyMod(host: ModHost, modName: string, profile: Profile, now: Timestamp)
    : (r: CreateRun)
    ensures |r.commands| >= 1 && r.commands[0] == CreateMod(profile.gameId, NewHarmonyMod(modName, profile, now))
    ensures CreateRequests(r.commands) == 1
    ensures host.createError.Some? ==>
      r.commands == [r.commands[0]] && r.outcome == Fail(host.createError.value)
    ensures host.createError.None? ==>
      r.commands == [r.commands[0], EnsureFile(SentinelPath(host, profile.gameId, modName))]
      && r.outcome == host.ensureFile(SentinelPath(host, profile.gameId, modName))
  {
    var request := CreateMod(profile.gameId, NewHarmonyMod(modName, profile, now));
    match host.createError
    case Some(e) => CreateRun([request], Fail(e))
    case None =>
      var path := SentinelPath(host, profile.gameId, modName);
      assert CreateRequests([request, EnsureFile(path)]) == 1 + CreateRequests([EnsureFile(path)]);
      CreateRun([request, EnsureFile(path)], host.ensureFile(path))
  }

  /** `ensureHarmonyMod`: create the marker mod when the registry lacks it,
      otherwise refresh its attributes; the id is returned either way. */
  function EnsureHarmonyMod(registry: Registry, profile: Profile, now: Timestamp, host: ModHost)
    : (r: EnsureRun)
    ensures r.result.Ok? ==> r.result.value == HarmonyDataMod(profile.name)
    ensures forall i :: 0 <= i < |r.commands| ==> !r.commands[i].SetModEnabled?
    ensures var modName := HarmonyDataMod(profile.name);
      CreateRequests(r.commands) == if Registered(registry, profile.gameId, modName) then 0 else 1
    ensures var modName := HarmonyDataMod(profile.name);
      !Registered(registry, profile.gameId, modName) ==>
        && r.commands[0] == CreateMod(profile.gameId, NewHarmonyMod(modName, profile, now))
        && r.commands[0].mod.id == modName && r.commands[0].mod.installationPath == modName
        && r.commands[0].mod.modType == ModTypeName
        && (host.createError.Some? ==>
              r.result == Err(host.createError.value) && r.commands == [r.commands[0]])
        && (host.createError.None? ==>
              var sentinel := SentinelPath(host, profile.gameId, modName);
              && r.commands == [r.commands[0], EnsureFile(sentinel)]
              && (r.result.Ok? <==> host.ensureFile(sentinel).Pass?)
              && (r.result.Err? ==> host.ensureFile(sentinel) == Fail(r.result.error)))
    ensures var modName := HarmonyDataMod(profile.name);
      Registered(registry, profile.gameId, modName) ==>
        && r.result == Ok(modName)
        && (forall i :: 0 <= i < |r.commands| ==>
              r.commands[i].SetModAttribute? && r.commands[i].gameId == profile.gameId
              && r.commands[i].modId == modName)
        && (set i | 0 <= i < |r.commands| :: r.commands[i].key)
           == {"installTime", "name", "type", "logicalFileName", "modId", "version", "variant"}
  {
    var modName := HarmonyDataMod(profile.name);
    if !Registered(registry, profile.gameId, modName) then
      var created := CreateHarmonyMod(host, modName, profile, now);
      match created.outcome
      case Fail(e) => EnsureRun(created.commands, Err(e))
      case Pass => EnsureRun(created.commands, Ok(modName))
    else
      var commands := RefreshCommands(profile.gameId, modName, profile, now);
      RefreshCommandsShape(profile.gameId, modName, profile, now);
      EnsureRun(commands, Ok(modName))
  }

  /** How the host's registry reacts to a command: a creation adds the mod,
      an attribute update on a known mod sets that one attribute, and the
      other commands leave the registry alone. */
  function Apply(registry: Registry, command: Command): Registry {
    match command
    case CreateMod(g, m) =>
      var mods := if g in registry then registry[g] else map[];
      registry[g := mods[m.id := m]]
    case SetModAttribute(g, id, key, value) =>
      if Registered(registry, g, id) then
        var m := registry[g][id];
        registry[g := registry[g][id := m.(attributes := m.attributes[key := value])]]
      else registry
    case _ => registry
  }

  function ApplyAll(registry: Registry, commands: seq<Command>): Registry
    decreases |commands|
  {
    if commands == [] then registry else ApplyAll(Apply(registry, commands[0]), commands[1..])
  }

  /** A refresh writes the creation attributes again (the variant, sanitised
      once here and twice at creation, agrees), plus the mod type as an
      attribute. */
  lemma RefreshMatchesCreation(modName: string, profile: Profile, now: Timestamp)
    ensures RefreshAttributes(profile, now)
            == NewHarmonyMod(modName, profile, now).attributes
                 ["type" := Text(NewHarmonyMod(modName, profile, now).modType)]
  {
    var once := SanitizeProfileName(profile.name);
    SanitizeIdempotent(profile.name);
    assert CreationAttributes(profile, now)["variant"] == Text(once);
  }

  /** The attributes after applying some updates in order. */
  function Updated(attributes: map<string, AttrValue>, commands: seq<Command>): map<string, AttrValue>
    decreases |commands|
  {
    if commands == [] then attributes
    else if commands[0].SetModAttribute? then
      Updated(attributes[commands[0].key := commands[0].value], commands[1..])
    else Updated(attributes, commands[1..])
  }

  /** Attribute updates aimed at one known mod change only that mod's attributes. */
  lemma {:induction false} ApplyAttributeUpdates(registry: Registry, gameId: string, modId: string,
                                                 commands: seq<Command>)
    requires Registered(registry, gameId, modId)
    requires forall i :: 0 <= i < |commands| ==>
      commands[i].SetModAttribute? && commands[i].gameId == gameId && commands[i].modId == modId
    ensures var m := registry[gameId][modId];
      ApplyAll(registry, commands)
      == registry[gameId := registry[gameId][modId := m.(attributes := Updated(m.attributes, commands))]]
    decreases |commands|
  {
    var m := registry[gameId][modId];
    if commands == [] {
      assert registry[gameId][modId := m] == registry[gameId];
      assert registry[gameId := registry[gameId]] == registry;
    } else {
      var c := commands[0];
      var next := Apply(registry, c);
      var m' := m.(attributes := m.attributes[c.key := c.value]);
      assert next == registry[gameId := registry[gameId][modId := m']];
      assert next[gameId][modId] == m';
      ApplyAttributeUpdates(next, gameId, modId, commands[1..]);
      var final := m.(attributes := Updated(m.attributes, commands));
      assert final == m'.(attributes := Updated(m'.attributes, commands[1..]));
      assert next[gameId][modId := final] == registry[gameId][modId := final];
    }
  }

  lemma UpdatedStep(attributes: map<string, AttrValue>, commands: seq<Command>, i: nat)
    requires i < |commands| && commands[i].SetModAttribute?
    ensures Updated(attributes, commands[i..])
            == Updated(attributes[commands[i].key := commands[i].value], commands[i + 1..])
  {
    assert commands[i..][1..] == commands[i + 1..];
  }

  /** Updates applied over a union only change the right-hand side. */
  lemma {:induction false} UpdatedOverlay(a: map<string, AttrValue>, b: map<string, AttrValue>,
                                          commands: seq<Command>)
    ensures Updated(a + b, commands) == a + Updated(b, commands)
    decreases |commands|
  {
    if commands != [] {
      var c := commands[0];
      if c.SetModAttribute? {
        assert (a + b)[c.key := c.value] == a + b[c.key := c.value];
        UpdatedOverlay(a, b[c.key := c.value], commands[1..]);
      } else {
        UpdatedOverlay(a, b, commands[1..]);
      }
    }
  }

  /** The refresh's updates applied to no attributes give exactly the
      refreshed attributes. */
  lemma RefreshFromScratch(gameId: string, modName: string, profile: Profile, now: Timestamp)
    ensures Updated(map[], RefreshCommands(gameId, modName, profile, now))
            == RefreshAttributes(profile, now)
  {
    var cs := RefreshCommands(gameId, modName, profile, now);
    var a: map<string, AttrValue> := map[];
    var a1 := a[cs[0].key := cs[0].value];
    var a2 := a1[cs[1].key := cs[1].value];
    var a3 := a2[cs[2].key := cs[2].value];
    var a4 := a3[cs[3].key := cs[3].value];
    var a5 := a4[cs[4].key := cs[4].value];
    var a6 := a5[cs[5].key := cs[5].value];
    var a7 := a6[cs[6].key := cs[6].value];
    UpdatedStep(a, cs, 0);
    UpdatedStep(a1, cs, 1);
    UpdatedStep(a2, cs, 2);
    UpdatedStep(a3, cs, 3);
    UpdatedStep(a4, cs, 4);
    UpdatedStep(a5, cs, 5);
    UpdatedStep(a6, cs, 6);
    assert cs[7..] == [];
    assert Updated(a, cs) == a7;
  }

  /** Applying a refresh's updates in order to some attributes writes
      exactly the refreshed attributes over them. */
  lemma RefreshUpdates(attributes: map<string, AttrValue>, gameId: string, modName: string,
                       profile: Profile, now: Timestamp)
    ensures Updated(attributes, RefreshCommands(gameId, modName, profile, now))
            == attributes + RefreshAttributes(profile, now)
  {
    var cs := RefreshCommands(gameId, modName, profile, now);
    UpdatedOverlay(attributes, map[], cs);
    assert attributes + map[] == attributes;
    RefreshFromScratch(gameId, modName, profile, now);
  }

  /** A refresh changes nothing but the refreshed attributes of the marker mod. */
  lemma RefreshOnlyTouchesMarker(registry: Registry, profile: Profile, now: Timestamp, host: ModHost)
    requires Registered(registry, profile.gameId, HarmonyDataMod(profile.name))
    ensures var modName := HarmonyDataMod(profile.name);
      var m := registry[profile.gameId][modName];
      ApplyAll(registry, EnsureHarmonyMod(registry, profile, now, host).commands)
      == registry[profile.gameId := registry[profile.gameId]
           [modName := m.(attributes := m.attributes + RefreshAttributes(profile, now))]]
  {
    var g := profile.gameId;
    var id := HarmonyDataMod(profile.name);
    var cs := RefreshCommands(g, id, profile, now);
    assert EnsureHarmonyMod(registry, profile, now, host).commands == cs;
    RefreshCommandsShape(g, id, profile, now);
    ApplyAttributeUpdates(registry, g, id, cs);
    RefreshUpdates(registry[g][id].attributes, g, id, profile, now);
  }

  /** Calling `ensure` again on the registry the first call produced returns
      the same id and issues no second creation request. */
  lemma EnsureTwice(registry: Registry, profile: Profile, now1: Timestamp, now2: Timestamp,
                    host: ModHost)
    requires host.createError.None?
    requires host.ensureFile(SentinelPath(host, profile.gameId, HarmonyDataMod(profile.name))).Pass?
    ensures var first := EnsureHarmonyMod(registry, profile, now1, host);
      var second := EnsureHarmonyMod(ApplyAll(registry, first.commands), profile, now2, host);
      && first.result == Ok(HarmonyDataMod(profile.name))
      && second.result == first.result
      && CreateRequests(first.commands) + CreateRequests(second.commands) <= 1
  {
    var id := HarmonyDataMod(profile.name);
    var first := EnsureHarmonyMod(registry, profile, now1, host);
    if !Registered(registry, profile.gameId, id) {
      var after := ApplyAll(registry, first.commands);
      var c0, c1 := first.commands[0], first.commands[1];
      assert first.commands == [c0, c1];
      assert first.commands[1..] == [c1];
      assert [c1][1..] == [];
      assert after == ApplyAll(Apply(registry, c0), [c1]);
      assert ApplyAll(Apply(registry, c0), [c1]) == ApplyAll(Apply(Apply(registry, c0), c1), []);
      assert after == Apply(Apply(registry, c0), c1);
      assert Registered(after, profile.gameId, id);
    } else {
      RefreshOnlyTouchesMarker(registry, profile, now1, host);
    }
  }
}
