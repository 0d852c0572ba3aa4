/** The records the extension exchanges with its host (the mod manager), with
    the host's store and callbacks replaced by plain values. */
module Types {
  import opened Wrappers

  /** The sentinel file written beneath the marker mod's install path; its
      name is the only thing the merge filter and the instruction test look for. */
  const FakeFile: string := "__harmony_merge_fake_file"

  /** The mod type name under which the marker mod is registered. */
  const ModTypeName: string := "harmonypatchermod"

  /** `IPatcherDetails`: the normalised patch configuration of a game. */
  datatype PatcherDetails = PatcherDetails(
    dataPath: string,
    entryPoint: string,
    modsPath: string,
    injectVIGO: bool)

  /** The patch configuration as a game extension declared it, before
      normalisation. `dataPath` is `None` when the declared value is missing
      or is not a string (so calling `endsWith` on it throws); `cloneable`
      is false when the value cannot survive a JSON round trip. */
  datatype RawPatchDetails = RawPatchDetails(
    cloneable: bool,
    dataPath: Option<string>,
    entryPoint: string,
    modsPath: string,
    injectVIGO: bool)

  /** A value stored in a game's `details` object: either falsy (`undefined`,
      `null`, `false`, `0`, `""`) or an object. */
  datatype DetailsValue = Falsy | Structured(raw: RawPatchDetails)

  /** The stored game descriptor; `details` is `None` when the game declares none. */
  datatype GameStored = GameStored(
    id: string,
    extensionPath: string,
    details: Option<map<string, DetailsValue>>)

  /** `IGameStoredInfo`: the active game together with its discovered install path. */
  datatype GameStoredInfo = GameStoredInfo(game: GameStored, discoveryPath: string)

  /** The error values that flow through the promise chains. */
  datatype Error =
    | UserCanceled
    | NotFound(message: string)
    | TypeError(message: string)
    | Failure(message: string)

  /** A deployment instruction; `source` is `None` when it is absent. */
  datatype Instruction = Instruction(source: Option<string>)

  /** The profile record of the host store. */
  datatype Profile = Profile(
    id: string,
    gameId: string,
    name: string,
    modState: map<string, ModState>)

  /** Per-profile state of one mod; `enabled` is `None` when the flag is unset. */
  datatype ModState = ModState(enabled: Option<bool>)

  /** An opaque point in time, standing for `new Date()`. */
  type Timestamp = nat

  datatype AttrValue = Text(text: string) | Number(number: int) | Time(time: Timestamp)

  /** `IMod`: a mod entry of the host's registry. */
  datatype Mod = Mod(
    id: string,
    state: string,
    attributes: map<string, AttrValue>,
    installationPath: string,
    modType: string)

  /** `persistent.mods`: game id to mod id to mod. */
  type Registry = map<string, map<string, Mod>>

  /** The requests the extension issues to its host: store dispatches, the
      `create-mod` event, and the creation of the sentinel file. */
  datatype Command =
    | CreateMod(gameId: string, mod: Mod)
    | SetModAttribute(gameId: string, modId: string, key: string, value: AttrValue)
    | SetModEnabled(profileId: string, modId: string, enabled: bool)
    | EnsureFile(path: string)
}
