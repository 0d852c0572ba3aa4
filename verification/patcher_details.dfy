/** Resolution of a game's `harmonyPatchDetails` entry (`getPatcherDetails`). */
module PatchTarget {
  import opened Wrappers
  import opened Strings
  import opened Paths
  import opened Types

  /** The key under which a game extension declares its patch configuration. */
  const DetailsPatchTarget: string := "harmonyPatchDetails"

  /** The assembly appended to a `dataPath` that names a directory. */
  const DefaultUnityAssembly: string := "Assembly-CSharp.dll"

  const DllExtension: string := ".dll"

  /** The declared configuration object, when `details` exists and holds a
      truthy value under the patch-target key. */
  function DeclaredDetails(game: GameStored): Option<RawPatchDetails> {
    if game.details.Some? && DetailsPatchTarget in game.details.value
       && game.details.value[DetailsPatchTarget].Structured?
    then Some(game.details.value[DetailsPatchTarget].raw)
    else None
  }

  /** Points `dataPath` at an assembly file: a path that is not a `.dll`
      names the directory holding the default Unity assembly. */
  function NormaliseDataPath(dataPath: string): (r: string)
    ensures EndsWith(r, DllExtension)
    ensures EndsWith(dataPath, DllExtension) ==> r == dataPath
    ensures !EndsWith(dataPath, DllExtension) ==> r == Join(dataPath, DefaultUnityAssembly)
  {
    if !EndsWith(dataPath, DllExtension) then
      JoinEndsWith(dataPath, DefaultUnityAssembly, DllExtension);
      Join(dataPath, DefaultUnityAssembly)
    else dataPath
  }

  /** `getPatcherDetails`: absent unless a truthy configuration is declared;
      a configuration whose clone or whose `dataPath.endsWith` would throw
      is absent as well (the exception is only logged). */
  function GetPatcherDetails(game: GameStored): (r: Option<PatcherDetails>)
    ensures r.Some? <==>
      DeclaredDetails(game).Some? && DeclaredDetails(game).value.cloneable
      && DeclaredDetails(game).value.dataPath.Some?
    ensures r.Some? ==> EndsWith(r.value.dataPath, DllExtension)
    ensures r.Some? ==>
      var raw := DeclaredDetails(game).value;
      && (EndsWith(raw.dataPath.value, DllExtension) ==> r.value.dataPath == raw.dataPath.value)
      && (!EndsWith(raw.dataPath.value, DllExtension) ==>
            r.value.dataPath == Join(raw.dataPath.value, DefaultUnityAssembly))
      && r.value.entryPoint == raw.entryPoint
      && r.value.modsPath == raw.modsPath
      && r.value.injectVIGO == raw.injectVIGO
  {
    match DeclaredDetails(game)
    case None => None
    case Some(raw) =>
      if !raw.cloneable then None
      else match raw.dataPath
        case None => None
        case Some(p) =>
          Some(PatcherDetails(NormaliseDataPath(p), raw.entryPoint, raw.modsPath, raw.injectVIGO))
  }

  /** A game whose only declared detail is the given patch configuration. */
  function Declaring(id: string, extensionPath: string, d: PatcherDetails): GameStored {
    GameStored(id, extensionPath,
      Some(map[DetailsPatchTarget := Structured(
        RawPatchDetails(true, Some(d.dataPath), d.entryPoint, d.modsPath, d.injectVIGO))]))
  }

  /** Normalisation is idempotent: a resolved `dataPath` resolves to itself. */
  lemma NormaliseIdempotent(dataPath: string)
    ensures NormaliseDataPath(NormaliseDataPath(dataPath)) == NormaliseDataPath(dataPath)
  {
  }

  /** Round trip: declaring resolved details again resolves to the same details. */
  lemma ResolveRoundTrip(game: GameStored, id: string, extensionPath: string)
    requires GetPatcherDetails(game).Some?
    ensures GetPatcherDetails(Declaring(id, extensionPath, GetPatcherDetails(game).value))
            == GetPatcherDetails(game)
  {
  }

  /** No configuration, a falsy one, or one whose processing throws: absent. */
  lemma AbsentCases(game: GameStored)
    ensures game.details.None? ==> GetPatcherDetails(game).None?
    ensures game.details.Some? && DetailsPatchTarget !in game.details.value ==>
              GetPatcherDetails(game).None?
    ensures (game.details.Some? && DetailsPatchTarget in game.details.value
             && game.details.value[DetailsPatchTarget].Falsy?) ==> GetPatcherDetails(game).None?
    ensures DeclaredDetails(game).Some? && DeclaredDetails(game).value.dataPath.None? ==>
              GetPatcherDetails(game).None?
  {
  }
}
