/** The predicates the extension registers with its host: the mod type's
    instruction `test`, and the merge filter returned by `canMerge`. */
module ModType {
  import opened Wrappers
  import opened Strings
  import opened Paths
  import opened Seqs
  import opened Types
  import opened PatchTarget

  /** `isHarmonyPatcherGame`, and the guards `test` starts with: the game
      being managed is a patch target. The game id the host passes is not
      consulted; only the active game counts. */
  function IsPatcherGame(gameInfo: Option<GameStoredInfo>): (r: bool)
    ensures r <==>
      && gameInfo.Some?
      && DeclaredDetails(gameInfo.value.game).Some?
      && DeclaredDetails(gameInfo.value.game).value.cloneable
      && DeclaredDetails(gameInfo.value.game).value.dataPath.Some?
  {
    gameInfo.Some? && GetPatcherDetails(gameInfo.value.game).Some?
  }

  /** An instruction whose `source` is truthy. */
  predicate HasSource(instr: Instruction) {
    instr.source.Some? && instr.source.value != ""
  }

  /** An instruction that deploys the sentinel file. */
  predicate CarriesSentinel(instr: Instruction) {
    HasSource(instr) && Contains(instr.source.value, FakeFile)
  }

  /** The callback `test` hands to `find`: the source names the sentinel. */
  predicate NamesSentinel(instr: Instruction) {
    instr.source.Some? && IndexOf(instr.source.value, FakeFile) != -1
  }

  /** `Array.prototype.find` over instructions whose source names the
      sentinel: the first such instruction, if any. */
  function FindSentinel(instructions: seq<Instruction>): (r: Option<Instruction>)
    ensures r.Some? ==> r.value in instructions && NamesSentinel(r.value)
    ensures r.Some? ==>
      exists k :: 0 <= k < |instructions| && instructions[k] == r.value
        && (forall j :: 0 <= j < k ==> !NamesSentinel(instructions[j]))
    ensures r.None? ==> forall i :: 0 <= i < |instructions| ==> !NamesSentinel(instructions[i])
  {
    var k := FindIndex(NamesSentinel, instructions);
    if k < 0 then None else Some(instructions[k])
  }

  /** `test`: the instructions belong to this mod type iff the managed game is
      a patch target and some instruction with a source names the sentinel. */
  function Test(instructions: seq<Instruction>, gameInfo: Option<GameStoredInfo>): (r: bool)
    ensures r <==>
      IsPatcherGame(gameInfo) && exists i :: 0 <= i < |instructions| && CarriesSentinel(instructions[i])
  {
    if gameInfo.None? then false
    else if GetPatcherDetails(gameInfo.value.game).None? then false
    else
      var filtered := Filter(HasSource, instructions);
      var found := FindSentinel(filtered);
      if found.Some? then
        var k :| 0 <= k < |instructions| && instructions[k] == found.value;
        assert CarriesSentinel(instructions[k]);
        true
      else false
  }

  /** The merge filter: a deployed path belongs to this mod type iff it names
      the sentinel file. */
  function MergeFilterAccepts(filePath: string): (r: bool)
    ensures r <==> Contains(filePath, FakeFile)
  {
    IndexOf(filePath, FakeFile) != -1
  }

  /** A base file for the merge: copied from `inPath` to `outPath` relative to
      the merge directory before merging. */
  datatype BaseFile = BaseFile(inPath: string, outPath: string)

  /** The merge filter `canMerge` returns; its path predicate is `MergeFilterAccepts`. */
  datatype MergeFilter = MergeFilter(baseFiles: seq<BaseFile>)

  /** `canMerge`: only a patch-target game gets a merge filter, whose single
      base file is the game's resolved assembly. */
  function CanMerge(game: GameStored, discoveryPath: string): (r: Option<MergeFilter>)
    ensures r.Some? <==> GetPatcherDetails(game).Some?
    ensures r.Some? ==>
      var d := GetPatcherDetails(game).value;
      && |r.value.baseFiles| == 1
      && r.value.baseFiles[0].outPath == d.dataPath
      && r.value.baseFiles[0].inPath == Join(discoveryPath, d.dataPath)
      && EndsWith(r.value.baseFiles[0].inPath, DllExtension)
      && EndsWith(r.value.baseFiles[0].outPath, DllExtension)
  {
    match GetPatcherDetails(game)
    case None => None
    case Some(d) =>
      JoinEndsWith(discoveryPath, d.dataPath, DllExtension);
      Some(MergeFilter([BaseFile(Join(discoveryPath, d.dataPath), d.dataPath)]))
  }

  /** The merge filter accepts the sentinel file wherever it is deployed,
      and `test` recognises any instruction set that deploys it. */
  lemma SentinelRecognised(dir: string, gameInfo: Option<GameStoredInfo>,
                           instructions: seq<Instruction>)
    requires IsPatcherGame(gameInfo)
    ensures MergeFilterAccepts(Join(dir, FakeFile))
    ensures Test(instructions + [Instruction(Some(Join(dir, FakeFile)))], gameInfo)
  {
    var p := Join(dir, FakeFile);
    assert OccursAt(p, FakeFile, |dir| + 1) by {
      assert p[|dir| + 1..] == FakeFile;
    }
    var extended := instructions + [Instruction(Some(p))];
    assert CarriesSentinel(extended[|instructions|]);
  }
}
