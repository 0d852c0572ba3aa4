/** The assembly filter and diff of `deployAssemblies` and the symlink filter
    of `getGameAssemblies`. Directory listings are plain sequences of names. */
module Assemblies {
  import opened Strings
  import opened Paths
  import opened Seqs
  import opened Types
  import PatchTarget

  /** Assemblies whose name starts with this prefix belong to the runtime. */
  const SystemPrefix: string := "System"

  /** The one runtime assembly the patcher's JSON library needs and may be copied. */
  const SerializationAssembly: string := "System.Runtime.Serialization.dll"

  predicate IsDll(name: string) {
    EndsWith(name, PatchTarget.DllExtension)
  }

  /** The filter applied to the patcher module's own directory listing. */
  predicate KeepModuleAssembly(name: string) {
    (IsDll(name) && !StartsWith(name, SystemPrefix)) || name == SerializationAssembly
  }

  /** The assemblies the patcher module can provide, in listing order. */
  function ModuleAssemblies(moduleListing: seq<string>): (r: seq<string>)
    ensures SubseqOf(r, moduleListing)
    ensures forall x :: x in r <==> x in moduleListing && KeepModuleAssembly(x)
  {
    Filter(KeepModuleAssembly, moduleListing)
  }

  /** The outcome of `lstat` on one directory entry. */
  datatype LstatResult = LstatOk(isSymbolicLink: bool) | LstatFailed(error: Error)

  /** An entry of the game's runtime directory that the game itself owns:
      a `.dll` whose `lstat` succeeds and is not a symbolic link. */
  predicate GameOwned(dir: string, lstat: string -> LstatResult, entry: string) {
    IsDll(entry) && lstat(Join(dir, entry)) == LstatOk(false)
  }

  /** `getGameAssemblies`: entries whose `lstat` fails are dropped silently. */
  function GameAssemblies(dir: string, entries: seq<string>, lstat: string -> LstatResult)
    : (r: seq<string>)
    ensures SubseqOf(r, entries)
    ensures forall x :: x in r <==>
      x in entries && IsDll(x) && lstat(Join(dir, x)).LstatOk?
      && !lstat(Join(dir, x)).isSymbolicLink
  {
    Filter(entry => GameOwned(dir, lstat, entry), entries)
  }

  /** The assemblies still to be copied: module assemblies that are neither
      at the destination nor owned by the game, in module listing order. */
  function Diff(moduleListing: seq<string>, destination: seq<string>, gameOwned: seq<string>)
    : (r: seq<string>)
    ensures SubseqOf(r, ModuleAssemblies(moduleListing))
    ensures forall x :: x in r <==>
      x in moduleListing && KeepModuleAssembly(x) && x !in destination && x !in gameOwned
  {
    Filter(x => x !in destination && x !in gameOwned, ModuleAssemblies(moduleListing))
  }

  /** The allow-listed serialization assembly passes the filter although
      its name has the excluded prefix; other runtime assemblies do not. */
  lemma SerializationAllowListed()
    ensures StartsWith(SerializationAssembly, SystemPrefix)
    ensures KeepModuleAssembly(SerializationAssembly)
    ensures !KeepModuleAssembly("System.Core.dll")
    ensures !KeepModuleAssembly("A.txt")
  {
    var core := "System.Core.dll";
    assert SerializationAssembly[..|SystemPrefix|] == SystemPrefix;
    assert core[..|SystemPrefix|] == SystemPrefix;
    assert core != SerializationAssembly by { assert |core| != |SerializationAssembly|; }
    var text := "A.txt";
    assert text[|text| - 4..] == ".txt";
  }

  /** Each position of the diff holds a module assembly that passes the
      filter and is neither deployed yet nor owned by the game. */
  lemma DiffElements(moduleListing: seq<string>, destination: seq<string>, gameOwned: seq<string>)
    ensures var diff := Diff(moduleListing, destination, gameOwned);
      forall j :: 0 <= j < |diff| ==>
        && diff[j] in moduleListing && KeepModuleAssembly(diff[j])
        && diff[j] !in destination && diff[j] !in gameOwned
  {
    var diff := Diff(moduleListing, destination, gameOwned);
    assert forall j :: 0 <= j < |diff| ==> diff[j] in diff;
  }

  /** The diff never contains a file the game owns or one already deployed. */
  lemma DiffDisjoint(moduleListing: seq<string>, destination: seq<string>, gameOwned: seq<string>)
    ensures forall x :: x in Diff(moduleListing, destination, gameOwned) ==>
      x !in destination && x !in gameOwned
  {
  }

  /** The worked example: the game's own copy of `A.dll` blocks it, the
      runtime's `System.Core.dll` is filtered out, and only the
      serialization assembly is left to copy. */
  lemma DiffExample()
    ensures Diff(["A.dll", "System.Core.dll", "System.Runtime.Serialization.dll"], [], ["A.dll"])
            == ["System.Runtime.Serialization.dll"]
  {
    var listing := ["A.dll", "System.Core.dll", "System.Runtime.Serialization.dll"];
    assert "A.dll"[|"A.dll"| - 4..] == ".dll";
    assert "System.Core.dll"[..6] == SystemPrefix;
    assert ModuleAssemblies(listing) == ["A.dll", "System.Runtime.Serialization.dll"];
  }

  /** Deployment is idempotent: once every diffed file is at the destination,
      diffing again yields nothing. */
  lemma RediffEmpty(moduleListing: seq<string>, destination: seq<string>, gameOwned: seq<string>,
                    destinationAfter: seq<string>)
    requires forall x :: x in destination ==> x in destinationAfter
    requires forall x :: x in Diff(moduleListing, destination, gameOwned) ==> x in destinationAfter
    ensures Diff(moduleListing, destinationAfter, gameOwned) == []
  {
  }
}
