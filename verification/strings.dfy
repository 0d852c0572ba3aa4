/** The string operations the extension relies on (`startsWith`, `endsWith`,
    `indexOf`) and a simple abstract model of `path.join` / `path.dirname`. */
module Strings {

  predicate StartsWith(s: string, prefix: string) {
    |prefix| <= |s| && s[..|prefix|] == prefix
  }

  predicate EndsWith(s: string, suffix: string) {
    |suffix| <= |s| && s[|s| - |suffix|..] == suffix
  }

  /** `sub` occurs in `s` starting at position `i`. */
  predicate OccursAt(s: string, sub: string, i: int) {
    0 <= i && i + |sub| <= |s| && s[i..i + |sub|] == sub
  }

  predicate Contains(s: string, sub: string) {
    exists i :: 0 <= i <= |s| && OccursAt(s, sub, i)
  }

  /** Scans `s` for `sub` starting at `from`; -1 when there is no later occurrence. */
  function IndexFrom(s: string, sub: string, from: nat): (r: int)
    ensures r == -1 ==> forall i :: from <= i ==> !OccursAt(s, sub, i)
    ensures r != -1 ==> from <= r && OccursAt(s, sub, r)
    ensures r != -1 ==> forall i :: from <= i < r ==> !OccursAt(s, sub, i)
    decreases |s| - from
  {
    if from + |sub| > |s| then -1
    else if s[from..from + |sub|] == sub then from
    else IndexFrom(s, sub, from + 1)
  }

  /** JavaScript's `String.prototype.indexOf`: the first position at which
      `sub` occurs, or -1 when it does not occur at all. */
  function IndexOf(s: string, sub: string): (r: int)
    ensures r == -1 <==> !Contains(s, sub)
    ensures r != -1 ==> OccursAt(s, sub, r) && forall i :: 0 <= i < r ==> !OccursAt(s, sub, i)
  {
    IndexFrom(s, sub, 0)
  }

  /** Any string that extends `s` on the left keeps the suffixes of `s`. */
  lemma EndsWithAppend(a: string, s: string, suffix: string)
    requires EndsWith(s, suffix)
    ensures EndsWith(a + s, suffix)
  {
    assert (a + s)[|a + s| - |suffix|..] == s[|s| - |suffix|..];
  }
}

/** An abstract `path` module: `Join` glues two components with a separator
    and `Dirname` drops the last component. Normalisation of `.`/`..`,
    duplicate separators and drive letters is not modelled. */
module Paths {
  import opened Strings

  const Sep: char := '/'

  predicate IsComponent(name: string) {
    forall i :: 0 <= i < |name| ==> name[i] != Sep
  }

  function Join(dir: string, name: string): string {
    dir + [Sep] + name
  }

  /** The position of the last separator among the first `n` characters of
      `p`, or -1 when there is none. */
  function LastSepBefore(p: string, n: nat): (r: int)
    requires n <= |p|
    ensures -1 <= r < n
    ensures r >= 0 ==> p[r] == Sep
    ensures forall i :: r < i < n ==> p[i] != Sep
    decreases n
  {
    if n == 0 then -1
    else if p[n - 1] == Sep then n - 1
    else LastSepBefore(p, n - 1)
  }

  /** The position of the last separator in `p`, or -1 when there is none. */
  function LastSep(p: string): (r: int)
    ensures -1 <= r < |p|
    ensures r >= 0 ==> p[r] == Sep && IsComponent(p[r + 1..])
    ensures r == -1 ==> IsComponent(p)
  {
    LastSepBefore(p, |p|)
  }

  /** `path.dirname`: everything before the last separator, "." when there is none. */
  function Dirname(p: string): string {
    var k := LastSep(p);
    if k < 0 then "." else p[..k]
  }

  /** Joining a name onto a path keeps the name's suffix, so a joined
      `.dll` name still ends in `.dll`. */
  lemma JoinEndsWith(dir: string, name: string, suffix: string)
    requires EndsWith(name, suffix)
    ensures EndsWith(Join(dir, name), suffix)
  {
    EndsWithAppend(dir + [Sep], name, suffix);
  }

  /** `Dirname` undoes a `Join` with a single path component. */
  lemma DirnameJoin(dir: string, name: string)
    requires IsComponent(name)
    ensures Dirname(Join(dir, name)) == dir
  {
    var p := Join(dir, name);
    assert p[|dir|] == Sep;
    assert p[|dir| + 1..] == name;
    assert p[..|dir|] == dir;
  }
}

/** Order-preserving filtering, the model of `Array.prototype.filter`. */
module Seqs {

  /** `xs` is an order-preserving subsequence of `ys` (greedy matching from the left). */
  predicate SubseqOf<T(==)>(xs: seq<T>, ys: seq<T>)
    decreases |ys|
  {
    if xs == [] then true
    else if ys == [] then false
    else if xs[0] == ys[0] then SubseqOf(xs[1..], ys[1..])
    else SubseqOf(xs, ys[1..])
  }

  function Filter<T(==)>(keep: T -> bool, s: seq<T>): (r: seq<T>)
    ensures |r| <= |s|
    ensures forall i :: 0 <= i < |r| ==> r[i] in s && keep(r[i])
    ensures forall i :: 0 <= i < |s| && keep(s[i]) ==> s[i] in r
    ensures SubseqOf(r, s)
    decreases |s|
  {
    if s == [] then []
    else
      var rest := Filter(keep, s[1..]);
      if keep(s[0]) then
        assert ([s[0]] + rest)[1..] == rest;
        [s[0]] + rest
      else rest
  }

  /** `Array.prototype.findIndex`: the position of the first element
      satisfying `p`, or -1 when there is none. */
  function FindIndex<T>(p: T -> bool, s: seq<T>): (r: int)
    ensures -1 <= r < |s|
    ensures r >= 0 ==> p(s[r]) && forall j :: 0 <= j < r ==> !p(s[j])
    ensures r == -1 ==> forall i :: 0 <= i < |s| ==> !p(s[i])
    decreases |s|
  {
    if s == [] then -1
    else if p(s[0]) then 0
    else
      var k := FindIndex(p, s[1..]);
      if k < 0 then -1 else k + 1
  }
}
