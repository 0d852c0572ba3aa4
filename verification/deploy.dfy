/** The copy-with-rollback step of `deployAssemblies`: copy each diffed
    assembly in order, record each successful copy in a ledger, and on the
    first failure remove what the ledger holds and re-raise the copy error.
    The filesystem's `copyAsync` and `removeAsync` are total functions from
    paths to outcomes. */
module Deploy {
  import opened Wrappers
  import opened Paths
  import opened Types

  /** A filesystem request, in the order the deployer issues them. */
  datatype FsOp = Copy(source: string, destination: string) | Remove(path: string)

  /** The copy phase: destinations successfully written (the ledger) and the
      error of the copy that stopped it, if any. */
  datatype CopyRun = CopyRun(ledger: seq<string>, failure: Option<Error>)

  /** The cleanup phase: how many ledger entries were removed and the error
      of the removal that stopped it, if any. */
  datatype CleanupRun = CleanupRun(removed: nat, failure: Option<Error>)

  /** One deployment: the requests issued, the result the caller sees, and
      the cleanup error that is only logged. */
  datatype DeployRun = DeployRun(ops: seq<FsOp>, outcome: Outcome<Error>, cleanupError: Option<Error>)

  /** `Promise.each` over the copies: a destination enters the ledger only
      after its copy succeeds, and the first failure stops the loop. */
  function CopyEach(items: seq<string>, from: string, to: string,
                    copy: (string, string) -> Outcome<Error>): (r: CopyRun)
    ensures |r.ledger| <= |items|
    ensures forall i :: 0 <= i < |r.ledger| ==>
      r.ledger[i] == Join(to, items[i]) && copy(Join(from, items[i]), Join(to, items[i])) == Pass
    ensures r.failure.None? <==> |r.ledger| == |items|
    ensures r.failure.Some? ==>
      copy(Join(from, items[|r.ledger|]), Join(to, items[|r.ledger|])) == Fail(r.failure.value)
    decreases |items|
  {
    if items == [] then CopyRun([], None)
    else match copy(Join(from, items[0]), Join(to, items[0]))
      case Fail(e) => CopyRun([], Some(e))
      case Pass =>
        var rest := CopyEach(items[1..], from, to, copy);
        CopyRun([Join(to, items[0])] + rest.ledger, rest.failure)
  }

  /** `Promise.each` over the removals: the first failing removal stops the cleanup. */
  function RemoveEach(paths: seq<string>, remove: string -> Outcome<Error>): (r: CleanupRun)
    ensures r.removed <= |paths|
    ensures forall i :: 0 <= i < r.removed ==> remove(paths[i]) == Pass
    ensures r.failure.None? <==> r.removed == |paths|
    ensures r.failure.Some? ==> remove(paths[r.removed]) == Fail(r.failure.value)
    decreases |paths|
  {
    if paths == [] then CleanupRun(0, None)
    else match remove(paths[0])
      case Fail(e) => CleanupRun(0, Some(e))
      case Pass =>
        var rest := RemoveEach(paths[1..], remove);
        CleanupRun(rest.removed + 1, rest.failure)
  }

  /** The copy requests for the first `n` items. */
  function CopyOps(items: seq<string>, from: string, to: string, n: nat): seq<FsOp>
    requires n <= |items|
  {
    seq(n, i requires 0 <= i < n => Copy(Join(from, items[i]), Join(to, items[i])))
  }

  /** The removal requests for the first `n` paths. */
  function RemoveOps(paths: seq<string>, n: nat): seq<FsOp>
    requires n <= |paths|
  {
    seq(n, i requires 0 <= i < n => Remove(paths[i]))
  }

  /** The number of requests a phase issued: the successful ones plus the failing one. */
  function Attempted(succeeded: nat, failure: Option<Error>): nat {
    if failure.Some? then succeeded + 1 else succeeded
  }

  /** Copy with rollback. On success every item was copied in order; on a
      failing copy the ledger is removed in order and the caller sees the
      copy's own error, whatever the cleanup does. */
  function CopyWithRollback(items: seq<string>, from: string, to: string,
                            copy: (string, string) -> Outcome<Error>,
                            remove: string -> Outcome<Error>): (r: DeployRun)
    ensures r.outcome.Pass? <==>
      forall i :: 0 <= i < |items| ==> copy(Join(from, items[i]), Join(to, items[i])) == Pass
    ensures r.outcome.Pass? ==> r.ops == CopyOps(items, from, to, |items|) && r.cleanupError.None?
    ensures r.outcome.Fail? ==>
      var c := CopyEach(items, from, to, copy);
      var cleanup := RemoveEach(c.ledger, remove);
      && c.failure == Some(r.outcome.error)
      && |c.ledger| < |items|
      && r.ops == CopyOps(items, from, to, |c.ledger| + 1)
                  + RemoveOps(c.ledger, Attempted(cleanup.removed, cleanup.failure))
      && r.cleanupError == cleanup.failure
  {
    var c := CopyEach(items, from, to, copy);
    match c.failure
    case None => DeployRun(CopyOps(items, from, to, |items|), Pass, None)
    case Some(err) =>
      var cleanup := RemoveEach(c.ledger, remove);
      var ops := CopyOps(items, from, to, |c.ledger| + 1)
                 + RemoveOps(c.ledger, Attempted(cleanup.removed, cleanup.failure));
      DeployRun(ops, Fail(err), cleanup.failure)
  }

  /** A failed deployment reports the error of the first item whose copy fails. */
  lemma RollbackFailureIsFirst(items: seq<string>, from: string, to: string,
                               copy: (string, string) -> Outcome<Error>,
                               remove: string -> Outcome<Error>)
    ensures var r := CopyWithRollback(items, from, to, copy, remove);
      r.outcome.Fail? ==>
        exists k :: 0 <= k < |items|
          && (forall i :: 0 <= i < k ==> copy(Join(from, items[i]), Join(to, items[i])) == Pass)
          && copy(Join(from, items[k]), Join(to, items[k])) == r.outcome
  {
    var c := CopyEach(items, from, to, copy);
    if c.failure.Some? {
      var k := |c.ledger|;
      assert copy(Join(from, items[k]), Join(to, items[k])) == Fail(c.failure.value);
    }
  }

  /** Copies of a prefix of the items followed by removals of a prefix of a
      ledger of their destinations: a copy at position `j` copies item `j`,
      and a removal targets some item's destination. */
  lemma RequestShape(items: seq<string>, from: string, to: string, ledger: seq<string>,
                     n: nat, m: nat)
    requires n <= |items| && m <= |ledger| <= |items|
    requires forall i :: 0 <= i < |ledger| ==> ledger[i] == Join(to, items[i])
    ensures var ops := CopyOps(items, from, to, n) + RemoveOps(ledger, m);
      && (forall j :: 0 <= j < |ops| && ops[j].Copy? ==>
            j < |items| && ops[j] == Copy(Join(from, items[j]), Join(to, items[j])))
      && (forall j :: 0 <= j < |ops| && ops[j].Remove? ==>
            exists i :: 0 <= i < |items| && ops[j].path == Join(to, items[i]))
  {
    var copies := CopyOps(items, from, to, n);
    var removals := RemoveOps(ledger, m);
    var ops := copies + removals;
    forall j | 0 <= j < |ops| && ops[j].Remove?
      ensures exists i :: 0 <= i < |items| && ops[j].path == Join(to, items[i])
    {
      var i := j - n;
      assert ops[j] == removals[i] == Remove(ledger[i]);
      assert ops[j].path == Join(to, items[i]);
    }
  }

  /** The request at position `j`, when it is a copy, copies item `j`, and
      every removal targets the destination of some item. */
  lemma RollbackRequestShape(items: seq<string>, from: string, to: string,
                             copy: (string, string) -> Outcome<Error>,
                             remove: string -> Outcome<Error>)
    ensures var r := CopyWithRollback(items, from, to, copy, remove);
      && (forall j :: 0 <= j < |r.ops| && r.ops[j].Copy? ==>
            j < |items| && r.ops[j] == Copy(Join(from, items[j]), Join(to, items[j])))
      && (forall j :: 0 <= j < |r.ops| && r.ops[j].Remove? ==>
            exists i :: 0 <= i < |items| && r.ops[j].path == Join(to, items[i]))
  {
    var c := CopyEach(items, from, to, copy);
    if c.failure.None? {
      RequestShape(items, from, to, [], |items|, 0);
      assert CopyOps(items, from, to, |items|) + RemoveOps([], 0)
          == CopyOps(items, from, to, |items|);
    } else {
      var cleanup := RemoveEach(c.ledger, remove);
      RequestShape(items, from, to, c.ledger, |c.ledger| + 1,
                   Attempted(cleanup.removed, cleanup.failure));
    }
  }

  /** What a deployment's requests are in terms of its items: the request at
      position `j`, when it is a copy, copies item `j`; every removal targets
      the destination of some item; and a failure is the error of the first
      item whose copy fails. */
  lemma RollbackRequests(items: seq<string>, from: string, to: string,
                         copy: (string, string) -> Outcome<Error>,
                         remove: string -> Outcome<Error>)
    ensures var r := CopyWithRollback(items, from, to, copy, remove);
      && (r.outcome.Fail? ==>
            exists k :: 0 <= k < |items|
              && (forall i :: 0 <= i < k ==> copy(Join(from, items[i]), Join(to, items[i])) == Pass)
              && copy(Join(from, items[k]), Join(to, items[k])) == r.outcome)
      && (forall j :: 0 <= j < |r.ops| && r.ops[j].Copy? ==>
            j < |items| && r.ops[j] == Copy(Join(from, items[j]), Join(to, items[j])))
      && (forall j :: 0 <= j < |r.ops| && r.ops[j].Remove? ==>
            exists i :: 0 <= i < |items| && r.ops[j].path == Join(to, items[i]))
  {
    RollbackFailureIsFirst(items, from, to, copy, remove);
    RollbackRequestShape(items, from, to, copy, remove);
  }

  /** If item `k` is the first whose copy fails, the caller sees exactly that
      copy's error, no later item is attempted, and cleanup only touches the
      destinations of items `0..k-1`, in order. */
  lemma FirstFailureIsReported(items: seq<string>, from: string, to: string,
                               copy: (string, string) -> Outcome<Error>,
                               remove: string -> Outcome<Error>, k: nat)
    requires k < |items|
    requires forall i :: 0 <= i < k ==> copy(Join(from, items[i]), Join(to, items[i])) == Pass
    requires copy(Join(from, items[k]), Join(to, items[k])).Fail?
    ensures var r := CopyWithRollback(items, from, to, copy, remove);
      && r.outcome == copy(Join(from, items[k]), Join(to, items[k]))
      && r.ops[..k + 1] == CopyOps(items, from, to, k + 1)
      && (forall j :: k + 1 <= j < |r.ops| ==>
            (r.ops[j].Remove? && exists i :: 0 <= i < k && r.ops[j].path == Join(to, items[i])))
  {
    FirstFailureLedger(items, from, to, copy, k);
    var c := CopyEach(items, from, to, copy);
    var r := CopyWithRollback(items, from, to, copy, remove);
    var cleanup := RemoveEach(c.ledger, remove);
    var removals := RemoveOps(c.ledger, Attempted(cleanup.removed, cleanup.failure));
    assert c.failure.Some? && |c.ledger| == k;
    assert r.ops == CopyOps(items, from, to, k + 1) + removals;
    assert r.ops[..k + 1] == CopyOps(items, from, to, k + 1);
    forall j | k + 1 <= j < |r.ops|
      ensures r.ops[j].Remove? && exists i :: 0 <= i < k && r.ops[j].path == Join(to, items[i])
    {
      assert r.ops[j] == removals[j - k - 1] == Remove(c.ledger[j - k - 1]);
    }
  }

  /** The ledger stops exactly at the first failing copy. */
  lemma FirstFailureLedger(items: seq<string>, from: string, to: string,
                           copy: (string, string) -> Outcome<Error>, k: nat)
    requires k < |items|
    requires forall i :: 0 <= i < k ==> copy(Join(from, items[i]), Join(to, items[i])) == Pass
    requires copy(Join(from, items[k]), Join(to, items[k])).Fail?
    ensures |CopyEach(items, from, to, copy).ledger| == k
    ensures CopyEach(items, from, to, copy).failure
            == Some(copy(Join(from, items[k]), Join(to, items[k])).error)
  {
  }

  /** The error the caller sees does not depend on how the cleanup went. */
  lemma CleanupNeverMasksError(items: seq<string>, from: string, to: string,
                               copy: (string, string) -> Outcome<Error>,
                               remove1: string -> Outcome<Error>,
                               remove2: string -> Outcome<Error>)
    ensures CopyWithRollback(items, from, to, copy, remove1).outcome
            == CopyWithRollback(items, from, to, copy, remove2).outcome
  {
  }

  /** The effect of one request on the set of existing files. A failed copy
      is taken to leave no file behind. */
  function Step(files: set<string>, op: FsOp,
                copy: (string, string) -> Outcome<Error>,
                remove: string -> Outcome<Error>): set<string>
  {
    match op
    case Copy(s, d) => if copy(s, d) == Pass then files + {d} else files
    case Remove(p) => if remove(p) == Pass then files - {p} else files
  }

  function Effect(files: set<string>, ops: seq<FsOp>,
                  copy: (string, string) -> Outcome<Error>,
                  remove: string -> Outcome<Error>): set<string>
    decreases |ops|
  {
    if ops == [] then files
    else Effect(Step(files, ops[0], copy, remove), ops[1..], copy, remove)
  }

  lemma {:induction false} EffectAppend(files: set<string>, a: seq<FsOp>, b: seq<FsOp>,
                                        copy: (string, string) -> Outcome<Error>,
                                        remove: string -> Outcome<Error>)
    ensures Effect(files, a + b, copy, remove)
            == Effect(Effect(files, a, copy, remove), b, copy, remove)
    decreases |a|
  {
    if a == [] {
      assert a + b == b;
    } else {
      assert (a + b)[1..] == a[1..] + b;
      EffectAppend(Step(files, a[0], copy, remove), a[1..], b, copy, remove);
    }
  }

  /** Copies that all succeed add exactly their destinations. */
  lemma {:induction false} EffectOfCopies(files: set<string>, items: seq<string>, from: string,
                                          to: string, n: nat,
                                          copy: (string, string) -> Outcome<Error>,
                                          remove: string -> Outcome<Error>)
    requires n <= |items|
    requires forall i :: 0 <= i < n ==> copy(Join(from, items[i]), Join(to, items[i])) == Pass
    ensures Effect(files, CopyOps(items, from, to, n), copy, remove)
            == files + (set i | 0 <= i < n :: Join(to, items[i]))
    decreases n
  {
    if n > 0 {
      var last := Copy(Join(from, items[n - 1]), Join(to, items[n - 1]));
      assert CopyOps(items, from, to, n) == CopyOps(items, from, to, n - 1) + [last];
      EffectAppend(files, CopyOps(items, from, to, n - 1), [last], copy, remove);
      EffectOfCopies(files, items, from, to, n - 1, copy, remove);
      assert (set i | 0 <= i < n :: Join(to, items[i]))
          == (set i | 0 <= i < n - 1 :: Join(to, items[i])) + {Join(to, items[n - 1])};
    }
  }

  /** Removals that all succeed delete exactly their paths. */
  lemma {:induction false} EffectOfRemovals(files: set<string>, paths: seq<string>, n: nat,
                                            copy: (string, string) -> Outcome<Error>,
                                            remove: string -> Outcome<Error>)
    requires n <= |paths|
    requires forall i :: 0 <= i < n ==> remove(paths[i]) == Pass
    ensures Effect(files, RemoveOps(paths, n), copy, remove)
            == files - (set i | 0 <= i < n :: paths[i])
    decreases n
  {
    if n > 0 {
      var last := Remove(paths[n - 1]);
      assert RemoveOps(paths, n) == RemoveOps(paths, n - 1) + [last];
      EffectAppend(files, RemoveOps(paths, n - 1), [last], copy, remove);
      EffectOfRemovals(files, paths, n - 1, copy, remove);
      assert (set i | 0 <= i < n :: paths[i])
          == (set i | 0 <= i < n - 1 :: paths[i]) + {paths[n - 1]};
    }
  }

  /** The requests of a failed deployment whose cleanup went through: the
      successful copies, the failing copy, then one removal per ledger entry. */
  lemma CleanRollbackOps(items: seq<string>, from: string, to: string,
                         copy: (string, string) -> Outcome<Error>,
                         remove: string -> Outcome<Error>)
    requires CopyWithRollback(items, from, to, copy, remove).outcome.Fail?
    requires CopyWithRollback(items, from, to, copy, remove).cleanupError.None?
    ensures var c := CopyEach(items, from, to, copy);
      var k := |c.ledger|;
      && k < |items|
      && CopyWithRollback(items, from, to, copy, remove).ops
         == CopyOps(items, from, to, k)
            + ([Copy(Join(from, items[k]), Join(to, items[k]))] + RemoveOps(c.ledger, k))
  {
    var r := CopyWithRollback(items, from, to, copy, remove);
    var c := CopyEach(items, from, to, copy);
    var k := |c.ledger|;
    var cleanup := RemoveEach(c.ledger, remove);
    assert cleanup.failure.None? && cleanup.removed == k;
    var failing := Copy(Join(from, items[k]), Join(to, items[k]));
    var removals := RemoveOps(c.ledger, k);
    assert r.ops == CopyOps(items, from, to, k + 1) + removals;
    assert CopyOps(items, from, to, k + 1) == CopyOps(items, from, to, k) + [failing];
    assert (CopyOps(items, from, to, k) + [failing]) + removals
        == CopyOps(items, from, to, k) + ([failing] + removals);
  }

  /** A copy that fails leaves the file set as it was. */
  lemma FailedCopyNoEffect(files: set<string>, source: string, destination: string, rest: seq<FsOp>,
                           copy: (string, string) -> Outcome<Error>,
                           remove: string -> Outcome<Error>)
    requires copy(source, destination).Fail?
    ensures Effect(files, [Copy(source, destination)] + rest, copy, remove)
            == Effect(files, rest, copy, remove)
  {
    assert ([Copy(source, destination)] + rest)[1..] == rest;
  }

  /** The ledger holds exactly the destinations of the items it covers. */
  lemma LedgerDestinations(items: seq<string>, from: string, to: string,
                           copy: (string, string) -> Outcome<Error>)
    ensures var ledger := CopyEach(items, from, to, copy).ledger;
      && (set i | 0 <= i < |ledger| :: Join(to, items[i])) == (set p | p in ledger)
      && (set i | 0 <= i < |ledger| :: ledger[i]) == (set p | p in ledger)
  {
  }

  /** Rollback: when a copy fails and every removal succeeds, none of the
      copied destinations is left and every other file is as before. */
  lemma RollbackRestoresFiles(files: set<string>, items: seq<string>, from: string, to: string,
                              copy: (string, string) -> Outcome<Error>,
                              remove: string -> Outcome<Error>)
    requires CopyWithRollback(items, from, to, copy, remove).outcome.Fail?
    requires CopyWithRollback(items, from, to, copy, remove).cleanupError.None?
    ensures var ledger := CopyEach(items, from, to, copy).ledger;
      Effect(files, CopyWithRollback(items, from, to, copy, remove).ops, copy, remove)
      == files - (set p | p in ledger)
  {
    var c := CopyEach(items, from, to, copy);
    var k := |c.ledger|;
    var removals := RemoveOps(c.ledger, k);
    CleanRollbackOps(items, from, to, copy, remove);
    var rest := [Copy(Join(from, items[k]), Join(to, items[k]))] + removals;
    EffectAppend(files, CopyOps(items, from, to, k), rest, copy, remove);
    EffectOfCopies(files, items, from, to, k, copy, remove);
    var copied := files + (set i | 0 <= i < k :: Join(to, items[i]));
    FailedCopyNoEffect(copied, Join(from, items[k]), Join(to, items[k]), removals, copy, remove);
    EffectOfRemovals(copied, c.ledger, k, copy, remove);
    LedgerDestinations(items, from, to, copy);
  }

  /** A successful deployment leaves every item at its destination. */
  lemma DeployPlacesEveryItem(files: set<string>, items: seq<string>, from: string, to: string,
                              copy: (string, string) -> Outcome<Error>,
                              remove: string -> Outcome<Error>)
    requires CopyWithRollback(items, from, to, copy, remove).outcome.Pass?
    ensures Effect(files, CopyWithRollback(items, from, to, copy, remove).ops, copy, remove)
            == files + (set x | x in items :: Join(to, x))
  {
    EffectOfCopies(files, items, from, to, |items|, copy, remove);
    assert (set i | 0 <= i < |items| :: Join(to, items[i])) == (set x | x in items :: Join(to, x));
  }
}
