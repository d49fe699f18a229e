/**
  The Tiny VLESS deployment as a transaction over managed files and a durable rollback record. Every step
  may fail, before its effect, halfway, or after it.
 */
module Deploy {
  import opened RollbackRecord
  import opened Wrappers

  type Files = map<Path, FileSnapshot>

  /** A file the deployment manages: where it goes, what it holds, its mode. It belongs to root. */
  datatype Entry = Entry(dest: Path, content: seq<Byte>, mode: int)

  function Desired(e: Entry): FileSnapshot {
    FileSnapshot(Regular, Bytes(e.content), Some(e.mode), Some(0), Some(0))
  }

  /** How one step ends. A write that is `Unreadable` fails while the snapshot before it is taken. */
  datatype Effect = Works | Unreadable | FailsFirst | FailsMidway | FailsLate

  type Script = nat -> Effect

  function Dests(plan: seq<Entry>): seq<Path> {
    seq(|plan|, k requires 0 <= k < |plan| => plan[k].dest)
  }

  predicate Distinct(paths: seq<Path>) {
    forall i, j :: 0 <= i < j < |paths| ==> paths[i] != paths[j]
  }

  predicate Snapshotable(s: FileSnapshot) {
    !s.kind.Directory?
  }

  /** Every path holds something a snapshot can be taken of, or a directory. */
  predicate AllTaken(files: Files) {
    forall path :: path in files && Snapshotable(files[path]) ==> Taken(files[path])
  }

  // ---- the two loops ------------------------------------------------------------------------------------------

  /** Replacing a file is atomic: it happened or it did not. Replacing a file by its like changes nothing. */
  function WriteValue(current: FileSnapshot, e: Entry, effect: Effect): FileSnapshot {
    if effect.Works? || effect.FailsLate? then Desired(e) else current
  }

  function AfterWrite(files: Files, e: Entry, effect: Effect): Files
    requires e.dest in files
  {
    files[e.dest := WriteValue(files[e.dest], e, effect)]
  }

  /** Restoring first removes, then creates; a directory in the way is left alone. */
  function RestoreValue(current: FileSnapshot, s: FileSnapshot, effect: Effect): FileSnapshot {
    if !Snapshotable(current) || effect.Unreadable? || effect.FailsFirst? then current
    else if effect.FailsMidway? || !Restorable(s) then MISSING
    else if effect.FailsLate? then AlmostMaterialized(s)
    else Materialized(s)
  }

  function AfterRestore(files: Files, path: Path, s: FileSnapshot, effect: Effect): Files
    requires path in files
  {
    files[path := RestoreValue(files[path], s, effect)]
  }

  predicate RestoreWorks(current: FileSnapshot, s: FileSnapshot, effect: Effect) {
    Snapshotable(current) && Restorable(s) && effect.Works?
  }

  /** Taking a snapshot works. */
  predicate Readable(current: FileSnapshot, effect: Effect) {
    Snapshotable(current) && !effect.Unreadable?
  }

  /** How far staging came: the files, how many snapshots were taken, and whether it got through. */
  datatype Progress = Progress(files: Files, taken: nat, ok: bool)

  function WritesFrom(files: Files, plan: seq<Entry>, k: nat, effects: Script): (p: Progress)
    requires k <= |plan| && forall i :: 0 <= i < |plan| ==> plan[i].dest in files
    ensures k <= p.taken <= |plan| && p.files.Keys == files.Keys && (p.ok ==> p.taken == |plan|)
    decreases |plan| - k
  {
    if k == |plan| then Progress(files, k, true)
    else if !Readable(files[plan[k].dest], effects(k)) then Progress(files, k, false)
    else if !effects(k).Works? then Progress(AfterWrite(files, plan[k], effects(k)), k + 1, false)
    else WritesFrom(AfterWrite(files, plan[k], Effect.Works), plan, k + 1, effects)
  }

  datatype Restoring = Restoring(files: Files, ok: bool)

  /** Restores the first `n` paths, last one first, until one fails. */
  function RestoreDown(files: Files, snapshots: Files, paths: seq<Path>, n: nat, effects: Script): (p: Restoring)
    requires n <= |paths| && forall i :: 0 <= i < |paths| ==> paths[i] in files && paths[i] in snapshots
    ensures p.files.Keys == files.Keys
  {
    if n == 0 then Restoring(files, true)
    else
      var path := paths[n - 1];
      var after := AfterRestore(files, path, snapshots[path], effects(n - 1));
      if !RestoreWorks(files[path], snapshots[path], effects(n - 1)) then Restoring(after, false)
      else RestoreDown(after, snapshots, paths, n - 1, effects)
  }

  /** Staging: on failure what was snapshotted is restored, and that may fail too. */
  datatype Staging = Staged(files: Files) | Undone(files: Files) | Torn(files: Files)

  function Stage(files: Files, plan: seq<Entry>, writes: Script, restores: Script): Staging
    requires forall i :: 0 <= i < |plan| ==> plan[i].dest in files
  {
    var p := WritesFrom(files, plan, 0, writes);
    if p.ok then Staged(p.files)
    else
      var r := RestoreDown(p.files, files, Dests(plan), p.taken, restores);
      if r.ok then Undone(r.files) else Torn(r.files)
  }

  /** The files with the snapshots put back. */
  function Restored(files: Files, snapshots: Files): Files {
    map path | path in files :: if path in snapshots then Materialized(snapshots[path]) else files[path]
  }

  /** `after` differs from `before` at most on the given paths. */
  predicate SameOutside(before: Files, after: Files, paths: set<Path>) {
    after.Keys == before.Keys && forall path :: path in before && path !in paths ==> after[path] == before[path]
  }

  lemma {:induction false} WritesTouch(files: Files, plan: seq<Entry>, k: nat, effects: Script)
    requires k <= |plan| && forall i :: 0 <= i < |plan| ==> plan[i].dest in files
    ensures var p := WritesFrom(files, plan, k, effects);
            forall path :: path in files && (forall i :: k <= i < p.taken ==> plan[i].dest != path) ==>
              p.files[path] == files[path]
    decreases |plan| - k
  {
    if k < |plan| && Snapshotable(files[plan[k].dest]) && effects(k).Works? {
      WritesTouch(AfterWrite(files, plan[k], Effect.Works), plan, k + 1, effects);
    }
  }

  /** A restore that gets through puts each of its paths back; a path it does not have stays. */
  lemma {:induction false} RestoreAt(files: Files, snapshots: Files, paths: seq<Path>, n: nat, effects: Script, path: Path)
    requires n <= |paths| && (forall i :: 0 <= i < |paths| ==> paths[i] in files && paths[i] in snapshots) && path in files
    ensures var r := RestoreDown(files, snapshots, paths, n, effects);
            && (path !in paths[..n] ==> r.files[path] == files[path])
            && (r.ok && path in paths[..n] ==> path in snapshots && r.files[path] == Materialized(snapshots[path]))
  {
    if n > 0 {
      var last := paths[n - 1];
      assert paths[..n] == paths[..n - 1] + [last];
      RestoreAt(AfterRestore(files, last, snapshots[last], effects(n - 1)), snapshots, paths, n - 1, effects, path);
    }
  }

  /** Each of the first `n` paths holds something that can be replaced, its snapshot can be put back, and its restore works. */
  predicate AllRestorable(files: Files, snapshots: Files, paths: seq<Path>, n: nat, effects: Script)
    requires n <= |paths| && forall i :: 0 <= i < |paths| ==> paths[i] in files && paths[i] in snapshots
  {
    forall i: nat :: i < n ==> Snapshotable(files[paths[i]]) && Restorable(snapshots[paths[i]]) && effects(i).Works?
  }

  /** A restore gets through exactly when every path allows it. */
  lemma {:induction false} RestoresExactly(files: Files, snapshots: Files, paths: seq<Path>, n: nat, effects: Script)
    requires n <= |paths| && forall i :: 0 <= i < |paths| ==> paths[i] in files && paths[i] in snapshots
    ensures RestoreDown(files, snapshots, paths, n, effects).ok <==> AllRestorable(files, snapshots, paths, n, effects)
  {
    if n > 0 {
      var last := paths[n - 1];
      var after := AfterRestore(files, last, snapshots[last], effects(n - 1));
      if RestoreWorks(files[last], snapshots[last], effects(n - 1)) {
        RestoresExactly(after, snapshots, paths, n - 1, effects);
        assert forall i: nat :: i < n - 1 ==> (Snapshotable(after[paths[i]]) <==> Snapshotable(files[paths[i]]));
      }
    }
  }

  /** What was snapshotted was no directory. */
  lemma {:induction false} SnapshottedBefore(files: Files, plan: seq<Entry>, k: nat, effects: Script, i: nat)
    requires k <= |plan| && forall j :: 0 <= j < |plan| ==> plan[j].dest in files
    requires k <= i < WritesFrom(files, plan, k, effects).taken
    ensures Snapshotable(files[plan[i].dest])
    decreases |plan| - k
  {
    if k < i {
      SnapshottedBefore(AfterWrite(files, plan[k], Effect.Works), plan, k + 1, effects, i);
      if plan[k].dest == plan[i].dest {
        assert Snapshotable(files[plan[k].dest]);
      }
    }
  }

  lemma DestAt(plan: seq<Entry>, n: nat, path: Path) returns (i: nat)
    requires n <= |plan|
    ensures path in Dests(plan)[..n] ==> i < n && plan[i].dest == path
    ensures path !in Dests(plan)[..n] ==> forall k :: 0 <= k < n ==> plan[k].dest != path
  {
    i := 0;
    assert forall k :: 0 <= k < n ==> Dests(plan)[..n][k] == plan[k].dest;
    if path in Dests(plan)[..n] {
      i :| i < n && Dests(plan)[..n][i] == path;
    }
  }

  lemma UndoneAt(files: Files, plan: seq<Entry>, writes: Script, restores: Script, path: Path)
    requires path in files && AllTaken(files) && forall i :: 0 <= i < |plan| ==> plan[i].dest in files
    requires Stage(files, plan, writes, restores).Undone?
    ensures Stage(files, plan, writes, restores).files[path] == files[path]
  {
    var p := WritesFrom(files, plan, 0, writes);
    RestoreAt(p.files, files, Dests(plan), p.taken, restores, path);
    var i := DestAt(plan, p.taken, path);
    if path in Dests(plan)[..p.taken] {
      SnapshottedBefore(files, plan, 0, writes, i);
      TakenIsExact(files[path]);
    } else {
      WritesTouch(files, plan, 0, writes);
    }
  }

  /** A staging that fails and is undone leaves every file as it was. */
  lemma StagingUndone(files: Files, plan: seq<Entry>, writes: Script, restores: Script)
    requires forall i :: 0 <= i < |plan| ==> plan[i].dest in files
    requires AllTaken(files)
    requires Stage(files, plan, writes, restores).Undone?
    ensures Stage(files, plan, writes, restores).files == files
  {
    forall path | path in files
      ensures Stage(files, plan, writes, restores).files[path] == files[path]
    {
      UndoneAt(files, plan, writes, restores, path);
    }
  }

  /** Staging alone can lose the old files: the second write fails, and so does the first restore. */
  lemma StagingCanTear(files: Files, first: Entry, second: Entry)
    requires first.dest in files && second.dest in files && first.dest != second.dest
    requires Taken(files[first.dest]) && Taken(files[second.dest]) && files[first.dest] != Desired(first)
    ensures var writes := (k: nat) => if k == 0 then Effect.Works else Effect.FailsFirst;
            var torn := Stage(files, [first, second], writes, (k: nat) => Effect.FailsFirst);
            torn.Torn? && torn.files[first.dest] == Desired(first) != files[first.dest]
  {
    var writes := (k: nat) => if k == 0 then Effect.Works else Effect.FailsFirst;
    var plan := [first, second];
    var after := AfterWrite(files, first, Effect.Works);
    assert WritesFrom(files, plan, 1, writes).taken == 2;
    assert WritesFrom(after, plan, 1, writes) == Progress(after, 2, false);
    assert WritesFrom(files, plan, 0, writes) == Progress(after, 2, false);
    assert Dests(plan)[1] == second.dest;
  }

  // ---- exactly when a failed staging is harmless --------------------------------------------------------------

  /** Every destination can be snapshotted and every write works. */
  predicate StagingSucceeds(files: Files, plan: seq<Entry>, writes: Script)
    requires forall i :: 0 <= i < |plan| ==> plan[i].dest in files
  {
    forall i: nat :: i < |plan| ==> Snapshotable(files[plan[i].dest]) && writes(i).Works?
  }

  /** How many paths are snapshotted when staging from the k-th on ends: all up to the first failing write. */
  function SnapshotCount(files: Files, plan: seq<Entry>, k: nat, writes: Script): (n: nat)
    requires k <= |plan| && forall i :: 0 <= i < |plan| ==> plan[i].dest in files
    ensures k <= n <= |plan|
    decreases |plan| - k
  {
    if k == |plan| || !Readable(files[plan[k].dest], writes(k)) then k
    else if !writes(k).Works? then k + 1
    else SnapshotCount(files, plan, k + 1, writes)
  }

  /** The undo restores from the n-th path down: this is where it stops. */
  ghost predicate StopsAt(restores: Script, j: nat, n: nat) {
    j < n && !restores(j).Works? && forall i: nat :: j < i < n ==> restores(i).Works?
  }

  /** A path written and then not quite restored is back as it was, by how the write and the restore ended. */
  predicate BackAgain(before: FileSnapshot, e: Entry, write: Effect, restore: Effect) {
    match restore
    case FailsMidway => before == MISSING
    case FailsLate => before.kind.Symlink? ==> before.uid == Some(0) && before.gid == Some(0)
    case Works => true
    case _ => write.Works? || write.FailsLate? ==> before == Desired(e)
  }

  predicate AlreadyDeployed(files: Files, plan: seq<Entry>, n: nat)
    requires n <= |plan| && forall i :: 0 <= i < |plan| ==> plan[i].dest in files
  {
    forall i: nat :: i < n ==> files[plan[i].dest] == Desired(plan[i])
  }

  /** Wherever the undo stops, that path is back as it was and every path before it already held what was wanted. */
  ghost predicate StagingHarmless(files: Files, plan: seq<Entry>, writes: Script, restores: Script)
    requires forall i :: 0 <= i < |plan| ==> plan[i].dest in files
  {
    forall j: nat :: StopsAt(restores, j, SnapshotCount(files, plan, 0, writes)) ==>
      BackAgain(files[plan[j].dest], plan[j], writes(j), restores(j)) && AlreadyDeployed(files, plan, j)
  }

  lemma {:induction false} CountSame(a: Files, b: Files, plan: seq<Entry>, k: nat, writes: Script)
    requires k <= |plan| && forall i :: 0 <= i < |plan| ==> plan[i].dest in a && plan[i].dest in b
    requires forall i :: k <= i < |plan| ==> a[plan[i].dest] == b[plan[i].dest]
    ensures SnapshotCount(a, plan, k, writes) == SnapshotCount(b, plan, k, writes)
    decreases |plan| - k
  {
    if k < |plan| {
      CountSame(a, b, plan, k + 1, writes);
    }
  }

  /** Writing one destination leaves the later ones alone. */
  lemma WriteKeepsOthers(files: Files, plan: seq<Entry>, k: nat, effect: Effect)
    requires k < |plan| && Distinct(Dests(plan)) && forall i :: 0 <= i < |plan| ==> plan[i].dest in files
    ensures forall i :: 0 <= i < |plan| && i != k ==>
              AfterWrite(files, plan[k], effect)[plan[i].dest] == files[plan[i].dest]
  {
    forall i | 0 <= i < |plan| && i != k
      ensures plan[i].dest != plan[k].dest
    {
      assert Dests(plan)[i] == plan[i].dest && Dests(plan)[k] == plan[k].dest;
    }
  }

  /** How far staging comes, told from the files before it. */
  lemma {:induction false} WritesCount(files: Files, plan: seq<Entry>, k: nat, writes: Script)
    requires k <= |plan| && Distinct(Dests(plan)) && forall i :: 0 <= i < |plan| ==> plan[i].dest in files
    ensures WritesFrom(files, plan, k, writes).taken == SnapshotCount(files, plan, k, writes)
    ensures WritesFrom(files, plan, k, writes).ok <==>
            forall i: nat :: k <= i < |plan| ==> Snapshotable(files[plan[i].dest]) && writes(i).Works?
    decreases |plan| - k
  {
    if k < |plan| && Readable(files[plan[k].dest], writes(k)) && writes(k).Works? {
      var next := AfterWrite(files, plan[k], Effect.Works);
      WriteKeepsOthers(files, plan, k, Effect.Works);
      WritesCount(next, plan, k + 1, writes);
      CountSame(next, files, plan, k + 1, writes);
    }
  }

  /** A snapshot is taken of a path exactly if it can be, and everything before it was snapshotted and written. */
  lemma {:induction false} SnapshotsExactly(files: Files, plan: seq<Entry>, k: nat, writes: Script, i: nat)
    requires k <= i < |plan| && forall j :: 0 <= j < |plan| ==> plan[j].dest in files
    ensures i < SnapshotCount(files, plan, k, writes) <==>
            && Snapshotable(files[plan[i].dest]) && writes(i) != Effect.Unreadable
            && forall j: nat :: k <= j < i ==> Snapshotable(files[plan[j].dest]) && writes(j).Works?
    decreases |plan| - k
  {
    if k < i {
      SnapshotsExactly(files, plan, k + 1, writes, i);
    }
  }

  /** What staging leaves at a snapshotted path before it is undone. */
  lemma {:induction false} WritesAt(files: Files, plan: seq<Entry>, k: nat, writes: Script, i: nat)
    requires k <= |plan| && Distinct(Dests(plan)) && forall j :: 0 <= j < |plan| ==> plan[j].dest in files
    requires k <= i < SnapshotCount(files, plan, k, writes)
    ensures WritesFrom(files, plan, k, writes).files[plan[i].dest] == WriteValue(files[plan[i].dest], plan[i], writes(i))
    ensures Snapshotable(files[plan[i].dest])
    ensures i + 1 < SnapshotCount(files, plan, k, writes) ==> writes(i).Works?
    decreases |plan| - k
  {
    if writes(k).Works? {
      var next := AfterWrite(files, plan[k], Effect.Works);
      WriteKeepsOthers(files, plan, k, Effect.Works);
      CountSame(next, files, plan, k + 1, writes);
      if k < i {
        WritesAt(next, plan, k + 1, writes, i);
      } else {
        WritesTouch(next, plan, k + 1, writes);
        assert forall j :: k + 1 <= j < |plan| ==> Dests(plan)[j] == plan[j].dest;
        assert Dests(plan)[k] == plan[k].dest;
      }
    }
  }

  /** Restoring the last path leaves the ones before it alone. */
  lemma RestoreKeepsOthers(files: Files, snapshots: Files, paths: seq<Path>, n: nat, effect: Effect)
    requires 0 < n <= |paths| && Distinct(paths)
    requires forall k :: 0 <= k < |paths| ==> paths[k] in files && paths[k] in snapshots
    ensures var after := AfterRestore(files, paths[n - 1], snapshots[paths[n - 1]], effect);
            forall k :: 0 <= k < n - 1 ==> after[paths[k]] == files[paths[k]]
  {
  }

  /** Every restore below `n` finds something it can replace, and knows how. */
  predicate CanRestore(files: Files, snapshots: Files, paths: seq<Path>, n: nat)
    requires n <= |paths| && forall k :: 0 <= k < |paths| ==> paths[k] in files && paths[k] in snapshots
  {
    forall k :: 0 <= k < n ==> Snapshotable(files[paths[k]]) && Restorable(snapshots[paths[k]])
  }

  /** What an undo that stops at the j-th path leaves at the i-th. */
  lemma {:induction false} StoppedAt(files: Files, snapshots: Files, paths: seq<Path>, n: nat, effects: Script,
                                     j: nat, i: nat)
    requires n <= |paths| && Distinct(paths) && StopsAt(effects, j, n) && i < n
    requires forall k :: 0 <= k < |paths| ==> paths[k] in files && paths[k] in snapshots
    requires CanRestore(files, snapshots, paths, n)
    ensures RestoreDown(files, snapshots, paths, n, effects).files[paths[i]] ==
            if i < j then files[paths[i]] else RestoreValue(files[paths[i]], snapshots[paths[i]], effects(i))
  {
    var last := paths[n - 1];
    var after := AfterRestore(files, last, snapshots[last], effects(n - 1));
    if j < n - 1 {
      RestoreKeepsOthers(files, snapshots, paths, n, effects(n - 1));
      if i < n - 1 {
        StoppedAt(after, snapshots, paths, n - 1, effects, j, i);
      } else {
        assert last !in paths[..n - 1];
        RestoreAt(after, snapshots, paths, n - 1, effects, last);
      }
    }
  }

  /** An undo that stops somewhere does not get through. */
  lemma {:induction false} StopIsFailure(files: Files, snapshots: Files, paths: seq<Path>, n: nat, effects: Script, j: nat)
    requires n <= |paths| && StopsAt(effects, j, n)
    requires forall k :: 0 <= k < |paths| ==> paths[k] in files && paths[k] in snapshots
    ensures !RestoreDown(files, snapshots, paths, n, effects).ok
  {
    if j < n - 1 {
      var after := AfterRestore(files, paths[n - 1], snapshots[paths[n - 1]], effects(n - 1));
      StopIsFailure(after, snapshots, paths, n - 1, effects, j);
    }
  }

  /** An undo whose restores all work gets through. */
  lemma {:induction false} NeverStops(files: Files, snapshots: Files, paths: seq<Path>, n: nat, effects: Script)
    requires n <= |paths| && Distinct(paths) && forall i: nat :: i < n ==> effects(i).Works?
    requires forall k :: 0 <= k < |paths| ==> paths[k] in files && paths[k] in snapshots
    requires CanRestore(files, snapshots, paths, n)
    ensures RestoreDown(files, snapshots, paths, n, effects).ok
  {
    if n > 0 {
      var last := paths[n - 1];
      RestoreKeepsOthers(files, snapshots, paths, n, effects(n - 1));
      NeverStops(AfterRestore(files, last, snapshots[last], effects(n - 1)), snapshots, paths, n - 1, effects);
    }
  }

  /** Either every restore below `n` works, or the undo stops somewhere. */
  lemma {:induction false} WhereItStops(restores: Script, n: nat) returns (j: nat)
    ensures StopsAt(restores, j, n) || forall i: nat :: i < n ==> restores(i).Works?
  {
    if n == 0 {
      j := 0;
    } else if !restores(n - 1).Works? {
      j := n - 1;
    } else {
      j := WhereItStops(restores, n - 1);
    }
  }

  /** One path, written and restored. */
  lemma RestoredOrNot(before: FileSnapshot, e: Entry, write: Effect, restore: Effect)
    requires Snapshotable(before) && Taken(before)
    ensures RestoreValue(WriteValue(before, e, write), before, restore) == before <==>
            BackAgain(before, e, write, restore)
  {
    TakenIsExact(before);
  }

  /** Every snapshotted path can be restored. */
  lemma UndoIsPossible(files: Files, plan: seq<Entry>, writes: Script)
    requires Distinct(Dests(plan)) && AllTaken(files) && forall k :: 0 <= k < |plan| ==> plan[k].dest in files
    ensures CanRestore(WritesFrom(files, plan, 0, writes).files, files, Dests(plan), SnapshotCount(files, plan, 0, writes))
  {
    forall k | 0 <= k < SnapshotCount(files, plan, 0, writes)
      ensures Snapshotable(WritesFrom(files, plan, 0, writes).files[Dests(plan)[k]]) && Restorable(files[Dests(plan)[k]])
    {
      WritesAt(files, plan, 0, writes, k);
    }
  }

  /** What a staging that stops its undo at the j-th path leaves at the i-th one. */
  lemma TornAt(files: Files, plan: seq<Entry>, writes: Script, restores: Script, j: nat, i: nat)
    requires Distinct(Dests(plan)) && AllTaken(files) && forall k :: 0 <= k < |plan| ==> plan[k].dest in files
    requires !StagingSucceeds(files, plan, writes) && i < SnapshotCount(files, plan, 0, writes)
    requires StopsAt(restores, j, SnapshotCount(files, plan, 0, writes))
    ensures Stage(files, plan, writes, restores).Torn?
    ensures Stage(files, plan, writes, restores).files[plan[i].dest] == files[plan[i].dest] <==>
            (if i < j then files[plan[i].dest] == Desired(plan[i])
             else i == j ==> BackAgain(files[plan[i].dest], plan[i], writes(i), restores(i)))
  {
    var n := SnapshotCount(files, plan, 0, writes);
    var p := WritesFrom(files, plan, 0, writes);
    WritesCount(files, plan, 0, writes);
    UndoIsPossible(files, plan, writes);
    WritesAt(files, plan, 0, writes, i);
    StoppedAt(p.files, files, Dests(plan), n, restores, j, i);
    StopIsFailure(p.files, files, Dests(plan), n, restores, j);
    TakenIsExact(files[plan[i].dest]);
    RestoredOrNot(files[plan[i].dest], plan[i], writes(i), restores(i));
  }

  /** Staging gets through exactly when every destination can be snapshotted and every write works. */
  lemma StagingSucceedsExactly(files: Files, plan: seq<Entry>, writes: Script, restores: Script)
    requires Distinct(Dests(plan)) && forall i :: 0 <= i < |plan| ==> plan[i].dest in files
    ensures Stage(files, plan, writes, restores).Staged? <==> StagingSucceeds(files, plan, writes)
  {
    WritesCount(files, plan, 0, writes);
  }

  /** What staging did not snapshot it did not touch. */
  lemma StagingOutside(files: Files, plan: seq<Entry>, writes: Script, restores: Script, path: Path)
    requires forall i :: 0 <= i < |plan| ==> plan[i].dest in files
    requires path in files && forall i :: 0 <= i < WritesFrom(files, plan, 0, writes).taken ==> plan[i].dest != path
    ensures Stage(files, plan, writes, restores).files[path] == files[path]
  {
    var p := WritesFrom(files, plan, 0, writes);
    WritesTouch(files, plan, 0, writes);
    if !p.ok {
      var _ := DestAt(plan, p.taken, path);
      RestoreAt(p.files, files, Dests(plan), p.taken, restores, path);
    }
  }

  /** Files that are unchanged at every snapshotted path are unchanged. */
  lemma UnchangedEverywhere(files: Files, plan: seq<Entry>, writes: Script, restores: Script)
    requires Distinct(Dests(plan)) && forall i :: 0 <= i < |plan| ==> plan[i].dest in files
    requires var after := Stage(files, plan, writes, restores).files;
             forall i: nat :: i < SnapshotCount(files, plan, 0, writes) ==> after[plan[i].dest] == files[plan[i].dest]
    ensures Stage(files, plan, writes, restores).files == files
  {
    WritesCount(files, plan, 0, writes);
    var after := Stage(files, plan, writes, restores).files;
    forall path | path in files
      ensures after[path] == files[path]
    {
      if forall i :: 0 <= i < WritesFrom(files, plan, 0, writes).taken ==> plan[i].dest != path {
        StagingOutside(files, plan, writes, restores, path);
      }
    }
  }

  lemma StoppedExact(files: Files, plan: seq<Entry>, writes: Script, restores: Script, j: nat)
    requires Distinct(Dests(plan)) && AllTaken(files) && forall i :: 0 <= i < |plan| ==> plan[i].dest in files
    requires !StagingSucceeds(files, plan, writes) && StopsAt(restores, j, SnapshotCount(files, plan, 0, writes))
    ensures Stage(files, plan, writes, restores).files == files <==> StagingHarmless(files, plan, writes, restores)
  {
    var n := SnapshotCount(files, plan, 0, writes);
    var after := Stage(files, plan, writes, restores).files;
    var back := BackAgain(files[plan[j].dest], plan[j], writes(j), restores(j)) && AlreadyDeployed(files, plan, j);
    assert StagingHarmless(files, plan, writes, restores) <==> back by {
      assert forall k: nat :: StopsAt(restores, k, n) ==> k == j;
    }
    forall i: nat | i < n
      ensures after[plan[i].dest] == files[plan[i].dest] <==>
              (if i < j then files[plan[i].dest] == Desired(plan[i])
               else i == j ==> BackAgain(files[plan[i].dest], plan[i], writes(i), restores(i)))
    {
      TornAt(files, plan, writes, restores, j, i);
    }
    if back {
      UnchangedEverywhere(files, plan, writes, restores);
    }
  }

  /**
    A failed staging leaves every file as it was if and only if its undo either gets through, or stops at a path
    that is back as it was while every path before it already held what the plan wanted.
   */
  lemma StagingFailureExact(files: Files, plan: seq<Entry>, writes: Script, restores: Script)
    requires Distinct(Dests(plan)) && AllTaken(files) && forall i :: 0 <= i < |plan| ==> plan[i].dest in files
    requires !StagingSucceeds(files, plan, writes)
    ensures Stage(files, plan, writes, restores).files == files <==> StagingHarmless(files, plan, writes, restores)
  {
    var n := SnapshotCount(files, plan, 0, writes);
    WritesCount(files, plan, 0, writes);
    UndoIsPossible(files, plan, writes);
    var j := WhereItStops(restores, n);
    if StopsAt(restores, j, n) {
      StoppedExact(files, plan, writes, restores, j);
    } else {
      NeverStops(WritesFrom(files, plan, 0, writes).files, files, Dests(plan), n, restores);
      StagingUndone(files, plan, writes, restores);
    }
  }

  function Managed(plan: seq<Entry>): set<Path> {
    set k | 0 <= k < |plan| :: plan[k].dest
  }

  /** The snapshots of the managed files. */
  function Snapshots(files: Files, plan: seq<Entry>): Files {
    map path | path in files && path in Managed(plan) :: files[path]
  }

  /** Restoring reads the snapshots of the managed files only. */
  lemma {:induction false} SnapshotsSuffice(files: Files, before: Files, plan: seq<Entry>, n: nat, effects: Script)
    requires n <= |plan| && files.Keys == before.Keys && forall i :: 0 <= i < |plan| ==> plan[i].dest in files
    ensures forall i :: 0 <= i < |plan| ==> Dests(plan)[i] in files && Dests(plan)[i] in Snapshots(before, plan)
    ensures RestoreDown(files, Snapshots(before, plan), Dests(plan), n, effects) ==
            RestoreDown(files, before, Dests(plan), n, effects)
  {
    forall i | 0 <= i < |plan|
      ensures Dests(plan)[i] in files && Dests(plan)[i] in Snapshots(before, plan)
    {
      assert plan[i].dest in Managed(plan);
    }
    if n > 0 {
      var path := Dests(plan)[n - 1];
      SnapshotsSuffice(AfterRestore(files, path, before[path], effects(n - 1)), before, plan, n - 1, effects);
    }
  }

  // ---- the host -------------------------------------------------------------------------------------------------

  /** The record's place: empty, taken by something that is no readable record, or a record. */
  datatype Record = NoRecord | Unusable | Stored(value: Json)

  datatype Exit = Deployed | Failed | RollbackFailed

  /** What goes wrong in one command besides the file writes of staging and restoring. */
  datatype Faults = Faults(preflight: bool, backup: bool, recordRefused: bool, recordWrite: Effect, activation: bool,
                           undoSteps: bool, clearing: Effect, writes: Script, stagingUndo: Script, undo: Script)

  /** Writing the record works: its place is empty, it is accepted, and the write gets through. */
  predicate RecordGoesThrough(record: Record, t: Transaction, plan: seq<Entry>, refused: bool, effect: Effect) {
    record == NoRecord && !refused && Recordable(t, Managed(plan)) && effect.Works?
  }

  /** The write reports an error after the record is in its place. */
  predicate RecordWrittenLate(record: Record, t: Transaction, plan: seq<Entry>, refused: bool, effect: Effect) {
    record == NoRecord && !refused && Recordable(t, Managed(plan)) && effect.FailsLate?
  }

  /** The files after a complete staging whose record was not vouched for, and the undo that followed. */
  function LeftByUndo(files: Files, plan: seq<Entry>, f: Faults): Files
    requires forall i :: 0 <= i < |plan| ==> plan[i].dest in files
  {
    RestoreDown(Stage(files, plan, f.writes, f.stagingUndo).files, files, Dests(plan), |plan|, f.undo).files
  }

  /** A staging that was reached either gets through or is harmless. */
  ghost predicate StagingLeavesNoTrace(files: Files, plan: seq<Entry>, f: Faults)
    requires forall i :: 0 <= i < |plan| ==> plan[i].dest in files
  {
    !f.preflight && !f.backup && !StagingSucceeds(files, plan, f.writes) ==>
      StagingHarmless(files, plan, f.writes, f.stagingUndo)
  }

  /** A deployment gets as far as a complete staging. */
  predicate GetsStaged(files: Files, plan: seq<Entry>, f: Faults)
    requires forall i :: 0 <= i < |plan| ==> plan[i].dest in files
  {
    !f.preflight && !f.backup && StagingSucceeds(files, plan, f.writes)
  }

  /** The failed deployment is left in place, for a later abort or commit. */
  predicate LeftInPlace(files: Files, record: Record, t: Transaction, plan: seq<Entry>, defer: bool, f: Faults)
    requires forall i :: 0 <= i < |plan| ==> plan[i].dest in files
  {
    GetsStaged(files, plan, f) && RecordGoesThrough(record, t, plan, f.recordRefused, f.recordWrite) && defer
  }

  /** The undo of `n` paths and the steps around it get through. */
  predicate UndoWorks(n: nat, f: Faults) {
    (forall i: nat :: i < n ==> f.undo(i).Works?) && !f.undoSteps
  }

  /**
    Rolling back gets as far as clearing the record: it is readable, every path holds something that can be
    replaced by what is recorded, and every restore and every other step works.
   */
  predicate RollsBack(files: Files, pending: Option<Transaction>, order: seq<Path>, f: Faults) {
    && pending.Some? && !f.undoSteps
    && forall i: nat :: i < |order| ==>
         && order[i] in files && order[i] in pending.value.files
         && Snapshotable(files[order[i]]) && Restorable(pending.value.files[order[i]]) && f.undo(i).Works?
  }

  predicate Vanishes(clearing: Effect) {
    clearing.Works? || clearing.FailsLate?
  }

  /** A deferred deployment leaves its record behind. */
  predicate LeavesRecord(files: Files, t: Transaction, plan: seq<Entry>, f: Faults)
    requires forall i :: 0 <= i < |plan| ==> plan[i].dest in files
  {
    && GetsStaged(files, plan, f)
    && (RecordGoesThrough(NoRecord, t, plan, f.recordRefused, f.recordWrite) ||
        RecordWrittenLate(NoRecord, t, plan, f.recordRefused, f.recordWrite))
  }

  lemma StagedEverywhere(files: Files, plan: seq<Entry>, writes: Script, restores: Script)
    requires AllTaken(files) && Distinct(Dests(plan)) && forall i :: 0 <= i < |plan| ==> plan[i].dest in files
    requires StagingSucceeds(files, plan, writes)
    ensures forall path :: path in Snapshots(files, plan) ==> Taken(files[path])
    ensures AlreadyDeployed(Stage(files, plan, writes, restores).files, plan, |plan|)
  {
    WritesCount(files, plan, 0, writes);
    forall i: nat | i < |plan|
      ensures Stage(files, plan, writes, restores).files[plan[i].dest] == Desired(plan[i])
    {
      WritesAt(files, plan, 0, writes, i);
    }
  }

  lemma {:induction false} WritesValues(files: Files, plan: seq<Entry>, k: nat, effects: Script, path: Path)
    requires k <= |plan| && (forall i :: 0 <= i < |plan| ==> plan[i].dest in files && plan[i].mode >= 0) && path in files
    ensures var after := WritesFrom(files, plan, k, effects).files[path];
            after == files[path] || Taken(after)
    decreases |plan| - k
  {
    if k < |plan| && Snapshotable(files[plan[k].dest]) && effects(k).Works? {
      WritesValues(AfterWrite(files, plan[k], Effect.Works), plan, k + 1, effects, path);
    }
  }

  predicate MayBecome(s: FileSnapshot, after: FileSnapshot) {
    after == Materialized(s) || after == AlmostMaterialized(s)
  }

  /** A value that was written, removed or restored can be snapshotted again. */
  lemma TakenAgain(before: FileSnapshot, written: FileSnapshot, after: FileSnapshot)
    requires (Snapshotable(before) ==> Taken(before)) && (written == before || Taken(written))
    requires after == written || after == MISSING || (Restorable(before) && MayBecome(before, after))
    ensures Snapshotable(after) ==> Taken(after)
  {
  }

  /** A path ends as it was, missing, or as its snapshot says up to the owner, even if the restore stops. */
  lemma {:induction false} RestoreValues(files: Files, snapshots: Files, paths: seq<Path>, n: nat, effects: Script,
                                         path: Path)
    requires n <= |paths| && path in files
    requires forall i :: 0 <= i < |paths| ==> paths[i] in files && paths[i] in snapshots
    ensures var after := RestoreDown(files, snapshots, paths, n, effects).files[path];
            || after == files[path] || after == MISSING
            || (path in snapshots && Restorable(snapshots[path]) && MayBecome(snapshots[path], after))
  {
    if n > 0 {
      var last := paths[n - 1];
      RestoreValues(AfterRestore(files, last, snapshots[last], effects(n - 1)), snapshots, paths, n - 1, effects, path);
    }
  }

  /** A value a file holds after staging: what it held, what was wanted, or what a restore leaves of a snapshot. */
  lemma StagingTaken(files: Files, plan: seq<Entry>, writes: Script, restores: Script, path: Path)
    requires AllTaken(files) && path in files
    requires forall i :: 0 <= i < |plan| ==> plan[i].dest in files && plan[i].mode >= 0
    ensures var after := Stage(files, plan, writes, restores).files[path];
            Snapshotable(after) ==> Taken(after)
  {
    var p := WritesFrom(files, plan, 0, writes);
    WritesValues(files, plan, 0, writes, path);
    if !p.ok {
      RestoreValues(p.files, files, Dests(plan), p.taken, restores, path);
      var after := RestoreDown(p.files, files, Dests(plan), p.taken, restores).files[path];
      TakenAgain(files[path], p.files[path], after);
    }
  }

  /** Staging touches managed files only, and what it got through was all snapshotted. */
  lemma StagingKeeps(files: Files, plan: seq<Entry>, writes: Script, restores: Script)
    requires AllTaken(files) && Distinct(Dests(plan))
    requires forall i :: 0 <= i < |plan| ==> plan[i].dest in files && plan[i].mode >= 0
    ensures var after := Stage(files, plan, writes, restores).files;
            && SameOutside(files, after, Managed(plan)) && AllTaken(after)
            && (StagingSucceeds(files, plan, writes) ==>
                  && (forall path :: path in Snapshots(files, plan) ==> Taken(files[path]))
                  && AlreadyDeployed(after, plan, |plan|))
  {
    forall path | path in files
      ensures var after := Stage(files, plan, writes, restores).files[path];
              (Snapshotable(after) ==> Taken(after)) && (path !in Managed(plan) ==> after == files[path])
    {
      StagingTaken(files, plan, writes, restores, path);
      if path !in Managed(plan) {
        StagingOutside(files, plan, writes, restores, path);
      }
    }
    if StagingSucceeds(files, plan, writes) {
      StagedEverywhere(files, plan, writes, restores);
    }
  }

  lemma SnapshotsRecordable(files: Files, plan: seq<Entry>, t: Transaction)
    requires t.files == Snapshots(files, plan) && forall path :: path in t.files ==> Taken(files[path])
    ensures Recordable(t, Managed(plan)) ==> FromJson(ToJson(t), Managed(plan)) == Some(t)
  {
    if Recordable(t, Managed(plan)) {
      RecordRoundTrip(t, Managed(plan));
    }
  }

  lemma SameOutsideChains(first: Files, second: Files, third: Files, plan: seq<Entry>)
    requires SameOutside(first, second, Managed(plan)) && SameOutside(second, third, Managed(plan))
    ensures SameOutside(first, third, Managed(plan))
  {
  }

  /** A deployment that got through changed nothing exactly when all was deployed before. */
  lemma DeployedIsSame(before: Files, after: Files, plan: seq<Entry>)
    requires SameOutside(before, after, Managed(plan)) && forall i :: 0 <= i < |plan| ==> plan[i].dest in before
    requires AlreadyDeployed(after, plan, |plan|)
    ensures after == before <==> AlreadyDeployed(before, plan, |plan|)
  {
    if AlreadyDeployed(before, plan, |plan|) {
      forall path | path in before
        ensures after[path] == before[path]
      {
        if path in Managed(plan) {
          var i: nat :| i < |plan| && plan[i].dest == path;
        }
      }
    }
  }

  lemma RestoredIsBefore(before: Files, after: Files, plan: seq<Entry>)
    requires SameOutside(before, after, Managed(plan))
    requires forall path :: path in Snapshots(before, plan) ==> Taken(before[path])
    ensures Restored(after, Snapshots(before, plan)) == before
  {
    forall path | path in before
      ensures Restored(after, Snapshots(before, plan))[path] == before[path]
    {
      if path in Snapshots(before, plan) {
        TakenIsExact(before[path]);
      }
    }
  }

  lemma DestsAreManaged(plan: seq<Entry>)
    ensures forall path :: path in Dests(plan) <==> path in Managed(plan)
  {
    assert forall k :: 0 <= k < |plan| ==> Dests(plan)[k] == plan[k].dest;
  }

  predicate Sound(snapshots: Files) {
    forall path :: path in snapshots && Restorable(snapshots[path]) ==> Taken(Materialized(snapshots[path]))
  }

  lemma RestoreKeepsTaken(files: Files, snapshots: Files, paths: seq<Path>, n: nat, effects: Script)
    requires n <= |paths| && forall i :: 0 <= i < |paths| ==> paths[i] in files && paths[i] in snapshots
    requires Sound(snapshots) && AllTaken(files)
    ensures AllTaken(RestoreDown(files, snapshots, paths, n, effects).files)
  {
    forall path | path in files
      ensures var after := RestoreDown(files, snapshots, paths, n, effects).files[path];
              Snapshotable(after) ==> Taken(after)
    {
      RestoreValues(files, snapshots, paths, n, effects, path);
    }
  }

  /** Restoring a whole record, whether it gets through or not. */
  lemma RestoreAll(files: Files, snapshots: Files, order: seq<Path>, effects: Script)
    requires forall path :: path in order <==> path in snapshots
    requires forall i :: 0 <= i < |order| ==> order[i] in files && order[i] in snapshots
    ensures var r := RestoreDown(files, snapshots, order, |order|, effects);
            SameOutside(files, r.files, snapshots.Keys) && (r.ok ==> r.files == Restored(files, snapshots))
  {
    assert order[..|order|] == order;
    forall path | path in files
      ensures var r := RestoreDown(files, snapshots, order, |order|, effects);
              && (path !in snapshots ==> r.files[path] == files[path])
              && (r.ok && path in snapshots ==> r.files[path] == Materialized(snapshots[path]))
    {
      RestoreAt(files, snapshots, order, |order|, effects, path);
    }
  }

  lemma UndoReaches(before: Files, after: Files, plan: seq<Entry>, effects: Script)
    requires SameOutside(before, after, Managed(plan)) && AllTaken(after)
    requires forall i :: 0 <= i < |plan| ==> plan[i].dest in before
    requires forall path :: path in Snapshots(before, plan) ==> Taken(before[path])
    ensures var snapshots := Snapshots(before, plan);
            && (forall i :: 0 <= i < |plan| ==> Dests(plan)[i] in after && Dests(plan)[i] in snapshots)
            && var r := RestoreDown(after, snapshots, Dests(plan), |plan|, effects);
            SameOutside(before, r.files, Managed(plan)) && AllTaken(r.files) && (r.ok ==> r.files == before)
  {
    var snapshots := Snapshots(before, plan);
    SnapshotsSuffice(after, before, plan, 0, effects);
    forall path | path in snapshots
      ensures Taken(Materialized(snapshots[path]))
    {
      TakenIsExact(snapshots[path]);
    }
    DestsAreManaged(plan);
    RestoreAll(after, snapshots, Dests(plan), effects);
    RestoreKeepsTaken(after, snapshots, Dests(plan), |plan|, effects);
    RestoredIsBefore(before, after, plan);
  }

  /** However far an earlier rollback came, running it again ends in the same files. */
  lemma RerunReaches(first: Files, between: Files, snapshots: Files, plan: seq<Entry>)
    requires SameOutside(first, between, Managed(plan)) && Managed(plan) <= snapshots.Keys
    ensures Restored(between, snapshots) == Restored(first, snapshots)
  {
  }

  lemma DecodedIsSound(value: Json, managed: set<Path>)
    requires FromJson(value, managed).Some?
    ensures Sound(FromJson(value, managed).value.files) && FromJson(value, managed).value.files.Keys == managed
  {
    var encoded := Field(value.fields, "files").fields;
    var files := FromJson(value, managed).value.files;
    forall path | path in files && Restorable(files[path])
      ensures Taken(Materialized(files[path]))
    {
      DecodedIsTaken(encoded[path]);
    }
  }

  /** Restoring a decoded record. */
  lemma RestoredByRecord(files: Files, value: Json, managed: set<Path>, order: seq<Path>, effects: Script)
    requires FromJson(value, managed).Some? && AllTaken(files) && forall path :: path in order <==> path in managed
    requires forall i :: 0 <= i < |order| ==> order[i] in files
    ensures var snapshots := FromJson(value, managed).value.files;
            && snapshots.Keys == managed && (forall i :: 0 <= i < |order| ==> order[i] in snapshots)
            && var r := RestoreDown(files, snapshots, order, |order|, effects);
            SameOutside(files, r.files, managed) && (r.ok ==> r.files == Restored(files, snapshots)) && AllTaken(r.files)
  {
    var snapshots := FromJson(value, managed).value.files;
    DecodedIsSound(value, managed);
    forall i | 0 <= i < |order|
      ensures order[i] in snapshots
    {
      assert order[i] in order;
    }
    RestoreAll(files, snapshots, order, effects);
    RestoreKeepsTaken(files, snapshots, order, |order|, effects);
  }

  /** No directory stands where a managed file goes. */
  predicate Replaceable(files: Files, plan: seq<Entry>) {
    forall path :: path in files && path in Managed(plan) ==> Snapshotable(files[path])
  }

  lemma SameKeys(before: Files, after: Files, paths: set<Path>)
    requires SameOutside(before, after, paths)
    ensures after.Keys == before.Keys
  {
  }

  lemma DeployedReplaceable(files: Files, plan: seq<Entry>)
    requires forall i :: 0 <= i < |plan| ==> plan[i].dest in files
    requires AlreadyDeployed(files, plan, |plan|)
    ensures Replaceable(files, plan)
  {
    forall path | path in files && path in Managed(plan)
      ensures Snapshotable(files[path])
    {
      var i: nat :| i < |plan| && plan[i].dest == path;
    }
  }

  lemma RestoreKeepsReplaceable(files: Files, snapshots: Files, plan: seq<Entry>, paths: seq<Path>, n: nat,
                                effects: Script)
    requires n <= |paths| && forall i :: 0 <= i < |paths| ==> paths[i] in files && paths[i] in snapshots
    requires Replaceable(files, plan)
    ensures Replaceable(RestoreDown(files, snapshots, paths, n, effects).files, plan)
  {
    forall path | path in files && path in Managed(plan)
      ensures Snapshotable(RestoreDown(files, snapshots, paths, n, effects).files[path])
    {
      RestoreValues(files, snapshots, paths, n, effects, path);
    }
  }

  /** Undoing a complete staging depends on nothing but its own steps. */
  lemma StagedCanBeUndone(before: Files, files: Files, plan: seq<Entry>, paths: seq<Path>, f: Faults)
    requires Replaceable(files, plan) && files.Keys == before.Keys
    requires forall path :: path in Snapshots(before, plan) ==> Taken(before[path])
    requires forall i :: 0 <= i < |paths| ==> paths[i] in files && paths[i] in Snapshots(before, plan)
    ensures AllRestorable(files, Snapshots(before, plan), paths, |paths|, f.undo) && !f.undoSteps <==>
            UndoWorks(|paths|, f)
  {
    forall i: nat | i < |paths|
      ensures Snapshotable(files[paths[i]]) && Restorable(Snapshots(before, plan)[paths[i]])
    {
      assert paths[i] in Managed(plan);
      TakenIsExact(before[paths[i]]);
    }
  }

  lemma RollsBackByUndo(before: Files, files: Files, plan: seq<Entry>, t: Transaction, order: seq<Path>, f: Faults)
    requires Replaceable(files, plan) && files.Keys == before.Keys && t.files == Snapshots(before, plan)
    requires forall path :: path in Snapshots(before, plan) ==> Taken(before[path])
    requires Managed(plan) <= files.Keys && forall path :: path in order <==> path in Managed(plan)
    ensures RollsBack(files, Some(t), order, f) <==> UndoWorks(|order|, f)
  {
    forall i: nat | i < |order|
      ensures order[i] in files && order[i] in t.files
    {
      assert order[i] in order;
    }
    StagedCanBeUndone(before, files, plan, order, f);
  }

  /** Some rollback got through, or stopped only after the record was gone. */
  ghost predicate ClearedBy(rollbacks: seq<Faults>, n: nat) {
    exists k :: 0 <= k < |rollbacks| && UndoWorks(n, rollbacks[k]) && Vanishes(rollbacks[k].clearing)
  }

  lemma ClearedByNext(rollbacks: seq<Faults>, k: nat, n: nat)
    requires k < |rollbacks|
    ensures ClearedBy(rollbacks[..k + 1], n) <==>
            ClearedBy(rollbacks[..k], n) || (UndoWorks(n, rollbacks[k]) && Vanishes(rollbacks[k].clearing))
  {
    var more := rollbacks[..k + 1];
    assert more[k] == rollbacks[k];
    assert forall j :: 0 <= j < k ==> more[j] == rollbacks[..k][j];
  }

  lemma RollsBackExactly(files: Files, t: Transaction, order: seq<Path>, f: Faults)
    requires forall i :: 0 <= i < |order| ==> order[i] in files && order[i] in t.files
    ensures RollsBack(files, Some(t), order, f) <==>
            RestoreDown(files, t.files, order, |order|, f.undo).ok && !f.undoSteps
  {
    RestoresExactly(files, t.files, order, |order|, f.undo);
  }

  lemma NothingDone(files: Files, paths: set<Path>, order: seq<Path>, f: Faults)
    ensures SameOutside(files, files, paths) && !RollsBack(files, None, order, f)
  {
  }

  class Host {
    const plan: seq<Entry>

    var files: Files
    var record: Record

    ghost predicate Valid()
      reads this
    {
      && Distinct(Dests(plan)) && (forall i :: 0 <= i < |plan| ==> plan[i].dest in files)
      && (forall i :: 0 <= i < |plan| ==> plan[i].mode >= 0)
      && AllTaken(files)
    }

    constructor (plan: seq<Entry>, files: Files, record: Record)
      requires Distinct(Dests(plan)) && (forall i :: 0 <= i < |plan| ==> plan[i].dest in files && plan[i].mode >= 0)
      requires AllTaken(files)
      ensures Valid() && this.plan == plan && this.files == files && this.record == record
    {
      this.plan, this.files, this.record := plan, files, record;
    }

    /** Restores in reverse order and stops at the first failure. */
    method RestoreManagedFiles(snapshots: Files, paths: seq<Path>, n: nat, effects: Script) returns (ok: bool)
      requires n <= |paths| && forall i :: 0 <= i < |paths| ==> paths[i] in files && paths[i] in snapshots
      modifies this`files
      ensures Restoring(files, ok) == RestoreDown(old(files), snapshots, paths, n, effects)
    {
      var k: nat := n;
      while k > 0
        invariant k <= n && files.Keys == old(files).Keys
        invariant RestoreDown(files, snapshots, paths, k, effects) == RestoreDown(old(files), snapshots, paths, n, effects)
      {
        k := k - 1;
        var path := paths[k];
        var works := RestoreWorks(files[path], snapshots[path], effects(k));
        files := AfterRestore(files, path, snapshots[path], effects(k));
        if !works {
          return false;
        }
      }
      ok := true;
    }

    /** Snapshots and replaces file after file; on failure puts back what it snapshotted. */
    method StageManagedFiles(writes: Script, restores: Script) returns (ok: bool, snapshots: Files)
      requires Valid()
      modifies this`files
      ensures files == Stage(old(files), plan, writes, restores).files
      ensures ok <==> StagingSucceeds(old(files), plan, writes)
      ensures snapshots == Snapshots(old(files), plan)
    {
      ghost var before := files;
      snapshots := Snapshots(files, plan);
      var k, failed := 0, false;
      while k < |plan| && !failed
        invariant k <= |plan| && files.Keys == old(files).Keys
        invariant if failed then WritesFrom(old(files), plan, 0, writes) == Progress(files, k, false)
                  else WritesFrom(old(files), plan, 0, writes) == WritesFrom(files, plan, k, writes)
        decreases |plan| - k, !failed
      {
        if !Readable(files[plan[k].dest], writes(k)) {
          failed := true;
        } else {
          files := AfterWrite(files, plan[k], writes(k));
          failed := !writes(k).Works?;
          k := k + 1;
        }
      }
      ok := !failed;
      StagingSucceedsExactly(before, plan, writes, restores);
      if failed {
        SnapshotsSuffice(files, before, plan, k, restores);
        var restored := RestoreManagedFiles(snapshots, Dests(plan), k, restores);
      }
    }

    /** Refuses to replace a record; otherwise the write is atomic. */
    method WritePendingRollback(t: Transaction, refused: bool, effect: Effect) returns (ok: bool)
      modifies this`record
      ensures record != old(record) ==>
        old(record) == NoRecord && Recordable(t, Managed(plan)) && record == Stored(ToJson(t))
      ensures ok <==> RecordGoesThrough(old(record), t, plan, refused, effect)
      ensures record != old(record) <==>
        ok || RecordWrittenLate(old(record), t, plan, refused, effect)
    {
      if record != NoRecord || refused || !Recordable(t, Managed(plan)) {
        return false;
      }
      if effect.Works? || effect.FailsLate? {
        record := Stored(ToJson(t));
      }
      ok := effect.Works?;
    }

    function Pending(): Option<Transaction>
      reads this
    {
      if record.Stored? then FromJson(record.value, Managed(plan)) else None
    }

    lemma OrderIsPlaced(order: seq<Path>)
      requires Valid() && forall path :: path in order <==> path in Managed(plan)
      ensures forall i :: 0 <= i < |order| ==> order[i] in files
      ensures Pending().Some? ==> forall i :: 0 <= i < |order| ==> order[i] in Pending().value.files
    {
      if Pending().Some? {
        DecodedIsSound(record.value, Managed(plan));
      }
      forall i | 0 <= i < |order|
        ensures order[i] in files && (Pending().Some? ==> order[i] in Pending().value.files)
      {
        assert order[i] in order;
      }
    }

    /**
      Puts back everything the record holds, then clears it. It succeeds exactly when the record is readable, every
      recorded path can be restored and every step works; the record is gone exactly when all is back and the
      clearing took effect. A rollback that stopped anywhere can be run again to the same end.
     */
    method RollbackPendingTransaction(f: Faults, order: seq<Path>) returns (ok: bool)
      requires Valid() && forall path :: path in order <==> path in Managed(plan)
      modifies this`files, this`record
      ensures Valid() && SameOutside(old(files), files, Managed(plan))
      ensures ok <==> RollsBack(old(files), old(Pending()), order, f) && f.clearing.Works?
      ensures record == if RollsBack(old(files), old(Pending()), order, f) && Vanishes(f.clearing) then NoRecord
                        else old(record)
      ensures RollsBack(old(files), old(Pending()), order, f) ==>
        files == Restored(old(files), old(Pending()).value.files)
      ensures old(Pending()).None? ==> files == old(files)
      ensures old(Pending()).Some? ==>
        && (forall i :: 0 <= i < |order| ==> order[i] in old(files) && order[i] in old(Pending()).value.files)
        && files == RestoreDown(old(files), old(Pending()).value.files, order, |order|, f.undo).files
      ensures Replaceable(old(files), plan) ==> Replaceable(files, plan)
    {
      hide RollsBack, Replaceable, SameOutside, RestoreDown, Restored;
      NothingDone(files, Managed(plan), order, f);
      OrderIsPlaced(order);
      var pending := Pending();
      if pending.None? {
        return false;
      }
      var t := pending.value;
      if Replaceable(files, plan) {
        RestoreKeepsReplaceable(files, t.files, plan, order, |order|, f.undo);
      }
      RestoredByRecord(files, record.value, Managed(plan), order, f.undo);
      RollsBackExactly(files, t, order, f);
      ok := RestoreManagedFiles(t.files, order, |order|, f.undo);
      if !ok || f.undoSteps {
        return false;
      }
      if Vanishes(f.clearing) {
        record := NoRecord;
      }
      ok := f.clearing.Works?;
    }

    /** No record vouches for the files: the snapshots in memory are put back. */
    method UndoWithoutRecord(ghost before: Files, snapshots: Files, f: Faults) returns (exit: Exit)
      requires Valid() && SameOutside(before, files, Managed(plan)) && snapshots == Snapshots(before, plan)
      requires forall path :: path in snapshots ==> Taken(snapshots[path])
      modifies this`files
      ensures Valid() && SameOutside(before, files, Managed(plan)) && exit != Deployed
      ensures forall i :: 0 <= i < |plan| ==> Dests(plan)[i] in old(files) && Dests(plan)[i] in snapshots
      ensures exit == Failed <==>
        AllRestorable(old(files), snapshots, Dests(plan), |plan|, f.undo) && !f.undoSteps
      ensures exit == Failed ==> files == before
      ensures files == RestoreDown(old(files), snapshots, Dests(plan), |plan|, f.undo).files
      ensures Replaceable(old(files), plan) ==> Replaceable(files, plan)
    {
      UndoReaches(before, files, plan, f.undo);
      RestoresExactly(files, snapshots, Dests(plan), |plan|, f.undo);
      if Replaceable(files, plan) {
        RestoreKeepsReplaceable(files, snapshots, plan, Dests(plan), |plan|, f.undo);
      }
      var ok := RestoreManagedFiles(snapshots, Dests(plan), |plan|, f.undo);
      exit := if !ok || f.undoSteps then RollbackFailed else Failed;
    }

    /** The record is that of the deployment, whose activation failed: it is rolled back at once. */
    method RollbackDeployed(ghost before: Files, ghost t: Transaction, f: Faults, order: seq<Path>) returns (exit: Exit)
      requires Valid() && SameOutside(before, files, Managed(plan)) && Replaceable(files, plan)
      requires Pending() == Some(t) && t.files == Snapshots(before, plan)
      requires forall path :: path in Snapshots(before, plan) ==> Taken(before[path])
      requires forall path :: path in order <==> path in Managed(plan)
      modifies this`files, this`record
      ensures Valid() && SameOutside(before, files, Managed(plan)) && Replaceable(files, plan)
      ensures exit == if UndoWorks(|order|, f) && f.clearing.Works? then Failed else RollbackFailed
      ensures record == if UndoWorks(|order|, f) && Vanishes(f.clearing) then NoRecord else old(record)
      ensures exit == Failed ==> files == before
      ensures Restored(files, t.files) == before
    {
      ghost var staged := files;
      RollsBackByUndo(before, files, plan, t, order, f);
      RestoredIsBefore(before, files, plan);
      var ok := RollbackPendingTransaction(f, order);
      SameOutsideChains(before, staged, files, plan);
      RestoredIsBefore(before, files, plan);
      exit := if ok then Failed else RollbackFailed;
    }

    /** Everything after a complete staging: the record, the activation, and the undo if one is needed. */
    method ConcludeDeployment(ghost before: Files, t: Transaction, defer: bool, f: Faults, order: seq<Path>)
      returns (exit: Exit)
      requires Valid() && SameOutside(before, files, Managed(plan)) && AlreadyDeployed(files, plan, |plan|)
      requires t.files == Snapshots(before, plan) && t.units.Keys == UNITS
      requires forall path :: path in t.files ==> Taken(t.files[path])
      requires forall path :: path in order <==> path in Managed(plan)
      modifies this`files, this`record
      ensures Valid() && SameOutside(before, files, Managed(plan))
      ensures old(record) != NoRecord ==> record == old(record)
      ensures var recorded := RecordGoesThrough(old(record), t, plan, f.recordRefused, f.recordWrite);
              && (exit == Deployed <==> recorded && !f.activation)
              && (exit == RollbackFailed <==>
                    if recorded then f.activation && !defer && !(UndoWorks(|order|, f) && f.clearing.Works?)
                    else !UndoWorks(|plan|, f))
              && (old(record) == NoRecord ==>
                    (record == NoRecord <==>
                       || !(recorded || RecordWrittenLate(NoRecord, t, plan, f.recordRefused, f.recordWrite))
                       || (recorded && f.activation && !defer && UndoWorks(|order|, f) && Vanishes(f.clearing))))
              && (exit == Failed && !(recorded && defer) ==> files == before)
              && (exit == Deployed || (exit == Failed && recorded && defer) ==> Pending() == Some(t) && files == old(files))
      ensures record != old(record) && record != NoRecord ==>
        Pending() == Some(t) && Restored(files, t.files) == before && Replaceable(files, plan)
      ensures forall i :: 0 <= i < |plan| ==> Dests(plan)[i] in old(files) && Dests(plan)[i] in t.files
      ensures exit == RollbackFailed && !RecordGoesThrough(old(record), t, plan, f.recordRefused, f.recordWrite) ==>
        files == RestoreDown(old(files), t.files, Dests(plan), |plan|, f.undo).files
    {
      hide SameOutside, AllRestorable, UndoWorks, Replaceable, Restored, AlreadyDeployed, Recordable, FromJson, ToJson, AllTaken, RestoreDown;
      SameKeys(before, files, Managed(plan));
      DeployedReplaceable(files, plan);
      SnapshotsRecordable(before, plan, t);
      SnapshotsSuffice(files, before, plan, 0, f.undo);
      RestoredIsBefore(before, files, plan);
      var ok := WritePendingRollback(t, f.recordRefused, f.recordWrite);
      if !ok {
        StagedCanBeUndone(before, files, plan, Dests(plan), f);
        exit := UndoWithoutRecord(before, t.files, f);
        RestoredIsBefore(before, files, plan);
        return;
      }
      if !f.activation {
        return Deployed;
      }
      if defer {
        return Failed;
      }
      exit := RollbackDeployed(before, t, f, order);
    }

    /**
      Deploys the managed files, and says exactly when that succeeds, when an undo that was needed fails, and when a
      record is left. After an ordinary failure the files are as before if and only if a staging that failed was
      harmless and a deployment left in place changed nothing; what is left in place is on record. An earlier record
      stops everything and survives.
     */
    method DeployFiles(imageId: string, imageReference: string, units: map<string, UnitState>, defer: bool, f: Faults,
                       order: seq<Path>) returns (exit: Exit)
      requires Valid() && units.Keys == UNITS && forall path :: path in order <==> path in Managed(plan)
      modifies this`files, this`record
      ensures Valid() && SameOutside(old(files), files, Managed(plan))
      ensures old(record) != NoRecord ==> record == old(record) && exit != Deployed
      ensures var t := Transaction(imageId, imageReference, Snapshots(old(files), plan), units);
              var staged := GetsStaged(old(files), plan, f);
              var recorded := RecordGoesThrough(old(record), t, plan, f.recordRefused, f.recordWrite);
              && (exit == Deployed <==> staged && recorded && !f.activation)
              && (exit == RollbackFailed <==>
                    && staged
                    && if recorded then f.activation && !defer && !(UndoWorks(|order|, f) && f.clearing.Works?)
                       else !UndoWorks(|plan|, f))
              && (old(record) == NoRecord ==>
                    (record == NoRecord <==>
                       || !LeavesRecord(old(files), t, plan, f)
                       || (recorded && f.activation && !defer && UndoWorks(|order|, f) && Vanishes(f.clearing))))
              && (record != old(record) && record != NoRecord ==>
                    Pending() == Some(t) && Restored(files, t.files) == old(files) && Replaceable(files, plan))
              && (exit == Deployed ==> Pending() == Some(t) && AlreadyDeployed(files, plan, |plan|))
              && (exit == Failed ==>
                    (files == old(files) <==>
                       && StagingLeavesNoTrace(old(files), plan, f)
                       && (LeftInPlace(old(files), old(record), t, plan, defer, f) ==>
                             AlreadyDeployed(old(files), plan, |plan|))))
              && (exit == Failed && LeftInPlace(old(files), old(record), t, plan, defer, f) ==> Pending() == Some(t))
              && (exit == RollbackFailed && !recorded ==> files == LeftByUndo(old(files), plan, f))
    {
      hide StagingHarmless, SameOutside, Replaceable, UndoWorks, Restored;
      NothingDone(files, Managed(plan), order, f);
      if f.preflight || f.backup {
        return Failed;
      }
      var ok, snapshots := StageManagedFiles(f.writes, f.stagingUndo);
      StagingKeeps(old(files), plan, f.writes, f.stagingUndo);
      if !ok {
        StagingFailureExact(old(files), plan, f.writes, f.stagingUndo);
        return Failed;
      }
      DeployedIsSame(old(files), files, plan);
      SnapshotsSuffice(files, old(files), plan, |plan|, f.undo);
      exit := ConcludeDeployment(old(files), Transaction(imageId, imageReference, snapshots, units), defer, f, order);
    }

    /**
      Rolls back if there is a record, and refuses if something unreadable is in its place. It succeeds exactly
      when there is none or the rollback gets through.
     */
    method AbortAction(f: Faults, order: seq<Path>) returns (ok: bool)
      requires Valid() && forall path :: path in order <==> path in Managed(plan)
      modifies this`files, this`record
      ensures Valid() && SameOutside(old(files), files, Managed(plan))
      ensures ok <==> old(record).NoRecord? || (RollsBack(old(files), old(Pending()), order, f) && f.clearing.Works?)
      ensures record == if RollsBack(old(files), old(Pending()), order, f) && Vanishes(f.clearing) then NoRecord
                        else old(record)
      ensures RollsBack(old(files), old(Pending()), order, f) ==>
        files == Restored(old(files), old(Pending()).value.files)
      ensures old(Pending()).None? ==> files == old(files)
      ensures Replaceable(old(files), plan) ==> Replaceable(files, plan)
    {
      if record.Stored? {
        ok := RollbackPendingTransaction(f, order);
      } else {
        ok := record.NoRecord?;
      }
    }

    /** Keeps the deployed files: only a readable record is dropped, and it is unless that fails. */
    method CommitPendingTransaction(clearing: Effect) returns (ok: bool)
      modifies this`record
      ensures ok <==> old(Pending()).Some? && clearing.Works?
      ensures record == if old(Pending()).Some? && Vanishes(clearing) then NoRecord else old(record)
    {
      if Pending().None? {
        return false;
      }
      if Vanishes(clearing) {
        record := NoRecord;
      }
      ok := clearing.Works?;
    }

    /**
      A deferred deployment, successful or not, followed by an abort. It gets through exactly when no record was
      left, an interrupted abort had cleared it, or its own steps work. Then it is as if nothing had
      happened if and only if a staging that failed was harmless. The abort may have been tried and interrupted
      any number of times before. After a deployment whose own undo failed it puts everything back if the record was
      written all the same, and otherwise leaves the files as the undo left them.
     */
    method DeployThenAbort(imageId: string, imageReference: string, units: map<string, UnitState>, f: Faults,
                           interrupted: seq<Faults>, last: Faults, order: seq<Path>) returns (exit: Exit, aborted: bool)
      requires Valid() && units.Keys == UNITS && record == NoRecord
      requires forall path :: path in order <==> path in Managed(plan)
      modifies this`files, this`record
      ensures var t := Transaction(imageId, imageReference, Snapshots(old(files), plan), units);
              && (aborted <==>
                    || !LeavesRecord(old(files), t, plan, f)
                    || ClearedBy(interrupted, |order|)
                    || (UndoWorks(|order|, last) && last.clearing.Works?))
              && (aborted && exit == RollbackFailed ==>
                    files == if RecordWrittenLate(NoRecord, t, plan, f.recordRefused, f.recordWrite) then old(files)
                             else LeftByUndo(old(files), plan, f))
      ensures aborted ==> record == NoRecord
      ensures aborted && exit != RollbackFailed ==>
        (files == old(files) <==> StagingLeavesNoTrace(old(files), plan, f))
    {
      exit := DeployFiles(imageId, imageReference, units, true, f, order);
      ghost var deployed, left, snapshots := files, record, Snapshots(old(files), plan);
      ghost var t := Transaction(imageId, imageReference, snapshots, units);
      assert Managed(plan) <= snapshots.Keys;
      if left != NoRecord {
        StagingKeeps(old(files), plan, f.writes, f.stagingUndo);
      }
      for k := 0 to |interrupted|
        invariant Valid() && SameOutside(deployed, files, Managed(plan)) && (record == left || record == NoRecord)
        invariant left != NoRecord ==> Replaceable(files, plan)
        invariant record == NoRecord <==> left == NoRecord || ClearedBy(interrupted[..k], |order|)
        invariant record == NoRecord ==> files == if left == NoRecord then deployed else old(files)
      {
        RerunReaches(deployed, files, snapshots, plan);
        if record != NoRecord {
          RollsBackByUndo(old(files), files, plan, t, order, interrupted[k]);
        }
        ClearedByNext(interrupted, k, |order|);
        var _ := AbortAction(interrupted[k], order);
      }
      assert interrupted[..|interrupted|] == interrupted;
      RerunReaches(deployed, files, snapshots, plan);
      if record != NoRecord {
        RollsBackByUndo(old(files), files, plan, t, order, last);
      }
      aborted := AbortAction(last, order);
    }
  }
}
