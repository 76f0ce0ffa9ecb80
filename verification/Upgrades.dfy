/** Replacing several binaries, all or none (agent/cmd/vps-agent-helper/upgrade.go). */
module Upgrades {
  import opened Basics
  import opened Disks

  datatype Update = Update(target: string, temp: string, backup: string, changed: bool)

  predicate Changed(updates: seq<Update>, i: int) {
    0 <= i < |updates| && updates[i].changed
  }

  /** The three names of an update differ from each other. */
  predicate Distinct(u: Update) {
    u.target != u.temp && u.target != u.backup && u.temp != u.backup
  }

  /** Two updates have no name in common. */
  predicate Clear(u: Update, v: Update) {
    && u.target != v.target && u.target != v.temp && u.target != v.backup
    && u.temp != v.target && u.temp != v.temp && u.temp != v.backup
    && u.backup != v.target && u.backup != v.temp && u.backup != v.backup
  }

  ghost predicate Apart(updates: seq<Update>) {
    && (forall i :: Changed(updates, i) ==> Distinct(updates[i]))
    && forall i, j :: Changed(updates, i) && Changed(updates, j) && i != j ==> Clear(updates[i], updates[j])
  }

  /** What prepareBinaryUpdate leaves behind: every changed target has its new binary staged in a file of its own. */
  predicate Ready(files: Files, u: Update) {
    u.target in files && u.temp in files && files[u.temp].inode != files[u.target].inode
  }

  ghost predicate Staged(files: Files, updates: seq<Update>) {
    Apart(updates) && forall i :: Changed(updates, i) ==> Ready(files, updates[i])
  }

  /** Path `p` holds in `now` what path `q` held in `start`. */
  predicate Holds(now: Files, p: string, start: Files, q: string) {
    p in now && q in start && now[p] == start[q]
  }

  predicate TargetOld(now: Files, start: Files, u: Update) {
    Holds(now, u.target, start, u.target)
  }

  predicate TargetNew(now: Files, start: Files, u: Update) {
    Holds(now, u.target, start, u.temp)
  }

  /** Every changed target exists and is exactly its old or its new file. */
  ghost predicate Safe(now: Files, start: Files, updates: seq<Update>) {
    forall i :: Changed(updates, i) ==> TargetOld(now, start, updates[i]) || TargetNew(now, start, updates[i])
  }

  ghost predicate AllOld(now: Files, start: Files, updates: seq<Update>) {
    forall i :: Changed(updates, i) ==> TargetOld(now, start, updates[i])
  }

  ghost predicate AllNew(now: Files, start: Files, updates: seq<Update>) {
    forall i :: Changed(updates, i) ==> TargetNew(now, start, updates[i])
  }

  /** A path that belongs to a changed update. */
  ghost predicate Named(updates: seq<Update>, p: string) {
    exists i :: Changed(updates, i) && (p == updates[i].target || p == updates[i].temp || p == updates[i].backup)
  }

  predicate Same(now: Files, start: Files, p: string) {
    (p in now <==> p in start) && (p in now ==> now[p] == start[p])
  }

  /** Nothing but targets, staged files and backups of changed updates is different. */
  ghost predicate Elsewhere(now: Files, start: Files, updates: seq<Update>) {
    forall p :: !Named(updates, p) ==> Same(now, start, p)
  }

  /** One update in the middle of a commit: is its backup made, is its target replaced. */
  predicate Step(now: Files, start: Files, u: Update, kept: bool, active: bool) {
    && (if active then TargetNew(now, start, u) else TargetOld(now, start, u) && Holds(now, u.temp, start, u.temp))
    && (kept ==> Holds(now, u.backup, start, u.target))
  }

  /** The state of the commit: `kept` backups made, `active` targets replaced. */
  ghost predicate Stage(now: Files, start: Files, updates: seq<Update>, kept: int, active: int) {
    && Staged(start, updates) && Elsewhere(now, start, updates)
    && forall i :: Changed(updates, i) ==> Step(now, start, updates[i], i < kept, i < active)
  }

  // Single operations.

  lemma RemoveBackup(now: Files, start: Files, updates: seq<Update>, n: nat)
    requires Stage(now, start, updates, n, 0) && Changed(updates, n)
    ensures Stage(now - {updates[n].backup}, start, updates, n, 0) && updates[n].target in now
  {
    var u, after := updates[n], now - {updates[n].backup};
    assert Step(now, start, u, false, false) && Distinct(u);
    forall i | Changed(updates, i) ensures Step(after, start, updates[i], i < n, false) {
      assert Step(now, start, updates[i], i < n, false);
      if i != n { assert Clear(u, updates[i]); }
    }
  }

  lemma LinkBackup(now: Files, start: Files, updates: seq<Update>, n: nat)
    requires Stage(now, start, updates, n, 0) && Changed(updates, n) && updates[n].target in now
    ensures Stage(now[updates[n].backup := now[updates[n].target]], start, updates, n + 1, 0)
  {
    var u, after := updates[n], now[updates[n].backup := now[updates[n].target]];
    assert Step(now, start, u, false, false) && Distinct(u);
    forall i | Changed(updates, i) ensures Step(after, start, updates[i], i < n + 1, false) {
      assert Step(now, start, updates[i], i < n, false);
      if i != n { assert Clear(u, updates[i]); }
    }
  }

  lemma Activate(now: Files, start: Files, updates: seq<Update>, n: nat)
    requires Stage(now, start, updates, |updates|, n) && Changed(updates, n) && updates[n].temp in now
    ensures Stage(Renamed(now, updates[n].temp, updates[n].target), start, updates, |updates|, n + 1)
  {
    var u, after := updates[n], Renamed(now, updates[n].temp, updates[n].target);
    assert Step(now, start, u, true, false) && Distinct(u) && Ready(start, u);
    assert after == (now - {u.temp})[u.target := now[u.temp]];
    forall i | Changed(updates, i) ensures Step(after, start, updates[i], true, i < n + 1) {
      assert Step(now, start, updates[i], true, i < n);
      if i != n { assert Clear(u, updates[i]); }
    }
  }

  lemma StageIsSafe(now: Files, start: Files, updates: seq<Update>, kept: int, active: int)
    requires Stage(now, start, updates, kept, active)
    ensures Safe(now, start, updates)
  {
  }

  // Rolling back.

  /**
   * One update in the middle of a rollback: either its target is old again, or it and its backup are still
   * untouched.
   */
  predicate Undone(now: Files, before: Files, start: Files, u: Update, done: bool) {
    if done then TargetOld(now, start, u)
    else Holds(now, u.target, before, u.target) && Holds(now, u.backup, start, u.target)
  }

  /** Rolled back up to `n`, except the ones in `stuck`. */
  ghost predicate RolledBack(now: Files, before: Files, start: Files, updates: seq<Update>, n: int, stuck: set<int>) {
    && Elsewhere(now, start, updates)
    && forall i :: Changed(updates, i) ==> Undone(now, before, start, updates[i], i < n && i !in stuck)
  }

  /** Every backup holds the old file, and every target the old or the new one. */
  ghost predicate CanRollBack(before: Files, start: Files, updates: seq<Update>) {
    && Staged(start, updates) && Safe(before, start, updates) && Elsewhere(before, start, updates)
    && forall i :: Changed(updates, i) ==> Holds(before, updates[i].backup, start, updates[i].target)
  }

  lemma RollBackOne(now: Files, before: Files, start: Files, updates: seq<Update>, n: nat, stuck: set<int>)
    requires CanRollBack(before, start, updates) && RolledBack(now, before, start, updates, n, stuck) && n !in stuck
    requires Changed(updates, n) && updates[n].backup in now
    ensures RolledBack(Renamed(now, updates[n].backup, updates[n].target), before, start, updates, n + 1, stuck)
  {
    var u, after := updates[n], Renamed(now, updates[n].backup, updates[n].target);
    assert Undone(now, before, start, u, false) && Distinct(u) && Ready(start, u);
    assert TargetOld(before, start, u) || TargetNew(before, start, u);
    assert TargetOld(after, start, u);
    forall i | Changed(updates, i) ensures Undone(after, before, start, updates[i], i < n + 1 && i !in stuck) {
      if i != n {
        assert Undone(now, before, start, updates[i], i < n && i !in stuck);
        assert Clear(u, updates[i]);
      }
    }
  }

  lemma RolledBackIsSafe(now: Files, before: Files, start: Files, updates: seq<Update>, n: int, stuck: set<int>)
    requires CanRollBack(before, start, updates) && RolledBack(now, before, start, updates, n, stuck)
    ensures Safe(now, start, updates)
  {
    forall i | Changed(updates, i)
      ensures TargetOld(now, start, updates[i]) || TargetNew(now, start, updates[i])
    {
      assert Undone(now, before, start, updates[i], i < n && i !in stuck);
      assert TargetOld(before, start, updates[i]) || TargetNew(before, start, updates[i]);
    }
  }

  lemma StageCanRollBack(now: Files, start: Files, updates: seq<Update>, n: int)
    requires Stage(now, start, updates, |updates|, n)
    ensures CanRollBack(now, start, updates)
  {
    forall i | Changed(updates, i)
      ensures Holds(now, updates[i].backup, start, updates[i].target)
      ensures TargetOld(now, start, updates[i]) || TargetNew(now, start, updates[i])
    {
      assert Step(now, start, updates[i], true, i < n);
    }
  }

  /** Every target is old, except for the stuck ones; those are old or new. */
  ghost predicate OldExcept(now: Files, start: Files, updates: seq<Update>, stuck: set<int>) {
    && Safe(now, start, updates) && Elsewhere(now, start, updates)
    && forall i :: Changed(updates, i) && i !in stuck ==> TargetOld(now, start, updates[i])
  }

  lemma RolledBackIsOld(now: Files, before: Files, start: Files, updates: seq<Update>, stuck: set<int>)
    requires CanRollBack(before, start, updates) && RolledBack(now, before, start, updates, |updates|, stuck)
    ensures OldExcept(now, start, updates, stuck)
  {
    RolledBackIsSafe(now, before, start, updates, |updates|, stuck);
    forall i | Changed(updates, i) && i !in stuck ensures TargetOld(now, start, updates[i]) {
      assert Undone(now, before, start, updates[i], i < |updates| && i !in stuck);
    }
  }

  lemma NothingActiveIsOld(now: Files, start: Files, updates: seq<Update>, kept: int)
    requires Stage(now, start, updates, kept, 0)
    ensures OldExcept(now, start, updates, {})
  {
    forall i | Changed(updates, i) ensures TargetOld(now, start, updates[i]) {
      assert Step(now, start, updates[i], i < kept, i < 0);
    }
  }

  /** With every target replaced, all are new, and every backup holds the old file. */
  lemma AllActiveIsNew(now: Files, start: Files, updates: seq<Update>)
    requires Stage(now, start, updates, |updates|, |updates|)
    ensures AllNew(now, start, updates)
    ensures forall i :: Changed(updates, i) ==> Holds(now, updates[i].backup, start, updates[i].target)
  {
    forall i | Changed(updates, i)
      ensures TargetNew(now, start, updates[i]) && Holds(now, updates[i].backup, start, updates[i].target)
    {
      assert Step(now, start, updates[i], true, true);
    }
  }

  // Cleaning up.

  /** The targets and everything outside the update are as they were. */
  ghost predicate TargetsAs(now: Files, before: Files, updates: seq<Update>) {
    forall i :: Changed(updates, i) ==> Same(now, before, updates[i].target)
  }

  lemma SameTargetsAreSafe(now: Files, before: Files, start: Files, updates: seq<Update>)
    requires TargetsAs(now, before, updates)
    ensures Safe(before, start, updates) ==> Safe(now, start, updates)
    ensures AllNew(before, start, updates) ==> AllNew(now, start, updates)
    ensures forall i :: Changed(updates, i) && TargetOld(before, start, updates[i]) ==>
      TargetOld(now, start, updates[i])
  {
  }

  lemma RemoveTemp(now: Files, before: Files, start: Files, updates: seq<Update>, n: nat)
    requires Apart(updates) && Changed(updates, n) && TargetsAs(now, before, updates) && Elsewhere(now, start, updates)
    ensures TargetsAs(now - {updates[n].temp}, before, updates) && Elsewhere(now - {updates[n].temp}, start, updates)
  {
    forall i | Changed(updates, i) ensures Same(now - {updates[n].temp}, before, updates[i].target) {
      assert Same(now, before, updates[i].target);
      if i == n { assert Distinct(updates[i]); } else { assert Clear(updates[n], updates[i]); }
    }
  }

  // The loops.

  /** What was added to the history is safe throughout. */
  ghost predicate SafeSince(history: seq<Files>, earlier: seq<Files>, start: Files, updates: seq<Update>) {
    && |earlier| <= |history| && (forall k :: 0 <= k < |earlier| ==> history[k] == earlier[k])
    && forall k :: |earlier| <= k < |history| ==> Safe(history[k], start, updates)
  }

  class Upgrader {
    const disk: Disk

    constructor (disk: Disk)
      ensures this.disk == disk
    {
      this.disk := disk;
    }

    /** The first loop: a second link to every old binary. */
    method Preserve(updates: seq<Update>) returns (ok: bool)
      requires Staged(disk.files, updates)
      modifies disk
      ensures Stage(disk.files, old(disk.files), updates, if ok then |updates| else 0, 0)
      ensures old(disk.calls) <= disk.calls && (!ok ==> Faulty(disk.faults, old(disk.calls), disk.calls))
      ensures SafeSince(disk.history, old(disk.history), old(disk.files), updates)
    {
      ghost var start := disk.files;
      for i := 0 to |updates|
        invariant Stage(disk.files, start, updates, i, 0) && old(disk.calls) <= disk.calls
        invariant SafeSince(disk.history, old(disk.history), start, updates)
      {
        var u := updates[i];
        if u.changed {
          var kept := PreserveOne(updates, i, start);
          if !kept {
            return false;
          }
        }
      }
      ok := true;
    }

    /** One turn of that loop. */
    method PreserveOne(updates: seq<Update>, i: nat, ghost start: Files) returns (ok: bool)
      requires Changed(updates, i) && Stage(disk.files, start, updates, i, 0)
      modifies disk
      ensures Stage(disk.files, start, updates, if ok then i + 1 else 0, 0)
      ensures old(disk.calls) <= disk.calls && (!ok ==> Faulty(disk.faults, old(disk.calls), disk.calls))
      ensures SafeSince(disk.history, old(disk.history), start, updates)
    {
      var u := updates[i];
      RemoveBackup(disk.files, start, updates, i);
      var removed := disk.Remove(u.backup);
      StageIsSafe(disk.files, start, updates, i, 0);
      if removed.Failed? {
        return false;
      }
      RemoveBackup(disk.files, start, updates, i);
      LinkBackup(disk.files, start, updates, i);
      ok := disk.Link(u.target, u.backup);
      StageIsSafe(disk.files, start, updates, i, 0);
    }

    /** rollbackBinaryUpdates: a target stays as it is only if one of its own two operations fails. */
    method RollBack(updates: seq<Update>, ghost start: Files) returns (ghost stuck: set<int>)
      requires CanRollBack(disk.files, start, updates)
      modifies disk
      ensures RolledBack(disk.files, old(disk.files), start, updates, |updates|, stuck)
      ensures old(disk.calls) <= disk.calls && (stuck != {} ==> Faulty(disk.faults, old(disk.calls), disk.calls))
      ensures SafeSince(disk.history, old(disk.history), start, updates)
    {
      ghost var before := disk.files;
      stuck := {};
      for i := 0 to |updates|
        invariant RolledBack(disk.files, before, start, updates, i, stuck)
        invariant forall k :: k in stuck ==> 0 <= k < i
        invariant old(disk.calls) <= disk.calls && (stuck != {} ==> Faulty(disk.faults, old(disk.calls), disk.calls))
        invariant SafeSince(disk.history, old(disk.history), start, updates)
      {
        if updates[i].changed {
          var restored := RestoreOne(updates, i, start, before, stuck);
          if !restored {
            stuck := stuck + {i};
          }
        }
      }
    }

    /** One turn of that loop. */
    method RestoreOne(updates: seq<Update>, i: nat, ghost start: Files, ghost before: Files, ghost stuck: set<int>)
      returns (ghost restored: bool)
      requires Changed(updates, i) && CanRollBack(before, start, updates) && i !in stuck
      requires RolledBack(disk.files, before, start, updates, i, stuck)
      modifies disk
      ensures RolledBack(disk.files, before, start, updates, i + 1, if restored then stuck else stuck + {i})
      ensures old(disk.calls) <= disk.calls && (!restored ==> Faulty(disk.faults, old(disk.calls), disk.calls))
      ensures SafeSince(disk.history, old(disk.history), start, updates)
    {
      var u := updates[i];
      restored := false;
      RolledBackIsSafe(disk.files, before, start, updates, i, stuck);
      var found := disk.Exists(u.backup);
      if found {
        RollBackOne(disk.files, before, start, updates, i, stuck);
        var renamed := disk.Rename(u.backup, u.target);
        restored := renamed;
      }
      RolledBackIsSafe(disk.files, before, start, updates, i + 1, if restored then stuck else stuck + {i});
    }

    /** commitBinaryUpdates; `rollback` numbers the operation at which a rollback began. */
    method Commit(updates: seq<Update>) returns (ok: bool, ghost stuck: set<int>, ghost rollback: nat)
      requires Staged(disk.files, updates)
      modifies disk
      ensures ok ==> Stage(disk.files, old(disk.files), updates, |updates|, |updates|)
      ensures !ok ==> OldExcept(disk.files, old(disk.files), updates, stuck)
      ensures old(disk.calls) <= rollback <= disk.calls && (stuck != {} ==> Faulty(disk.faults, rollback, disk.calls))
      ensures !ok ==> Faulty(disk.faults, old(disk.calls), rollback)
      ensures SafeSince(disk.history, old(disk.history), old(disk.files), updates)
    {
      ghost var start := disk.files;
      stuck, rollback := {}, disk.calls;
      ok := Preserve(updates);
      rollback := disk.calls;
      if !ok {
        NothingActiveIsOld(disk.files, start, updates, 0);
        return;
      }
      for i := 0 to |updates|
        invariant Stage(disk.files, start, updates, |updates|, i) && old(disk.calls) <= disk.calls
        invariant SafeSince(disk.history, old(disk.history), start, updates)
      {
        var u := updates[i];
        if u.changed {
          StageIsSafe(disk.files, start, updates, |updates|, i);
          assert Step(disk.files, start, u, true, false);
          Activate(disk.files, start, updates, i);
          StageIsSafe(Renamed(disk.files, u.temp, u.target), start, updates, |updates|, i + 1);
          var renamed := disk.Rename(u.temp, u.target);
          if !renamed {
            rollback := disk.calls;
            ghost var before := disk.files;
            StageCanRollBack(disk.files, start, updates, i);
            stuck := RollBack(updates, start);
            RolledBackIsOld(disk.files, before, start, updates, stuck);
            return false, stuck, rollback;
          }
        }
      }
      rollback := disk.calls;
    }

    /** cleanupStagedUpdates */
    method CleanUp(updates: seq<Update>, ghost start: Files)
      requires Apart(updates) && Safe(disk.files, start, updates) && Elsewhere(disk.files, start, updates)
      requires forall i :: 0 <= i < |updates| && !updates[i].changed ==> updates[i].temp == ""
      modifies disk
      ensures TargetsAs(disk.files, old(disk.files), updates) && Elsewhere(disk.files, start, updates)
      ensures SafeSince(disk.history, old(disk.history), start, updates)
    {
      ghost var before := disk.files;
      for i := 0 to |updates|
        invariant TargetsAs(disk.files, before, updates) && Elsewhere(disk.files, start, updates)
        invariant SafeSince(disk.history, old(disk.history), start, updates)
      {
        var u := updates[i];
        if u.temp != "" {
          RemoveTemp(disk.files, before, start, updates, i);
          var _ := disk.Remove(u.temp);
          SameTargetsAreSafe(disk.files, before, start, updates);
        }
      }
    }

    /**
     * The end of upgrade: commit, schedule the restart, take the commit back if that fails, clean up.
     * `scheduled` is whether the restart could be scheduled.
     */
    method Install(updates: seq<Update>, scheduled: bool)
      returns (ok: bool, ghost stuck: set<int>, ghost rollback: nat, ghost done: nat)
      requires Staged(disk.files, updates)
      requires forall i :: 0 <= i < |updates| && !updates[i].changed ==> updates[i].temp == ""
      modifies disk
      ensures ok ==> AllNew(disk.files, old(disk.files), updates)
      ensures !ok ==> OldExcept(disk.files, old(disk.files), updates, stuck)
      ensures !ok && !Faulty(disk.faults, rollback, done) ==> AllOld(disk.files, old(disk.files), updates)
      ensures (forall i :: !Changed(updates, i)) ==> ok && disk.files == old(disk.files)
      ensures !ok ==> !scheduled || Faulty(disk.faults, old(disk.calls), rollback)
      ensures ok && !scheduled ==> forall i :: !Changed(updates, i)
      ensures Elsewhere(disk.files, old(disk.files), updates)
      ensures SafeSince(disk.history, old(disk.history), old(disk.files), updates)
    {
      ghost var start := disk.files;
      stuck, rollback, done := {}, disk.calls, disk.calls;
      var changed := false;
      for i := 0 to |updates|
        invariant changed <==> exists k :: 0 <= k < i && Changed(updates, k)
      {
        changed := changed || updates[i].changed;
        assert updates[i].changed ==> Changed(updates, i);
      }
      if !changed {
        return true, stuck, rollback, done;
      }
      ok, stuck, rollback := Commit(updates);
      ghost var committed := disk.files;
      if ok {
        AllActiveIsNew(committed, start, updates);
        StageIsSafe(committed, start, updates, |updates|, |updates|);
        if !scheduled {
          rollback := disk.calls;
          StageCanRollBack(disk.files, start, updates, |updates|);
          stuck := RollBack(updates, start);
          RolledBackIsOld(disk.files, committed, start, updates, stuck);
          ok := false;
        }
      }
      done := disk.calls;
      ghost var settled := disk.files;
      CleanUp(updates, start);
      SameTargetsAreSafe(disk.files, settled, start, updates);
    }
  }
}
