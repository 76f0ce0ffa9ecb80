/** Backup and restore of the xray configuration and of the x-ui database (agent/cmd/vps-agent-helper/main.go). */
module Restores {
  import opened Basics
  import opened Volumes

  const LIMIT: nat := 1024 * 1024

  // The archive.

  datatype EntryName = ConfigEntry | EnvEntry | OtherEntry

  /** An entry by its cleaned name, with the size its header declares and the bytes the reader yields. */
  datatype Entry = Entry(name: EntryName, regular: bool, size: int, data: Bytes)

  /** `damaged` stands for a reader that fails instead of ending. */
  datatype Archive = Archive(readable: bool, entries: seq<Entry>, damaged: bool)

  predicate Accepted(e: Entry) {
    !e.name.OtherEntry? && e.regular && 0 <= e.size <= LIMIT && |e.data| <= LIMIT
  }

  predicate Sound(a: Archive) {
    a.readable && !a.damaged && forall i :: 0 <= i < |a.entries| ==> Accepted(a.entries[i])
  }

  /** What the last entry of that name holds. */
  function Last(entries: seq<Entry>, name: EntryName): Option<Bytes> {
    if entries == [] then None
    else if entries[|entries| - 1].name == name then Some(entries[|entries| - 1].data)
    else Last(entries[..|entries| - 1], name)
  }

  /** What backupXrayConfig puts into the archive. */
  function Packed(config: Bytes, env: Option<Bytes>): Archive {
    Archive(true,
            [Entry(ConfigEntry, true, |config|,
                   config)] + (if env.Some? then [Entry(EnvEntry, true, |env.value|, env.value)] else []),
            false)
  }

  /** An archive of two files holds both of them, and it is accepted exactly when neither exceeds the limit. */
  lemma PackedHolds(config: Bytes, env: Option<Bytes>)
    ensures Last(Packed(config, env).entries, ConfigEntry) == Some(config)
    ensures Last(Packed(config, env).entries, EnvEntry) == env
    ensures Sound(Packed(config, env)) <==> |config| <= LIMIT && (env.Some? ==> |env.value| <= LIMIT)
  {
    var first := Entry(ConfigEntry, true, |config|, config);
    assert [first][..0] == [];
    assert Accepted(Packed(config, env).entries[0]) <==> |config| <= LIMIT;
    if env.Some? {
      var second := Entry(EnvEntry, true, |env.value|, env.value);
      assert [first, second][..1] == [first];
      assert Accepted(Packed(config, env).entries[1]) <==> |env.value| <= LIMIT;
    }
  }

  /** The numbers of the operations a failed restore depends on. */
  datatype Marks = Marks(configCheck: nat, envCheck: nat, rollback: nat, end: nat)

  /** Both looks at the present files worked, and so did everything in the rollback. */
  ghost predicate Quiet(faults: nat -> bool, m: Marks) {
    !faults(m.configCheck) && !faults(m.envCheck) && !Faulty(faults, m.rollback, m.end)
  }

  const STAGING: set<Name> := {StagedConfig, StagedTest, StagedEnv, Part(StagedTest)}
  const ASIDE: set<Name> := {ConfigBackup, EnvBackup, Part(ConfigBackup), Part(EnvBackup)}
  const LIVE: set<Name> := {Config, NodeEnv, Part(Config), Part(NodeEnv)}

  /** Both files hold what was staged; without a staged node.env there is none, unless its removal failed. */
  predicate Swapped(now: Files, before: Files, hasEnv: bool, removalFailed: bool) {
    && Config in now && At(now, Config) == At(before, StagedConfig)
    && (hasEnv ==> NodeEnv in now && At(now, NodeEnv) == At(before, StagedEnv))
    && (!hasEnv ==> if removalFailed then SameAt(now, before, NodeEnv) else NodeEnv !in now)
  }

  /** The two files are those of the archive. */
  predicate Restored(now: Files, before: Files, archive: Archive, removalFailed: bool) {
    && Last(archive.entries, ConfigEntry).Some? && At(now, Config) == Last(archive.entries, ConfigEntry)
    && (Last(archive.entries, EnvEntry).Some? ==> At(now, NodeEnv) == Last(archive.entries, EnvEntry))
    && (Last(archive.entries, EnvEntry).None? ==> if removalFailed then SameAt(now, before,
                                                                               NodeEnv) else NodeEnv !in now)
  }

  /**
   * Restoring what was backed up gives both files back, the absence of node.env included, exactly when the
   * removal of a node.env that was not backed up did not fail, or there was none to remove.
   */
  lemma RoundTripIff(config: Bytes, env: Option<Bytes>, now: Files, before: Files, removalFailed: bool)
    requires Restored(now, before, Packed(config, env), removalFailed)
    ensures At(now, Config) == Some(config) && (env.Some? ==> At(now, NodeEnv) == env)
    ensures At(now, NodeEnv) == env <==> env.Some? || !removalFailed || NodeEnv !in before
  {
    PackedHolds(config, env);
  }

  /** What was set aside is untouched, and the configuration is the staged one once it was replaced. */
  predicate Kept(now: Files, before: Files, replaced: bool) {
    && SameAt(now, before, ConfigBackup) && SameAt(now, before, EnvBackup)
    && At(now, Config) == if replaced then At(before, StagedConfig) else At(before, Config)
  }

  /**
   * A rollback went through: what was set aside is back; a configuration that was not set aside is as the
   * failure left it.
   */
  predicate PutRight(now: Files, before: Files, hadEnv: bool, replaced: bool) {
    && At(now, Config) == (if ConfigBackup in before then At(before, ConfigBackup)
                           else if replaced then At(before, StagedConfig) else At(before, Config))
    && (hadEnv && EnvBackup in before ==> At(now, NodeEnv) == At(before, EnvBackup))
    && (!hadEnv ==> NodeEnv !in now)
  }

  /** What a rolled back restore leaves as config.json. */
  function Left(before: Files, archive: Archive, replaced: bool): Option<Bytes> {
    if Config in before then At(before, Config)
    else if ConfigBackup in before then At(before, ConfigBackup)
    else if replaced then Last(archive.entries, ConfigEntry) else None
  }

  class Helper {
    const volume: Volume

    constructor (volume: Volume)
      ensures this.volume == volume
    {
      this.volume := volume;
    }

    /** backupXrayConfig as far as the contents of the archive go; `env` numbers its look for node.env. */
    method BackupXray() returns (archive: Option<Archive>, ghost env: nat)
      modifies volume
      ensures volume.files == old(volume.files) && old(volume.calls) <= volume.calls
      ensures archive.Some? ==> Config in volume.files && old(volume.calls) <= env < volume.calls
      ensures archive.None? && Config in volume.files ==> Faulty(volume.faults, old(volume.calls), volume.calls)
      ensures archive.Some? && !volume.faults(env) ==>
        archive == Some(Packed(volume.files[Config], At(volume.files, NodeEnv)))
      ensures archive.Some? && volume.faults(env) ==> archive == Some(Packed(volume.files[Config], None))
    {
      env := 0;
      var found := volume.Exists(Config);
      if !found {
        return None, env;
      }
      var reachable := volume.Touch();
      if !reachable {
        return None, env;
      }
      var packed := volume.Touch();
      if !packed {
        return None, env;
      }
      env := volume.calls;
      var hasEnv := volume.Exists(NodeEnv);
      archive := Some(Packed(volume.files[Config], if hasEnv then Some(volume.files[NodeEnv]) else None));
      var closed := volume.Touch();
      if !closed {
        archive := None;
      }
    }

    /** extractXrayTarGz */
    method Extract(archive: Archive) returns (ok: bool, hasConfig: bool, hasEnv: bool)
      modifies volume
      ensures volume.calls >= old(volume.calls)
      ensures OnlyAt(volume.files, old(volume.files), {StagedConfig, StagedEnv})
      ensures ok ==> Sound(archive)
      ensures ok ==>
        hasConfig == Last(archive.entries, ConfigEntry).Some? && hasEnv == Last(archive.entries, EnvEntry).Some?
      ensures ok && hasConfig ==> At(volume.files, StagedConfig) == Last(archive.entries, ConfigEntry)
      ensures ok && hasEnv ==> At(volume.files, StagedEnv) == Last(archive.entries, EnvEntry)
      ensures Sound(archive) && !Faulty(volume.faults, old(volume.calls), volume.calls) ==> ok
    {
      ok, hasConfig, hasEnv := false, false, false;
      var reachable := volume.Touch();
      if !reachable || !archive.readable {
        return;
      }
      for i := 0 to |archive.entries|
        invariant volume.calls >= old(volume.calls) && !ok
        invariant OnlyAt(volume.files, old(volume.files), {StagedConfig, StagedEnv})
        invariant forall k :: 0 <= k < i ==> Accepted(archive.entries[k])
        invariant hasConfig == Last(archive.entries[..i], ConfigEntry).Some?
        invariant hasEnv == Last(archive.entries[..i], EnvEntry).Some?
        invariant hasConfig ==> At(volume.files, StagedConfig) == Last(archive.entries[..i], ConfigEntry)
        invariant hasEnv ==> At(volume.files, StagedEnv) == Last(archive.entries[..i], EnvEntry)
      {
        var e := archive.entries[i];
        assert archive.entries[..i + 1][..i] == archive.entries[..i];
        if e.name.OtherEntry? || !e.regular || e.size > LIMIT || e.size < 0 {
          return;
        }
        var target := if e.name.ConfigEntry? then StagedConfig else StagedEnv;
        var copied := if |e.data| > LIMIT + 1 then e.data[..LIMIT + 1] else e.data;
        var written, _ := volume.Write(target, copied);
        if !written || |copied| > LIMIT {
          return;
        }
        hasConfig := hasConfig || e.name.ConfigEntry?;
        hasEnv := hasEnv || e.name.EnvEntry?;
      }
      assert archive.entries[..|archive.entries|] == archive.entries;
      ok := !archive.damaged;
    }

    /** Puts a file back from where it was set aside, if it was. */
    method PutBack(backup: Name, target: Name)
      requires backup != target && backup != Part(target)
      modifies volume
      ensures volume.calls >= old(volume.calls)
      ensures OnlyAt(volume.files, old(volume.files), {target, backup, Part(target)})
      ensures !Faulty(volume.faults, old(volume.calls), volume.calls) ==>
        At(volume.files, target) ==
          if backup in old(volume.files) then At(old(volume.files), backup)
          else At(old(volume.files), target)
    {
      var found := volume.Exists(backup);
      if found {
        var copied, _ := volume.Copy(backup, target);
        ghost var middle := volume.files;
        var _ := volume.Remove(backup);
        assert OnlyAt(volume.files, middle, {backup});
        OnlyAtChain(old(volume.files), middle, volume.files, {target, Part(target)}, {backup});
      }
    }

    /** rollbackXrayRestore; `hadEnv` is whether node.env had been set aside. */
    method RollBackXray(hadEnv: bool)
      modifies volume
      ensures volume.calls >= old(volume.calls)
      ensures OnlyAt(volume.files, old(volume.files), LIVE + ASIDE)
      ensures !Faulty(volume.faults, old(volume.calls), volume.calls) ==>
        At(volume.files, Config) ==
          if ConfigBackup in old(volume.files) then At(old(volume.files), ConfigBackup)
          else At(old(volume.files), Config)
      ensures !Faulty(volume.faults, old(volume.calls), volume.calls) && hadEnv && EnvBackup in old(volume.files) ==>
        At(volume.files, NodeEnv) == At(old(volume.files), EnvBackup)
      ensures !Faulty(volume.faults, old(volume.calls), volume.calls) && !hadEnv ==> NodeEnv !in volume.files
    {
      PutBack(ConfigBackup, Config);
      ghost var middle := volume.files;
      if hadEnv {
        PutBack(EnvBackup, NodeEnv);
      } else {
        var _ := volume.Remove(NodeEnv);
      }
      OnlyAtChain(old(volume.files), middle, volume.files, {Config, ConfigBackup, Part(Config)},
                  {NodeEnv, EnvBackup, Part(NodeEnv)});
      assert {Config, ConfigBackup, Part(Config)} + {NodeEnv, EnvBackup, Part(NodeEnv)} <= LIVE + ASIDE;
      assert SameAt(middle, old(volume.files), EnvBackup) && SameAt(volume.files, middle, Config);
    }

    method ClearStaging()
      modifies volume
      ensures volume.calls >= old(volume.calls) && OnlyAt(volume.files, old(volume.files), STAGING)
    {
      var ok := volume.Touch();
      if ok {
        volume.files := volume.files - {StagedConfig, StagedTest, StagedEnv, Part(StagedTest)};
      }
    }

    /** Up to the test of the new configuration, whose outcome is `accepted`. */
    method Stage(archive: Archive, accepted: bool) returns (ok: bool, hasEnv: bool)
      modifies volume
      ensures volume.calls >= old(volume.calls) && OnlyAt(volume.files, old(volume.files), STAGING)
      ensures ok ==> Sound(archive) && accepted && Last(archive.entries, ConfigEntry).Some?
      ensures ok ==> At(volume.files, StagedConfig) == Last(archive.entries, ConfigEntry)
      ensures ok ==> hasEnv == Last(archive.entries, EnvEntry).Some?
      ensures ok && hasEnv ==> At(volume.files, StagedEnv) == Last(archive.entries, EnvEntry)
      ensures !ok && Sound(archive) && accepted && Last(archive.entries, ConfigEntry).Some? ==>
        Faulty(volume.faults, old(volume.calls), volume.calls)
    {
      ok, hasEnv := false, false;
      ClearStaging();
      ghost var cleared := volume.files;
      var made := volume.Touch();
      if !made {
        return;
      }
      var extracted, hasConfig, env := Extract(archive);
      ghost var unpacked := volume.files;
      OnlyAtWithin(old(volume.files), cleared, unpacked, STAGING, {StagedConfig, StagedEnv}, STAGING);
      hasEnv := env;
      if !extracted || !hasConfig {
        return;
      }
      var copied, _ := volume.Copy(StagedConfig, StagedTest);
      OnlyAtWithin(old(volume.files), unpacked, volume.files, STAGING, {StagedTest, Part(StagedTest)}, STAGING);
      assert SameAt(volume.files, unpacked, StagedConfig) && SameAt(volume.files, unpacked, StagedEnv);
      ok := copied && accepted;
    }

    /** Sets the present files aside. */
    method SetAside() returns (ok: bool, hadEnv: bool, ghost configCheck: nat, ghost envCheck: nat)
      modifies volume
      ensures volume.calls >= old(volume.calls) && OnlyAt(volume.files, old(volume.files), ASIDE)
      ensures ok && Config in old(volume.files) && !volume.faults(configCheck) ==>
        At(volume.files, ConfigBackup) == At(old(volume.files), Config)
      ensures ok && Config !in old(volume.files) ==> SameAt(volume.files, old(volume.files), ConfigBackup)
      ensures !ok ==> Faulty(volume.faults, old(volume.calls), volume.calls)
      ensures ok ==> old(volume.calls) <= configCheck < volume.calls && old(volume.calls) <= envCheck < volume.calls
      ensures ok ==> hadEnv == (NodeEnv in old(volume.files) && !volume.faults(envCheck))
      ensures ok && hadEnv ==> At(volume.files, EnvBackup) == At(old(volume.files), NodeEnv)
    {
      ok, hadEnv, configCheck, envCheck := false, false, volume.calls, volume.calls;
      var hadConfig := volume.Exists(Config);
      if hadConfig {
        var copied, _ := volume.Copy(Config, ConfigBackup);
        assert OnlyAt(volume.files, old(volume.files), ASIDE);
        if !copied {
          return;
        }
      }
      ghost var middle := volume.files;
      assert SameAt(middle, old(volume.files), NodeEnv);
      ok, hadEnv, envCheck := SetEnvAside();
      OnlyAtWithin(old(volume.files), middle, volume.files, ASIDE, ASIDE, ASIDE);
    }

    method SetEnvAside() returns (ok: bool, hadEnv: bool, ghost envCheck: nat)
      modifies volume
      ensures old(volume.calls) <= envCheck < volume.calls && OnlyAt(volume.files, old(volume.files), ASIDE)
      ensures !ok ==> Faulty(volume.faults, old(volume.calls), volume.calls)
      ensures hadEnv == (NodeEnv in old(volume.files) && !volume.faults(envCheck))
      ensures ok && hadEnv ==> At(volume.files, EnvBackup) == At(old(volume.files), NodeEnv)
      ensures ok ==> SameAt(volume.files, old(volume.files), ConfigBackup)
    {
      envCheck := volume.calls;
      hadEnv := volume.Exists(NodeEnv);
      ok := true;
      if hadEnv {
        var copied, _ := volume.Copy(NodeEnv, EnvBackup);
        ok := copied;
        if !ok {
          ghost var last := volume.files;
          var _ := volume.Remove(ConfigBackup);
          assert OnlyAt(volume.files, last, {ConfigBackup});
          OnlyAtWithin(old(volume.files), last, volume.files, {EnvBackup, Part(EnvBackup)}, {ConfigBackup}, ASIDE);
        }
      }
    }

    /**
     * The two replacements. A failure is rolled back by the operations from number `rollback` on; `replaced` is
     * whether config.json was replaced, and `removal` numbers the removal of node.env.
     */
    method Swap(hasEnv: bool, hadEnv: bool)
      returns (ok: bool, ghost replaced: bool, ghost rollback: nat, ghost removal: nat)
      modifies volume
      ensures old(volume.calls) <= rollback <= volume.calls && OnlyAt(volume.files, old(volume.files), LIVE + ASIDE)
      ensures ok ==> replaced && OnlyAt(volume.files, old(volume.files), LIVE)
      ensures ok ==> Swapped(volume.files, old(volume.files), hasEnv, volume.faults(removal))
      ensures replaced ==> StagedConfig in old(volume.files)
      ensures !ok && !Faulty(volume.faults, rollback, volume.calls) ==>
        PutRight(volume.files, old(volume.files), hadEnv, replaced)
      ensures !ok && StagedConfig in old(volume.files) && (hasEnv ==> StagedEnv in old(volume.files)) ==>
        Faulty(volume.faults, old(volume.calls), volume.calls)
    {
      removal := 0;
      var copied;
      copied, replaced := volume.Copy(StagedConfig, Config);
      ghost var middle := volume.files;
      rollback := volume.calls;
      assert OnlyAt(middle, old(volume.files), LIVE);
      assert Kept(middle, old(volume.files), replaced);
      if !copied {
        RollBackXray(hadEnv);
        OnlyAtWithin(old(volume.files), middle, volume.files, LIVE, LIVE + ASIDE, LIVE + ASIDE);
        return false, replaced, rollback, removal;
      }
      var stored;
      stored, removal := StoreEnv(hasEnv);
      ghost var last := volume.files;
      OnlyAtWithin(old(volume.files), middle, last, LIVE, {NodeEnv, Part(NodeEnv)}, LIVE);
      assert SameAt(last, middle, Config) && SameAt(middle, old(volume.files), StagedEnv);
      assert SameAt(middle, old(volume.files), NodeEnv) && Kept(last, old(volume.files), replaced);
      rollback := volume.calls;
      if !stored {
        RollBackXray(hadEnv);
        OnlyAtWithin(old(volume.files), last, volume.files, LIVE, LIVE + ASIDE, LIVE + ASIDE);
        return false, replaced, rollback, removal;
      }
      ok := true;
    }

    /** The replacement or the removal of node.env; a removal that fails is ignored. */
    method StoreEnv(hasEnv: bool) returns (stored: bool, ghost removal: nat)
      modifies volume
      ensures old(volume.calls) <= volume.calls
      ensures OnlyAt(volume.files, old(volume.files), {NodeEnv, Part(NodeEnv)})
      ensures stored && hasEnv ==>
        NodeEnv in volume.files && At(volume.files, NodeEnv) == At(old(volume.files), StagedEnv)
      ensures !hasEnv ==> stored
      ensures !hasEnv ==>
        if volume.faults(removal) then SameAt(volume.files, old(volume.files), NodeEnv) else NodeEnv !in volume.files
      ensures !stored && StagedEnv in old(volume.files) ==> Faulty(volume.faults, old(volume.calls), volume.calls)
    {
      removal := volume.calls;
      stored := true;
      if hasEnv {
        var copied, _ := volume.Copy(StagedEnv, NodeEnv);
        stored := copied;
      } else {
        var _ := volume.Remove(NodeEnv);
      }
    }

    /** The replacements, the restart, whose outcome is `restarts`, and the end of either story. */
    method Exchange(hasEnv: bool, hadEnv: bool, restarts: bool)
      returns (ok: bool, ghost replaced: bool, ghost rollback: nat, ghost removal: nat)
      modifies volume
      ensures old(volume.calls) <= rollback <= volume.calls && OnlyAt(volume.files, old(volume.files), LIVE + ASIDE)
      ensures ok ==> restarts && replaced && Swapped(volume.files, old(volume.files), hasEnv, volume.faults(removal))
      ensures replaced ==> StagedConfig in old(volume.files)
      ensures !ok && !Faulty(volume.faults, rollback, volume.calls) ==>
        PutRight(volume.files, old(volume.files), hadEnv, replaced)
      ensures !(ok && restarts) && !(replaced && !ok && !restarts)
              && StagedConfig in old(volume.files) && (hasEnv ==> StagedEnv in old(volume.files)) ==>
        Faulty(volume.faults, old(volume.calls), volume.calls)
    {
      ok, replaced, rollback, removal := Swap(hasEnv, hadEnv);
      if !ok {
        return;
      }
      ghost var swapped := volume.files;
      rollback := volume.calls;
      assert SameAt(swapped, old(volume.files), ConfigBackup) && SameAt(swapped, old(volume.files), EnvBackup);
      if !restarts {
        ok := false;
        RollBackXray(hadEnv);
        OnlyAtWithin(old(volume.files), swapped, volume.files, LIVE, LIVE + ASIDE, LIVE + ASIDE);
        return;
      }
      var _ := volume.Remove(ConfigBackup);
      if hadEnv {
        var _ := volume.Remove(EnvBackup);
      }
      assert OnlyAt(volume.files, swapped, ASIDE);
      OnlyAtChain(old(volume.files), swapped, volume.files, LIVE, ASIDE);
      assert SameAt(volume.files, swapped, Config) && SameAt(volume.files, swapped, NodeEnv);
    }

    /**
     * restoreXrayConfig. On success both files are those of the archive; a node.env the archive lacks is gone
     * unless its removal failed. A failure before the replacements changes neither file. A failure after them, when
     * the looks at the present files and the rollback worked, leaves node.env as it was, and config.json exactly if
     * there was one, or it was not replaced yet and nothing of the same second lay where it would be set aside.
     */
    method RestoreXray(archive: Archive, accepted: bool, restarts: bool)
      returns (ok: bool, ghost replaced: bool, ghost undone: bool, ghost marks: Marks, ghost removal: nat)
      modifies volume
      ensures old(volume.calls) <= volume.calls && (ok ==> Sound(archive) && accepted && restarts)
      ensures ok ==> Restored(volume.files, old(volume.files), archive, volume.faults(removal))
      ensures !ok && !undone ==> !replaced && SameAt(volume.files, old(volume.files), Config)
      ensures !ok && !undone ==> SameAt(volume.files, old(volume.files), NodeEnv)
      ensures !ok && undone && Quiet(volume.faults, marks) ==> SameAt(volume.files, old(volume.files), NodeEnv)
      ensures !ok && undone && Quiet(volume.faults, marks) ==>
        At(volume.files, Config) == Left(old(volume.files), archive, replaced)
      ensures !ok && undone && Quiet(volume.faults, marks) ==>
        (SameAt(volume.files, old(volume.files), Config) <==>
          Config in old(volume.files) || (!replaced && ConfigBackup !in old(volume.files)))
      ensures Sound(archive) && accepted && Last(archive.entries, ConfigEntry).Some?
              && !Faulty(volume.faults, old(volume.calls), volume.calls) ==>
        if restarts then ok else !ok && replaced && undone && Quiet(volume.faults, marks)
    {
      replaced, undone, marks, removal := false, false, Marks(0, 0, 0, 0), 0;
      ghost var from := volume.calls;
      var staged, hasEnv := Stage(archive, accepted);
      ghost var s1 := volume.files;
      assert SameAt(s1, old(volume.files), Config) && SameAt(s1, old(volume.files), NodeEnv);
      if !staged {
        ClearStaging();
        assert SameAt(volume.files, s1, Config) && SameAt(volume.files, s1, NodeEnv);
        return false, replaced, undone, marks, removal;
      }
      assert SameAt(s1, old(volume.files), ConfigBackup);
      var aside, hadEnv, configCheck, envCheck := SetAside();
      ghost var s2 := volume.files;
      assert SameAt(s2, s1, Config) && SameAt(s2, s1, NodeEnv) && SameAt(s2, s1, StagedConfig);
      assert SameAt(s2, s1, StagedEnv);
      if !aside {
        ClearStaging();
        assert SameAt(volume.files, s2, Config) && SameAt(volume.files, s2, NodeEnv);
        return false, replaced, undone, marks, removal;
      }
      ghost var rollback;
      ok, replaced, rollback, removal := Exchange(hasEnv, hadEnv, restarts);
      undone := !ok;
      marks := Marks(configCheck, envCheck, rollback, volume.calls);
      ghost var s3 := volume.files;
      ClearStaging();
      assert SameAt(volume.files, s3, Config) && SameAt(volume.files, s3, NodeEnv);
    }

    /**
     * restoreXUIDatabase. `managed`, `stops` and `starts` are the outcomes of finding the service manager, stopping
     * and starting; `undo` numbers the operation at which the database was put back.
     */
    method RestoreDatabase(managed: bool, stops: bool, starts: bool) returns (ok: bool, ghost undo: nat, ghost end: nat)
      modifies volume
      ensures ok ==> managed && stops && starts
      ensures ok ==>
        Replacement in old(volume.files) && At(volume.files, Database) == At(old(volume.files), Replacement)
      ensures !ok && !Faulty(volume.faults, undo, end) ==> SameAt(volume.files, old(volume.files), Database)
      ensures !ok ==> SameAt(volume.files, old(volume.files), Database) || (starts == false && managed && stops)
      ensures ok ==> Database in old(volume.files)
      ensures !ok && managed && stops && starts && Database in old(volume.files) && Replacement in old(volume.files) ==>
        Faulty(volume.faults, old(volume.calls), volume.calls)
    {
      undo, end := volume.calls, volume.calls;
      var copied, _ := volume.Copy(Database, DatabaseBackup);
      ghost var s1 := volume.files;
      assert SameAt(s1, old(volume.files), Database) && SameAt(s1, old(volume.files), Replacement);
      if !copied || !managed || !stops {
        return false, undo, end;
      }
      var staged, _ := volume.Copy(Replacement, DatabaseRestore);
      ghost var s2 := volume.files;
      assert SameAt(s2, s1, Database) && SameAt(s2, s1, DatabaseBackup);
      if !staged {
        return false, undo, end;
      }
      var renamed := volume.Rename(DatabaseRestore, Database);
      if !renamed {
        var _ := volume.Remove(DatabaseRestore);
        return false, undo, end;
      }
      if !starts {
        undo := volume.calls;
        var _, _ := volume.Copy(DatabaseBackup, Database);
        end := volume.calls;
        return false, undo, end;
      }
      var _ := volume.Remove(DatabaseBackup);
      ok := true;
    }
  }

  /**
   * A backup and a restore, on one host or from one to another: when both went well and the backup's look for node.env
   * worked, both files are those that were backed up, the absence of node.env included, exactly unless the ignored
   * removal of a node.env failed. Both go well if no disk operation fails and neither file exceeds the limit.
   */
  method BackUpAndRestore(from: Helper, to: Helper, accepted: bool, restarts: bool)
    returns (ok: bool, ghost env: nat, ghost removal: nat)
    modifies from.volume, to.volume
    ensures from.volume != to.volume ==> from.volume.files == old(from.volume.files)
    ensures ok ==>
      Config in old(from.volume.files) && At(to.volume.files, Config) == At(old(from.volume.files), Config)
    ensures ok && !from.volume.faults(env) ==>
      (At(to.volume.files, NodeEnv) == At(old(from.volume.files), NodeEnv) <==>
        NodeEnv in old(from.volume.files) || !to.volume.faults(removal) || NodeEnv !in old(to.volume.files))
    ensures !Faulty(from.volume.faults, old(from.volume.calls), from.volume.calls)
            && !Faulty(to.volume.faults, old(to.volume.calls), to.volume.calls) ==>
      (ok <==> accepted && restarts && Fits(old(from.volume.files)))
  {
    env, removal := 0, 0;
    ghost var before, there := from.volume.files, to.volume.files;
    var archive;
    archive, env := from.BackupXray();
    if archive.None? {
      return false, env, removal;
    }
    PackedHolds(from.volume.files[Config], if from.volume.faults(env) then None else At(from.volume.files, NodeEnv));
    ghost var replaced, undone, marks;
    ok, replaced, undone, marks, removal := to.RestoreXray(archive.value, accepted, restarts);
    if ok && !from.volume.faults(env) {
      RoundTripIff(before[Config], At(before, NodeEnv), to.volume.files, there, to.volume.faults(removal));
    }
  }

  /** There is a configuration, and neither file exceeds the limit of the archive. */
  predicate Fits(files: Files) {
    Config in files && |files[Config]| <= 1_048_576 && (NodeEnv in files ==> |files[NodeEnv]| <= 1_048_576)
  }
}
