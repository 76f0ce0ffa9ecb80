/** The files the agent helper backs up and restores, and its copyFile (agent/cmd/vps-agent-helper/main.go). */
module Volumes {
  import opened Basics

  type Bytes = seq<bv8>

  /** The names used by backup and restore. `Part` is the name a copy is written under before it is renamed. */
  datatype Name =
    | Config | NodeEnv | ConfigBackup | EnvBackup
    | StagedConfig | StagedTest | StagedEnv
    | Database | DatabaseBackup | DatabaseRestore | Replacement
    | Part(of: Name)

  type Files = map<Name, Bytes>

  predicate SameAt(now: Files, before: Files, n: Name) {
    (n in now <==> n in before) && (n in now ==> now[n] == before[n])
  }

  function At(files: Files, n: Name): Option<Bytes> {
    if n in files then Some(files[n]) else None
  }

  /** Only these names may differ. */
  ghost predicate OnlyAt(now: Files, before: Files, names: set<Name>) {
    forall n :: n !in names ==> SameAt(now, before, n)
  }

  lemma OnlyAtChain(a: Files, b: Files, c: Files, s: set<Name>, t: set<Name>)
    requires OnlyAt(b, a, s) && OnlyAt(c, b, t)
    ensures OnlyAt(c, a, s + t)
  {
    forall n | n !in s + t ensures SameAt(c, a, n) {
      assert SameAt(b, a, n) && SameAt(c, b, n);
    }
  }

  lemma OnlyAtWithin(a: Files, b: Files, c: Files, s: set<Name>, t: set<Name>, all: set<Name>)
    requires OnlyAt(b, a, s) && OnlyAt(c, b, t) && s <= all && t <= all
    ensures OnlyAt(c, a, all)
  {
    forall n | n !in all ensures SameAt(c, a, n) {
      assert SameAt(b, a, n) && SameAt(c, b, n);
    }
  }

  lemma {:induction false} PartIsAnother(n: Name)
    ensures Part(n) != n
  {
    if n.Part? {
      PartIsAnother(n.of);
    }
  }

  predicate FirstFour(faults: nat -> bool, from: nat) {
    !faults(from) && !faults(from + 1) && !faults(from + 2) && !faults(from + 3)
  }

  class Volume {
    var files: Files
    var calls: nat
    const faults: nat -> bool
    const partial: nat -> Bytes

    /** `faults` says of each operation, in order, whether it fails, `partial` what a write that fails leaves behind. */
    constructor (files: Files, faults: nat -> bool, partial: nat -> Bytes)
      ensures this.files == files && calls == 0 && this.faults == faults && this.partial == partial
    {
      this.files, calls, this.faults, this.partial := files, 0, faults, partial;
    }

    /** An operation that changes no content: opening, making a directory, setting permissions. */
    method Touch() returns (ok: bool)
      modifies this`calls
      ensures calls == old(calls) + 1 && ok == !faults(old(calls))
    {
      ok := !faults(calls);
      calls := calls + 1;
    }

    /** fileExists */
    method Exists(n: Name) returns (found: bool)
      modifies this`calls
      ensures calls == old(calls) + 1 && found == (!faults(old(calls)) && n in files)
    {
      var ok := Touch();
      found := ok && n in files;
    }

    method Remove(n: Name) returns (ok: bool)
      modifies this
      ensures calls == old(calls) + 1 && ok == (!faults(old(calls)) && n in old(files))
      ensures files == if ok then old(files) - {n} else old(files)
    {
      var quiet := Touch();
      ok := quiet && n in files;
      if ok {
        files := files - {n};
      }
    }

    /** Creates or truncates a file and writes it; `created` is whether it got as far as writing. */
    method Write(n: Name, content: Bytes) returns (ok: bool, created: bool)
      modifies this
      ensures created == !faults(old(calls)) && calls == old(calls) + (if created then 2 else 1)
      ensures ok == (created && !faults(old(calls) + 1))
      ensures files == if ok then old(files)[n := content] else if created then old(files)[n := partial(old(calls) + 1)]
                       else old(files)
    {
      created := Touch();
      ok := false;
      if created {
        ok := Touch();
        files := files[n := if ok then content else partial(calls - 1)];
      }
    }

    method Rename(from: Name, to: Name) returns (ok: bool)
      requires from != to
      modifies this
      ensures calls == old(calls) + 1 && ok == (!faults(old(calls)) && from in old(files))
      ensures files == if ok then (old(files) - {from})[to := old(files)[from]] else old(files)
    {
      var quiet := Touch();
      ok := quiet && from in files;
      if ok {
        files := (files - {from})[to := files[from]];
      }
    }

    /** The first four operations of copyFile: open, make the directory, create the part and write it. */
    method Fill(from: Name, to: Name) returns (filled: bool)
      requires from != Part(to)
      modifies this
      ensures old(calls) <= calls <= old(calls) + 5 && (filled ==> calls == old(calls) + 4)
      ensures OnlyAt(files, old(files), {Part(to)})
      ensures filled == (from in old(files) && FirstFour(faults, old(calls)))
      ensures filled ==> Part(to) in files && files[Part(to)] == old(files)[from]
      ensures !filled && from in old(files) ==> Faulty(faults, old(calls), calls)
    {
      filled := false;
      var reachable := Touch();
      if !reachable || from !in files {
        return;
      }
      var made := Touch();
      if !made {
        return;
      }
      var written, created := Write(Part(to), files[from]);
      if created && !written {
        var _ := Remove(Part(to));
      }
      filled := written;
    }

    /**
     * copyFile: the part is filled, renamed, and given its permissions. The destination is replaced as a whole by the
     * fifth operation or not at all, and a failing sixth is reported although it was.
     */
    method Copy(from: Name, to: Name) returns (ok: bool, ghost replaced: bool)
      requires from != to && from != Part(to)
      modifies this
      ensures old(calls) <= calls <= old(calls) + 6
      ensures OnlyAt(files, old(files), {to, Part(to)})
      ensures replaced == (from in old(files) && FirstFour(faults, old(calls)) && !faults(old(calls) + 4))
      ensures if replaced then At(files, to) == At(old(files), from) && to in files else SameAt(files, old(files), to)
      ensures ok == (replaced && !faults(old(calls) + 5)) && (replaced ==> calls == old(calls) + 6)
      ensures !ok && from in old(files) ==> Faulty(faults, old(calls), calls)
    {
      PartIsAnother(to);
      ok, replaced := false, false;
      var filled := Fill(from, to);
      if !filled {
        return;
      }
      ghost var middle := files;
      var renamed := Rename(Part(to), to);
      if !renamed {
        var _ := Remove(Part(to));
        assert OnlyAt(files, middle, {Part(to)});
        OnlyAtChain(old(files), middle, files, {Part(to)}, {Part(to)});
        return;
      }
      assert OnlyAt(files, middle, {to, Part(to)});
      OnlyAtChain(old(files), middle, files, {Part(to)}, {to, Part(to)});
      assert {Part(to)} + {to, Part(to)} == {to, Part(to)};
      replaced := true;
      ok := Touch();
    }
  }
}
