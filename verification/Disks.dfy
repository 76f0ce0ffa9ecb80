/**
 * A file system as the agent helper sees it: paths to files, where two links to one file share its inode.
 * Any operation may fail; a failed one changes nothing. `history` keeps the file system after every operation,
 * which is what a crash at that point would leave.
 */
module Disks {

  datatype File = File(inode: nat, content: seq<bv8>)

  type Files = map<string, File>

  datatype Outcome = Done | Missing | Failed

  /** rename(2): if both names are links to one file, nothing happens. */
  function Renamed(files: Files, from: string, to: string): Files
    requires from in files
  {
    if to in files && files[to].inode == files[from].inode then files else (files - {from})[to := files[from]]
  }

  /** A rename between two links of one file leaves both; any other one takes the old name away and replaces the new. */
  lemma RenamedOnFields(files: Files, from: string, to: string, p: string)
    requires from in files && from != to
    ensures var after := Renamed(files, from, to);
      && (to in files && files[to].inode == files[from].inode ==> after == files)
      && (to !in files || files[to].inode != files[from].inode ==> from !in after)
      && to in after && (after[to] == files[from] || (to in files && files[to].inode == files[from].inode))
      && (p != from && p != to ==> (p in after <==> p in files) && (p in files ==> after[p] == files[p]))
  {
  }

  class Disk {
    var files: Files
    var calls: nat
    ghost var history: seq<Files>
    const faults: nat -> bool

    /** `faults` says of each operation, in order, whether it fails. */
    constructor (files: Files, faults: nat -> bool)
      ensures this.files == files && calls == 0 && history == [files] && this.faults == faults
    {
      this.files, calls, history, this.faults := files, 0, [files], faults;
    }

    method Remove(path: string) returns (r: Outcome)
      modifies this
      ensures calls == old(calls) + 1 && (r.Failed? <==> faults(old(calls)))
      ensures r.Missing? ==> path !in old(files)
      ensures files == if r.Done? then old(files) - {path} else old(files)
      ensures history == old(history) + [files]
    {
      r := if faults(calls) then Failed else if path !in files then Missing else Done;
      calls := calls + 1;
      if r.Done? {
        files := files - {path};
      }
      history := history + [files];
    }

    /** link(2): the new name must be free. */
    method Link(from: string, to: string) returns (ok: bool)
      modifies this
      ensures calls == old(calls) + 1
      ensures ok == (!faults(old(calls)) && from in old(files) && to !in old(files))
      ensures files == if ok then old(files)[to := old(files)[from]] else old(files)
      ensures history == old(history) + [files]
    {
      ok := !faults(calls) && from in files && to !in files;
      calls := calls + 1;
      if ok {
        files := files[to := files[from]];
      }
      history := history + [files];
    }

    method Rename(from: string, to: string) returns (ok: bool)
      modifies this
      ensures calls == old(calls) + 1
      ensures ok == (!faults(old(calls)) && from in old(files))
      ensures files == if ok then Renamed(old(files), from, to) else old(files)
      ensures history == old(history) + [files]
    {
      ok := !faults(calls) && from in files;
      calls := calls + 1;
      if ok {
        files := Renamed(files, from, to);
      }
      history := history + [files];
    }

    method Exists(path: string) returns (found: bool)
      modifies this
      ensures calls == old(calls) + 1 && found == (!faults(old(calls)) && path in old(files))
      ensures files == old(files) && history == old(history) + [files]
    {
      found := !faults(calls) && path in files;
      calls := calls + 1;
      history := history + [files];
    }
  }
}
