/**
 * The agent's bounded request journal (agent/internal/journal/journal.go): a list of finished
 * requests, an index over it, and the file it is kept in. JSON text is abstracted to its two
 * sizes, compact and indented; the file is the value it decodes to.
 */
module Journals {
  import opened Basics

  datatype Entry = Entry(
    request: string,
    action: Action,
    state: string,
    code: string,
    message: string,
    result: string,
    finishedAt: int)

  datatype Config = Config(
    maxEntries: nat,
    maxBytes: nat,
    compact: seq<Entry> -> nat,
    indented: seq<Entry> -> nat)

  ghost predicate ConfigOk(cfg: Config) {
    && 1 <= cfg.maxEntries && 1024 <= cfg.maxBytes
    && forall es :: cfg.compact(es) <= cfg.indented(es)
  }

  const FILE_VERSION := 1

  /** A file as Open sees it: its size, its permissions and what it decodes to, if anything. */
  datatype File = File(size: nat, isPrivate: bool, decoded: Option<FileData>)
  datatype FileData = FileData(version: int, entries: seq<Entry>)

  /** How far writing the file gets; a failed rename may already have removed the old file. */
  datatype Write = Installed | NotInstalled | OldFileLost

  predicate Complete(e: Entry) {
    e.request != "" && e.action != Other("") && e.state != "" && e.message != "" && e.result != ""
  }

  predicate Fits(cfg: Config, es: seq<Entry>) {
    |es| <= cfg.maxEntries && cfg.compact(es) <= cfg.maxBytes
  }

  /** What trimLocked leaves: entries are dropped from the front until the rest fits. */
  function Trim(cfg: Config, es: seq<Entry>): seq<Entry> {
    if es == [] || Fits(cfg, es) then es else Trim(cfg, es[1..])
  }

  ghost predicate Unique(es: seq<Entry>) {
    forall i, j :: 0 <= i < j < |es| ==> es[i].request != es[j].request
  }

  predicate Holds(es: seq<Entry>, id: string) {
    exists i :: 0 <= i < |es| && es[i].request == id
  }

  function Find(es: seq<Entry>, id: string): (i: nat)
    requires Holds(es, id)
    ensures i < |es| && es[i].request == id
  {
    if es[0].request == id then 0 else
      assert Holds(es[1..], id) by {
        var i :| 0 <= i < |es| && es[i].request == id;
        assert es[1..][i - 1].request == id;
      }
      1 + Find(es[1..], id)
  }

  datatype Outcome = Recorded | Already | Conflict | Incomplete | TooBig | NotWritten

  /** Record's verdict on entry `e`, given how far the write gets. */
  function RecordOutcome(cfg: Config, es: seq<Entry>, e: Entry, write: Write): Outcome {
    if !Complete(e) then Incomplete
    else if Holds(es, e.request) then
      if es[Find(es, e.request)].action != e.action then Conflict else Already
    else if Trim(cfg, es + [e]) == [] then TooBig
    else if cfg.indented(Trim(cfg, es + [e])) > cfg.maxBytes || !write.Installed? then NotWritten
    else Recorded
  }

  function RecordEntries(cfg: Config, es: seq<Entry>, e: Entry, write: Write): seq<Entry> {
    if RecordOutcome(cfg, es, e, write).Recorded? then Trim(cfg, es + [e]) else es
  }

  /** What a list of journal entries always satisfies. */
  ghost predicate EntriesOk(cfg: Config, es: seq<Entry>) {
    && Unique(es) && |es| <= cfg.maxEntries
    && forall i :: 0 <= i < |es| ==> Complete(es[i])
  }

  ghost predicate IndexOk(es: seq<Entry>, index: map<string, nat>) {
    && (forall i :: 0 <= i < |es| ==> es[i].request in index && index[es[i].request] == i)
    && (forall id :: id in index ==> index[id] < |es| && es[index[id]].request == id)
  }

  function Written(cfg: Config, es: seq<Entry>): File {
    File(cfg.indented(es), true, Some(FileData(FILE_VERSION, es)))
  }

  /** Exactly the files Open accepts; no file at all is an empty journal. */
  ghost predicate Openable(cfg: Config, file: Option<File>) {
    file.None? ||
    (&& file.value.isPrivate && file.value.size <= cfg.maxBytes && file.value.decoded.Some?
     && file.value.decoded.value.version == FILE_VERSION
     && EntriesOk(cfg, file.value.decoded.value.entries))
  }

  function Content(file: Option<File>): seq<Entry> {
    if file.Some? && file.value.decoded.Some? then file.value.decoded.value.entries else []
  }

  /** Trim keeps the longest suffix that fits both bounds. */
  lemma {:induction false} TrimKeepsLongestFittingSuffix(cfg: Config, es: seq<Entry>, k: nat)
    requires k <= |es|
    ensures |Trim(cfg, es)| <= |es| && Trim(cfg, es) == es[|es| - |Trim(cfg, es)|..]
    ensures Trim(cfg, es) == [] || Fits(cfg, Trim(cfg, es))
    ensures Fits(cfg, es[k..]) ==> |es| - k <= |Trim(cfg, es)|
  {
    if es != [] && !Fits(cfg, es) {
      if k == 0 {
        assert es[0..] == es;
        TrimKeepsLongestFittingSuffix(cfg, es[1..], 0);
      } else {
        assert es[1..][k - 1..] == es[k..];
        TrimKeepsLongestFittingSuffix(cfg, es[1..], k - 1);
      }
    }
  }

  lemma FindIsUnique(es: seq<Entry>, i: nat)
    requires Unique(es) && i < |es|
    ensures Holds(es, es[i].request) && Find(es, es[i].request) == i
  {
  }

  lemma SuffixOk(es: seq<Entry>, k: nat)
    requires k <= |es| && Unique(es)
    ensures Unique(es[k..])
  {
    forall i, j | 0 <= i < j < |es| - k ensures es[k..][i].request != es[k..][j].request {
      assert es[k..][i] == es[k + i] && es[k..][j] == es[k + j];
    }
  }

  /** A recorded entry is the last one; the others are a suffix of what was there. */
  lemma RecordedIsSuffixPlusEntry(cfg: Config, es: seq<Entry>, e: Entry, write: Write) returns (k: nat)
    requires RecordOutcome(cfg, es, e, write).Recorded?
    ensures k <= |es| && RecordEntries(cfg, es, e, write) == es[k..] + [e]
    ensures |es| - k < cfg.maxEntries
  {
    var all := es + [e];
    TrimKeepsLongestFittingSuffix(cfg, all, 0);
    k := |all| - |Trim(cfg, all)|;
    assert all[k..] == es[k..] + [e];
  }

  lemma RecordKeepsEntriesOk(cfg: Config, es: seq<Entry>, e: Entry, write: Write)
    requires EntriesOk(cfg, es)
    ensures EntriesOk(cfg, RecordEntries(cfg, es, e, write))
  {
    if RecordOutcome(cfg, es, e, write).Recorded? {
      var k := RecordedIsSuffixPlusEntry(cfg, es, e, write);
      SuffixOk(es, k);
      forall i | 0 <= i < |es| - k ensures es[k..][i] == es[k + i] && es[k + i].request != e.request {
      }
    }
  }

  /** The first `k` entries are the fewest that have to go. */
  ghost predicate FewestDropped(cfg: Config, es: seq<Entry>, k: nat)
    requires k <= |es|
  {
    && |es| - k <= cfg.maxEntries && cfg.compact(es[k..]) <= cfg.maxBytes
    && forall m: nat :: m < k ==> |es| - m > cfg.maxEntries || cfg.compact(es[m..]) > cfg.maxBytes
  }

  lemma TrimDropsFewest(cfg: Config, es: seq<Entry>)
    requires Trim(cfg, es) != []
    ensures |Trim(cfg, es)| <= |es| && FewestDropped(cfg, es, |es| - |Trim(cfg, es)|)
  {
    TrimKeepsLongestFittingSuffix(cfg, es, 0);
    forall m: nat | m < |es| - |Trim(cfg, es)| ensures !Fits(cfg, es[m..]) {
      TrimKeepsLongestFittingSuffix(cfg, es, m);
    }
  }

  /**
   * The exact condition for a new, complete entry to be recorded: after dropping the fewest old
   * entries that make the compact text fit, the indented text fits too and the write succeeds.
   */
  lemma RecordedIff(cfg: Config, es: seq<Entry>, e: Entry, write: Write)
    requires Complete(e) && !Holds(es, e.request)
    ensures RecordOutcome(cfg, es, e, write).Recorded? <==>
      write.Installed? &&
      exists k :: 0 <= k <= |es| && FewestDropped(cfg, es + [e], k) && cfg.indented((es + [e])[k..]) <= cfg.maxBytes
  {
    var all := es + [e];
    if RecordOutcome(cfg, es, e, write).Recorded? {
      TrimDropsFewest(cfg, all);
      TrimKeepsLongestFittingSuffix(cfg, all, 0);
      var k := |all| - |Trim(cfg, all)|;
      assert FewestDropped(cfg, all, k) && all[k..] == Trim(cfg, all);
    }
    if k: nat :| k <= |es| && FewestDropped(cfg, all, k) && cfg.indented(all[k..]) <= cfg.maxBytes {
      FewestIsKept(cfg, all, k);
    }
  }

  lemma FewestIsKept(cfg: Config, es: seq<Entry>, k: nat)
    requires k < |es| && FewestDropped(cfg, es, k)
    ensures Trim(cfg, es) == es[k..]
  {
    TrimKeepsLongestFittingSuffix(cfg, es, k);
    var n := |es| - |Trim(cfg, es)|;
    assert Fits(cfg, es[n..]);
  }

  /** The journal after a run of Record calls. */
  function Recording(cfg: Config, es: seq<Entry>, calls: seq<(Entry, Write)>): seq<Entry> {
    if calls == [] then es
    else
      var last := calls[|calls| - 1];
      RecordEntries(cfg, Recording(cfg, es, calls[..|calls| - 1]), last.0, last.1)
  }

  /** One call never changes the value an id has: what is still there is what was there. */
  lemma RecordKeepsValue(cfg: Config, es: seq<Entry>, e: Entry, write: Write, id: string)
    requires EntriesOk(cfg, es) && Holds(es, id) && Holds(RecordEntries(cfg, es, e, write), id)
    ensures var after := RecordEntries(cfg, es, e, write); after[Find(after, id)] == es[Find(es, id)]
  {
    RecordKeepsEntriesOk(cfg, es, e, write);
    if RecordOutcome(cfg, es, e, write).Recorded? {
      var after := RecordEntries(cfg, es, e, write);
      var k := RecordedIsSuffixPlusEntry(cfg, es, e, write);
      var i := Find(after, id);
      assert id != e.request && i < |es| - k;
      assert after[i] == es[k + i];
      FindIsUnique(es, k + i);
    }
  }

  /** Over any run of Record calls that retains an id throughout, the id keeps its first value. */
  lemma {:induction false} RetainedIdKeepsFirstValue(cfg: Config, es: seq<Entry>, calls: seq<(Entry, Write)>,
                                                     id: string)
    requires EntriesOk(cfg, es)
    requires forall n :: 0 <= n <= |calls| ==> Holds(Recording(cfg, es, calls[..n]), id)
    ensures EntriesOk(cfg, Recording(cfg, es, calls))
    ensures Holds(es, id) && Holds(Recording(cfg, es, calls), id)
    ensures var after := Recording(cfg, es, calls); after[Find(after, id)] == es[Find(es, id)]
  {
    assert calls[..|calls|] == calls && calls[..0] == [];
    if calls != [] {
      var shorter, last := calls[..|calls| - 1], calls[|calls| - 1];
      forall n | 0 <= n <= |shorter| ensures Holds(Recording(cfg, es, shorter[..n]), id) {
        assert shorter[..n] == calls[..n];
      }
      RetainedIdKeepsFirstValue(cfg, es, shorter, id);
      RecordKeepsEntriesOk(cfg, Recording(cfg, es, shorter), last.0, last.1);
      RecordKeepsValue(cfg, Recording(cfg, es, shorter), last.0, last.1, id);
    }
  }

  /** The verdict on an entry, on its texts and the entries before it. */
  lemma OutcomeOnFields(cfg: Config, es: seq<Entry>, e: Entry, write: Write)
    requires Unique(es)
    ensures var outcome := RecordOutcome(cfg, es, e, write);
      && (outcome == Incomplete <==>
            e.request == "" || e.action == Other("") || e.state == "" || e.message == "" || e.result == "")
      && (outcome != Incomplete ==>
            (outcome == Conflict <==>
              exists i :: 0 <= i < |es| && es[i].request == e.request && es[i].action != e.action))
      && (outcome != Incomplete ==>
            (outcome == Already <==>
              exists i :: 0 <= i < |es| && es[i].request == e.request && es[i].action == e.action))
      && (outcome != Recorded ==> RecordEntries(cfg, es, e, write) == es)
  {
    if Holds(es, e.request) {
      var k := Find(es, e.request);
      assert forall i :: 0 <= i < |es| && es[i].request == e.request ==> i == k;
    }
  }

  /** Open accepts what a successful Record wrote and gives back the same entries. */
  lemma ReopenAfterRecord(cfg: Config, es: seq<Entry>, e: Entry, write: Write)
    requires EntriesOk(cfg, es) && RecordOutcome(cfg, es, e, write).Recorded?
    ensures var file := Some(Written(cfg, RecordEntries(cfg, es, e, write)));
      && Openable(cfg, file) && Content(file) == RecordEntries(cfg, es, e, write)
      && file.value.isPrivate && file.value.size <= cfg.maxBytes && file.value.decoded.value.version == 1
  {
    RecordKeepsEntriesOk(cfg, es, e, write);
  }

  class Journal {
    const cfg: Config
    var entries: seq<Entry>
    var index: map<string, nat>
    var file: Option<File>

    ghost predicate Valid()
      reads this
    {
      && ConfigOk(cfg)
      && EntriesOk(cfg, entries)
      && IndexOk(entries, index)
      && (file.Some? ==> Openable(cfg, file) && Content(file) == entries)
    }

    constructor (cfg: Config)
      requires ConfigOk(cfg)
      ensures Valid() && this.cfg == cfg && entries == [] && file == None
    {
      this.cfg := cfg;
      entries, index, file := [], map[], None;
    }

    /** Open: an error exactly on the files that are not Openable, otherwise their entries. */
    static method Open(cfg: Config, file: Option<File>) returns (j: Journal?)
      requires ConfigOk(cfg)
      ensures (j != null) <==> Openable(cfg, file)
      ensures j != null ==> fresh(j) && j.Valid() && j.cfg == cfg && j.entries == Content(file) && j.file == file
    {
      j := new Journal(cfg);
      if file.None? {
        return;
      }
      if !file.value.isPrivate || file.value.size > cfg.maxBytes || file.value.decoded.None? {
        return null;
      }
      var data := file.value.decoded.value;
      if data.version != FILE_VERSION || |data.entries| > cfg.maxEntries {
        return null;
      }
      var index: map<string, nat> := map[];
      for i := 0 to |data.entries|
        invariant IndexOk(data.entries[..i], index)
        invariant Unique(data.entries[..i])
        invariant forall k :: 0 <= k < i ==> Complete(data.entries[k])
      {
        var entry := data.entries[i];
        if !Complete(entry) {
          return null;
        }
        if entry.request in index {
          assert data.entries[..i][index[entry.request]] == data.entries[index[entry.request]];
          return null;
        }
        index := index[entry.request := i];
      }
      assert data.entries[..|data.entries|] == data.entries;
      j.entries, j.index, j.file := data.entries, index, file;
    }

    method Lookup(id: string) returns (found: Option<Entry>)
      requires Valid()
      ensures found.Some? <==> Holds(entries, id)
      ensures found.Some? ==> found.value == entries[Find(entries, id)]
    {
      if id !in index {
        return None;
      }
      FindIsUnique(entries, index[id]);
      found := Some(entries[index[id]]);
    }

    /** Record, with `write` telling how far replacing the file gets. */
    method Record(entry: Entry, write: Write) returns (outcome: Outcome)
      requires Valid()
      modifies this`entries, this`index, this`file
      ensures Valid()
      ensures outcome == RecordOutcome(cfg, old(entries), entry, write)
      ensures entries == RecordEntries(cfg, old(entries), entry, write)
      ensures !outcome.Recorded? ==> index == old(index)
      ensures outcome.Recorded? ==> file == Some(Written(cfg, entries))
      ensures !outcome.Recorded? ==> file == old(file) || (file == None && outcome.NotWritten? && write.OldFileLost?)
    {
      IndexedIffHeld(entries, index, entry.request);
      if !Complete(entry) {
        return Incomplete;
      }
      if entry.request in index {
        FindIsUnique(entries, index[entry.request]);
        if entries[index[entry.request]].action != entry.action {
          return Conflict;
        }
        return Already;
      }
      outcome := Append(entry, write);
    }

    /** The rest of Record, for an id that is not in the journal: add, trim, write, or roll back. */
    method Append(entry: Entry, write: Write) returns (outcome: Outcome)
      requires Valid() && Complete(entry) && !Holds(entries, entry.request)
      modifies this`entries, this`index, this`file
      ensures Valid()
      ensures outcome == RecordOutcome(cfg, old(entries), entry, write)
      ensures entries == RecordEntries(cfg, old(entries), entry, write)
      ensures !outcome.Recorded? ==> index == old(index)
      ensures outcome.Recorded? ==> file == Some(Written(cfg, entries))
      ensures !outcome.Recorded? ==> file == old(file) || (file == None && outcome.NotWritten? && write.OldFileLost?)
    {
      RecordKeepsEntriesOk(cfg, entries, entry, write);
      IndexedIffHeld(entries, index, entry.request);
      var previous := entries;
      ghost var indexBefore := index;
      entries := entries + [entry];
      index := index[entry.request := |entries| - 1];
      ExtendIndex(previous, entry, indexBefore);
      TrimLocked();
      if entry.request !in index {
        Rollback(previous, indexBefore);
        return TooBig;
      }
      assert entries != [] && entries == Trim(cfg, previous + [entry]);
      var ok := Persist(write);
      if !ok {
        Rollback(previous, indexBefore);
        return NotWritten;
      }
      outcome := Recorded;
    }

    method Rollback(previous: seq<Entry>, ghost indexBefore: map<string, nat>)
      requires Unique(previous) && IndexOk(previous, indexBefore)
      modifies this`entries, this`index
      ensures entries == previous && index == indexBefore
    {
      entries := previous;
      RebuildIndex();
      IndexIsUnique(entries, index, indexBefore);
    }

    method TrimLocked()
      requires IndexOk(entries, index) && Unique(entries)
      modifies this`entries, this`index
      ensures entries == Trim(cfg, old(entries))
      ensures IndexOk(entries, index) && Unique(entries)
      ensures old(entries) != [] ==> (old(entries)[|old(entries)| - 1].request in index <==> entries != [])
    {
      while |entries| > cfg.maxEntries || cfg.compact(entries) > cfg.maxBytes
        invariant IndexOk(entries, index) && Unique(entries)
        invariant Trim(cfg, entries) == Trim(cfg, old(entries))
        invariant entries != [] ==> old(entries) != [] && entries[|entries| - 1] == old(entries)[|old(entries)| - 1]
        decreases |entries|
      {
        if |entries| == 0 {
          break;
        }
        SuffixOk(entries, 1);
        entries := entries[1..];
        RebuildIndex();
      }
    }

    method RebuildIndex()
      requires Unique(entries)
      modifies this`index
      ensures IndexOk(entries, index)
    {
      index := map[];
      for i := 0 to |entries|
        invariant IndexOk(entries[..i], index)
      {
        assert entries[i].request !in index;
        index := index[entries[i].request := i];
      }
      assert entries[..|entries|] == entries;
    }

    /** persistLocked: the indented text must fit as well, and the write must succeed. */
    method Persist(write: Write) returns (ok: bool)
      modifies this`file
      ensures ok <==> cfg.indented(entries) <= cfg.maxBytes && write.Installed?
      ensures ok ==> file == Some(Written(cfg, entries))
      ensures !ok ==> file == old(file) || (file == None && write.OldFileLost?)
    {
      if cfg.indented(entries) > cfg.maxBytes {
        return false;
      }
      match write
      case Installed =>
        file := Some(Written(cfg, entries));
        ok := true;
      case NotInstalled =>
        ok := false;
      case OldFileLost =>
        file := None;
        ok := false;
    }
  }

  lemma ExtendIndex(es: seq<Entry>, e: Entry, index: map<string, nat>)
    requires Unique(es) && IndexOk(es, index) && e.request !in index
    ensures Unique(es + [e]) && IndexOk(es + [e], index[e.request := |es|])
    ensures !Holds(es, e.request)
  {
    assert forall i :: 0 <= i < |es| ==> (es + [e])[i] == es[i] && es[i].request in index;
  }

  lemma IndexedIffHeld(es: seq<Entry>, index: map<string, nat>, id: string)
    requires IndexOk(es, index)
    ensures id in index <==> Holds(es, id)
  {
  }

  /** The index is determined by the entries. */
  lemma IndexIsUnique(es: seq<Entry>, a: map<string, nat>, b: map<string, nat>)
    requires IndexOk(es, a) && IndexOk(es, b)
    ensures a == b
  {
    forall id ensures id in a <==> id in b {
    }
    forall id | id in a ensures a[id] == b[id] {
      assert es[a[id]].request == id;
    }
  }
}
