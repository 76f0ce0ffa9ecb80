/** The scheduler lease (server/app/scheduler.py): any number of owners, one shared clock that never goes back. */
module Leases {
  import opened Basics

  /** The single row of scheduler_leases. */
  datatype Row = Row(owner: int, until: int)

  predicate Grants(row: Option<Row>, owner: int, now: int) {
    row.None? || row.value.owner == owner || row.value.until <= now
  }

  function Length(interval: int): int {
    if interval * 3 < 10 then 10 else interval * 3
  }

  /** `lastUntil` remembers, per owner, until when its latest successful acquisition runs. */
  datatype State = State(row: Option<Row>, now: int, lastUntil: map<int, int>)

  /** An acquisition reads the clock before its transaction begins: the reading may be of any age. */
  datatype Op = Wait(seconds: nat) | Acquire(owner: int, interval: int, age: nat)

  function Apply(s: State, op: Op): State {
    match op
    case Wait(seconds) => s.(now := s.now + seconds)
    case Acquire(owner, interval, age) =>
      var read := s.now - age;
      if !Grants(s.row, owner, read) then s
      else
        var until := read + Length(interval);
        s.(row := Some(Row(owner, until)), lastUntil := s.lastUntil[owner := until])
  }

  function After(start: int, ops: seq<Op>): State {
    if ops == [] then State(None, start, map[]) else Apply(After(start, ops[..|ops| - 1]), ops[|ops| - 1])
  }

  predicate Holds(s: State, owner: int) {
    owner in s.lastUntil && s.now < s.lastUntil[owner]
  }

  /** Whoever is not in the row has run out; whoever is, ends when the row says. */
  ghost predicate Inv(s: State) {
    forall owner :: owner in s.lastUntil ==>
      s.row.Some?
      && (if s.row.value.owner == owner then s.lastUntil[owner] == s.row.value.until else s.lastUntil[owner] <= s.now)
  }

  lemma {:induction false} ReachableInv(start: int, ops: seq<Op>)
    ensures Inv(After(start, ops))
  {
    if ops != [] {
      ReachableInv(start, ops[..|ops| - 1]);
    }
  }

  /** At any moment at most one owner's latest acquisition has not run out, and it is the owner in the row. */
  lemma OneHolder(start: int, ops: seq<Op>, a: int, b: int)
    requires Holds(After(start, ops), a)
    ensures After(start, ops).row == Some(Row(a, After(start, ops).lastUntil[a]))
    ensures Holds(After(start, ops), b) ==> a == b
  {
    ReachableInv(start, ops);
  }

  /** With a fresh reading of the clock, an acquisition is refused exactly while another owner's has not run out. */
  lemma RefusedIffHeldByAnother(start: int, ops: seq<Op>, owner: int)
    ensures Grants(After(start, ops).row, owner, After(start, ops).now) <==>
      !exists other :: other != owner && Holds(After(start, ops), other)
  {
    ReachableInv(start, ops);
    RowIsRemembered(start, ops);
    var s := After(start, ops);
    if !Grants(s.row, owner, s.now) {
      assert Holds(s, s.row.value.owner);
    }
  }

  /**
   * With a reading of any age it is refused at least then, and only if another owner's acquisition outlasts
   * the reading.
   */
  lemma OldReadingRefusesMore(start: int, ops: seq<Op>, owner: int, age: nat)
    ensures var s := After(start, ops);
      && ((exists other :: other != owner && Holds(s, other)) ==> !Grants(s.row, owner, s.now - age))
      && (!Grants(s.row, owner, s.now - age) <==>
            s.row.Some? && s.row.value.owner != owner && s.row.value.owner in s.lastUntil
            && s.now - age < s.lastUntil[s.row.value.owner])
  {
    ReachableInv(start, ops);
    RowIsRemembered(start, ops);
  }

  /** The row always records the latest acquisition of its owner. */
  lemma {:induction false} RowIsRemembered(start: int, ops: seq<Op>)
    ensures var s := After(start, ops);
      s.row.Some? ==> s.row.value.owner in s.lastUntil && s.lastUntil[s.row.value.owner] == s.row.value.until
  {
    if ops != [] {
      RowIsRemembered(start, ops[..|ops| - 1]);
    }
  }

  /** While the row's lease runs, nobody but its owner changes the row. */
  lemma {:induction false} NoOneElseGets(start: int, before: seq<Op>, more: seq<Op>, owner: int, end: int)
    requires After(start, before).row == Some(Row(owner, end))
    requires forall i :: 0 <= i < |more| && more[i].Acquire? ==> more[i].owner != owner
    ensures var e := After(start, before + more);
      && After(start, before).now <= e.now
      && (e.now < end ==> e.row == Some(Row(owner, end)))
      && (owner in After(start, before).lastUntil ==>
            owner in e.lastUntil && e.lastUntil[owner] == After(start, before).lastUntil[owner])
  {
    if more == [] {
      assert before + more == before;
    } else {
      NoOneElseGets(start, before, more[..|more| - 1], owner, end);
      assert (before + more)[..|before + more| - 1] == before + more[..|more| - 1];
    }
  }

  /**
   * How long a lease lasts: granted on the reading `now - age`, it keeps every other owner out for ten seconds and for
   * three intervals after that reading, whatever anyone tries in between.
   */
  lemma GrantKeepsOthersOut(start: int, ops: seq<Op>, owner: int, interval: int, age: nat, more: seq<Op>, other: int,
                            otherInterval: int, otherAge: nat)
    requires var s := After(start, ops);
      s.row == None || s.row.value.owner == owner || s.row.value.until <= s.now - age
    requires forall i :: 0 <= i < |more| && more[i].Acquire? ==> more[i].owner != owner
    requires other != owner
    ensures var read := After(start, ops).now - age;
      var run := ops + [Acquire(owner, interval, age)] + more;
      var e, tried := After(start, run), After(start, run + [Acquire(other, otherInterval, otherAge)]);
      e.now < read + 10 || e.now < read + 3 * interval ==> tried == e && Holds(e, owner)
    ensures var read := After(start, ops).now - age;
      var e := After(start, ops + [Acquire(owner, interval, age)] + more);
      read + 10 <= e.now && read + 3 * interval <= e.now ==> !Holds(e, owner)
  {
    var op, last := Acquire(owner, interval, age), Acquire(other, otherInterval, otherAge);
    assert (ops + [op])[..|ops|] == ops;
    assert (ops + [op] + more + [last])[..|ops + [op] + more|] == ops + [op] + more;
    NoOneElseGets(start, ops + [op], more, owner, After(start, ops + [op]).row.value.until);
  }

  /** A moment with nothing but waiting since the grant. */
  lemma {:induction false} Waiting(start: int, before: seq<Op>, more: seq<Op>)
    requires forall i :: 0 <= i < |more| ==> more[i].Wait?
    ensures After(start, before + more).row == After(start, before).row
  {
    if more == [] {
      assert before + more == before;
    } else {
      Waiting(start, before, more[..|more| - 1]);
      assert (before + more)[..|before + more| - 1] == before + more[..|more| - 1];
    }
  }

  /** The exact reading from which on a lease is free for another owner, when nobody else came before. */
  lemma GrantEnds(start: int, ops: seq<Op>, owner: int, interval: int, age: nat, more: seq<Op>, other: int,
                  otherInterval: int, otherAge: nat)
    requires var s := After(start, ops);
      s.row == None || s.row.value.owner == owner || s.row.value.until <= s.now - age
    requires other != owner && forall i :: 0 <= i < |more| ==> more[i].Wait?
    ensures var read := After(start, ops).now - age;
      var run := ops + [Acquire(owner, interval, age)] + more;
      var again := After(start, run).now - otherAge;
      var tried := After(start, run + [Acquire(other, otherInterval, otherAge)]);
      && (again < read + 10 || again < read + 3 * interval ==> tried.row == After(start, run).row)
      && (tried.row.Some? && tried.row.value.owner == other <==> read + 10 <= again && read + 3 * interval <= again)
  {
    var op, last := Acquire(owner, interval, age), Acquire(other, otherInterval, otherAge);
    assert (ops + [op])[..|ops|] == ops;
    assert (ops + [op] + more + [last])[..|ops + [op] + more|] == ops + [op] + more;
    Waiting(start, ops + [op], more);
  }

  class LeaseTable {
    var row: Option<Row>
    ghost var now: int
    ghost var lastUntil: map<int, int>

    ghost function View(): State
      reads this
    {
      State(row, now, lastUntil)
    }

    /** At most the owner in the row holds the lease, until when the row says. */
    ghost predicate Valid()
      reads this
    {
      Inv(View())
    }

    constructor (now: int)
      ensures Valid() && View() == State(None, now, map[])
    {
      row, this.now, lastUntil := None, now, map[];
    }

    /** Time passes between the calls. */
    ghost method Wait(seconds: nat)
      requires Valid()
      modifies this`now
      ensures Valid() && now == old(now) + seconds
    {
      now := now + seconds;
    }

    /** _acquire_lease of the scheduler `owner`, which read the clock as `read` before its transaction. */
    method Acquire(owner: int, interval: int, read: int) returns (granted: bool)
      requires Valid() && read <= now
      modifies this
      ensures Valid() && View() == Apply(old(View()), Op.Acquire(owner, interval, old(now) - read))
      ensures granted <==> old(row) == None || old(row).value.owner == owner || old(row).value.until <= read
      ensures granted ==>
        && row.Some? && row.value.owner == owner && lastUntil == old(lastUntil)[owner := row.value.until]
        && read + 10 <= row.value.until && read + 3 * interval <= row.value.until
        && (row.value.until == read + 10 || row.value.until == read + 3 * interval)
      ensures granted ==> forall other :: other != owner ==> !Holds(View(), other)
      ensures !granted ==> row == old(row) && lastUntil == old(lastUntil)
    {
      var wait := interval * 3;
      var until := read + (if wait > 10 then wait else 10);
      if row.Some? && row.value.owner != owner {
        if row.value.until > read {
          return false;
        }
      }
      row := Some(Row(owner, until));
      lastUntil := lastUntil[owner := until];
      granted := true;
    }
  }
}
