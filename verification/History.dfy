/** The history of address changes, cut to the latest hundred per node after every record (server/app/nodes.py). */
module History {
  import opened Basics
  import R = Requests

  /** A row of ip_change_history; ids are ordered as their texts are. */
  datatype Row = Row(id: int, node: string, request: string, success: bool, code: Option<string>,
                     message: Option<string>, result: string, at: int)

  const LIMIT: nat := 100

  /** The row record_ip_change builds: a success carries no error. */
  function RowOf(id: int, c: R.Change, now: int): Row {
    Row(id, c.node, c.request, c.success, if c.success then None else c.code, if c.success then None else c.message,
        c.text, now)
  }

  /** The history agrees with the result row that was stored for the same report. */
  lemma HistoryAgreesWithResult(s: R.Store, node: string, id: string, report: R.Report, row: int, now: int)
    requires R.ChangeOf(s, node, id, report).Some?
    ensures var h := RowOf(row, R.ChangeOf(s, node, id, report).value, now);
      var results := R.Finish(s, node, id, report, now).results;
      && |results| == |s.results| + 1
      && var stored := results[|s.results|];
         && h.node == stored.node && h.request == stored.request && h.success == stored.success
         && h.code == stored.errorCode && h.message == stored.errorMessage
  {
  }

  /** ORDER BY created_at DESC, id DESC */
  predicate Precedes(x: Row, y: Row) {
    x.at > y.at || (x.at == y.at && x.id > y.id)
  }

  function Preceding(rows: set<Row>, r: Row): set<Row> {
    set x | x in rows && Precedes(x, r)
  }

  /** The first `n` rows in that order: those with fewer than `n` before them. */
  function Top(rows: set<Row>, n: nat): set<Row> {
    set r | r in rows && |Preceding(rows, r)| < n
  }

  function Of(rows: set<Row>, node: string): set<Row> {
    set r | r in rows && r.node == node
  }

  predicate Ignored(table: set<Row>, row: Row) {
    exists x :: x in table && x.request == row.request
  }

  /** INSERT OR IGNORE: a request is recorded once. */
  function Inserted(table: set<Row>, row: Row): set<Row> {
    if Ignored(table, row) then table else table + {row}
  }

  /** Keeps every other node's rows and the first hundred of this one. */
  function Trimmed(table: set<Row>, node: string): set<Row> {
    set r | r in table && (r.node == node ==> r in Top(Of(table, node), LIMIT))
  }

  function Record(table: set<Row>, row: Row): set<Row> {
    Trimmed(Inserted(table, row), row.node)
  }

  ghost predicate DistinctIds(rows: set<Row>) {
    forall x, y :: x in rows && y in rows && x.id == y.id ==> x == y
  }

  // Order and size.

  lemma SubsetIsSmaller(s: set<Row>, t: set<Row>)
    requires s <= t
    ensures |s| <= |t|
  {
    assert t == s + (t - s);
    assert |t| == |s| + |t - s|;
  }

  /** A nonempty set has a row that all others precede. */
  lemma {:induction false} LastRow(rows: set<Row>) returns (m: Row)
    requires DistinctIds(rows) && exists x :: x in rows
    ensures m in rows && forall x :: x in rows && x != m ==> Precedes(x, m)
    decreases rows
  {
    var r :| r in rows;
    m := r;
    var rest := rows - {r};
    if exists x :: x in rest {
      var k := LastRow(rest);
      m := if Precedes(r, k) then k else r;
      assert r.id != k.id;
      forall x | x in rows && x != m ensures Precedes(x, m) {
        assert x == r || x == k || Precedes(x, k);
      }
    } else {
      assert rows == rest + {r};
    }
  }

  /** Dropping the last row changes nobody else's position. */
  lemma TopWithoutLast(rows: set<Row>, m: Row, n: nat)
    requires DistinctIds(rows) && m in rows && |rows| > n
    requires forall x :: x in rows && x != m ==> Precedes(x, m)
    ensures Top(rows, n) == Top(rows - {m}, n)
  {
    assert Preceding(rows, m) == rows - {m};
    forall r | r in rows && r != m ensures Preceding(rows, r) == Preceding(rows - {m}, r) {
    }
  }

  /** The first `n` of a set are `n` rows, or all there are. */
  lemma {:induction false} TopSize(rows: set<Row>, n: nat)
    requires DistinctIds(rows)
    ensures |Top(rows, n)| == if |rows| <= n then |rows| else n
    ensures |rows| <= n ==> Top(rows, n) == rows
    decreases |rows|
  {
    if |rows| <= n {
      forall r | r in rows ensures |Preceding(rows, r)| < n {
        SubsetIsSmaller(Preceding(rows, r), rows - {r});
      }
      assert Top(rows, n) == rows;
    } else {
      assert |rows| != 0;
      var m := LastRow(rows);
      TopWithoutLast(rows, m, n);
      TopSize(rows - {m}, n);
    }
  }

  /** What precedes a row of the first `n` is among them too. */
  lemma TopIsClosed(rows: set<Row>, x: Row, r: Row, n: nat)
    requires r in Top(rows, n) && x in rows && Precedes(x, r)
    ensures x in Top(rows, n)
  {
    SubsetIsSmaller(Preceding(rows, x), Preceding(rows, r));
  }

  /** A row is beaten by `n` of all rows exactly if it is beaten by `n` of the first `n`. */
  lemma BeatenByTheTop(rows: set<Row>, row: Row, n: nat)
    requires DistinctIds(rows + {row})
    ensures |Preceding(rows, row)| < n <==> |Preceding(Top(rows, n), row)| < n
  {
    var above := Preceding(rows, row);
    SubsetIsSmaller(Preceding(Top(rows, n), row), above);
    if |above| >= n {
      TopSize(above, n);
      forall x | x in Top(above, n) ensures x in Preceding(Top(rows, n), row) {
        assert Preceding(rows, x) == Preceding(above, x);
      }
      SubsetIsSmaller(Top(above, n), Preceding(Top(rows, n), row));
    }
  }

  /** Trimming before the next row comes makes no difference after it. */
  lemma TopOfTop(rows: set<Row>, row: Row, n: nat)
    requires DistinctIds(rows + {row}) && row !in rows
    ensures Top(Top(rows, n) + {row}, n) == Top(rows + {row}, n)
  {
    var top, all := Top(rows, n) + {row}, rows + {row};
    assert Preceding(top, row) == Preceding(Top(rows, n), row);
    assert Preceding(all, row) == Preceding(rows, row);
    BeatenByTheTop(rows, row, n);
    forall r | r in rows ensures r in Top(top, n) <==> r in Top(all, n) {
      SubsetIsSmaller(Preceding(rows, r), Preceding(all, r));
      if r in Top(rows, n) {
        forall x | x in rows && Precedes(x, r) ensures x in Top(rows, n) {
          TopIsClosed(rows, x, r, n);
        }
        assert Preceding(top, r) == Preceding(all, r);
      }
    }
  }

  // Any sequence of records.

  /** The table, and all rows that were ever put into it. */
  datatype State = State(table: set<Row>, ever: set<Row>)

  function Apply(s: State, row: Row): State {
    State(Record(s.table, row), if Ignored(s.table, row) then s.ever else s.ever + {row})
  }

  function After(rows: seq<Row>): State {
    if rows == [] then State({}, {}) else Apply(After(rows[..|rows| - 1]), rows[|rows| - 1])
  }

  /** Every row has an id of its own. */
  ghost predicate FreshIds(rows: seq<Row>) {
    forall i, j :: 0 <= i < j < |rows| ==> rows[i].id != rows[j].id
  }

  lemma {:induction false} EverIsOffered(rows: seq<Row>)
    ensures forall r :: r in After(rows).ever ==> r in rows
  {
    if rows != [] {
      EverIsOffered(rows[..|rows| - 1]);
    }
  }

  lemma TrimmedIsTop(table: set<Row>, row: Row)
    requires !Ignored(table, row)
    ensures Of(Record(table, row), row.node) == Top(Of(table, row.node) + {row}, LIMIT)
  {
    assert Of(table + {row}, row.node) == Of(table, row.node) + {row};
  }

  lemma NodeAfterRecord(s: State, row: Row, node: string)
    requires DistinctIds(s.ever + {row}) && row !in s.ever
    requires Of(s.table, node) == Top(Of(s.ever, node), LIMIT)
    ensures Of(Apply(s, row).table, node) == Top(Of(Apply(s, row).ever, node), LIMIT)
  {
    var t := Apply(s, row);
    var before := Of(s.ever, node);
    if node != row.node {
      assert Of(t.table, node) == Of(s.table, node) && Of(t.ever, node) == before;
    } else if Ignored(s.table, row) {
      assert Of(t.table, node) == Top(Of(s.table, node), LIMIT) && t.ever == s.ever;
      TopSize(before, LIMIT);
      TopSize(Top(before, LIMIT), LIMIT);
    } else {
      assert Of(t.ever, node) == before + {row};
      TrimmedIsTop(s.table, row);
      TopOfTop(before, row, LIMIT);
    }
  }

  /** After any records, a node's table is the first hundred of all rows it was ever given, and no larger. */
  lemma {:induction false} TableIsTopOfAll(rows: seq<Row>, node: string)
    requires FreshIds(rows)
    ensures Of(After(rows).table, node) == Top(Of(After(rows).ever, node), LIMIT)
    ensures |Of(After(rows).table, node)| <= LIMIT
    ensures DistinctIds(After(rows).ever)
  {
    if rows != [] {
      var front, row := rows[..|rows| - 1], rows[|rows| - 1];
      TableIsTopOfAll(front, node);
      EverIsOffered(front);
      assert row !in front;
      NodeAfterRecord(After(front), row, node);
    } else {
      assert Of({}, node) == Top({}, LIMIT) == {};
    }
    TopSize(Of(After(rows).ever, node), LIMIT);
  }

  lemma LatestOfAll(rows: seq<Row>)
    requires FreshIds(rows)
    ensures LatestHundred(After(rows).table, After(rows).ever)
  {
    TableIsTopOfAll(rows, "");
    forall node ensures Of(After(rows).table, node) == Top(Of(After(rows).ever, node), LIMIT) {
      TableIsTopOfAll(rows, node);
    }
    TopsAreLatest(After(rows).table, After(rows).ever);
  }

  lemma {:induction false} TableIsWithinEver(rows: seq<Row>)
    ensures After(rows).table <= After(rows).ever
  {
    if rows != [] {
      TableIsWithinEver(rows[..|rows| - 1]);
    }
  }

  /** When every request is recorded once, the table is the first hundred of all rows that were offered. */
  lemma {:induction false} NothingIsIgnored(rows: seq<Row>)
    requires forall i, j :: 0 <= i < j < |rows| ==> rows[i].request != rows[j].request
    ensures forall r :: r in After(rows).ever <==> r in rows
  {
    if rows != [] {
      var front, row := rows[..|rows| - 1], rows[|rows| - 1];
      NothingIsIgnored(front);
      TableIsWithinEver(front);
      assert !Ignored(After(front).table, row);
      assert rows == front + [row];
    }
  }

  /** A row of the first `n` is later than one that is not, or of the same time and with the larger id. */
  lemma TopIsLatest(rows: set<Row>, n: nat, kept: Row, dropped: Row)
    requires DistinctIds(rows) && kept in Top(rows, n) && dropped in rows && dropped !in Top(rows, n)
    ensures kept.at > dropped.at || (kept.at == dropped.at && kept.id > dropped.id)
  {
    if !Precedes(kept, dropped) {
      assert kept.id != dropped.id && Precedes(dropped, kept);
      TopIsClosed(rows, dropped, kept, n);
    }
  }

  /** Of every node the latest hundred rows are kept, by time and then by id, or all if there are no more. */
  ghost predicate LatestHundred(rows: set<Row>, ever: set<Row>) {
    && (forall node :: |Of(rows, node)| == if |Of(ever, node)| <= 100 then |Of(ever, node)| else 100)
    && forall kept, dropped ::
         kept in rows && dropped in ever && dropped !in rows && kept.node == dropped.node ==>
           kept.at > dropped.at || (kept.at == dropped.at && kept.id > dropped.id)
  }

  lemma TopsAreLatest(rows: set<Row>, ever: set<Row>)
    requires DistinctIds(ever) && forall node :: Of(rows, node) == Top(Of(ever, node), LIMIT)
    ensures LatestHundred(rows, ever)
  {
    forall kept, dropped | kept in rows && dropped in ever && dropped !in rows && kept.node == dropped.node
      ensures kept.at > dropped.at || (kept.at == dropped.at && kept.id > dropped.id)
    {
      assert kept in Of(rows, kept.node) && dropped !in Of(rows, kept.node);
      TopIsLatest(Of(ever, kept.node), LIMIT, kept, dropped);
    }
    forall node ensures |Of(rows, node)| == if |Of(ever, node)| <= 100 then |Of(ever, node)| else 100 {
      TopSize(Of(ever, node), LIMIT);
    }
  }

  class HistoryTable {
    var rows: set<Row>
    ghost var ever: set<Row>

    /** Every node's rows are the first hundred of all that were ever put in for it. */
    ghost predicate Valid()
      reads this
    {
      && rows <= ever && DistinctIds(ever)
      && forall node :: Of(rows, node) == Top(Of(ever, node), LIMIT)
    }

    constructor ()
      ensures Valid() && rows == {} && ever == {}
    {
      rows, ever := {}, {};
      new;
      forall node ensures Of(rows, node) == Top(Of(ever, node), LIMIT) {
        NothingYet(node);
      }
    }

    /**
     * The history part of record_ip_change: insert, then delete what is not among the first hundred of the node.
     * The row's id is drawn at random.
     */
    method RecordIpChange(id: int, change: R.Change, now: int) returns (ghost ignored: bool)
      requires Valid() && forall r :: r in ever ==> r.id != id
      modifies this
      ensures Valid() && rows == Record(old(rows), RowOf(id, change, now))
      ensures ignored <==> exists x :: x in old(rows) && x.request == change.request
      ensures ever == if ignored then old(ever) else old(ever) + {RowOf(id, change, now)}
      ensures LatestHundred(rows, ever)
      ensures !ignored ==>
        Row(id, change.node, change.request, change.success, if change.success then None else change.code,
            if change.success then None else change.message, change.text, now) in ever
      ensures forall r: Row :: r.node != change.node ==> (r in rows <==> r in old(rows))
    {
      var row := RowOf(id, change, now);
      RecordKeepsTop(rows, ever, row);
      var known := exists x :: x in rows && x.request == row.request;
      ignored := known;
      if !known {
        rows := rows + {row};
        ever := ever + {row};
      }
      var mine := set r | r in rows && r.node == row.node;
      var kept := set r | r in mine && |set x | x in mine && Precedes(x, r)| < LIMIT;
      KeptIsTop(mine, kept);
      rows := set r | r in rows && (r.node != row.node || r in kept);
      assert rows == Record(old(rows), row);
      TopsAreLatest(rows, ever);
    }
  }

  lemma KeptIsTop(mine: set<Row>, kept: set<Row>)
    requires kept == set r | r in mine && |set x | x in mine && Precedes(x, r)| < LIMIT
    ensures kept == Top(mine, LIMIT)
  {
    assert forall r :: r in mine ==> Preceding(mine, r) == (set x | x in mine && Precedes(x, r));
  }

  lemma NothingYet(node: string)
    ensures Of({}, node) == {} && Top({}, LIMIT) == {}
  {
  }

  /** One record keeps what Valid() says, for every node. */
  lemma RecordKeepsTop(table: set<Row>, ever: set<Row>, row: Row)
    requires table <= ever && DistinctIds(ever) && forall r :: r in ever ==> r.id != row.id
    requires forall node :: Of(table, node) == Top(Of(ever, node), LIMIT)
    ensures var now := Apply(State(table, ever), row);
      && now.table <= now.ever && DistinctIds(now.ever)
      && forall node :: Of(now.table, node) == Top(Of(now.ever, node), LIMIT) && |Of(now.table, node)| <= LIMIT
  {
    var now := Apply(State(table, ever), row);
    forall node ensures Of(now.table, node) == Top(Of(now.ever, node), LIMIT) && |Of(now.table, node)| <= LIMIT {
      NodeAfterRecord(State(table, ever), row, node);
      TopSize(Of(now.ever, node), LIMIT);
    }
  }
}
