/**
  internal/db/inserter.go: rows buffered per table and column list and flushed in one transaction, and
  rows inserted at once under savepoints.
 */
module Inserter {
  import opened Tables
  import opened Options

  // ---------------------------------------------------------------------------------------------
  // What the database accepts

  /** Whether a row fits the schema of a table. */
  type Schema = (Table, Row) -> bool

  predicate HasLogHeight(rows: seq<Row>, height: int) {
    exists r | r in rows :: r.LogRow? && r.height == height
  }

  /** The keys of a table: height and time are unique in `block_log`, height is in `blocks`; the other tables have none. */
  predicate Clash(table: Table, a: Row, b: Row) {
    match table
    case BlockLog => a.LogRow? && b.LogRow? && (a.height == b.height || a.time == b.time)
    case Blocks => a.BlockRow? && b.BlockRow? && a.height == b.height
    case _ => false
  }

  predicate ClashesNone(table: Table, rows: seq<Row>, row: Row) {
    forall r | r in rows :: !Clash(table, r, row)
  }

  /** `blocks.height` references `block_log.height`. */
  predicate CanInsert(schema: Schema, db: Database, x: Insertion) {
    && schema(x.key.table, x.row)
    && ClashesNone(x.key.table, RowsIn(db, x.key.table), x.row)
    && (x.key.table == Blocks ==> x.row.BlockRow? && HasLogHeight(RowsIn(db, BlockLog), x.row.height))
  }

  function InsertRow(db: Database, x: Insertion): Database {
    db[x.key.table := RowsIn(db, x.key.table) + [x.row]]
  }

  /** Inserts in order, none if one fails. */
  function InsertAll(schema: Schema, db: Database, log: seq<Insertion>): Option<Database> {
    if log == [] then Some(db)
    else
      match InsertAll(schema, db, log[..|log| - 1])
      case None => None
      case Some(db') => if CanInsert(schema, db', log[|log| - 1]) then Some(InsertRow(db', log[|log| - 1])) else None
  }

  /** Inserts in order, skipping the ones that fail. */
  function InsertEach(schema: Schema, db: Database, log: seq<Insertion>): Database {
    if log == [] then db
    else
      var db' := InsertEach(schema, db, log[..|log| - 1]);
      if CanInsert(schema, db', log[|log| - 1]) then InsertRow(db', log[|log| - 1]) else db'
  }

  lemma {:induction false} InsertAllTables(schema: Schema, db: Database, log: seq<Insertion>)
    requires InsertAll(schema, db, log).Some?
    ensures forall t :: RowsIn(InsertAll(schema, db, log).value, t) == RowsIn(db, t) + RowsOf(log, t)
  {
    if log != [] {
      InsertAllTables(schema, db, log[..|log| - 1]);
    }
  }

  /** Row `i` has keys that are neither in the database nor earlier in the series. */
  ghost predicate IsNew(db: Database, log: seq<Insertion>, i: nat)
    requires i < |log|
  {
    ClashesNone(log[i].key.table, RowsIn(db, log[i].key.table) + RowsOf(log[..i], log[i].key.table), log[i].row)
  }

  /** Row `i` finds its `block_log` row in the database or earlier in the series. */
  ghost predicate Referenced(db: Database, log: seq<Insertion>, i: nat)
    requires i < |log|
  {
    log[i].key.table == Blocks ==>
      && log[i].row.BlockRow?
      && HasLogHeight(RowsIn(db, BlockLog) + RowsOf(log[..i], BlockLog), log[i].row.height)
  }

  lemma LastInsertIff(schema: Schema, db: Database, log: seq<Insertion>)
    requires log != [] && InsertAll(schema, db, log[..|log| - 1]).Some?
    ensures InsertAll(schema, db, log).Some? <==>
            schema(log[|log| - 1].key.table, log[|log| - 1].row) && IsNew(db, log, |log| - 1) && Referenced(db, log, |log| - 1)
  {
    InsertAllTables(schema, db, log[..|log| - 1]);
  }

  lemma EarlierIffs(db: Database, log: seq<Insertion>, n: nat)
    requires n <= |log|
    ensures forall i | 0 <= i < n :: log[..n][i] == log[i] && (Referenced(db, log[..n], i) <==> Referenced(db, log, i))
    ensures forall i | 0 <= i < n :: IsNew(db, log[..n], i) <==> IsNew(db, log, i)
  {
    assert forall i | 0 <= i < n :: log[..i] == log[..n][..i];
  }

  /** A series of inserts succeeds exactly when every row meets the schema, has new keys and finds what it refers to. */
  lemma {:induction false} InsertAllIff(schema: Schema, db: Database, log: seq<Insertion>)
    ensures InsertAll(schema, db, log).Some?
       <==> forall i | 0 <= i < |log| :: schema(log[i].key.table, log[i].row) && IsNew(db, log, i) && Referenced(db, log, i)
  {
    if log != [] {
      var n := |log| - 1;
      InsertAllIff(schema, db, log[..n]);
      EarlierIffs(db, log, n);
      if InsertAll(schema, db, log[..n]).Some? {
        LastInsertIff(schema, db, log);
      }
    }
  }

  /** No height and no time twice in `block_log`. */
  ghost predicate UniqueLogs(rows: seq<Row>) {
    forall i, j | 0 <= i < j < |rows| && rows[i].LogRow? && rows[j].LogRow? ::
      rows[i].height != rows[j].height && rows[i].time != rows[j].time
  }

  /** No height twice in `blocks`, and none without its row in `block_log`. */
  ghost predicate UniqueBlocks(rows: seq<Row>, logs: seq<Row>) {
    && (forall i, j | 0 <= i < j < |rows| && rows[i].BlockRow? && rows[j].BlockRow? :: rows[i].height != rows[j].height)
    && forall i | 0 <= i < |rows| :: rows[i].BlockRow? && HasLogOf(logs, rows[i].height)
  }

  predicate HasLogOf(logs: seq<Row>, height: int) {
    exists k | 0 <= k < |logs| :: logs[k].LogRow? && logs[k].height == height
  }

  ghost predicate IsConsistent(db: Database) {
    UniqueLogs(RowsIn(db, BlockLog)) && UniqueBlocks(RowsIn(db, Blocks), RowsIn(db, BlockLog))
  }

  lemma StillHasLog(logs: seq<Row>, row: Row, height: int)
    requires HasLogOf(logs, height)
    ensures HasLogOf(logs + [row], height)
  {
    var k :| 0 <= k < |logs| && logs[k].LogRow? && logs[k].height == height;
    assert (logs + [row])[k] == logs[k];
  }

  lemma MoreLogs(rows: seq<Row>, logs: seq<Row>, row: Row)
    requires UniqueBlocks(rows, logs)
    ensures UniqueBlocks(rows, logs + [row])
  {
    forall i | 0 <= i < |rows|
      ensures rows[i].BlockRow? && HasLogOf(logs + [row], rows[i].height)
    {
      StillHasLog(logs, row, rows[i].height);
    }
  }

  lemma OneLogMore(rows: seq<Row>, row: Row)
    requires UniqueLogs(rows) && ClashesNone(BlockLog, rows, row)
    ensures UniqueLogs(rows + [row])
  {
    assert forall i | 0 <= i < |rows| :: !Clash(BlockLog, rows[i], row);
  }

  lemma OneBlockRowMore(rows: seq<Row>, logs: seq<Row>, row: Row)
    requires UniqueBlocks(rows, logs) && ClashesNone(Blocks, rows, row) && row.BlockRow? && HasLogHeight(logs, row.height)
    ensures UniqueBlocks(rows + [row], logs)
  {
    assert forall i | 0 <= i < |rows| :: !Clash(Blocks, rows[i], row);
    var log :| log in logs && log.LogRow? && log.height == row.height;
    var k :| 0 <= k < |logs| && logs[k] == log;
    assert HasLogOf(logs, row.height);
  }

  lemma InsertKeepsConsistent(schema: Schema, db: Database, x: Insertion)
    requires IsConsistent(db) && CanInsert(schema, db, x)
    ensures IsConsistent(InsertRow(db, x))
  {
    match x.key.table
    case BlockLog =>
      OneLogMore(RowsIn(db, BlockLog), x.row);
      MoreLogs(RowsIn(db, Blocks), RowsIn(db, BlockLog), x.row);
    case Blocks =>
      OneBlockRowMore(RowsIn(db, Blocks), RowsIn(db, BlockLog), x.row);
    case _ =>
  }

  /** Whatever is inserted, and whether rows that fail are skipped or end the series, the keys stay unique and referenced. */
  lemma {:induction false} InsertsKeepConsistent(schema: Schema, db: Database, log: seq<Insertion>)
    requires IsConsistent(db)
    ensures IsConsistent(InsertEach(schema, db, log))
    ensures InsertAll(schema, db, log).Some? ==> IsConsistent(InsertAll(schema, db, log).value)
  {
    if log != [] {
      var n := |log| - 1;
      InsertsKeepConsistent(schema, db, log[..n]);
      var each := InsertEach(schema, db, log[..n]);
      if CanInsert(schema, each, log[n]) {
        InsertKeepsConsistent(schema, each, log[n]);
      }
      if InsertAll(schema, db, log).Some? {
        InsertKeepsConsistent(schema, InsertAll(schema, db, log[..n]).value, log[n]);
      }
    }
  }

  // ---------------------------------------------------------------------------------------------
  // The order of a flush

  function Rank(table: Table): int {
    if table == BlockLog then 0 else if table == Blocks then 1 else 2
  }

  /** `flat` writes what `log` recorded: key by key in the recorded order, `block_log` first, then `blocks`. */
  ghost predicate IsFlushOrder(log: seq<Insertion>, flat: seq<Insertion>) {
    && (forall key :: RowsOfKey(flat, key) == RowsOfKey(log, key))
    && RanksRise(flat)
  }

  ghost predicate RanksRise(flat: seq<Insertion>) {
    forall i, j | 0 <= i < j < |flat| :: Rank(flat[i].key.table) <= Rank(flat[j].key.table)
  }

  lemma SameInsertions(log: seq<Insertion>, flat: seq<Insertion>)
    requires forall key :: RowsOfKey(flat, key) == RowsOfKey(log, key)
    ensures forall x :: x in flat <==> x in log
  {
    forall x
      ensures x in flat <==> x in log
    {
      assert x == Insertion(x.key, x.row);
      if x in flat {
        RowArrives(flat, x);
        KeyedOrigin(log, x.key, x.row);
      }
      if x in log {
        RowArrives(log, x);
        KeyedOrigin(flat, x.key, x.row);
      }
    }
  }

  lemma EmptyIfMemberless(flat: seq<Insertion>)
    ensures flat == [] || exists x :: x in flat
  {
    assert flat != [] ==> flat[0] in flat;
  }

  lemma {:induction false} SameBags(log: seq<Insertion>, flat: seq<Insertion>, t: Table)
    requires forall key :: RowsOfKey(flat, key) == RowsOfKey(log, key)
    ensures multiset(RowsOf(flat, t)) == multiset(RowsOf(log, t))
    decreases |log|
  {
    SameInsertions(log, flat);
    if log == [] {
      EmptyIfMemberless(flat);
    } else {
      var rest, x := log[..|log| - 1], log[|log| - 1];
      var u, v := SplitAtLast(flat, x.key);
      var y := flat[|u|];
      forall key
        ensures RowsOfKey(u + v, key) == RowsOfKey(rest, key)
        ensures y == x
      {
        WithoutOne(u, y, v, key);
        WithoutOne(u, y, v, x.key);
        assert RowsOfKey(log, x.key) == RowsOfKey(rest, x.key) + [x.row];
        LastsAgree(RowsOfKey(u + v, x.key), y.row, RowsOfKey(rest, x.key), x.row);
      }
      SameBags(rest, u + v, t);
      RowsOfConcat(u, v, t);
      RowsOfConcat(u + [y], v, t);
      RowsOfConcat(u, [y], t);
      assert [y][..0] == [];
    }
  }

  lemma LastsAgree(a: seq<Row>, x: Row, b: seq<Row>, y: Row)
    requires a + [x] == b + [y]
    ensures a == b && x == y
  {
    assert (a + [x])[..|a|] == a && (b + [y])[..|b|] == b;
    assert (a + [x])[|a|] == x && (b + [y])[|b|] == y;
  }

  /** Taking out the last insertion under its key shortens that key's rows by one and leaves the other keys alone. */
  lemma WithoutOne(u: seq<Insertion>, y: Insertion, v: seq<Insertion>, key: Key)
    requires forall z | z in v :: z.key != y.key
    ensures RowsOfKey(u + [y] + v, key) == if key == y.key then RowsOfKey(u + v, key) + [y.row] else RowsOfKey(u + v, key)
  {
    RowsOfKeyConcat(u, v, key);
    RowsOfKeyConcat(u + [y], v, key);
    RowsOfKeyConcat(u, [y], key);
    assert [y][..0] == [];
    if key == y.key {
      NoRowsOfKey(v, key);
    }
  }

  lemma SplitAtLast(flat: seq<Insertion>, key: Key) returns (u: seq<Insertion>, v: seq<Insertion>)
    requires exists x | x in flat :: x.key == key
    ensures |u| < |flat| && flat == u + [flat[|u|]] + v
    ensures flat[|u|].key == key && forall z | z in v :: z.key != key
  {
    var i := |flat| - 1;
    while flat[i].key != key
      invariant 0 <= i < |flat| && forall j | i < j < |flat| :: flat[j].key != key
      decreases i
    {
      if i == 0 {
        assert false;
      }
      i := i - 1;
    }
    u, v := flat[..i], flat[i + 1..];
  }

  lemma {:induction false} NoRowsOfKey(log: seq<Insertion>, key: Key)
    requires forall x | x in log :: x.key != key
    ensures RowsOfKey(log, key) == []
  {
    if log != [] {
      assert log[|log| - 1] in log;
      NoRowsOfKey(log[..|log| - 1], key);
    }
  }

  /** The rows clash neither with those that are there nor with each other. */
  ghost predicate AreNew(table: Table, there: seq<Row>, rows: seq<Row>) {
    && (forall i | 0 <= i < |rows| :: ClashesNone(table, there, rows[i]))
    && forall i, j | 0 <= i < j < |rows| :: !Clash(table, rows[i], rows[j])
  }

  ghost predicate KeysAreNew(db: Database, log: seq<Insertion>) {
    forall t :: AreNew(t, RowsIn(db, t), RowsOf(log, t))
  }

  /** Keys are new, every row meets the schema, and each row of `blocks` finds its `block_log` row in the database or batch. */
  ghost predicate CanFlush(schema: Schema, db: Database, log: seq<Insertion>) {
    && KeysAreNew(db, log)
    && forall x | x in log ::
         && schema(x.key.table, x.row)
         && (x.key.table == Blocks ==>
               x.row.BlockRow? && HasLogHeight(RowsIn(db, BlockLog) + RowsOf(log, BlockLog), x.row.height))
  }

  lemma OneMoreNew(table: Table, there: seq<Row>, rows: seq<Row>, row: Row)
    ensures AreNew(table, there, rows + [row]) <==> AreNew(table, there, rows) && ClashesNone(table, there + rows, row)
  {
    var all := rows + [row];
    assert all[|rows|] == row && forall i | 0 <= i < |rows| :: all[i] == rows[i];
    if AreNew(table, there, all) {
      forall r | r in there + rows
        ensures !Clash(table, r, row)
      {
        if r !in there {
          var i :| 0 <= i < |rows| && rows[i] == r;
          assert !Clash(table, all[i], all[|rows|]);
        }
      }
    }
  }

  lemma KeysOneMore(db: Database, log: seq<Insertion>, x: Insertion)
    ensures KeysAreNew(db, log + [x]) <==>
            KeysAreNew(db, log) && ClashesNone(x.key.table, RowsIn(db, x.key.table) + RowsOf(log, x.key.table), x.row)
  {
    var t := x.key.table;
    assert (log + [x])[..|log|] == log;
    OneMoreNew(t, RowsIn(db, t), RowsOf(log, t), x.row);
    assert RowsOf(log + [x], t) == RowsOf(log, t) + [x.row];
    assert forall u | u != t :: RowsOf(log + [x], u) == RowsOf(log, u);
    if KeysAreNew(db, log + [x]) {
      forall u
        ensures AreNew(u, RowsIn(db, u), RowsOf(log, u))
      {
        assert AreNew(u, RowsIn(db, u), RowsOf(log + [x], u));
      }
    }
  }

  lemma LastIsNewIff(db: Database, log: seq<Insertion>)
    requires log != []
    ensures KeysAreNew(db, log) <==> KeysAreNew(db, log[..|log| - 1]) && IsNew(db, log, |log| - 1)
  {
    var n := |log| - 1;
    KeysOneMore(db, log[..n], log[n]);
    assert log == log[..n] + [log[n]];
  }

  /** New one by one is new altogether. */
  lemma {:induction false} EachIsNewIff(db: Database, log: seq<Insertion>)
    ensures AllNew(db, log, |log|) <==> KeysAreNew(db, log)
  {
    if log != [] {
      var n := |log| - 1;
      EachIsNewIff(db, log[..n]);
      AllNewOneMore(db, log);
      LastIsNewIff(db, log);
    }
  }

  ghost predicate AllNew(db: Database, log: seq<Insertion>, n: nat)
    requires n <= |log|
  {
    forall i | 0 <= i < n :: IsNew(db, log, i)
  }

  lemma AllNewOneMore(db: Database, log: seq<Insertion>)
    requires log != []
    ensures AllNew(db, log, |log|) <==> AllNew(db, log[..|log| - 1], |log| - 1) && IsNew(db, log, |log| - 1)
  {
    var n := |log| - 1;
    EarlierIffs(db, log, n);
    if AllNew(db, log[..n], n) && IsNew(db, log, n) {
      forall i | 0 <= i < |log|
        ensures IsNew(db, log, i)
      {
        assert i < n ==> IsNew(db, log[..n], i);
      }
    }
    if AllNew(db, log, |log|) {
      forall i | 0 <= i < n
        ensures IsNew(db, log[..n], i)
      {
        assert IsNew(db, log, i);
      }
    }
  }

  /** Neither order nor fewer rows matter for keys. */
  lemma NewInAnyOrder(table: Table, there: seq<Row>, a: seq<Row>, b: seq<Row>)
    requires multiset(b) <= multiset(a) && AreNew(table, there, a)
    ensures AreNew(table, there, b)
  {
    forall i | 0 <= i < |b|
      ensures ClashesNone(table, there, b[i])
    {
      assert b[i] in multiset(b) && b[i] in multiset(a);
    }
    forall i, j | 0 <= i < j < |b|
      ensures !Clash(table, b[i], b[j])
    {
      if b[i] == b[j] {
        TwoOf(b, i, j);
        var p, q := TwoPlaces(a, b[i]);
      } else {
        assert b[i] in multiset(b) && b[j] in multiset(b);
        assert b[i] in multiset(a) && b[j] in multiset(a);
        var p :| 0 <= p < |a| && a[p] == b[i];
        var q :| 0 <= q < |a| && a[q] == b[j];
        assert !Clash(table, a[if p < q then p else q], a[if p < q then q else p]);
      }
    }
  }

  lemma TwoOf(rows: seq<Row>, i: nat, j: nat)
    requires i < j < |rows| && rows[i] == rows[j]
    ensures multiset(rows)[rows[i]] >= 2
  {
    assert rows == rows[..j] + [rows[j]] + rows[j + 1..];
    assert rows[i] == rows[..j][i] && rows[i] in multiset(rows[..j]);
  }

  lemma {:induction false} TwoPlaces(rows: seq<Row>, r: Row) returns (p: nat, q: nat)
    requires multiset(rows)[r] >= 2
    ensures p < q < |rows| && rows[p] == rows[q] == r
  {
    var n := |rows| - 1;
    assert rows == rows[..n] + [rows[n]];
    if rows[n] == r {
      q := n;
      assert r in multiset(rows[..n]);
      p :| 0 <= p < n && rows[p] == r;
    } else {
      p, q := TwoPlaces(rows[..n], r);
    }
  }

  lemma KeysInAnyOrder(db: Database, log: seq<Insertion>, flat: seq<Insertion>)
    requires forall t :: multiset(RowsOf(log, t)) == multiset(RowsOf(flat, t))
    ensures KeysAreNew(db, log) <==> KeysAreNew(db, flat)
  {
    forall t
      ensures AreNew(t, RowsIn(db, t), RowsOf(log, t)) <==> AreNew(t, RowsIn(db, t), RowsOf(flat, t))
    {
      if AreNew(t, RowsIn(db, t), RowsOf(log, t)) {
        NewInAnyOrder(t, RowsIn(db, t), RowsOf(log, t), RowsOf(flat, t));
      }
      if AreNew(t, RowsIn(db, t), RowsOf(flat, t)) {
        NewInAnyOrder(t, RowsIn(db, t), RowsOf(flat, t), RowsOf(log, t));
      }
    }
  }

  lemma SameBagsOfAll(log: seq<Insertion>, flat: seq<Insertion>)
    requires forall key :: RowsOfKey(flat, key) == RowsOfKey(log, key)
    ensures forall t :: multiset(RowsOf(log, t)) == multiset(RowsOf(flat, t))
  {
    forall t
      ensures multiset(RowsOf(log, t)) == multiset(RowsOf(flat, t))
    {
      SameBags(log, flat, t);
    }
  }

  lemma LogRowsStay(db: Database, log: seq<Insertion>, i: nat, height: int)
    requires i <= |log| && HasLogHeight(RowsIn(db, BlockLog) + RowsOf(log[..i], BlockLog), height)
    ensures HasLogHeight(RowsIn(db, BlockLog) + RowsOf(log, BlockLog), height)
  {
    RowsOfConcat(log[..i], log[i..], BlockLog);
    assert log[..i] + log[i..] == log;
    var r :| r in RowsIn(db, BlockLog) + RowsOf(log[..i], BlockLog) && r.LogRow? && r.height == height;
    assert r in RowsIn(db, BlockLog) + RowsOf(log, BlockLog);
  }

  /** What can be inserted row by row can be flushed. */
  lemma InsertedCanFlush(schema: Schema, db: Database, log: seq<Insertion>)
    requires InsertAll(schema, db, log).Some?
    ensures CanFlush(schema, db, log)
  {
    InsertAllIff(schema, db, log);
    EachIsNewIff(db, log);
    forall i | 0 <= i < |log|
      ensures schema(log[i].key.table, log[i].row)
      ensures log[i].key.table == Blocks ==>
                log[i].row.BlockRow? && HasLogHeight(RowsIn(db, BlockLog) + RowsOf(log, BlockLog), log[i].row.height)
    {
      assert Referenced(db, log, i);
      if log[i].key.table == Blocks {
        LogRowsStay(db, log, i, log[i].row.height);
      }
    }
  }

  /** All `block_log` rows of the batch come before the first row of `blocks`. */
  lemma LogRowsComeFirst(db: Database, log: seq<Insertion>, flat: seq<Insertion>, i: nat)
    requires IsFlushOrder(log, flat) && i < |flat| && flat[i].key.table == Blocks && flat[i].row.BlockRow?
    requires HasLogHeight(RowsIn(db, BlockLog) + RowsOf(log, BlockLog), flat[i].row.height)
    ensures Referenced(db, flat, i)
  {
    var r :| r in RowsIn(db, BlockLog) + RowsOf(log, BlockLog) && r.LogRow? && r.height == flat[i].row.height;
    if r !in RowsIn(db, BlockLog) {
      var x := RowOrigin(log, BlockLog, r);
      SameInsertions(log, flat);
      var j :| 0 <= j < |flat| && flat[j] == x;
      assert j < i;
      RowArrives(flat[..i], x);
    }
    assert r in RowsIn(db, BlockLog) + RowsOf(flat[..i], BlockLog);
  }

  lemma LogRowsOfOrder(log: seq<Insertion>, flat: seq<Insertion>, r: Row)
    requires IsFlushOrder(log, flat) && r in RowsOf(flat, BlockLog)
    ensures r in RowsOf(log, BlockLog)
  {
    var x := RowOrigin(flat, BlockLog, r);
    SameInsertions(log, flat);
    RowArrives(log, x);
  }

  /** Whatever the order of its keys, a flush succeeds exactly when `CanFlush` holds: the recorded order does not matter. */
  lemma FlushIff(schema: Schema, db: Database, log: seq<Insertion>, flat: seq<Insertion>)
    requires IsFlushOrder(log, flat)
    ensures InsertAll(schema, db, flat).Some? <==> CanFlush(schema, db, log)
  {
    SameInsertions(log, flat);
    SameBagsOfAll(log, flat);
    KeysInAnyOrder(db, log, flat);
    if CanFlush(schema, db, log) {
      EachIsNewIff(db, flat);
      forall i | 0 <= i < |flat|
        ensures schema(flat[i].key.table, flat[i].row) && IsNew(db, flat, i) && Referenced(db, flat, i)
      {
        assert flat[i] in log;
        if flat[i].key.table == Blocks {
          LogRowsComeFirst(db, log, flat, i);
        }
      }
      InsertAllIff(schema, db, flat);
    }
    if InsertAll(schema, db, flat).Some? {
      InsertedCanFlush(schema, db, flat);
      FlushedRowsFit(schema, db, log, flat);
    }
  }

  lemma FlushedRowsFit(schema: Schema, db: Database, log: seq<Insertion>, flat: seq<Insertion>)
    requires IsFlushOrder(log, flat) && CanFlush(schema, db, flat) && KeysAreNew(db, log)
    ensures CanFlush(schema, db, log)
  {
    SameInsertions(log, flat);
    forall x | x in log && x.key.table == Blocks
      ensures x.row.BlockRow? && HasLogHeight(RowsIn(db, BlockLog) + RowsOf(log, BlockLog), x.row.height)
    {
      assert x in flat;
      var r :| r in RowsIn(db, BlockLog) + RowsOf(flat, BlockLog) && r.LogRow? && r.height == x.row.height;
      if r in RowsOf(flat, BlockLog) {
        LogRowsOfOrder(log, flat, r);
      }
      assert r in RowsIn(db, BlockLog) + RowsOf(log, BlockLog);
    }
  }

  /**
    If every row can be inserted one by one, then one flush in any order of its keys succeeds as well - at each
    `blocks` row its `block_log` row is there already - and leaves every table with the same bag of rows.
   */
  lemma BatchRefinesImmediate(schema: Schema, db: Database, log: seq<Insertion>, flat: seq<Insertion>)
    requires InsertAll(schema, db, log).Some? && IsFlushOrder(log, flat)
    ensures InsertAll(schema, db, flat).Some?
    ensures forall t :: multiset(RowsIn(InsertAll(schema, db, flat).value, t)) == multiset(RowsIn(InsertAll(schema, db, log).value, t))
  {
    InsertedCanFlush(schema, db, log);
    FlushIff(schema, db, log, flat);
    InsertAllTables(schema, db, flat);
    InsertAllTables(schema, db, log);
    SameBagsOfAll(log, flat);
  }

  // ---------------------------------------------------------------------------------------------
  // BatchInserter

  class Connection {
    const schema: Schema
    var tables: Database

    constructor (schema: Schema, tables: Database)
      ensures this.schema == schema && this.tables == tables
    {
      this.schema, this.tables := schema, tables;
    }
  }

  function Under(key: Key, rows: seq<Row>): (log: seq<Insertion>)
    ensures |log| == |rows| && forall i | 0 <= i < |rows| :: log[i] == Insertion(key, rows[i])
  {
    seq(|rows|, i requires 0 <= i < |rows| => Insertion(key, rows[i]))
  }

  lemma {:induction false} RowsUnder(key: Key, rows: seq<Row>, other: Key)
    ensures RowsOfKey(Under(key, rows), other) == if other == key then rows else []
  {
    if rows != [] {
      RowsUnder(key, rows[..|rows| - 1], other);
      assert Under(key, rows)[..|rows| - 1] == Under(key, rows[..|rows| - 1]);
    }
  }

  lemma {:induction false} InsertAllConcat(schema: Schema, db: Database, x: seq<Insertion>, y: seq<Insertion>)
    ensures InsertAll(schema, db, x + y)
         == match InsertAll(schema, db, x) { case None => None case Some(db') => InsertAll(schema, db', y) }
  {
    if y == [] {
      assert x + y == x;
    } else {
      InsertAllConcat(schema, db, x, y[..|y| - 1]);
      assert (x + y)[..|x + y| - 1] == x + y[..|y| - 1];
    }
  }

  class BatchInserter {
    const db: Connection
    var batches: Option<map<Key, seq<Row>>>
    /** What was inserted since the last flush, in order. */
    ghost var log: seq<Insertion>

    ghost predicate Valid()
      reads this
    {
      match batches
      case None => log == []
      case Some(bs) =>
        && (forall key :: RowsOfKey(log, key) == if key in bs then bs[key] else [])
        && (forall key | key in bs :: bs[key] != [])
    }

    constructor (db: Connection)
      ensures Valid() && this.db == db && batches.None? && log == []
    {
      this.db, batches, log := db, None, [];
    }

    method StartBlock()
      requires Valid()
      modifies this
      ensures Valid() && batches.Some? && log == old(log)
    {
      if batches.None? {
        batches := Some(map[]);
      }
    }

    /** Never fails: the row is only remembered. */
    method Insert(key: Key, row: Row)
      requires Valid() && batches.Some?
      modifies this
      ensures Valid() && batches.Some? && log == old(log) + [Insertion(key, row)]
    {
      var rows := if key in batches.value then batches.value[key] else [];
      batches := Some(batches.value[key := rows + [row]]);
      log := log + [Insertion(key, row)];
      forall k
        ensures RowsOfKey(log, k) == RowsOfKey(old(log), k) + RowsOfKey([Insertion(key, row)], k)
      {
        RowsOfKeyConcat(old(log), [Insertion(key, row)], k);
      }
      assert [Insertion(key, row)][..0] == [];
    }

    /**
      One transaction: every batch is copied or none is. `fault` is the number of copies after which the connection
      breaks, if it does: the next copy fails, or the COMMIT after the last one. The batches are forgotten either way.
     */
    method Flush(fault: Option<nat>) returns (ok: bool)
      requires Valid()
      modifies this, db
      ensures Valid() && log == [] && batches.None?
      ensures !ok ==> db.tables == old(db.tables)
      ensures ok ==> exists flat ::
                IsFlushOrder(old(log), flat) && InsertAll(db.schema, old(db.tables), flat) == Some(db.tables)
      ensures fault.None? ==> (ok <==> CanFlush(db.schema, old(db.tables), old(log)))
    {
      if batches.None? {
        assert IsFlushOrder(old(log), []) && InsertAll(db.schema, old(db.tables), []) == Some(db.tables);
        return true;
      }
      var bs := batches.value;
      ghost var recorded := log;
      batches, log := None, [];
      var txn := db.tables;
      var keys := bs.Keys;
      var copies := 0;
      ghost var flat: seq<Insertion> := [];
      while keys != {}
        invariant batches.None? && log == [] && db.tables == old(db.tables)
        invariant Copied(bs, keys, flat)
        invariant InsertAll(db.schema, old(db.tables), flat) == Some(txn)
        decreases |keys|
      {
        var key := FirstKey(keys);
        var copied := InsertAll(db.schema, txn, Under(key, bs[key]));
        InsertAllConcat(db.schema, old(db.tables), flat, Under(key, bs[key]));
        if fault.None? && CanFlush(db.schema, old(db.tables), recorded) {
          FlushCannotFail(db.schema, old(db.tables), recorded, bs, keys, key, flat);
        }
        if copied.None? || fault == Some(copies) {
          return false;
        }
        txn := copied.value;
        CopyOne(bs, keys, key, flat);
        flat := flat + Under(key, bs[key]);
        keys := keys - {key};
        copies := copies + 1;
      }
      if fault == Some(copies) {
        return false;
      }
      db.tables := txn;
      assert IsFlushOrder(recorded, flat);
      FlushIff(db.schema, old(db.tables), recorded, flat);
      return true;
    }
  }

  /** `flat` holds the batches whose keys have been copied, and none of the remaining ones should have come earlier. */
  ghost predicate Copied(bs: map<Key, seq<Row>>, keys: set<Key>, flat: seq<Insertion>) {
    && keys <= bs.Keys
    && HoldsRows(flat, bs, keys)
    && RanksRise(flat) && RanksAreBelow(flat, keys)
  }

  ghost predicate HoldsRows(flat: seq<Insertion>, bs: map<Key, seq<Row>>, keys: set<Key>) {
    forall key :: RowsOfKey(flat, key) == if key in bs && key !in keys then bs[key] else []
  }

  ghost predicate RanksAreBelow(flat: seq<Insertion>, keys: set<Key>) {
    forall i, key | 0 <= i < |flat| && key in keys :: Rank(flat[i].key.table) <= Rank(key.table)
  }

  lemma CopyOne(bs: map<Key, seq<Row>>, keys: set<Key>, key: Key, flat: seq<Insertion>)
    requires Copied(bs, keys, flat)
    requires key in keys && forall k | k in keys :: Rank(key.table) <= Rank(k.table)
    ensures Copied(bs, keys - {key}, flat + Under(key, bs[key]))
  {
    RowsOfOneMore(bs, keys, key, flat);
    RanksOfOneMore(flat, Under(key, bs[key]), key, keys);
  }

  lemma RowsOfOneMore(bs: map<Key, seq<Row>>, keys: set<Key>, key: Key, flat: seq<Insertion>)
    requires keys <= bs.Keys && HoldsRows(flat, bs, keys) && key in keys
    ensures HoldsRows(flat + Under(key, bs[key]), bs, keys - {key})
  {
    forall k
      ensures RowsOfKey(flat + Under(key, bs[key]), k) == if k in bs && k !in keys - {key} then bs[k] else []
    {
      RowsOfKeyConcat(flat, Under(key, bs[key]), k);
      RowsUnder(key, bs[key], k);
    }
  }

  lemma RanksOfOneMore(flat: seq<Insertion>, more: seq<Insertion>, key: Key, keys: set<Key>)
    requires RanksRise(flat) && RanksAreBelow(flat, keys)
    requires key in keys && forall k | k in keys :: Rank(key.table) <= Rank(k.table)
    requires forall i | 0 <= i < |more| :: more[i].key == key
    ensures RanksRise(flat + more) && RanksAreBelow(flat + more, keys - {key})
  {
  }

  /** A key of the lowest rank; ties are broken in some way. */
  method FirstKey(keys: set<Key>) returns (key: Key)
    requires keys != {}
    ensures key in keys && forall k | k in keys :: Rank(key.table) <= Rank(k.table)
  {
    key :| key in keys;
    var rest := keys - {key};
    while rest != {}
      invariant key in keys && rest <= keys
      invariant forall k | k in keys - rest :: Rank(key.table) <= Rank(k.table)
      decreases |rest|
    {
      var k :| k in rest;
      if Rank(k.table) < Rank(key.table) {
        key := k;
      }
      rest := rest - {k};
    }
  }

  /** The `block_log` row that a `blocks` row of the next batch refers to has been copied already. */
  lemma NextBatchReferenced(db: Database, log: seq<Insertion>, bs: map<Key, seq<Row>>, keys: set<Key>, key: Key,
                            flat: seq<Insertion>, height: int, tail: seq<Insertion>)
    requires forall q :: RowsOfKey(log, q) == if q in bs then bs[q] else []
    requires Copied(bs, keys, flat)
    requires key in keys && key.table == Blocks && forall q | q in keys :: Rank(key.table) <= Rank(q.table)
    requires HasLogHeight(RowsIn(db, BlockLog) + RowsOf(log, BlockLog), height)
    ensures HasLogHeight(RowsIn(db, BlockLog) + RowsOf(flat + tail, BlockLog), height)
  {
    var r :| r in RowsIn(db, BlockLog) + RowsOf(log, BlockLog) && r.LogRow? && r.height == height;
    if r !in RowsIn(db, BlockLog) {
      var x := RowOrigin(log, BlockLog, r);
      RowArrives(log, x);
      assert x.key !in keys;
      KeyedOrigin(flat, x.key, r);
      RowArrives(flat + tail, x);
    }
    assert r in RowsIn(db, BlockLog) + RowsOf(flat + tail, BlockLog);
  }

  /** What a series records under some of its keys. */
  function OnlyOf(log: seq<Insertion>, keys: set<Key>): seq<Insertion> {
    if log == [] then []
    else
      var rest, x := OnlyOf(log[..|log| - 1], keys), log[|log| - 1];
      if x.key in keys then rest + [x] else rest
  }

  lemma {:induction false} RowsOfSome(log: seq<Insertion>, keys: set<Key>, key: Key)
    ensures RowsOfKey(OnlyOf(log, keys), key) == if key in keys then RowsOfKey(log, key) else []
  {
    if log != [] {
      var rest, x := OnlyOf(log[..|log| - 1], keys), log[|log| - 1];
      RowsOfSome(log[..|log| - 1], keys, key);
      assert (rest + [x])[..|rest|] == rest;
    }
  }

  lemma {:induction false} SomeAreFewer(log: seq<Insertion>, keys: set<Key>, t: Table)
    ensures multiset(RowsOf(OnlyOf(log, keys), t)) <= multiset(RowsOf(log, t))
  {
    if log != [] {
      var rest, x := OnlyOf(log[..|log| - 1], keys), log[|log| - 1];
      SomeAreFewer(log[..|log| - 1], keys, t);
      assert (rest + [x])[..|rest|] == rest;
    }
  }

  /** The rows of some keys are new if those of all are, in whatever order they are copied. */
  lemma SomeAreNew(db: Database, log: seq<Insertion>, keys: set<Key>, flat: seq<Insertion>)
    requires KeysAreNew(db, log)
    requires forall q :: RowsOfKey(flat, q) == if q in keys then RowsOfKey(log, q) else []
    ensures KeysAreNew(db, flat)
  {
    var some := OnlyOf(log, keys);
    forall q
      ensures RowsOfKey(flat, q) == RowsOfKey(some, q)
    {
      RowsOfSome(log, keys, q);
    }
    SameBagsOfAll(some, flat);
    forall t
      ensures AreNew(t, RowsIn(db, t), RowsOf(flat, t))
    {
      SomeAreFewer(log, keys, t);
      NewInAnyOrder(t, RowsIn(db, t), RowsOf(log, t), RowsOf(flat, t));
    }
  }

  lemma NextIsNew(db: Database, log: seq<Insertion>, bs: map<Key, seq<Row>>, keys: set<Key>, key: Key, flat: seq<Insertion>)
    requires forall q :: RowsOfKey(log, q) == if q in bs then bs[q] else []
    requires Copied(bs, keys, flat) && key in keys && KeysAreNew(db, log)
    ensures KeysAreNew(db, flat + Under(key, bs[key]))
  {
    var all := flat + Under(key, bs[key]);
    forall q
      ensures RowsOfKey(all, q) == if q in bs.Keys - keys + {key} then RowsOfKey(log, q) else []
    {
      RowsOfKeyConcat(flat, Under(key, bs[key]), q);
      RowsUnder(key, bs[key], q);
    }
    SomeAreNew(db, log, bs.Keys - keys + {key}, all);
  }

  /** Row `i` of the next batch fits, and refers to what has been copied. */
  lemma NextRowFits(schema: Schema, db: Database, log: seq<Insertion>, bs: map<Key, seq<Row>>, keys: set<Key>, key: Key,
                    flat: seq<Insertion>, i: nat)
    requires forall q :: RowsOfKey(log, q) == if q in bs then bs[q] else []
    requires Copied(bs, keys, flat)
    requires key in keys && forall q | q in keys :: Rank(key.table) <= Rank(q.table)
    requires CanFlush(schema, db, log) && |flat| <= i < |flat| + |bs[key]|
    ensures var all := flat + Under(key, bs[key]);
            schema(all[i].key.table, all[i].row) && Referenced(db, all, i)
  {
    var all, row := flat + Under(key, bs[key]), bs[key][i - |flat|];
    KeyedOrigin(log, key, row);
    assert Insertion(key, row) in log && all[i] == Insertion(key, row);
    if key.table == Blocks {
      NextBatchReferenced(db, log, bs, keys, key, flat, row.height, Under(key, bs[key])[..i - |flat|]);
      assert all[..i] == flat + Under(key, bs[key])[..i - |flat|];
    }
  }

  /** A copy of the next batch cannot be refused when the batch can be flushed. */
  lemma FlushCannotFail(schema: Schema, db: Database, log: seq<Insertion>, bs: map<Key, seq<Row>>, keys: set<Key>, key: Key,
                        flat: seq<Insertion>)
    requires forall q :: RowsOfKey(log, q) == if q in bs then bs[q] else []
    requires Copied(bs, keys, flat)
    requires key in keys && forall q | q in keys :: Rank(key.table) <= Rank(q.table)
    requires CanFlush(schema, db, log) && InsertAll(schema, db, flat).Some?
    ensures InsertAll(schema, db, flat + Under(key, bs[key])).Some?
  {
    var all := flat + Under(key, bs[key]);
    InsertAllIff(schema, db, flat);
    forall i | 0 <= i < |all|
      ensures schema(all[i].key.table, all[i].row) && Referenced(db, all, i)
    {
      if i < |flat| {
        assert all[..i] == flat[..i];
        assert Referenced(db, flat, i);
      } else {
        NextRowFits(schema, db, log, bs, keys, key, flat, i);
      }
    }
    NextIsNew(db, log, bs, keys, key, flat);
    EachIsNewIff(db, all);
    InsertAllIff(schema, db, all);
  }

  // ---------------------------------------------------------------------------------------------
  // ImmediateInserter

  /** An open transaction: what it has written, whether a statement failed in it, and its savepoint. */
  datatype Transaction = Transaction(work: Database, aborted: bool, savepoint: Database)

  class ImmediateInserter {
    const db: Connection
    var txn: Option<Transaction>
    /** The inserts tried since the block started. */
    ghost var tried: seq<Insertion>

    ghost predicate Valid()
      reads this, db
    {
      txn.Some? ==>
        && !txn.value.aborted
        && txn.value.work == txn.value.savepoint == InsertEach(db.schema, db.tables, tried)
    }

    constructor (db: Connection)
      ensures Valid() && this.db == db && txn.None?
    {
      this.db, txn, tried := db, None, [];
    }

    method StartBlock()
      requires Valid() && txn.None?
      modifies this
      ensures Valid() && txn.Some? && tried == []
    {
      txn := Some(Transaction(db.tables, false, db.tables));
      tried := [];
    }

    /** A row that is refused leaves no trace; the rows before it stay. */
    method Insert(key: Key, row: Row) returns (ok: bool)
      requires Valid() && txn.Some?
      modifies this
      ensures Valid() && txn.Some? && tried == old(tried) + [Insertion(key, row)]
      ensures ok == CanInsert(db.schema, InsertEach(db.schema, db.tables, old(tried)), Insertion(key, row))
    {
      var x := Insertion(key, row);
      var t := txn.value;
      ok := CanInsert(db.schema, t.work, x);
      t := if ok then t.(work := InsertRow(t.work, x)) else t.(aborted := true);
      if t.aborted {
        t := t.(work := t.savepoint, aborted := false);
      } else {
        t := t.(savepoint := t.work);
      }
      txn := Some(t);
      tried := tried + [x];
      assert tried[..|tried| - 1] == old(tried);
    }

    /** COMMIT, which may fail; the transaction is over either way. */
    method EndBlock(fault: bool) returns (ok: bool)
      requires Valid() && txn.Some?
      modifies this, db
      ensures Valid() && txn.None? && tried == old(tried)
      ensures ok <==> !fault
      ensures db.tables == if ok then InsertEach(db.schema, old(db.tables), tried) else old(db.tables)
    {
      ok := !fault;
      if ok {
        db.tables := txn.value.work;
      }
      txn := None;
    }
  }

  /** The rows that survive a block of immediate inserts, table by table. */
  function Survivors(schema: Schema, db: Database, log: seq<Insertion>): (kept: seq<Insertion>)
    ensures |kept| <= |log|
  {
    if log == [] then []
    else
      var rest := Survivors(schema, db, log[..|log| - 1]);
      if CanInsert(schema, InsertEach(schema, db, log[..|log| - 1]), log[|log| - 1]) then rest + [log[|log| - 1]] else rest
  }

  /** Under savepoints a block keeps exactly its successful inserts: as if the others had never been tried. */
  lemma {:induction false} ImmediateKeepsSuccesses(schema: Schema, db: Database, log: seq<Insertion>)
    ensures InsertAll(schema, db, Survivors(schema, db, log)) == Some(InsertEach(schema, db, log))
  {
    if log != [] {
      var rest, x := log[..|log| - 1], log[|log| - 1];
      ImmediateKeepsSuccesses(schema, db, rest);
      var kept, reached := Survivors(schema, db, rest), InsertEach(schema, db, rest);
      if CanInsert(schema, reached, x) {
        InsertOneMore(schema, db, kept, x);
      }
    }
  }

  /** When every insert succeeds, all rows survive, and the two forms agree. */
  lemma {:induction false} AllSurvive(schema: Schema, db: Database, log: seq<Insertion>)
    requires InsertAll(schema, db, log).Some?
    ensures Survivors(schema, db, log) == log && InsertAll(schema, db, log).value == InsertEach(schema, db, log)
  {
    if log != [] {
      AllSurvive(schema, db, log[..|log| - 1]);
    }
  }

  lemma InsertOneMore(schema: Schema, db: Database, log: seq<Insertion>, x: Insertion)
    requires InsertAll(schema, db, log).Some? && CanInsert(schema, InsertAll(schema, db, log).value, x)
    ensures InsertAll(schema, db, log + [x]) == Some(InsertRow(InsertAll(schema, db, log).value, x))
  {
    assert (log + [x])[..|log|] == log;
  }
}
