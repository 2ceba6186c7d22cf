/**
  The rows of the database and the order in which inserts reach it.
 */
module Tables {
  import opened Options

  /** The depths of all pools, as `aggTrack` stores them. */
  datatype DepthMaps = DepthMaps(asset: map<string, int>, qbtc: map<string, int>, synth: map<string, int>)

  const NO_DEPTHS := DepthMaps(map[], map[], map[])

  datatype Depth = Depth(asset: int, qbtc: int, synth: int)

  datatype Row =
    | LogRow(height: int, time: int, hash: string, aggState: Option<DepthMaps>)
    | BlockRow(height: int, payload: string)
    | RewardsRow(bond: int, eventId: int, time: int)
    | EntryRow(pool: string, qbtc: int, eventId: int, time: int)
    | DepthRow(pool: string, depth: Depth, time: int)
    | OtherRow(content: string, eventId: int, time: int)

  datatype Table =
    | BlockLog
    | Blocks
    | BlockPoolDepths
    | RewardsEvents
    | RewardsEventEntries
    | InstantiateEvents
    | WasmContractsEvents
    | TransferEvents

  /** A table and a column list: what the batches are keyed by. */
  datatype Key = Key(table: Table, columns: seq<string>)

  datatype Insertion = Insertion(key: Key, row: Row)

  type Database = map<Table, seq<Row>>

  function RowsIn(db: Database, table: Table): seq<Row> {
    if table in db then db[table] else []
  }

  /** The rows that a series of inserts adds to one table, in order. */
  function RowsOf(log: seq<Insertion>, table: Table): seq<Row> {
    if log == [] then []
    else
      var rest, x := RowsOf(log[..|log| - 1], table), log[|log| - 1];
      if x.key.table == table then rest + [x.row] else rest
  }

  /** The rows that a series of inserts adds under one key, in order. */
  function RowsOfKey(log: seq<Insertion>, key: Key): seq<Row> {
    if log == [] then []
    else
      var rest, x := RowsOfKey(log[..|log| - 1], key), log[|log| - 1];
      if x.key == key then rest + [x.row] else rest
  }

  lemma {:induction false} RowOrigin(log: seq<Insertion>, table: Table, r: Row) returns (x: Insertion)
    requires r in RowsOf(log, table)
    ensures x in log && x.key.table == table && x.row == r
  {
    var last := log[|log| - 1];
    if last.key.table == table && last.row == r {
      x := last;
    } else {
      x := RowOrigin(log[..|log| - 1], table, r);
    }
  }

  lemma {:induction false} RowArrives(log: seq<Insertion>, x: Insertion)
    requires x in log
    ensures x.row in RowsOf(log, x.key.table)
    ensures x.row in RowsOfKey(log, x.key)
  {
    if x != log[|log| - 1] {
      RowArrives(log[..|log| - 1], x);
    }
  }

  lemma {:induction false} KeyedOrigin(log: seq<Insertion>, key: Key, r: Row)
    requires r in RowsOfKey(log, key)
    ensures Insertion(key, r) in log
  {
    if log[|log| - 1] != Insertion(key, r) {
      KeyedOrigin(log[..|log| - 1], key, r);
    }
  }

  lemma {:induction false} RowsOfConcat(x: seq<Insertion>, y: seq<Insertion>, table: Table)
    ensures RowsOf(x + y, table) == RowsOf(x, table) + RowsOf(y, table)
  {
    if y == [] {
      assert x + y == x;
    } else {
      RowsOfConcat(x, y[..|y| - 1], table);
      assert (x + y)[..|x + y| - 1] == x + y[..|y| - 1];
    }
  }

  lemma {:induction false} RowsOfKeyConcat(x: seq<Insertion>, y: seq<Insertion>, key: Key)
    ensures RowsOfKey(x + y, key) == RowsOfKey(x, key) + RowsOfKey(y, key)
  {
    if y == [] {
      assert x + y == x;
    } else {
      RowsOfKeyConcat(x, y[..|y| - 1], key);
      assert (x + y)[..|x + y| - 1] == x + y[..|y| - 1];
    }
  }

  /** Where a table is written with one column list only, its rows are those of that key. */
  lemma {:induction false} OneKeyPerTable(log: seq<Insertion>, key: Key)
    requires forall x | x in log && x.key.table == key.table :: x.key == key
    ensures RowsOf(log, key.table) == RowsOfKey(log, key)
  {
    if log != [] {
      assert log[|log| - 1] in log;
      OneKeyPerTable(log[..|log| - 1], key);
    }
  }
}
