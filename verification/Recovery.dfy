/**
  The crash-safe block writer as a state machine: blocks are processed one after the other, their rows reach the
  database in batches, the process may die at any moment and rebuilds its memory from the last row of `block_log`.

  cmd/btcq-indexer/blockwriter.go picks the blocks after which the batch is flushed, internal/timeseries/timeseries.go
  processes a block and restores the memory.
 */
module Recovery {
  import opened Tables
  import opened Depths
  import opened Inserter
  import opened Record
  import opened Options
  import Multiples

  datatype Block = Block(height: int, time: int, hash: string, events: seq<Event>, payload: string)

  /** The blocks of the chain by height. */
  type Chain = int -> Block

  ghost predicate IsChain(chain: Chain) {
    && (forall h | 1 <= h :: chain(h).height == h)
    && (forall h, k | 1 <= h < k :: chain(h).time < chain(k).time)
  }

  /** `hardForkHeight` is 0 when the chain has no end. */
  datatype Config = Config(blockBatch: int, immediate: bool, hardForkHeight: int, schema: Schema)

  // ---------------------------------------------------------------------------------------------
  // The states

  datatype Memory = Memory(
    pending: seq<Insertion>,     // rows in the batch inserter, in the order they were inserted
    totals: DepthMaps,           // the recorder's running totals
    snapshot: DepthMaps,         // the depth manager's snapshot
    committed: int,              // height of the last committed block
    processed: int,              // height of the last processed block
    firstBlock: int)             // height of the first block, 0 while it is not known

  /** The database, and the memory of the process while it is up. */
  datatype System = System(db: Database, memory: Option<Memory>)

  /** SELECT ... FROM block_log ORDER BY height DESC LIMIT 1 */
  function HighestRow(rows: seq<Row>): (r: Option<Row>)
    ensures r.Some? ==> r.value in rows && r.value.LogRow?
  {
    if rows == [] then None
    else
      var best, x := HighestRow(rows[..|rows| - 1]), rows[|rows| - 1];
      if x.LogRow? && (best.None? || best.value.height <= x.height) then Some(x) else best
  }

  /** The memory `Setup` builds, or none when the last row holds no aggregation state. */
  function Setup(db: Database, firstBlock: int): Option<Memory> {
    match HighestRow(RowsIn(db, BlockLog))
    case None => Some(Memory([], NO_DEPTHS, NO_DEPTHS, 0, 0, firstBlock))
    case Some(row) =>
      if row.aggState.None? then None
      else Some(Memory([], row.aggState.value, NO_DEPTHS, row.height, row.height, firstBlock))
  }

  /** The commit decision of the writer's loop. `synced` says that the node has no later block yet. */
  predicate ShouldCommit(cfg: Config, height: int, synced: bool)
    requires cfg.blockBatch > 0
  {
    cfg.immediate || synced || height % cfg.blockBatch == 0 || (cfg.hardForkHeight != 0 && height == cfg.hardForkHeight)
  }

  predicate IsFirstBlock(m: Memory, height: int) {
    m.firstBlock == 0 || height <= m.firstBlock
  }

  predicate ShouldFlush(cfg: Config, m: Memory, height: int, synced: bool)
    requires cfg.blockBatch > 0
  {
    ShouldCommit(cfg, height, synced) || IsFirstBlock(m, height)
  }

  /** The rows of one block, in the order they are inserted. */
  function BlockInserts(b: Block, aggState: Option<DepthMaps>, depthRows: seq<Row>): seq<Insertion> {
    EventsInserts(b.events, b.time)
    + [Insertion(KeyFor(BlockLog), LogRow(b.height, b.time, b.hash, aggState)), Insertion(KeyFor(Blocks), BlockRow(b.height, b.payload))]
    + Under(KeyFor(BlockPoolDepths), depthRows)
  }

  /** One flush, all of it. */
  ghost predicate Flushed(schema: Schema, db: Database, pending: seq<Insertion>, db': Database) {
    exists flat :: IsFlushOrder(pending, flat) && InsertAll(schema, db, flat) == Some(db')
  }

  /** `ProcessBlock`, run to its end, when the pools whose depths changed were visited in the order of `depthRows`. */
  ghost predicate ProcessedWith(schema: Schema, b: Block, flush: bool, db: Database, m: Memory, db': Database, m': Memory,
                                depthRows: seq<Row>)
  {
    var pending := m.pending + BlockInserts(b, if flush then Some(m'.totals) else None, depthRows);
    && m'.totals == ApplyEvents(m.totals, b.events)
    && IsChangeSet(m.snapshot, m'.totals, b.time, depthRows)
    && m'.snapshot == m'.totals
    && m'.processed == b.height
    && if flush then
         && Flushed(schema, db, pending, db')
         && m'.pending == []
         && m'.committed == b.height
         && m'.firstBlock == (if m.firstBlock == 0 then b.height else m.firstBlock)
       else
         && db' == db
         && m'.pending == pending
         && m'.committed == m.committed
         && m'.firstBlock == m.firstBlock
  }

  ghost predicate Processed(schema: Schema, b: Block, flush: bool, db: Database, m: Memory, db': Database, m': Memory) {
    exists depthRows :: ProcessedWith(schema, b, flush, db, m, db', m', depthRows)
  }

  ghost predicate WritesWith(cfg: Config, chain: Chain, db: Database, m: Memory, db': Database, m': Memory, synced: bool)
    requires cfg.blockBatch > 0
  {
    var h := m.processed + 1;
    && (cfg.hardForkHeight == 0 || h <= cfg.hardForkHeight)
    && Processed(cfg.schema, chain(h), ShouldFlush(cfg, m, h, synced), db, m, db', m')
  }

  /** The writer takes the next block, unless it lies beyond the fork. */
  ghost predicate Writes(cfg: Config, chain: Chain, s: System, s': System)
    requires cfg.blockBatch > 0
  {
    match (s.memory, s'.memory)
    case (Some(m), Some(m')) => exists synced :: WritesWith(cfg, chain, s.db, m, s'.db, m', synced)
    case _ => false
  }

  /** The process dies: before a flush, in one that is rolled back, or after one. */
  ghost predicate Crashes(s: System, s': System) {
    s' == System(s.db, None)
  }

  /** A new process starts. The first block is known to it from the database, or possibly from the node's status. */
  ghost predicate Restarts(s: System, s': System) {
    && s.memory.None?
    && exists firstBlock ::
         && (if HighestRow(RowsIn(s.db, BlockLog)).Some? then firstBlock == 1 else firstBlock == 0 || firstBlock == 1)
         && s' == System(s.db, Setup(s.db, firstBlock))
  }

  /** A system with the configuration that its process is, or was last, started with. */
  datatype Stage = Stage(cfg: Config, system: System)

  /**
    What may be different after a restart: the size of a batch, and whether blocks are written one by one, as they are
    after a flush has failed. The schema and the end of the chain stay.
   */
  ghost predicate Reconfigured(cfg: Config, cfg': Config) {
    cfg'.blockBatch > 0 && cfg'.hardForkHeight == cfg.hardForkHeight && cfg'.schema == cfg.schema
  }

  ghost predicate Next(chain: Chain, x: Stage, y: Stage)
    requires x.cfg.blockBatch > 0
  {
    || (y.cfg == x.cfg && (Writes(x.cfg, chain, x.system, y.system) || Crashes(x.system, y.system)))
    || (Reconfigured(x.cfg, y.cfg) && Restarts(x.system, y.system))
  }

  ghost predicate IsRun(chain: Chain, run: seq<Stage>) {
    && run != [] && run[0].system == System(map[], None)
    && (forall i | 0 <= i < |run| :: run[i].cfg.blockBatch > 0)
    && forall i, j | 0 <= i < j < |run| && j == i + 1 :: Next(chain, run[i], run[j])
  }

  // ---------------------------------------------------------------------------------------------
  // What a run without crashes would have written

  function TotalsAfter(chain: Chain, n: nat): DepthMaps {
    if n == 0 then NO_DEPTHS else ApplyEvents(TotalsAfter(chain, n - 1), chain(n).events)
  }

  function History(chain: Chain, n: nat): (history: seq<Snapshot>)
    ensures |history| == n
    ensures forall i | 0 <= i < n :: history[i].time == chain(i + 1).time
    ensures LastDepths(history) == TotalsAfter(chain, n)
  {
    if n == 0 then [] else History(chain, n - 1) + [Snapshot(chain(n).time, TotalsAfter(chain, n))]
  }

  /** The event and block rows of the first `n` blocks. */
  function Recorded(chain: Chain, n: nat): seq<Insertion> {
    if n == 0 then []
    else
      var b := chain(n);
      Recorded(chain, n - 1) + EventsInserts(b.events, b.time) + [Insertion(KeyFor(Blocks), BlockRow(b.height, b.payload))]
  }

  // ---------------------------------------------------------------------------------------------
  // The invariant

  /** A table, with the rows that are still in the batch. */
  function Rows(db: Database, pending: seq<Insertion>, table: Table): seq<Row> {
    RowsIn(db, table) + RowsOf(pending, table)
  }

  ghost predicate IsLog(chain: Chain, rows: seq<Row>, n: nat) {
    && |rows| == n
    && forall i | 0 <= i < n ::
         && rows[i].LogRow?
         && rows[i] == LogRow(i + 1, chain(i + 1).time, chain(i + 1).hash, rows[i].aggState)
         && (rows[i].aggState.None? || rows[i].aggState == Some(TotalsAfter(chain, i + 1)))
  }

  ghost predicate OtherTables(chain: Chain, db: Database, pending: seq<Insertion>, n: nat) {
    forall t | t != BlockLog && t != BlockPoolDepths :: Rows(db, pending, t) == RowsOf(Recorded(chain, n), t)
  }

  /** The tables, with the rows still in the batch, hold the first `n` blocks. */
  ghost predicate Holds(chain: Chain, db: Database, pending: seq<Insertion>, n: nat) {
    && IsLog(chain, Rows(db, pending, BlockLog), n)
    && OtherTables(chain, db, pending, n)
    && Lossless(Rows(db, pending, BlockPoolDepths), History(chain, n))
    && After(Rows(db, pending, BlockPoolDepths), History(chain, n), chain(n + 1).time)
  }

  function Height(db: Database): nat {
    |RowsIn(db, BlockLog)|
  }

  /** The database holds its first blocks without a gap, and the last of them carries the depths to restart from. */
  ghost predicate Durable(chain: Chain, db: Database) {
    var n := Height(db);
    && Holds(chain, db, [], n)
    && (n > 0 ==> RowsIn(db, BlockLog)[n - 1] == LogRow(n, chain(n).time, chain(n).hash, Some(TotalsAfter(chain, n))))
  }

  /** Every table is written with one column list, and the depths table with depths only. */
  ghost predicate FitsTables(log: seq<Insertion>) {
    forall x | x in log :: x.key == KeyFor(x.key.table) && (x.key.table == BlockPoolDepths ==> x.row.DepthRow?)
  }

  /** Tables, batch and snapshot are those of a writer that has processed the first `n` blocks. */
  ghost predicate Continues(chain: Chain, db: Database, pending: seq<Insertion>, snapshot: DepthMaps, n: nat) {
    && Holds(chain, db, pending, n)
    && FitsTables(pending)
    && GoodSnapshot(snapshot, History(chain, n))
  }

  ghost predicate Up(cfg: Config, chain: Chain, db: Database, m: Memory)
    requires cfg.blockBatch > 0
  {
    match m
    case Memory(pending, totals, snapshot, committed, processed, firstBlock) =>
      && committed == Height(db) <= processed
      && Continues(chain, db, pending, snapshot, processed)
      && (committed == processed ==> pending == [])
      && totals == TotalsAfter(chain, processed)
      && (forall h | committed < h <= processed :: !ShouldCommit(cfg, h, false))
      && (if committed == 0 then processed == 0 && (firstBlock == 0 || firstBlock == 1) else firstBlock == 1)
  }

  ghost predicate Inv(cfg: Config, chain: Chain, s: System)
    requires cfg.blockBatch > 0
  {
    && Durable(chain, s.db)
    && (cfg.hardForkHeight > 0 ==> Height(s.db) <= cfg.hardForkHeight)
    && MemoryIsUp(cfg, chain, s)
  }

  ghost predicate MemoryIsUp(cfg: Config, chain: Chain, s: System)
    requires cfg.blockBatch > 0
  {
    match s.memory
    case None => true
    case Some(m) => Up(cfg, chain, s.db, m) && (cfg.hardForkHeight > 0 ==> m.processed <= cfg.hardForkHeight)
  }

  // ---------------------------------------------------------------------------------------------
  // The tables of one block

  lemma {:induction false} EntryKeys(perPool: seq<PoolReward>, id: int, time: int)
    ensures forall x | x in EntryInserts(perPool, id, time) :: x.key == KeyFor(RewardsEventEntries)
  {
    if perPool != [] {
      EntryKeys(perPool[..|perPool| - 1], id, time);
    }
  }

  predicate IsEventTable(table: Table) {
    table != BlockLog && table != Blocks && table != BlockPoolDepths
  }

  lemma {:induction false} EventKeys(events: seq<Event>, time: int)
    ensures forall x | x in EventsInserts(events, time) :: IsEventTable(x.key.table) && x.key == KeyFor(x.key.table)
  {
    if events != [] {
      EventKeys(events[..|events| - 1], time);
      match events[|events| - 1]
      case Rewards(_, perPool, id) => EntryKeys(perPool, id, time);
      case RowOnly(kind, _, _) =>
    }
  }

  lemma {:induction false} NoRows(log: seq<Insertion>, table: Table)
    requires forall x | x in log :: x.key.table != table
    ensures RowsOf(log, table) == []
  {
    if log != [] {
      assert log[|log| - 1] in log;
      NoRows(log[..|log| - 1], table);
    }
  }

  lemma {:induction false} RowsUnderKey(key: Key, rows: seq<Row>, table: Table)
    ensures RowsOf(Under(key, rows), table) == if table == key.table then rows else []
  {
    if rows != [] {
      RowsUnderKey(key, rows[..|rows| - 1], table);
      assert Under(key, rows)[..|rows| - 1] == Under(key, rows[..|rows| - 1]);
    }
  }

  lemma BlockRows(b: Block, aggState: Option<DepthMaps>, depthRows: seq<Row>, table: Table)
    ensures RowsOf(BlockInserts(b, aggState, depthRows), table)
         == if table == BlockLog then [LogRow(b.height, b.time, b.hash, aggState)]
            else if table == BlockPoolDepths then depthRows
            else RowsOf(EventsInserts(b.events, b.time) + [Insertion(KeyFor(Blocks), BlockRow(b.height, b.payload))], table)
  {
    var events := EventsInserts(b.events, b.time);
    var log := Insertion(KeyFor(BlockLog), LogRow(b.height, b.time, b.hash, aggState));
    var block := Insertion(KeyFor(Blocks), BlockRow(b.height, b.payload));
    FourParts(events, log, block, Under(KeyFor(BlockPoolDepths), depthRows));
    EventKeys(b.events, b.time);
    RowsUnderKey(KeyFor(BlockPoolDepths), depthRows, table);
    RowsOfParts(events, log, block, Under(KeyFor(BlockPoolDepths), depthRows), table);
    if table == BlockLog || table == BlockPoolDepths {
      NoRows(events, table);
    }
  }

  lemma FourParts(events: seq<Insertion>, log: Insertion, block: Insertion, depths: seq<Insertion>)
    ensures events + [log, block] + depths == ((events + [log]) + [block]) + depths
  {
  }

  lemma RowsOfParts(events: seq<Insertion>, log: Insertion, block: Insertion, depths: seq<Insertion>, table: Table)
    ensures RowsOf(((events + [log]) + [block]) + depths, table)
         == RowsOf(events, table) + (if log.key.table == table then [log.row] else [])
            + (if block.key.table == table then [block.row] else []) + RowsOf(depths, table)
    ensures RowsOf(events + [block], table) == RowsOf(events, table) + (if block.key.table == table then [block.row] else [])
  {
    RowsOfConcat((events + [log]) + [block], depths, table);
    assert ((events + [log]) + [block])[..|events| + 1] == events + [log];
    assert (events + [log])[..|events|] == events;
    assert (events + [block])[..|events|] == events;
  }

  lemma BlockColumns(b: Block, aggState: Option<DepthMaps>, depthRows: seq<Row>)
    requires forall r | r in depthRows :: r.DepthRow?
    ensures FitsTables(BlockInserts(b, aggState, depthRows))
  {
    EventKeys(b.events, b.time);
  }

  /** Every table has the rows of the batch added at its end. */
  ghost predicate Appends(db: Database, pending: seq<Insertion>, db': Database) {
    forall t :: RowsIn(db', t) == Rows(db, pending, t)
  }

  /** A flush appends the batch to each table. */
  lemma FlushAppends(schema: Schema, db: Database, pending: seq<Insertion>, db': Database)
    requires Flushed(schema, db, pending, db') && FitsTables(pending)
    ensures Appends(db, pending, db')
  {
    var flat :| IsFlushOrder(pending, flat) && InsertAll(schema, db, flat) == Some(db');
    InsertAllTables(schema, db, flat);
    SameInsertions(pending, flat);
    forall t
      ensures RowsOf(flat, t) == RowsOf(pending, t)
    {
      var key := KeyFor(t);
      OneKeyPerTable(flat, key);
      OneKeyPerTable(pending, key);
    }
  }

  // ---------------------------------------------------------------------------------------------
  // One block more

  /** `added` holds the rows of block `n + 1`, table by table. */
  ghost predicate IsNextBlock(chain: Chain, n: nat, aggState: Option<DepthMaps>, depthRows: seq<Row>, added: seq<Insertion>) {
    && RowsOf(added, BlockLog) == [LogRow(chain(n + 1).height, chain(n + 1).time, chain(n + 1).hash, aggState)]
    && RowsOf(added, BlockPoolDepths) == depthRows
    && (forall t | t != BlockLog && t != BlockPoolDepths ::
          RowsOf(Recorded(chain, n + 1), t) == RowsOf(Recorded(chain, n), t) + RowsOf(added, t))
    && FitsTables(added)
  }

  lemma BlockIsNext(chain: Chain, n: nat, aggState: Option<DepthMaps>, depthRows: seq<Row>, inserts: seq<Insertion>)
    requires inserts == BlockInserts(chain(n + 1), aggState, depthRows) && forall r | r in depthRows :: r.DepthRow?
    ensures IsNextBlock(chain, n, aggState, depthRows, inserts)
  {
    var b := chain(n + 1);
    var added := EventsInserts(b.events, b.time) + [Insertion(KeyFor(Blocks), BlockRow(b.height, b.payload))];
    BlockColumns(b, aggState, depthRows);
    BlockRows(b, aggState, depthRows, BlockLog);
    BlockRows(b, aggState, depthRows, BlockPoolDepths);
    assert Recorded(chain, n + 1) == Recorded(chain, n) + added;
    forall t | t != BlockLog && t != BlockPoolDepths
      ensures RowsOf(Recorded(chain, n + 1), t)
           == RowsOf(Recorded(chain, n), t) + RowsOf(BlockInserts(b, aggState, depthRows), t)
    {
      BlockRows(b, aggState, depthRows, t);
      RowsOfConcat(Recorded(chain, n), added, t);
    }
  }

  lemma LogOfOneMore(chain: Chain, rows: seq<Row>, n: nat, aggState: Option<DepthMaps>, rows': seq<Row>)
    requires IsChain(chain) && IsLog(chain, rows, n)
    requires aggState == None || aggState == Some(TotalsAfter(chain, n + 1))
    requires rows' == rows + [LogRow(chain(n + 1).height, chain(n + 1).time, chain(n + 1).hash, aggState)]
    ensures IsLog(chain, rows', n + 1)
  {
    forall i | 0 <= i < n + 1
      ensures rows'[i].LogRow? && rows'[i] == LogRow(i + 1, chain(i + 1).time, chain(i + 1).hash, rows'[i].aggState)
      ensures rows'[i].aggState.None? || rows'[i].aggState == Some(TotalsAfter(chain, i + 1))
    {
      if i < n {
        assert rows'[i] == rows[i];
      }
    }
  }

  lemma OtherTablesOfOneMore(chain: Chain, db: Database, pending: seq<Insertion>, n: nat, added: seq<Insertion>)
    requires OtherTables(chain, db, pending, n)
    requires forall t | t != BlockLog && t != BlockPoolDepths ::
               RowsOf(Recorded(chain, n + 1), t) == RowsOf(Recorded(chain, n), t) + RowsOf(added, t)
    ensures OtherTables(chain, db, pending + added, n + 1)
  {
    forall t | t != BlockLog && t != BlockPoolDepths
      ensures Rows(db, pending + added, t) == RowsOf(Recorded(chain, n + 1), t)
    {
      TableOfOneMore(db, pending, added, RowsOf(Recorded(chain, n), t), t);
    }
  }

  lemma TableOfOneMore(db: Database, pending: seq<Insertion>, added: seq<Insertion>, before: seq<Row>, t: Table)
    requires Rows(db, pending, t) == before
    ensures Rows(db, pending + added, t) == before + RowsOf(added, t)
  {
    RowsOfConcat(pending, added, t);
    Associative(RowsIn(db, t), RowsOf(pending, t), RowsOf(added, t));
  }

  lemma Associative(a: seq<Row>, b: seq<Row>, c: seq<Row>)
    ensures a + (b + c) == (a + b) + c
  {
  }

  lemma OneBlockMore(chain: Chain, db: Database, pending: seq<Insertion>, snapshot: DepthMaps, n: nat, now: DepthMaps,
                     aggState: Option<DepthMaps>, depthRows: seq<Row>, added: seq<Insertion>)
    requires IsChain(chain) && Holds(chain, db, pending, n) && GoodSnapshot(snapshot, History(chain, n))
    requires now == TotalsAfter(chain, n + 1) && (aggState == None || aggState == Some(now))
    requires IsChangeSet(snapshot, now, chain(n + 1).time, depthRows)
    requires IsNextBlock(chain, n, aggState, depthRows, added)
    ensures Holds(chain, db, pending + added, n + 1)
  {
    TableOfOneMore(db, pending, added, Rows(db, pending, BlockPoolDepths), BlockPoolDepths);
    TableOfOneMore(db, pending, added, Rows(db, pending, BlockLog), BlockLog);
    LogOfOneMore(chain, Rows(db, pending, BlockLog), n, aggState, Rows(db, pending + added, BlockLog));
    OtherTablesOfOneMore(chain, db, pending, n, added);
    DepthsStayLossless(chain, Rows(db, pending, BlockPoolDepths), snapshot, n, now, depthRows,
                       Rows(db, pending + added, BlockPoolDepths));
  }

  lemma DepthsStayLossless(chain: Chain, rows: seq<Row>, snapshot: DepthMaps, n: nat, now: DepthMaps, depthRows: seq<Row>,
                           rows': seq<Row>)
    requires IsChain(chain) && GoodSnapshot(snapshot, History(chain, n))
    requires Lossless(rows, History(chain, n)) && After(rows, History(chain, n), chain(n + 1).time)
    requires now == TotalsAfter(chain, n + 1) && IsChangeSet(snapshot, now, chain(n + 1).time, depthRows)
    requires rows' == rows + depthRows
    ensures Lossless(rows', History(chain, n + 1))
    ensures After(rows', History(chain, n + 1), chain(n + 2).time)
  {
    UpdateIsLosslessIff(rows, History(chain, n), snapshot, now, chain(n + 1).time, depthRows);
    PoolsAreKept(TotalsAfter(chain, n), chain(n + 1).events);
    assert KeepsPools(History(chain, n), now);
  }

  // ---------------------------------------------------------------------------------------------
  // The steps keep the invariant

  lemma WhatIsWritten(cfg: Config, chain: Chain, s: System, s': System) returns (flush: bool, depthRows: seq<Row>)
    requires cfg.blockBatch > 0 && Writes(cfg, chain, s, s')
    ensures var m := s.memory.value;
            && ProcessedWith(cfg.schema, chain(m.processed + 1), flush, s.db, m, s'.db, s'.memory.value, depthRows)
            && (!flush ==> !ShouldCommit(cfg, m.processed + 1, false) && !IsFirstBlock(m, m.processed + 1))
            && (cfg.hardForkHeight == 0 || m.processed + 1 <= cfg.hardForkHeight)
  {
    var m, m' := s.memory.value, s'.memory.value;
    var h := m.processed + 1;
    var synced :| WritesWith(cfg, chain, s.db, m, s'.db, m', synced);
    flush := ShouldFlush(cfg, m, h, synced);
    depthRows :| ProcessedWith(cfg.schema, chain(h), flush, s.db, m, s'.db, m', depthRows);
  }

  lemma WriteKeepsUp(cfg: Config, chain: Chain, db: Database, m: Memory, db': Database, m': Memory, flush: bool,
                     depthRows: seq<Row>)
    requires cfg.blockBatch > 0 && IsChain(chain) && Durable(chain, db) && Up(cfg, chain, db, m)
    requires ProcessedWith(cfg.schema, chain(m.processed + 1), flush, db, m, db', m', depthRows)
    requires !flush ==> !ShouldCommit(cfg, m.processed + 1, false) && !IsFirstBlock(m, m.processed + 1)
    ensures Durable(chain, db') && Up(cfg, chain, db', m') && m'.processed == m.processed + 1
  {
    if flush {
      FlushingKeepsInv(cfg, chain, db, m, db', m', depthRows);
    } else {
      BatchingKeepsInv(cfg, chain, db, m, db', m', depthRows);
    }
  }

  lemma WriteKeepsInv(cfg: Config, chain: Chain, s: System, s': System)
    requires cfg.blockBatch > 0 && IsChain(chain) && Inv(cfg, chain, s) && Writes(cfg, chain, s, s')
    ensures Inv(cfg, chain, s')
  {
    var flush, depthRows := WhatIsWritten(cfg, chain, s, s');
    assert s' == System(s'.db, Some(s'.memory.value));
    WrittenKeepsInv(cfg, chain, s.db, s.memory.value, s'.db, s'.memory.value, flush, depthRows);
  }

  lemma WrittenKeepsInv(cfg: Config, chain: Chain, db: Database, m: Memory, db': Database, m': Memory, flush: bool,
                        depthRows: seq<Row>)
    requires cfg.blockBatch > 0 && IsChain(chain) && Durable(chain, db) && Up(cfg, chain, db, m)
    requires ProcessedWith(cfg.schema, chain(m.processed + 1), flush, db, m, db', m', depthRows)
    requires !flush ==> !ShouldCommit(cfg, m.processed + 1, false) && !IsFirstBlock(m, m.processed + 1)
    requires cfg.hardForkHeight == 0 || m.processed + 1 <= cfg.hardForkHeight
    ensures Inv(cfg, chain, System(db', Some(m')))
  {
    WriteKeepsUp(cfg, chain, db, m, db', m', flush, depthRows);
    UpIsInv(cfg, chain, db', m');
  }

  lemma UpIsInv(cfg: Config, chain: Chain, db: Database, m: Memory)
    requires cfg.blockBatch > 0 && Durable(chain, db) && Up(cfg, chain, db, m)
    requires cfg.hardForkHeight > 0 ==> m.processed <= cfg.hardForkHeight
    ensures Inv(cfg, chain, System(db, Some(m)))
  {
  }

  lemma BatchingKeepsInv(cfg: Config, chain: Chain, db: Database, m: Memory, db': Database, m': Memory, depthRows: seq<Row>)
    requires cfg.blockBatch > 0 && IsChain(chain) && Up(cfg, chain, db, m)
    requires ProcessedWith(cfg.schema, chain(m.processed + 1), false, db, m, db', m', depthRows)
    requires !ShouldCommit(cfg, m.processed + 1, false) && !IsFirstBlock(m, m.processed + 1)
    ensures db' == db && Up(cfg, chain, db', m')
  {
    var added := BlockInserts(chain(m.processed + 1), None, depthRows);
    BatchedBlock(chain, db, m.pending, m.snapshot, m.processed, m'.totals, None, depthRows, added, m'.pending);
    StillUp(cfg, chain, db, m, m');
  }

  lemma StillUp(cfg: Config, chain: Chain, db: Database, m: Memory, m': Memory)
    requires cfg.blockBatch > 0 && 0 < m.committed == Height(db) <= m.processed && m'.processed == m.processed + 1
    requires m'.committed == m.committed && m'.firstBlock == m.firstBlock == 1
    requires m'.snapshot == m'.totals == TotalsAfter(chain, m'.processed)
    requires Continues(chain, db, m'.pending, m'.snapshot, m'.processed)
    requires forall h | m.committed < h <= m.processed :: !ShouldCommit(cfg, h, false)
    requires !ShouldCommit(cfg, m'.processed, false)
    ensures Up(cfg, chain, db, m')
  {
  }

  lemma BatchedBlock(chain: Chain, db: Database, pending: seq<Insertion>, snapshot: DepthMaps, n: nat, now: DepthMaps,
                     aggState: Option<DepthMaps>, depthRows: seq<Row>, added: seq<Insertion>, pending': seq<Insertion>)
    requires IsChain(chain) && Continues(chain, db, pending, snapshot, n) && pending' == pending + added
    requires now == TotalsAfter(chain, n + 1) && (aggState == None || aggState == Some(now))
    requires IsChangeSet(snapshot, now, chain(n + 1).time, depthRows)
    requires added == BlockInserts(chain(n + 1), aggState, depthRows)
    ensures Continues(chain, db, pending', now, n + 1)
  {
    BlockIsNext(chain, n, aggState, depthRows, added);
    OneBlockMore(chain, db, pending, snapshot, n, now, aggState, depthRows, added);
  }

  lemma FlushingKeepsInv(cfg: Config, chain: Chain, db: Database, m: Memory, db': Database, m': Memory, depthRows: seq<Row>)
    requires cfg.blockBatch > 0 && IsChain(chain) && Up(cfg, chain, db, m)
    requires ProcessedWith(cfg.schema, chain(m.processed + 1), true, db, m, db', m', depthRows)
    ensures Durable(chain, db') && Height(db') == m.processed + 1 && Up(cfg, chain, db', m')
  {
    var b := chain(m.processed + 1);
    var added := BlockInserts(b, Some(m'.totals), depthRows);
    MemoryAfterFlush(chain, b, m, m');
    BlockAppends(cfg.schema, db, m, b, depthRows, db', m');
    FlushedUp(cfg, chain, db, m.pending, m.snapshot, m.processed, depthRows, added, db', m');
  }

  lemma BlockAppends(schema: Schema, db: Database, m: Memory, b: Block, depthRows: seq<Row>, db': Database, m': Memory)
    requires ProcessedWith(schema, b, true, db, m, db', m', depthRows) && FitsTables(m.pending)
    ensures Appends(db, m.pending + BlockInserts(b, Some(m'.totals), depthRows), db')
  {
    BlockColumns(b, Some(m'.totals), depthRows);
    BothFit(m.pending, BlockInserts(b, Some(m'.totals), depthRows));
    FlushAppends(schema, db, m.pending + BlockInserts(b, Some(m'.totals), depthRows), db');
  }

  lemma BothFit(a: seq<Insertion>, b: seq<Insertion>)
    requires FitsTables(a) && FitsTables(b)
    ensures FitsTables(a + b)
  {
  }

  lemma FlushedUp(cfg: Config, chain: Chain, db: Database, pending: seq<Insertion>, snapshot: DepthMaps, n: nat,
                  depthRows: seq<Row>, added: seq<Insertion>, db': Database, m': Memory)
    requires cfg.blockBatch > 0 && IsChain(chain) && Continues(chain, db, pending, snapshot, n)
    requires m'.processed == m'.committed == n + 1 && m'.pending == [] && m'.firstBlock == 1
    requires m'.totals == m'.snapshot == TotalsAfter(chain, n + 1)
    requires IsChangeSet(snapshot, m'.totals, chain(n + 1).time, depthRows)
    requires added == BlockInserts(chain(n + 1), Some(m'.totals), depthRows)
    requires Appends(db, pending + added, db')
    ensures Durable(chain, db') && Height(db') == n + 1 && Up(cfg, chain, db', m')
  {
    FlushedBlock(chain, db, pending, snapshot, n, m'.totals, depthRows, added, db');
    NowUp(cfg, chain, db', m', n + 1);
  }

  lemma MemoryAfterFlush(chain: Chain, b: Block, m: Memory, m': Memory)
    requires m.processed >= 0 && b == chain(m.processed + 1) && b.height == m.processed + 1
    requires m.totals == TotalsAfter(chain, m.processed) && m'.totals == ApplyEvents(m.totals, b.events)
    requires if m.committed == 0 then m.processed == 0 && (m.firstBlock == 0 || m.firstBlock == 1) else m.firstBlock == 1
    requires m'.firstBlock == if m.firstBlock == 0 then b.height else m.firstBlock
    ensures m'.firstBlock == 1 && m'.totals == TotalsAfter(chain, m.processed + 1)
  {
  }

  /** After a flush memory and tables agree, and nothing is pending. */
  lemma NowUp(cfg: Config, chain: Chain, db: Database, m: Memory, n: nat)
    requires cfg.blockBatch > 0 && n > 0
    requires m.processed == m.committed == n == Height(db) && m.pending == [] && m.firstBlock == 1
    requires m.totals == m.snapshot == TotalsAfter(chain, n)
    requires Continues(chain, db, [], m.snapshot, n)
    ensures Up(cfg, chain, db, m)
  {
  }

  lemma FlushedBlock(chain: Chain, db: Database, pending: seq<Insertion>, snapshot: DepthMaps, n: nat, now: DepthMaps,
                     depthRows: seq<Row>, added: seq<Insertion>, db': Database)
    requires IsChain(chain) && Continues(chain, db, pending, snapshot, n) && now == TotalsAfter(chain, n + 1)
    requires IsChangeSet(snapshot, now, chain(n + 1).time, depthRows)
    requires added == BlockInserts(chain(n + 1), Some(now), depthRows)
    requires Appends(db, pending + added, db')
    ensures Durable(chain, db') && Height(db') == n + 1 && Continues(chain, db', [], now, n + 1)
  {
    BlockIsNext(chain, n, Some(now), depthRows, added);
    OneBlockMore(chain, db, pending, snapshot, n, now, Some(now), depthRows, added);
    CommitIsDurable(chain, db, pending, n, Some(now), depthRows, added, db');
  }

  lemma CommitIsDurable(chain: Chain, db: Database, pending: seq<Insertion>, n: nat, aggState: Option<DepthMaps>,
                        depthRows: seq<Row>, added: seq<Insertion>, db': Database)
    requires IsChain(chain) && Holds(chain, db, pending, n)
    requires IsNextBlock(chain, n, aggState, depthRows, added)
    requires Holds(chain, db, pending + added, n + 1)
    requires Appends(db, pending + added, db')
    requires aggState == Some(TotalsAfter(chain, n + 1))
    ensures Durable(chain, db') && Height(db') == n + 1 && Holds(chain, db', [], n + 1)
  {
    forall t
      ensures Rows(db', [], t) == RowsIn(db', t)
    {
    }
    RowsOfConcat(pending, added, BlockLog);
  }

  lemma {:induction false} HighestIsLast(chain: Chain, rows: seq<Row>, n: nat)
    requires IsLog(chain, rows, n)
    ensures HighestRow(rows) == if n == 0 then None else Some(rows[n - 1])
  {
    if n > 0 {
      HighestIsLast(chain, rows[..n - 1], n - 1);
    }
  }

  /** A restart succeeds and restores exactly the depths after the last durable block. */
  lemma RestartRestores(chain: Chain, db: Database, firstBlock: int)
    requires Durable(chain, db)
    ensures Setup(db, firstBlock)
         == Some(Memory([], TotalsAfter(chain, Height(db)), NO_DEPTHS, Height(db), Height(db), firstBlock))
  {
    assert Rows(db, [], BlockLog) == RowsIn(db, BlockLog);
    HighestIsLast(chain, RowsIn(db, BlockLog), Height(db));
  }

  lemma RestartKeepsInv(cfg: Config, chain: Chain, s: System, cfg': Config, s': System)
    requires cfg.blockBatch > 0 && IsChain(chain) && Inv(cfg, chain, s)
    requires Reconfigured(cfg, cfg') && Restarts(s, s')
    ensures Inv(cfg', chain, s') && s'.memory.Some?
  {
    var firstBlock :|
      && (if HighestRow(RowsIn(s.db, BlockLog)).Some? then firstBlock == 1 else firstBlock == 0 || firstBlock == 1)
      && s' == System(s.db, Setup(s.db, firstBlock));
    RestartRestores(chain, s.db, firstBlock);
    assert Rows(s.db, [], BlockLog) == RowsIn(s.db, BlockLog);
    HighestIsLast(chain, RowsIn(s.db, BlockLog), Height(s.db));
  }

  lemma NextKeepsInv(chain: Chain, x: Stage, y: Stage)
    requires x.cfg.blockBatch > 0 && IsChain(chain) && Inv(x.cfg, chain, x.system) && Next(chain, x, y)
    ensures y.cfg.blockBatch > 0 && Inv(y.cfg, chain, y.system)
  {
    if y.cfg == x.cfg && Writes(x.cfg, chain, x.system, y.system) {
      WriteKeepsInv(x.cfg, chain, x.system, y.system);
    } else if Reconfigured(x.cfg, y.cfg) && Restarts(x.system, y.system) {
      RestartKeepsInv(x.cfg, chain, x.system, y.cfg, y.system);
    }
  }

  lemma InitInv(cfg: Config, chain: Chain)
    requires cfg.blockBatch > 0
    ensures Inv(cfg, chain, System(map[], None))
  {
    var db: Database := map[];
    assert forall t :: Rows(db, [], t) == [];
    assert Height(db) == 0 && Recorded(chain, 0) == [];
  }

  /** Every interleaving of writing, crashing and restarting, with whatever settings, keeps the invariant. */
  lemma {:induction false} RunsAreSafe(chain: Chain, run: seq<Stage>)
    requires IsChain(chain) && IsRun(chain, run)
    ensures var end := run[|run| - 1]; end.cfg.blockBatch > 0 && Inv(end.cfg, chain, end.system)
  {
    if |run| == 1 {
      InitInv(run[0].cfg, chain);
    } else {
      var before := run[..|run| - 1];
      forall i, j | 0 <= i < j < |before| && j == i + 1
        ensures Next(chain, before[i], before[j])
      {
        assert Next(chain, run[i], run[j]);
      }
      RunsAreSafe(chain, before);
      assert Next(chain, run[|run| - 2], run[|run| - 1]);
      NextKeepsInv(chain, run[|run| - 2], run[|run| - 1]);
    }
  }

  // ---------------------------------------------------------------------------------------------
  // Flushes succeed

  /** The schema accepts all rows of the chain, whichever aggregation states and depths are written. */
  ghost predicate Accepts(schema: Schema, chain: Chain) {
    && (forall n: nat, t, r | r in RowsOf(Recorded(chain, n), t) :: schema(t, r))
    && (forall n: nat, aggState :: schema(BlockLog, LogRow(n, chain(n).time, chain(n).hash, aggState)))
    && (forall r: Row | r.DepthRow? :: schema(BlockPoolDepths, r))
  }

  lemma BlockRowOfOneMore(chain: Chain, n: nat)
    requires n > 0
    ensures RowsOf(Recorded(chain, n), Blocks)
         == RowsOf(Recorded(chain, n - 1), Blocks) + [BlockRow(chain(n).height, chain(n).payload)]
  {
    var b := chain(n);
    var events, block := EventsInserts(b.events, b.time), [Insertion(KeyFor(Blocks), BlockRow(b.height, b.payload))];
    EventKeys(b.events, b.time);
    NoRows(events, Blocks);
    RowsOfConcat(Recorded(chain, n - 1) + events, block, Blocks);
    RowsOfConcat(Recorded(chain, n - 1), events, Blocks);
    assert block[..0] == [];
  }

  /** One row for each height up to `n`, in order. */
  ghost predicate AreBlocks(rows: seq<Row>, n: nat) {
    |rows| == n && forall i | 0 <= i < n :: rows[i].BlockRow? && rows[i].height == i + 1
  }

  lemma OneRowMore(rows: seq<Row>, n: nat, row: Row, more: seq<Row>)
    requires AreBlocks(rows, n) && row.BlockRow? && row.height == n + 1 && more == rows + [row]
    ensures AreBlocks(more, n + 1)
  {
  }

  lemma {:induction false} BlocksAreRecorded(chain: Chain, n: nat)
    requires IsChain(chain)
    ensures AreBlocks(RowsOf(Recorded(chain, n), Blocks), n)
  {
    if n > 0 {
      BlocksAreRecorded(chain, n - 1);
      BlockRowOfOneMore(chain, n);
      OneRowMore(RowsOf(Recorded(chain, n - 1), Blocks), n - 1, BlockRow(chain(n).height, chain(n).payload),
                 RowsOf(Recorded(chain, n), Blocks));
    }
  }

  lemma NewAmongAll(table: Table, there: seq<Row>, rows: seq<Row>)
    requires forall i, j | 0 <= i < j < |there + rows| :: !Clash(table, (there + rows)[i], (there + rows)[j])
    ensures AreNew(table, there, rows)
  {
    var all := there + rows;
    forall i, j | 0 <= i < |there| && 0 <= j < |rows|
      ensures !Clash(table, there[i], rows[j])
    {
      assert all[i] == there[i] && all[|there| + j] == rows[j];
    }
    forall i, j | 0 <= i < j < |rows|
      ensures !Clash(table, rows[i], rows[j])
    {
      assert all[|there| + i] == rows[i] && all[|there| + j] == rows[j];
    }
  }

  lemma LogKeysDiffer(chain: Chain, rows: seq<Row>, n: nat)
    requires IsChain(chain) && IsLog(chain, rows, n)
    ensures forall i, j | 0 <= i < j < n :: !Clash(BlockLog, rows[i], rows[j])
  {
    forall i, j | 0 <= i < j < n
      ensures !Clash(BlockLog, rows[i], rows[j])
    {
      assert chain(i + 1).time < chain(j + 1).time;
    }
  }

  /** Heights and block times increase, so no key is given twice. */
  lemma HeldKeysAreNew(chain: Chain, db: Database, pending: seq<Insertion>, n: nat)
    requires IsChain(chain) && IsLog(chain, Rows(db, pending, BlockLog), n) && OtherTables(chain, db, pending, n)
    ensures KeysAreNew(db, pending)
  {
    LogKeysDiffer(chain, Rows(db, pending, BlockLog), n);
    NewAmongAll(BlockLog, RowsIn(db, BlockLog), RowsOf(pending, BlockLog));
    BlocksAreRecorded(chain, n);
    assert Rows(db, pending, Blocks) == RowsOf(Recorded(chain, n), Blocks);
    NewAmongAll(Blocks, RowsIn(db, Blocks), RowsOf(pending, Blocks));
  }

  lemma HeldRowFits(schema: Schema, chain: Chain, db: Database, pending: seq<Insertion>, n: nat, x: Insertion)
    requires IsChain(chain) && Accepts(schema, chain) && FitsTables(pending) && x in pending
    requires IsLog(chain, Rows(db, pending, BlockLog), n) && OtherTables(chain, db, pending, n)
    ensures schema(x.key.table, x.row)
    ensures x.key.table == Blocks ==> x.row.BlockRow? && HasLogHeight(Rows(db, pending, BlockLog), x.row.height)
  {
    RowArrives(pending, x);
    assert x.row in Rows(db, pending, x.key.table);
    if x.key.table == Blocks {
      BlocksAreRecorded(chain, n);
      assert Rows(db, pending, BlockLog)[x.row.height - 1] in Rows(db, pending, BlockLog);
    }
  }

  /** The rows in the batch fit, their keys are new, and each row of `blocks` has its row of `block_log`. */
  lemma HeldCanFlush(schema: Schema, chain: Chain, db: Database, pending: seq<Insertion>, n: nat)
    requires IsChain(chain) && Accepts(schema, chain) && Holds(chain, db, pending, n) && FitsTables(pending)
    ensures CanFlush(schema, db, pending)
  {
    HeldKeysAreNew(chain, db, pending, n);
    forall x | x in pending
      ensures schema(x.key.table, x.row)
      ensures x.key.table == Blocks ==> x.row.BlockRow? && HasLogHeight(Rows(db, pending, BlockLog), x.row.height)
    {
      HeldRowFits(schema, chain, db, pending, n, x);
    }
  }

  /** The batch that ends with the next block can be flushed. */
  lemma NextFlushSucceeds(schema: Schema, chain: Chain, db: Database, pending: seq<Insertion>, snapshot: DepthMaps, n: nat,
                          now: DepthMaps, depthRows: seq<Row>, added: seq<Insertion>)
    requires IsChain(chain) && Accepts(schema, chain)
    requires Continues(chain, db, pending, snapshot, n)
    requires now == TotalsAfter(chain, n + 1) && IsChangeSet(snapshot, now, chain(n + 1).time, depthRows)
    requires added == BlockInserts(chain(n + 1), Some(now), depthRows)
    ensures CanFlush(schema, db, pending + added)
  {
    BatchedBlock(chain, db, pending, snapshot, n, now, Some(now), depthRows, added, pending + added);
    HeldCanFlush(schema, chain, db, pending + added, n + 1);
  }

  ghost predicate CanFlushWith(schema: Schema, db: Database, m: Memory, b: Block, now: DepthMaps, depthRows: seq<Row>) {
    IsChangeSet(m.snapshot, now, b.time, depthRows) ==>
      CanFlush(schema, db, m.pending + BlockInserts(b, Some(now), depthRows))
  }

  /** The flush after block `b` succeeds, in whatever order the depth rows were inserted. */
  ghost predicate CanFlushNext(schema: Schema, db: Database, m: Memory, b: Block, now: DepthMaps) {
    forall depthRows :: CanFlushWith(schema, db, m, b, now, depthRows)
  }

  lemma NextFlushes(schema: Schema, chain: Chain, db: Database, m: Memory, n: nat, b: Block, now: DepthMaps)
    requires IsChain(chain) && Accepts(schema, chain) && b == chain(n + 1) && now == TotalsAfter(chain, n + 1)
    requires Continues(chain, db, m.pending, m.snapshot, n)
    ensures CanFlushNext(schema, db, m, b, now)
  {
    forall depthRows
      ensures CanFlushWith(schema, db, m, b, now, depthRows)
    {
      if IsChangeSet(m.snapshot, now, b.time, depthRows) {
        NextFlushSucceeds(schema, chain, db, m.pending, m.snapshot, n, now, depthRows, BlockInserts(b, Some(now), depthRows));
      }
    }
  }

  lemma NextFlushesUp(cfg: Config, chain: Chain, db: Database, m: Memory, b: Block, now: DepthMaps)
    requires cfg.blockBatch > 0 && IsChain(chain) && Accepts(cfg.schema, chain) && Up(cfg, chain, db, m)
    requires b == chain(m.processed + 1) && now == ApplyEvents(m.totals, b.events)
    ensures CanFlushNext(cfg.schema, db, m, b, now)
  {
    NextFlushes(cfg.schema, chain, db, m, m.processed, b, now);
  }

  /** In every state of a run the batch that ends with the next block can be flushed. */
  lemma FlushesNeverFail(cfg: Config, chain: Chain, s: System, m: Memory, b: Block)
    requires cfg.blockBatch > 0 && IsChain(chain) && Accepts(cfg.schema, chain) && Inv(cfg, chain, s)
    requires s.memory == Some(m) && b == chain(m.processed + 1)
    ensures CanFlushNext(cfg.schema, s.db, m, b, ApplyEvents(m.totals, b.events))
  {
    NextFlushesUp(cfg, chain, s.db, m, b, ApplyEvents(m.totals, b.events));
  }

  // ---------------------------------------------------------------------------------------------
  // What the invariant means

  /** Fewer blocks than a batch are ever in memory only. */
  lemma FewUnflushed(cfg: Config, chain: Chain, s: System)
    requires cfg.blockBatch > 0 && Inv(cfg, chain, s) && s.memory.Some?
    ensures 0 <= s.memory.value.processed - Height(s.db) < cfg.blockBatch
  {
    var m := s.memory.value;
    Multiples.MultipleWithin(m.committed, cfg.blockBatch);
    if m.processed - m.committed >= cfg.blockBatch {
      assert ShouldCommit(cfg, m.committed + cfg.blockBatch - m.committed % cfg.blockBatch, false);
    }
  }

  /** At a hard fork the writer stops with everything up to the fork, and nothing beyond it, in the database. */
  lemma ForkIsTheEnd(cfg: Config, chain: Chain, s: System)
    requires cfg.blockBatch > 0 && cfg.hardForkHeight > 0 && Inv(cfg, chain, s)
    ensures Height(s.db) <= cfg.hardForkHeight
    ensures s.memory.Some? && s.memory.value.processed >= cfg.hardForkHeight ==>
              Height(s.db) == cfg.hardForkHeight && s.memory.value.pending == []
    ensures s.memory.Some? && s.memory.value.processed >= cfg.hardForkHeight ==> forall s' :: !Writes(cfg, chain, s, s')
  {
    if s.memory.Some? && s.memory.value.processed >= cfg.hardForkHeight {
      assert ShouldCommit(cfg, cfg.hardForkHeight, false);
    }
  }

  /** Rows of `block_log` without the aggregation state, which depends on where the batches ended. */
  function WithoutState(rows: seq<Row>): (r: seq<Row>)
    requires forall x | x in rows :: x.LogRow?
    ensures |r| == |rows| && forall i | 0 <= i < |rows| :: r[i] == rows[i].(aggState := None)
  {
    seq(|rows|, i requires 0 <= i < |rows| => rows[i].(aggState := None))
  }

  /**
    However often each of two runs crashed, and wherever their batches ended, databases of the same height hold the
    same rows, up to the aggregation states and to how sparsely the same depths are written.
   */
  lemma CrashesLeaveNoTrace(chain: Chain, db: Database, db': Database)
    requires IsChain(chain) && Durable(chain, db) && Durable(chain, db') && Height(db) == Height(db')
    ensures forall t | t != BlockLog && t != BlockPoolDepths :: RowsIn(db, t) == RowsIn(db', t)
    ensures (forall x | x in RowsIn(db, BlockLog) + RowsIn(db', BlockLog) :: x.LogRow?)
         && WithoutState(RowsIn(db, BlockLog)) == WithoutState(RowsIn(db', BlockLog))
    ensures forall pool, t ::
              DepthAt(RowsIn(db, BlockPoolDepths), pool, t) == DepthAt(RowsIn(db', BlockPoolDepths), pool, t)
  {
    forall t
      ensures Rows(db, [], t) == RowsIn(db, t) && Rows(db', [], t) == RowsIn(db', t)
    {
    }
    var n := Height(db);
    LogRowsAgree(chain, RowsIn(db, BlockLog), RowsIn(db', BlockLog), n);
    assert OtherTables(chain, db, [], n) && OtherTables(chain, db', [], n);
    DepthsAgree(RowsIn(db, BlockPoolDepths), RowsIn(db', BlockPoolDepths), History(chain, n));
  }

  lemma LogRowsAgree(chain: Chain, rows: seq<Row>, rows': seq<Row>, n: nat)
    requires IsLog(chain, rows, n) && IsLog(chain, rows', n)
    ensures forall x | x in rows + rows' :: x.LogRow?
    ensures WithoutState(rows) == WithoutState(rows')
  {
  }

  lemma DepthsAgree(rows: seq<Row>, rows': seq<Row>, history: seq<Snapshot>)
    requires Lossless(rows, history) && Lossless(rows', history)
    ensures forall pool, t :: DepthAt(rows, pool, t) == DepthAt(rows', pool, t)
  {
  }

  lemma EntriesOfOneMore(chain: Chain, n: nat, pool: string, t: int)
    requires n > 0
    ensures var b := chain(n);
            EntrySum(RowsOf(Recorded(chain, n), RewardsEventEntries), pool, t) ==
            EntrySum(RowsOf(Recorded(chain, n - 1), RewardsEventEntries), pool, t) +
            EntrySum(RowsOf(EventsInserts(b.events, b.time), RewardsEventEntries), pool, t)
  {
    var b := chain(n);
    var before, added := Recorded(chain, n - 1), EventsInserts(b.events, b.time);
    var block := Insertion(KeyFor(Blocks), BlockRow(b.height, b.payload));
    RowsOfConcat(before + added, [block], RewardsEventEntries);
    RowsOfConcat(before, added, RewardsEventEntries);
    assert [block][..0] == [];
    EntrySumConcat(RowsOf(before, RewardsEventEntries), RowsOf(added, RewardsEventEntries), pool, t);
  }

  /** The true depths at a time are the sum of the reward entries recorded by then. */
  lemma {:induction false} HistoryMatchesEntries(chain: Chain, n: nat, pool: string, t: int)
    requires IsChain(chain)
    ensures ValueOf(TrueDepths(History(chain, n), t).qbtc, pool)
         == EntrySum(RowsOf(Recorded(chain, n), RewardsEventEntries), pool, t)
  {
    if n > 0 {
      HistoryMatchesEntries(chain, n - 1, pool, t);
      BlockMatchesEntries(chain, n, pool, t);
    }
  }

  lemma BlockMatchesEntries(chain: Chain, n: nat, pool: string, t: int)
    requires IsChain(chain) && n > 0
    ensures ValueOf(TrueDepths(History(chain, n), t).qbtc, pool) - ValueOf(TrueDepths(History(chain, n - 1), t).qbtc, pool)
         == EntrySum(RowsOf(Recorded(chain, n), RewardsEventEntries), pool, t)
            - EntrySum(RowsOf(Recorded(chain, n - 1), RewardsEventEntries), pool, t)
  {
    var b := chain(n);
    DepthsMatchEntries(TotalsAfter(chain, n - 1), b.events, b.time, pool, t);
    EntriesOfOneMore(chain, n, pool, t);
    DepthsOfOneMore(chain, n, pool, t);
  }

  /** A block moves the true depths from its time on, by what its events do to the totals. */
  lemma DepthsOfOneMore(chain: Chain, n: nat, pool: string, t: int)
    requires IsChain(chain) && n > 0
    ensures ValueOf(TrueDepths(History(chain, n), t).qbtc, pool) - ValueOf(TrueDepths(History(chain, n - 1), t).qbtc, pool)
         == if chain(n).time <= t then
              ValueOf(TotalsAfter(chain, n).qbtc, pool) - ValueOf(TotalsAfter(chain, n - 1).qbtc, pool)
            else 0
  {
    EarlierSnapshots(chain, n);
    TrueDepthsExtend(History(chain, n - 1), chain(n).time, TotalsAfter(chain, n), t);
    if chain(n).time <= t {
      TrueDepthsAtEnd(History(chain, n - 1), t);
    }
  }

  lemma EarlierSnapshots(chain: Chain, n: nat)
    requires IsChain(chain) && n > 0
    ensures forall s | s in History(chain, n - 1) :: s.time < chain(n).time
  {
  }

  /** At every time, the depth read back from the sparse rows is the sum of the reward entries in the database. */
  lemma DepthsAreRewards(chain: Chain, db: Database, pool: string, t: int)
    requires IsChain(chain) && Durable(chain, db)
    ensures DepthAt(RowsIn(db, BlockPoolDepths), pool, t)
         == Depth(0, EntrySum(RowsIn(db, RewardsEventEntries), pool, t), 0)
  {
    forall t
      ensures Rows(db, [], t) == RowsIn(db, t)
    {
    }
    HistoryMatchesEntries(chain, Height(db), pool, t);
    assert OtherTables(chain, db, [], Height(db));
    OnlyRewardsMoveDepths(chain, Height(db), t);
  }

  lemma {:induction false} OnlyRewardsMoveDepths(chain: Chain, n: nat, t: int)
    ensures TotalsAfter(chain, n).asset == TotalsAfter(chain, n).synth == map[]
    ensures TrueDepths(History(chain, n), t).asset == TrueDepths(History(chain, n), t).synth == map[]
  {
    if n > 0 {
      OnlyRewardsMoveDepths(chain, n - 1, t);
      EventsMoveQbtcOnly(TotalsAfter(chain, n - 1), chain(n).events);
      TrueDepthsExtend(History(chain, n - 1), chain(n).time, TotalsAfter(chain, n), t);
    }
  }
}
