/**
  The process that writes blocks, as the objects it is made of: `timeseries.Setup`, `timeseries.ProcessBlock` and
  `blockWriter.loop`. Each does a step of the state machine in Recovery.dfy.
 */
module BlockWriter {
  import opened Tables
  import opened Depths
  import opened Inserter
  import opened Record
  import opened Recovery
  import opened Options

  /** Why the loop ended. */
  datatype Stop = NoMoreBlocks | Cancelled | AtFork | HeightZero | WriteFailed

  lemma InOrder(log: seq<Insertion>, b: Block, aggState: Option<DepthMaps>, depthRows: seq<Row>)
    ensures log + EventsInserts(b.events, b.time) + [Insertion(KeyFor(BlockLog), LogRow(b.height, b.time, b.hash, aggState))]
            + [Insertion(KeyFor(Blocks), BlockRow(b.height, b.payload))] + Under(KeyFor(BlockPoolDepths), depthRows)
         == log + BlockInserts(b, aggState, depthRows)
  {
  }

  lemma IsFlushed(schema: Schema, b: Block, db: Database, m: Memory, db': Database, m': Memory, depthRows: seq<Row>)
    requires m'.snapshot == m'.totals == ApplyEvents(m.totals, b.events)
    requires IsChangeSet(m.snapshot, m'.totals, b.time, depthRows)
    requires Flushed(schema, db, m.pending + BlockInserts(b, Some(m'.totals), depthRows), db')
    requires m'.pending == [] && m'.processed == m'.committed == b.height
    requires m'.firstBlock == if m.firstBlock == 0 then b.height else m.firstBlock
    ensures Processed(schema, b, true, db, m, db', m')
  {
    assert ProcessedWith(schema, b, true, db, m, db', m', depthRows);
  }

  lemma IsBatched(schema: Schema, b: Block, db: Database, m: Memory, m': Memory, depthRows: seq<Row>)
    requires m'.snapshot == m'.totals == ApplyEvents(m.totals, b.events)
    requires IsChangeSet(m.snapshot, m'.totals, b.time, depthRows)
    requires m'.pending == m.pending + BlockInserts(b, None, depthRows)
    requires m'.processed == b.height && m'.committed == m.committed && m'.firstBlock == m.firstBlock
    ensures Processed(schema, b, false, db, m, db, m')
  {
    assert ProcessedWith(schema, b, false, db, m, db, m', depthRows);
  }

  /** Block `height` is committed with all before it, or the database stays as it is. */
  ghost predicate Leaves(flush: bool, height: int, s: System, s': System) {
    match (s.memory, s'.memory)
    case (Some(m), Some(m')) =>
      if flush then m'.pending == [] && m'.committed == height else s'.db == s.db && m'.committed == m.committed
    case _ => false
  }

  lemma WroteOne(cfg: Config, chain: Chain, b: Block, db: Database, m: Memory, synced: bool, commit: bool, db': Database,
                 m': Memory)
    requires cfg.blockBatch > 0 && (cfg.hardForkHeight == 0 || b.height <= cfg.hardForkHeight)
    requires b == chain(m.processed + 1) && b.height == m.processed + 1 && commit == ShouldCommit(cfg, b.height, synced)
    requires Processed(cfg.schema, b, commit || IsFirstBlock(m, b.height), db, m, db', m')
    ensures m'.processed == b.height && Writes(cfg, chain, System(db, Some(m)), System(db', Some(m')))
    ensures Leaves(commit || m.firstBlock == 0 || b.height <= m.firstBlock, b.height, System(db, Some(m)), System(db', Some(m')))
  {
    assert WritesWith(cfg, chain, db, m, db', m', synced);
  }

  /** The blocks that come after a height. */
  ghost predicate AreNext(chain: Chain, blocks: seq<Block>, height: int) {
    forall i | 0 <= i < |blocks| :: blocks[i] == chain(height + 1 + i) && blocks[i].height == height + 1 + i
  }

  /** Each state follows from the one before by writing a block. */
  ghost predicate IsTrace(cfg: Config, chain: Chain, trace: seq<System>)
    requires cfg.blockBatch > 0
  {
    forall i | 0 <= i < |trace| - 1 :: WritesAt(cfg, chain, trace, i)
  }

  ghost predicate WritesAt(cfg: Config, chain: Chain, trace: seq<System>, i: int)
    requires cfg.blockBatch > 0 && 0 <= i < |trace| - 1
  {
    Writes(cfg, chain, trace[i], trace[i + 1])
  }

  /** Blocks are only written up to the fork. */
  lemma WritesBelowFork(cfg: Config, chain: Chain, trace: seq<System>)
    requires cfg.blockBatch > 0 && IsTrace(cfg, chain, trace) && trace != [] && trace[0].memory.Some?
    ensures |trace| > 1 && cfg.hardForkHeight != 0 ==> trace[0].memory.value.processed < cfg.hardForkHeight
  {
    assert |trace| > 1 ==> WritesAt(cfg, chain, trace, 0);
  }

  lemma TraceOneMore(cfg: Config, chain: Chain, trace: seq<System>, s: System)
    requires cfg.blockBatch > 0 && IsTrace(cfg, chain, trace) && trace != []
    requires Writes(cfg, chain, trace[|trace| - 1], s)
    ensures IsTrace(cfg, chain, trace + [s])
  {
    forall i | 0 <= i < |trace|
      ensures WritesAt(cfg, chain, trace + [s], i)
    {
      if i < |trace| - 1 {
        assert WritesAt(cfg, chain, trace, i);
      }
    }
  }

  /** Block `height` is processed, and nothing is in memory only. */
  ghost predicate IsCommitted(s: System, height: int) {
    match s.memory
    case None => false
    case Some(m) => m.pending == [] && m.committed == m.processed == height
  }

  /** If the node had no block after the next, round `i` left everything committed. */
  ghost predicate TipIsCommitted(blocks: seq<Block>, nodeHeights: seq<int>, trace: seq<System>, i: int)
    requires |nodeHeights| == |blocks| && 0 <= i < |blocks| && i < |trace| - 1
  {
    nodeHeights[i] <= blocks[i].height + 1 ==> IsCommitted(trace[i + 1], blocks[i].height)
  }

  ghost predicate TipsAreCommitted(blocks: seq<Block>, nodeHeights: seq<int>, trace: seq<System>)
    requires |nodeHeights| == |blocks| && |trace| <= |blocks| + 1
  {
    forall i | 0 <= i < |trace| - 1 :: TipIsCommitted(blocks, nodeHeights, trace, i)
  }

  lemma TipsOneMore(blocks: seq<Block>, nodeHeights: seq<int>, trace: seq<System>, s: System)
    requires 0 < |trace| <= |blocks| == |nodeHeights| && TipsAreCommitted(blocks, nodeHeights, trace)
    requires nodeHeights[|trace| - 1] <= blocks[|trace| - 1].height + 1 ==> IsCommitted(s, blocks[|trace| - 1].height)
    ensures TipsAreCommitted(blocks, nodeHeights, trace + [s])
  {
    forall i | 0 <= i < |trace|
      ensures TipIsCommitted(blocks, nodeHeights, trace + [s], i)
    {
      if i < |trace| - 1 {
        assert TipIsCommitted(blocks, nodeHeights, trace, i);
      }
    }
  }

  lemma Refuses(schema: Schema, b: Block, db: Database, m: Memory, depthRows: seq<Row>, now: DepthMaps, log: seq<Insertion>)
    requires IsChangeSet(m.snapshot, now, b.time, depthRows)
    requires log == m.pending + BlockInserts(b, Some(now), depthRows) && !CanFlush(schema, db, log)
    ensures !CanFlushNext(schema, db, m, b, now)
  {
    assert !CanFlushWith(schema, db, m, b, now, depthRows);
  }

  /** The batch that ends with block `b` would be refused, for some order in which its depth rows were inserted. */
  ghost predicate IsRefused(schema: Schema, b: Block, db: Database, m: Memory) {
    !CanFlushNext(schema, db, m, b, ApplyEvents(m.totals, b.events))
  }

  ghost predicate RefusesNext(cfg: Config, chain: Chain, s: System) {
    match s.memory
    case None => false
    case Some(m) => IsRefused(cfg.schema, chain(m.processed + 1), s.db, m)
  }

  lemma RefusedIsNext(cfg: Config, chain: Chain, b: Block, db: Database, m: Memory)
    requires IsRefused(cfg.schema, b, db, m) && b == chain(m.processed + 1)
    ensures RefusesNext(cfg, chain, System(db, Some(m)))
  {
  }

  lemma {:induction false} TracesKeepInv(cfg: Config, chain: Chain, trace: seq<System>)
    requires cfg.blockBatch > 0 && IsChain(chain)
    requires trace != [] && Inv(cfg, chain, trace[0]) && IsTrace(cfg, chain, trace)
    ensures Inv(cfg, chain, trace[|trace| - 1])
  {
    var n := |trace| - 1;
    if n > 0 {
      PrefixIsTrace(cfg, chain, trace);
      TracesKeepInv(cfg, chain, trace[..n]);
      assert WritesAt(cfg, chain, trace, n - 1);
      WriteKeepsInv(cfg, chain, trace[n - 1], trace[n]);
    }
  }

  lemma PrefixIsTrace(cfg: Config, chain: Chain, trace: seq<System>)
    requires cfg.blockBatch > 0 && |trace| > 1 && IsTrace(cfg, chain, trace)
    ensures IsTrace(cfg, chain, trace[..|trace| - 1])
  {
    var before := trace[..|trace| - 1];
    forall i | 0 <= i < |before| - 1
      ensures WritesAt(cfg, chain, before, i)
    {
      assert WritesAt(cfg, chain, trace, i);
    }
  }

  /** From a state of a run the loop never meets a refused batch, if the schema accepts the rows of the chain. */
  lemma WritingNeverFails(cfg: Config, chain: Chain, trace: seq<System>)
    requires cfg.blockBatch > 0 && IsChain(chain) && Accepts(cfg.schema, chain)
    requires trace != [] && Inv(cfg, chain, trace[0]) && IsTrace(cfg, chain, trace)
    ensures !RefusesNext(cfg, chain, trace[|trace| - 1])
  {
    TracesKeepInv(cfg, chain, trace);
    var s := trace[|trace| - 1];
    if s.memory.Some? {
      FlushesNeverFail(cfg, chain, s, s.memory.value, chain(s.memory.value.processed + 1));
    }
  }

  /** At the tip of the chain all that is processed is durable: blocks 1 to `height`, each in its row of `block_log`. */
  lemma TipIsDurable(cfg: Config, chain: Chain, trace: seq<System>, height: int)
    requires cfg.blockBatch > 0 && IsChain(chain)
    requires trace != [] && Inv(cfg, chain, trace[0]) && IsTrace(cfg, chain, trace)
    requires IsCommitted(trace[|trace| - 1], height)
    ensures Durable(chain, trace[|trace| - 1].db) && Height(trace[|trace| - 1].db) == height
  {
    TracesKeepInv(cfg, chain, trace);
  }

  /**
    Why the loop over `n` blocks ended, in state `now`: all blocks are written, or the context was cancelled in time, or
    the fork is reached, or a flush failed - because the connection broke, or the batch would be refused.
   */
  ghost predicate IsStop(cfg: Config, chain: Chain, stop: Stop, trace: seq<System>, now: System, n: nat, cancelledAt: nat,
                         fault: Option<nat>)
    requires trace != []
  {
    var last := trace[|trace| - 1];
    match stop
    case NoMoreBlocks => last == now && |trace| == n + 1 <= cancelledAt + 1
    case Cancelled => last == now && |trace| == cancelledAt + 1 <= n
    case AtFork =>
      && last == now && |trace| <= cancelledAt + 1
      && cfg.hardForkHeight != 0 && now.memory.Some? && cfg.hardForkHeight <= now.memory.value.processed
    case HeightZero => false
    case WriteFailed => last.db == now.db && |trace| <= n && (fault.Some? || RefusesNext(cfg, chain, last))
  }

  lemma NothingPlus(d: DepthMaps)
    ensures DepthMaps(NO_DEPTHS.asset + d.asset, NO_DEPTHS.qbtc + d.qbtc, NO_DEPTHS.synth + d.synth) == d
  {
    assert NO_DEPTHS.asset + d.asset == d.asset;
    assert NO_DEPTHS.qbtc + d.qbtc == d.qbtc;
    assert NO_DEPTHS.synth + d.synth == d.synth;
  }

  class Indexer {
    const db: Connection
    const inserter: BatchInserter
    const totals: RunningTotals
    const recorder: EventRecorder
    const depthRecorder: DepthManager
    var lastCommitted: int
    var firstBlock: int
    /** Height of the last block processed; the loop below gets the one after it from the channel. */
    ghost var processed: int

    ghost predicate Valid()
      reads inserter, totals, totals.repr, depthRecorder, depthRecorder.Repr()
    {
      && recorder.totals == totals && recorder.inserter == inserter && inserter.db == db
      && inserter.Valid() && totals.Valid() && depthRecorder.Valid()
      && {this, db, inserter, recorder} + depthRecorder.Repr() !! totals.repr
    }

    ghost function State(): Memory
      reads this, inserter, totals, depthRecorder
    {
      Memory(inserter.log, totals.contents, depthRecorder.snapshot, lastCommitted, processed, firstBlock)
    }

    constructor (db: Connection, firstBlock: int)
      ensures Valid() && this.db == db && this.firstBlock == firstBlock
      ensures fresh(inserter) && fresh(totals.repr) && fresh(depthRecorder.Repr())
      ensures State() == Memory([], NO_DEPTHS, NO_DEPTHS, 0, 0, firstBlock)
    {
      var t := new RunningTotals();
      var i := new BatchInserter(db);
      var r := new EventRecorder(t, i);
      var d := new DepthManager();
      this.db, this.inserter, this.totals, this.recorder, this.depthRecorder := db, i, t, r, d;
      this.firstBlock, this.lastCommitted, this.processed := firstBlock, 0, 0;
    }

    /** `Setup`: false when the last row of `block_log` holds no aggregation state. */
    method Setup() returns (ok: bool)
      requires Valid() && State() == Memory([], NO_DEPTHS, NO_DEPTHS, 0, 0, firstBlock)
      modifies this, totals.repr
      ensures ok == Recovery.Setup(db.tables, firstBlock).Some?
      ensures ok ==> Valid() && fresh(totals.repr - old(totals.repr)) && Recovery.Setup(db.tables, firstBlock) == Some(State())
    {
      var last := HighestRow(RowsIn(db.tables, BlockLog));
      if last.None? {
        return true;
      }
      if last.value.aggState.None? {
        return false;
      }
      lastCommitted, processed := last.value.height, last.value.height;
      totals.Restore(last.value.aggState.value);
      NothingPlus(last.value.aggState.value);
      return true;
    }

    method InsertDepths(rows: seq<Row>)
      requires inserter.Valid() && inserter.batches.Some?
      modifies inserter
      ensures inserter.Valid() && inserter.batches.Some?
      ensures inserter.log == old(inserter.log) + Under(KeyFor(BlockPoolDepths), rows)
    {
      for i := 0 to |rows|
        invariant inserter.Valid() && inserter.batches.Some?
        invariant inserter.log == old(inserter.log) + Under(KeyFor(BlockPoolDepths), rows[..i])
      {
        inserter.Insert(KeyFor(BlockPoolDepths), rows[i]);
        assert Under(KeyFor(BlockPoolDepths), rows[..i + 1])
            == Under(KeyFor(BlockPoolDepths), rows[..i]) + [Insertion(KeyFor(BlockPoolDepths), rows[i])];
      }
      assert rows[..|rows|] == rows;
    }

    /** The two rows of the block itself, and those of its depths. */
    method InsertBlock(b: Block, aggState: Option<DepthMaps>, depthRows: seq<Row>)
      requires inserter.Valid() && inserter.batches.Some?
      modifies inserter
      ensures inserter.Valid()
      ensures inserter.log == old(inserter.log) + [Insertion(KeyFor(BlockLog), LogRow(b.height, b.time, b.hash, aggState))]
                            + [Insertion(KeyFor(Blocks), BlockRow(b.height, b.payload))] + Under(KeyFor(BlockPoolDepths), depthRows)
    {
      inserter.Insert(KeyFor(BlockLog), LogRow(b.height, b.time, b.hash, aggState));
      inserter.Insert(KeyFor(Blocks), BlockRow(b.height, b.payload));
      InsertDepths(depthRows);
    }

    /** Records the events of the block and takes a snapshot of the totals. */
    method RecordEvents(b: Block) returns (track: DepthMaps)
      requires Valid()
      modifies inserter, totals.repr
      ensures Valid() && fresh(totals.repr - old(totals.repr)) && inserter.batches.Some?
      ensures track == totals.contents == ApplyEvents(old(totals.contents), b.events)
      ensures inserter.log == old(inserter.log) + EventsInserts(b.events, b.time)
    {
      inserter.StartBlock();
      recorder.RecordEvents(b.events, b.time);
      track := totals.Snapshots();
    }

    /** Everything `ProcessBlock` does before the flush. */
    method RecordBlock(b: Block, flush: bool) returns (ghost depthRows: seq<Row>)
      requires Valid()
      modifies inserter, totals.repr, depthRecorder.Repr()
      ensures Valid() && fresh(totals.repr - old(totals.repr))
      ensures totals.contents == depthRecorder.snapshot == ApplyEvents(old(totals.contents), b.events)
      ensures inserter.log == old(inserter.log) + BlockInserts(b, if flush then Some(totals.contents) else None, depthRows)
      ensures IsChangeSet(old(depthRecorder.snapshot), totals.contents, b.time, depthRows)
    {
      ghost var log := inserter.log;
      var track := RecordEvents(b);
      var rows, _ := depthRecorder.Update(b.time, track, _ => true, true);
      InsertBlock(b, if flush then Some(track) else None, rows);
      depthRows := rows;
      InOrder(log, b, if flush then Some(track) else None, rows);
    }

    /** Flushes the batch that ends with block `b`. */
    method Commit(b: Block, thisIsTheFirstBlock: bool, fault: Option<nat>) returns (ok: bool)
      requires Valid()
      modifies this`lastCommitted, this`firstBlock, db, inserter
      ensures Valid() && inserter.log == []
      ensures !ok ==> db.tables == old(db.tables)
      ensures fault.None? ==> (ok <==> CanFlush(db.schema, old(db.tables), old(inserter.log)))
      ensures ok ==> Flushed(db.schema, old(db.tables), old(inserter.log), db.tables) && lastCommitted == b.height
      ensures ok ==> firstBlock == if thisIsTheFirstBlock && old(firstBlock) == 0 then b.height else old(firstBlock)
    {
      ok := inserter.Flush(fault);
      if ok {
        lastCommitted := b.height;
        if thisIsTheFirstBlock && firstBlock == 0 {
          firstBlock := b.height;
        }
      }
    }

    /** The flush of `ProcessBlock`: `m` is the memory before the block and `depthRows` are its depth rows. */
    method FlushBlock(b: Block, thisIsTheFirstBlock: bool, fault: Option<nat>, ghost m: Memory, ghost depthRows: seq<Row>)
        returns (ok: bool)
      requires Valid() && firstBlock == m.firstBlock && thisIsTheFirstBlock == IsFirstBlock(m, b.height)
      requires totals.contents == depthRecorder.snapshot == ApplyEvents(m.totals, b.events)
      requires IsChangeSet(m.snapshot, totals.contents, b.time, depthRows)
      requires inserter.log == m.pending + BlockInserts(b, Some(totals.contents), depthRows)
      modifies this, db, inserter
      ensures Valid()
      ensures ok ==> Processed(db.schema, b, true, old(db.tables), m, db.tables, State())
      ensures !ok ==> db.tables == old(db.tables) && (fault.Some? || IsRefused(db.schema, b, old(db.tables), m))
    {
      ghost var log, tables := inserter.log, db.tables;
      ok := Commit(b, thisIsTheFirstBlock, fault);
      if !ok {
        if fault.None? {
          Refuses(db.schema, b, db.tables, m, depthRows, totals.contents, log);
        }
        return;
      }
      processed := b.height;
      IsFlushed(db.schema, b, tables, m, db.tables, State(), depthRows);
    }

    /** A block that only joins the batch. */
    ghost method BatchBlock(b: Block, m: Memory, depthRows: seq<Row>)
      requires lastCommitted == m.committed && firstBlock == m.firstBlock
      requires totals.contents == depthRecorder.snapshot == ApplyEvents(m.totals, b.events)
      requires IsChangeSet(m.snapshot, totals.contents, b.time, depthRows)
      requires inserter.log == m.pending + BlockInserts(b, None, depthRows)
      modifies this`processed
      ensures Processed(db.schema, b, false, db.tables, m, db.tables, State())
    {
      processed := b.height;
      IsBatched(db.schema, b, db.tables, m, State(), depthRows);
    }

    /** The end of `ProcessBlock`: the block is flushed with its batch, or only joins it. */
    method EndBlock(b: Block, flush: bool, thisIsTheFirstBlock: bool, fault: Option<nat>, ghost m: Memory,
                    ghost depthRows: seq<Row>)
        returns (ok: bool)
      requires Valid() && lastCommitted == m.committed && firstBlock == m.firstBlock
      requires thisIsTheFirstBlock == IsFirstBlock(m, b.height)
      requires totals.contents == depthRecorder.snapshot == ApplyEvents(m.totals, b.events)
      requires IsChangeSet(m.snapshot, totals.contents, b.time, depthRows)
      requires inserter.log == m.pending + BlockInserts(b, if flush then Some(totals.contents) else None, depthRows)
      modifies this, db, inserter
      ensures Valid()
      ensures ok ==> Processed(db.schema, b, flush, old(db.tables), m, db.tables, State())
      ensures !ok ==> db.tables == old(db.tables) && (fault.Some? || IsRefused(db.schema, b, old(db.tables), m))
    {
      if flush {
        ok := FlushBlock(b, thisIsTheFirstBlock, fault, m, depthRows);
      } else {
        BatchBlock(b, m, depthRows);
        ok := true;
      }
    }

    /** `ProcessBlock`; `fault` breaks the connection in the flush. False means that the process dies. */
    method ProcessBlock(b: Block, commit: bool, fault: Option<nat>) returns (ok: bool)
      requires Valid()
      modifies this, db, inserter, totals.repr, depthRecorder.Repr()
      ensures Valid() && fresh(totals.repr - old(totals.repr))
      ensures ok ==> Processed(db.schema, b, commit || IsFirstBlock(old(State()), b.height),
                               old(db.tables), old(State()), db.tables, State())
      ensures !ok ==> db.tables == old(db.tables)
      ensures !ok ==> fault.Some? || IsRefused(db.schema, b, old(db.tables), old(State()))
    {
      var thisIsTheFirstBlock := firstBlock == 0 || b.height <= firstBlock;
      var flush := commit || thisIsTheFirstBlock;
      ghost var m := State();
      ghost var depthRows := RecordBlock(b, flush);
      ok := EndBlock(b, flush, thisIsTheFirstBlock, fault, m, depthRows);
    }

    /** What the loop does with a block: stop at the hard fork, or write it and possibly commit. */
    static method Decide(cfg: Config, height: int, synced: bool) returns (atFork: bool, commit: bool)
      requires cfg.blockBatch > 0
      ensures atFork <==> cfg.hardForkHeight != 0 && cfg.hardForkHeight < height
      ensures !atFork ==> commit == ShouldCommit(cfg, height, synced)
    {
      atFork, commit := false, false;
      var lastBlockBeforeStop := false;
      if cfg.hardForkHeight != 0 {
        if height == cfg.hardForkHeight {
          lastBlockBeforeStop := true;
        }
        if cfg.hardForkHeight < height {
          return true, false;
        }
      }
      commit := cfg.immediate || synced || height % cfg.blockBatch == 0 || lastBlockBeforeStop;
    }

    /** A step of the state machine, if the block is written. */
    method WriteBlock(cfg: Config, ghost chain: Chain, block: Block, synced: bool, commit: bool, fault: Option<nat>)
        returns (ok: bool)
      requires Valid() && cfg.blockBatch > 0 && cfg.schema == db.schema
      requires processed >= 0 && block == chain(processed + 1) && block.height == processed + 1
      requires cfg.hardForkHeight == 0 || block.height <= cfg.hardForkHeight
      requires commit == ShouldCommit(cfg, block.height, synced)
      modifies this, db, inserter, totals.repr, depthRecorder.Repr()
      ensures Valid() && fresh(totals.repr - old(totals.repr))
      ensures ok ==> Leaves(commit || old(firstBlock) == 0 || block.height <= old(firstBlock), block.height,
                            System(old(db.tables), Some(old(State()))), System(db.tables, Some(State())))
      ensures ok ==> processed == old(processed) + 1
                     && Writes(cfg, chain, System(old(db.tables), Some(old(State()))), System(db.tables, Some(State())))
      ensures !ok ==> db.tables == old(db.tables)
      ensures !ok ==> fault.Some? || RefusesNext(cfg, chain, System(old(db.tables), Some(old(State()))))
    {
      ghost var m, tables := State(), db.tables;
      ok := ProcessBlock(block, commit, fault);
      if ok {
        WroteOne(cfg, chain, block, tables, m, synced, commit, db.tables, State());
      } else if fault.None? {
        RefusedIsNext(cfg, chain, block, tables, m);
      }
    }

    /**
      One round of the loop: a step of the state machine, or the end of the loop. The block is committed with all before
      it when the node has no block after the next, and for the other reasons; otherwise the database stays as it is.
     */
    method Take(cfg: Config, ghost chain: Chain, block: Block, nodeHeight: int, fault: Option<nat>) returns (stop: Stop)
      requires Valid() && cfg.blockBatch > 0 && cfg.schema == db.schema
      requires processed >= 0 && block == chain(processed + 1) && block.height == processed + 1
      modifies this, db, inserter, totals.repr, depthRecorder.Repr()
      ensures Valid() && fresh(totals.repr - old(totals.repr))
      ensures stop == NoMoreBlocks ==>
                processed == old(processed) + 1
                && Writes(cfg, chain, System(old(db.tables), Some(old(State()))), System(db.tables, Some(State())))
      ensures stop == NoMoreBlocks
              && (nodeHeight <= block.height + 1 || cfg.immediate || block.height % cfg.blockBatch == 0
                  || (cfg.hardForkHeight != 0 && block.height == cfg.hardForkHeight)
                  || old(firstBlock) == 0 || block.height <= old(firstBlock)) ==>
                inserter.log == [] && lastCommitted == block.height
      ensures stop == NoMoreBlocks
              && nodeHeight > block.height + 1 && !cfg.immediate && block.height % cfg.blockBatch != 0
              && (cfg.hardForkHeight == 0 || block.height != cfg.hardForkHeight)
              && old(firstBlock) != 0 && old(firstBlock) < block.height ==>
                db.tables == old(db.tables) && lastCommitted == old(lastCommitted)
      ensures stop != NoMoreBlocks ==> db.tables == old(db.tables)
      ensures stop == AtFork ==> State() == old(State()) && cfg.hardForkHeight != 0 && cfg.hardForkHeight <= processed
      ensures stop == NoMoreBlocks && cfg.hardForkHeight != 0 ==> processed <= cfg.hardForkHeight
      ensures stop in {NoMoreBlocks, AtFork, WriteFailed}
      ensures stop == WriteFailed ==>
                fault.Some? || RefusesNext(cfg, chain, System(old(db.tables), Some(old(State()))))
    {
      if block.height == 0 {
        return HeightZero;
      }
      var synced := nodeHeight <= block.height + 1;
      var atFork, commit := Decide(cfg, block.height, synced);
      if atFork {
        return AtFork;
      }
      var ok := WriteBlock(cfg, chain, block, synced, commit, fault);
      return if ok then NoMoreBlocks else WriteFailed;
    }

    ghost function Now(): System
      reads this, db, inserter, totals, depthRecorder
    {
      System(db.tables, Some(State()))
    }

    /**
      Round `|before| - 1` of the loop over `n` blocks, added to the trace of the rounds before it. It goes on only below
      the fork.
     */
    method Round(cfg: Config, ghost chain: Chain, blocks: seq<Block>, nodeHeights: seq<int>, i: nat, cancelledAt: nat,
                 fault: Option<nat>, ghost before: seq<System>)
        returns (stop: Stop, ghost trace: seq<System>)
      requires Valid() && cfg.blockBatch > 0 && cfg.schema == db.schema && |nodeHeights| == |blocks|
      requires i < |blocks| && i <= cancelledAt && |before| == i + 1
      requires processed >= 0 && blocks[i] == chain(processed + 1) && blocks[i].height == processed + 1
      requires IsTrace(cfg, chain, before) && before[i] == Now() && TipsAreCommitted(blocks, nodeHeights, before)
      modifies this, db, inserter, totals.repr, depthRecorder.Repr()
      ensures Valid() && fresh(totals.repr - old(totals.repr))
      ensures |trace| <= i + 2 && before <= trace && IsTrace(cfg, chain, trace) && TipsAreCommitted(blocks, nodeHeights, trace)
      ensures stop != NoMoreBlocks ==> IsStop(cfg, chain, stop, trace, Now(), |blocks|, cancelledAt, fault)
      ensures stop == NoMoreBlocks ==> processed == old(processed) + 1 && i < cancelledAt
      ensures stop == NoMoreBlocks ==> |trace| == i + 2 && trace[i + 1] == Now()
    {
      trace := before;
      if cancelledAt == i {
        return Cancelled, trace;
      }
      stop := Take(cfg, chain, blocks[i], nodeHeights[i], fault);
      if stop != NoMoreBlocks {
        return;
      }
      TraceOneMore(cfg, chain, before, Now());
      trace := before + [Now()];
      TipsOneMore(blocks, nodeHeights, before, Now());
      if cfg.hardForkHeight != 0 && cfg.hardForkHeight <= blocks[i].height {
        stop := AtFork;
      }
    }

    /** The rounds of the loop; the context is cancelled before round `cancelledAt`. */
    method Rounds(cfg: Config, ghost chain: Chain, blocks: seq<Block>, nodeHeights: seq<int>, cancelledAt: nat,
                  fault: Option<nat>)
        returns (stop: Stop, ghost trace: seq<System>)
      requires Valid() && cfg.blockBatch > 0 && cfg.schema == db.schema && |nodeHeights| == |blocks|
      requires processed >= 0 && AreNext(chain, blocks, processed)
      modifies this, db, inserter, totals.repr, depthRecorder.Repr()
      ensures trace != [] && trace[0] == old(Now()) && IsTrace(cfg, chain, trace)
      ensures |trace| <= |blocks| + 1 && TipsAreCommitted(blocks, nodeHeights, trace)
      ensures IsStop(cfg, chain, stop, trace, Now(), |blocks|, cancelledAt, fault)
    {
      trace := [Now()];
      for i := 0 to |blocks|
        invariant Valid() && fresh(totals.repr - old(totals.repr))
        invariant processed == old(processed) + i && |trace| == i + 1 && i <= cancelledAt
        invariant trace[0] == old(Now()) && trace[|trace| - 1] == Now() && IsTrace(cfg, chain, trace)
        invariant TipsAreCommitted(blocks, nodeHeights, trace)
      {
        stop, trace := Round(cfg, chain, blocks, nodeHeights, i, cancelledAt, fault, trace);
        if stop != NoMoreBlocks {
          return;
        }
      }
      stop := NoMoreBlocks;
    }

    /**
      The loop over the blocks of the channel, which waits first if the last committed block is already at the fork;
      `nodeHeights` is the height of the node when each block is taken. Every round that writes is a step of the state
      machine.
     */
    method Loop(cfg: Config, ghost chain: Chain, blocks: seq<Block>, nodeHeights: seq<int>, cancelledAt: nat,
                fault: Option<nat>)
        returns (stop: Stop, waited: bool, ghost trace: seq<System>)
      requires Valid() && cfg.blockBatch > 0 && cfg.schema == db.schema && |nodeHeights| == |blocks|
      requires processed >= 0 && AreNext(chain, blocks, processed)
      modifies this, db, inserter, totals.repr, depthRecorder.Repr()
      ensures trace != [] && trace[0] == old(Now()) && IsTrace(cfg, chain, trace)
      ensures waited <==> cfg.hardForkHeight != 0 && cfg.hardForkHeight <= old(lastCommitted)
      ensures waited && old(lastCommitted) <= old(processed) ==> |trace| == 1
      ensures |trace| <= |blocks| + 1
      ensures forall i | 0 <= i < |trace| - 1 && nodeHeights[i] <= blocks[i].height + 1 ::
                IsCommitted(trace[i + 1], blocks[i].height)
      ensures IsStop(cfg, chain, stop, trace, Now(), |blocks|, cancelledAt, fault)
    {
      waited := cfg.hardForkHeight != 0 && cfg.hardForkHeight <= lastCommitted;
      stop, trace := Rounds(cfg, chain, blocks, nodeHeights, cancelledAt, fault);
      WritesBelowFork(cfg, chain, trace);
      forall i | 0 <= i < |trace| - 1 && nodeHeights[i] <= blocks[i].height + 1
        ensures IsCommitted(trace[i + 1], blocks[i].height)
      {
        assert TipIsCommitted(blocks, nodeHeights, trace, i);
      }
    }
  }
}
