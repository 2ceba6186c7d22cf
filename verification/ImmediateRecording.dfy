/**
  internal/fetch/record/record.go on the immediate inserter, which the process falls back to after a failed flush: there
  a row can be refused, and the recorder gives up the event at the first row that is.
 */
module ImmediateRecording {
  import opened Tables
  import opened Depths
  import opened Inserter
  import opened Record

  /** How many rows are accepted before the first refused one, when `before` was tried already in a transaction on `db`. */
  function Kept(schema: Schema, db: Database, before: seq<Insertion>, rows: seq<Insertion>): (kept: nat)
    ensures kept <= |rows|
    decreases |rows|
  {
    if rows == [] || !CanInsert(schema, InsertEach(schema, db, before), rows[0]) then 0
    else 1 + Kept(schema, db, before + [rows[0]], rows[1..])
  }

  /** The accepted rows, and the one that ended the series. */
  function Tried(rows: seq<Insertion>, kept: nat): seq<Insertion> {
    if kept < |rows| then rows[..kept + 1] else rows
  }

  lemma OneInsert(schema: Schema, db: Database, before: seq<Insertion>, x: Insertion, t: Table)
    ensures var reached, after := InsertEach(schema, db, before), InsertEach(schema, db, before + [x]);
            RowsIn(after, t) == RowsIn(reached, t) + if CanInsert(schema, reached, x) then RowsOf([x], t) else []
  {
    assert (before + [x])[..|before|] == before;
    OneRow(x, t);
  }

  lemma OneRow(x: Insertion, t: Table)
    ensures RowsOf([x], t) == if x.key.table == t then [x.row] else []
  {
    assert [x][..0] == [];
  }

  lemma FirstOf(before: seq<Insertion>, rows: seq<Insertion>, kept: nat)
    requires 0 < kept <= |rows|
    ensures before + Tried(rows, kept) == (before + [rows[0]]) + Tried(rows[1..], kept - 1)
    ensures rows[..kept] == [rows[0]] + rows[1..][..kept - 1]
  {
  }

  lemma RowsOfFirst(rows: seq<Insertion>, kept: nat, t: Table)
    requires 0 < kept <= |rows|
    ensures RowsOf(rows[..kept], t) == RowsOf([rows[0]], t) + RowsOf(rows[1..][..kept - 1], t)
  {
    FirstOf([], rows, kept);
    RowsOfConcat([rows[0]], rows[1..][..kept - 1], t);
  }

  lemma AddedTwice(a: seq<Row>, b: seq<Row>, c: seq<Row>, x: seq<Row>, y: seq<Row>, z: seq<Row>)
    requires b == a + x && c == b + y && z == x + y
    ensures c == a + z
  {
  }

  /** What stays in the transaction are the accepted rows: the refused one leaves no trace. */
  lemma {:induction false} KeptRows(schema: Schema, db: Database, before: seq<Insertion>, rows: seq<Insertion>, kept: nat, t: Table)
    requires kept == Kept(schema, db, before, rows)
    ensures RowsIn(InsertEach(schema, db, before + Tried(rows, kept)), t)
         == RowsIn(InsertEach(schema, db, before), t) + RowsOf(rows[..kept], t)
    decreases |rows|
  {
    if rows == [] {
      assert before + Tried(rows, kept) == before;
    } else if kept == 0 {
      assert before + Tried(rows, kept) == before + [rows[0]];
      OneInsert(schema, db, before, rows[0], t);
    } else {
      var next := before + [rows[0]];
      KeptRows(schema, db, next, rows[1..], kept - 1, t);
      KeptOneMore(schema, db, before, rows, kept, next, rows[1..], t);
    }
  }

  lemma KeptOneMore(schema: Schema, db: Database, before: seq<Insertion>, rows: seq<Insertion>, kept: nat,
                    next: seq<Insertion>, rest: seq<Insertion>, t: Table)
    requires 0 < kept <= |rows| && CanInsert(schema, InsertEach(schema, db, before), rows[0])
    requires next == before + [rows[0]] && rest == rows[1..]
    requires RowsIn(InsertEach(schema, db, next + Tried(rest, kept - 1)), t)
          == RowsIn(InsertEach(schema, db, next), t) + RowsOf(rest[..kept - 1], t)
    ensures RowsIn(InsertEach(schema, db, before + Tried(rows, kept)), t)
         == RowsIn(InsertEach(schema, db, before), t) + RowsOf(rows[..kept], t)
  {
    FirstOf(before, rows, kept);
    RowsOfFirst(rows, kept, t);
    OneInsert(schema, db, before, rows[0], t);
    AddedTwice(RowsIn(InsertEach(schema, db, before), t), RowsIn(InsertEach(schema, db, next), t),
               RowsIn(InsertEach(schema, db, next + Tried(rest, kept - 1)), t),
               RowsOf([rows[0]], t), RowsOf(rest[..kept - 1], t), RowsOf(rows[..kept], t));
  }

  lemma {:induction false} EntryAt(perPool: seq<PoolReward>, id: int, time: int, i: nat)
    requires i < |perPool|
    ensures EntryInserts(perPool, id, time)[i]
         == Insertion(KeyFor(RewardsEventEntries), EntryRow(perPool[i].pool, perPool[i].amount, id, time))
  {
    if i < |perPool| - 1 {
      EntryAt(perPool[..|perPool| - 1], id, time, i);
    }
  }

  class ImmediateRecorder {
    const totals: RunningTotals
    const inserter: ImmediateInserter

    constructor (totals: RunningTotals, inserter: ImmediateInserter)
      ensures this.totals == totals && this.inserter == inserter
    {
      this.totals, this.inserter := totals, inserter;
    }

    /** How many of the rows the transaction accepts next, before it refuses one. */
    ghost function Accepts(rows: seq<Insertion>): (kept: nat)
      reads inserter, inserter.db
      ensures kept <= |rows|
    {
      Kept(inserter.db.schema, inserter.db.tables, inserter.tried, rows)
    }

    /** The entries of an event, until one is refused. */
    method InsertEntries(perPool: seq<PoolReward>, id: int, time: int) returns (ok: bool)
      requires inserter.Valid() && inserter.txn.Some?
      modifies inserter
      ensures inserter.Valid() && inserter.txn.Some?
      ensures var rows := EntryInserts(perPool, id, time);
              && inserter.tried == old(inserter.tried) + Tried(rows, old(Accepts(rows)))
              && (ok <==> old(Accepts(rows)) == |rows|)
    {
      ghost var rows, before := EntryInserts(perPool, id, time), inserter.tried;
      assert before + rows[..0] == before && rows[0..] == rows;
      for i := 0 to |perPool|
        invariant inserter.Valid() && inserter.txn.Some? && inserter.tried == before + rows[..i]
        invariant old(Accepts(rows)) == i + Accepts(rows[i..])
      {
        EntryAt(perPool, id, time, i);
        Rest(before, rows, i);
        ok := InsertNext(rows[i..], KeyFor(RewardsEventEntries), EntryRow(perPool[i].pool, perPool[i].amount, id, time));
        if !ok {
          return;
        }
      }
      ok := true;
      assert rows[..|rows|] == rows;
    }

    /** One row of a series, the first of `rows`. */
    method InsertNext(ghost rows: seq<Insertion>, key: Key, row: Row) returns (ok: bool)
      requires inserter.Valid() && inserter.txn.Some? && rows != [] && rows[0] == Insertion(key, row)
      modifies inserter
      ensures inserter.Valid() && inserter.txn.Some? && inserter.tried == old(inserter.tried) + [rows[0]]
      ensures if ok then old(Accepts(rows)) == 1 + Accepts(rows[1..]) else old(Accepts(rows)) == 0
    {
      ok := inserter.Insert(key, row);
    }

    /** The depths grow only if every row of the event is accepted. */
    method OnRewards(e: Event, time: int)
      requires e.Rewards? && totals.Valid() && inserter.Valid() && inserter.txn.Some?
      requires {inserter, inserter.db} !! totals.repr
      modifies totals.repr, inserter
      ensures totals.Valid() && fresh(totals.repr - old(totals.repr)) && inserter.Valid() && inserter.txn.Some?
      ensures var rows := EventInserts(e, time);
              && inserter.tried == old(inserter.tried) + Tried(rows, old(Accepts(rows)))
              && totals.contents == DepthsAfter(old(totals.contents), e, time, old(Accepts(rows)))
    {
      var ok := InsertRows(e, time);
      if ok {
        totals.AddEach(e.perPool);
      }
    }

    /** The inserts of `OnRewards`. */
    method InsertRows(e: Event, time: int) returns (ok: bool)
      requires e.Rewards? && inserter.Valid() && inserter.txn.Some?
      modifies inserter
      ensures inserter.Valid() && inserter.txn.Some?
      ensures var rows := EventInserts(e, time);
              && inserter.tried == old(inserter.tried) + Tried(rows, old(Accepts(rows)))
              && (ok <==> old(Accepts(rows)) == |rows|)
    {
      ghost var rows := EventInserts(e, time);
      assert rows[1..] == EntryInserts(e.perPool, e.id, time);
      ok := InsertNext(rows, KeyFor(RewardsEvents), RewardsRow(e.bond, e.id, time));
      if !ok || e.perPool == [] {
        return;
      }
      FirstOf(old(inserter.tried), rows, 1 + Accepts(rows[1..]));
      ok := InsertEntries(e.perPool, e.id, time);
    }
  }

  lemma Rest(before: seq<Insertion>, rows: seq<Insertion>, i: nat)
    requires i < |rows|
    ensures rows[i..][1..] == rows[i + 1..]
    ensures (before + rows[..i]) + [rows[i]] == before + rows[..i + 1]
  {
  }

  /** The depths after an event of which `kept` rows were accepted. */
  ghost function DepthsAfter(d: DepthMaps, e: Event, time: int, kept: nat): DepthMaps {
    if kept == |EventInserts(e, time)| then ApplyEvent(d, e) else d
  }

  /** What the rewards for a pool add up to. */
  function AmountFor(perPool: seq<PoolReward>, pool: string): int {
    if perPool == [] then 0
    else
      var last := perPool[|perPool| - 1];
      AmountFor(perPool[..|perPool| - 1], pool) + if last.pool == pool then last.amount else 0
  }

  /** The rewards whose entries are among the first rows of the event. */
  function RewardsAmong(e: Event, kept: nat): seq<PoolReward>
    requires e.Rewards? && kept <= |e.perPool| + 1
  {
    if kept == 0 then [] else e.perPool[..kept - 1]
  }

  /** The entries of a pool that the open transaction holds. */
  ghost function EntriesIn(schema: Schema, db: Database, tried: seq<Insertion>, pool: string, t: int): int {
    EntrySum(RowsIn(InsertEach(schema, db, tried), RewardsEventEntries), pool, t)
  }

  /** `OnRewards` moves the entries in the transaction and the depths in memory by the same amounts. */
  ghost predicate InStep(schema: Schema, db: Database, before: seq<Insertion>, d: DepthMaps, e: Event, time: int) {
    forall pool :: InStepFor(schema, db, before, d, e, time, pool)
  }

  ghost predicate InStepFor(schema: Schema, db: Database, before: seq<Insertion>, d: DepthMaps, e: Event, time: int, pool: string)
  {
    var rows := EventInserts(e, time);
    var kept := Kept(schema, db, before, rows);
    EntriesIn(schema, db, before + Tried(rows, kept), pool, time) - EntriesIn(schema, db, before, pool, time)
      == ValueOf(DepthsAfter(d, e, time, kept).qbtc, pool) - ValueOf(d.qbtc, pool)
  }

  ghost predicate CancelOut(perPool: seq<PoolReward>) {
    forall pool :: AmountFor(perPool, pool) == 0
  }

  /** The event's first row is no entry. */
  lemma EntriesAmong(e: Event, time: int, kept: nat)
    requires e.Rewards? && 0 < kept <= |EventInserts(e, time)|
    ensures RowsOf(EventInserts(e, time)[..kept], RewardsEventEntries)
         == RowsOf(EntryInserts(e.perPool, e.id, time)[..kept - 1], RewardsEventEntries)
  {
    var rows, entries := EventInserts(e, time), EntryInserts(e.perPool, e.id, time);
    assert rows[..kept] == [rows[0]] + entries[..kept - 1];
    RowsOfConcat([rows[0]], entries[..kept - 1], RewardsEventEntries);
    OneRow(rows[0], RewardsEventEntries);
  }

  lemma EntriesOneMore(perPool: seq<PoolReward>, id: int, time: int, n: nat, pool: string)
    requires n < |perPool|
    ensures var rows := EntryInserts(perPool, id, time);
            EntrySum(RowsOf(rows[..n + 1], RewardsEventEntries), pool, time)
            == EntrySum(RowsOf(rows[..n], RewardsEventEntries), pool, time)
               + if perPool[n].pool == pool then perPool[n].amount else 0
  {
    var rows := EntryInserts(perPool, id, time);
    EntryAt(perPool, id, time, n);
    assert rows[..n + 1] == rows[..n] + [rows[n]];
    RowsOfConcat(rows[..n], [rows[n]], RewardsEventEntries);
    OneRow(rows[n], RewardsEventEntries);
    EntrySumConcat(RowsOf(rows[..n], RewardsEventEntries), [rows[n].row], pool, time);
    assert [rows[n].row][..0] == [];
  }

  lemma AmountOneMore(perPool: seq<PoolReward>, n: nat, pool: string)
    requires n < |perPool|
    ensures AmountFor(perPool[..n + 1], pool)
         == AmountFor(perPool[..n], pool) + if perPool[n].pool == pool then perPool[n].amount else 0
  {
    assert perPool[..n + 1][..n] == perPool[..n];
  }

  lemma {:induction false} EntriesAddUp(perPool: seq<PoolReward>, id: int, time: int, n: nat, pool: string)
    requires n <= |perPool|
    ensures EntrySum(RowsOf(EntryInserts(perPool, id, time)[..n], RewardsEventEntries), pool, time) == AmountFor(perPool[..n], pool)
  {
    if n > 0 {
      EntriesAddUp(perPool, id, time, n - 1, pool);
      EntriesOneMore(perPool, id, time, n - 1, pool);
      AmountOneMore(perPool, n - 1, pool);
    }
  }

  /** What `OnRewards` adds to a pool's entries: the rewards of the accepted ones. */
  lemma EntriesGrow(schema: Schema, db: Database, before: seq<Insertion>, e: Event, time: int, kept: nat, pool: string)
    requires e.Rewards? && kept == Kept(schema, db, before, EventInserts(e, time))
    ensures EntriesIn(schema, db, before + Tried(EventInserts(e, time), kept), pool, time)
         == EntriesIn(schema, db, before, pool, time) + AmountFor(RewardsAmong(e, kept), pool)
  {
    var rows := EventInserts(e, time);
    KeptRows(schema, db, before, rows, kept, RewardsEventEntries);
    EntrySumConcat(RowsIn(InsertEach(schema, db, before), RewardsEventEntries), RowsOf(rows[..kept], RewardsEventEntries),
                   pool, time);
    if kept > 0 {
      EntriesAmong(e, time, kept);
      EntriesAddUp(e.perPool, e.id, time, kept - 1, pool);
    }
  }

  /** What an event whose rows are all accepted adds to a pool's depth. */
  lemma DepthsGrow(d: DepthMaps, e: Event, time: int, pool: string)
    requires e.Rewards?
    ensures ValueOf(ApplyEvent(d, e).qbtc, pool) - ValueOf(d.qbtc, pool) == AmountFor(e.perPool, pool)
  {
    var rows, n := EventInserts(e, time), |e.perPool|;
    EventMatchesEntries(d, e, time, pool, time);
    EntriesAmong(e, time, n + 1);
    EntriesAddUp(e.perPool, e.id, time, n, pool);
    assert rows[..n + 1] == rows && e.perPool[..n] == e.perPool;
  }

  /**
    Entries and depths stay in step exactly when all rows of the event are accepted, or the rewards of the accepted entries
    cancel out for each pool. Otherwise the entries accepted before the refused row are in the database and out of the depths.
   */
  lemma RefusalBreaksStepIff(schema: Schema, db: Database, before: seq<Insertion>, d: DepthMaps, e: Event, time: int)
    requires e.Rewards?
    ensures var rows := EventInserts(e, time);
            var kept := Kept(schema, db, before, rows);
            InStep(schema, db, before, d, e, time) <==>
              kept == |rows| || CancelOut(RewardsAmong(e, kept))
  {
    var rows := EventInserts(e, time);
    var kept := Kept(schema, db, before, rows);
    forall pool
      ensures InStepFor(schema, db, before, d, e, time, pool) <==> kept == |rows| || AmountFor(RewardsAmong(e, kept), pool) == 0
    {
      EntriesGrow(schema, db, before, e, time, kept, pool);
      DepthsGrow(d, e, time, pool);
      assert e.perPool[..|e.perPool|] == e.perPool;
    }
  }

  lemma {:induction false} FirstPoolGains(perPool: seq<PoolReward>)
    requires perPool != [] && forall i | 0 <= i < |perPool| :: perPool[i].amount > 0
    ensures AmountFor(perPool, perPool[0].pool) > 0
  {
    if |perPool| > 1 {
      FirstPoolGains(perPool[..|perPool| - 1]);
    }
  }

  /** With positive rewards: exactly when all rows are accepted or no entry is. */
  lemma PositiveRewardsIff(schema: Schema, db: Database, before: seq<Insertion>, d: DepthMaps, e: Event, time: int)
    requires e.Rewards? && forall i | 0 <= i < |e.perPool| :: e.perPool[i].amount > 0
    ensures var rows := EventInserts(e, time);
            var kept := Kept(schema, db, before, rows);
            InStep(schema, db, before, d, e, time) <==> kept == |rows| || kept <= 1
  {
    RefusalBreaksStepIff(schema, db, before, d, e, time);
    var kept := Kept(schema, db, before, EventInserts(e, time));
    if kept > 1 {
      FirstPoolGains(RewardsAmong(e, kept));
    }
  }

  /** Postgres refuses a zero character in a TEXT column. */
  predicate HasNoZeros(table: Table, row: Row) {
    row.EntryRow? ==> '\0' !in row.pool
  }

  /** A pool name with a zero character, after a good one: the first entry is kept, and no depth moves. */
  lemma ZeroCharacterBreaksStep(bond: int, id: int, time: int)
    ensures var e := Rewards(bond, [PoolReward("A", 5), PoolReward("B\0", 3)], id);
            Kept(HasNoZeros, map[], [], EventInserts(e, time)) == 2 && !InStep(HasNoZeros, map[], [], NO_DEPTHS, e, time)
  {
    var perPool := [PoolReward("A", 5), PoolReward("B\0", 3)];
    var e := Rewards(bond, perPool, id);
    var rows := EventInserts(e, time);
    EntryAt(perPool, id, time, 0);
    EntryAt(perPool, id, time, 1);
    var first, second, third := rows[0], rows[1], rows[2];
    assert rows == [first, second, third];
    assert third.row.pool[1] == '\0';
    assert rows[1..] == [second, third] && [second, third][1..] == [third] && [] + [first] == [first];
    assert Kept(HasNoZeros, map[], [first] + [second], [third]) == 0;
    assert Kept(HasNoZeros, map[], [first], [second, third]) == 1;
    RefusalBreaksStepIff(HasNoZeros, map[], [], NO_DEPTHS, e, time);
    assert RewardsAmong(e, 2) == [PoolReward("A", 5)];
    assert [PoolReward("A", 5)][..0] == [];
    assert AmountFor(RewardsAmong(e, 2), "A") == 5;
  }
}
