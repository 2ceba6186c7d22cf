/**
  What recording leaves in the database, table by table and counted from the events and blocks themselves
  (internal/fetch/record/record.go, internal/fetch/record/mux.go, internal/timeseries/timeseries.go).
 */
module RecordedRows {
  import opened Tables
  import opened Depths
  import opened Inserter
  import opened Record
  import opened Recovery
  import opened Options

  /** An event, and the time of its block. */
  datatype Happening = Happening(event: Event, time: int)

  predicate IsOfKind(h: Happening, kind: Kind) {
    h.event.RowOnly? && h.event.kind == kind
  }

  /** The happenings of a kind, each as often as it happened, in order. */
  function OfKind(hs: seq<Happening>, kind: Kind): seq<Happening> {
    if hs == [] then []
    else
      var rest, last := OfKind(hs[..|hs| - 1], kind), hs[|hs| - 1];
      if IsOfKind(last, kind) then rest + [last] else rest
  }

  function OfRewards(hs: seq<Happening>): seq<Happening> {
    if hs == [] then []
    else
      var rest, last := OfRewards(hs[..|hs| - 1]), hs[|hs| - 1];
      if last.event.Rewards? then rest + [last] else rest
  }

  /** A reward for a pool, with the id of its event and the time of its block. */
  datatype PoolEntry = PoolEntry(reward: PoolReward, id: int, time: int)

  function EntriesOf(h: Happening): seq<PoolEntry> {
    match h.event
    case Rewards(_, perPool, id) => seq(|perPool|, i requires 0 <= i < |perPool| => PoolEntry(perPool[i], id, h.time))
    case RowOnly(_, _, _) => []
  }

  /** The rewards for pools, event after event. */
  function PoolEntries(hs: seq<Happening>): seq<PoolEntry> {
    if hs == [] then []
    else
      PoolEntries(hs[..|hs| - 1]) + EntriesOf(hs[|hs| - 1])
  }

  /** One row for each happening: its content, id and time. */
  ghost predicate HasContents(rows: seq<Row>, hs: seq<Happening>) {
    && |rows| == |hs|
    && forall i | 0 <= i < |hs| :: hs[i].event.RowOnly? && rows[i] == OtherRow(hs[i].event.content, hs[i].event.id, hs[i].time)
  }

  ghost predicate HasBonds(rows: seq<Row>, hs: seq<Happening>) {
    && |rows| == |hs|
    && forall i | 0 <= i < |hs| :: hs[i].event.Rewards? && rows[i] == RewardsRow(hs[i].event.bond, hs[i].event.id, hs[i].time)
  }

  ghost predicate HasPoolEntries(rows: seq<Row>, es: seq<PoolEntry>) {
    && |rows| == |es|
    && forall i | 0 <= i < |es| :: rows[i] == EntryRow(es[i].reward.pool, es[i].reward.amount, es[i].id, es[i].time)
  }

  /** The event tables hold one row for each event of their kind, and one for each pool of a rewards event. */
  ghost predicate HasEventRows(transfers: seq<Row>, instantiations: seq<Row>, contracts: seq<Row>, rewards: seq<Row>,
                               entries: seq<Row>, hs: seq<Happening>)
  {
    && HasContents(transfers, OfKind(hs, Transfer))
    && HasContents(instantiations, OfKind(hs, Instantiate))
    && HasContents(contracts, OfKind(hs, CosmWasm))
    && HasBonds(rewards, OfRewards(hs))
    && HasPoolEntries(entries, PoolEntries(hs))
  }

  ghost predicate AreRecorded(log: seq<Insertion>, hs: seq<Happening>) {
    HasEventRows(RowsOf(log, TransferEvents), RowsOf(log, InstantiateEvents), RowsOf(log, WasmContractsEvents),
                 RowsOf(log, RewardsEvents), RowsOf(log, RewardsEventEntries), hs)
  }

  // ---------------------------------------------------------------------------------------------
  // One event

  lemma {:induction false} OtherRowsOfEntries(perPool: seq<PoolReward>, id: int, time: int, table: Table)
    requires table != RewardsEventEntries
    ensures RowsOf(EntryInserts(perPool, id, time), table) == []
  {
    if perPool != [] {
      OtherRowsOfEntries(perPool[..|perPool| - 1], id, time, table);
    }
  }

  lemma {:induction false} EntriesOfEvent(perPool: seq<PoolReward>, id: int, time: int)
    ensures var rows := RowsOf(EntryInserts(perPool, id, time), RewardsEventEntries);
            && |rows| == |perPool|
            && forall i | 0 <= i < |perPool| :: rows[i] == EntryRow(perPool[i].pool, perPool[i].amount, id, time)
  {
    if perPool != [] {
      EntriesOfEvent(perPool[..|perPool| - 1], id, time);
    }
  }

  lemma RowsOfOne(x: Insertion, table: Table)
    ensures RowsOf([x], table) == if x.key.table == table then [x.row] else []
  {
    assert [x][..0] == [];
  }

  /** A rewards event leaves its own row and one for each pool. */
  lemma RowsOfRewards(bond: int, perPool: seq<PoolReward>, id: int, time: int, table: Table)
    ensures RowsOf(EventInserts(Rewards(bond, perPool, id), time), table)
         == if table == RewardsEvents then [RewardsRow(bond, id, time)]
            else if table == RewardsEventEntries then RowsOf(EntryInserts(perPool, id, time), table)
            else []
  {
    var first := Insertion(KeyFor(RewardsEvents), RewardsRow(bond, id, time));
    RowsOfConcat([first], EntryInserts(perPool, id, time), table);
    RowsOfOne(first, table);
    if table != RewardsEventEntries {
      OtherRowsOfEntries(perPool, id, time, table);
    }
  }

  lemma OneOfKind(h: Happening, kind: Kind)
    ensures OfKind([h], kind) == if IsOfKind(h, kind) then [h] else []
  {
    assert [h][..0] == [];
  }

  lemma OneOfRewards(h: Happening)
    ensures OfRewards([h]) == if h.event.Rewards? then [h] else []
  {
    assert [h][..0] == [];
  }

  lemma EntriesOfOne(h: Happening)
    ensures PoolEntries([h]) == EntriesOf(h)
  {
    assert [h][..0] == [];
  }

  lemma RowsOfRow(kind: Kind, content: string, id: int, time: int, table: Table)
    ensures RowsOf(EventInserts(RowOnly(kind, content, id), time), table)
         == if table == TableOf(kind) then [OtherRow(content, id, time)] else []
  {
    RowsOfOne(Insertion(KeyFor(TableOf(kind)), OtherRow(content, id, time)), table);
  }

  lemma RowOfKind(kind: Kind, content: string, id: int, time: int, table: Table, k: Kind)
    requires table == TableOf(k)
    ensures HasContents(RowsOf(EventInserts(RowOnly(kind, content, id), time), table),
                        OfKind([Happening(RowOnly(kind, content, id), time)], k))
  {
    RowsOfRow(kind, content, id, time, table);
    OneOfKind(Happening(RowOnly(kind, content, id), time), k);
  }

  lemma RowIsRecorded(kind: Kind, content: string, id: int, time: int)
    ensures AreRecorded(EventInserts(RowOnly(kind, content, id), time), [Happening(RowOnly(kind, content, id), time)])
  {
    RowOfKind(kind, content, id, time, TransferEvents, Transfer);
    RowOfKind(kind, content, id, time, InstantiateEvents, Instantiate);
    RowOfKind(kind, content, id, time, WasmContractsEvents, CosmWasm);
    RowsOfRow(kind, content, id, time, RewardsEvents);
    RowsOfRow(kind, content, id, time, RewardsEventEntries);
    OneOfRewards(Happening(RowOnly(kind, content, id), time));
    EntriesOfOne(Happening(RowOnly(kind, content, id), time));
  }

  lemma NoRowOfKind(bond: int, perPool: seq<PoolReward>, id: int, time: int, table: Table, kind: Kind)
    requires table == TableOf(kind)
    ensures HasContents(RowsOf(EventInserts(Rewards(bond, perPool, id), time), table),
                        OfKind([Happening(Rewards(bond, perPool, id), time)], kind))
  {
    RowsOfRewards(bond, perPool, id, time, table);
    OneOfKind(Happening(Rewards(bond, perPool, id), time), kind);
  }

  lemma EntriesAreRecorded(bond: int, perPool: seq<PoolReward>, id: int, time: int)
    ensures HasPoolEntries(RowsOf(EventInserts(Rewards(bond, perPool, id), time), RewardsEventEntries),
                           PoolEntries([Happening(Rewards(bond, perPool, id), time)]))
  {
    RowsOfRewards(bond, perPool, id, time, RewardsEventEntries);
    EntriesOfOne(Happening(Rewards(bond, perPool, id), time));
    EntriesOfEvent(perPool, id, time);
  }

  lemma RewardsAreRecorded(bond: int, perPool: seq<PoolReward>, id: int, time: int)
    ensures AreRecorded(EventInserts(Rewards(bond, perPool, id), time), [Happening(Rewards(bond, perPool, id), time)])
  {
    NoRowOfKind(bond, perPool, id, time, TransferEvents, Transfer);
    NoRowOfKind(bond, perPool, id, time, InstantiateEvents, Instantiate);
    NoRowOfKind(bond, perPool, id, time, WasmContractsEvents, CosmWasm);
    RowsOfRewards(bond, perPool, id, time, RewardsEvents);
    OneOfRewards(Happening(Rewards(bond, perPool, id), time));
    EntriesAreRecorded(bond, perPool, id, time);
  }

  lemma EventIsRecorded(e: Event, time: int)
    ensures AreRecorded(EventInserts(e, time), [Happening(e, time)])
  {
    match e
    case Rewards(bond, perPool, id) => RewardsAreRecorded(bond, perPool, id, time);
    case RowOnly(kind, content, id) => RowIsRecorded(kind, content, id, time);
  }

  // ---------------------------------------------------------------------------------------------
  // All events

  lemma {:induction false} OfKindConcat(a: seq<Happening>, b: seq<Happening>, kind: Kind)
    ensures OfKind(a + b, kind) == OfKind(a, kind) + OfKind(b, kind)
  {
    if b == [] {
      assert a + b == a;
    } else {
      OfKindConcat(a, b[..|b| - 1], kind);
      assert (a + b)[..|a + b| - 1] == a + b[..|b| - 1];
    }
  }

  lemma {:induction false} OfRewardsConcat(a: seq<Happening>, b: seq<Happening>)
    ensures OfRewards(a + b) == OfRewards(a) + OfRewards(b)
  {
    if b == [] {
      assert a + b == a;
    } else {
      OfRewardsConcat(a, b[..|b| - 1]);
      assert (a + b)[..|a + b| - 1] == a + b[..|b| - 1];
    }
  }

  lemma Regroup(x: seq<PoolEntry>, y: seq<PoolEntry>, z: seq<PoolEntry>, xy: seq<PoolEntry>, all: seq<PoolEntry>,
                yz: seq<PoolEntry>)
    requires xy == x + y && yz == y + z && all == xy + z
    ensures all == x + yz
  {
  }

  lemma {:induction false} PoolEntriesConcat(a: seq<Happening>, b: seq<Happening>)
    ensures PoolEntries(a + b) == PoolEntries(a) + PoolEntries(b)
  {
    if b == [] {
      assert a + b == a;
    } else {
      var rest, h := b[..|b| - 1], b[|b| - 1];
      PoolEntriesConcat(a, rest);
      assert (a + b)[..|a + b| - 1] == a + rest;
      Regroup(PoolEntries(a), PoolEntries(rest), EntriesOf(h), PoolEntries(a + rest), PoolEntries(a + b), PoolEntries(b));
    }
  }

  lemma ContentsConcat(x: seq<Row>, a: seq<Happening>, y: seq<Row>, b: seq<Happening>)
    requires HasContents(x, a) && HasContents(y, b)
    ensures HasContents(x + y, a + b)
  {
  }

  lemma BondsConcat(x: seq<Row>, a: seq<Happening>, y: seq<Row>, b: seq<Happening>)
    requires HasBonds(x, a) && HasBonds(y, b)
    ensures HasBonds(x + y, a + b)
  {
  }

  lemma EntriesConcat(x: seq<Row>, a: seq<PoolEntry>, y: seq<Row>, b: seq<PoolEntry>)
    requires HasPoolEntries(x, a) && HasPoolEntries(y, b)
    ensures HasPoolEntries(x + y, a + b)
  {
  }

  lemma KindConcat(log: seq<Insertion>, hs: seq<Happening>, more: seq<Insertion>, added: seq<Happening>, table: Table, kind: Kind)
    requires HasContents(RowsOf(log, table), OfKind(hs, kind)) && HasContents(RowsOf(more, table), OfKind(added, kind))
    ensures HasContents(RowsOf(log + more, table), OfKind(hs + added, kind))
  {
    RowsOfConcat(log, more, table);
    OfKindConcat(hs, added, kind);
    ContentsConcat(RowsOf(log, table), OfKind(hs, kind), RowsOf(more, table), OfKind(added, kind));
  }

  lemma RewardsConcat(log: seq<Insertion>, hs: seq<Happening>, more: seq<Insertion>, added: seq<Happening>)
    requires HasBonds(RowsOf(log, RewardsEvents), OfRewards(hs)) && HasBonds(RowsOf(more, RewardsEvents), OfRewards(added))
    ensures HasBonds(RowsOf(log + more, RewardsEvents), OfRewards(hs + added))
  {
    RowsOfConcat(log, more, RewardsEvents);
    OfRewardsConcat(hs, added);
    BondsConcat(RowsOf(log, RewardsEvents), OfRewards(hs), RowsOf(more, RewardsEvents), OfRewards(added));
  }

  lemma PerPoolConcat(log: seq<Insertion>, hs: seq<Happening>, more: seq<Insertion>, added: seq<Happening>)
    requires HasPoolEntries(RowsOf(log, RewardsEventEntries), PoolEntries(hs))
    requires HasPoolEntries(RowsOf(more, RewardsEventEntries), PoolEntries(added))
    ensures HasPoolEntries(RowsOf(log + more, RewardsEventEntries), PoolEntries(hs + added))
  {
    RowsOfConcat(log, more, RewardsEventEntries);
    PoolEntriesConcat(hs, added);
    EntriesConcat(RowsOf(log, RewardsEventEntries), PoolEntries(hs), RowsOf(more, RewardsEventEntries), PoolEntries(added));
  }

  lemma RecordedConcat(log: seq<Insertion>, hs: seq<Happening>, more: seq<Insertion>, added: seq<Happening>)
    requires AreRecorded(log, hs) && AreRecorded(more, added)
    ensures AreRecorded(log + more, hs + added)
  {
    KindConcat(log, hs, more, added, TransferEvents, Transfer);
    KindConcat(log, hs, more, added, InstantiateEvents, Instantiate);
    KindConcat(log, hs, more, added, WasmContractsEvents, CosmWasm);
    RewardsConcat(log, hs, more, added);
    PerPoolConcat(log, hs, more, added);
  }

  /** The events of a block, with its time. */
  function AllAt(events: seq<Event>, time: int): seq<Happening> {
    seq(|events|, i requires 0 <= i < |events| => Happening(events[i], time))
  }

  lemma AllAtOneMore(events: seq<Event>, time: int)
    requires events != []
    ensures AllAt(events, time) == AllAt(events[..|events| - 1], time) + [Happening(events[|events| - 1], time)]
  {
  }

  lemma OneEventMoreIsRecorded(log: seq<Insertion>, hs: seq<Happening>, e: Event, time: int)
    requires AreRecorded(log, hs)
    ensures AreRecorded(log + EventInserts(e, time), hs + [Happening(e, time)])
  {
    EventIsRecorded(e, time);
    RecordedConcat(log, hs, EventInserts(e, time), [Happening(e, time)]);
  }

  /** Recording the events of a block leaves just the rows of those events. */
  lemma {:induction false} EventsAreRecorded(events: seq<Event>, time: int)
    ensures AreRecorded(EventsInserts(events, time), AllAt(events, time))
  {
    if events != [] {
      var n := |events| - 1;
      EventsAreRecorded(events[..n], time);
      OneEventMoreIsRecorded(EventsInserts(events[..n], time), AllAt(events[..n], time), events[n], time);
      AllAtOneMore(events, time);
    }
  }

  // ---------------------------------------------------------------------------------------------
  // The durable tables

  /** All that happened in the first `n` blocks. */
  function Happened(chain: Chain, n: nat): seq<Happening> {
    if n == 0 then [] else Happened(chain, n - 1) + AllAt(chain(n).events, chain(n).time)
  }

  lemma BlockRowIsNoEvent(b: Block)
    ensures AreRecorded([Insertion(KeyFor(Blocks), BlockRow(b.height, b.payload))], [])
  {
    var x := Insertion(KeyFor(Blocks), BlockRow(b.height, b.payload));
    RowsOfOne(x, TransferEvents);
    RowsOfOne(x, InstantiateEvents);
    RowsOfOne(x, WasmContractsEvents);
    RowsOfOne(x, RewardsEvents);
    RowsOfOne(x, RewardsEventEntries);
  }

  lemma OneBlockMore(b: Block, log: seq<Insertion>, hs: seq<Happening>)
    requires AreRecorded(log, hs)
    ensures AreRecorded(log + EventsInserts(b.events, b.time) + [Insertion(KeyFor(Blocks), BlockRow(b.height, b.payload))],
                        hs + AllAt(b.events, b.time))
  {
    EventsAreRecorded(b.events, b.time);
    RecordedConcat(log, hs, EventsInserts(b.events, b.time), AllAt(b.events, b.time));
    BlockRowIsNoEvent(b);
    var now := hs + AllAt(b.events, b.time);
    RecordedConcat(log + EventsInserts(b.events, b.time), now, [Insertion(KeyFor(Blocks), BlockRow(b.height, b.payload))], []);
    assert now + [] == now;
  }

  lemma {:induction false} BlocksAreRecordedWith(chain: Chain, n: nat)
    ensures AreRecorded(Recorded(chain, n), Happened(chain, n))
  {
    if n > 0 {
      BlocksAreRecordedWith(chain, n - 1);
      OneBlockMore(chain(n), Recorded(chain, n - 1), Happened(chain, n - 1));
    }
  }

  /** A durable database of height n holds the rows of all that happened in the first n blocks, and no other event rows. */
  lemma DurableEvents(chain: Chain, db: Database)
    requires Durable(chain, db)
    ensures HasEventRows(RowsIn(db, TransferEvents), RowsIn(db, InstantiateEvents), RowsIn(db, WasmContractsEvents),
                         RowsIn(db, RewardsEvents), RowsIn(db, RewardsEventEntries), Happened(chain, Height(db)))
  {
    BlocksAreRecordedWith(chain, Height(db));
    OnlyDurable(chain, db, TransferEvents);
    OnlyDurable(chain, db, InstantiateEvents);
    OnlyDurable(chain, db, WasmContractsEvents);
    OnlyDurable(chain, db, RewardsEvents);
    OnlyDurable(chain, db, RewardsEventEntries);
  }

  lemma OnlyDurable(chain: Chain, db: Database, table: Table)
    requires Durable(chain, db) && table != BlockLog && table != BlockPoolDepths
    ensures RowsIn(db, table) == RowsOf(Recorded(chain, Height(db)), table)
  {
    assert Rows(db, [], table) == RowsIn(db, table);
  }

  lemma {:induction false} RowsOfBlocks(chain: Chain, n: nat)
    ensures var rows := RowsOf(Recorded(chain, n), Blocks);
            |rows| == n && forall i | 0 <= i < n :: rows[i] == BlockRow(chain(i + 1).height, chain(i + 1).payload)
  {
    if n > 0 {
      RowsOfBlocks(chain, n - 1);
      BlockRowOfOneMore(chain, n);
    }
  }

  /** Row i of `block_log` and of `blocks` is that of block i + 1. */
  lemma DurableBlocks(chain: Chain, db: Database, i: nat)
    requires IsChain(chain) && Durable(chain, db) && i < Height(db)
    ensures var b := chain(i + 1);
            && |RowsIn(db, Blocks)| == Height(db)
            && RowsIn(db, Blocks)[i] == BlockRow(i + 1, b.payload)
            && RowsIn(db, BlockLog)[i].LogRow?
            && RowsIn(db, BlockLog)[i].height == i + 1
            && RowsIn(db, BlockLog)[i].time == b.time
            && RowsIn(db, BlockLog)[i].hash == b.hash
  {
    OnlyDurable(chain, db, Blocks);
    RowsOfBlocks(chain, Height(db));
    assert Rows(db, [], BlockLog) == RowsIn(db, BlockLog);
  }

  /** The amounts of a pool among the rewards. */
  function AmountOf(es: seq<PoolEntry>, pool: string): int {
    if es == [] then 0
    else
      var last := es[|es| - 1];
      AmountOf(es[..|es| - 1], pool) + if last.reward.pool == pool then last.reward.amount else 0
  }

  lemma {:induction false} EntryRowsAddUp(rows: seq<Row>, es: seq<PoolEntry>, pool: string, t: int)
    requires HasPoolEntries(rows, es) && forall e | e in es :: e.time <= t
    ensures EntrySum(rows, pool, t) == AmountOf(es, pool)
  {
    if rows != [] {
      assert es[|es| - 1] in es;
      EntryRowsAddUp(rows[..|rows| - 1], es[..|es| - 1], pool, t);
    }
  }

  lemma {:induction false} EntryTimes(hs: seq<Happening>, t: int)
    requires forall h | h in hs :: h.time <= t
    ensures forall e | e in PoolEntries(hs) :: e.time <= t
  {
    if hs != [] {
      assert hs[|hs| - 1] in hs;
      EntryTimes(hs[..|hs| - 1], t);
    }
  }

  lemma {:induction false} HappenedBy(chain: Chain, n: nat)
    requires IsChain(chain)
    ensures forall h | h in Happened(chain, n) :: h.time <= chain(n).time
  {
    if n > 0 {
      HappenedBy(chain, n - 1);
    }
  }

  /** The depths after a block are the amounts of all rewards so far; there are no asset and no synth depths. */
  lemma TotalsAreRewards(chain: Chain, n: nat, pool: string)
    requires IsChain(chain) && n > 0
    ensures ValueOf(TotalsAfter(chain, n).qbtc, pool) == AmountOf(PoolEntries(Happened(chain, n)), pool)
    ensures TotalsAfter(chain, n).asset == TotalsAfter(chain, n).synth == map[]
  {
    var t := chain(n).time;
    BlocksAreRecordedWith(chain, n);
    HappenedBy(chain, n);
    EntryTimes(Happened(chain, n), t);
    EntryRowsAddUp(RowsOf(Recorded(chain, n), RewardsEventEntries), PoolEntries(Happened(chain, n)), pool, t);
    HistoryMatchesEntries(chain, n, pool, t);
    TrueDepthsAtEnd(History(chain, n), t);
    OnlyRewardsMoveDepths(chain, n, t);
  }
}
