/**
  internal/fetch/record: the running totals (maps of pointers, with snapshot copies) and what the recorder
  writes for an event.
 */
module Record {
  import opened Tables
  import opened Depths
  import opened Inserter
  import opened Options

  // ---------------------------------------------------------------------------------------------
  // Running totals

  class Cell {
    var value: int
    ghost const owner: PointerMap

    constructor (value: int, ghost owner: PointerMap)
      ensures this.value == value && this.owner == owner
    {
      this.value, this.owner := value, owner;
    }
  }

  ghost function Restrict(m: map<string, int>, keys: set<string>): map<string, int> {
    map k | k in m && k in keys :: m[k]
  }

  lemma OneKeyMore(base: map<string, int>, m: map<string, int>, done: set<string>, p: string)
    requires p in m
    ensures (base + Restrict(m, done))[p := m[p]] == base + Restrict(m, done + {p})
  {
  }

  lemma EveryKey(m: map<string, int>, done: set<string>, rest: set<string>)
    requires done + rest == m.Keys && rest == {}
    ensures Restrict(m, done) == m
  {
  }

  /** One of the three maps of `runningTotals`: each pool has its own cell. */
  class PointerMap {
    var cells: map<string, Cell>
    /** The number behind each pointer. */
    ghost var contents: map<string, int>

    ghost predicate Valid()
      reads this, Cells()
    {
      && contents.Keys == cells.Keys
      && (forall p | p in cells :: cells[p].owner == this && cells[p].value == contents[p])
      && (forall p, q | p in cells && q in cells && cells[p] == cells[q] :: p == q)
    }

    ghost function Cells(): set<Cell>
      reads this
    {
      cells.Values
    }

    constructor ()
      ensures Valid() && contents == map[] && Cells() == {}
    {
      cells, contents := map[], map[];
    }

    method Add(pool: string, amount: int)
      requires Valid()
      modifies this, Cells()
      ensures Valid() && fresh(Cells() - old(Cells()))
      ensures contents == old(contents)[pool := ValueOf(old(contents), pool) + amount]
    {
      if pool in cells {
        cells[pool].value := cells[pool].value + amount;
        contents := contents[pool := contents[pool] + amount];
      } else {
        var cell := new Cell(amount, this);
        cells := cells[pool := cell];
        contents := contents[pool := amount];
      }
    }

    method Set(pool: string, amount: int)
      requires Valid()
      modifies this
      ensures Valid() && fresh(Cells() - old(Cells()))
      ensures contents == old(contents)[pool := amount]
    {
      var cell := new Cell(amount, this);
      cells := cells[pool := cell];
      contents := contents[pool := amount];
    }

    /** Sets every pool of a map, in some order. */
    method SetAll(m: map<string, int>)
      requires Valid()
      modifies this
      ensures Valid() && fresh(Cells() - old(Cells()))
      ensures contents == old(contents) + m
    {
      var rest := m.Keys;
      ghost var done: set<string> := {};
      while rest != {}
        invariant done !! rest && done + rest == m.Keys
        invariant Valid() && fresh(Cells() - old(Cells()))
        invariant contents == old(contents) + Restrict(m, done)
        decreases |rest|
      {
        var p :| p in rest;
        MoveOne(m.Keys, done, rest, p);
        OneKeyMore(old(contents), m, done, p);
        Set(p, m[p]);
        done, rest := done + {p}, rest - {p};
      }
      EveryKey(m, done, rest);
    }

    /** A copy that later additions do not touch. */
    method Copy() returns (m: map<string, int>)
      requires Valid()
      ensures m == contents
    {
      m := map[];
      var rest := cells.Keys;
      while rest != {}
        invariant rest <= cells.Keys
        invariant m == map p | p in cells && p !in rest :: cells[p].value
        decreases |rest|
      {
        var p :| p in rest;
        m := m[p := cells[p].value];
        rest := rest - {p};
      }
    }
  }

  lemma CellsAreApart(a: PointerMap, b: PointerMap)
    requires a != b && a.Valid() && b.Valid()
    ensures a.Cells() !! b.Cells()
  {
    forall cell | cell in a.Cells()
      ensures cell !in b.Cells()
    {
      assert cell.owner == a;
    }
  }

  class RunningTotals {
    const asset: PointerMap
    const qbtc: PointerMap
    const synth: PointerMap
    ghost var contents: DepthMaps
    ghost var repr: set<object>

    /** The three maps own their cells, so they share none. */
    ghost predicate Valid()
      reads this, repr
      ensures Valid() ==> this in repr
    {
      && {this, asset, qbtc, synth} <= repr
      && asset.Cells() <= repr && qbtc.Cells() <= repr && synth.Cells() <= repr
      && asset != qbtc && qbtc != synth && asset != synth
      && asset.Valid() && qbtc.Valid() && synth.Valid()
      && contents == DepthMaps(asset.contents, qbtc.contents, synth.contents)
    }

    constructor ()
      ensures Valid() && fresh(repr) && contents == NO_DEPTHS
    {
      asset := new PointerMap();
      qbtc := new PointerMap();
      synth := new PointerMap();
      contents := NO_DEPTHS;
      new;
      repr := {this, asset, qbtc, synth};
    }

    method AddPoolQbtcE8Depth(pool: string, amount: int)
      requires Valid()
      modifies repr
      ensures Valid() && fresh(repr - old(repr))
      ensures contents == old(contents).(qbtc := old(contents).qbtc[pool := ValueOf(old(contents).qbtc, pool) + amount])
    {
      CellsAreApart(asset, qbtc);
      CellsAreApart(synth, qbtc);
      qbtc.Add(pool, amount);
      assert asset.Valid() && synth.Valid();
      repr := repr + qbtc.Cells();
      contents := contents.(qbtc := qbtc.contents);
    }

    /** The loop over the pools of an event. */
    method AddEach(perPool: seq<PoolReward>)
      requires Valid()
      modifies repr
      ensures Valid() && fresh(repr - old(repr))
      ensures contents == old(contents).(qbtc := AddRewards(old(contents).qbtc, perPool))
    {
      ghost var before := contents;
      for i := 0 to |perPool|
        invariant Valid() && fresh(repr - old(repr))
        invariant contents == DepthMaps(before.asset, AddRewards(before.qbtc, perPool[..i]), before.synth)
      {
        OneRewardMore(before.qbtc, perPool, i);
        AddPoolQbtcE8Depth(perPool[i].pool, perPool[i].amount);
      }
      assert perPool[..|perPool|] == perPool;
    }

    /** Snapshot copies of the three maps. */
    method Snapshots() returns (depths: DepthMaps)
      requires Valid()
      ensures depths == contents
    {
      var a := asset.Copy();
      var q := qbtc.Copy();
      var s := synth.Copy();
      depths := DepthMaps(a, q, s);
    }

    method SetAssetDepths(m: map<string, int>)
      requires Valid()
      modifies repr
      ensures Valid() && fresh(repr - old(repr))
      ensures contents == old(contents).(asset := old(contents).asset + m)
    {
      asset.SetAll(m);
      repr := repr + asset.Cells();
      contents := contents.(asset := asset.contents);
    }

    method SetQbtcDepths(m: map<string, int>)
      requires Valid()
      modifies repr
      ensures Valid() && fresh(repr - old(repr))
      ensures contents == old(contents).(qbtc := old(contents).qbtc + m)
    {
      qbtc.SetAll(m);
      repr := repr + qbtc.Cells();
      contents := contents.(qbtc := qbtc.contents);
    }

    method SetSynthDepths(m: map<string, int>)
      requires Valid()
      modifies repr
      ensures Valid() && fresh(repr - old(repr))
      ensures contents == old(contents).(synth := old(contents).synth + m)
    {
      synth.SetAll(m);
      repr := repr + synth.Cells();
      contents := contents.(synth := synth.contents);
    }

    /** What `Setup` does with the depths it finds in the last block row. */
    method Restore(depths: DepthMaps)
      requires Valid()
      modifies repr
      ensures Valid() && fresh(repr - old(repr))
      ensures contents == DepthMaps(old(contents).asset + depths.asset, old(contents).qbtc + depths.qbtc,
                                    old(contents).synth + depths.synth)
    {
      SetAssetDepths(depths.asset);
      SetQbtcDepths(depths.qbtc);
      SetSynthDepths(depths.synth);
    }
  }

  // ---------------------------------------------------------------------------------------------
  // Events

  datatype PoolReward = PoolReward(pool: string, amount: int)

  /** The kinds of events that only leave a row. */
  datatype Kind = Instantiate | CosmWasm | Transfer

  /** A decoded event with the id it was given. */
  datatype Event =
    | Rewards(bond: int, perPool: seq<PoolReward>, id: int)
    | RowOnly(kind: Kind, content: string, id: int)

  /** The one column list each table is written with. */
  function ColumnsOf(table: Table): seq<string> {
    match table
    case BlockLog => ["height", "timestamp", "hash", "agg_state"]
    case Blocks => ["height", "finalized_events", "txs"]
    case BlockPoolDepths => ["pool", "asset_e8", "qbtc_e8", "synth_e8", "block_timestamp"]
    case RewardsEvents => ["bond_e8", "validator", "event_id", "block_timestamp"]
    case RewardsEventEntries => ["pool", "qbtc_e8", "event_id", "block_timestamp"]
    case InstantiateEvents =>
      ["tx_id", "admin_address", "code_id", "sender", "label", "msg", "funds", "contract_address", "event_id", "block_timestamp"]
    case WasmContractsEvents =>
      ["tx_id", "contract_address", "contract_type", "sender", "attributes", "msg", "funds", "event_id", "block_timestamp"]
    case TransferEvents => ["from_addr", "to_addr", "asset", "amount_e8", "event_id", "block_timestamp"]
  }

  function KeyFor(table: Table): Key {
    Key(table, ColumnsOf(table))
  }

  function TableOf(kind: Kind): Table {
    match kind
    case Instantiate => InstantiateEvents
    case CosmWasm => WasmContractsEvents
    case Transfer => TransferEvents
  }

  function EntryInserts(perPool: seq<PoolReward>, id: int, time: int): (log: seq<Insertion>)
    ensures |log| == |perPool|
  {
    if perPool == [] then []
    else
      var p := perPool[|perPool| - 1];
      EntryInserts(perPool[..|perPool| - 1], id, time)
      + [Insertion(KeyFor(RewardsEventEntries), EntryRow(p.pool, p.amount, id, time))]
  }

  /** The rows an event leaves in a block of the given time. */
  function EventInserts(e: Event, time: int): seq<Insertion> {
    match e
    case Rewards(bond, perPool, id) => [Insertion(KeyFor(RewardsEvents), RewardsRow(bond, id, time))] + EntryInserts(perPool, id, time)
    case RowOnly(kind, content, id) => [Insertion(KeyFor(TableOf(kind)), OtherRow(content, id, time))]
  }

  function EventsInserts(events: seq<Event>, time: int): seq<Insertion> {
    if events == [] then []
    else EventsInserts(events[..|events| - 1], time) + EventInserts(events[|events| - 1], time)
  }

  function AddRewards(qbtc: map<string, int>, perPool: seq<PoolReward>): map<string, int> {
    if perPool == [] then qbtc
    else
      var before, p := AddRewards(qbtc, perPool[..|perPool| - 1]), perPool[|perPool| - 1];
      before[p.pool := ValueOf(before, p.pool) + p.amount]
  }

  function ApplyEvent(d: DepthMaps, e: Event): DepthMaps {
    match e
    case Rewards(_, perPool, _) => d.(qbtc := AddRewards(d.qbtc, perPool))
    case RowOnly(_, _, _) => d
  }

  function ApplyEvents(d: DepthMaps, events: seq<Event>): DepthMaps {
    if events == [] then d else ApplyEvent(ApplyEvents(d, events[..|events| - 1]), events[|events| - 1])
  }

  lemma OneRewardMore(qbtc: map<string, int>, perPool: seq<PoolReward>, i: nat)
    requires i < |perPool|
    ensures var before := AddRewards(qbtc, perPool[..i]);
            AddRewards(qbtc, perPool[..i + 1]) == before[perPool[i].pool := ValueOf(before, perPool[i].pool) + perPool[i].amount]
  {
    assert perPool[..i + 1][..i] == perPool[..i];
  }

  lemma OneEventMore(d: DepthMaps, events: seq<Event>, i: nat, time: int)
    requires i < |events|
    ensures EventsInserts(events[..i + 1], time) == EventsInserts(events[..i], time) + EventInserts(events[i], time)
    ensures ApplyEvents(d, events[..i + 1]) == ApplyEvent(ApplyEvents(d, events[..i]), events[i])
  {
    assert events[..i + 1][..i] == events[..i];
  }

  lemma InThreeParts(a: seq<Insertion>, b: seq<Insertion>, c: seq<Insertion>)
    ensures a + (b + c) == (a + b) + c
  {
  }

  class EventRecorder {
    const totals: RunningTotals
    const inserter: BatchInserter

    constructor (totals: RunningTotals, inserter: BatchInserter)
      ensures this.totals == totals && this.inserter == inserter
    {
      this.totals, this.inserter := totals, inserter;
    }

    ghost predicate Valid()
      reads totals, totals.repr, inserter
    {
      totals.Valid() && inserter.Valid() && inserter.batches.Some? && inserter !in totals.repr
    }

    method InsertEntries(perPool: seq<PoolReward>, id: int, time: int)
      requires inserter.Valid() && inserter.batches.Some?
      modifies inserter
      ensures inserter.Valid() && inserter.batches.Some?
      ensures inserter.log == old(inserter.log) + EntryInserts(perPool, id, time)
    {
      for i := 0 to |perPool|
        invariant inserter.Valid() && inserter.batches.Some?
        invariant inserter.log == old(inserter.log) + EntryInserts(perPool[..i], id, time)
      {
        inserter.Insert(KeyFor(RewardsEventEntries), EntryRow(perPool[i].pool, perPool[i].amount, id, time));
        assert perPool[..i + 1][..i] == perPool[..i];
      }
      assert perPool[..|perPool|] == perPool;
    }

    /** Inserts one row for the event and one per pool, then adds the amounts to the depths. */
    method OnRewards(e: Event, time: int)
      requires Valid() && e.Rewards?
      modifies totals.repr, inserter
      ensures Valid() && fresh(totals.repr - old(totals.repr))
      ensures inserter.log == old(inserter.log) + EventInserts(e, time)
      ensures totals.contents == ApplyEvent(old(totals.contents), e)
    {
      inserter.Insert(KeyFor(RewardsEvents), RewardsRow(e.bond, e.id, time));
      if e.perPool == [] {
        return;
      }
      InsertEntries(e.perPool, e.id, time);
      totals.AddEach(e.perPool);
    }

    method RecordEvent(e: Event, time: int)
      requires Valid()
      modifies totals.repr, inserter
      ensures Valid() && fresh(totals.repr - old(totals.repr))
      ensures inserter.log == old(inserter.log) + EventInserts(e, time)
      ensures totals.contents == ApplyEvent(old(totals.contents), e)
    {
      match e {
        case Rewards(_, _, _) =>
          OnRewards(e, time);
        case RowOnly(kind, content, id) =>
          inserter.Insert(KeyFor(TableOf(kind)), OtherRow(content, id, time));
      }
    }

    /** `record.ProcessBlock`: the events of a block, in order. */
    method RecordEvents(events: seq<Event>, time: int)
      requires Valid()
      modifies totals.repr, inserter
      ensures Valid() && fresh(totals.repr - old(totals.repr))
      ensures inserter.log == old(inserter.log) + EventsInserts(events, time)
      ensures totals.contents == ApplyEvents(old(totals.contents), events)
    {
      for i := 0 to |events|
        invariant Valid() && fresh(totals.repr - old(totals.repr))
        invariant inserter.log == old(inserter.log) + EventsInserts(events[..i], time)
        invariant totals.contents == ApplyEvents(old(totals.contents), events[..i])
      {
        OneEventMore(old(totals.contents), events, i, time);
        InThreeParts(old(inserter.log), EventsInserts(events[..i], time), EventInserts(events[i], time));
        RecordEvent(events[i], time);
      }
      assert events[..|events|] == events;
    }
  }

  // ---------------------------------------------------------------------------------------------
  // Depths are what the event rows add up to

  /** The sum of a pool's reward entries up to a time. */
  function EntrySum(rows: seq<Row>, pool: string, t: int): int {
    if rows == [] then 0
    else
      var r := rows[|rows| - 1];
      EntrySum(rows[..|rows| - 1], pool, t) + if r.EntryRow? && r.pool == pool && r.time <= t then r.qbtc else 0
  }

  lemma {:induction false} EntrySumConcat(x: seq<Row>, y: seq<Row>, pool: string, t: int)
    ensures EntrySum(x + y, pool, t) == EntrySum(x, pool, t) + EntrySum(y, pool, t)
  {
    if y == [] {
      assert x + y == x;
    } else {
      EntrySumConcat(x, y[..|y| - 1], pool, t);
      assert (x + y)[..|x + y| - 1] == x + y[..|y| - 1];
    }
  }

  lemma {:induction false} RewardsMatchEntries(qbtc: map<string, int>, perPool: seq<PoolReward>, id: int, time: int, pool: string,
                                               t: int)
    ensures EntrySum(RowsOf(EntryInserts(perPool, id, time), RewardsEventEntries), pool, t)
         == if time <= t then ValueOf(AddRewards(qbtc, perPool), pool) - ValueOf(qbtc, pool) else 0
  {
    if perPool != [] {
      var rest, p := perPool[..|perPool| - 1], perPool[|perPool| - 1];
      RewardsMatchEntries(qbtc, rest, id, time, pool, t);
      var row := EntryRow(p.pool, p.amount, id, time);
      EntrySumConcat(RowsOf(EntryInserts(rest, id, time), RewardsEventEntries), [row], pool, t);
      assert [row][..0] == [];
    }
  }

  lemma EventMatchesEntries(d: DepthMaps, e: Event, time: int, pool: string, t: int)
    ensures EntrySum(RowsOf(EventInserts(e, time), RewardsEventEntries), pool, t)
         == if time <= t then ValueOf(ApplyEvent(d, e).qbtc, pool) - ValueOf(d.qbtc, pool) else 0
  {
    match e
    case Rewards(bond, perPool, id) =>
      var first := [Insertion(KeyFor(RewardsEvents), RewardsRow(bond, id, time))];
      RewardsMatchEntries(d.qbtc, perPool, id, time, pool, t);
      RowsOfConcat(first, EntryInserts(perPool, id, time), RewardsEventEntries);
      assert first[..0] == [];
      assert [] + RowsOf(EntryInserts(perPool, id, time), RewardsEventEntries)
        == RowsOf(EntryInserts(perPool, id, time), RewardsEventEntries);
    case RowOnly(kind, content, id) =>
      assert EventInserts(e, time)[..0] == [];
  }

  /** The growth of a pool's qbtc depth is the sum of the entries inserted for it. */
  lemma {:induction false} DepthsMatchEntries(d: DepthMaps, events: seq<Event>, time: int, pool: string, t: int)
    ensures EntrySum(RowsOf(EventsInserts(events, time), RewardsEventEntries), pool, t)
         == if time <= t then ValueOf(ApplyEvents(d, events).qbtc, pool) - ValueOf(d.qbtc, pool) else 0
  {
    if events != [] {
      var rest, e := events[..|events| - 1], events[|events| - 1];
      DepthsMatchEntries(d, rest, time, pool, t);
      EventMatchesEntries(ApplyEvents(d, rest), e, time, pool, t);
      RowsOfConcat(EventsInserts(rest, time), EventInserts(e, time), RewardsEventEntries);
      EntrySumConcat(RowsOf(EventsInserts(rest, time), RewardsEventEntries), RowsOf(EventInserts(e, time), RewardsEventEntries),
                     pool, t);
    }
  }

  lemma {:induction false} EventsMoveQbtcOnly(d: DepthMaps, events: seq<Event>)
    ensures ApplyEvents(d, events).asset == d.asset && ApplyEvents(d, events).synth == d.synth
  {
    if events != [] {
      EventsMoveQbtcOnly(d, events[..|events| - 1]);
    }
  }

  /** Recording events never drops a pool from the maps. */
  lemma {:induction false} PoolsAreKept(d: DepthMaps, events: seq<Event>)
    ensures Pools(d) <= Pools(ApplyEvents(d, events))
  {
    if events != [] {
      PoolsAreKept(d, events[..|events| - 1]);
      match events[|events| - 1]
      case Rewards(_, perPool, _) => RewardsKeepPools(ApplyEvents(d, events[..|events| - 1]).qbtc, perPool);
      case RowOnly(_, _, _) =>
    }
  }

  lemma {:induction false} RewardsKeepPools(qbtc: map<string, int>, perPool: seq<PoolReward>)
    ensures qbtc.Keys <= AddRewards(qbtc, perPool).Keys
  {
    if perPool != [] {
      RewardsKeepPools(qbtc, perPool[..|perPool| - 1]);
    }
  }
}
