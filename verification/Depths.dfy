/**
  internal/timeseries/depthrecorder.go: the sparse table of pool depths. A row is written only for a pool whose
  depths changed since the last snapshot; readers take the latest row at or before a time.
 */
module Depths {
  import opened Tables
  import opened Options

  // ---------------------------------------------------------------------------------------------
  // Snapshots and differences

  function ValueOf(m: map<string, int>, pool: string): int {
    if pool in m then m[pool] else 0
  }

  function DepthOf(d: DepthMaps, pool: string): Depth {
    Depth(ValueOf(d.asset, pool), ValueOf(d.qbtc, pool), ValueOf(d.synth, pool))
  }

  function Pools(d: DepthMaps): set<string> {
    d.asset.Keys + d.qbtc.Keys + d.synth.Keys
  }

  predicate Differs(old': map<string, int>, now: map<string, int>, pool: string) {
    if pool in now then pool !in old' || old'[pool] != now[pool] else pool in old'
  }

  predicate Changed(before: DepthMaps, now: DepthMaps, pool: string) {
    Differs(before.asset, now.asset, pool) || Differs(before.qbtc, now.qbtc, pool) || Differs(before.synth, now.synth, pool)
  }

  class MapDiff {
    var snapshot: map<string, int>

    constructor ()
      ensures snapshot == map[]
    {
      snapshot := map[];
    }

    method Save(newMap: map<string, int>)
      modifies this
      ensures snapshot == newMap
    {
      snapshot := map[];
      var keys := newMap.Keys;
      while keys != {}
        invariant keys <= newMap.Keys
        invariant snapshot == map k | k in newMap && k !in keys :: newMap[k]
        decreases |keys|
      {
        var k :| k in keys;
        snapshot := snapshot[k := newMap[k]];
        keys := keys - {k};
      }
    }

    method DiffAtKey(pool: string, newMap: map<string, int>) returns (hasDiff: bool, newValue: int)
      ensures hasDiff <==> Differs(snapshot, newMap, pool)
      ensures newValue == ValueOf(newMap, pool)
    {
      var hasOld, hasNew := pool in snapshot, pool in newMap;
      var oldV, newV := if hasOld then snapshot[pool] else 0, if hasNew then newMap[pool] else 0;
      if hasNew {
        return !hasOld || oldV != newV, newV;
      } else {
        return hasOld, 0;
      }
    }
  }

  /** One row per pool among `pools` whose depths changed, in any order. */
  ghost predicate IsChangeSetOf(before: DepthMaps, now: DepthMaps, time: int, pools: set<string>, rows: seq<Row>) {
    && (forall r | r in rows ::
          && r == DepthRow(PoolOf(r), DepthOf(now, PoolOf(r)), time)
          && Changed(before, now, PoolOf(r)) && PoolOf(r) in pools)
    && (forall pool {:trigger HasPool(rows, pool)} | pool in pools && Changed(before, now, pool) :: HasPool(rows, pool))
    && (forall i, j | 0 <= i < j < |rows| :: PoolOf(rows[i]) != PoolOf(rows[j]))
  }

  ghost predicate HasPool(rows: seq<Row>, pool: string) {
    exists r | r in rows :: PoolOf(r) == pool
  }

  /** One row per pool whose depths changed, in any order. */
  ghost predicate IsChangeSet(before: DepthMaps, now: DepthMaps, time: int, rows: seq<Row>) {
    IsChangeSetOf(before, now, time, Pools(now) + Pools(before), rows)
  }

  /** The rows of some of those pools. */
  ghost predicate IsPartialChangeSet(before: DepthMaps, now: DepthMaps, time: int, rows: seq<Row>) {
    exists pools | pools <= Pools(now) + Pools(before) :: IsChangeSetOf(before, now, time, pools, rows)
  }

  lemma NextPool(before: DepthMaps, now: DepthMaps, time: int, pools: set<string>, rows: seq<Row>, pool: string, change: seq<Row>)
    requires IsChangeSetOf(before, now, time, pools, rows) && pool !in pools
    requires change == if Changed(before, now, pool) then [DepthRow(pool, DepthOf(now, pool), time)] else []
    ensures IsChangeSetOf(before, now, time, pools + {pool}, rows + change)
  {
    forall p | p in pools + {pool} && Changed(before, now, p)
      ensures HasPool(rows + change, p)
    {
      if p == pool {
        assert change[0] in rows + change;
      } else {
        assert HasPool(rows, p);
        var r :| r in rows && PoolOf(r) == p;
        assert r in rows + change;
      }
    }
  }

  function PoolOf(r: Row): string {
    if r.DepthRow? then r.pool else ""
  }

  lemma AllPools(now: DepthMaps, before: DepthMaps)
    ensures now.asset.Keys + now.qbtc.Keys + now.synth.Keys + before.asset.Keys + before.qbtc.Keys + before.synth.Keys
         == Pools(now) + Pools(before)
  {
  }

  lemma MoveOne(all: set<string>, done: set<string>, rest: set<string>, pool: string)
    requires done !! rest && done + rest == all && pool in rest
    ensures (done + {pool}) !! (rest - {pool}) && (done + {pool}) + (rest - {pool}) == all
  {
  }

  lemma AllMoved(all: set<string>, done: set<string>, rest: set<string>)
    requires done + rest == all && rest == {}
    ensures done == all
  {
  }

  class DepthManager {
    const assetSnapshot: MapDiff
    const qbtcSnapshot: MapDiff
    const synthSnapshot: MapDiff

    ghost var snapshot: DepthMaps

    ghost predicate Valid()
      reads this, Repr()
    {
      && assetSnapshot != qbtcSnapshot && qbtcSnapshot != synthSnapshot && assetSnapshot != synthSnapshot
      && snapshot == DepthMaps(assetSnapshot.snapshot, qbtcSnapshot.snapshot, synthSnapshot.snapshot)
    }

    ghost function Repr(): set<object> { {this, assetSnapshot, qbtcSnapshot, synthSnapshot} }

    constructor ()
      ensures Valid() && fresh(Repr()) && snapshot == NO_DEPTHS
    {
      assetSnapshot := new MapDiff();
      qbtcSnapshot := new MapDiff();
      synthSnapshot := new MapDiff();
      snapshot := NO_DEPTHS;
    }

    /** The row inserted for one pool, if any. */
    method PoolChange(time: int, now: DepthMaps, pool: string) returns (rows: seq<Row>)
      requires Valid()
      ensures rows == if Changed(snapshot, now, pool) then [DepthRow(pool, DepthOf(now, pool), time)] else []
    {
      var assetDiff, assetValue := assetSnapshot.DiffAtKey(pool, now.asset);
      var qbtcDiff, qbtcValue := qbtcSnapshot.DiffAtKey(pool, now.qbtc);
      var synthDiff, synthValue := synthSnapshot.DiffAtKey(pool, now.synth);
      rows := if assetDiff || qbtcDiff || synthDiff then [DepthRow(pool, Depth(assetValue, qbtcValue, synthValue), time)] else [];
    }

    /** The pools that have a depth, or had one at the last snapshot. */
    method PoolNames(now: DepthMaps) returns (names: set<string>)
      requires Valid()
      ensures names == Pools(now) + Pools(snapshot)
    {
      AllPools(now, snapshot);
      names := now.asset.Keys + now.qbtc.Keys + now.synth.Keys
        + assetSnapshot.snapshot.Keys + qbtcSnapshot.snapshot.Keys + synthSnapshot.snapshot.Keys;
    }

    /**
      The rows inserted for a block, in the order the pool names happen to be visited, until the inserter refuses one;
      `done` are the pools visited by then.
     */
    method InsertChanges(time: int, now: DepthMaps, accepts: Row -> bool)
        returns (rows: seq<Row>, ghost done: set<string>, ghost refused: Option<string>)
      requires Valid()
      ensures done <= Pools(now) + Pools(snapshot) && IsChangeSetOf(snapshot, now, time, done, rows)
      ensures forall r | r in rows :: accepts(r)
      ensures refused.None? ==> IsChangeSet(snapshot, now, time, rows)
      ensures refused.Some? ==> Changed(snapshot, now, refused.value)
                                && !accepts(DepthRow(refused.value, DepthOf(now, refused.value), time))
    {
      ghost var before := snapshot;
      var poolNames := PoolNames(now);
      rows, refused := [], None;
      var rest := poolNames;
      done := {};
      while rest != {}
        invariant done !! rest && done + rest == poolNames
        invariant IsChangeSetOf(before, now, time, done, rows)
        invariant forall r | r in rows :: accepts(r)
        decreases |rest|
      {
        var pool :| pool in rest;
        var change := PoolChange(time, now, pool);
        if change != [] && !accepts(change[0]) {
          refused := Some(pool);
          return;
        }
        NextPool(before, now, time, done, rows, pool, change);
        rows := rows + change;
        MoveOne(poolNames, done, rest, pool);
        done, rest := done + {pool}, rest - {pool};
      }
      AllMoved(poolNames, done, rest);
    }

    /**
      Whatever rows were refused, the new depths become the snapshot, and the error reported is that of the price row
      alone: the one before it is overwritten.
     */
    method Update(time: int, now: DepthMaps, accepts: Row -> bool, priceAccepted: bool) returns (rows: seq<Row>, ok: bool)
      requires Valid()
      modifies Repr()
      ensures Valid() && snapshot == now && (ok <==> priceAccepted)
      ensures IsPartialChangeSet(old(snapshot), now, time, rows) && forall r | r in rows :: accepts(r)
      ensures IsChangeSet(old(snapshot), now, time, rows) <==> AllAccepted(old(snapshot), now, time, accepts)
    {
      ghost var done, refused;
      rows, done, refused := InsertChanges(time, now, accepts);
      CompleteIff(snapshot, now, time, done, rows, accepts, refused);
      assetSnapshot.Save(now.asset);
      qbtcSnapshot.Save(now.qbtc);
      synthSnapshot.Save(now.synth);
      snapshot := now;
      ok := priceAccepted;
    }
  }

  /** The inserter takes the rows of all pools whose depths changed. */
  ghost predicate AllAccepted(before: DepthMaps, now: DepthMaps, time: int, accepts: Row -> bool) {
    forall pool | Changed(before, now, pool) :: accepts(DepthRow(pool, DepthOf(now, pool), time))
  }

  lemma AcceptedHasRowIff(before: DepthMaps, now: DepthMaps, time: int, pools: set<string>, rows: seq<Row>, accepts: Row -> bool,
                          pool: string)
    requires IsChangeSetOf(before, now, time, pools, rows) && forall r | r in rows :: accepts(r)
    requires Changed(before, now, pool)
    ensures HasPool(rows, pool) ==> accepts(DepthRow(pool, DepthOf(now, pool), time))
    ensures pool in Pools(now) + Pools(before)
  {
    if HasPool(rows, pool) {
      var r :| r in rows && PoolOf(r) == pool;
    }
  }

  lemma CompleteIff(before: DepthMaps, now: DepthMaps, time: int, pools: set<string>, rows: seq<Row>, accepts: Row -> bool,
                    refused: Option<string>)
    requires IsChangeSetOf(before, now, time, pools, rows) && forall r | r in rows :: accepts(r)
    requires refused.None? ==> IsChangeSet(before, now, time, rows)
    requires refused.Some? ==> Changed(before, now, refused.value)
                               && !accepts(DepthRow(refused.value, DepthOf(now, refused.value), time))
    ensures IsChangeSet(before, now, time, rows) <==> AllAccepted(before, now, time, accepts)
  {
    if refused.Some? {
      AcceptedHasRowIff(before, now, time, pools, rows, accepts, refused.value);
    } else {
      forall pool | Changed(before, now, pool)
        ensures accepts(DepthRow(pool, DepthOf(now, pool), time))
      {
        AcceptedHasRowIff(before, now, time, pools, rows, accepts, pool);
        assert HasPool(rows, pool);
      }
    }
  }

  // ---------------------------------------------------------------------------------------------
  // Reading the table

  /** The depths a reader finds for a pool at a time: those of the latest row at or before it. */
  function LatestRow(rows: seq<Row>, pool: string, t: int): (r: Option<Row>)
    ensures r.Some? ==> r.value.DepthRow? && r.value.pool == pool && r.value.time <= t && r.value in rows
    ensures forall x | x in rows && x.DepthRow? && x.pool == pool && x.time <= t :: r.Some? && x.time <= r.value.time
  {
    if rows == [] then None
    else
      var best, x := LatestRow(rows[..|rows| - 1], pool, t), rows[|rows| - 1];
      if x.DepthRow? && x.pool == pool && x.time <= t && (best.None? || best.value.time <= x.time) then Some(x) else best
  }

  function DepthAt(rows: seq<Row>, pool: string, t: int): Depth {
    match LatestRow(rows, pool, t)
    case None => Depth(0, 0, 0)
    case Some(r) => r.depth
  }

  /** The depths after each block, at strictly increasing times. */
  datatype Snapshot = Snapshot(time: int, depths: DepthMaps)

  ghost predicate Increasing(history: seq<Snapshot>) {
    forall i, j | 0 <= i < j < |history| :: history[i].time < history[j].time
  }

  /** The depths after the last block at or before a time. */
  function TrueDepths(history: seq<Snapshot>, t: int): DepthMaps {
    if history == [] then NO_DEPTHS
    else if history[|history| - 1].time <= t then history[|history| - 1].depths
    else TrueDepths(history[..|history| - 1], t)
  }

  function LastDepths(history: seq<Snapshot>): DepthMaps {
    if history == [] then NO_DEPTHS else history[|history| - 1].depths
  }

  ghost predicate After(rows: seq<Row>, history: seq<Snapshot>, time: int) {
    && (forall r | r in rows && r.DepthRow? :: r.time < time)
    && (forall s | s in history :: s.time < time)
  }

  /** Every pool's depths at every time can be read back from the sparse rows. */
  ghost predicate Lossless(rows: seq<Row>, history: seq<Snapshot>) {
    forall pool, t :: DepthAt(rows, pool, t) == DepthOf(TrueDepths(history, t), pool)
  }

  lemma {:induction false} LatestRowConcat(rows: seq<Row>, more: seq<Row>, time: int, pool: string, t: int)
    requires forall r | r in rows && r.DepthRow? :: r.time < time
    requires forall r | r in more :: r.DepthRow? && r.time == time
    ensures t < time ==> LatestRow(rows + more, pool, t) == LatestRow(rows, pool, t)
    ensures (forall r | r in more :: r.pool != pool) ==> LatestRow(rows + more, pool, t) == LatestRow(rows, pool, t)
    ensures time <= t && (exists r | r in more :: r.pool == pool) ==>
              LatestRow(rows + more, pool, t).Some? && LatestRow(rows + more, pool, t).value in more
  {
    if more == [] {
      assert rows + more == rows;
    } else {
      var rest, x := more[..|more| - 1], more[|more| - 1];
      LatestRowConcat(rows, rest, time, pool, t);
      assert (rows + more)[..|rows + more| - 1] == rows + rest;
      assert x in more;
      if time <= t && exists r | r in more :: r.pool == pool {
        if x.pool != pool {
          var r :| r in more && r.pool == pool;
          assert r in rest;
        }
      }
    }
  }

  lemma TrueDepthsExtend(history: seq<Snapshot>, time: int, now: DepthMaps, t: int)
    ensures TrueDepths(history + [Snapshot(time, now)], t) == if time <= t then now else TrueDepths(history, t)
  {
    assert (history + [Snapshot(time, now)])[..|history|] == history;
  }

  lemma TrueDepthsAtEnd(history: seq<Snapshot>, t: int)
    requires forall s | s in history :: s.time <= t
    ensures TrueDepths(history, t) == LastDepths(history)
  {
    if history != [] {
      assert history[|history| - 1] in history;
    }
  }

  /** A snapshot that is the depths of the last block, or the empty one of a restarted process. */
  ghost predicate GoodSnapshot(snapshot: DepthMaps, history: seq<Snapshot>) {
    snapshot == LastDepths(history) || snapshot == NO_DEPTHS
  }

  /** No pool with depths vanishes from the maps. */
  ghost predicate KeepsPools(history: seq<Snapshot>, now: DepthMaps) {
    forall pool | pool !in Pools(now) :: DepthOf(LastDepths(history), pool) == Depth(0, 0, 0)
  }

  /** Rows of one time show the new depths of the pools they have. */
  lemma DepthsAfterRows(rows: seq<Row>, history: seq<Snapshot>, now: DepthMaps, time: int, more: seq<Row>, pool: string, t: int)
    requires Lossless(rows, history) && After(rows, history, time)
    requires forall r | r in more :: r == DepthRow(PoolOf(r), DepthOf(now, PoolOf(r)), time)
    ensures DepthAt(rows + more, pool, t)
         == if t < time then DepthOf(TrueDepths(history, t), pool)
            else if HasPool(more, pool) then DepthOf(now, pool) else DepthOf(LastDepths(history), pool)
  {
    LatestRowConcat(rows, more, time, pool, t);
    if time <= t {
      TrueDepthsAtEnd(history, t);
    }
    if HasPool(more, pool) {
      var r :| r in more && PoolOf(r) == pool;
      assert r.pool == pool;
    } else {
      assert forall r | r in more :: PoolOf(r) == r.pool;
    }
  }

  lemma AppendedDepths(rows: seq<Row>, history: seq<Snapshot>, snapshot: DepthMaps, now: DepthMaps, time: int, more: seq<Row>,
                       pool: string, t: int)
    requires Lossless(rows, history) && After(rows, history, time) && IsChangeSet(snapshot, now, time, more)
    ensures t < time ==> DepthAt(rows + more, pool, t) == DepthOf(TrueDepths(history, t), pool)
    ensures time <= t ==>
              DepthAt(rows + more, pool, t)
              == (if Changed(snapshot, now, pool) then DepthOf(now, pool) else DepthOf(LastDepths(history), pool))
  {
    DepthsAfterRows(rows, history, now, time, more, pool, t);
    assert HasPool(more, pool) <==> Changed(snapshot, now, pool);
  }

  /**
    Writing one block's changes keeps the table lossless; after a restart, when the snapshot is empty, exactly if no pool
    with depths has vanished from the maps.
   */
  lemma UpdateIsLosslessIff(rows: seq<Row>, history: seq<Snapshot>, snapshot: DepthMaps, now: DepthMaps, time: int, more: seq<Row>)
    requires Lossless(rows, history) && After(rows, history, time) && GoodSnapshot(snapshot, history)
    requires IsChangeSet(snapshot, now, time, more)
    ensures Lossless(rows + more, history + [Snapshot(time, now)])
       <==> snapshot == LastDepths(history) || KeepsPools(history, now)
    ensures forall later | time < later :: After(rows + more, history + [Snapshot(time, now)], later)
  {
    var history' := history + [Snapshot(time, now)];
    if snapshot == LastDepths(history) || KeepsPools(history, now) {
      forall pool, t
        ensures DepthAt(rows + more, pool, t) == DepthOf(TrueDepths(history', t), pool)
      {
        AppendedDepths(rows, history, snapshot, now, time, more, pool, t);
        TrueDepthsExtend(history, time, now, t);
      }
    } else {
      var pool :| pool !in Pools(now) && DepthOf(LastDepths(history), pool) != Depth(0, 0, 0);
      AppendedDepths(rows, history, snapshot, now, time, more, pool, time);
      TrueDepthsExtend(history, time, now, time);
      assert DepthAt(rows + more, pool, time) != DepthOf(TrueDepths(history', time), pool);
    }
  }

  /**
    Where rows were refused the table stays lossless exactly if every pool with other depths than before has a row. The
    snapshot is the new one all the same, so that a missing row is not written later either, until the depths change again.
   */
  lemma RefusalLosesDepthsIff(rows: seq<Row>, history: seq<Snapshot>, now: DepthMaps, time: int, more: seq<Row>)
    requires Lossless(rows, history) && After(rows, history, time)
    requires IsPartialChangeSet(LastDepths(history), now, time, more)
    ensures Lossless(rows + more, history + [Snapshot(time, now)])
       <==> forall pool | DepthOf(now, pool) != DepthOf(LastDepths(history), pool) :: HasPool(more, pool)
  {
    var history' := history + [Snapshot(time, now)];
    forall pool, t
      ensures DepthAt(rows + more, pool, t) == DepthOf(TrueDepths(history', t), pool)
         <==> (time <= t && DepthOf(now, pool) != DepthOf(LastDepths(history), pool) ==> HasPool(more, pool))
    {
      DepthsAfterRows(rows, history, now, time, more, pool, t);
      TrueDepthsExtend(history, time, now, t);
    }
    if pool :| DepthOf(now, pool) != DepthOf(LastDepths(history), pool) && !HasPool(more, pool) {
      assert DepthAt(rows + more, pool, time) != DepthOf(TrueDepths(history', time), pool);
    }
  }
}
