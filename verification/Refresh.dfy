/**
  The aggregates refresh job of internal/db/aggregates.go: requests coalesced by a channel of capacity one, refreshes
  capped at twenty days, materialized views and balances moved forward by watermarks - and the writer, which commits
  blocks in the meantime.
 */
module Refresh {
  import opened Options
  import Balances

  const MAX_STEP: int := 20 * 24 * 60 * 60 * 1_000_000_000

  // ---------------------------------------------------------------------------------------------
  // A watermarked materialized view

  /** A row of a view. What a view shows for one time depends on the base rows of that time only. */
  datatype ViewRow = ViewRow(time: int, content: string)

  datatype View = View(rows: seq<ViewRow>, materialized: seq<ViewRow>, watermark: int)

  /** WHERE low <= block_timestamp AND block_timestamp < high */
  function Between(rows: seq<ViewRow>, low: int, high: int): seq<ViewRow> {
    if rows == [] then []
    else
      var rest, r := Between(rows[..|rows| - 1], low, high), rows[|rows| - 1];
      if low <= r.time < high then rest + [r] else rest
  }

  /** WHERE low <= block_timestamp */
  function From(rows: seq<ViewRow>, low: int): seq<ViewRow> {
    if rows == [] then []
    else
      var rest, r := From(rows[..|rows| - 1], low), rows[|rows| - 1];
      if low <= r.time then rest + [r] else rest
  }

  /** WHERE block_timestamp < high */
  function Until(rows: seq<ViewRow>, high: int): seq<ViewRow> {
    if rows == [] then []
    else
      var rest, r := Until(rows[..|rows| - 1], high), rows[|rows| - 1];
      if r.time < high then rest + [r] else rest
  }

  /** `refresh_watermarked_view` */
  function RefreshView(v: View, w: int): View {
    if w <= v.watermark then v
    else v.(materialized := v.materialized + Between(v.rows, v.watermark, w), watermark := w)
  }

  /** The `_combined` view. */
  function Combined(v: View): seq<ViewRow> {
    Until(v.materialized, v.watermark) + From(v.rows, v.watermark)
  }

  ghost predicate ViewInv(v: View) {
    multiset(v.materialized) == multiset(Until(v.rows, v.watermark))
  }

  lemma {:induction false} Split(rows: seq<ViewRow>, w: int)
    ensures multiset(Until(rows, w)) + multiset(From(rows, w)) == multiset(rows)
  {
    if rows != [] {
      Split(rows[..|rows| - 1], w);
      assert rows == rows[..|rows| - 1] + [rows[|rows| - 1]];
    }
  }

  lemma {:induction false} SplitAgain(rows: seq<ViewRow>, w: int, w': int)
    requires w <= w'
    ensures multiset(Until(rows, w)) + multiset(Between(rows, w, w')) == multiset(Until(rows, w'))
  {
    if rows != [] {
      SplitAgain(rows[..|rows| - 1], w, w');
    }
  }

  lemma {:induction false} UntilKeepsAll(rows: seq<ViewRow>, w: int)
    requires forall r | r in rows :: r.time < w
    ensures Until(rows, w) == rows
  {
    if rows != [] {
      assert rows[|rows| - 1] in rows;
      UntilKeepsAll(rows[..|rows| - 1], w);
      assert rows == rows[..|rows| - 1] + [rows[|rows| - 1]];
    }
  }

  lemma {:induction false} UntilMembers(rows: seq<ViewRow>, w: int)
    ensures forall r | r in Until(rows, w) :: r in rows && r.time < w
  {
    if rows != [] {
      UntilMembers(rows[..|rows| - 1], w);
    }
  }

  lemma {:induction false} UntilConcat(rows: seq<ViewRow>, more: seq<ViewRow>, w: int)
    requires forall r | r in more :: w <= r.time
    ensures Until(rows + more, w) == Until(rows, w)
  {
    if more == [] {
      assert rows + more == rows;
    } else {
      assert more[|more| - 1] in more;
      UntilConcat(rows, more[..|more| - 1], w);
      assert (rows + more)[..|rows + more| - 1] == rows + more[..|more| - 1];
    }
  }

  /** The combined view shows exactly the rows of its defining query, wherever the watermark is. */
  lemma CombinedIsTheQuery(v: View)
    requires ViewInv(v)
    ensures multiset(Combined(v)) == multiset(v.rows)
  {
    Split(v.rows, v.watermark);
    UntilMembers(v.rows, v.watermark);
    forall r | r in v.materialized
      ensures r.time < v.watermark
    {
      assert r in multiset(v.materialized);
    }
    UntilKeepsAll(v.materialized, v.watermark);
  }

  lemma RefreshKeepsView(v: View, w: int)
    requires ViewInv(v)
    ensures ViewInv(RefreshView(v, w))
  {
    if v.watermark < w {
      SplitAgain(v.rows, v.watermark, w);
    }
  }

  // ---------------------------------------------------------------------------------------------
  // The writer and the refresher

  /** Where the refresher is: waiting, woken up, or in the middle of a pass, with the statements that have succeeded in it. */
  datatype Phase = Idle | Woken | Refreshing(end: int, next: int, view: bool, balances: bool)

  datatype System = System(
    flushed: int,               // time of the newest block in the database
    committed: int,             // LastCommittedBlock
    aggregated: int,            // LastAggregatedBlock
    firstBlock: int,            // FirstBlock
    view: View,
    balances: Balances.State,
    token: bool,                // the refresh request in the channel
    phase: Phase,
    requested: int,             // the newest commit when a refresh was last requested
    read: int,                  // the newest commit a refresh has read
    done: int)                  // up to where a pass whose statements all succeeded has refreshed

  const INIT := System(0, 0, 0, 0, View([], [], 0), Balances.EMPTY, false, Idle, 0, 0, 0)

  datatype Step =
    | Flush(time: int, rows: seq<ViewRow>, transfers: seq<Balances.Transfer>)
    | Publish
    | SetFirstBlock(time: int)
    | Request
    | Receive
    | Tick
    | Begin
    | MoveView
    | MoveBalances
    | Fail
    | Finish
    | Restart

  function RecordAll(s: Balances.State, ts: seq<Balances.Transfer>): Balances.State {
    if ts == [] then s else Balances.Record(RecordAll(s, ts[..|ts| - 1]), ts[|ts| - 1])
  }

  /** Where a pass starts from: never before the first block. */
  function PassStart(firstBlock: int, aggregated: int): int {
    if aggregated < firstBlock then firstBlock else aggregated
  }

  predicate Capped(start: int, committed: int) {
    committed + 1 > start + MAX_STEP
  }

  function RefreshEnd(start: int, committed: int): int {
    if Capped(start, committed) then start + MAX_STEP else committed + 1
  }

  function NextAggregated(start: int, committed: int): int {
    if Capped(start, committed) then start + MAX_STEP else committed
  }

  predicate Enabled(s: System, step: Step) {
    match step
    case Flush(time, rows, transfers) =>
      && s.flushed == s.committed < time
      && (forall r | r in rows :: s.flushed < r.time <= time)
      && (forall t | t in transfers :: s.flushed < t.ts <= time)
    case Publish => s.committed < s.flushed
    case SetFirstBlock(time) => time > 0
    case Request => true
    case Receive => s.token && s.phase == Idle
    case Tick => s.phase == Idle
    case Begin => s.phase == Woken
    case MoveView => s.phase.Refreshing?
    case MoveBalances => s.phase.Refreshing?
    case Fail => s.phase.Refreshing?
    case Finish => s.phase.Refreshing?
    case Restart => s.committed == s.flushed
  }

  function Apply(s: System, step: Step): System {
    match step
    case Flush(time, rows, transfers) =>
      s.(flushed := time, view := s.view.(rows := s.view.rows + rows), balances := RecordAll(s.balances, transfers))
    case Publish => s.(committed := s.flushed)
    case SetFirstBlock(time) => s.(firstBlock := time)
    // A full channel already holds a request: this one is skipped.
    case Request => s.(token := true, requested := s.committed)
    case Receive => s.(token := false, phase := Woken)
    case Tick => s.(phase := Woken)
    case Begin =>
      var start := PassStart(s.firstBlock, s.aggregated);
      s.(aggregated := start, phase := Refreshing(RefreshEnd(start, s.committed), NextAggregated(start, s.committed), false, false),
         read := s.committed)
    case MoveView =>
      if s.phase.Refreshing? then s.(view := RefreshView(s.view, s.phase.end), phase := s.phase.(view := true)) else s
    case MoveBalances =>
      if s.phase.Refreshing? then
        s.(balances := Balances.Update(s.balances, s.phase.end), phase := s.phase.(balances := true))
      else s
    case Fail => s
    case Finish =>
      if s.phase.Refreshing? then
        s.(aggregated := s.phase.next, phase := Idle, done := if s.phase.view && s.phase.balances then s.phase.end else s.done)
      else s
    case Restart => s.(aggregated := 0, token := false, phase := Idle, requested := 0, read := 0)
  }

  function Run(steps: seq<Step>): System {
    if steps == [] then INIT else Apply(Run(steps[..|steps| - 1]), steps[|steps| - 1])
  }

  predicate Possible(steps: seq<Step>) {
    steps != [] ==> Possible(steps[..|steps| - 1]) && Enabled(Run(steps[..|steps| - 1]), steps[|steps| - 1])
  }

  /** A request whose commits nobody has read yet is still in the channel, or has just been taken out of it. */
  predicate NoRequestIsLost(s: System) {
    s.token || s.phase == Woken || s.requested <= s.read
  }

  /** Statements that have succeeded have moved their watermarks. */
  ghost predicate WhatIsDone(s: System) {
    && s.done <= s.view.watermark && s.done <= s.balances.watermark
    && (s.phase.Refreshing? && s.phase.view ==> s.phase.end <= s.view.watermark)
    && (s.phase.Refreshing? && s.phase.balances ==> s.phase.end <= s.balances.watermark)
  }

  ghost predicate Inv(s: System) {
    && 0 <= s.committed <= s.flushed && s.requested <= s.committed && s.read <= s.committed
    && s.view.watermark <= s.committed + 1 && s.balances.watermark <= s.committed + 1
    && (s.phase.Refreshing? ==> s.phase.end <= s.committed + 1)
    && ViewInv(s.view) && Balances.Inv(s.balances)
    && NoRequestIsLost(s)
    && WhatIsDone(s)
  }

  lemma {:induction false} RecordAllKeepsInv(s: Balances.State, ts: seq<Balances.Transfer>)
    requires Balances.Inv(s) && forall t | t in ts :: s.watermark <= t.ts && 0 < t.ts
    ensures Balances.Inv(RecordAll(s, ts)) && RecordAll(s, ts).watermark == s.watermark
  {
    if ts != [] {
      assert ts[|ts| - 1] in ts;
      RecordAllKeepsInv(s, ts[..|ts| - 1]);
      Balances.RecordKeepsInv(RecordAll(s, ts[..|ts| - 1]), ts[|ts| - 1]);
    }
  }

  lemma StepKeepsInv(s: System, step: Step)
    requires Inv(s) && Enabled(s, step)
    ensures Inv(Apply(s, step))
  {
    match step
    case Flush(time, rows, transfers) =>
      UntilConcat(s.view.rows, rows, s.view.watermark);
      RecordAllKeepsInv(s.balances, transfers);
    case MoveView =>
      RefreshKeepsView(s.view, s.phase.end);
    case MoveBalances =>
      Balances.UpdateKeepsInv(s.balances, s.phase.end);
    case _ =>
  }

  /**
    Over every interleaving of commits, requests and refresh passes - with failed statements, restarts and refreshes into
    the past - the combined view equals its query, the balances are exact, and no request is lost.
   */
  lemma {:induction false} RunsKeepInv(steps: seq<Step>)
    requires Possible(steps)
    ensures Inv(Run(steps))
    ensures multiset(Combined(Run(steps).view)) == multiset(Run(steps).view.rows)
  {
    if steps == [] {
      Balances.RunsStayExact([]);
    } else {
      RunsKeepInv(steps[..|steps| - 1]);
      StepKeepsInv(Run(steps[..|steps| - 1]), steps[|steps| - 1]);
    }
    CombinedIsTheQuery(Run(steps).view);
  }

  /** With an empty channel and an idle refresher, everything that was requested has been read. */
  lemma QuietMeansRead(steps: seq<Step>)
    requires Possible(steps) && !Run(steps).token && Run(steps).phase == Idle
    ensures Run(steps).requested <= Run(steps).read <= Run(steps).committed
  {
    RunsKeepInv(steps);
  }

  /**
    Where the last pass that read the commits refreshed up to just after them - it was not capped and no statement in it
    failed - what was requested has arrived in the view and in the balances.
   */
  lemma QuietMeansRefreshed(steps: seq<Step>)
    requires Possible(steps) && !Run(steps).token && Run(steps).phase == Idle
    requires Run(steps).done == Run(steps).read + 1
    ensures var s := Run(steps);
            && s.requested <= s.read < s.view.watermark && s.read < s.balances.watermark
            && (forall r | r in From(s.view.rows, s.view.watermark) :: s.requested < r.time)
  {
    RunsKeepInv(steps);
    FromMembers(Run(steps).view.rows, Run(steps).view.watermark);
  }

  /** An uncapped pass whose statements succeed ends in such a state. */
  lemma CleanPassIsDone(s: System)
    requires s.phase.Refreshing? && s.phase.view && s.phase.balances && s.phase.end == s.read + 1
    ensures var t := Apply(s, Finish); t.phase == Idle && t.done == t.read + 1
  {
  }

  lemma {:induction false} FromMembers(rows: seq<ViewRow>, w: int)
    ensures forall r | r in From(rows, w) :: w <= r.time
  {
    if rows != [] {
      FromMembers(rows[..|rows| - 1], w);
    }
  }

  /**
    A pass starts at the first block or, if that is later, where the one before it stopped. It refreshes up to just after
    the last commit or for twenty days, whichever is less, and has then aggregated up to the last commit or that far.
   */
  lemma PassBounds(firstBlock: int, aggregated: int, committed: int)
    ensures var start := PassStart(firstBlock, aggregated);
            var end := RefreshEnd(start, committed);
            && firstBlock <= start && aggregated <= start && (start == firstBlock || start == aggregated)
            && end <= committed + 1 && end <= start + 1_728_000_000_000_000
            && (end == committed + 1 || end == start + 1_728_000_000_000_000)
            && (Capped(start, committed) <==> end < committed + 1)
            && NextAggregated(start, committed) == if end == committed + 1 then committed else end
  {
  }

  /** The refresher begins no pass before the first block. */
  lemma BeginsAfterFirstBlock(s: System)
    requires Enabled(s, Begin)
    ensures var t := Apply(s, Begin);
            && t.aggregated == (if s.firstBlock < s.aggregated then s.aggregated else s.firstBlock)
            && t.phase.Refreshing?
            && t.phase.end == (if s.committed + 1 <= t.aggregated + 1_728_000_000_000_000 then s.committed + 1
                               else t.aggregated + 1_728_000_000_000_000)
            && t.phase.next == (if t.phase.end == s.committed + 1 then s.committed else t.phase.end)
            && !t.phase.view && !t.phase.balances && t.read == s.committed
  {
  }

  // ---------------------------------------------------------------------------------------------
  // Catching up

  /** Where `n` passes lead while nothing is committed. */
  function After(n: nat, firstBlock: int, aggregated: int, committed: int): int {
    if n == 0 then aggregated
    else NextAggregated(PassStart(firstBlock, After(n - 1, firstBlock, aggregated, committed)), committed)
  }

  /** The start of the `n`-th pass, counted from 1. */
  function StartOfPass(n: nat, firstBlock: int, aggregated: int, committed: int): int
    requires n > 0
  {
    PassStart(firstBlock, After(n - 1, firstBlock, aggregated, committed))
  }

  /** The number of twenty-day steps, rounded up, from a time to just after the last commit. */
  function StepsBetween(start: int, committed: int): int {
    (committed + 1 - start + MAX_STEP - 1) / MAX_STEP
  }

  lemma {:induction false} CappedPasses(n: nat, firstBlock: int, aggregated: int, committed: int)
    requires 0 < n <= StepsBetween(PassStart(firstBlock, aggregated), committed)
    ensures var first := PassStart(firstBlock, aggregated);
            && StartOfPass(n, firstBlock, aggregated, committed) == first + (n - 1) * MAX_STEP
            && (n < StepsBetween(first, committed) <==> Capped(first + (n - 1) * MAX_STEP, committed))
  {
    if n > 1 {
      CappedPasses(n - 1, firstBlock, aggregated, committed);
    }
  }

  /** The end of the `n`-th pass, counted from 1. */
  function EndOfPass(n: nat, firstBlock: int, aggregated: int, committed: int): int
    requires n > 0
  {
    RefreshEnd(StartOfPass(n, firstBlock, aggregated, committed), committed)
  }

  /**
    From behind, a refresh first covers the last commit in exactly the pass that counts the twenty-day steps to it, from
    where it stands or from the first block if that is later.
   */
  lemma CatchUpTakesExactly(firstBlock: int, aggregated: int, committed: int)
    requires PassStart(firstBlock, aggregated) <= committed
    ensures var first := PassStart(firstBlock, aggregated);
            var total := StepsBetween(first, committed);
            && total > 0 && After(total, firstBlock, aggregated, committed) == committed
            && EndOfPass(total, firstBlock, aggregated, committed) == committed + 1
            && forall n: nat | 0 < n < total ::
                 EndOfPass(n, firstBlock, aggregated, committed) == first + n * MAX_STEP <= committed
  {
    var first := PassStart(firstBlock, aggregated);
    var total := StepsBetween(first, committed);
    CappedPasses(total, firstBlock, aggregated, committed);
    forall n: nat | 0 < n < total
      ensures EndOfPass(n, firstBlock, aggregated, committed) == first + n * MAX_STEP <= committed
    {
      CappedPasses(n, firstBlock, aggregated, committed);
    }
  }

  /**
    A process that starts from nothing, or from before the first block, needs `total` passes: as many twenty-day steps as
    it takes to get from the first block to just after the last commit.
   */
  lemma CatchUpFromFirstBlock(firstBlock: int, aggregated: int, committed: int, total: nat)
    requires aggregated <= firstBlock <= committed
    requires (total - 1) * 1_728_000_000_000_000 < committed + 1 - firstBlock <= total * 1_728_000_000_000_000
    ensures total > 0 && After(total, firstBlock, aggregated, committed) == committed
    ensures EndOfPass(total, firstBlock, aggregated, committed) == committed + 1
    ensures forall n: nat | 0 < n < total ::
              EndOfPass(n, firstBlock, aggregated, committed) == firstBlock + n * 1_728_000_000_000_000 <= committed
  {
    CatchUpTakesExactly(firstBlock, aggregated, committed);
    assert total == StepsBetween(firstBlock, committed);
  }

  /** A refresh that failed, or was cancelled, is made up for by the next one, since only the watermark counts. */
  lemma FailuresAreMadeUpFor(v: View, failed: int, w: int)
    requires ViewInv(v) && failed <= w
    ensures var without, and := RefreshView(v, w), RefreshView(RefreshView(v, failed), w);
            && and.watermark == without.watermark && and.rows == without.rows
            && multiset(and.materialized) == multiset(without.materialized)
  {
    RefreshKeepsView(v, w);
    RefreshKeepsView(v, failed);
    RefreshKeepsView(RefreshView(v, failed), w);
  }

  // ---------------------------------------------------------------------------------------------
  // The job

  class AggregatesJob {
    var lastCommitted: int
    var lastAggregated: int
    var firstBlock: int
    /** The channel of capacity one. */
    var refreshRequests: bool
    var skippedRequests: nat
    var view: View
    const balances: Balances.BalanceTables

    constructor (balances: Balances.BalanceTables)
      ensures this.balances == balances && lastAggregated == 0 && !refreshRequests && view == View([], [], 0)
    {
      this.balances := balances;
      lastCommitted, lastAggregated, firstBlock := 0, 0, 0;
      refreshRequests, skippedRequests, view := false, 0, View([], [], 0);
    }

    /** `RequestAggregatesRefresh` never blocks. */
    method Request()
      modifies this`refreshRequests, this`skippedRequests
      ensures refreshRequests
      ensures skippedRequests == if old(refreshRequests) then old(skippedRequests) + 1 else 0
    {
      if !refreshRequests {
        refreshRequests := true;
        skippedRequests := 0;
      } else {
        skippedRequests := skippedRequests + 1;
      }
    }

    /**
      `refresh_watermarked_view`: what is materialized stays what the query shows below the watermark, and the combined
      view shows the same rows before and after.
     */
    method RefreshWatermarkedView(wNew: int)
      modifies this`view
      ensures old(ViewInv(view)) ==> ViewInv(view) && multiset(Combined(view)) == multiset(Combined(old(view)))
      ensures view.rows == old(view.rows) && old(view.watermark) <= view.watermark && wNew <= view.watermark
      ensures view == RefreshView(old(view), wNew)
    {
      if old(ViewInv(view)) {
        CombinedIsTheQuery(view);
        RefreshKeepsView(view, wNew);
        CombinedIsTheQuery(RefreshView(view, wNew));
      }
      if wNew <= view.watermark {
        return;
      }
      view := View(view.rows, view.materialized + Between(view.rows, view.watermark, wNew), wNew);
    }

    /** The statements of a pass. One that fails is only logged. */
    method UpdateTables(refreshEnd: int, viewFails: bool, balancesFail: bool)
      modifies this`view, balances
      ensures view == if viewFails then old(view) else RefreshView(old(view), refreshEnd)
      ensures balances.Contents()
           == if balancesFail then old(balances.Contents()) else Balances.Update(old(balances.Contents()), refreshEnd)
    {
      if !viewFails {
        RefreshWatermarkedView(refreshEnd);
      }
      if !balancesFail {
        var _ := balances.UpdateBalances(refreshEnd);
      }
    }

    /** How far the pass goes, and what it will have aggregated then. */
    method PlanPass() returns (refreshEnd: int, next: int, caughtUp: bool)
      modifies this`lastAggregated
      ensures lastAggregated == if old(lastAggregated) < firstBlock then firstBlock else old(lastAggregated)
      ensures refreshEnd == if lastAggregated + 1_728_000_000_000_000 < lastCommitted + 1
                            then lastAggregated + 1_728_000_000_000_000 else lastCommitted + 1
      ensures caughtUp <==> refreshEnd == lastCommitted + 1
      ensures lastAggregated == PassStart(firstBlock, old(lastAggregated))
      ensures refreshEnd == RefreshEnd(lastAggregated, lastCommitted) && next == NextAggregated(lastAggregated, lastCommitted)
      ensures caughtUp == !Capped(lastAggregated, lastCommitted)
    {
      if lastAggregated < firstBlock {
        lastAggregated := firstBlock;
      }
      refreshEnd, next, caughtUp := lastCommitted + 1, lastCommitted, true;
      if refreshEnd > lastAggregated + MAX_STEP {
        caughtUp := false;
        refreshEnd := lastAggregated + MAX_STEP;
        next := refreshEnd;
      }
    }

    /**
      `refreshAggregates`, with nothing committed meanwhile; `cancelledAfter` is the number of statements after which the
      context is cancelled. Before the view's statement that ends the pass; later it makes the statement of the balances
      fail, and the pass counts as done. False when the pass was capped.
     */
    method RefreshAggregates(cancelledAfter: Option<nat>, viewFails: bool, balancesFail: bool) returns (caughtUp: bool)
      modifies this`lastAggregated, this`view, balances
      ensures firstBlock <= lastAggregated || lastAggregated == lastCommitted
      ensures old(lastAggregated) <= firstBlock && cancelledAfter != Some(0) ==>
                var end := if lastCommitted + 1 <= firstBlock + 1_728_000_000_000_000 then lastCommitted + 1
                           else firstBlock + 1_728_000_000_000_000;
                && lastAggregated == (if caughtUp then lastCommitted else end)
                && caughtUp == (end == lastCommitted + 1)
                && (!viewFails ==> view.watermark == if end <= old(view.watermark) then old(view.watermark) else end)
      ensures var start := PassStart(firstBlock, old(lastAggregated));
              var ended := cancelledAfter == Some(0);
              && lastAggregated == (if ended then start else NextAggregated(start, lastCommitted))
              && caughtUp == !Capped(start, lastCommitted)
              && view == (if ended || viewFails then old(view) else RefreshView(old(view), RefreshEnd(start, lastCommitted)))
              && balances.Contents() == if balancesFail || cancelledAfter in {Some(0), Some(1)} then old(balances.Contents())
                   else Balances.Update(old(balances.Contents()), RefreshEnd(start, lastCommitted))
    {
      var refreshEnd, next;
      refreshEnd, next, caughtUp := PlanPass();
      if cancelledAfter == Some(0) {
        return;
      }
      UpdateTables(refreshEnd, viewFails, balancesFail || cancelledAfter == Some(1));
      lastAggregated := next;
    }
  }
}
