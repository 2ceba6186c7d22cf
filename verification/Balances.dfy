/**
  The incremental account balances of internal/db/balances.sql.

  Tables are sequences of rows read as bags; primary keys are checked where a procedure inserts.
 */
module Balances {
  import opened Options

  /** A row of `transfer_events`. */
  datatype Transfer = Transfer(from: string, to: string, asset: Option<string>, amount: int, ts: int)

  datatype Account = Account(addr: string, asset: string)

  /** A row of the `balance_deltas` view, or, with a running total as its amount, of the `balances` table. */
  datatype Entry = Entry(account: Account, amount: int, ts: int)

  /** A row of `current_balances`. */
  datatype Balance = Balance(account: Account, amount: int)

  // ---------------------------------------------------------------------------------------------
  // The balance_deltas view

  function TrimLeft(s: string): string {
    if s != [] && s[0] == ' ' then TrimLeft(s[1..]) else s
  }

  function TrimRight(s: string): string {
    if s != [] && s[|s| - 1] == ' ' then TrimRight(s[..|s| - 1]) else s
  }

  function AssetName(asset: Option<string>): string {
    match asset
    case None => "QBTC.QBTC"
    case Some(a) => var trimmed := TrimRight(TrimLeft(a)); if trimmed == "" then "QBTC.QBTC" else trimmed
  }

  function Credit(t: Transfer): Entry { Entry(Account(t.to, AssetName(t.asset)), t.amount, t.ts) }

  function Debit(t: Transfer): Entry { Entry(Account(t.from, AssetName(t.asset)), -t.amount, t.ts) }

  function Deltas(transfers: seq<Transfer>): (ds: seq<Entry>) {
    if transfers == [] then []
    else
      var t := transfers[|transfers| - 1];
      Deltas(transfers[..|transfers| - 1]) + [Credit(t), Debit(t)]
  }

  /** From scratch: the sum of an account's deltas before a time. */
  function Before(ds: seq<Entry>, a: Account, t: int): int {
    if ds == [] then 0
    else
      var d := ds[|ds| - 1];
      Before(ds[..|ds| - 1], a, t) + if d.account == a && d.ts < t then d.amount else 0
  }

  ghost predicate Touched(ds: seq<Entry>, a: Account, t: int) {
    exists d | d in ds :: d.account == a && d.ts < t
  }

  predicate HasEntry(es: seq<Entry>, a: Account, t: int) {
    exists e | e in es :: e.account == a && e.ts == t
  }

  predicate HasBalance(bs: seq<Balance>, a: Account) {
    exists b | b in bs :: b.account == a
  }

  // ---------------------------------------------------------------------------------------------
  // update_running_balances_interval

  function Slice(ds: seq<Entry>, t1: int, t2: int): (slice: seq<Entry>)
    ensures forall d :: d in slice <==> d in ds && t1 <= d.ts < t2
  {
    if ds == [] then []
    else
      var rest, d := Slice(ds[..|ds| - 1], t1, t2), ds[|ds| - 1];
      if t1 <= d.ts < t2 then rest + [d] else rest
  }

  /** Adds one row to the groups of a GROUP BY addr, asset, block_timestamp. */
  function AddToGroups(groups: seq<Entry>, d: Entry): seq<Entry> {
    if groups == [] then [d]
    else
      var rest, g := groups[..|groups| - 1], groups[|groups| - 1];
      if g.account == d.account && g.ts == d.ts then rest + [g.(amount := g.amount + d.amount)]
      else AddToGroups(rest, d) + [g]
  }

  /** block_balance_deltas */
  function GroupByBlock(slice: seq<Entry>): seq<Entry> {
    if slice == [] then [] else AddToGroups(GroupByBlock(slice[..|slice| - 1]), slice[|slice| - 1])
  }

  /** current_balances_slice: the current balances of the accounts in the slice, stamped 0. */
  function CurrentSlice(current: seq<Balance>, slice: seq<Entry>): seq<Entry> {
    if current == [] then []
    else
      var rest, b := CurrentSlice(current[..|current| - 1], slice), current[|current| - 1];
      if exists d | d in slice :: d.account == b.account then rest + [Entry(b.account, b.amount, 0)] else rest
  }

  /** SUM(amount_e8) OVER (PARTITION BY addr, asset ORDER BY block_timestamp), for the rows with block_timestamp > 0. */
  function RunningTotals(all: seq<Entry>, rows: seq<Entry>): seq<Entry> {
    if rows == [] then []
    else
      var rest, r := RunningTotals(all, rows[..|rows| - 1]), rows[|rows| - 1];
      if r.ts > 0 then rest + [Entry(r.account, Before(all, r.account, r.ts + 1), r.ts)] else rest
  }

  function NewBalanceRows(ds: seq<Entry>, current: seq<Balance>, t1: int, t2: int): seq<Entry> {
    var slice := Slice(ds, t1, t2);
    var rows := CurrentSlice(current, slice) + GroupByBlock(slice);
    RunningTotals(rows, rows)
  }

  predicate DistinctEntries(es: seq<Entry>) {
    forall i, j | 0 <= i < j < |es| :: es[i].account != es[j].account || es[i].ts != es[j].ts
  }

  // ---------------------------------------------------------------------------------------------
  // update_current_balances_interval

  /** INSERT ... ON CONFLICT (addr, asset) DO UPDATE SET amount_e8 = cb.amount_e8 + EXCLUDED.amount_e8 */
  function Upsert(current: seq<Balance>, b: Balance): seq<Balance> {
    if current == [] then [b]
    else
      var rest, c := current[..|current| - 1], current[|current| - 1];
      if c.account == b.account then rest + [c.(amount := c.amount + b.amount)] else Upsert(rest, b) + [c]
  }

  function UpsertAll(current: seq<Balance>, bs: seq<Balance>): seq<Balance> {
    if bs == [] then current else Upsert(UpsertAll(current, bs[..|bs| - 1]), bs[|bs| - 1])
  }

  /** SELECT addr, asset, SUM(amount_e8) ... GROUP BY addr, asset */
  function GroupByAccount(slice: seq<Entry>): seq<Balance> {
    if slice == [] then []
    else
      var d := slice[|slice| - 1];
      Upsert(GroupByAccount(slice[..|slice| - 1]), Balance(d.account, d.amount))
  }

  predicate DistinctBalances(bs: seq<Balance>) {
    forall i, j | 0 <= i < j < |bs| :: bs[i].account != bs[j].account
  }

  function AmountOf(bs: seq<Balance>, a: Account): int {
    if bs == [] then 0
    else AmountOf(bs[..|bs| - 1], a) + if bs[|bs| - 1].account == a then bs[|bs| - 1].amount else 0
  }

  // ---------------------------------------------------------------------------------------------
  // The state and its steps

  datatype State = State(transfers: seq<Transfer>, balances: seq<Entry>, current: seq<Balance>, watermark: int)

  const EMPTY := State([], [], [], 0)

  function Record(s: State, t: Transfer): State {
    s.(transfers := s.transfers + [t])
  }

  /** `update_balances`: nothing happens when the watermark would move back, or when the transaction fails on a primary key. */
  function Update(s: State, w: int): State {
    var ds := Deltas(s.transfers);
    var rows := NewBalanceRows(ds, s.current, s.watermark, w);
    if w <= s.watermark || !DistinctEntries(s.balances + rows) then s
    else s.(balances := s.balances + rows,
            current := UpsertAll(s.current, GroupByAccount(Slice(ds, s.watermark, w))),
            watermark := w)
  }

  /** The tables hold what a computation from scratch over the deltas below the watermark would put there. */
  ghost predicate Inv(s: State) {
    var ds := Deltas(s.transfers);
    && 0 <= s.watermark
    && (forall d | d in ds :: 0 < d.ts)
    && CurrentIsExact(ds, s.current, s.watermark)
    && BalancesAreExact(ds, s.balances, s.watermark)
  }

  /** One row per account touched before `w`, holding the sum of its deltas. */
  ghost predicate CurrentIsExact(ds: seq<Entry>, current: seq<Balance>, w: int) {
    && DistinctBalances(current)
    && (forall a :: HasBalance(current, a) <==> Touched(ds, a, w))
    && (forall b | b in current :: b.amount == Before(ds, b.account, w))
  }

  /** One row per account and block touched before `w`, holding the sum of the account's deltas up to that block. */
  ghost predicate BalancesAreExact(ds: seq<Entry>, balances: seq<Entry>, w: int) {
    && DistinctEntries(balances)
    && (forall a, t :: HasEntry(balances, a, t) <==> t < w && HasEntry(ds, a, t))
    && (forall e | e in balances :: e.amount == Before(ds, e.account, e.ts + 1))
  }

  // ---------------------------------------------------------------------------------------------
  // Sums

  lemma {:induction false} BeforeConcat(x: seq<Entry>, y: seq<Entry>, a: Account, t: int)
    ensures Before(x + y, a, t) == Before(x, a, t) + Before(y, a, t)
  {
    if y == [] {
      assert x + y == x;
    } else {
      BeforeConcat(x, y[..|y| - 1], a, t);
      assert (x + y)[..|x + y| - 1] == x + y[..|y| - 1];
    }
  }

  lemma {:induction false} BeforeSlice(ds: seq<Entry>, t1: int, t2: int, a: Account, t: int)
    requires t1 <= t <= t2
    ensures Before(Slice(ds, t1, t2), a, t) == Before(ds, a, t) - Before(ds, a, t1)
  {
    if ds != [] {
      var d := ds[|ds| - 1];
      var rest := Slice(ds[..|ds| - 1], t1, t2);
      BeforeSlice(ds[..|ds| - 1], t1, t2, a, t);
      BeforeConcat(rest, [d], a, t);
    }
  }

  lemma {:induction false} BeforeAddToGroups(groups: seq<Entry>, d: Entry, a: Account, t: int)
    ensures Before(AddToGroups(groups, d), a, t) == Before(groups, a, t) + if d.account == a && d.ts < t then d.amount else 0
  {
    if groups != [] {
      var rest, g := groups[..|groups| - 1], groups[|groups| - 1];
      BeforeAddToGroups(rest, d, a, t);
      BeforeConcat(rest, [g.(amount := g.amount + d.amount)], a, t);
      BeforeConcat(AddToGroups(rest, d), [g], a, t);
    }
  }

  lemma {:induction false} BeforeGroups(slice: seq<Entry>, a: Account, t: int)
    ensures Before(GroupByBlock(slice), a, t) == Before(slice, a, t)
  {
    if slice != [] {
      BeforeGroups(slice[..|slice| - 1], a, t);
      BeforeAddToGroups(GroupByBlock(slice[..|slice| - 1]), slice[|slice| - 1], a, t);
    }
  }

  lemma {:induction false} AddToGroupsKeys(groups: seq<Entry>, d: Entry)
    requires DistinctEntries(groups)
    ensures DistinctEntries(AddToGroups(groups, d))
    ensures forall a, t :: HasEntry(AddToGroups(groups, d), a, t) <==> HasEntry(groups, a, t) || (a == d.account && t == d.ts)
  {
    if groups != [] {
      var rest, g := groups[..|groups| - 1], groups[|groups| - 1];
      AddToGroupsKeys(rest, d);
      if g.account == d.account && g.ts == d.ts {
        HasEntryAppend(rest, g.(amount := g.amount + d.amount));
        HasEntryAppend(rest, g);
        assert rest + [g] == groups;
      } else {
        HasEntryAppend(AddToGroups(rest, d), g);
        HasEntryAppend(rest, g);
        assert rest + [g] == groups;
        forall e | e in AddToGroups(rest, d)
          ensures e.account != g.account || e.ts != g.ts
        {
          assert HasEntry(AddToGroups(rest, d), e.account, e.ts);
        }
      }
    }
  }

  lemma HasEntryAppend(es: seq<Entry>, e: Entry)
    ensures forall a, t :: HasEntry(es + [e], a, t) <==> HasEntry(es, a, t) || (a == e.account && t == e.ts)
  {
    forall a, t
      ensures HasEntry(es + [e], a, t) <==> HasEntry(es, a, t) || (a == e.account && t == e.ts)
    {
      if HasEntry(es, a, t) {
        var x :| x in es && x.account == a && x.ts == t;
        assert x in es + [e];
      }
      assert e in es + [e];
    }
  }

  lemma {:induction false} GroupKeys(slice: seq<Entry>)
    ensures DistinctEntries(GroupByBlock(slice))
    ensures forall a, t :: HasEntry(GroupByBlock(slice), a, t) <==> HasEntry(slice, a, t)
  {
    if slice != [] {
      var rest, d := slice[..|slice| - 1], slice[|slice| - 1];
      GroupKeys(rest);
      AddToGroupsKeys(GroupByBlock(rest), d);
      HasEntryAppend(rest, d);
      assert rest + [d] == slice;
    }
  }

  lemma {:induction false} BeforeCurrentSlice(current: seq<Balance>, slice: seq<Entry>, a: Account, t: int)
    requires t > 0
    ensures Before(CurrentSlice(current, slice), a, t)
         == if exists d | d in slice :: d.account == a then AmountOf(current, a) else 0
  {
    if current != [] {
      var rest, b := CurrentSlice(current[..|current| - 1], slice), current[|current| - 1];
      BeforeCurrentSlice(current[..|current| - 1], slice, a, t);
      BeforeConcat(rest, [Entry(b.account, b.amount, 0)], a, t);
    }
  }

  lemma {:induction false} CurrentSliceStamps(current: seq<Balance>, slice: seq<Entry>)
    ensures forall e | e in CurrentSlice(current, slice) :: e.ts == 0
  {
    if current != [] {
      CurrentSliceStamps(current[..|current| - 1], slice);
    }
  }

  lemma {:induction false} RunningTotalsSkip(all: seq<Entry>, x: seq<Entry>, y: seq<Entry>)
    requires forall e | e in x :: e.ts == 0
    ensures RunningTotals(all, x + y) == RunningTotals(all, y)
  {
    if y == [] {
      assert x + y == x;
      if x != [] {
        RunningTotalsSkip(all, x[..|x| - 1], []);
        assert x[..|x| - 1] + [] == x[..|x| - 1];
      }
    } else {
      RunningTotalsSkip(all, x, y[..|y| - 1]);
      assert (x + y)[..|x + y| - 1] == x + y[..|y| - 1];
    }
  }

  lemma {:induction false} RunningTotalsOf(all: seq<Entry>, rows: seq<Entry>)
    requires forall e | e in rows :: e.ts > 0
    ensures |RunningTotals(all, rows)| == |rows|
    ensures forall i | 0 <= i < |rows| ::
              RunningTotals(all, rows)[i] == Entry(rows[i].account, Before(all, rows[i].account, rows[i].ts + 1), rows[i].ts)
  {
    if rows != [] {
      RunningTotalsOf(all, rows[..|rows| - 1]);
    }
  }

  lemma {:induction false} AmountOfRow(bs: seq<Balance>, b: Balance)
    requires DistinctBalances(bs) && b in bs
    ensures AmountOf(bs, b.account) == b.amount
  {
    var rest, last := bs[..|bs| - 1], bs[|bs| - 1];
    if b == last {
      NoRowNoAmount(rest, b.account);
    } else {
      var i :| 0 <= i < |bs| && bs[i] == b;
      assert rest[i] == b;
      AmountOfRow(rest, b);
    }
  }

  lemma {:induction false} NoRowNoAmount(bs: seq<Balance>, a: Account)
    requires !HasBalance(bs, a)
    ensures AmountOf(bs, a) == 0
  {
    if bs != [] {
      assert bs[|bs| - 1] in bs;
      NoRowNoAmount(bs[..|bs| - 1], a);
    }
  }

  /** No delta of the account between two times: no change. */
  lemma {:induction false} BeforeGap(ds: seq<Entry>, a: Account, lo: int, hi: int)
    requires lo <= hi
    requires forall d | d in ds && d.account == a :: !(lo <= d.ts < hi)
    ensures Before(ds, a, lo) == Before(ds, a, hi)
  {
    if ds != [] {
      assert ds[|ds| - 1] in ds;
      BeforeGap(ds[..|ds| - 1], a, lo, hi);
    }
  }

  lemma {:induction false} UntouchedIsZero(ds: seq<Entry>, a: Account, t: int)
    requires !Touched(ds, a, t)
    ensures Before(ds, a, t) == 0
  {
    if ds != [] {
      assert ds[|ds| - 1] in ds;
      UntouchedIsZero(ds[..|ds| - 1], a, t);
    }
  }

  lemma CurrentAmount(ds: seq<Entry>, current: seq<Balance>, w: int, a: Account)
    requires CurrentIsExact(ds, current, w)
    ensures AmountOf(current, a) == Before(ds, a, w)
  {
    if HasBalance(current, a) {
      var b :| b in current && b.account == a;
      AmountOfRow(current, b);
    } else {
      NoRowNoAmount(current, a);
      UntouchedIsZero(ds, a, w);
    }
  }

  // ---------------------------------------------------------------------------------------------
  // One update

  /** The rows of the window query before the window is applied, and its result row by row. */
  lemma NewRowsShape(ds: seq<Entry>, current: seq<Balance>, w: int, w': int)
    requires forall d | d in ds :: 0 < d.ts
    ensures var slice := Slice(ds, w, w');
            var groups, rows := GroupByBlock(slice), NewBalanceRows(ds, current, w, w');
            && DistinctEntries(groups) && |rows| == |groups|
            && (forall i | 0 <= i < |rows| ::
                  rows[i] == Entry(groups[i].account,
                                   Before(CurrentSlice(current, slice) + groups, groups[i].account, groups[i].ts + 1),
                                   groups[i].ts))
  {
    var slice := Slice(ds, w, w');
    var initial, groups := CurrentSlice(current, slice), GroupByBlock(slice);
    GroupKeys(slice);
    forall e | e in groups
      ensures e.ts > 0
    {
      assert HasEntry(groups, e.account, e.ts);
    }
    CurrentSliceStamps(current, slice);
    RunningTotalsSkip(initial + groups, initial, groups);
    RunningTotalsOf(initial + groups, groups);
  }

  lemma WindowAmount(ds: seq<Entry>, current: seq<Balance>, w: int, w': int, a: Account, t: int)
    requires 0 <= w <= t < w' && CurrentIsExact(ds, current, w) && HasEntry(ds, a, t)
    ensures var slice := Slice(ds, w, w');
            Before(CurrentSlice(current, slice) + GroupByBlock(slice), a, t + 1) == Before(ds, a, t + 1)
  {
    var slice := Slice(ds, w, w');
    var d :| d in ds && d.account == a && d.ts == t;
    assert d in slice;
    BeforeConcat(CurrentSlice(current, slice), GroupByBlock(slice), a, t + 1);
    BeforeCurrentSlice(current, slice, a, t + 1);
    BeforeGroups(slice, a, t + 1);
    BeforeSlice(ds, w, w', a, t + 1);
    CurrentAmount(ds, current, w, a);
  }

  lemma SliceKeys(ds: seq<Entry>, w: int, w': int)
    ensures forall a, t :: HasEntry(Slice(ds, w, w'), a, t) <==> w <= t < w' && HasEntry(ds, a, t)
  {
  }

  /** The window query over one slice, started from the current balances, gives the running totals from scratch. */
  lemma NewRowsAreExact(ds: seq<Entry>, current: seq<Balance>, w: int, w': int)
    requires 0 <= w < w' && CurrentIsExact(ds, current, w)
    requires forall d | d in ds :: 0 < d.ts
    ensures var rows := NewBalanceRows(ds, current, w, w');
            && DistinctEntries(rows)
            && (forall a, t :: HasEntry(rows, a, t) <==> w <= t < w' && HasEntry(ds, a, t))
            && (forall e | e in rows :: e.amount == Before(ds, e.account, e.ts + 1))
  {
    var slice, rows := Slice(ds, w, w'), NewBalanceRows(ds, current, w, w');
    NewRowsShape(ds, current, w, w');
    GroupKeys(slice);
    SliceKeys(ds, w, w');
    SameKeys(rows, GroupByBlock(slice));
    NewRowAmounts(ds, current, w, w');
  }

  lemma NewRowAmounts(ds: seq<Entry>, current: seq<Balance>, w: int, w': int)
    requires 0 <= w < w' && CurrentIsExact(ds, current, w)
    requires forall d | d in ds :: 0 < d.ts
    ensures forall e | e in NewBalanceRows(ds, current, w, w') :: e.amount == Before(ds, e.account, e.ts + 1)
  {
    var groups, rows := GroupByBlock(Slice(ds, w, w')), NewBalanceRows(ds, current, w, w');
    NewRowsShape(ds, current, w, w');
    forall e | e in rows
      ensures e.amount == Before(ds, e.account, e.ts + 1)
    {
      var i :| 0 <= i < |rows| && rows[i] == e;
      GroupOrigin(ds, w, w', groups[i]);
      WindowAmount(ds, current, w, w', e.account, e.ts);
    }
  }

  lemma GroupOrigin(ds: seq<Entry>, w: int, w': int, g: Entry)
    requires g in GroupByBlock(Slice(ds, w, w'))
    ensures w <= g.ts < w' && HasEntry(ds, g.account, g.ts)
  {
    GroupKeys(Slice(ds, w, w'));
    assert HasEntry(GroupByBlock(Slice(ds, w, w')), g.account, g.ts);
    SliceKeys(ds, w, w');
  }

  lemma SameKeys(x: seq<Entry>, y: seq<Entry>)
    requires |x| == |y| && forall i | 0 <= i < |x| :: x[i].account == y[i].account && x[i].ts == y[i].ts
    ensures forall a, t :: HasEntry(x, a, t) <==> HasEntry(y, a, t)
  {
    forall a, t
      ensures HasEntry(x, a, t) <==> HasEntry(y, a, t)
    {
      if HasEntry(x, a, t) {
        var i :| 0 <= i < |x| && x[i].account == a && x[i].ts == t;
        assert y[i] in y;
      }
      if HasEntry(y, a, t) {
        var i :| 0 <= i < |y| && y[i].account == a && y[i].ts == t;
        assert x[i] in x;
      }
    }
  }

  lemma {:induction false} UpsertMeaning(current: seq<Balance>, b: Balance)
    requires DistinctBalances(current)
    ensures DistinctBalances(Upsert(current, b))
    ensures forall a :: HasBalance(Upsert(current, b), a) <==> HasBalance(current, a) || a == b.account
    ensures forall a :: AmountOf(Upsert(current, b), a) == AmountOf(current, a) + if a == b.account then b.amount else 0
  {
    if current == [] {
      assert HasBalance([b], b.account) by { assert b in [b]; }
      assert [b][..0] == [];
    } else {
      var rest, c := current[..|current| - 1], current[|current| - 1];
      assert rest + [c] == current;
      HasBalanceAppend(rest, c);
      if c.account == b.account {
        var c' := c.(amount := c.amount + b.amount);
        HasBalanceAppend(rest, c');
        assert (rest + [c'])[..|rest|] == rest;
      } else {
        UpsertMeaning(rest, b);
        HasBalanceAppend(Upsert(rest, b), c);
        assert (Upsert(rest, b) + [c])[..|Upsert(rest, b)|] == Upsert(rest, b);
        forall x | x in Upsert(rest, b)
          ensures x.account != c.account
        {
          assert HasBalance(Upsert(rest, b), x.account);
        }
      }
    }
  }

  lemma HasBalanceAppend(bs: seq<Balance>, b: Balance)
    ensures forall a :: HasBalance(bs + [b], a) <==> HasBalance(bs, a) || a == b.account
  {
    forall a
      ensures HasBalance(bs + [b], a) <==> HasBalance(bs, a) || a == b.account
    {
      if HasBalance(bs, a) {
        var x :| x in bs && x.account == a;
        assert x in bs + [b];
      }
      assert b in bs + [b];
    }
  }

  lemma {:induction false} UpsertAllMeaning(current: seq<Balance>, bs: seq<Balance>)
    requires DistinctBalances(current)
    ensures DistinctBalances(UpsertAll(current, bs))
    ensures forall a :: HasBalance(UpsertAll(current, bs), a) <==> HasBalance(current, a) || HasBalance(bs, a)
    ensures forall a :: AmountOf(UpsertAll(current, bs), a) == AmountOf(current, a) + AmountOf(bs, a)
  {
    if bs != [] {
      var rest, b := bs[..|bs| - 1], bs[|bs| - 1];
      UpsertAllMeaning(current, rest);
      UpsertMeaning(UpsertAll(current, rest), b);
      HasBalanceAppend(rest, b);
      assert rest + [b] == bs;
    }
  }

  lemma {:induction false} GroupByAccountMeaning(slice: seq<Entry>, t: int)
    requires forall d | d in slice :: d.ts < t
    ensures DistinctBalances(GroupByAccount(slice))
    ensures forall a :: HasBalance(GroupByAccount(slice), a) <==> Touched(slice, a, t)
    ensures forall a :: AmountOf(GroupByAccount(slice), a) == Before(slice, a, t)
  {
    if slice != [] {
      var rest, d := slice[..|slice| - 1], slice[|slice| - 1];
      assert d in slice;
      GroupByAccountMeaning(rest, t);
      UpsertMeaning(GroupByAccount(rest), Balance(d.account, d.amount));
    }
  }

  lemma NewCurrentIsExact(ds: seq<Entry>, current: seq<Balance>, w: int, w': int)
    requires w < w' && CurrentIsExact(ds, current, w)
    ensures CurrentIsExact(ds, UpsertAll(current, GroupByAccount(Slice(ds, w, w'))), w')
  {
    var slice := Slice(ds, w, w');
    var current' := UpsertAll(current, GroupByAccount(slice));
    GroupByAccountMeaning(slice, w');
    UpsertAllMeaning(current, GroupByAccount(slice));
    forall a
      ensures HasBalance(current', a) <==> Touched(ds, a, w')
    {
      if Touched(ds, a, w') {
        var d :| d in ds && d.account == a && d.ts < w';
        assert d.ts < w ==> Touched(ds, a, w);
        assert w <= d.ts ==> d in slice;
      }
    }
    forall b | b in current'
      ensures b.amount == Before(ds, b.account, w')
    {
      AmountOfRow(current', b);
      CurrentAmount(ds, current, w, b.account);
      BeforeSlice(ds, w, w', b.account, w');
    }
  }

  /** `update_balances` keeps the tables exact, never trips over a primary key, and only moves the watermark up. */
  lemma UpdateKeepsInv(s: State, w: int)
    requires Inv(s)
    ensures Inv(Update(s, w))
    ensures Update(s, w).transfers == s.transfers
    ensures Update(s, w).watermark == if w <= s.watermark then s.watermark else w
  {
    if w > s.watermark {
      var ds := Deltas(s.transfers);
      NewRowsAreExact(ds, s.current, s.watermark, w);
      NewCurrentIsExact(ds, s.current, s.watermark, w);
      NewBalancesAreExact(ds, s.balances, NewBalanceRows(ds, s.current, s.watermark, w), s.watermark, w);
    }
  }

  lemma NewBalancesAreExact(ds: seq<Entry>, balances: seq<Entry>, rows: seq<Entry>, w: int, w': int)
    requires w < w' && BalancesAreExact(ds, balances, w)
    requires DistinctEntries(rows)
    requires forall a, t :: HasEntry(rows, a, t) <==> w <= t < w' && HasEntry(ds, a, t)
    requires forall e | e in rows :: e.amount == Before(ds, e.account, e.ts + 1)
    ensures BalancesAreExact(ds, balances + rows, w')
  {
    assert forall e | e in balances :: HasEntry(balances, e.account, e.ts);
    assert forall e | e in rows :: HasEntry(rows, e.account, e.ts);
    forall a, t
      ensures HasEntry(balances + rows, a, t) <==> HasEntry(balances, a, t) || HasEntry(rows, a, t)
    {
      if HasEntry(balances, a, t) {
        var e :| e in balances && e.account == a && e.ts == t;
        assert e in balances + rows;
      }
      if HasEntry(rows, a, t) {
        var e :| e in rows && e.account == a && e.ts == t;
        assert e in balances + rows;
      }
    }
  }

  // ---------------------------------------------------------------------------------------------
  // Recording transfers

  lemma RecordedDeltas(s: State, t: Transfer)
    ensures Deltas(Record(s, t).transfers) == Deltas(s.transfers) + [Credit(t), Debit(t)]
  {
    assert (s.transfers + [t])[..|s.transfers|] == s.transfers;
  }

  lemma RecordKeepsInv(s: State, t: Transfer)
    requires Inv(s) && s.watermark <= t.ts && 0 < t.ts
    ensures Inv(Record(s, t))
  {
    var ds, ds' := Deltas(s.transfers), Deltas(Record(s, t).transfers);
    var added := [Credit(t), Debit(t)];
    RecordedDeltas(s, t);
    forall a, hi | hi <= t.ts
      ensures Before(ds', a, hi) == Before(ds, a, hi)
    {
      BeforeConcat(ds, added, a, hi);
      UntouchedIsZero(added, a, hi);
    }
    forall a, hi | hi <= t.ts
      ensures Touched(ds', a, hi) <==> Touched(ds, a, hi)
    {
      if Touched(ds, a, hi) {
        var d :| d in ds && d.account == a && d.ts < hi;
        assert d in ds';
      }
    }
    forall a, hi | hi < t.ts
      ensures HasEntry(ds', a, hi) <==> HasEntry(ds, a, hi)
    {
      if HasEntry(ds, a, hi) {
        var d :| d in ds && d.account == a && d.ts == hi;
        assert d in ds';
      }
    }
    forall e | e in s.balances
      ensures e.ts < t.ts
    {
      assert HasEntry(s.balances, e.account, e.ts);
    }
  }

  /** A transfer that changes no balance, between accounts that both have a delta in its block already. */
  predicate IsInvisible(ds: seq<Entry>, t: Transfer) {
    && (t.amount == 0 || t.from == t.to)
    && HasEntry(ds, Credit(t).account, t.ts) && HasEntry(ds, Debit(t).account, t.ts)
  }

  lemma InvisibleDeltas(ds: seq<Entry>, t: Transfer)
    requires IsInvisible(ds, t)
    ensures var ds' := ds + [Credit(t), Debit(t)];
            && (forall a, hi :: Before(ds', a, hi) == Before(ds, a, hi))
            && (forall a, hi :: Touched(ds', a, hi) <==> Touched(ds, a, hi))
            && (forall a, ts :: HasEntry(ds', a, ts) <==> HasEntry(ds, a, ts))
  {
    var added := [Credit(t), Debit(t)];
    forall a, hi
      ensures Before(ds + added, a, hi) == Before(ds, a, hi)
    {
      BeforeConcat(ds, added, a, hi);
      BeforeConcat([Credit(t)], [Debit(t)], a, hi);
      assert [Credit(t)] + [Debit(t)] == added;
      assert [Credit(t)][..0] == [] && [Debit(t)][..0] == [];
    }
    var c :| c in ds && c.account == Credit(t).account && c.ts == t.ts;
    var d :| d in ds && d.account == Debit(t).account && d.ts == t.ts;
    forall a, hi
      ensures Touched(ds + added, a, hi) <==> Touched(ds, a, hi)
      ensures HasEntry(ds + added, a, hi) <==> HasEntry(ds, a, hi)
    {
      EntriesStay(ds, added, a, hi);
      assert c in ds && d in ds;
    }
  }

  lemma EntriesStay(ds: seq<Entry>, added: seq<Entry>, a: Account, t: int)
    ensures Touched(ds, a, t) ==> Touched(ds + added, a, t)
    ensures HasEntry(ds, a, t) ==> HasEntry(ds + added, a, t)
  {
    if Touched(ds, a, t) {
      var d :| d in ds && d.account == a && d.ts < t;
      assert d in ds + added;
    }
    if HasEntry(ds, a, t) {
      var d :| d in ds && d.account == a && d.ts == t;
      assert d in ds + added;
    }
  }

  lemma InvisibleKeepsInv(s: State, t: Transfer)
    requires Inv(s) && 0 < t.ts && IsInvisible(Deltas(s.transfers), t)
    ensures Inv(Record(s, t))
  {
    RecordedDeltas(s, t);
    InvisibleDeltas(Deltas(s.transfers), t);
  }

  lemma LateAmountBreaksInv(s: State, t: Transfer)
    requires Inv(s) && t.ts < s.watermark && t.amount != 0 && t.from != t.to
    ensures !Inv(Record(s, t))
  {
    var ds, ds' := Deltas(s.transfers), Deltas(Record(s, t).transfers);
    var a, w := Credit(t).account, s.watermark;
    RecordedDeltas(s, t);
    BeforeConcat(ds, [Credit(t), Debit(t)], a, w);
    BeforeConcat([Credit(t)], [Debit(t)], a, w);
    assert [Credit(t)] + [Debit(t)] == [Credit(t), Debit(t)];
    assert Before([Credit(t)], a, w) == t.amount && Before([Debit(t)], a, w) == 0;
    CurrentAmount(ds, s.current, w, a);
    assert Credit(t) in ds' && Touched(ds', a, w);
    if Inv(Record(s, t)) {
      CurrentAmount(ds', s.current, w, a);
      assert false;
    }
  }

  lemma LateEntryBreaksInv(s: State, t: Transfer)
    requires Inv(s) && t.ts < s.watermark
    requires !HasEntry(Deltas(s.transfers), Credit(t).account, t.ts) || !HasEntry(Deltas(s.transfers), Debit(t).account, t.ts)
    ensures !Inv(Record(s, t))
  {
    var ds' := Deltas(Record(s, t).transfers);
    RecordedDeltas(s, t);
    assert Credit(t) in ds' && Debit(t) in ds';
    assert HasEntry(ds', Credit(t).account, t.ts) && HasEntry(ds', Debit(t).account, t.ts);
  }

  /**
    A transfer leaves the tables exact precisely when it is not older than the watermark, or changes nothing that is in
    them.
   */
  lemma RecordIsExactIff(s: State, t: Transfer)
    requires Inv(s) && 0 < t.ts
    ensures Inv(Record(s, t)) <==> s.watermark <= t.ts || IsInvisible(Deltas(s.transfers), t)
  {
    if s.watermark <= t.ts {
      RecordKeepsInv(s, t);
    } else if IsInvisible(Deltas(s.transfers), t) {
      InvisibleKeepsInv(s, t);
    } else if t.amount != 0 && t.from != t.to {
      LateAmountBreaksInv(s, t);
    } else {
      LateEntryBreaksInv(s, t);
    }
  }

  // ---------------------------------------------------------------------------------------------
  // Runs

  datatype Step = Recorded(t: Transfer) | Updated(w: int) | UpdateFailed(w: int)

  function Apply(s: State, step: Step): State {
    match step
    case Recorded(t) => Record(s, t)
    case Updated(w) => Update(s, w)
    case UpdateFailed(_) => s
  }

  function Run(s: State, steps: seq<Step>): State {
    if steps == [] then s else Apply(Run(s, steps[..|steps| - 1]), steps[|steps| - 1])
  }

  /** Transfers arrive at or after the watermark of the moment; updates come in any order. */
  predicate Allowed(s: State, steps: seq<Step>) {
    steps != [] ==>
      && Allowed(s, steps[..|steps| - 1])
      && var last := steps[|steps| - 1];
         last.Recorded? ==> 0 < last.t.ts && Run(s, steps[..|steps| - 1]).watermark <= last.t.ts
  }

  /** Over every run, with updates repeated, failed or going backwards, the tables equal a computation from scratch. */
  lemma {:induction false} RunsStayExact(steps: seq<Step>)
    requires Allowed(EMPTY, steps)
    ensures Inv(Run(EMPTY, steps))
  {
    if steps == [] {
      assert forall a :: !HasBalance([], a) && !Touched([], a, 0);
    } else {
      RunsStayExact(steps[..|steps| - 1]);
      var s := Run(EMPTY, steps[..|steps| - 1]);
      match steps[|steps| - 1]
      case Recorded(t) => RecordKeepsInv(s, t);
      case Updated(w) => UpdateKeepsInv(s, w);
      case UpdateFailed(_) =>
    }
  }

  /** How the updates sliced the time line cannot be seen in the tables. */
  lemma SlicingDoesNotMatter(x: State, y: State)
    requires Inv(x) && Inv(y) && x.transfers == y.transfers && x.watermark == y.watermark
    ensures forall b :: b in x.current <==> b in y.current
    ensures forall e :: e in x.balances <==> e in y.balances
  {
    SameCurrent(x, y);
    SameCurrent(y, x);
    SameBalances(x, y);
    SameBalances(y, x);
  }

  lemma SameCurrent(x: State, y: State)
    requires Inv(x) && Inv(y) && x.transfers == y.transfers && x.watermark == y.watermark
    ensures forall b | b in x.current :: b in y.current
  {
    forall b | b in x.current
      ensures b in y.current
    {
      assert HasBalance(x.current, b.account);
      assert HasBalance(y.current, b.account);
    }
  }

  lemma SameBalances(x: State, y: State)
    requires Inv(x) && Inv(y) && x.transfers == y.transfers && x.watermark == y.watermark
    ensures forall e | e in x.balances :: e in y.balances
  {
    forall e | e in x.balances
      ensures e in y.balances
    {
      assert HasEntry(x.balances, e.account, e.ts);
      assert HasEntry(y.balances, e.account, e.ts);
    }
  }

  // ---------------------------------------------------------------------------------------------
  // Reading a balance

  /** SELECT ... WHERE addr = a.addr AND asset = a.asset AND block_timestamp <= t ORDER BY block_timestamp DESC LIMIT 1 */
  function LatestAt(es: seq<Entry>, a: Account, t: int): (r: Option<Entry>)
    ensures r.Some? ==> r.value in es && r.value.account == a && r.value.ts <= t
    ensures r.Some? ==> forall e | e in es && e.account == a && e.ts <= t :: e.ts <= r.value.ts
    ensures r.None? ==> forall e | e in es && e.account == a :: t < e.ts
  {
    if es == [] then None
    else
      var rest, e := LatestAt(es[..|es| - 1], a, t), es[|es| - 1];
      if e.account == a && e.ts <= t && (rest.None? || rest.value.ts <= e.ts) then Some(e) else rest
  }

  function BalanceAt(s: State, a: Account, t: int): int {
    match LatestAt(s.balances, a, t)
    case None => 0
    case Some(e) => e.amount
  }

  /** The latest row at or before a time below the watermark holds the sum of all deltas up to that time. */
  lemma LookupIsPrefixSum(s: State, a: Account, t: int)
    requires Inv(s) && t < s.watermark
    ensures BalanceAt(s, a, t) == Before(Deltas(s.transfers), a, t + 1)
    ensures LatestAt(s.balances, a, t).Some? <==> Touched(Deltas(s.transfers), a, t + 1)
  {
    var ds, latest := Deltas(s.transfers), LatestAt(s.balances, a, t);
    forall d | d in ds && d.account == a && d.ts <= t
      ensures latest.Some? && d.ts <= latest.value.ts
    {
      assert HasEntry(ds, a, d.ts);
      assert HasEntry(s.balances, a, d.ts);
      var e :| e in s.balances && e.account == a && e.ts == d.ts;
    }
    match latest
    case None =>
      UntouchedIsZero(ds, a, t + 1);
    case Some(e) =>
      assert HasEntry(s.balances, a, e.ts);
      assert HasEntry(ds, a, e.ts);
      BeforeGap(ds, a, e.ts + 1, t + 1);
  }

  datatype Coin = Coin(asset: string, amount: int)

  /** `GetBalances`: one coin per current balance of the address that has a row at or before the block. */
  function GetBalances(balances: seq<Entry>, current: seq<Balance>, addr: string, t: int): seq<Coin> {
    if current == [] then []
    else
      var rest, b := GetBalances(balances, current[..|current| - 1], addr, t), current[|current| - 1];
      var latest := LatestAt(balances, b.account, t);
      if b.account.addr == addr && latest.Some? then rest + [Coin(b.account.asset, latest.value.amount)] else rest
  }

  lemma {:induction false} CoinsOfRows(balances: seq<Entry>, current: seq<Balance>, addr: string, t: int)
    requires DistinctBalances(current)
    ensures forall c :: c in GetBalances(balances, current, addr, t) <==> IsCoin(balances, current, addr, t, c)
    ensures DistinctCoins(GetBalances(balances, current, addr, t))
  {
    if current != [] {
      var rest, b := current[..|current| - 1], current[|current| - 1];
      CoinsOfRows(balances, rest, addr, t);
      HasBalanceAppend(rest, b);
      assert rest + [b] == current;
      assert !HasBalance(rest, b.account);
      forall c | c in GetBalances(balances, rest, addr, t)
        ensures c.asset != b.account.asset || addr != b.account.addr
      {
        assert IsCoin(balances, rest, addr, t, c);
      }
    }
  }

  predicate DistinctCoins(coins: seq<Coin>) {
    forall i, j | 0 <= i < j < |coins| :: coins[i].asset != coins[j].asset
  }

  ghost predicate IsCoin(balances: seq<Entry>, current: seq<Balance>, addr: string, t: int, c: Coin) {
    var latest := LatestAt(balances, Account(addr, c.asset), t);
    HasBalance(current, Account(addr, c.asset)) && latest.Some? && latest.value.amount == c.amount
  }

  lemma CoinsOfDeltas(s: State, addr: string, t: int)
    requires Inv(s) && t < s.watermark
    ensures var coins := GetBalances(s.balances, s.current, addr, t);
            && (forall c :: c in coins <==>
                  var a := Account(addr, c.asset);
                  Touched(Deltas(s.transfers), a, t + 1) && c.amount == Before(Deltas(s.transfers), a, t + 1))
            && DistinctCoins(coins)
  {
    var ds := Deltas(s.transfers);
    CoinsOfRows(s.balances, s.current, addr, t);
    forall asset
      ensures var a := Account(addr, asset);
              && (LatestAt(s.balances, a, t).Some? <==> Touched(ds, a, t + 1))
              && (Touched(ds, a, t + 1) ==> HasBalance(s.current, a))
              && BalanceAt(s, a, t) == Before(ds, a, t + 1)
    {
      var a := Account(addr, asset);
      LookupIsPrefixSum(s, a, t);
      if Touched(ds, a, t + 1) {
        var d :| d in ds && d.account == a && d.ts < t + 1;
        assert Touched(ds, a, s.watermark);
      }
    }
  }

  // ---------------------------------------------------------------------------------------------
  // Balances counted from the transfers

  predicate IsBlank(s: string) {
    forall i | 0 <= i < |s| :: s[i] == ' '
  }

  /** What a transfer gives as its asset means this one: up to blanks around it, and QBTC.QBTC if nothing else is given. */
  ghost predicate Means(given: Option<string>, asset: string) {
    if given.None? || IsBlank(given.value) then asset == "QBTC.QBTC"
    else exists left, right :: IsPadded(given.value, left, asset, right)
  }

  ghost predicate IsPadded(s: string, left: string, inner: string, right: string) {
    && s == left + inner + right && IsBlank(left) && IsBlank(right)
    && inner != "" && inner[0] != ' ' && inner[|inner| - 1] != ' '
  }

  lemma BlankRest(s: string)
    requires s != "" && s[0] == ' '
    ensures IsBlank(s) <==> IsBlank(s[1..])
  {
    assert s == [s[0]] + s[1..];
  }

  lemma {:induction false} TrimLeftPads(s: string) returns (left: string)
    ensures IsBlank(left) && s == left + TrimLeft(s)
    ensures TrimLeft(s) != "" ==> TrimLeft(s)[0] != ' '
    ensures TrimLeft(s) == "" <==> IsBlank(s)
  {
    left := "";
    if s != [] && s[0] == ' ' {
      left := TrimLeftPads(s[1..]);
      left := [' '] + left;
      assert s == [s[0]] + s[1..];
      BlankRest(s);
    }
  }

  lemma {:induction false} TrimRightPads(s: string) returns (right: string)
    ensures IsBlank(right) && s == TrimRight(s) + right
    ensures TrimRight(s) != "" ==> TrimRight(s)[|TrimRight(s)| - 1] != ' '
  {
    right := "";
    if s != [] && s[|s| - 1] == ' ' {
      right := TrimRightPads(s[..|s| - 1]);
      right := right + [' '];
      assert s == s[..|s| - 1] + [s[|s| - 1]];
    }
  }

  /** There is only one way to take blanks off. */
  lemma PaddedOneWay(s: string, left: string, inner: string, right: string, left': string, inner': string, right': string)
    requires IsPadded(s, left, inner, right) && IsPadded(s, left', inner', right')
    ensures inner == inner'
  {
    assert |left| == |left'| by {
      FirstNonBlank(s, left, inner, right, left');
      FirstNonBlank(s, left', inner', right', left);
    }
    assert |right| == |right'| by {
      LastNonBlank(s, left, inner, right, right');
      LastNonBlank(s, left', inner', right', right);
    }
    assert inner == s[|left|..|s| - |right|] && inner' == s[|left'|..|s| - |right'|];
  }

  lemma FirstNonBlank(s: string, left: string, inner: string, right: string, other: string)
    requires IsPadded(s, left, inner, right) && IsBlank(other) && other <= s
    ensures |other| <= |left|
  {
    assert s[|left|] == inner[0];
    assert forall k | 0 <= k < |other| :: s[k] == other[k] == ' ';
  }

  lemma LastNonBlank(s: string, left: string, inner: string, right: string, other: string)
    requires IsPadded(s, left, inner, right) && IsBlank(other) && |other| <= |s| && s[|s| - |other|..] == other
    ensures |other| <= |right|
  {
    var last := |left| + |inner| - 1;
    assert s[last] == inner[|inner| - 1];
    assert forall k | |s| - |other| <= k < |s| :: s[k] == other[k - (|s| - |other|)] == ' ';
  }

  lemma AssetNameMeans(given: Option<string>, asset: string)
    ensures AssetName(given) == asset <==> Means(given, asset)
  {
    if given.Some? && !IsBlank(given.value) {
      var a, trimmed := given.value, AssetName(given);
      var left := TrimLeftPads(a);
      var right := TrimRightPads(TrimLeft(a));
      assert TrimLeft(a) == TrimRight(TrimLeft(a)) + right;
      NotAllBlank(TrimLeft(a), TrimRight(TrimLeft(a)), right);
      assert trimmed[0] == TrimLeft(a)[0];
      assert a == left + trimmed + right;
      assert IsPadded(a, left, trimmed, right);
      if left', right' :| IsPadded(a, left', asset, right') {
        PaddedOneWay(a, left, trimmed, right, left', asset, right');
      }
    } else if given.Some? {
      var left := TrimLeftPads(given.value);
      assert TrimRight("") == "";
    }
  }

  lemma NotAllBlank(s: string, inner: string, right: string)
    requires s != "" && s[0] != ' ' && s == inner + right && IsBlank(right)
    ensures inner != ""
  {
    assert inner == "" ==> right == s;
  }

  /** What an address got of an asset up to a time. */
  ghost function Received(transfers: seq<Transfer>, addr: string, asset: string, t: int): int {
    if transfers == [] then 0
    else
      var last := transfers[|transfers| - 1];
      Received(transfers[..|transfers| - 1], addr, asset, t)
      + if last.to == addr && Means(last.asset, asset) && last.ts <= t then last.amount else 0
  }

  /** What it gave away. */
  ghost function Sent(transfers: seq<Transfer>, addr: string, asset: string, t: int): int {
    if transfers == [] then 0
    else
      var last := transfers[|transfers| - 1];
      Sent(transfers[..|transfers| - 1], addr, asset, t)
      + if last.from == addr && Means(last.asset, asset) && last.ts <= t then last.amount else 0
  }

  /** It was the sender or the receiver of a transfer of the asset by then. */
  ghost predicate TookPart(transfers: seq<Transfer>, addr: string, asset: string, t: int) {
    exists x | x in transfers :: (x.to == addr || x.from == addr) && Means(x.asset, asset) && x.ts <= t
  }

  lemma BeforeOfTwo(d: Entry, e: Entry, a: Account, t: int)
    ensures Before([d, e], a, t)
         == (if d.account == a && d.ts < t then d.amount else 0) + if e.account == a && e.ts < t then e.amount else 0
  {
    assert [d, e][..1] == [d] && [d][..0] == [];
    assert Before([d], a, t) == if d.account == a && d.ts < t then d.amount else 0;
  }

  lemma {:induction false} DeltasAreTransfers(transfers: seq<Transfer>, addr: string, asset: string, t: int)
    ensures Before(Deltas(transfers), Account(addr, asset), t + 1)
         == Received(transfers, addr, asset, t) - Sent(transfers, addr, asset, t)
  {
    if transfers != [] {
      var rest, last := transfers[..|transfers| - 1], transfers[|transfers| - 1];
      DeltasAreTransfers(rest, addr, asset, t);
      AssetNameMeans(last.asset, asset);
      BeforeConcat(Deltas(rest), [Credit(last), Debit(last)], Account(addr, asset), t + 1);
      BeforeOfTwo(Credit(last), Debit(last), Account(addr, asset), t + 1);
    }
  }

  lemma {:induction false} TouchedByTransfers(transfers: seq<Transfer>, addr: string, asset: string, t: int)
    ensures Touched(Deltas(transfers), Account(addr, asset), t + 1) <==> TookPart(transfers, addr, asset, t)
  {
    if transfers != [] {
      var rest, last := transfers[..|transfers| - 1], transfers[|transfers| - 1];
      TouchedByTransfers(rest, addr, asset, t);
      AssetNameMeans(last.asset, asset);
      assert transfers == rest + [last];
      TouchedOneMore(Deltas(rest), Credit(last), Debit(last), Account(addr, asset), t + 1);
      TookPartOneMore(rest, last, addr, asset, t);
    }
  }

  lemma TouchedOneMore(ds: seq<Entry>, d: Entry, e: Entry, a: Account, t: int)
    ensures Touched(ds + [d, e], a, t) <==> Touched(ds, a, t) || (d.account == a && d.ts < t) || (e.account == a && e.ts < t)
  {
    assert d in ds + [d, e] && e in ds + [d, e];
    if Touched(ds, a, t) {
      var x :| x in ds && x.account == a && x.ts < t;
      assert x in ds + [d, e];
    }
  }

  lemma TookPartOneMore(rest: seq<Transfer>, last: Transfer, addr: string, asset: string, t: int)
    ensures TookPart(rest + [last], addr, asset, t)
       <==> TookPart(rest, addr, asset, t) || ((last.to == addr || last.from == addr) && Means(last.asset, asset) && last.ts <= t)
  {
    assert last in rest + [last];
    if TookPart(rest, addr, asset, t) {
      var x :| x in rest && (x.to == addr || x.from == addr) && Means(x.asset, asset) && x.ts <= t;
      assert x in rest + [last];
    }
  }

  /** The balance read at a time is what the address received by then, less what it sent. */
  lemma BalanceIsReceivedLessSent(s: State, addr: string, asset: string, t: int)
    requires Inv(s) && t < s.watermark
    ensures BalanceAt(s, Account(addr, asset), t) == Received(s.transfers, addr, asset, t) - Sent(s.transfers, addr, asset, t)
    ensures LatestAt(s.balances, Account(addr, asset), t).Some? <==> TookPart(s.transfers, addr, asset, t)
  {
    LookupIsPrefixSum(s, Account(addr, asset), t);
    DeltasAreTransfers(s.transfers, addr, asset, t);
    TouchedByTransfers(s.transfers, addr, asset, t);
  }

  /** So is the current balance, by the watermark. */
  lemma CurrentIsReceivedLessSent(s: State, addr: string, asset: string)
    requires Inv(s)
    ensures AmountOf(s.current, Account(addr, asset))
         == Received(s.transfers, addr, asset, s.watermark - 1) - Sent(s.transfers, addr, asset, s.watermark - 1)
  {
    CurrentAmount(Deltas(s.transfers), s.current, s.watermark, Account(addr, asset));
    DeltasAreTransfers(s.transfers, addr, asset, s.watermark - 1);
  }

  /**
    The balances of an address as of a block: each asset it took part in a transfer of by then, once, with what it received
    less what it sent.
   */
  lemma GetBalancesIsExact(s: State, addr: string, t: int)
    requires Inv(s) && t < s.watermark
    ensures var coins := GetBalances(s.balances, s.current, addr, t);
            && (forall c :: c in coins <==>
                  && TookPart(s.transfers, addr, c.asset, t)
                  && c.amount == Received(s.transfers, addr, c.asset, t) - Sent(s.transfers, addr, c.asset, t))
            && DistinctCoins(coins)
  {
    CoinsOfDeltas(s, addr, t);
    forall asset
      ensures Before(Deltas(s.transfers), Account(addr, asset), t + 1)
           == Received(s.transfers, addr, asset, t) - Sent(s.transfers, addr, asset, t)
      ensures Touched(Deltas(s.transfers), Account(addr, asset), t + 1) <==> TookPart(s.transfers, addr, asset, t)
    {
      DeltasAreTransfers(s.transfers, addr, asset, t);
      TouchedByTransfers(s.transfers, addr, asset, t);
    }
  }

  // ---------------------------------------------------------------------------------------------
  // Conservation

  /** The sum over a list of accounts of their balances in one asset, from scratch. */
  function SumOver(bs: seq<Balance>, ds: seq<Entry>, asset: string, t: int): int {
    if bs == [] then 0
    else
      var a := bs[|bs| - 1].account;
      SumOver(bs[..|bs| - 1], ds, asset, t) + if a.asset == asset then Before(ds, a, t) else 0
  }

  /** The sum of what `GetBalances` reads at a time, over all accounts. */
  function TotalAt(s: State, bs: seq<Balance>, asset: string, t: int): int {
    if bs == [] then 0
    else
      var a := bs[|bs| - 1].account;
      TotalAt(s, bs[..|bs| - 1], asset, t) + if a.asset == asset then BalanceAt(s, a, t) else 0
  }

  function TotalNow(bs: seq<Balance>, asset: string): int {
    if bs == [] then 0
    else
      var b := bs[|bs| - 1];
      TotalNow(bs[..|bs| - 1], asset) + if b.account.asset == asset then b.amount else 0
  }

  lemma {:induction false} SumOverOneMore(bs: seq<Balance>, ds: seq<Entry>, d: Entry, asset: string, t: int)
    requires DistinctBalances(bs)
    ensures SumOver(bs, ds + [d], asset, t) == SumOver(bs, ds, asset, t)
          + if HasBalance(bs, d.account) && d.account.asset == asset && d.ts < t then d.amount else 0
  {
    if bs != [] {
      var rest, b := bs[..|bs| - 1], bs[|bs| - 1];
      SumOverOneMore(rest, ds, d, asset, t);
      HasBalanceAppend(rest, b);
      assert rest + [b] == bs;
      assert (ds + [d])[..|ds|] == ds;
    }
  }

  lemma {:induction false} SumOverNoDeltas(bs: seq<Balance>, asset: string, t: int)
    ensures SumOver(bs, [], asset, t) == 0
  {
    if bs != [] {
      SumOverNoDeltas(bs[..|bs| - 1], asset, t);
    }
  }

  /** Every transfer moves an amount between two accounts of one asset. */
  lemma {:induction false} TransfersConserve(bs: seq<Balance>, transfers: seq<Transfer>, asset: string, t: int)
    requires DistinctBalances(bs)
    requires forall d | d in Deltas(transfers) && d.ts < t :: HasBalance(bs, d.account)
    ensures SumOver(bs, Deltas(transfers), asset, t) == 0
  {
    if transfers == [] {
      SumOverNoDeltas(bs, asset, t);
    } else {
      var rest, x := transfers[..|transfers| - 1], transfers[|transfers| - 1];
      TransfersConserve(bs, rest, asset, t);
      assert Deltas(transfers) == (Deltas(rest) + [Credit(x)]) + [Debit(x)];
      assert Credit(x) in Deltas(transfers) && Debit(x) in Deltas(transfers);
      SumOverOneMore(bs, Deltas(rest), Credit(x), asset, t);
      SumOverOneMore(bs, Deltas(rest) + [Credit(x)], Debit(x), asset, t);
    }
  }

  lemma {:induction false} TotalsAreSums(s: State, bs: seq<Balance>, asset: string, t: int)
    requires Inv(s) && t < s.watermark
    requires forall b | b in bs :: b in s.current
    ensures TotalAt(s, bs, asset, t) == SumOver(bs, Deltas(s.transfers), asset, t + 1)
    ensures TotalNow(bs, asset) == SumOver(bs, Deltas(s.transfers), asset, s.watermark)
  {
    if bs != [] {
      TotalsAreSums(s, bs[..|bs| - 1], asset, t);
      assert bs[|bs| - 1] in bs;
      LookupIsPrefixSum(s, bs[|bs| - 1].account, t);
    }
  }

  /** Double entry: the balances of an asset sum to zero, now and as of every past time. */
  lemma BalancesConserve(s: State, asset: string, t: int)
    requires Inv(s) && t < s.watermark
    ensures TotalNow(s.current, asset) == 0
    ensures TotalAt(s, s.current, asset, t) == 0
  {
    var ds := Deltas(s.transfers);
    forall d | d in ds && d.ts < s.watermark
      ensures HasBalance(s.current, d.account)
    {
      assert Touched(ds, d.account, s.watermark);
    }
    TransfersConserve(s.current, s.transfers, asset, s.watermark);
    TransfersConserve(s.current, s.transfers, asset, t + 1);
    TotalsAreSums(s, s.current, asset, t);
  }

  // ---------------------------------------------------------------------------------------------
  // The tables themselves

  class BalanceTables {
    var transferEvents: seq<Transfer>
    var balances: seq<Entry>
    var currentBalances: seq<Balance>
    var watermark: int

    ghost function Contents(): State
      reads this
    {
      State(transferEvents, balances, currentBalances, watermark)
    }

    constructor ()
      ensures Contents() == EMPTY
    {
      transferEvents, balances, currentBalances, watermark := [], [], [], 0;
    }

    /** Both tables hold what a computation from scratch over the deltas before a time would put there. */
    ghost predicate AreExactUpTo(t: int)
      reads this
    {
      var ds := Deltas(transferEvents);
      && 0 <= t && (forall d | d in ds :: 0 < d.ts)
      && CurrentIsExact(ds, currentBalances, t) && BalancesAreExact(ds, balances, t)
    }

    /**
      On tables that are exact up to the slice, one row for each account and block in it, holding the prefix sum, is added
      and no primary key is violated. False when one would be, in which case nothing is inserted.
     */
    method UpdateRunningBalancesInterval(t1: int, t2: int) returns (ok: bool)
      modifies this`balances
      ensures old(AreExactUpTo(t1)) && t1 < t2 ==> ok && BalancesAreExact(Deltas(transferEvents), balances, t2)
      ensures !ok ==> balances == old(balances)
      ensures var rows := NewBalanceRows(Deltas(transferEvents), currentBalances, t1, t2);
              ok == DistinctEntries(old(balances) + rows) && (ok ==> balances == old(balances) + rows)
    {
      var rows := NewBalanceRows(Deltas(transferEvents), currentBalances, t1, t2);
      ghost var ds, before := Deltas(transferEvents), balances;
      ok := DistinctEntries(balances + rows);
      if ok {
        balances := balances + rows;
      }
      if old(AreExactUpTo(t1)) && t1 < t2 {
        NewRowsAreExact(ds, currentBalances, t1, t2);
        NewBalancesAreExact(ds, before, rows, t1, t2);
      }
    }

    /** On current balances that are exact up to the slice: afterwards they are exact up to its end. */
    method UpdateCurrentBalancesInterval(t1: int, t2: int)
      modifies this`currentBalances
      ensures old(CurrentIsExact(Deltas(transferEvents), currentBalances, t1)) && t1 < t2 ==>
                CurrentIsExact(Deltas(transferEvents), currentBalances, t2)
      ensures currentBalances == UpsertAll(old(currentBalances), GroupByAccount(Slice(Deltas(transferEvents), t1, t2)))
    {
      if old(CurrentIsExact(Deltas(transferEvents), currentBalances, t1)) && t1 < t2 {
        NewCurrentIsExact(Deltas(transferEvents), currentBalances, t1, t2);
      }
      currentBalances := UpsertAll(currentBalances, GroupByAccount(Slice(Deltas(transferEvents), t1, t2)));
    }

    /** One transaction; on exact tables it always succeeds and leaves them exact. */
    method UpdateBalances(wNew: int) returns (moved: bool)
      modifies this
      ensures Contents() == Update(old(Contents()), wNew)
      ensures old(Inv(Contents())) ==> Inv(Contents()) && moved == (old(watermark) < wNew)
    {
      ghost var before := Contents();
      ghost var exact := Inv(before);
      if exact {
        UpdateKeepsInv(before, wNew);
      }
      if wNew <= watermark {
        return false;
      }
      moved := UpdateRunningBalancesInterval(watermark, wNew);
      if moved {
        UpdateCurrentBalancesInterval(watermark, wNew);
        watermark := wNew;
      }
    }
  }
}
