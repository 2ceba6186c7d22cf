/**
  Bucketed history: rows of a query merged into buckets (internal/timeseries/stat/depth.go, `queryBucketedGeneral`), and
  the history of liquidity units made with it (internal/timeseries/stat/poolunits.go).
 */
module History {

  /** A row of the query: its truncated time and what it carries. */
  datatype Row<R> = Row(time: int, value: R)

  ghost predicate Increasing(times: seq<int>) {
    forall i, j | 0 <= i < j < |times| :: times[i] < times[j]
  }

  ghost predicate Sorted<R>(rows: seq<Row<R>>) {
    forall i, j | 0 <= i < j < |rows| :: rows[i].time <= rows[j].time
  }

  function Fold<V, R>(apply: (V, R) -> V, v: V, rs: seq<R>): V {
    if rs == [] then v else apply(Fold(apply, v, rs[..|rs| - 1]), rs[|rs| - 1])
  }

  /** What the rows carry whose time is the start of a bucket in [least, most]. */
  function StartRows<R>(rows: seq<Row<R>>, starts: seq<int>, least: int, most: int): seq<R> {
    if rows == [] then []
    else
      var row := rows[|rows| - 1];
      var before := StartRows(rows[..|rows| - 1], starts, least, most);
      if row.time in starts && least <= row.time <= most then before + [row.value] else before
  }

  /** What a bucket should save: all rows of bucket starts up to its own, applied in order. */
  function Wanted<V, R>(apply: (V, R) -> V, v: V, rows: seq<Row<R>>, starts: seq<int>, i: nat): V
    requires i < |starts|
  {
    Fold(apply, v, StartRows(rows, starts, starts[0], starts[i]))
  }

  /** What it saves: rows before time 0 are passed over, and a bucket starting at 0 applies what was never scanned. */
  function Saved<V, R>(apply: (V, R) -> V, v: V, unset: R, rows: seq<Row<R>>, starts: seq<int>, i: nat): V
    requires i < |starts|
  {
    if starts[i] < 0 then v
    else Fold(apply, if 0 in starts then apply(v, unset) else v, StartRows(rows, starts, 0, starts[i]))
  }

  // ---------------------------------------------------------------------------------------------
  // The merge loop

  lemma {:induction false} AllUpTo<R>(rows: seq<Row<R>>, starts: seq<int>, least: int, most: int, more: int)
    requires most <= more
    requires forall k | 0 <= k < |rows| :: rows[k].time <= most
    ensures StartRows(rows, starts, least, most) == StartRows(rows, starts, least, more)
  {
    if rows != [] {
      AllUpTo(rows[..|rows| - 1], starts, least, most, more);
    }
  }

  lemma {:induction false} NoneAfter<R>(rows: seq<Row<R>>, n: nat, starts: seq<int>, least: int, most: int)
    requires n <= |rows|
    requires forall k | n <= k < |rows| :: most < rows[k].time
    ensures StartRows(rows, starts, least, most) == StartRows(rows[..n], starts, least, most)
  {
    if n < |rows| {
      var m := |rows| - 1;
      assert rows[..m][..n] == rows[..n];
      NoneAfter(rows[..m], n, starts, least, most);
    } else {
      assert rows[..n] == rows;
    }
  }

  lemma OneMoreRow<R>(rows: seq<Row<R>>, n: nat, starts: seq<int>, least: int, most: int)
    requires n < |rows|
    ensures StartRows(rows[..n + 1], starts, least, most) ==
            if rows[n].time in starts && least <= rows[n].time <= most then
              StartRows(rows[..n], starts, least, most) + [rows[n].value]
            else StartRows(rows[..n], starts, least, most)
  {
    assert rows[..n + 1][..n] == rows[..n];
  }

  lemma FoldOneMore<V, R>(apply: (V, R) -> V, v: V, rs: seq<R>, r: R)
    ensures Fold(apply, v, rs + [r]) == apply(Fold(apply, v, rs), r)
  {
    assert (rs + [r])[..|rs|] == rs;
  }

  /** How far the merge is: nothing scanned, the last row scanned applied or skipped, not yet due, or no rows left. */
  datatype Phase = Fresh | Taken | Pending | Finished

  /** `n` rows are scanned, `done` of them dealt with. */
  ghost predicate InPhase<R>(phase: Phase, rows: seq<Row<R>>, n: int, done: int, next: int, last: R, unset: R, end: int) {
    && 0 <= done <= n <= |rows|
    && match phase
       case Fresh => n == 0 && next == 0 && last == unset
       case Taken => 0 < n == done && next == rows[n - 1].time
       case Pending => 0 < n == done + 1 && next == rows[n - 1].time && last == rows[n - 1].value
       case Finished => n == done == |rows| && next == end + 1
  }

  /** All rows dealt with are up to `bound`, all others after it. */
  ghost predicate IsCut<R>(rows: seq<Row<R>>, done: int, bound: int)
    requires 0 <= done <= |rows|
  {
    && (forall k | 0 <= k < done :: rows[k].time <= bound)
    && forall k | done <= k < |rows| :: bound < rows[k].time
  }

  lemma NotAStart(starts: seq<int>, i: nat, t: int)
    requires Increasing(starts) && i < |starts|
    requires i > 0 ==> starts[i - 1] < t
    requires t < starts[i]
    ensures t !in starts
  {
    if t in starts {
      var k :| 0 <= k < |starts| && starts[k] == t;
      if k < i - 1 || i < k {
        assert false;
      }
    }
  }

  /** The value the merge starts from, once the starts seen so far are taken into account. */
  function Origin<V, R>(apply: (V, R) -> V, v: V, unset: R, starts: seq<int>): V {
    if 0 in starts then apply(v, unset) else v
  }

  /** The running value: everything dealt with is applied. */
  ghost predicate IsValue<V, R>(value: V, apply: (V, R) -> V, origin: V, rows: seq<Row<R>>, done: int, starts: seq<int>,
                                end: int)
    requires 0 <= done <= |rows|
  {
    value == Fold(apply, origin, StartRows(rows[..done], starts, 0, end))
  }

  lemma ApplyRow<V, R>(value: V, apply: (V, R) -> V, origin: V, rows: seq<Row<R>>, done: nat, starts: seq<int>, end: int)
    requires done < |rows| && IsValue(value, apply, origin, rows, done, starts, end)
    requires rows[done].time in starts && 0 <= rows[done].time <= end
    ensures IsValue(apply(value, rows[done].value), apply, origin, rows, done + 1, starts, end)
  {
    OneMoreRow(rows, done, starts, 0, end);
    FoldOneMore(apply, origin, StartRows(rows[..done], starts, 0, end), rows[done].value);
  }

  lemma SkipRow<V, R>(value: V, apply: (V, R) -> V, origin: V, rows: seq<Row<R>>, done: nat, starts: seq<int>, end: int,
                      i: nat)
    requires done < |rows| && IsValue(value, apply, origin, rows, done, starts, end)
    requires Increasing(starts) && i < |starts|
    requires rows[done].time < starts[i]
    requires i > 0 && 0 <= starts[i - 1] ==> starts[i - 1] < rows[done].time
    ensures IsValue(value, apply, origin, rows, done + 1, starts, end)
  {
    OneMoreRow(rows, done, starts, 0, end);
    if 0 <= rows[done].time {
      NotAStart(starts, i, rows[done].time);
    }
  }

  lemma SaveHere<V, R>(value: V, apply: (V, R) -> V, v: V, unset: R, rows: seq<Row<R>>, done: nat, starts: seq<int>,
                       end: int, i: nat)
    requires Increasing(starts) && i < |starts| && 0 <= starts[i] <= end
    requires done <= |rows| && IsCut(rows, done, starts[i])
    requires IsValue(value, apply, Origin(apply, v, unset, starts[..i + 1]), rows, done, starts, end)
    ensures value == Saved(apply, v, unset, rows, starts, i)
  {
    NoneAfter(rows, done, starts, 0, starts[i]);
    AllUpTo(rows[..done], starts, 0, starts[i], end);
    if 0 in starts {
      var k :| 0 <= k < |starts| && starts[k] == 0;
      assert k <= i;
      assert starts[..i + 1][k] == 0;
    }
  }

  /** The first buckets start before time 0, and nothing is scanned for them. */
  ghost predicate AllBefore0(starts: seq<int>, i: int)
    requires 0 <= i <= |starts|
  {
    forall k | 0 <= k < i :: starts[k] < 0
  }

  /** Starting a bucket at time 0 with nothing scanned applies the unset value, and nothing else changes the origin. */
  lemma OriginStays<V, R>(phase: Phase, value: V, apply: (V, R) -> V, v: V, unset: R, rows: seq<Row<R>>, done: nat,
                          starts: seq<int>, end: int, i: nat)
    requires Increasing(starts) && i < |starts| && done <= |rows|
    requires if phase == Fresh then AllBefore0(starts, i) && done == 0 else i > 0 && 0 <= starts[i - 1]
    requires IsValue(value, apply, Origin(apply, v, unset, starts[..i]), rows, done, starts, end)
    ensures var origin := Origin(apply, v, unset, starts[..i + 1]);
            if phase == Fresh && starts[i] == 0 then
              IsValue(apply(value, unset), apply, origin, rows, done, starts, end)
            else IsValue(value, apply, origin, rows, done, starts, end)
  {
    assert starts[..i + 1] == starts[..i] + [starts[i]];
  }

  /** The cursor of the merge: rows scanned, time and content of the last one, and the running value. */
  datatype Cursor<V, R> = Cursor(n: int, next: int, last: R, value: V)

  /** Between buckets: everything up to the last start is dealt with, and the cursor is past it. */
  ghost predicate IsBetween<V, R>(c: Cursor<V, R>, phase: Phase, done: int, apply: (V, R) -> V, v: V, unset: R,
                                  rows: seq<Row<R>>, starts: seq<int>, end: int, i: int)
    requires 0 <= i <= |starts|
  {
    && InPhase(phase, rows, c.n, done, c.next, c.last, unset, end) && phase != Taken
    && (if phase == Fresh then AllBefore0(starts, i)
        else i > 0 && 0 <= starts[i - 1] && IsCut(rows, done, starts[i - 1]))
    && IsValue(c.value, apply, Origin(apply, v, unset, starts[..i]), rows, done, starts, end)
  }

  /** While scanning for bucket `i`. */
  ghost predicate IsScanning<V, R>(c: Cursor<V, R>, phase: Phase, done: int, apply: (V, R) -> V, origin: V, unset: R,
                                   rows: seq<Row<R>>, starts: seq<int>, end: int, i: int)
    requires 0 <= i < |starts|
  {
    && InPhase(phase, rows, c.n, done, c.next, c.last, unset, end)
    && (if phase == Fresh then AllBefore0(starts, i) else 0 <= starts[i])
    && (c.next <= starts[i] ==> (phase == Fresh || phase == Taken) && 0 <= starts[i])
    && (starts[i] < c.next ==> phase != Taken && (phase == Fresh ==> starts[i] < 0))
    && (forall k | 0 <= k < done :: rows[k].time <= starts[i])
    && (i > 0 && 0 <= starts[i - 1] ==> forall k | done <= k < |rows| :: starts[i - 1] < rows[k].time)
    && IsValue(c.value, apply, origin, rows, done, starts, end)
  }

  /** Before the inner loop: a row that was waiting for this bucket is applied, or is skipped when it is already past. */
  method EnterBucket<V, R>(c: Cursor<V, R>, from: int, apply: (V, R) -> V, ghost v: V, ghost unset: R,
                           ghost rows: seq<Row<R>>, ghost starts: seq<int>, ghost end: int, ghost i: nat, ghost phase: Phase,
                           ghost done: nat)
      returns (d: Cursor<V, R>, ghost newPhase: Phase, ghost newDone: nat)
    requires Increasing(starts) && Sorted(rows) && i < |starts| && from == starts[i] <= end
    requires IsBetween(c, phase, done, apply, v, unset, rows, starts, end, i)
    ensures var origin := Origin(apply, v, unset, starts[..i + 1]);
            IsScanning(d, newPhase, newDone, apply, origin, unset, rows, starts, end, i)
    ensures d.n == c.n && d.next == c.next && d.last == c.last
  {
    ghost var origin := Origin(apply, v, unset, starts[..i + 1]);
    OriginStays(phase, c.value, apply, v, unset, rows, done, starts, end, i);
    d, newPhase, newDone := c, phase, done;
    if phase == Pending && c.next <= from {
      if c.next == from {
        ApplyRow(c.value, apply, origin, rows, done, starts, end);
      } else {
        SkipRow(c.value, apply, origin, rows, done, starts, end, i);
      }
      newPhase, newDone := Taken, c.n;
    }
    if c.next == from {
      d := c.(value := apply(c.value, c.last));
    }
  }

  /** One turn of the inner loop. */
  method ScanRow<V, R>(c: Cursor<V, R>, from: int, apply: (V, R) -> V, rows: seq<Row<R>>, end: int,
                       ghost origin: V, ghost unset: R, ghost starts: seq<int>, ghost i: nat, ghost phase: Phase,
                       ghost done: nat)
      returns (d: Cursor<V, R>, ghost newPhase: Phase, ghost newDone: nat)
    requires Increasing(starts) && Sorted(rows) && i < |starts| && from == starts[i] <= end
    requires IsScanning(c, phase, done, apply, origin, unset, rows, starts, end, i) && c.next <= from
    ensures IsScanning(d, newPhase, newDone, apply, origin, unset, rows, starts, end, i)
    ensures d.n > c.n || (d.n == c.n && from < d.next)
  {
    if c.n < |rows| {
      var row := rows[c.n];
      d := Cursor(c.n + 1, row.time, row.value, c.value);
      if row.time == from {
        ApplyRow(c.value, apply, origin, rows, done, starts, end);
        d := d.(value := apply(c.value, row.value));
        newPhase, newDone := Taken, d.n;
      } else if row.time < from {
        SkipRow(c.value, apply, origin, rows, done, starts, end, i);
        newPhase, newDone := Taken, d.n;
      } else {
        newPhase, newDone := Pending, done;
      }
    } else {
      d := c.(next := end + 1);
      newPhase, newDone := Finished, done;
    }
  }

  /** The inner loop is over: the bucket's rows are applied, and the rest starts later. */
  lemma LeaveBucket<V, R>(c: Cursor<V, R>, phase: Phase, done: int, apply: (V, R) -> V, v: V, unset: R,
                          rows: seq<Row<R>>, starts: seq<int>, end: int, i: nat)
    requires Increasing(starts) && Sorted(rows) && i < |starts| && starts[i] <= end
    requires IsScanning(c, phase, done, apply, Origin(apply, v, unset, starts[..i + 1]), unset, rows, starts, end, i)
    requires starts[i] < c.next
    ensures IsBetween(c, phase, done, apply, v, unset, rows, starts, end, i + 1)
    ensures c.value == Saved(apply, v, unset, rows, starts, i)
  {
    if phase != Fresh {
      assert IsCut(rows, done, starts[i]);
      SaveHere(c.value, apply, v, unset, rows, done, starts, end, i);
    }
  }

  /** queryBucketedGeneral: `apply` and the saved values stand for the caller's closures. */
  method QueryBucketed<V, R>(timestamps: seq<int>, rows: seq<Row<R>>, apply: (V, R) -> V, v: V, unset: R)
      returns (saved: seq<V>)
    requires |timestamps| > 0 && Increasing(timestamps) && Sorted(rows)
    ensures var starts := timestamps[..|timestamps| - 1];
            && |saved| == |starts|
            && forall i | 0 <= i < |starts| :: saved[i] == Saved(apply, v, unset, rows, starts, i)
  {
    var count := |timestamps| - 1;
    var end := timestamps[count];
    ghost var starts := timestamps[..count];
    var c := Cursor(0, 0, unset, v);
    ghost var done, phase := 0, Fresh;
    saved := [];
    for i := 0 to count
      invariant |saved| == i
      invariant forall k | 0 <= k < i :: saved[k] == Saved(apply, v, unset, rows, starts, k)
      invariant IsBetween(c, phase, done, apply, v, unset, rows, starts, end, i)
    {
      var from := timestamps[i];
      ghost var origin := Origin(apply, v, unset, starts[..i + 1]);
      c, phase, done := EnterBucket(c, from, apply, v, unset, rows, starts, end, i, phase, done);
      while c.next <= from
        invariant IsScanning(c, phase, done, apply, origin, unset, rows, starts, end, i)
        decreases |rows| - c.n, if c.next <= from then 1 else 0
      {
        c, phase, done := ScanRow(c, from, apply, rows, end, origin, unset, starts, i, phase, done);
      }
      LeaveBucket(c, phase, done, apply, v, unset, rows, starts, end, i);
      saved := saved + [c.value];
    }
  }

  // ---------------------------------------------------------------------------------------------
  // When the merge is the prefix fold

  lemma {:induction false} SameLeast<R>(rows: seq<Row<R>>, starts: seq<int>, a: int, b: int, most: int)
    requires forall t | t in starts :: a <= t && b <= t
    ensures StartRows(rows, starts, a, most) == StartRows(rows, starts, b, most)
  {
    if rows != [] {
      SameLeast(rows[..|rows| - 1], starts, a, b, most);
    }
  }

  /** From positive starts every bucket saves what it should, whatever is folded. */
  lemma SavedIsWanted<V, R>(apply: (V, R) -> V, v: V, unset: R, rows: seq<Row<R>>, starts: seq<int>, i: nat)
    requires Increasing(starts) && i < |starts|
    requires starts[0] > 0 || (starts[0] == 0 && apply(v, unset) == v)
    ensures Saved(apply, v, unset, rows, starts, i) == Wanted(apply, v, rows, starts, i)
  {
    SameLeast(rows, starts, 0, starts[0], starts[i]);
  }

  function Plus(v: int, r: int): int { v + r }

  ghost predicate IsExact(starts: seq<int>, unset: int)
    requires |starts| > 0
  {
    forall v, rows: seq<Row<int>>, i | Sorted(rows) && 0 <= i < |starts| ::
      Saved(Plus, v, unset, rows, starts, i) == Wanted(Plus, v, rows, starts, i)
  }

  lemma WrongAt0(starts: seq<int>, unset: int)
    requires Increasing(starts) && |starts| > 0 && starts[0] == 0 && unset != 0
    ensures !IsExact(starts, unset)
  {
    var rows: seq<Row<int>> := [];
    assert Sorted(rows);
    assert Saved(Plus, 0, unset, rows, starts, 0) != Wanted(Plus, 0, rows, starts, 0);
  }

  lemma WrongBefore0(starts: seq<int>, unset: int)
    requires Increasing(starts) && |starts| > 0 && starts[0] < 0
    ensures !IsExact(starts, unset)
  {
    var rows := [Row(starts[0], 1)];
    assert Sorted(rows);
    assert StartRows(rows, starts, starts[0], starts[0]) == [1] by {
      assert rows[..0] == [];
    }
    FoldOneMore(Plus, 0, [], 1);
    assert [] + [1] == [1];
    assert Saved(Plus, 0, unset, rows, starts, 0) != Wanted(Plus, 0, rows, starts, 0);
  }

  /** Summing rows is exact for all rows exactly when the buckets start after time 0, or at 0 with an unset value of 0. */
  lemma MergeIsExactIff(starts: seq<int>, unset: int)
    requires Increasing(starts) && |starts| > 0
    ensures IsExact(starts, unset) <==> starts[0] > 0 || (starts[0] == 0 && unset == 0)
  {
    if starts[0] > 0 || (starts[0] == 0 && unset == 0) {
      forall v, rows: seq<Row<int>>, i | Sorted(rows) && 0 <= i < |starts|
        ensures Saved(Plus, v, unset, rows, starts, i) == Wanted(Plus, v, rows, starts, i)
      {
        SavedIsWanted(Plus, v, unset, rows, starts, i);
      }
    } else if starts[0] == 0 {
      WrongAt0(starts, unset);
    } else {
      WrongBefore0(starts, unset);
    }
  }

  // ---------------------------------------------------------------------------------------------
  // Liquidity units

  /** A deposit or a withdrawal of a pool. */
  datatype Change = Change(time: int, units: int)

  /** The units of all changes in [from, until). */
  function SumIn(changes: seq<Change>, from: int, until: int): int {
    if changes == [] then 0
    else
      var c := changes[|changes| - 1];
      SumIn(changes[..|changes| - 1], from, until) + if from <= c.time < until then c.units else 0
  }

  /** The units of all changes before a time. */
  function SumBefore(changes: seq<Change>, until: int): int {
    if changes == [] then 0
    else
      var c := changes[|changes| - 1];
      SumBefore(changes[..|changes| - 1], until) + if c.time < until then c.units else 0
  }

  lemma {:induction false} SumsAdd(changes: seq<Change>, from: int, until: int)
    requires from <= until
    ensures SumBefore(changes, from) + SumIn(changes, from, until) == SumBefore(changes, until)
  {
    if changes != [] {
      SumsAdd(changes[..|changes| - 1], from, until);
    }
  }

  lemma {:induction false} NoneIn(changes: seq<Change>, from: int, until: int)
    requires !HasChange(changes, from, until)
    ensures SumIn(changes, from, until) == 0
  {
    if changes != [] {
      NoneIn(changes[..|changes| - 1], from, until);
    }
  }

  predicate HasChange(changes: seq<Change>, from: int, until: int) {
    exists c | c in changes :: from <= c.time < until
  }

  /** The row of a bucket: the sum of the changes truncated to its start. */
  ghost predicate IsRowOf(row: Row<int>, changes: seq<Change>, timestamps: seq<int>, k: int)
    requires 0 <= k < |timestamps| - 1
  {
    row.time == timestamps[k] && row.value == SumIn(changes, timestamps[k], timestamps[k + 1])
  }

  ghost predicate HasRow(rows: seq<Row<int>>, time: int) {
    exists j | 0 <= j < |rows| :: rows[j].time == time
  }

  /** The answer of the grouping query: one row, in order, for each bucket with changes. */
  ghost predicate IsGrouped(rows: seq<Row<int>>, changes: seq<Change>, timestamps: seq<int>)
    requires |timestamps| > 0
  {
    && (forall i, j | 0 <= i < j < |rows| :: rows[i].time < rows[j].time)
    && (forall j | 0 <= j < |rows| :: exists k | 0 <= k < |timestamps| - 1 :: IsRowOf(rows[j], changes, timestamps, k))
    && forall k | 0 <= k < |timestamps| - 1 && HasChange(changes, timestamps[k], timestamps[k + 1]) ::
         HasRow(rows, timestamps[k])
  }

  /** The rows before the bucket come first; the bucket's own, if any, is the next. */
  ghost predicate IsBefore(rows: seq<Row<int>>, m: int, time: int) {
    && 0 <= m <= |rows|
    && (forall k | 0 <= k < m :: rows[k].time < time)
    && forall k | m <= k < |rows| :: time <= rows[k].time
  }

  lemma RowHere(rows: seq<Row<int>>, changes: seq<Change>, timestamps: seq<int>, i: nat, m: nat)
    requires Increasing(timestamps) && i < |timestamps| - 1 && IsGrouped(rows, changes, timestamps)
    requires IsBefore(rows, m, timestamps[i]) && HasRow(rows, timestamps[i])
    ensures m < |rows| && IsRowOf(rows[m], changes, timestamps, i) && IsCut(rows, m + 1, timestamps[i])
  {
    var j :| 0 <= j < |rows| && rows[j].time == timestamps[i];
    assert forall k | m < k < |rows| :: rows[m].time < rows[k].time;
    var k :| 0 <= k < |timestamps| - 1 && IsRowOf(rows[j], changes, timestamps, k);
    assert k == i;
  }

  lemma NoRowHere(rows: seq<Row<int>>, changes: seq<Change>, timestamps: seq<int>, i: nat, m: nat)
    requires i < |timestamps| - 1 && IsGrouped(rows, changes, timestamps)
    requires IsBefore(rows, m, timestamps[i]) && !HasRow(rows, timestamps[i])
    ensures IsCut(rows, m, timestamps[i]) && SumIn(changes, timestamps[i], timestamps[i + 1]) == 0
  {
    NoneIn(changes, timestamps[i], timestamps[i + 1]);
  }

  /** What the first `m` rows sum to, on top of the total before the first bucket. */
  function UnitsAfter(rows: seq<Row<int>>, changes: seq<Change>, timestamps: seq<int>, m: int): int
    requires 0 <= m <= |rows| && |timestamps| > 0
  {
    var n := |timestamps| - 1;
    Fold(Plus, SumBefore(changes, timestamps[0]), StartRows(rows[..m], timestamps[..n], timestamps[0], timestamps[n]))
  }

  lemma FoldOneMoreRow(rows: seq<Row<int>>, m: nat, starts: seq<int>, least: int, most: int, v: int)
    requires m < |rows| && rows[m].time in starts && least <= rows[m].time <= most
    ensures Fold(Plus, v, StartRows(rows[..m + 1], starts, least, most)) ==
            Fold(Plus, v, StartRows(rows[..m], starts, least, most)) + rows[m].value
  {
    OneMoreRow(rows, m, starts, least, most);
    FoldOneMore(Plus, v, StartRows(rows[..m], starts, least, most), rows[m].value);
  }

  lemma OneMoreBucket(rows: seq<Row<int>>, changes: seq<Change>, timestamps: seq<int>, i: nat, m: nat)
    requires i < |timestamps| - 1 && m < |rows| && IsRowOf(rows[m], changes, timestamps, i)
    requires timestamps[0] <= timestamps[i] <= timestamps[|timestamps| - 1]
    ensures UnitsAfter(rows, changes, timestamps, m + 1) ==
            UnitsAfter(rows, changes, timestamps, m) + SumIn(changes, timestamps[i], timestamps[i + 1])
  {
    var n := |timestamps| - 1;
    assert timestamps[..n][i] == timestamps[i];
    FoldOneMoreRow(rows, m, timestamps[..n], timestamps[0], timestamps[n], SumBefore(changes, timestamps[0]));
  }

  lemma NoRowsYet(rows: seq<Row<int>>, changes: seq<Change>, timestamps: seq<int>)
    requires |timestamps| > 0
    ensures UnitsAfter(rows, changes, timestamps, 0) == SumBefore(changes, timestamps[0])
  {
    assert rows[..0] == [];
  }

  /** The rows of the first buckets sum to the changes before the end of the last of them. */
  lemma {:induction false} RowsSumUp(rows: seq<Row<int>>, changes: seq<Change>, timestamps: seq<int>, i: nat)
      returns (m: nat)
    requires Increasing(timestamps) && i < |timestamps| - 1 && IsGrouped(rows, changes, timestamps)
    ensures m <= |rows| && IsCut(rows, m, timestamps[i])
    ensures UnitsAfter(rows, changes, timestamps, m) == SumBefore(changes, timestamps[i + 1])
  {
    var before := 0;
    if i == 0 {
      FirstCut(rows, changes, timestamps);
      NoRowsYet(rows, changes, timestamps);
    } else {
      before := RowsSumUp(rows, changes, timestamps, i - 1);
      RowsAfterCut(rows, changes, timestamps, i, before);
    }
    m := BucketSumsUp(rows, changes, timestamps, i, before);
  }

  lemma BucketSumsUp(rows: seq<Row<int>>, changes: seq<Change>, timestamps: seq<int>, i: nat, before: nat) returns (m: nat)
    requires Increasing(timestamps) && i < |timestamps| - 1 && IsGrouped(rows, changes, timestamps)
    requires IsBefore(rows, before, timestamps[i])
    requires UnitsAfter(rows, changes, timestamps, before) == SumBefore(changes, timestamps[i])
    ensures m <= |rows| && IsCut(rows, m, timestamps[i])
    ensures UnitsAfter(rows, changes, timestamps, m) == SumBefore(changes, timestamps[i + 1])
  {
    SumsAdd(changes, timestamps[i], timestamps[i + 1]);
    if HasRow(rows, timestamps[i]) {
      RowHere(rows, changes, timestamps, i, before);
      OneMoreBucket(rows, changes, timestamps, i, before);
      m := before + 1;
    } else {
      NoRowHere(rows, changes, timestamps, i, before);
      m := before;
    }
  }

  lemma FirstCut(rows: seq<Row<int>>, changes: seq<Change>, timestamps: seq<int>)
    requires Increasing(timestamps) && |timestamps| > 1 && IsGrouped(rows, changes, timestamps)
    ensures IsBefore(rows, 0, timestamps[0])
  {
    forall j | 0 <= j < |rows|
      ensures timestamps[0] <= rows[j].time
    {
      var k :| 0 <= k < |timestamps| - 1 && IsRowOf(rows[j], changes, timestamps, k);
    }
  }

  lemma RowsAfterCut(rows: seq<Row<int>>, changes: seq<Change>, timestamps: seq<int>, i: nat, m: nat)
    requires Increasing(timestamps) && 0 < i < |timestamps| - 1 && IsGrouped(rows, changes, timestamps)
    requires m <= |rows| && IsCut(rows, m, timestamps[i - 1])
    ensures IsBefore(rows, m, timestamps[i])
  {
    forall j | m <= j < |rows|
      ensures timestamps[i] <= rows[j].time
    {
      var k :| 0 <= k < |timestamps| - 1 && IsRowOf(rows[j], changes, timestamps, k);
      assert k > i - 1;
    }
  }

  /** What a bucket should save is the sum of all changes before the bucket ends. */
  lemma WantedUnits(rows: seq<Row<int>>, changes: seq<Change>, timestamps: seq<int>, i: nat)
    requires Increasing(timestamps) && i < |timestamps| - 1 && IsGrouped(rows, changes, timestamps)
    ensures Wanted(Plus, SumBefore(changes, timestamps[0]), rows, timestamps[..|timestamps| - 1], i) ==
            SumBefore(changes, timestamps[i + 1])
  {
    var n := |timestamps| - 1;
    var starts := timestamps[..n];
    var m := RowsSumUp(rows, changes, timestamps, i);
    SameStartRows(rows, m, starts, starts[0], starts[i], timestamps[n]);
  }

  lemma SameStartRows<R>(rows: seq<Row<R>>, m: nat, starts: seq<int>, least: int, most: int, more: int)
    requires m <= |rows| && IsCut(rows, m, most) && most <= more
    ensures StartRows(rows, starts, least, most) == StartRows(rows[..m], starts, least, more)
  {
    NoneAfter(rows, m, starts, least, most);
    AllUpTo(rows[..m], starts, least, most, more);
  }

  /** How many of the buckets up to `i` start before time 0. */
  function Unscanned(timestamps: seq<int>, i: nat): (b: nat)
    requires i < |timestamps|
    ensures b <= i + 1
    ensures Increasing(timestamps) ==> forall k | 0 <= k <= i :: timestamps[k] < 0 <==> k < b
  {
    if timestamps[i] < 0 then i + 1 else if i == 0 then 0 else Unscanned(timestamps, i - 1)
  }

  /** The units before the end of a bucket, of all changes but those in buckets that start before time 0. */
  function Units(changes: seq<Change>, timestamps: seq<int>, i: nat): int
    requires i < |timestamps| - 1
  {
    SumBefore(changes, timestamps[i + 1]) - SumIn(changes, timestamps[0], timestamps[Unscanned(timestamps, i)])
  }

  lemma {:induction false} FoldPlus(v: int, rs: seq<int>)
    ensures Fold(Plus, v, rs) == v + Fold(Plus, 0, rs)
  {
    if rs != [] {
      FoldPlus(v, rs[..|rs| - 1]);
    }
  }

  /** No bucket starts between `mid` and 0, so that the rows split there. */
  lemma {:induction false} FoldSplits(v: int, rows: seq<Row<int>>, starts: seq<int>, least: int, mid: int, most: int)
    requires least <= mid < 0 <= most && forall t | t in starts :: t <= mid || 0 <= t
    ensures Fold(Plus, v, StartRows(rows, starts, least, most)) ==
            Fold(Plus, v, StartRows(rows, starts, least, mid)) + Fold(Plus, 0, StartRows(rows, starts, 0, most))
  {
    if rows != [] {
      var before, row := rows[..|rows| - 1], rows[|rows| - 1];
      FoldSplits(v, before, starts, least, mid, most);
      FoldOneMore(Plus, v, StartRows(before, starts, least, most), row.value);
      FoldOneMore(Plus, v, StartRows(before, starts, least, mid), row.value);
      FoldOneMore(Plus, 0, StartRows(before, starts, 0, most), row.value);
    }
  }

  /**
    A bucket's merged value is the sum of all changes before the bucket ends, less those of the buckets that start before
    time 0, which are never scanned.
   */
  lemma UnitsAtEnd(rows: seq<Row<int>>, changes: seq<Change>, timestamps: seq<int>, i: nat)
    requires Increasing(timestamps) && i < |timestamps| - 1 && IsGrouped(rows, changes, timestamps)
    ensures Saved(Plus, SumBefore(changes, timestamps[0]), 0, rows, timestamps[..|timestamps| - 1], i) ==
            Units(changes, timestamps, i)
  {
    var starts, b := timestamps[..|timestamps| - 1], Unscanned(timestamps, i);
    var v := SumBefore(changes, timestamps[0]);
    SumsAdd(changes, timestamps[0], timestamps[b]);
    if b == 0 {
      NoneIn(changes, timestamps[0], timestamps[0]);
      SavedIsWanted(Plus, v, 0, rows, starts, i);
      WantedUnits(rows, changes, timestamps, i);
    } else if b <= i {
      WantedUnits(rows, changes, timestamps, i);
      WantedUnits(rows, changes, timestamps, b - 1);
      SavedWithoutFirst(v, rows, starts, b, i);
    }
  }

  /** The first `b` buckets start before time 0: what they should save is missing later. */
  lemma SavedWithoutFirst(v: int, rows: seq<Row<int>>, starts: seq<int>, b: nat, i: nat)
    requires Increasing(starts) && 0 < b <= i < |starts|
    requires starts[b - 1] < 0 <= starts[b]
    ensures Saved(Plus, v, 0, rows, starts, i) == v + Wanted(Plus, v, rows, starts, i) - Wanted(Plus, v, rows, starts, b - 1)
  {
    forall t | t in starts
      ensures t <= starts[b - 1] || 0 <= t
    {
      var k :| 0 <= k < |starts| && starts[k] == t;
    }
    FoldSplits(v, rows, starts, starts[0], starts[b - 1], starts[i]);
    FoldPlus(v, StartRows(rows, starts, 0, starts[i]));
  }

  /** The history is right for all changes exactly when no bucket starts before time 0. */
  lemma UnitsAreExactIff(timestamps: seq<int>, i: nat)
    requires Increasing(timestamps) && i < |timestamps| - 1
    ensures (forall changes :: Units(changes, timestamps, i) == SumBefore(changes, timestamps[i + 1])) <==> timestamps[0] >= 0
  {
    if timestamps[0] >= 0 {
      forall changes
        ensures Units(changes, timestamps, i) == SumBefore(changes, timestamps[i + 1])
      {
        NoneIn(changes, timestamps[0], timestamps[0]);
      }
    } else {
      var changes, b := [Change(timestamps[0], 1)], Unscanned(timestamps, i);
      assert changes[..0] == [] && timestamps[0] < timestamps[b];
      assert SumIn(changes, timestamps[0], timestamps[b]) == 1;
      assert Units(changes, timestamps, i) != SumBefore(changes, timestamps[i + 1]);
    }
  }

  /** The rows the grouping query answers, and the total before the first bucket. */
  datatype UnitsAnswer = UnitsAnswer(before: int, rows: seq<Row<int>>)

  ghost predicate IsUnitsAnswer(a: UnitsAnswer, changes: seq<Change>, timestamps: seq<int>)
    requires |timestamps| > 0
  {
    a.before == SumBefore(changes, timestamps[0]) && IsGrouped(a.rows, changes, timestamps)
  }

  /** bucketedUnitChanges */
  method BucketedUnitChanges(timestamps: seq<int>, a: UnitsAnswer, ghost changes: seq<Change>)
      returns (before: int, units: array<int>)
    requires |timestamps| > 0 && Increasing(timestamps) && IsUnitsAnswer(a, changes, timestamps)
    ensures before == SumBefore(changes, timestamps[0])
    ensures fresh(units) && units.Length == |timestamps| - 1
    ensures forall i | 0 <= i < units.Length :: units[i] == Units(changes, timestamps, i)
  {
    before := a.before;
    var saved := QueryBucketed(timestamps, a.rows, Plus, before, 0);
    units := new int[|timestamps| - 1](i requires 0 <= i < |saved| => saved[i]);
    forall i | 0 <= i < units.Length
      ensures units[i] == Units(changes, timestamps, i)
    {
      UnitsAtEnd(a.rows, changes, timestamps, i);
    }
  }

  /** PoolLiquidityUnitsHistory: deposits minus withdrawals before the start, and before the end of every bucket. */
  method PoolLiquidityUnitsHistory(timestamps: seq<int>, stakes: UnitsAnswer, withdraws: UnitsAnswer,
                                   ghost deposited: seq<Change>, ghost withdrawn: seq<Change>)
      returns (before: int, units: array<int>)
    requires |timestamps| > 0 && Increasing(timestamps)
    requires IsUnitsAnswer(stakes, deposited, timestamps) && IsUnitsAnswer(withdraws, withdrawn, timestamps)
    ensures before == SumBefore(deposited, timestamps[0]) - SumBefore(withdrawn, timestamps[0])
    ensures units.Length == |timestamps| - 1
    ensures forall i | 0 <= i < units.Length ::
        units[i] == Units(deposited, timestamps, i) - Units(withdrawn, timestamps, i)
  {
    var beforeStake, ret := BucketedUnitChanges(timestamps, stakes, deposited);
    var beforeWithdraw, minus := BucketedUnitChanges(timestamps, withdraws, withdrawn);
    for i := 0 to ret.Length
      invariant forall k | 0 <= k < i ::
          ret[k] == Units(deposited, timestamps, k) - Units(withdrawn, timestamps, k)
      invariant forall k | i <= k < ret.Length :: ret[k] == Units(deposited, timestamps, k)
      invariant forall k | 0 <= k < minus.Length :: minus[k] == Units(withdrawn, timestamps, k)
    {
      ret[i] := ret[i] - minus[i];
    }
    before, units := beforeStake - beforeWithdraw, ret;
  }

  function UnitsOf<P>(m: map<P, int>, pool: P): int { if pool in m then m[pool] else 0 }

  ghost predicate IsDifference<P(!new)>(units: map<P, int>, stakes: map<P, int>, withdraws: map<P, int>) {
    && units.Keys == stakes.Keys + withdraws.Keys
    && forall pool :: UnitsOf(units, pool) == UnitsOf(stakes, pool) - UnitsOf(withdraws, pool)
  }

  lemma OneLess<P(!new)>(units: map<P, int>, stakes: map<P, int>, withdraws: map<P, int>, rest: set<P>, k: P)
    requires k in rest && k in withdraws
    requires IsDifference(units, stakes, withdraws - rest)
    ensures IsDifference(units[k := UnitsOf(units, k) - withdraws[k]], stakes, withdraws - (rest - {k}))
  {
    assert withdraws - (rest - {k}) == (withdraws - rest)[k := withdraws[k]];
    assert k !in withdraws - rest;
  }

  /** PoolsLiquidityUnitsBefore: pools with withdrawals only get a negative entry. */
  method PoolsLiquidityUnitsBefore<P(!new, ==)>(stakes: map<P, int>, withdraws: map<P, int>) returns (units: map<P, int>)
    ensures IsDifference(units, stakes, withdraws)
  {
    units := stakes;
    var rest := withdraws.Keys;
    assert withdraws - rest == map[];
    while rest != {}
      invariant rest <= withdraws.Keys
      invariant IsDifference(units, stakes, withdraws - rest)
      decreases |rest|
    {
      var k :| k in rest;
      OneLess(units, stakes, withdraws, rest, k);
      units := units[k := UnitsOf(units, k) - withdraws[k]];
      rest := rest - {k};
    }
    assert withdraws - rest == withdraws;
  }
}
