/**
  The views of longer intervals (`createContinuousView`, `createHigherView`) and the queries over them (`BucketedQuery`) in
  internal/db/aggregates.go.

  A week, month, quarter or year view reads the day view `d`, which has a column `aggregate_timestamp`, and names its own
  truncated time `aggregate_timestamp` as well. Where a GROUP BY name could be either, PostgreSQL takes the input column:
  the view has one row for each key and day, stamped with the start of the period.
 */
module IntervalViews {
  import opened Aggregates
  import opened AggregateQueries

  /** A calendar truncation: the start of the period an instant lies in. */
  ghost predicate IsTruncation(g: Bucketing) {
    && Monotone(g)
    && forall t :: g(t) <= t && g(g(t)) == g(t)
  }

  /** The boundaries of the periods are days. */
  ghost predicate DayAligned(g: Bucketing) {
    Coarser(DayBucket(), g)
  }

  /** A view of one interval as one would have it: each row aggregates a period and is stamped with its start. */
  ghost predicate IsView(cols: seq<Column>, source: seq<Row>, g: Bucketing, view: seq<Row>) {
    && IsGrouping(cols, source, All(), g, view)
    && forall o | o in view :: g(o.ts) == o.ts
  }

  /** GROUP BY d.aggregate_timestamp */
  function ByTime(): Bucketing { t => t }

  /** SELECT ..., nano_trunc(period, aggregate_timestamp) */
  function Stamped(rows: seq<Row>, g: Bucketing): seq<Row> {
    seq(|rows|, i requires 0 <= i < |rows| => rows[i].(ts := g(rows[i].ts)))
  }

  /** What `createHigherView` creates: grouped by the day view's times, and then stamped. */
  ghost predicate IsHigherView(cols: seq<Column>, day: seq<Row>, g: Bucketing, view: seq<Row>) {
    exists grouped :: IsGrouping(cols, day, All(), ByTime(), grouped) && view == Stamped(grouped, g)
  }

  /** No key has selected rows on two days of one period. */
  ghost predicate OneDayPerPeriod(rows: seq<Row>, sel: Selection, g: Bucketing) {
    forall r, q | r in rows && q in rows && r.key == q.key && sel(r.key, r.ts) && sel(q.key, q.ts) ::
      g(r.ts) == g(q.ts) ==> DayOf(r.ts) == DayOf(q.ts)
  }

  // ---------------------------------------------------------------------------------------------
  // Grouping by day and stamping

  lemma DaysAreTruncations()
    ensures IsTruncation(DayBucket())
  {
    DaysAreMonotone();
    forall t: int
      ensures DayBucket()(t) <= t && DayBucket()(DayBucket()(t)) == DayBucket()(t)
    {
      DayWithin(t);
    }
  }

  /** Grouping the day view by its times gives a day view again. */
  lemma GroupedDays(cols: seq<Column>, rows: seq<Row>, day: seq<Row>, grouped: seq<Row>)
    requires IsDayView(cols, rows, day) && IsGrouping(cols, day, All(), ByTime(), grouped)
    ensures IsDayView(cols, rows, grouped)
  {
    forall o | o in grouped
      ensures DayOf(o.ts) == o.ts
    {
      var r :| r in day && InClass(All(), ByTime(), o.key, ByTime()(o.ts), r);
    }
    assert OncePerClass(ByTime(), grouped);
    assert OncePerClass(DayBucket(), grouped);
    Relabel(cols, day, All(), ByTime(), All(), DayBucket(), grouped);
    DaysAreMonotone();
    GroupingsCompose(cols, rows, All(), All(), All(), DayBucket(), DayBucket(), day, grouped);
  }

  lemma DaysOf(cols: seq<Column>, rows: seq<Row>, day: seq<Row>, g: Bucketing, view: seq<Row>) returns (days: seq<Row>)
    requires IsDayView(cols, rows, day) && IsHigherView(cols, day, g, view)
    ensures IsDayView(cols, rows, days) && view == Stamped(days, g)
  {
    days :| IsGrouping(cols, day, All(), ByTime(), days) && view == Stamped(days, g);
    GroupedDays(cols, rows, day, days);
  }

  /** With one day for each period, grouping by day is grouping by period. */
  lemma DaysAsPeriods(cols: seq<Column>, rows: seq<Row>, sel: Selection, g: Bucketing, days: seq<Row>)
    requires IsGrouping(cols, rows, sel, DayBucket(), days) && DayAligned(g)
    requires OneDayPerPeriod(rows, sel, g)
    ensures IsGrouping(cols, rows, sel, g, days)
  {
    forall r, o | r in rows && o in days && sel(r.key, r.ts) && r.key == o.key
      ensures DayBucket()(r.ts) == DayBucket()(o.ts) <==> g(r.ts) == g(o.ts)
    {
      var q :| q in rows && InClass(sel, DayBucket(), o.key, DayBucket()(o.ts), q);
    }
    forall i, j | 0 <= i < j < |days|
      ensures days[i].key != days[j].key || g(days[i].ts) != g(days[j].ts)
    {
      assert days[i] in days && days[j] in days;
      var q :| q in rows && InClass(sel, DayBucket(), days[i].key, DayBucket()(days[i].ts), q);
      var r :| r in rows && InClass(sel, DayBucket(), days[j].key, DayBucket()(days[j].ts), r);
    }
    Relabel(cols, rows, sel, DayBucket(), sel, g, days);
  }

  lemma StampingKeepsGrouping(cols: seq<Column>, rows: seq<Row>, sel: Selection, g: Bucketing, days: seq<Row>)
    requires IsGrouping(cols, rows, sel, g, days) && IsTruncation(g)
    ensures IsGrouping(cols, rows, sel, g, Stamped(days, g))
  {
    var view := Stamped(days, g);
    forall r | r in rows && sel(r.key, r.ts)
      ensures HasClass(g, view, r.key, g(r.ts))
    {
      var i :| 0 <= i < |days| && days[i].key == r.key && g(days[i].ts) == g(r.ts);
      assert view[i] in view;
    }
    forall o | o in view
      ensures exists i | 0 <= i < |days| :: o == days[i].(ts := g(days[i].ts)) && g(o.ts) == g(days[i].ts)
    {
      var i :| 0 <= i < |view| && view[i] == o;
    }
  }

  lemma TwoDaysTwoRows(days: seq<Row>, g: Bucketing, key: Key, a: int, b: int)
    requires IsTruncation(g) && DayAligned(g)
    requires HasClass(DayBucket(), days, key, DayBucket()(a)) && HasClass(DayBucket(), days, key, DayBucket()(b))
    requires g(a) == g(b) && DayOf(a) != DayOf(b)
    ensures !OncePerClass(g, Stamped(days, g))
  {
    var i :| 0 <= i < |days| && days[i].key == key && DayBucket()(days[i].ts) == DayBucket()(a);
    var j :| 0 <= j < |days| && days[j].key == key && DayBucket()(days[j].ts) == DayBucket()(b);
    assert g(days[i].ts) == g(a) && g(days[j].ts) == g(b);
    var view := Stamped(days, g);
    assert view[i].key == view[j].key && g(view[i].ts) == g(view[j].ts);
  }

  /** Rows grouped by day and stamped by period are the aggregate of the periods only where each has one day. */
  lemma StampedMeaningIff(cols: seq<Column>, rows: seq<Row>, sel: Selection, g: Bucketing, days: seq<Row>)
    requires IsGrouping(cols, rows, sel, DayBucket(), days) && IsTruncation(g) && DayAligned(g)
    ensures IsGrouping(cols, rows, sel, g, Stamped(days, g)) <==> OneDayPerPeriod(rows, sel, g)
  {
    if OneDayPerPeriod(rows, sel, g) {
      DaysAsPeriods(cols, rows, sel, g, days);
      StampingKeepsGrouping(cols, rows, sel, g, days);
    } else {
      var r, q :| r in rows && q in rows && r.key == q.key && sel(r.key, r.ts) && sel(q.key, q.ts)
        && g(r.ts) == g(q.ts) && DayOf(r.ts) != DayOf(q.ts);
      TwoDaysTwoRows(days, g, r.key, r.ts, q.ts);
    }
  }

  lemma StampsAreStarts(days: seq<Row>, g: Bucketing)
    requires IsTruncation(g)
    ensures forall o | o in Stamped(days, g) :: g(o.ts) == o.ts
  {
  }

  /** A week, month, quarter or year view is the view of its periods exactly when no key has two days in one of them. */
  lemma HigherViewMeaningIff(cols: seq<Column>, rows: seq<Row>, day: seq<Row>, g: Bucketing, view: seq<Row>)
    requires IsDayView(cols, rows, day) && IsHigherView(cols, day, g, view)
    requires IsTruncation(g) && DayAligned(g)
    ensures IsView(cols, rows, g, view) <==> OneDayPerPeriod(rows, All(), g)
  {
    var days := DaysOf(cols, rows, day, g, view);
    StampedMeaningIff(cols, rows, All(), g, days);
    StampsAreStarts(days, g);
  }

  // ---------------------------------------------------------------------------------------------
  // Selecting whole periods

  /** The selection of the periodic branch of `BucketedQuery`, on the times of raw rows. */
  ghost function Span(filter: Key -> bool, start: int, end: int): Selection {
    (k: Key, t: int) => filter(k) && start <= t < end
  }

  /** SELECT * FROM view WHERE ... */
  function SelectRows(view: seq<Row>, filter: Key -> bool, start: int, end: int): (out: seq<Row>)
    ensures forall o :: o in out <==> o in view && filter(o.key) && start <= o.ts < end
  {
    if view == [] then []
    else
      var rest, o := SelectRows(view[..|view| - 1], filter, start, end), view[|view| - 1];
      if filter(o.key) && start <= o.ts < end then rest + [o] else rest
  }

  lemma {:induction false} SelectionKeepsClasses(view: seq<Row>, filter: Key -> bool, start: int, end: int, g: Bucketing)
    requires OncePerClass(g, view)
    ensures OncePerClass(g, SelectRows(view, filter, start, end))
  {
    if view != [] {
      var rest, o := view[..|view| - 1], view[|view| - 1];
      SelectionKeepsClasses(rest, filter, start, end, g);
      forall x | x in SelectRows(rest, filter, start, end)
        ensures x.key != o.key || g(x.ts) != g(o.ts)
      {
        var i :| 0 <= i < |rest| && rest[i] == x;
        assert view[i] == x;
      }
    }
  }

  /** Selecting whole periods from a view aggregates just their rows. */
  lemma {:induction false} PeriodicQueryMeaning(cols: seq<Column>, rows: seq<Row>, g: Bucketing, view: seq<Row>, filter: Key -> bool,
                                                start: int, end: int)
    requires IsView(cols, rows, g, view) && IsTruncation(g)
    requires g(start) == start && g(end) == end
    ensures IsGrouping(cols, rows, Span(filter, start, end), g, SelectRows(view, filter, start, end))
  {
    var sel, out := Span(filter, start, end), SelectRows(view, filter, start, end);
    SelectionKeepsClasses(view, filter, start, end, g);
    forall t: int
      ensures start <= t < end <==> start <= g(t) < end
    {
      SpanOfStart(g, start, end, t);
    }
    forall r | r in rows && sel(r.key, r.ts)
      ensures HasClass(g, out, r.key, g(r.ts))
    {
      assert HasClass(g, view, r.key, g(r.ts));
      var o :| o in view && o.key == r.key && g(o.ts) == g(r.ts);
      assert o in out;
    }
    forall o | o in out
      ensures Inhabited(rows, sel, g, o.key, g(o.ts))
      ensures forall c | 0 <= c < |cols| :: IsValue(cols[c], rows, sel, g, o.key, g(o.ts), c, o.vals[c])
    {
      var w :| w in rows && InClass(All(), g, o.key, g(o.ts), w);
      assert InClass(sel, g, o.key, g(o.ts), w);
      forall c | 0 <= c < |cols|
        ensures IsValue(cols[c], rows, sel, g, o.key, g(o.ts), c, o.vals[c])
      {
        SameClass(cols[c], rows, All(), g, sel, g, o.key, g(o.ts), g(o.ts), c, o.vals[c]);
      }
    }
  }

  lemma {:induction false} SelectStamped(days: seq<Row>, g: Bucketing, filter: Key -> bool, start: int, end: int)
    requires IsTruncation(g) && g(start) == start && g(end) == end
    ensures SelectRows(Stamped(days, g), filter, start, end) == Stamped(SelectRows(days, filter, start, end), g)
  {
    if days != [] {
      var n := |days| - 1;
      SelectStamped(days[..n], g, filter, start, end);
      StampLast(days, g);
      StampLast(SelectRows(days[..n], filter, start, end) + [days[n]], g);
      SpanOfStart(g, start, end, days[n].ts);
      var stamped := days[n].(ts := g(days[n].ts));
      SelectLast(Stamped(days[..n], g), stamped, filter, start, end);
    }
  }

  lemma StampLast(days: seq<Row>, g: Bucketing)
    requires days != []
    ensures var n := |days| - 1; Stamped(days, g) == Stamped(days[..n], g) + [days[n].(ts := g(days[n].ts))]
  {
  }

  lemma SelectLast(view: seq<Row>, o: Row, filter: Key -> bool, start: int, end: int)
    ensures var rest := SelectRows(view, filter, start, end);
            SelectRows(view + [o], filter, start, end) == if filter(o.key) && start <= o.ts < end then rest + [o] else rest
  {
    assert (view + [o])[..|view|] == view;
  }

  /** A time lies between starts of periods exactly when the start of its period does. */
  lemma SpanOfStart(g: Bucketing, start: int, end: int, t: int)
    requires IsTruncation(g) && g(start) == start && g(end) == end
    ensures start <= t < end <==> start <= g(t) < end
  {
    assert start <= t ==> g(start) <= g(t);
    assert end <= t ==> g(end) <= g(t);
  }

  lemma PeriodsStartDays(g: Bucketing, t: int)
    requires IsTruncation(g) && DayAligned(g) && g(t) == t
    ensures DayOf(t) == t
  {
    DayWithin(t);
    assert DayBucket()(DayOf(t)) == DayBucket()(t);
  }

  /** Selecting whole periods from a longer view: right exactly when no key has two selected days in one of them. */
  lemma HigherQueryMeaningIff(cols: seq<Column>, rows: seq<Row>, day: seq<Row>, g: Bucketing, view: seq<Row>,
                              filter: Key -> bool, start: int, end: int)
    requires IsDayView(cols, rows, day) && IsHigherView(cols, day, g, view)
    requires IsTruncation(g) && DayAligned(g) && g(start) == start && g(end) == end
    ensures IsGrouping(cols, rows, Span(filter, start, end), g, SelectRows(view, filter, start, end)) <==>
            OneDayPerPeriod(rows, Span(filter, start, end), g)
  {
    var days := DaysOf(cols, rows, day, g, view);
    DaysAreTruncations();
    PeriodsStartDays(g, start);
    PeriodsStartDays(g, end);
    PeriodicQueryMeaning(cols, rows, DayBucket(), days, filter, start, end);
    SelectStamped(days, g, filter, start, end);
    StampedMeaningIff(cols, rows, Span(filter, start, end), g, SelectRows(days, filter, start, end));
  }

  // ---------------------------------------------------------------------------------------------
  // Aggregating once more

  /** Columns whose aggregate does not look at times. */
  predicate OrderFree(cols: seq<Column>) {
    forall c | 0 <= c < |cols| :: cols[c] != First && cols[c] != Last
  }

  /** Neither the selection nor the grouping tells the row's time from the start of its period. */
  ghost predicate IsUnmoved(g: Bucketing, sel: Selection, h: Bucketing, r: Row) {
    sel(r.key, g(r.ts)) == sel(r.key, r.ts) && h(g(r.ts)) == h(r.ts)
  }

  lemma {:induction false} SumOfStamped(days: seq<Row>, g: Bucketing, sel: Selection, h: Bucketing, key: Key, bucket: int, c: nat)
    requires forall r | r in days :: c < |r.vals|
    requires forall r | r in days :: IsUnmoved(g, sel, h, r)
    ensures SumOf(Stamped(days, g), sel, h, key, bucket, c) == SumOf(days, sel, h, key, bucket, c)
  {
    if days != [] {
      var n := |days| - 1;
      assert days[n] in days && forall r | r in days[..n] :: r in days;
      SumOfStamped(days[..n], g, sel, h, key, bucket, c);
      assert Stamped(days, g)[..n] == Stamped(days[..n], g);
    }
  }

  /** A value over the stamped rows is one over the rows themselves, unless times decide it. */
  lemma ValueOfStamped(col: Column, days: seq<Row>, g: Bucketing, sel: Selection, h: Bucketing, key: Key, bucket: int, c: nat,
                       v: int)
    requires forall r | r in days :: c < |r.vals|
    requires forall r | r in days :: IsUnmoved(g, sel, h, r)
    requires col != First && col != Last
    requires IsValue(col, Stamped(days, g), sel, h, key, bucket, c, v)
    ensures IsValue(col, days, sel, h, key, bucket, c, v)
  {
    var view := Stamped(days, g);
    if col == Sum {
      SumOfStamped(days, g, sel, h, key, bucket, c);
    } else {
      var w :| w in view && InClass(sel, h, key, bucket, w) && w.vals[c] == v
        && forall r | r in view && InClass(sel, h, key, bucket, r) :: Beats(col, c, w, r);
      var i :| 0 <= i < |view| && view[i] == w;
      assert days[i] in days && IsUnmoved(g, sel, h, days[i]);
      assert InClass(sel, h, key, bucket, days[i]);
      forall r | r in days && InClass(sel, h, key, bucket, r)
        ensures Beats(col, c, days[i], r)
      {
        var j :| 0 <= j < |days| && days[j] == r;
        assert IsUnmoved(g, sel, h, r);
        assert view[j] in view && InClass(sel, h, key, bucket, view[j]);
      }
    }
  }

  lemma GroupingOfStamped(cols: seq<Column>, days: seq<Row>, g: Bucketing, sel: Selection, h: Bucketing, out: seq<Row>)
    requires WellTyped(cols, days) && OrderFree(cols)
    requires forall r | r in days :: IsUnmoved(g, sel, h, r)
    requires IsGrouping(cols, Stamped(days, g), sel, h, out)
    ensures IsGrouping(cols, days, sel, h, out)
  {
    var view := Stamped(days, g);
    forall r | r in days && sel(r.key, r.ts)
      ensures HasClass(h, out, r.key, h(r.ts))
    {
      var i :| 0 <= i < |days| && days[i] == r;
      assert IsUnmoved(g, sel, h, r) && view[i] in view;
    }
    forall o | o in out
      ensures Inhabited(days, sel, h, o.key, h(o.ts))
    {
      var w :| w in view && InClass(sel, h, o.key, h(o.ts), w);
      var i :| 0 <= i < |view| && view[i] == w;
      assert days[i] in days && IsUnmoved(g, sel, h, days[i]);
      assert InClass(sel, h, o.key, h(o.ts), days[i]);
    }
    forall o, c | o in out && 0 <= c < |cols|
      ensures IsValue(cols[c], days, sel, h, o.key, h(o.ts), c, o.vals[c])
    {
      ValueOfStamped(cols[c], days, g, sel, h, o.key, h(o.ts), c, o.vals[c]);
    }
  }

  lemma DaysAreFiner(g: Bucketing, sel: Selection, h: Bucketing)
    requires DayAligned(g) && Coarser(g, h) && Respects(g, sel)
    ensures Coarser(DayBucket(), h) && Respects(DayBucket(), sel)
  {
    forall a, b | DayBucket()(a) == DayBucket()(b)
      ensures h(a) == h(b)
    {
      assert g(a) == g(b);
    }
    forall k, a, b | DayBucket()(a) == DayBucket()(b)
      ensures sel(k, a) == sel(k, b)
    {
      assert g(a) == g(b);
    }
  }

  /** Aggregating a longer view once more, over whole periods, restores the aggregate of the raw rows. */
  lemma RegroupingRestores(cols: seq<Column>, rows: seq<Row>, day: seq<Row>, g: Bucketing, view: seq<Row>, sel: Selection,
                           h: Bucketing, out: seq<Row>)
    requires IsDayView(cols, rows, day) && IsHigherView(cols, day, g, view)
    requires IsTruncation(g) && DayAligned(g)
    requires OrderFree(cols) && Coarser(g, h) && Respects(g, sel)
    requires IsGrouping(cols, view, sel, h, out)
    ensures IsGrouping(cols, rows, sel, h, out)
  {
    var days := DaysOf(cols, rows, day, g, view);
    forall r | r in days
      ensures IsUnmoved(g, sel, h, r)
    {
      assert g(g(r.ts)) == g(r.ts);
    }
    GroupingOfStamped(cols, days, g, sel, h, out);
    DaysAreFiner(g, sel, h);
    DaysAreMonotone();
    GroupingsCompose(cols, rows, All(), sel, sel, DayBucket(), h, days, out);
  }

  /** For all tables, grouping the longer view by its stamps gives the aggregate of the periods. */
  ghost predicate RegroupingIsExact(cols: seq<Column>, g: Bucketing) {
    forall rows, day, view, out |
      IsDayView(cols, rows, day) && IsHigherView(cols, day, g, view) && IsGrouping(cols, view, All(), g, out) ::
      IsGrouping(cols, rows, All(), g, out)
  }

  function Constant(cols: seq<Column>, v: int): seq<int> { seq(|cols|, i => v) }

  /** The values of two rows, all 0 and all 1, grouped as one - with first and last the wrong way round. */
  function Confused(cols: seq<Column>): seq<int> {
    seq(|cols|, i requires 0 <= i < |cols| => if cols[i] == Min || cols[i] == Last then 0 else 1)
  }

  lemma SumOfTwo(r: Row, q: Row, sel: Selection, f: Bucketing, key: Key, bucket: int, c: nat)
    requires c < |r.vals| && c < |q.vals|
    ensures SumOf([r, q], sel, f, key, bucket, c) ==
            (if InClass(sel, f, key, bucket, r) then r.vals[c] else 0) +
            (if InClass(sel, f, key, bucket, q) then q.vals[c] else 0)
  {
    var one := [r];
    assert [r, q][..1] == one && one[..0] == [];
    assert SumOf(one, sel, f, key, bucket, c) == if InClass(sel, f, key, bucket, r) then r.vals[c] else 0;
  }

  /** Two rows in different classes are their own groups. */
  lemma OwnGroups(cols: seq<Column>, r: Row, q: Row, f: Bucketing)
    requires WellTyped(cols, [r, q]) && f(r.ts) != f(q.ts)
    ensures IsGrouping(cols, [r, q], All(), f, [r, q])
  {
    forall o, c | o in [r, q] && 0 <= c < |cols|
      ensures IsValue(cols[c], [r, q], All(), f, o.key, f(o.ts), c, o.vals[c])
    {
      SumOfTwo(r, q, All(), f, o.key, f(o.ts), c);
      assert InClass(All(), f, o.key, f(o.ts), o);
    }
    assert InClass(All(), f, r.key, f(r.ts), r) && InClass(All(), f, q.key, f(q.ts), q);
  }

  /** With equal times, either row's value is a first and a last one. */
  lemma ConfusedGroup(cols: seq<Column>, key: Key, t: int, g: Bucketing)
    ensures var r, q, o := Row(key, t, Constant(cols, 0)), Row(key, t, Constant(cols, 1)), Row(key, t, Confused(cols));
            IsGrouping(cols, [r, q], All(), g, [o])
  {
    var r, q, o := Row(key, t, Constant(cols, 0)), Row(key, t, Constant(cols, 1)), Row(key, t, Confused(cols));
    assert InClass(All(), g, key, g(t), r) && InClass(All(), g, key, g(t), q);
    assert r in [r, q] && q in [r, q] && o in [o];
    forall c | 0 <= c < |cols|
      ensures IsValue(cols[c], [r, q], All(), g, key, g(t), c, o.vals[c])
    {
      SumOfTwo(r, q, All(), g, key, g(t), c);
    }
  }

  lemma NotFirstOrLast(cols: seq<Column>, r: Row, q: Row, o: Row, g: Bucketing)
    requires WellTyped(cols, [r, q, o]) && !OrderFree(cols)
    requires r.key == q.key == o.key && r.ts < q.ts && g(r.ts) == g(q.ts) == g(o.ts)
    requires r.vals == Constant(cols, 0) && q.vals == Constant(cols, 1) && o.vals == Confused(cols)
    ensures !IsGrouping(cols, [r, q], All(), g, [o])
  {
    var c :| 0 <= c < |cols| && (cols[c] == First || cols[c] == Last);
    assert InClass(All(), g, o.key, g(o.ts), r) && InClass(All(), g, o.key, g(o.ts), q);
    assert r in [r, q] && q in [r, q] && o in [o];
    assert !IsValue(cols[c], [r, q], All(), g, o.key, g(o.ts), c, o.vals[c]);
  }

  /** Two rows on two days of one period: their day view, and the longer view over it. */
  lemma TwoDayViews(cols: seq<Column>, g: Bucketing, r: Row, q: Row)
    requires WellTyped(cols, [r, q])
    requires DayOf(r.ts) == r.ts < q.ts == DayOf(q.ts)
    ensures IsDayView(cols, [r, q], [r, q])
    ensures IsHigherView(cols, [r, q], g, [r.(ts := g(r.ts)), q.(ts := g(q.ts))])
  {
    OwnGroups(cols, r, q, DayBucket());
    TwoRowView(cols, g, r, q);
  }

  lemma TwoRowView(cols: seq<Column>, g: Bucketing, r: Row, q: Row)
    requires WellTyped(cols, [r, q]) && r.ts < q.ts
    ensures IsHigherView(cols, [r, q], g, [r.(ts := g(r.ts)), q.(ts := g(q.ts))])
  {
    OwnGroups(cols, r, q, ByTime());
    assert Stamped([r, q], g) == [r.(ts := g(r.ts)), q.(ts := g(q.ts))];
  }

  lemma Restored(cols: seq<Column>, g: Bucketing, rows: seq<Row>, day: seq<Row>, view: seq<Row>, out: seq<Row>)
    requires RegroupingIsExact(cols, g)
    requires IsDayView(cols, rows, day) && IsHigherView(cols, day, g, view) && IsGrouping(cols, view, All(), g, out)
    ensures IsGrouping(cols, rows, All(), g, out)
  {
  }

  lemma RegroupingConfuses(cols: seq<Column>, g: Bucketing, a: int, b: int)
    requires IsTruncation(g) && !OrderFree(cols)
    requires DayOf(a) == a < b == DayOf(b) && g(a) == g(b)
    ensures !RegroupingIsExact(cols, g)
  {
    var r, q := Row([], a, Constant(cols, 0)), Row([], b, Constant(cols, 1));
    var o := Row([], g(a), Confused(cols));
    TwoDayViews(cols, g, r, q);
    ConfusedGroup(cols, [], g(a), g);
    NotFirstOrLast(cols, r, q, o, g);
    if RegroupingIsExact(cols, g) {
      Restored(cols, g, [r, q], [r, q], [r.(ts := g(r.ts)), q.(ts := g(q.ts))], [o]);
    }
  }

  /** Grouping a longer view by its stamps repairs it for all tables exactly when no column is a first or a last one. */
  lemma RegroupingIsExactIff(cols: seq<Column>, g: Bucketing, a: int, b: int)
    requires IsTruncation(g) && DayAligned(g)
    requires DayOf(a) == a < b == DayOf(b) && g(a) == g(b)
    ensures RegroupingIsExact(cols, g) <==> OrderFree(cols)
  {
    if OrderFree(cols) {
      forall rows, day, view, out |
        IsDayView(cols, rows, day) && IsHigherView(cols, day, g, view) && IsGrouping(cols, view, All(), g, out)
        ensures IsGrouping(cols, rows, All(), g, out)
      {
        RegroupingRestores(cols, rows, day, g, view, All(), g, out);
      }
    } else {
      RegroupingConfuses(cols, g, a, b);
    }
  }

  /** A table whose longer view is not the view of its periods: one key with rows on two days of one of them. */
  lemma TwoDaysInOnePeriod(g: Bucketing, a: int, b: int)
    requires IsTruncation(g) && DayAligned(g)
    requires DayOf(a) == a < b == DayOf(b) && g(a) == g(b)
    ensures var r, q := Row([], a, [1]), Row([], b, [2]);
            var view := [Row([], g(a), [1]), Row([], g(a), [2])];
            IsDayView([Sum], [r, q], [r, q]) && IsHigherView([Sum], [r, q], g, view) && !IsView([Sum], [r, q], g, view)
  {
    var r, q := Row([], a, [1]), Row([], b, [2]);
    TwoDayViews([Sum], g, r, q);
    var view := [Row([], g(a), [1]), Row([], g(a), [2])];
    assert !OncePerClass(g, view) by {
      assert view[0].key == view[1].key && g(view[0].ts) == g(view[1].ts);
    }
  }

  // ---------------------------------------------------------------------------------------------
  // BucketedQuery

  /** What `BucketedQuery` is asked for: one interval, or consecutive periods of an interval's view. */
  datatype Buckets =
    | OneInterval(start: int, end: int)
    | Periodic(period: int -> int, isExact: bool, start: int, end: int)

  /** The views of exact intervals are grouped by period, the others by day. */
  ghost predicate IsPeriodicAnswer(cols: seq<Column>, rows: seq<Row>, filter: Key -> bool, g: Bucketing, isExact: bool,
                                   start: int, end: int, answer: seq<Row>)
  {
    exists day, view ::
      AreViews(cols, rows, g, isExact, day, view) && answer == SelectRows(view, filter, start, end)
  }

  ghost predicate AreViews(cols: seq<Column>, rows: seq<Row>, g: Bucketing, isExact: bool, day: seq<Row>, view: seq<Row>) {
    && IsDayView(cols, rows, day)
    && if isExact then IsView(cols, rows, g, view) else IsHigherView(cols, day, g, view)
  }

  ghost predicate IsBucketedAnswer(cols: seq<Column>, rows: seq<Row>, filter: Key -> bool, b: Buckets, answer: seq<Row>) {
    match b
    case OneInterval(start, end) => IsUnionAnswer(cols, rows, filter, start, end, answer)
    case Periodic(g, isExact, start, end) => IsPeriodicAnswer(cols, rows, filter, g, isExact, start, end, answer)
  }

  ghost predicate ArePeriods(g: Bucketing, isExact: bool, start: int, end: int) {
    IsTruncation(g) && g(start) == start && g(end) == end && (isExact || DayAligned(g))
  }

  lemma SelectedMeaningIff(cols: seq<Column>, rows: seq<Row>, filter: Key -> bool, g: Bucketing, isExact: bool,
                           start: int, end: int, day: seq<Row>, view: seq<Row>)
    requires ArePeriods(g, isExact, start, end) && AreViews(cols, rows, g, isExact, day, view)
    ensures IsGrouping(cols, rows, Span(filter, start, end), g, SelectRows(view, filter, start, end)) <==>
            isExact || OneDayPerPeriod(rows, Span(filter, start, end), g)
  {
    if isExact {
      PeriodicQueryMeaning(cols, rows, g, view, filter, start, end);
    } else {
      HigherQueryMeaningIff(cols, rows, day, g, view, filter, start, end);
    }
  }

  /** The periodic branch: the aggregate of the periods exactly for exact intervals, or one day to each period. */
  lemma PeriodicAnswerMeaningIff(cols: seq<Column>, rows: seq<Row>, filter: Key -> bool, g: Bucketing, isExact: bool,
                                 start: int, end: int, answer: seq<Row>)
    requires ArePeriods(g, isExact, start, end)
    requires IsPeriodicAnswer(cols, rows, filter, g, isExact, start, end, answer)
    ensures IsGrouping(cols, rows, Span(filter, start, end), g, answer) <==>
            isExact || OneDayPerPeriod(rows, Span(filter, start, end), g)
  {
    var day, view :| AreViews(cols, rows, g, isExact, day, view) && answer == SelectRows(view, filter, start, end);
    SelectedMeaningIff(cols, rows, filter, g, isExact, start, end, day, view);
  }

  /** When a request is answered with what aggregating the raw rows of its window would give. */
  ghost predicate IsAnswerable(b: Buckets, rows: seq<Row>, filter: Key -> bool) {
    match b
    case OneInterval(start, end) => UnionIsExact(start, end)
    case Periodic(g, isExact, start, end) =>
      ArePeriods(g, isExact, start, end) && (isExact || OneDayPerPeriod(rows, Span(filter, start, end), g))
  }

  ghost predicate IsDirectAnswer(cols: seq<Column>, rows: seq<Row>, filter: Key -> bool, b: Buckets, answer: seq<Row>) {
    match b
    case OneInterval(start, end) => IsGrouping(cols, rows, Window(filter, start, end), Whole(), answer)
    case Periodic(g, _, start, end) => IsGrouping(cols, rows, Span(filter, start, end), g, answer)
  }

  /** Both branches of `BucketedQuery`. */
  lemma BucketedQueryMeaning(cols: seq<Column>, rows: seq<Row>, filter: Key -> bool, b: Buckets, answer: seq<Row>)
    requires Times(rows) && IsAnswerable(b, rows, filter) && IsBucketedAnswer(cols, rows, filter, b, answer)
    ensures IsDirectAnswer(cols, rows, filter, b, answer)
  {
    match b
    case OneInterval(start, end) =>
      ExactUnion(cols, rows, filter, start, end, answer);
    case Periodic(g, isExact, start, end) =>
      PeriodicAnswerMeaningIff(cols, rows, filter, g, isExact, start, end, answer);
  }
}
