/**
  The union of edges and whole days that an aggregate over an arbitrary interval is built from (`UnionQuery`).
 */
module AggregateQueries {
  import opened Aggregates
  import opened Options

  // ---------------------------------------------------------------------------------------------
  // Rounding to whole periods

  /** Integer division as Go computes it: truncated toward zero. */
  function GoDiv(a: int, b: int): int
    requires b > 0
  {
    if a >= 0 then a / b else -(-a / b)
  }

  function TimeBucketCeil(time: int, period: int): int
    requires period > 0
  {
    GoDiv(time + period - 1, period) * period
  }

  function TimeBucketFloor(time: int, period: int): int
    requires period > 0
  {
    GoDiv(time, period) * period
  }

  function DayOf(t: int): int { t / DAY * DAY }

  function DayBucket(): Bucketing { t => DayOf(t) }

  /** No time part in the GROUP BY clause. */
  function Whole(): Bucketing { t => 0 }

  function All(): Selection { (k, t) => true }

  // ---------------------------------------------------------------------------------------------
  // UnionQuery

  /** One SELECT of the union: over raw rows, or over the day view. */
  datatype Piece = RawRows(low: int, high: int) | DayRows(from: Option<int>, until: int)

  function UnionQuery(timeLow: int, timeHigh: int): (pieces: seq<Piece>) {
    var timeLowCeil := if timeLow > 0 then TimeBucketCeil(timeLow, DAY) else 0;
    var timeHighFloor := TimeBucketFloor(timeHigh, DAY);
    (if timeLow > 0 && timeLowCeil != timeLow then [RawRows(timeLow, timeLowCeil)] else [])
    + ((if timeHigh != timeHighFloor then [RawRows(timeHighFloor, timeHigh)] else [])
       + [DayRows(if timeLow > 0 then Some(timeLowCeil) else None, timeHighFloor)])
  }

  predicate InPiece(p: Piece, t: int) {
    match p
    case RawRows(low, high) => low <= t < high
    case DayRows(from, until) => t < until && (from.Some? ==> from.value <= t)
  }

  ghost function PieceRows(filter: Key -> bool, p: Piece): Selection {
    (k: Key, t: int) => filter(k) && InPiece(p, t)
  }

  /** The timestamp of each output row is the MIN over the rows of its group. */
  ghost predicate StampedByMin(rows: seq<Row>, sel: Selection, out: seq<Row>) {
    forall o | o in out ::
      && (exists r | r in rows :: r.key == o.key && r.ts == o.ts && sel(r.key, r.ts))
      && (forall r | r in rows && r.key == o.key && sel(r.key, r.ts) :: o.ts <= r.ts)
  }

  ghost predicate IsPieceResult(cols: seq<Column>, rows: seq<Row>, day: seq<Row>, filter: Key -> bool, p: Piece, out: seq<Row>) {
    var source := if p.RawRows? then rows else day;
    && IsGrouping(cols, source, PieceRows(filter, p), Whole(), out)
    && StampedByMin(source, PieceRows(filter, p), out)
  }

  /** UNION ALL. */
  ghost predicate IsUnionResult(cols: seq<Column>, rows: seq<Row>, day: seq<Row>, filter: Key -> bool, pieces: seq<Piece>,
                                out: seq<Row>)
  {
    if pieces == [] then out == []
    else
      exists n | 0 <= n <= |out| ::
        && IsPieceResult(cols, rows, day, filter, pieces[0], out[..n])
        && IsUnionResult(cols, rows, day, filter, pieces[1..], out[n..])
  }

  /** The `_day` view: a continuous aggregate, stamped with the first instant of the day. */
  ghost predicate IsDayView(cols: seq<Column>, rows: seq<Row>, day: seq<Row>) {
    && IsGrouping(cols, rows, All(), DayBucket(), day)
    && forall o | o in day :: DayOf(o.ts) == o.ts
  }

  /** Block times are never negative. */
  ghost predicate Times(rows: seq<Row>) {
    forall r | r in rows :: 0 <= r.ts
  }

  ghost function Window(filter: Key -> bool, timeLow: int, timeHigh: int): Selection {
    (k: Key, t: int) => filter(k) && (timeLow > 0 ==> timeLow <= t) && t < timeHigh
  }

  /** `answer` is a result of re-aggregating the union: what `BucketedQuery` selects from it. */
  ghost predicate IsUnionAnswer(cols: seq<Column>, rows: seq<Row>, filter: Key -> bool, timeLow: int, timeHigh: int, answer: seq<Row>) {
    exists day, uni ::
      && IsDayView(cols, rows, day)
      && IsUnionResult(cols, rows, day, filter, UnionQuery(timeLow, timeHigh), uni)
      && IsGrouping(cols, uni, All(), Whole(), answer)
  }

  predicate UnionIsExact(timeLow: int, timeHigh: int) {
    || timeLow <= 0
    || TimeBucketCeil(timeLow, DAY) <= TimeBucketFloor(timeHigh, DAY)
    || (TimeBucketCeil(timeLow, DAY) == timeLow && timeHigh <= TimeBucketFloor(timeHigh, DAY))
  }

  // ---------------------------------------------------------------------------------------------
  // Groupings that select the same rows

  lemma {:induction false} SameClass(col: Column, rows: seq<Row>, sel: Selection, f: Bucketing, sel': Selection, f': Bucketing,
                                     key: Key, b: int, b': int, c: nat, v: int)
    requires forall r | r in rows :: c < |r.vals|
    requires forall r | r in rows :: InClass(sel, f, key, b, r) == InClass(sel', f', key, b', r)
    ensures SumOf(rows, sel, f, key, b, c) == SumOf(rows, sel', f', key, b', c)
    ensures IsValue(col, rows, sel, f, key, b, c, v) ==> IsValue(col, rows, sel', f', key, b', c, v)
  {
    if rows != [] {
      SameClass(col, rows[..|rows| - 1], sel, f, sel', f', key, b, b', c, v);
    }
    if col != Sum && IsValue(col, rows, sel, f, key, b, c, v) {
      var w :| w in rows && InClass(sel, f, key, b, w) && w.vals[c] == v
        && forall r | r in rows && InClass(sel, f, key, b, r) :: Beats(col, c, w, r);
      assert InClass(sel', f', key, b', w);
      assert forall r | r in rows && InClass(sel', f', key, b', r) :: Beats(col, c, w, r);
    }
  }

  /** One grouping under two names: the selections agree on the rows, and so do the bucketings on selected times. */
  lemma {:induction false} Relabel(cols: seq<Column>, rows: seq<Row>, sel: Selection, f: Bucketing, sel': Selection, f': Bucketing,
                                   out: seq<Row>)
    requires IsGrouping(cols, rows, sel, f, out)
    requires forall r | r in rows :: sel(r.key, r.ts) == sel'(r.key, r.ts)
    requires forall r, o | r in rows && o in out && sel(r.key, r.ts) && r.key == o.key ::
               f(r.ts) == f(o.ts) <==> f'(r.ts) == f'(o.ts)
    requires OncePerClass(f', out)
    ensures IsGrouping(cols, rows, sel', f', out)
  {
    forall r | r in rows && sel'(r.key, r.ts)
      ensures HasClass(f', out, r.key, f'(r.ts))
    {
      var o :| o in out && o.key == r.key && f(o.ts) == f(r.ts);
    }
    forall o | o in out
      ensures Inhabited(rows, sel', f', o.key, f'(o.ts))
    {
      var r :| r in rows && InClass(sel, f, o.key, f(o.ts), r);
      assert InClass(sel', f', o.key, f'(o.ts), r);
    }
    forall o, c | o in out && 0 <= c < |cols|
      ensures IsValue(cols[c], rows, sel', f', o.key, f'(o.ts), c, o.vals[c])
    {
      SameClass(cols[c], rows, sel, f, sel', f', o.key, f(o.ts), f'(o.ts), c, o.vals[c]);
    }
  }

  /** Two groupings whose selections share no class lie side by side in one grouping. */
  lemma {:induction false} Juxtapose(cols: seq<Column>, rows: seq<Row>, s1: Selection, s2: Selection, both: Selection, f: Bucketing,
                                     out1: seq<Row>, out2: seq<Row>)
    requires IsGrouping(cols, rows, s1, f, out1) && IsGrouping(cols, rows, s2, f, out2)
    requires forall k, t :: both(k, t) == (s1(k, t) || s2(k, t))
    requires forall k, a, b | s1(k, a) && s2(k, b) :: f(a) != f(b)
    ensures IsGrouping(cols, rows, both, f, out1 + out2)
  {
    var out := out1 + out2;
    forall i, j | 0 <= i < j < |out|
      ensures out[i].key != out[j].key || f(out[i].ts) != f(out[j].ts)
    {
      if i < |out1| <= j {
        assert out[i] in out1 && out[j] in out2;
        var r :| r in rows && InClass(s1, f, out[i].key, f(out[i].ts), r);
        var q :| q in rows && InClass(s2, f, out[j].key, f(out[j].ts), q);
      }
    }
    forall r | r in rows && both(r.key, r.ts)
      ensures HasClass(f, out, r.key, f(r.ts))
    {
      var o :| (o in out1 || o in out2) && o.key == r.key && f(o.ts) == f(r.ts);
      assert o in out;
    }
    forall o | o in out
      ensures Inhabited(rows, both, f, o.key, f(o.ts))
      ensures forall c | 0 <= c < |cols| :: IsValue(cols[c], rows, both, f, o.key, f(o.ts), c, o.vals[c])
    {
      var s := if o in out1 then s1 else s2;
      var w :| w in rows && InClass(s, f, o.key, f(o.ts), w);
      assert InClass(both, f, o.key, f(o.ts), w);
      forall r | r in rows
        ensures InClass(s, f, o.key, f(o.ts), r) == InClass(both, f, o.key, f(o.ts), r)
      {
      }
      forall c | 0 <= c < |cols|
        ensures IsValue(cols[c], rows, both, f, o.key, f(o.ts), c, o.vals[c])
      {
        SameClass(cols[c], rows, s, f, both, f, o.key, f(o.ts), f(o.ts), c, o.vals[c]);
      }
    }
  }

  // ---------------------------------------------------------------------------------------------
  // A union of pieces

  predicate Covers(pieces: seq<Piece>, t: int) {
    pieces != [] && (InPiece(pieces[0], t) || Covers(pieces[1..], t))
  }

  ghost function CoveredRows(filter: Key -> bool, pieces: seq<Piece>): Selection {
    (k: Key, t: int) => filter(k) && Covers(pieces, t)
  }

  predicate WholeDays(p: Piece) {
    p.DayRows? ==> DayOf(p.until) == p.until && (p.from.Some? ==> DayOf(p.from.value) == p.from.value)
  }

  /** `f` numbers the pieces: constant on each, and different on different ones. */
  ghost predicate Numbers(f: Bucketing, pieces: seq<Piece>) {
    pieces != [] ==>
      && WholeDays(pieces[0])
      && (forall a, b | InPiece(pieces[0], a) && InPiece(pieces[0], b) :: f(a) == f(b))
      && (forall a, b | InPiece(pieces[0], a) && Covers(pieces[1..], b) :: f(a) != f(b))
      && Numbers(f, pieces[1..])
  }

  lemma DayBoundaries(p: Piece, a: int, b: int)
    requires p.DayRows? && WholeDays(p) && DayOf(a) == DayOf(b)
    ensures InPiece(p, a) == InPiece(p, b)
  {
    DayWithin(a);
    DayWithin(b);
  }

  lemma DayWithin(t: int)
    ensures DayOf(t) <= t < DayOf(t) + DAY
    ensures DayOf(DayOf(t)) == DayOf(t)
    ensures forall e | DayOf(e) == e :: e <= t ==> e <= DayOf(t)
  {
  }

  lemma DaysAreMonotone()
    ensures Monotone(DayBucket())
  {
    forall a, b | a <= b
      ensures DayBucket()(a) <= DayBucket()(b)
    {
      DayWithin(a);
      DayWithin(b);
    }
  }

  lemma {:induction false} PieceMeaning(cols: seq<Column>, rows: seq<Row>, day: seq<Row>, filter: Key -> bool, p: Piece, f: Bucketing,
                                        out: seq<Row>)
    requires IsDayView(cols, rows, day) && IsPieceResult(cols, rows, day, filter, p, out)
    requires WholeDays(p)
    requires forall a, b | InPiece(p, a) && InPiece(p, b) :: f(a) == f(b)
    ensures IsGrouping(cols, rows, PieceRows(filter, p), f, out)
  {
    var sel := PieceRows(filter, p);
    if p.DayRows? {
      DaysAreMonotone();
      forall k, a, b | DayBucket()(a) == DayBucket()(b)
        ensures sel(k, a) == sel(k, b)
      {
        DayBoundaries(p, a, b);
      }
      GroupingsCompose(cols, rows, All(), sel, sel, DayBucket(), Whole(), day, out);
    }
    forall o | o in out
      ensures InPiece(p, o.ts)
    {
      var source := if p.RawRows? then rows else day;
      var r :| r in source && r.key == o.key && r.ts == o.ts && sel(r.key, r.ts);
    }
    assert OncePerClass(Whole(), out);
    assert OncePerClass(f, out);
    Relabel(cols, rows, sel, Whole(), sel, f, out);
  }

  lemma SplitAt(out: seq<Row>, n: nat)
    requires n <= |out|
    ensures out == out[..n] + out[n..]
  {
  }

  /** A union of numbered pieces is one aggregation of the rows they cover, one class per key and piece. */
  lemma {:induction false} UnionMeaning(cols: seq<Column>, rows: seq<Row>, day: seq<Row>, filter: Key -> bool, pieces: seq<Piece>,
                                        f: Bucketing, out: seq<Row>)
    requires WellTyped(cols, rows)
    requires IsDayView(cols, rows, day) && IsUnionResult(cols, rows, day, filter, pieces, out)
    requires Numbers(f, pieces)
    ensures IsGrouping(cols, rows, CoveredRows(filter, pieces), f, out)
  {
    if pieces == [] {
      NoPieces(cols, rows, day, filter, pieces, f, out);
    } else {
      var n := FirstPieceEnd(cols, rows, day, filter, pieces, out);
      var first, rest := out[..n], out[n..];
      SplitAt(out, n);
      UnionMeaning(cols, rows, day, filter, pieces[1..], f, rest);
      UnionMeaningStep(cols, rows, day, filter, pieces, f, first, rest, out);
    }
  }

  lemma NoPieces(cols: seq<Column>, rows: seq<Row>, day: seq<Row>, filter: Key -> bool, pieces: seq<Piece>, f: Bucketing,
                 out: seq<Row>)
    requires WellTyped(cols, rows) && pieces == [] && IsUnionResult(cols, rows, day, filter, pieces, out)
    ensures IsGrouping(cols, rows, CoveredRows(filter, pieces), f, out)
  {
    forall k, t
      ensures !CoveredRows(filter, pieces)(k, t)
    {
      assert !Covers(pieces, t);
    }
  }

  lemma FirstPieceEnd(cols: seq<Column>, rows: seq<Row>, day: seq<Row>, filter: Key -> bool, pieces: seq<Piece>, out: seq<Row>)
      returns (n: nat)
    requires pieces != [] && IsUnionResult(cols, rows, day, filter, pieces, out)
    ensures n <= |out| && IsPieceResult(cols, rows, day, filter, pieces[0], out[..n])
    ensures IsUnionResult(cols, rows, day, filter, pieces[1..], out[n..])
  {
    n :| 0 <= n <= |out|
      && IsPieceResult(cols, rows, day, filter, pieces[0], out[..n])
      && IsUnionResult(cols, rows, day, filter, pieces[1..], out[n..]);
  }

  lemma UnionMeaningStep(cols: seq<Column>, rows: seq<Row>, day: seq<Row>, filter: Key -> bool, pieces: seq<Piece>, f: Bucketing,
                         first: seq<Row>, rest: seq<Row>, out: seq<Row>)
    requires out == first + rest
    requires pieces != [] && Numbers(f, pieces) && IsDayView(cols, rows, day)
    requires IsPieceResult(cols, rows, day, filter, pieces[0], first)
    requires IsGrouping(cols, rows, CoveredRows(filter, pieces[1..]), f, rest)
    ensures IsGrouping(cols, rows, CoveredRows(filter, pieces), f, out)
  {
    var s1, s2, both := PieceRows(filter, pieces[0]), CoveredRows(filter, pieces[1..]), CoveredRows(filter, pieces);
    PieceMeaning(cols, rows, day, filter, pieces[0], f, first);
    forall k, t
      ensures both(k, t) == (s1(k, t) || s2(k, t))
    {
      assert Covers(pieces, t) == (InPiece(pieces[0], t) || Covers(pieces[1..], t));
    }
    assert forall k, a, b | s1(k, a) && s2(k, b) :: f(a) != f(b);
    Juxtapose(cols, rows, s1, s2, both, f, first, rest);
  }

  function PieceNumber(from: Option<int>, until: int): Bucketing {
    t => if from.Some? && t < from.value then 0 else if t < until then 1 else 2
  }

  lemma RoundingFacts(time: int)
    ensures DayOf(TimeBucketFloor(time, DAY)) == TimeBucketFloor(time, DAY)
    ensures DayOf(TimeBucketCeil(time, DAY)) == TimeBucketCeil(time, DAY)
    ensures time >= 0 ==> TimeBucketFloor(time, DAY) == DayOf(time)
    ensures time < 0 ==> time <= TimeBucketFloor(time, DAY) <= 0
    ensures time > 0 ==> time <= TimeBucketCeil(time, DAY) < time + DAY
  {
    assert forall x: int :: x * DAY / DAY == x;
  }

  lemma OnePieceMore(p: Piece, rest: seq<Piece>, f: Bucketing)
    ensures forall t :: Covers([p] + rest, t) <==> InPiece(p, t) || Covers(rest, t)
    ensures (&& Numbers(f, rest) && WholeDays(p)
             && (forall a, b | InPiece(p, a) && InPiece(p, b) :: f(a) == f(b))
             && (forall a, b | InPiece(p, a) && Covers(rest, b) :: f(a) != f(b)))
            ==> Numbers(f, [p] + rest)
  {
    assert ([p] + rest)[1..] == rest;
  }

  /** Where the union is exact, its pieces partition the window, in time order. */
  lemma UnionPartitions(timeLow: int, timeHigh: int)
    requires UnionIsExact(timeLow, timeHigh)
    ensures var days := UnionQuery(timeLow, timeHigh)[|UnionQuery(timeLow, timeHigh)| - 1];
            days.DayRows? && Numbers(PieceNumber(days.from, days.until), UnionQuery(timeLow, timeHigh))
    ensures forall t | 0 <= t :: Covers(UnionQuery(timeLow, timeHigh), t) <==> (timeLow > 0 ==> timeLow <= t) && t < timeHigh
  {
    RoundingFacts(timeLow);
    RoundingFacts(timeHigh);
    var floor := TimeBucketFloor(timeHigh, DAY);
    if timeLow > 0 {
      BoundedPieces(timeLow, TimeBucketCeil(timeLow, DAY), floor, timeHigh);
    } else {
      UpperPieces(None, floor, timeHigh);
      assert UnionQuery(timeLow, timeHigh) == Upper(None, floor, timeHigh);
    }
  }

  function Lower(timeLow: int, ceil: int): seq<Piece> {
    if ceil != timeLow then [RawRows(timeLow, ceil)] else []
  }

  lemma BoundedPieces(timeLow: int, ceil: int, floor: int, timeHigh: int)
    requires timeLow <= ceil && DayOf(ceil) == ceil && DayOf(floor) == floor
    requires ceil <= floor || (ceil == timeLow && timeHigh <= floor)
    requires timeHigh >= 0 ==> floor <= timeHigh
    requires timeHigh < 0 ==> floor <= 0
    ensures var pieces := Lower(timeLow, ceil) + Upper(Some(ceil), floor, timeHigh);
            && Numbers(PieceNumber(Some(ceil), floor), pieces)
            && (timeLow > 0 ==> forall t | 0 <= t :: Covers(pieces, t) <==> timeLow <= t < timeHigh)
  {
    UpperPieces(Some(ceil), floor, timeHigh);
    if ceil != timeLow {
      OnePieceMore(RawRows(timeLow, ceil), Upper(Some(ceil), floor, timeHigh), PieceNumber(Some(ceil), floor));
    } else {
      assert Lower(timeLow, ceil) + Upper(Some(ceil), floor, timeHigh) == Upper(Some(ceil), floor, timeHigh);
    }
  }

  function Upper(from: Option<int>, floor: int, timeHigh: int): seq<Piece> {
    (if timeHigh != floor then [RawRows(floor, timeHigh)] else []) + [DayRows(from, floor)]
  }

  lemma UpperPieces(from: Option<int>, floor: int, timeHigh: int)
    requires WholeDays(DayRows(from, floor))
    requires from.Some? && from.value > floor ==> timeHigh <= floor
    ensures Numbers(PieceNumber(from, floor), Upper(from, floor, timeHigh))
    ensures forall t :: Covers(Upper(from, floor, timeHigh), t) <==> InPiece(DayRows(from, floor), t) || floor <= t < timeHigh
  {
    var days, f := DayRows(from, floor), PieceNumber(from, floor);
    OnePieceMore(days, [], f);
    assert [days] == [days] + [];
    OnePieceMore(RawRows(floor, timeHigh), [days], f);
  }

  lemma ExactUnion(cols: seq<Column>, rows: seq<Row>, filter: Key -> bool, timeLow: int, timeHigh: int, answer: seq<Row>)
    requires UnionIsExact(timeLow, timeHigh)
    requires Times(rows) && IsUnionAnswer(cols, rows, filter, timeLow, timeHigh, answer)
    ensures IsGrouping(cols, rows, Window(filter, timeLow, timeHigh), Whole(), answer)
  {
    var day, uni :| IsDayView(cols, rows, day)
      && IsUnionResult(cols, rows, day, filter, UnionQuery(timeLow, timeHigh), uni)
      && IsGrouping(cols, uni, All(), Whole(), answer);
    var pieces := UnionQuery(timeLow, timeHigh);
    UnionPartitions(timeLow, timeHigh);
    var days := pieces[|pieces| - 1];
    RegroupedUnion(cols, rows, day, filter, pieces, PieceNumber(days.from, days.until), uni, answer,
                   Window(filter, timeLow, timeHigh));
  }

  lemma RegroupedUnion(cols: seq<Column>, rows: seq<Row>, day: seq<Row>, filter: Key -> bool, pieces: seq<Piece>, f: Bucketing,
                       uni: seq<Row>, answer: seq<Row>, window: Selection)
    requires Times(rows) && IsDayView(cols, rows, day) && IsUnionResult(cols, rows, day, filter, pieces, uni)
    requires IsGrouping(cols, uni, All(), Whole(), answer)
    requires Numbers(f, pieces) && Monotone(f)
    requires forall k, t | 0 <= t :: window(k, t) <==> filter(k) && Covers(pieces, t)
    ensures IsGrouping(cols, rows, window, Whole(), answer)
  {
    UnionMeaning(cols, rows, day, filter, pieces, f, uni);
    var covered := CoveredRows(filter, pieces);
    GroupingsCompose(cols, rows, covered, All(), covered, f, Whole(), uni, answer);
    Relabel(cols, rows, covered, Whole(), window, Whole(), answer);
  }

  // ---------------------------------------------------------------------------------------------
  // When the union is not exact

  /** Re-aggregating the union gives the direct aggregate of the window, on every table. */
  ghost predicate UnionPreservesMeaning(timeLow: int, timeHigh: int) {
    forall cols, rows, filter, answer | Times(rows) && IsUnionAnswer(cols, rows, filter, timeLow, timeHigh, answer) ::
      IsGrouping(cols, rows, Window(filter, timeLow, timeHigh), Whole(), answer)
  }

  lemma OneRow(sel: Selection, f: Bucketing, r: Row, o: Row)
    requires r.vals == o.vals == [1] && o.key == r.key && f(o.ts) == f(r.ts)
    ensures sel(r.key, r.ts) ==> IsGrouping([Sum], [r], sel, f, [o])
    ensures !sel(r.key, r.ts) ==> IsGrouping([Sum], [r], sel, f, [])
  {
    if sel(r.key, r.ts) {
      assert r in [r] && InClass(sel, f, o.key, f(o.ts), r);
      assert o in [o];
      assert HasClass(f, [o], r.key, f(r.ts));
      assert [r][..0] == [];
      assert SumOf([r], sel, f, o.key, f(o.ts), 0) == 1;
    }
  }

  /** Only the first piece of the union, an edge, selects the instant `t`. */
  ghost predicate FirstEdgeOnly(pieces: seq<Piece>, t: int) {
    && 0 <= t && pieces != []
    && pieces[0].RawRows? && InPiece(pieces[0], t)
    && forall p | p in pieces[1..] :: !InPiece(p, if p.RawRows? then t else DayOf(t))
  }

  /** The pieces of a union that is not exact select an instant outside the window. */
  lemma OverrunInstant(timeLow: int, timeHigh: int) returns (t: int)
    requires !UnionIsExact(timeLow, timeHigh)
    ensures timeLow > 0 && !(timeLow <= t < timeHigh)
    ensures FirstEdgeOnly(UnionQuery(timeLow, timeHigh), t)
  {
    RoundingFacts(timeLow);
    RoundingFacts(timeHigh);
    var ceil, floor := TimeBucketCeil(timeLow, DAY), TimeBucketFloor(timeHigh, DAY);
    var pieces := UnionQuery(timeLow, timeHigh);
    t := if ceil != timeLow then ceil - 1 else timeHigh - 1;
    DayWithin(t);
    DayWithin(timeHigh);
    var days := DayRows(Some(ceil), floor);
    assert !InPiece(days, DayOf(t));
    if ceil != timeLow {
      assert pieces == [RawRows(timeLow, ceil)] + Upper(Some(ceil), floor, timeHigh);
      assert pieces[1..] == Upper(Some(ceil), floor, timeHigh);
    } else {
      assert pieces == [RawRows(floor, timeHigh), days];
      assert pieces[1..] == [days];
    }
  }

  lemma {:induction false} EmptyTail(r: Row, d: Row, filter: Key -> bool, pieces: seq<Piece>)
    requires r.vals == d.vals == [1] && r.key == d.key && d.ts == DayOf(r.ts)
    requires forall p | p in pieces :: !InPiece(p, if p.RawRows? then r.ts else d.ts)
    ensures IsUnionResult([Sum], [r], [d], filter, pieces, [])
  {
    if pieces != [] {
      EmptyTail(r, d, filter, pieces[1..]);
      var out: seq<Row> := [];
      var source := if pieces[0].RawRows? then r else d;
      OneRow(PieceRows(filter, pieces[0]), Whole(), source, source);
      assert out[..0] == [] && out[0..] == [];
      assert IsPieceResult([Sum], [r], [d], filter, pieces[0], out[..0]);
      assert IsUnionResult([Sum], [r], [d], filter, pieces[1..], out[0..]);
    }
  }

  lemma OverrunResult(pieces: seq<Piece>, t: int, filter: Key -> bool, r: Row, d: Row)
    requires r == Row([], t, [1]) && d == Row([], DayOf(t), [1]) && filter([])
    requires FirstEdgeOnly(pieces, t)
    ensures IsUnionResult([Sum], [r], [d], filter, pieces, [r])
  {
    var uni := [r];
    EmptyTail(r, d, filter, pieces[1..]);
    assert uni[..1] == [r] && uni[1..] == [];
    OneRow(PieceRows(filter, pieces[0]), Whole(), r, r);
    assert r in [r] && StampedByMin([r], PieceRows(filter, pieces[0]), [r]);
    assert IsPieceResult([Sum], [r], [d], filter, pieces[0], uni[..1]);
  }

  lemma OverrunDay(t: int)
    ensures IsDayView([Sum], [Row([], t, [1])], [Row([], DayOf(t), [1])])
  {
    DayWithin(t);
    OneRow(All(), DayBucket(), Row([], t, [1]), Row([], DayOf(t), [1]));
  }

  lemma AnswerFrom(cols: seq<Column>, rows: seq<Row>, day: seq<Row>, filter: Key -> bool, timeLow: int, timeHigh: int,
                   uni: seq<Row>, answer: seq<Row>)
    requires IsDayView(cols, rows, day)
    requires IsUnionResult(cols, rows, day, filter, UnionQuery(timeLow, timeHigh), uni)
    requires IsGrouping(cols, uni, All(), Whole(), answer)
    ensures IsUnionAnswer(cols, rows, filter, timeLow, timeHigh, answer)
  {
  }

  lemma OverrunRegrouped(r: Row)
    requires r.vals == [1]
    ensures IsGrouping([Sum], [r], All(), Whole(), [r])
  {
    OneRow(All(), Whole(), r, r);
  }

  lemma OverrunAnswer(timeLow: int, timeHigh: int, t: int, filter: Key -> bool, r: Row)
    requires r == Row([], t, [1]) && filter([])
    requires FirstEdgeOnly(UnionQuery(timeLow, timeHigh), t)
    ensures IsUnionAnswer([Sum], [r], filter, timeLow, timeHigh, [r])
  {
    var d := Row([], DayOf(t), [1]);
    OverrunDay(t);
    OverrunResult(UnionQuery(timeLow, timeHigh), t, filter, r, d);
    OverrunRegrouped(r);
    AnswerFrom([Sum], [r], [d], filter, timeLow, timeHigh, [r], [r]);
  }

  lemma OverrunTable(timeLow: int, timeHigh: int, filter: Key -> bool) returns (r: Row)
    requires !UnionIsExact(timeLow, timeHigh) && filter([])
    ensures Times([r]) && IsUnionAnswer([Sum], [r], filter, timeLow, timeHigh, [r])
    ensures !Window(filter, timeLow, timeHigh)(r.key, r.ts)
  {
    var t := OverrunInstant(timeLow, timeHigh);
    r := Row([], t, [1]);
    OverrunAnswer(timeLow, timeHigh, t, filter, r);
  }

  lemma Preserved(timeLow: int, timeHigh: int, cols: seq<Column>, rows: seq<Row>, filter: Key -> bool, answer: seq<Row>)
    requires UnionPreservesMeaning(timeLow, timeHigh)
    requires Times(rows) && IsUnionAnswer(cols, rows, filter, timeLow, timeHigh, answer)
    ensures IsGrouping(cols, rows, Window(filter, timeLow, timeHigh), Whole(), answer)
  {
  }

  lemma UnionOverruns(timeLow: int, timeHigh: int)
    requires !UnionIsExact(timeLow, timeHigh)
    ensures !UnionPreservesMeaning(timeLow, timeHigh)
  {
    if UnionPreservesMeaning(timeLow, timeHigh) {
      var filter := (k: Key) => true;
      var r := OverrunTable(timeLow, timeHigh, filter);
      Preserved(timeLow, timeHigh, [Sum], [r], filter, [r]);
      NothingSelected(Window(filter, timeLow, timeHigh), r);
    }
  }

  lemma NothingSelected(sel: Selection, r: Row)
    requires !sel(r.key, r.ts)
    ensures !IsGrouping([Sum], [r], sel, Whole(), [r])
  {
    assert !Inhabited([r], sel, Whole(), r.key, Whole()(r.ts));
    assert r in [r];
  }

  /** The union query means the direct aggregate of its window exactly when the edges do not overrun it. */
  lemma UnionQueryMeaning(timeLow: int, timeHigh: int)
    ensures UnionPreservesMeaning(timeLow, timeHigh) <==> UnionIsExact(timeLow, timeHigh)
  {
    if UnionIsExact(timeLow, timeHigh) {
      forall cols, rows, filter, answer | Times(rows) && IsUnionAnswer(cols, rows, filter, timeLow, timeHigh, answer)
        ensures IsGrouping(cols, rows, Window(filter, timeLow, timeHigh), Whole(), answer)
      {
        ExactUnion(cols, rows, filter, timeLow, timeHigh, answer);
      }
    } else {
      UnionOverruns(timeLow, timeHigh);
    }
  }
}
