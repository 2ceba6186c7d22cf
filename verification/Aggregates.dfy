/**
  The meaning of the aggregate queries that internal/db/aggregates.go builds.

  A table is a sequence of rows read as a bag. A row carries its group columns (`key`), its timestamp
  (`block_timestamp` of a raw row, `aggregate_timestamp` of an aggregated one) and one value for each of the
  other columns. A query is the relation between the rows it reads and the rows it may return: `last` and
  `first` may pick any of several rows with the same timestamp, as the database does.
 */
module Aggregates {

  datatype Column = Sum | Last | First | Min | Max

  type Key = seq<string>

  datatype Row = Row(key: Key, ts: int, vals: seq<int>)

  /** A WHERE clause: conditions on the group columns and on the timestamp. */
  type Selection = (Key, int) -> bool

  /** The time part of a GROUP BY clause. */
  type Bucketing = int -> int

  const DAY: int := 24 * 60 * 60 * 1_000_000_000

  // ---------------------------------------------------------------------------------------------
  // One SELECT ... WHERE ... GROUP BY

  ghost predicate InClass(sel: Selection, f: Bucketing, key: Key, bucket: int, r: Row) {
    r.key == key && sel(r.key, r.ts) && f(r.ts) == bucket
  }

  ghost function SumOf(rows: seq<Row>, sel: Selection, f: Bucketing, key: Key, bucket: int, c: nat): int
    requires forall r | r in rows :: c < |r.vals|
  {
    if rows == [] then 0
    else
      var r := rows[|rows| - 1];
      SumOf(rows[..|rows| - 1], sel, f, key, bucket, c) + if InClass(sel, f, key, bucket, r) then r.vals[c] else 0
  }

  /** `v` is a value the aggregate function of column `c` may take on one class of rows. */
  ghost predicate IsValue(col: Column, rows: seq<Row>, sel: Selection, f: Bucketing, key: Key, bucket: int, c: nat, v: int)
    requires forall r | r in rows :: c < |r.vals|
  {
    if col == Sum then v == SumOf(rows, sel, f, key, bucket, c)
    else
      exists w | w in rows ::
        && InClass(sel, f, key, bucket, w)
        && w.vals[c] == v
        && forall r | r in rows && InClass(sel, f, key, bucket, r) :: Beats(col, c, w, r)
  }

  ghost predicate Beats(col: Column, c: nat, w: Row, r: Row)
    requires c < |w.vals| && c < |r.vals|
  {
    match col
    case Last => r.ts <= w.ts
    case First => w.ts <= r.ts
    case Min => w.vals[c] <= r.vals[c]
    case Max => r.vals[c] <= w.vals[c]
    case Sum => true
  }

  ghost predicate WellTyped(cols: seq<Column>, rows: seq<Row>) {
    forall r | r in rows :: |r.vals| == |cols|
  }

  /**
    `out` is a possible result of aggregating the rows of `rows` that `sel` selects, grouped by their key
    and by `f` of their timestamp. The timestamp of an output row may be any time of its class.
   */
  ghost predicate IsGrouping(cols: seq<Column>, rows: seq<Row>, sel: Selection, f: Bucketing, out: seq<Row>) {
    && WellTyped(cols, rows) && WellTyped(cols, out)
    && OncePerClass(f, out)
    && (forall r | r in rows && sel(r.key, r.ts) :: HasClass(f, out, r.key, f(r.ts)))
    && (forall o | o in out :: Inhabited(rows, sel, f, o.key, f(o.ts)))
    && (forall o, c | o in out && 0 <= c < |cols| ::
          IsValue(cols[c], rows, sel, f, o.key, f(o.ts), c, o.vals[c]))
  }

  ghost predicate OncePerClass(f: Bucketing, out: seq<Row>) {
    forall i, j | 0 <= i < j < |out| :: out[i].key != out[j].key || f(out[i].ts) != f(out[j].ts)
  }

  ghost predicate HasClass(f: Bucketing, out: seq<Row>, key: Key, bucket: int) {
    exists o | o in out :: o.key == key && f(o.ts) == bucket
  }

  ghost predicate Inhabited(rows: seq<Row>, sel: Selection, f: Bucketing, key: Key, bucket: int) {
    exists r | r in rows :: InClass(sel, f, key, bucket, r)
  }

  ghost predicate Monotone(f: Bucketing) {
    forall a, b :: a <= b ==> f(a) <= f(b)
  }

  /** `g` does not separate two times that `f` puts together. */
  ghost predicate Coarser(f: Bucketing, g: Bucketing) {
    forall a, b :: f(a) == f(b) ==> g(a) == g(b)
  }

  ghost predicate Respects(f: Bucketing, sel: Selection) {
    forall k, a, b :: f(a) == f(b) ==> sel(k, a) == sel(k, b)
  }

  // ---------------------------------------------------------------------------------------------
  // Aggregating aggregates

  /** The sum over the rows of one coarse class that lie in a class of `fine`. */
  ghost function CoveredSum(rows: seq<Row>, both: Selection, f: Bucketing, g: Bucketing, key: Key, bucket: int, c: nat,
                            fine: seq<Row>): int
    requires forall r | r in rows :: c < |r.vals|
  {
    if rows == [] then 0
    else
      var r := rows[|rows| - 1];
      CoveredSum(rows[..|rows| - 1], both, f, g, key, bucket, c, fine)
      + if InClass(both, g, key, bucket, r) && HasClass(f, fine, r.key, f(r.ts)) then r.vals[c] else 0
  }

  lemma {:induction false} CoveredSumGrows(rows: seq<Row>, sel: Selection, sel2: Selection, both: Selection, f: Bucketing,
                                           g: Bucketing, key: Key, bucket: int, c: nat, fine: seq<Row>, o: Row)
    requires forall r | r in rows :: c < |r.vals|
    requires forall k, t :: both(k, t) == (sel(k, t) && sel2(k, t))
    requires Coarser(f, g) && Respects(f, sel2)
    requires !HasClass(f, fine, o.key, f(o.ts))
    ensures CoveredSum(rows, both, f, g, key, bucket, c, fine + [o])
         == CoveredSum(rows, both, f, g, key, bucket, c, fine)
          + if InClass(sel2, g, key, bucket, o) then SumOf(rows, sel, f, o.key, f(o.ts), c) else 0
  {
    if rows == [] {
    } else {
      var r := rows[|rows| - 1];
      CoveredSumGrows(rows[..|rows| - 1], sel, sel2, both, f, g, key, bucket, c, fine, o);
      assert o in fine + [o];
      assert HasClass(f, fine + [o], r.key, f(r.ts)) <==>
        HasClass(f, fine, r.key, f(r.ts)) || (o.key == r.key && f(o.ts) == f(r.ts)) by {
        if HasClass(f, fine, r.key, f(r.ts)) {
          var x :| x in fine && x.key == r.key && f(x.ts) == f(r.ts);
          assert x in fine + [o];
        }
      }
    }
  }

  lemma {:induction false} SumOfSums(cols: seq<Column>, rows: seq<Row>, sel: Selection, sel2: Selection, both: Selection,
                                     f: Bucketing, g: Bucketing, key: Key, bucket: int, c: nat, fine: seq<Row>)
    requires WellTyped(cols, rows) && WellTyped(cols, fine) && c < |cols| && cols[c] == Sum
    requires OncePerClass(f, fine)
    requires forall o | o in fine :: IsValue(Sum, rows, sel, f, o.key, f(o.ts), c, o.vals[c])
    requires forall k, t :: both(k, t) == (sel(k, t) && sel2(k, t))
    requires Coarser(f, g) && Respects(f, sel2)
    ensures SumOf(fine, sel2, g, key, bucket, c) == CoveredSum(rows, both, f, g, key, bucket, c, fine)
  {
    if fine == [] {
      CoveredNothing(rows, both, f, g, key, bucket, c);
    } else {
      var rest, o := fine[..|fine| - 1], fine[|fine| - 1];
      assert rest + [o] == fine;
      SumOfSums(cols, rows, sel, sel2, both, f, g, key, bucket, c, rest);
      assert !HasClass(f, rest, o.key, f(o.ts));
      CoveredSumGrows(rows, sel, sel2, both, f, g, key, bucket, c, rest, o);
    }
  }

  lemma {:induction false} CoveredNothing(rows: seq<Row>, both: Selection, f: Bucketing, g: Bucketing, key: Key, bucket: int, c: nat)
    requires forall r | r in rows :: c < |r.vals|
    ensures CoveredSum(rows, both, f, g, key, bucket, c, []) == 0
  {
    if rows != [] {
      CoveredNothing(rows[..|rows| - 1], both, f, g, key, bucket, c);
    }
  }

  lemma {:induction false} CoveredEverything(rows: seq<Row>, sel: Selection, both: Selection, f: Bucketing, g: Bucketing, key: Key,
                                             bucket: int, c: nat, fine: seq<Row>)
    requires forall r | r in rows :: c < |r.vals|
    requires forall k, t :: both(k, t) ==> sel(k, t)
    requires forall r | r in rows && sel(r.key, r.ts) :: HasClass(f, fine, r.key, f(r.ts))
    ensures CoveredSum(rows, both, f, g, key, bucket, c, fine) == SumOf(rows, both, g, key, bucket, c)
  {
    if rows != [] {
      CoveredEverything(rows[..|rows| - 1], sel, both, f, g, key, bucket, c, fine);
    }
  }

  lemma {:induction false} ValueOfValues(cols: seq<Column>, rows: seq<Row>, sel: Selection, sel2: Selection, both: Selection,
                                         f: Bucketing, g: Bucketing, fine: seq<Row>, key: Key, bucket: int, c: nat, v: int)
    requires IsGrouping(cols, rows, sel, f, fine) && c < |cols|
    requires forall k, t :: both(k, t) == (sel(k, t) && sel2(k, t))
    requires Monotone(f) && Coarser(f, g) && Respects(f, sel2)
    requires IsValue(cols[c], fine, sel2, g, key, bucket, c, v)
    ensures IsValue(cols[c], rows, both, g, key, bucket, c, v)
  {
    if cols[c] == Sum {
      SumOfSums(cols, rows, sel, sel2, both, f, g, key, bucket, c, fine);
      CoveredEverything(rows, sel, both, f, g, key, bucket, c, fine);
    } else {
      var o :| o in fine && InClass(sel2, g, key, bucket, o) && o.vals[c] == v
        && forall r | r in fine && InClass(sel2, g, key, bucket, r) :: Beats(cols[c], c, o, r);
      var w := Winner(cols, rows, sel, f, fine, o, c);
      assert InClass(both, g, key, bucket, w);
      forall r | r in rows && InClass(both, g, key, bucket, r)
        ensures Beats(cols[c], c, w, r)
      {
        assert HasClass(f, fine, r.key, f(r.ts));
        var p :| p in fine && p.key == r.key && f(p.ts) == f(r.ts);
        assert InClass(sel2, g, key, bucket, p);
        WinnerBeats(cols, rows, sel, f, fine, o, w, p, r, c);
      }
    }
  }

  /** The raw row whose value the row `o` of an aggregation carries. */
  lemma Winner(cols: seq<Column>, rows: seq<Row>, sel: Selection, f: Bucketing, fine: seq<Row>, o: Row, c: nat)
      returns (w: Row)
    requires IsGrouping(cols, rows, sel, f, fine) && o in fine && c < |cols| && cols[c] != Sum
    ensures w in rows && InClass(sel, f, o.key, f(o.ts), w) && w.vals[c] == o.vals[c]
    ensures forall r | r in rows && InClass(sel, f, o.key, f(o.ts), r) :: Beats(cols[c], c, w, r)
  {
    assert IsValue(cols[c], rows, sel, f, o.key, f(o.ts), c, o.vals[c]);
    w :| w in rows && InClass(sel, f, o.key, f(o.ts), w) && w.vals[c] == o.vals[c]
      && forall r | r in rows && InClass(sel, f, o.key, f(o.ts), r) :: Beats(cols[c], c, w, r);
  }

  lemma WinnerBeats(cols: seq<Column>, rows: seq<Row>, sel: Selection, f: Bucketing, fine: seq<Row>, o: Row, w: Row, p: Row,
                    r: Row, c: nat)
    requires IsGrouping(cols, rows, sel, f, fine) && o in fine && p in fine && c < |cols| && cols[c] != Sum
    requires Monotone(f)
    requires w in rows && InClass(sel, f, o.key, f(o.ts), w) && w.vals[c] == o.vals[c]
    requires forall r | r in rows && InClass(sel, f, o.key, f(o.ts), r) :: Beats(cols[c], c, w, r)
    requires r in rows && InClass(sel, f, p.key, f(p.ts), r)
    requires o.key == p.key && Beats(cols[c], c, o, p)
    ensures Beats(cols[c], c, w, r)
  {
    var x := Winner(cols, rows, sel, f, fine, p, c);
    assert Beats(cols[c], c, x, r);
  }

  /** Aggregating an aggregation is aggregating the raw rows directly, in the coarser buckets. */
  lemma {:induction false} GroupingsCompose(cols: seq<Column>, rows: seq<Row>, sel: Selection, sel2: Selection, both: Selection,
                                            f: Bucketing, g: Bucketing, fine: seq<Row>, coarse: seq<Row>)
    requires IsGrouping(cols, rows, sel, f, fine) && IsGrouping(cols, fine, sel2, g, coarse)
    requires forall k, t :: both(k, t) == (sel(k, t) && sel2(k, t))
    requires Monotone(f) && Coarser(f, g) && Respects(f, sel2)
    ensures IsGrouping(cols, rows, both, g, coarse)
  {
    forall r | r in rows && both(r.key, r.ts)
      ensures HasClass(g, coarse, r.key, g(r.ts))
    {
      var o :| o in fine && o.key == r.key && f(o.ts) == f(r.ts);
      assert HasClass(g, coarse, o.key, g(o.ts));
    }
    forall o | o in coarse
      ensures Inhabited(rows, both, g, o.key, g(o.ts))
    {
      var p :| p in fine && InClass(sel2, g, o.key, g(o.ts), p);
      var r :| r in rows && InClass(sel, f, p.key, f(p.ts), r);
      assert InClass(both, g, o.key, g(o.ts), r);
    }
    forall o, c | o in coarse && 0 <= c < |cols|
      ensures IsValue(cols[c], rows, both, g, o.key, g(o.ts), c, o.vals[c])
    {
      ValueOfValues(cols, rows, sel, sel2, both, f, g, fine, o.key, g(o.ts), c, o.vals[c]);
    }
  }
}
