/**
  Bucket boundaries of history queries (internal/db/buckets.go). The calendar instants that the database truncates to come
  in as an increasing sequence.
 */
module Buckets {
  import opened Options

  datatype Interval = Min5 | Hour | Day | Week | Month | Quarter | Year

  const DAY := 60 * 60 * 24

  function MaxDuration(i: Interval): int {
    match i
    case Min5 => 60 * 5
    case Hour => 60 * 60
    case Day => DAY
    case Week => DAY * 7
    case Month => DAY * 31
    case Quarter => DAY * 31 * 3
    case Year => DAY * 31 * 12
  }

  const MAX_INTERVAL_COUNT := 400
  const CUTOFF_WINDOW_LENGTH := 2 * MAX_INTERVAL_COUNT

  datatype Window = Window(from: int, until: int)

  /** An answer; `Panic` is an index or a slice out of range in the program. */
  datatype Outcome = Ok(timestamps: seq<int>) | BadRequest | Panic

  ghost predicate Increasing(times: seq<int>) {
    forall i, j | 0 <= i < j < |times| :: times[i] < times[j]
  }

  function MinDuration(i: Interval): int {
    match i
    case Month => DAY * 28
    case Quarter => DAY * 28 * 3
    case Year => DAY * 28 * 12
    case _ => MaxDuration(i)
  }

  /** What the query reads the window widened by, at either end. */
  function Margin(i: Interval): int { MaxDuration(i) + MinDuration(i) }

  /**
    What the query may read for a window: calendar instants from a longest and a shortest interval before its start up to
    as much after its end, the last of them after the end itself. Only a window that runs backwards by the whole widening
    may leave nothing to read.
   */
  ghost predicate IsRead(instants: seq<int>, i: Interval, w: Window) {
    && Increasing(instants)
    && (w.from - w.until < 2 * Margin(i) ==> instants != [])
    && (instants != [] ==>
          instants[0] <= w.from - Margin(i) && w.until < instants[|instants| - 1] < w.until + Margin(i))
  }

  /** Two periods in a row are no shorter than the widening, whatever the months. */
  ghost predicate HasLongPairs(instants: seq<int>, i: Interval) {
    forall k, l | 0 <= k < l < |instants| && l == k + 2 :: instants[l] - instants[k] >= Margin(i)
  }

  predicate IsTooWide(i: Interval, w: Window) {
    MaxDuration(i) * 800 < w.until - w.from
  }

  // ---------------------------------------------------------------------------------------------
  // Trimming

  /** How many instants are before a time. */
  function CountBefore(instants: seq<int>, t: int): (n: nat)
    ensures n <= |instants|
  {
    if instants == [] then 0
    else
      var last := |instants| - 1;
      CountBefore(instants[..last], t) + if instants[last] < t then 1 else 0
  }

  lemma {:induction false} CountIsIndex(instants: seq<int>, t: int, n: nat)
    requires n <= |instants|
    requires forall k | 0 <= k < |instants| :: k < n <==> instants[k] < t
    ensures CountBefore(instants, t) == n
  {
    if instants != [] {
      var last := |instants| - 1;
      CountIsIndex(instants[..last], t, if n <= last then n else last);
    }
  }

  lemma {:induction false} IndexIsCount(instants: seq<int>, t: int)
    requires Increasing(instants)
    ensures forall k | 0 <= k < |instants| :: k < CountBefore(instants, t) <==> instants[k] < t
  {
    if instants != [] {
      IndexIsCount(instants[..|instants| - 1], t);
    }
  }

  ghost predicate IsRun(run: seq<int>, all: seq<int>) {
    exists a, b | 0 <= a <= b <= |all| :: run == all[a..b]
  }

  /** The run of instants that a window needs: one up to its start, one from its end on, all in between. */
  ghost predicate IsTrim(trimmed: seq<int>, instants: seq<int>, w: Window) {
    && IsRun(trimmed, instants)
    && |trimmed| >= 2
    && trimmed[0] <= w.from < trimmed[1]
    && trimmed[|trimmed| - 2] < w.until <= trimmed[|trimmed| - 1]
  }

  lemma LastUpTo(instants: seq<int>, t: int, a: nat)
    requires Increasing(instants) && a + 1 < |instants| && instants[a] <= t < instants[a + 1]
    ensures forall k | 0 <= k < |instants| :: instants[k] <= t <==> k <= a
  {
  }

  lemma SameRun(instants: seq<int>, w: Window, a: nat, b: nat, c: nat, d: nat)
    requires Increasing(instants) && a + 2 <= b <= |instants| && c + 2 <= d <= |instants|
    requires instants[a] <= w.from < instants[a + 1] && instants[c] <= w.from < instants[c + 1]
    requires instants[b - 2] < w.until <= instants[b - 1] && instants[d - 2] < w.until <= instants[d - 1]
    ensures a == c && b == d
  {
    LastUpTo(instants, w.from, a);
    LastUpTo(instants, w.from, c);
    LastUpTo(instants, w.until - 1, b - 2);
    LastUpTo(instants, w.until - 1, d - 2);
    assert instants[a] <= w.from && instants[c] <= w.from;
    assert instants[b - 2] <= w.until - 1 && instants[d - 2] <= w.until - 1;
  }

  /** There is only one such run. */
  lemma TrimIsUnique(s: seq<int>, t: seq<int>, instants: seq<int>, w: Window)
    requires Increasing(instants)
    requires IsTrim(s, instants, w) && IsTrim(t, instants, w)
    ensures s == t
  {
    var a, b := TrimAt(s, instants, w);
    var c, d := TrimAt(t, instants, w);
    SameRun(instants, w, a, b, c, d);
  }

  lemma TrimAt(s: seq<int>, instants: seq<int>, w: Window) returns (a: nat, b: nat)
    requires IsTrim(s, instants, w)
    ensures a + 2 <= b <= |instants| && s == instants[a..b]
    ensures instants[a] <= w.from < instants[a + 1] && instants[b - 2] < w.until <= instants[b - 1]
  {
    a, b :| 0 <= a <= b <= |instants| && s == instants[a..b];
  }

  datatype Verdict = Succeeds | Refused | IndexOutOfRange | SliceOutOfRange

  /** What becomes of a window, by how many instants are before its end and how many are not after its start. */
  function TrimVerdict(instants: seq<int>, w: Window): Verdict {
    var n, before, upTo := |instants|, CountBefore(instants, w.until), CountBefore(instants, w.from + 1);
    if n == 0 then Refused
    else if n == 1 || upTo == n then IndexOutOfRange
    else
      var first := if upTo == 0 then 0 else upTo - 1;
      var last := if before == n then n - 1 else before;
      if first < last then Succeeds else if first <= last + 1 then Refused else SliceOutOfRange
  }

  predicate Panics(v: Verdict) { v.IndexOutOfRange? || v.SliceOutOfRange? }

  ghost predicate Matches(r: Outcome, v: Verdict) {
    && (r.Ok? <==> v == Succeeds)
    && (r == BadRequest <==> v == Refused)
    && (r == Panic <==> Panics(v))
  }

  /** The tail of generateTimestamps, from the instants read. */
  method Trim(instants: seq<int>, w: Window) returns (r: Outcome)
    requires Increasing(instants)
    ensures Matches(r, TrimVerdict(instants, w))
    ensures r.Ok? && instants[0] <= w.from && w.until <= instants[|instants| - 1] ==> IsTrim(r.timestamps, instants, w)
  {
    var n := |instants|;
    var lastIdx := n - 1;
    while 0 < lastIdx && w.until <= instants[lastIdx - 1]
      invariant -1 <= lastIdx < n && (n > 0 ==> 0 <= lastIdx)
      invariant lastIdx < n - 1 ==> w.until <= instants[lastIdx]
    {
      lastIdx := lastIdx - 1;
    }
    IndexIsCount(instants, w.until);
    IndexIsCount(instants, w.from + 1);
    var firstIdx := 0;
    while firstIdx < n
      invariant 0 <= firstIdx <= n && (n > 0 ==> firstIdx < n)
      invariant firstIdx > 0 ==> instants[firstIdx] <= w.from
    {
      if firstIdx + 1 >= n {
        return Panic;
      }
      if instants[firstIdx + 1] > w.from {
        break;
      }
      firstIdx := firstIdx + 1;
    }
    if firstIdx > lastIdx + 1 {
      return Panic;
    }
    var ret := instants[firstIdx..lastIdx + 1];
    if |ret| < 2 {
      return BadRequest;
    }
    r := Ok(ret);
  }

  /** The slice is never out of range on what the query reads: three instants would need a wider window. */
  lemma SliceNeverPanics(instants: seq<int>, i: Interval, w: Window)
    requires IsRead(instants, i, w) && HasLongPairs(instants, i)
    ensures TrimVerdict(instants, w) != SliceOutOfRange
  {
    IndexIsCount(instants, w.until);
    IndexIsCount(instants, w.from + 1);
    forall k | 0 <= k < |instants| - 2
      ensures instants[k] < w.until
    {
      assert instants[k + 2] - instants[k] >= Margin(i);
    }
    assert |instants| > 2 ==> instants[|instants| - 3] < w.until;
  }

  /** On what the query reads the program panics exactly when there are instants, and none after the window's start. */
  lemma PanicsIff(instants: seq<int>, i: Interval, w: Window)
    requires IsRead(instants, i, w) && HasLongPairs(instants, i)
    ensures Panics(TrimVerdict(instants, w)) <==> instants != [] && instants[|instants| - 1] <= w.from
  {
    SliceNeverPanics(instants, i, w);
    IndexIsCount(instants, w.from + 1);
  }

  /** A window that does not run backwards never panics, and fails only when it is empty and at an instant. */
  lemma ForwardWindowsSucceed(instants: seq<int>, i: Interval, w: Window)
    requires IsRead(instants, i, w) && w.from <= w.until
    ensures TrimVerdict(instants, w) == if w.from == w.until && w.from in instants then Refused else Succeeds
  {
    IndexIsCount(instants, w.until);
    IndexIsCount(instants, w.from + 1);
    PositiveMargin(i);
    var n, u, v := |instants|, CountBefore(instants, w.until), CountBefore(instants, w.from + 1);
    assert instants[0] <= w.from && w.until < instants[n - 1];
    assert 1 <= v < n && u < n;
    assert instants[u] >= w.until && instants[v - 1] <= w.from;
    assert v > u ==> instants[u] <= w.from;
    if w.from in instants {
      var k :| 0 <= k < n && instants[k] == w.from;
      assert k < v && (w.from == w.until ==> u <= k);
      assert k > 0 ==> instants[k - 1] < w.from;
      assert k + 1 < n ==> instants[k + 1] > w.from;
    }
  }

  lemma PositiveMargin(i: Interval)
    ensures Margin(i) > 0
  {
  }

  // ---------------------------------------------------------------------------------------------
  // Exact intervals, whose instants are multiples

  predicate IsExact(i: Interval) { i.Min5? || i.Hour? || i.Day? }

  /** The number of the last period that starts at or before a time, and of the first that starts at or after it. */
  function PeriodAt(t: int, d: int): int
    requires d > 0
  {
    t / d
  }

  function PeriodFrom(t: int, d: int): int
    requires d > 0
  {
    (t - 1) / d + 1
  }

  /** What the query reads for an exact interval: every multiple in the widened window, whose end does not belong to it. */
  ghost predicate IsReadExactly(instants: seq<int>, d: int, w: Window)
    requires d > 0
  {
    var first, last := PeriodAt(w.from, d) - 2, PeriodFrom(w.until, d) + 1;
    && |instants| == (if first <= last then last - first + 1 else 0)
    && forall k | 0 <= k < |instants| :: instants[k] == (first + k) * d
  }

  lemma Ordered(a: int, b: int, d: int)
    requires d > 0 && a <= b
    ensures a * d <= b * d
  {
  }

  lemma MultipleUpTo(m: int, t: int, d: int)
    requires d > 0
    ensures m * d <= t <==> m <= PeriodAt(t, d)
    ensures m * d < t <==> m < PeriodFrom(t, d)
  {
    NotAfter(m, t, d);
    NotAfter(m, t - 1, d);
  }

  lemma NotAfter(m: int, t: int, d: int)
    requires d > 0
    ensures m * d <= t <==> m <= t / d
  {
    var q := t / d;
    assert t == d * q + t % d;
    if m <= q {
      Ordered(m, q, d);
    } else {
      Ordered(q + 1, m, d);
    }
  }

  lemma ExactCounts(instants: seq<int>, d: int, w: Window)
    requires d > 0 && IsReadExactly(instants, d, w)
    ensures var n, behind := |instants|, PeriodFrom(w.until, d) - PeriodAt(w.from, d);
            && n == (if behind + 4 > 0 then behind + 4 else 0)
            && CountBefore(instants, w.until) == (if behind + 2 > 0 then behind + 2 else 0)
            && CountBefore(instants, w.from + 1) == if n < 3 then n else 3
  {
    var first := PeriodAt(w.from, d) - 2;
    forall k | 0 <= k < |instants|
      ensures instants[k] < w.until <==> first + k < PeriodFrom(w.until, d)
      ensures instants[k] < w.from + 1 <==> k < 3
    {
      MultipleUpTo(first + k, w.until, d);
      MultipleUpTo(first + k, w.from, d);
    }
    var behind := PeriodFrom(w.until, d) - PeriodAt(w.from, d);
    CountIsIndex(instants, w.until, if behind + 2 > 0 then behind + 2 else 0);
    CountIsIndex(instants, w.from + 1, if |instants| < 3 then |instants| else 3);
  }

  /**
    The outcome by the periods that the window's ends lie in. A start that is one to three periods behind the end's makes
    the program panic; further back there is nothing to read.
   */
  lemma ExactVerdict(instants: seq<int>, d: int, w: Window)
    requires d > 0 && IsReadExactly(instants, d, w)
    ensures var behind := PeriodAt(w.from, d) - PeriodFrom(w.until, d);
            TrimVerdict(instants, w) == if behind < 0 then Succeeds
                                        else if behind == 0 || behind > 3 then Refused
                                        else IndexOutOfRange
  {
    ExactCounts(instants, d, w);
  }

  /** What is read for an exact interval is what the other results ask for. */
  lemma ExactIsRead(instants: seq<int>, i: Interval, w: Window)
    requires IsExact(i) && IsReadExactly(instants, MaxDuration(i), w)
    ensures IsRead(instants, i, w) && HasLongPairs(instants, i)
  {
    var d := MaxDuration(i);
    var f, u := PeriodAt(w.from, d), PeriodFrom(w.until, d);
    MultipleUpTo(f, w.from, d);
    MultipleUpTo(u, w.until, d);
    MultipleUpTo(u - 1, w.until, d);
    Spread(f, d);
    Spread(u, d);
    forall a, b | 0 <= a < b < |instants|
      ensures instants[a] < instants[b] && (b == a + 2 ==> instants[b] - instants[a] == 2 * d)
    {
      Ordered(f - 2 + a + 1, f - 2 + b, d);
      Spread(f - 2 + a, d);
    }
    if f >= u + 4 {
      Ordered(u + 4, f, d);
      Spread(u, d);
    }
  }

  lemma Spread(m: int, d: int)
    ensures (m - 2) * d == m * d - 2 * d && (m - 1) * d == m * d - d && (m + 1) * d == m * d + d
    ensures (m + 2) * d == m * d + 2 * d && (m + 4) * d == m * d + 4 * d
  {
  }

  /** Asking for five-minute buckets from second 1000 to second 300 reads two instants and indexes past them. */
  lemma BackwardWindowPanics()
    ensures IsReadExactly([300, 600], MaxDuration(Min5), Window(1000, 300))
    ensures IsRead([300, 600], Min5, Window(1000, 300))
    ensures TrimVerdict([300, 600], Window(1000, 300)) == IndexOutOfRange
  {
    ExactIsRead([300, 600], Min5, Window(1000, 300));
    ExactVerdict([300, 600], 300, Window(1000, 300));
  }

  // ---------------------------------------------------------------------------------------------
  // Generating timestamps

  /** What a window leads to: too wide ones are refused before anything is read. */
  function WindowVerdict(i: Interval, instants: seq<int>, w: Window): Verdict {
    if IsTooWide(i, w) then Refused else TrimVerdict(instants, w)
  }

  method GenerateTimestamps(interval: Interval, w: Window, instants: seq<int>) returns (r: Outcome)
    requires IsRead(instants, interval, w)
    ensures Matches(r, WindowVerdict(interval, instants, w))
    ensures r.Ok? ==> IsTrim(r.timestamps, instants, w)
  {
    if MaxDuration(interval) * CUTOFF_WINDOW_LENGTH < w.until - w.from {
      return BadRequest;
    }
    PositiveMargin(interval);
    r := Trim(instants, w);
  }

  method BucketsFromWindow(w: Window, interval: Interval, instants: seq<int>) returns (r: Outcome)
    requires IsRead(instants, interval, w)
    ensures r == Panic <==> Panics(WindowVerdict(interval, instants, w))
    ensures r.Ok? ==> WindowVerdict(interval, instants, w) == Succeeds
    ensures r.Ok? ==> IsTrim(r.timestamps, instants, w) && |r.timestamps| - 1 <= MAX_INTERVAL_COUNT
    ensures r == BadRequest && WindowVerdict(interval, instants, w) == Succeeds ==>
        exists trimmed :: IsTrim(trimmed, instants, w) && MAX_INTERVAL_COUNT < |trimmed| - 1
  {
    r := GenerateTimestamps(interval, w, instants);
    if r.Ok? && MAX_INTERVAL_COUNT < |r.timestamps| - 1 {
      assert IsTrim(r.timestamps, instants, w);
      return BadRequest;
    }
  }

  // ---------------------------------------------------------------------------------------------
  // Restricting to the blocks there are

  /** At most one instant before the first block and one after the last are left, and none between them is lost. */
  ghost predicate IsRestricted(run: seq<int>, all: seq<int>, firstBlock: int, lastBlock: int) {
    && IsRun(run, all) && |all| >= |run| >= 2
    && (run[0] == all[0] || run[0] < firstBlock)
    && (run[|run| - 1] == all[|all| - 1] || lastBlock < run[|run| - 1])
    && (|run| > 2 ==> firstBlock <= run[1] && run[|run| - 2] <= lastBlock)
    && forall t | t in all && firstBlock <= t <= lastBlock :: t in run
  }

  /** The first instant is at or before `start`, or else before the first block; the second is after `start`. */
  predicate StartsAt(times: seq<int>, start: int, firstBlock: int) {
    |times| >= 2 && (times[0] <= start || times[0] < firstBlock) && start < times[1]
  }

  /** The last instant is at or after `end`, or else after the last block; the one before it is before `end`. */
  predicate EndsAt(times: seq<int>, end: int, lastBlock: int) {
    |times| >= 2 && (end <= times[|times| - 1] || lastBlock < times[|times| - 1]) && times[|times| - 2] < end
  }

  lemma RestrictedStarts(run: seq<int>, all: seq<int>, start: int, firstBlock: int, lastBlock: int)
    requires Increasing(all) && IsRestricted(run, all, firstBlock, lastBlock) && all[0] <= start < all[1]
    ensures StartsAt(run, start, firstBlock)
  {
    var a, b :| 0 <= a <= b <= |all| && run == all[a..b];
    assert run[1] == all[a + 1] && all[1] <= all[a + 1];
  }

  lemma RestrictedEnds(run: seq<int>, all: seq<int>, end: int, firstBlock: int, lastBlock: int)
    requires Increasing(all) && IsRestricted(run, all, firstBlock, lastBlock) && all[|all| - 2] < end <= all[|all| - 1]
    ensures EndsAt(run, end, lastBlock)
  {
    var a, b :| 0 <= a <= b <= |all| && run == all[a..b];
    assert run[|run| - 2] == all[b - 2] && all[b - 2] <= all[|all| - 2];
  }

  lemma Restricts(all: seq<int>, first: nat, last: nat, firstBlock: int, lastBlock: int)
    requires Increasing(all) && first < last < |all|
    requires last < |all| - 1 ==> lastBlock < all[last]
    requires first > 0 ==> all[first] < firstBlock
    requires last - first > 1 ==> firstBlock <= all[first + 1] && all[last - 1] <= lastBlock
    ensures IsRestricted(all[first..last + 1], all, firstBlock, lastBlock)
  {
    var run := all[first..last + 1];
    forall t | t in all && firstBlock <= t <= lastBlock
      ensures t in run
    {
      var k :| 0 <= k < |all| && all[k] == t;
      assert first <= k <= last;
      assert run[k - first] == t;
    }
  }

  method RestrictBuckets(firstBlock: int, lastBlock: int, timestamps: seq<int>) returns (r: seq<int>)
    requires Increasing(timestamps) && |timestamps| >= 2
    ensures IsRestricted(r, timestamps, firstBlock, lastBlock)
    ensures timestamps[1] >= firstBlock && timestamps[|timestamps| - 2] <= lastBlock ==> r == timestamps
  {
    var firstOk, lastOk := 0, |timestamps| - 1;
    while 1 < lastOk && lastBlock < timestamps[lastOk - 1]
      invariant 1 <= lastOk < |timestamps|
      invariant lastOk < |timestamps| - 1 ==> lastBlock < timestamps[lastOk]
    {
      lastOk := lastOk - 1;
    }
    while firstOk < lastOk - 1 && timestamps[firstOk + 1] < firstBlock
      invariant 0 <= firstOk < lastOk
      invariant firstOk > 0 ==> timestamps[firstOk] < firstBlock
    {
      firstOk := firstOk + 1;
    }
    r := timestamps[firstOk..lastOk + 1];
    Restricts(timestamps, firstOk, lastOk, firstBlock, lastBlock);
  }

  // ---------------------------------------------------------------------------------------------
  // Requests

  ghost predicate HasGaps(times: seq<int>, most: int) {
    forall i, j | 0 <= i < j < |times| && j == i + 1 :: times[j] - times[i] <= most
  }

  lemma {:induction false} SpanOfGaps(times: seq<int>, most: int, k: nat)
    requires HasGaps(times, most) && k < |times|
    ensures times[k] - times[0] <= k * most
  {
    if k > 0 {
      SpanOfGaps(times, most, k - 1);
      assert times[k - 1 + 1] - times[k - 1] <= most;
    }
  }

  lemma RunHasGaps(run: seq<int>, all: seq<int>, most: int)
    requires IsRun(run, all) && HasGaps(all, most)
    ensures HasGaps(run, most)
  {
    var a, b :| 0 <= a <= b <= |all| && run == all[a..b];
    forall i, j | 0 <= i < j < |run| && j == i + 1
      ensures run[j] - run[i] <= most
    {
      assert run[i] == all[a + i] && run[j] == all[a + j];
    }
  }

  lemma FewerTimes(n: int, count: int, most: int)
    requires n < count && most > 0
    ensures n * most < count * most
  {
  }

  /** A window of `count` longest intervals holds at least `count` buckets. */
  lemma WindowHoldsCount(trimmed: seq<int>, instants: seq<int>, w: Window, count: int, most: int)
    requires HasGaps(instants, most) && most > 0
    requires IsTrim(trimmed, instants, w) && w.until - w.from == count * most
    ensures count <= |trimmed| - 1
  {
    RunHasGaps(trimmed, instants, most);
    SpanOfGaps(trimmed, most, |trimmed| - 1);
    if |trimmed| - 1 < count {
      FewerTimes(|trimmed| - 1, count, most);
    }
  }

  /** What a request asks for. */
  datatype Request = Request(from: Option<int>, to: Option<int>, count: Option<int>, interval: Interval)

  predicate IsBadCount(q: Request) {
    q.count.Some? && (q.count.value < 1 || 400 < q.count.value || (q.from.Some? && q.to.Some?))
  }

  /** The window a request looks at. */
  function WindowOf(q: Request, firstSecond: int, nowSecond: int): Window {
    match q.count
    case None =>
      Window(if q.from.Some? then q.from.value else firstSecond, if q.to.Some? then q.to.value else nowSecond)
    case Some(count) =>
      var span := count * MaxDuration(q.interval);
      if q.to.None? && q.from.Some? then Window(q.from.value, q.from.value + span)
      else
        var to := if q.to.Some? then q.to.value else nowSecond;
        Window(to - span, to)
  }

  /** With a count: the last or first `count` buckets of the restricted run, all of it when it is shorter. */
  ghost predicate IsCounted(r: seq<int>, q: Request, w: Window, instants: seq<int>, firstSecond: int, nowSecond: int)
    requires q.count.Some?
  {
    exists trimmed, restricted :: IsCut(r, q, w, instants, firstSecond, nowSecond, trimmed, restricted)
  }

  ghost predicate IsCut(r: seq<int>, q: Request, w: Window, instants: seq<int>, firstSecond: int, nowSecond: int,
                        trimmed: seq<int>, restricted: seq<int>)
    requires q.count.Some?
  {
    && IsTrim(trimmed, instants, w)
    && IsRestricted(restricted, trimmed, firstSecond, nowSecond)
    && IsCutTo(r, restricted, q.count.value, q.to.None? && q.from.Some?)
  }

  ghost predicate IsCutTo(r: seq<int>, restricted: seq<int>, count: int, forwards: bool) {
    if |restricted| - 1 <= count then r == restricted
    else |r| - 1 == count && if forwards then r <= restricted else IsSuffix(r, restricted)
  }

  ghost predicate IsSuffix(r: seq<int>, s: seq<int>) {
    |r| <= |s| && r == s[|s| - |r|..]
  }

  /** Without a count: the first 400 buckets of the window, restricted to the blocks there are. */
  ghost predicate IsUncounted(r: seq<int>, w: Window, instants: seq<int>, firstSecond: int, nowSecond: int) {
    exists trimmed ::
      && IsTrim(trimmed, instants, w)
      && IsRestricted(r, if |trimmed| - 1 > MAX_INTERVAL_COUNT then trimmed[..MAX_INTERVAL_COUNT + 1] else trimmed,
                      firstSecond, nowSecond)
  }

  /** The window holds more than 400 buckets. */
  ghost predicate HasOver400(instants: seq<int>, w: Window) {
    exists trimmed :: IsTrim(trimmed, instants, w) && |trimmed| - 1 > 400
  }

  method WithoutCount(q: Request, firstSecond: int, nowSecond: int, instants: seq<int>) returns (r: Outcome)
    requires q.count.None?
    requires IsRead(instants, q.interval, WindowOf(q, firstSecond, nowSecond))
    ensures Matches(r, WindowVerdict(q.interval, instants, WindowOf(q, firstSecond, nowSecond)))
    ensures r.Ok? ==> IsUncounted(r.timestamps, WindowOf(q, firstSecond, nowSecond), instants, firstSecond, nowSecond)
    ensures r.Ok? ==> 1 <= |r.timestamps| - 1 <= MAX_INTERVAL_COUNT
    ensures r.Ok? ==> StartsAt(r.timestamps, if q.from.Some? then q.from.value else firstSecond, firstSecond)
    ensures r.Ok? ==> EndsAt(r.timestamps, if q.to.Some? then q.to.value else nowSecond, nowSecond)
                      || HasOver400(instants, WindowOf(q, firstSecond, nowSecond))
  {
    var from := if q.from.None? then firstSecond else q.from.value;
    var to := if q.to.None? then nowSecond else q.to.value;
    r := GenerateTimestamps(q.interval, Window(from, to), instants);
    if !r.Ok? {
      return;
    }
    var restricted := RestrictTrimmed(Window(from, to), firstSecond, nowSecond, r.timestamps, instants);
    r := Ok(restricted);
  }

  /** The first 400 buckets of those trimmed, restricted. */
  method RestrictTrimmed(w: Window, firstSecond: int, nowSecond: int, trimmed: seq<int>, ghost instants: seq<int>)
      returns (r: seq<int>)
    requires Increasing(instants) && IsTrim(trimmed, instants, w)
    ensures IsUncounted(r, w, instants, firstSecond, nowSecond) && 1 <= |r| - 1 <= MAX_INTERVAL_COUNT
    ensures StartsAt(r, w.from, firstSecond) && (EndsAt(r, w.until, nowSecond) || HasOver400(instants, w))
  {
    RunIncreases(trimmed, instants);
    if MAX_INTERVAL_COUNT < |trimmed| - 1 {
      var first := trimmed[..MAX_INTERVAL_COUNT + 1];
      r := RestrictBuckets(firstSecond, nowSecond, first);
      RestrictedStarts(r, first, w.from, firstSecond, nowSecond);
    } else {
      r := RestrictBuckets(firstSecond, nowSecond, trimmed);
      RestrictedStarts(r, trimmed, w.from, firstSecond, nowSecond);
      RestrictedEnds(r, trimmed, w.until, firstSecond, nowSecond);
    }
  }

  lemma RunIncreases(run: seq<int>, all: seq<int>)
    requires IsRun(run, all) && Increasing(all)
    ensures Increasing(run)
  {
    var a, b :| 0 <= a <= b <= |all| && run == all[a..b];
    assert forall i | 0 <= i < |run| :: run[i] == all[a + i];
  }

  /** A request for a count always finds that many buckets before they are restricted. */
  method TimestampsForCount(q: Request, count: int, w: Window, instants: seq<int>) returns (r: Outcome)
    requires 0 < count <= MAX_INTERVAL_COUNT && w.until - w.from == count * MaxDuration(q.interval)
    requires IsRead(instants, q.interval, w) && HasGaps(instants, MaxDuration(q.interval))
    ensures r.Ok? && IsTrim(r.timestamps, instants, w) && count <= |r.timestamps| - 1
  {
    SpanIsNotTooWide(q.interval, w, count, MaxDuration(q.interval));
    ForwardWindowsSucceed(instants, q.interval, w);
    r := GenerateTimestamps(q.interval, w, instants);
    WindowHoldsCount(r.timestamps, instants, w, count, MaxDuration(q.interval));
  }

  lemma SpanIsNotTooWide(i: Interval, w: Window, count: int, most: int)
    requires 0 < count <= MAX_INTERVAL_COUNT && most == MaxDuration(i)
    requires w.until - w.from == count * most
    ensures !IsTooWide(i, w) && w.from < w.until
  {
    FewerTimes(0, count, most);
    FewerTimes(count, CUTOFF_WINDOW_LENGTH, most);
  }

  method CutToCount(restricted: seq<int>, count: int, forwards: bool) returns (r: seq<int>)
    requires 0 < count && |restricted| >= 2
    ensures IsCutTo(r, restricted, count, forwards)
  {
    r := restricted;
    if count < |restricted| - 1 {
      r := if forwards then restricted[..count + 1] else restricted[|restricted| - 1 - count..];
    }
  }

  /** The two branches that were given a count, from the window on. */
  method WithCount(q: Request, count: int, w: Window, forwards: bool, firstSecond: int, nowSecond: int, instants: seq<int>)
      returns (r: Outcome)
    requires q.count == Some(count) && 0 < count <= MAX_INTERVAL_COUNT && forwards == (q.to.None? && q.from.Some?)
    requires w.until - w.from == count * MaxDuration(q.interval)
    requires IsRead(instants, q.interval, w) && HasGaps(instants, MaxDuration(q.interval))
    ensures r.Ok? && 1 <= |r.timestamps| - 1 <= count
    ensures IsCounted(r.timestamps, q, w, instants, firstSecond, nowSecond)
    ensures firstSecond <= w.from && w.until <= nowSecond ==> |r.timestamps| - 1 == count
    ensures forwards || |r.timestamps| - 1 < count ==> StartsAt(r.timestamps, w.from, firstSecond)
    ensures !forwards || |r.timestamps| - 1 < count ==> EndsAt(r.timestamps, w.until, nowSecond)
  {
    r := TimestampsForCount(q, count, w, instants);
    RunIncreases(r.timestamps, instants);
    var cut;
    ghost var restricted;
    cut, restricted := RestrictToCount(count, w, forwards, firstSecond, nowSecond, r.timestamps);
    IsCounting(cut, q, w, instants, firstSecond, nowSecond, r.timestamps, restricted);
    r := Ok(cut);
  }

  lemma IsCounting(r: seq<int>, q: Request, w: Window, instants: seq<int>, firstSecond: int, nowSecond: int, trimmed: seq<int>,
                   restricted: seq<int>)
    requires q.count.Some? && IsCut(r, q, w, instants, firstSecond, nowSecond, trimmed, restricted)
    ensures IsCounted(r, q, w, instants, firstSecond, nowSecond)
  {
  }

  /** The buckets of those trimmed that there are blocks for, cut to the count. */
  method RestrictToCount(count: int, w: Window, forwards: bool, firstSecond: int, nowSecond: int, trimmed: seq<int>)
      returns (r: seq<int>, ghost restricted: seq<int>)
    requires 0 < count <= |trimmed| - 1 && Increasing(trimmed)
    requires trimmed[0] <= w.from < trimmed[1] && trimmed[|trimmed| - 2] < w.until <= trimmed[|trimmed| - 1]
    ensures IsRestricted(restricted, trimmed, firstSecond, nowSecond) && IsCutTo(r, restricted, count, forwards)
    ensures 1 <= |r| - 1 <= count
    ensures firstSecond <= w.from && w.until <= nowSecond ==> |r| - 1 == count
    ensures forwards || |r| - 1 < count ==> StartsAt(r, w.from, firstSecond)
    ensures !forwards || |r| - 1 < count ==> EndsAt(r, w.until, nowSecond)
  {
    var times := RestrictBuckets(firstSecond, nowSecond, trimmed);
    r := CutToCount(times, count, forwards);
    restricted := times;
    CutReaches(r, restricted, trimmed, w, count, forwards, firstSecond, nowSecond);
  }

  lemma CutReaches(r: seq<int>, restricted: seq<int>, trimmed: seq<int>, w: Window, count: int, forwards: bool, firstSecond: int,
                   nowSecond: int)
    requires 0 < count && IsCutTo(r, restricted, count, forwards)
    requires Increasing(trimmed) && IsRestricted(restricted, trimmed, firstSecond, nowSecond)
    requires trimmed[0] <= w.from < trimmed[1] && trimmed[|trimmed| - 2] < w.until <= trimmed[|trimmed| - 1]
    ensures forwards || |r| - 1 < count ==> StartsAt(r, w.from, firstSecond)
    ensures !forwards || |r| - 1 < count ==> EndsAt(r, w.until, nowSecond)
  {
    RestrictedStarts(restricted, trimmed, w.from, firstSecond, nowSecond);
    RestrictedEnds(restricted, trimmed, w.until, firstSecond, nowSecond);
  }

  /** generateBucketsWithInterval */
  method GenerateBucketsWithInterval(q: Request, firstSecond: int, nowSecond: int, instants: seq<int>) returns (r: Outcome)
    requires !IsBadCount(q) ==> IsRead(instants, q.interval, WindowOf(q, firstSecond, nowSecond))
    requires q.count.Some? ==> HasGaps(instants, MaxDuration(q.interval))
    ensures IsBadCount(q) ==> r == BadRequest
    ensures !IsBadCount(q) && q.count.Some? ==>
        && r.Ok?
        && IsCounted(r.timestamps, q, WindowOf(q, firstSecond, nowSecond), instants, firstSecond, nowSecond)
        && var w := WindowOf(q, firstSecond, nowSecond);
           firstSecond <= w.from && w.until <= nowSecond ==> |r.timestamps| - 1 == q.count.value
    ensures q.count.None? ==>
        var w := WindowOf(q, firstSecond, nowSecond);
        && Matches(r, WindowVerdict(q.interval, instants, w))
        && (r.Ok? ==> IsUncounted(r.timestamps, w, instants, firstSecond, nowSecond))
    // From the start asked for, or the first block, to the end asked for, or now - or for the first 400 buckets.
    ensures r.Ok? && q.count.None? ==>
        var start, end := if q.from.Some? then q.from.value else firstSecond, if q.to.Some? then q.to.value else nowSecond;
        && StartsAt(r.timestamps, start, firstSecond)
        && (EndsAt(r.timestamps, end, nowSecond) || HasOver400(instants, Window(start, end)))
    // The last `count` buckets before an end or now, or the first `count` from a start: all there are, if there are fewer.
    ensures r.Ok? && q.count.Some? && (q.to.Some? || q.from.None?) ==>
        var count, end := q.count.value, if q.to.Some? then q.to.value else nowSecond;
        && EndsAt(r.timestamps, end, nowSecond)
        && (|r.timestamps| - 1 == count
            || (|r.timestamps| - 1 < count && StartsAt(r.timestamps, end - count * MaxDuration(q.interval), firstSecond)))
    ensures r.Ok? && q.count.Some? && q.to.None? && q.from.Some? ==>
        var count, start := q.count.value, q.from.value;
        && StartsAt(r.timestamps, start, firstSecond)
        && (|r.timestamps| - 1 == count
            || (|r.timestamps| - 1 < count && EndsAt(r.timestamps, start + count * MaxDuration(q.interval), nowSecond)))
    ensures r.Ok? ==> 1 <= |r.timestamps| - 1 <= 400
  {
    if q.count.None? {
      r := WithoutCount(q, firstSecond, nowSecond, instants);
      return;
    }
    var count := q.count.value;
    if count < 1 || MAX_INTERVAL_COUNT < count {
      return BadRequest;
    }
    if q.from.Some? && q.to.Some? {
      return BadRequest;
    }
    var span := count * MaxDuration(q.interval);
    var to := if q.to.None? then nowSecond else q.to.value;
    var window := if q.from.Some? then Window(q.from.value, q.from.value + span) else Window(to - span, to);
    assert window == WindowOf(q, firstSecond, nowSecond);
    r := WithCount(q, count, window, q.from.Some?, firstSecond, nowSecond, instants);
  }
}
