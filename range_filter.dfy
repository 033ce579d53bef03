/** The date-range view of app.py: the default range spans the earliest to
    the latest date in the table (line 27), and the view keeps the rows
    whose calendar date lies inclusively between the two chosen dates
    (line 28). Timestamps count nanoseconds since the epoch, as pandas
    stores them; dates are day numbers counted from the epoch, and a
    timestamp's date is the day that contains it. */
module RangeFilter {
  import opened Seqs
  import opened Cleaning

  const NanosPerDay: int := 86_400_000_000_000

  /** The calendar date of a timestamp: the time of day is dropped. */
  function Day(ts: int): (d: int)
    ensures d * NanosPerDay <= ts < (d + 1) * NanosPerDay
  {
    ts / NanosPerDay
  }

  lemma DayMonotone(a: int, b: int)
    requires a <= b
    ensures Day(a) <= Day(b)
  {
  }

  /** The mask of line 28 for one row. A missing timestamp compares false. */
  predicate InRange(r: Row, start: int, end: int) {
    r.timestamp.Time? && start <= Day(r.timestamp.stamp) && Day(r.timestamp.stamp) <= end
  }

  function Within(start: int, end: int): Row -> bool {
    r => InRange(r, start, end)
  }

  /** Line 28: the rows dated from `start` to `end`, both included. The
      view keeps exactly the rows in range, each as often as in the table,
      and nothing else; it is a subsequence of the table, so a sorted table
      gives a sorted view. */
  function SelectRange(t: seq<Row>, start: int, end: int): (r: seq<Row>)
    ensures forall x :: multiset(r)[x] == if InRange(x, start, end) then multiset(t)[x] else 0
    ensures forall x :: x in r <==> x in t && InRange(x, start, end)
    ensures IsSubsequence(r, t)
    ensures SortedByTime(t) ==> SortedByTime(r)
  {
    KeepCounts(t, Within(start, end));
    KeepIsSubsequence(t, Within(start, end));
    if SortedByTime(t) then
      SubsequenceSorted(Keep(t, Within(start, end)), t, NotAfter);
      Keep(t, Within(start, end))
    else
      Keep(t, Within(start, end))
  }

  /** Comparing dates only means whole days are selected: a timestamp is in
      range exactly when it falls between midnight at the start of `start`
      and midnight at the end of `end`, so rows at any time on the first or
      the last day are included. */
  lemma {:induction false} InRangeWholeDays(r: Row, start: int, end: int)
    ensures InRange(r, start, end) <==>
      r.timestamp.Time? && start * NanosPerDay <= r.timestamp.stamp < (end + 1) * NanosPerDay
  {
  }

  /** An inverted range selects nothing. */
  lemma {:induction false} SelectRangeInverted(t: seq<Row>, start: int, end: int)
    requires start > end
    ensures SelectRange(t, start, end) == []
  {
  }

  /** Filtering the view again with the same range changes nothing. */
  lemma {:induction false} SelectRangeIdempotent(t: seq<Row>, start: int, end: int)
    ensures SelectRange(SelectRange(t, start, end), start, end) == SelectRange(t, start, end)
  {
    KeepIdempotent(t, Within(start, end));
  }

  // ---------------------------------------------------------------------
  // Line 27: the default range

  function MinStamp(t: seq<Row>): (m: int)
    requires |t| > 0 && AllStamped(t)
    ensures exists i :: 0 <= i < |t| && t[i].timestamp.stamp == m
    ensures forall i :: 0 <= i < |t| ==> m <= t[i].timestamp.stamp
  {
    if |t| == 1 then t[0].timestamp.stamp
    else
      var m := MinStamp(t[1..]);
      assert forall i :: 1 <= i < |t| ==> t[i] == t[1..][i - 1];
      if t[0].timestamp.stamp <= m then t[0].timestamp.stamp else m
  }

  function MaxStamp(t: seq<Row>): (m: int)
    requires |t| > 0 && AllStamped(t)
    ensures exists i :: 0 <= i < |t| && t[i].timestamp.stamp == m
    ensures forall i :: 0 <= i < |t| ==> t[i].timestamp.stamp <= m
  {
    if |t| == 1 then t[0].timestamp.stamp
    else
      var m := MaxStamp(t[1..]);
      assert forall i :: 1 <= i < |t| ==> t[i] == t[1..][i - 1];
      if m <= t[0].timestamp.stamp then t[0].timestamp.stamp else m
  }

  /** The dates of the earliest and the latest timestamp: the first and
      the last date that occur in the table. */
  function DefaultRange(t: seq<Row>): (d: (int, int))
    requires |t| > 0 && AllStamped(t)
    ensures d.0 <= d.1
    ensures exists i :: 0 <= i < |t| && Day(t[i].timestamp.stamp) == d.0
    ensures exists i :: 0 <= i < |t| && Day(t[i].timestamp.stamp) == d.1
    ensures forall i :: 0 <= i < |t| ==> d.0 <= Day(t[i].timestamp.stamp) <= d.1
  {
    var lo, hi := MinStamp(t), MaxStamp(t);
    DayMonotone(lo, hi);
    forall i | 0 <= i < |t| ensures Day(lo) <= Day(t[i].timestamp.stamp) <= Day(hi) {
      DayMonotone(lo, t[i].timestamp.stamp);
      DayMonotone(t[i].timestamp.stamp, hi);
    }
    (Day(lo), Day(hi))
  }

  /** With the default range the view is the whole table. */
  lemma {:induction false} DefaultRangeSelectsAll(t: seq<Row>)
    requires |t| > 0 && AllStamped(t)
    ensures SelectRange(t, DefaultRange(t).0, DefaultRange(t).1) == t
  {
    var (lo, hi) := DefaultRange(t);
    KeepAll(t, Within(lo, hi));
  }
}
