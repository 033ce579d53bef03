/** The load-time cleaning of the stock table in app.py: the timestamp
    column is converted to date-times (line 10), the five price and volume
    columns are coerced to numbers (line 13), rows with a missing value are
    dropped (line 16) and the rest are sorted by timestamp (line 19).

    A cell holds what a pandas cell can hold here: the text read from the
    file, a date-time (an integer count of nanoseconds since the epoch, as
    pandas stores it), a number, or the missing marker (NaN / NaT).
    Parsing text is left abstract: the two parsers are parameters. */
module Cleaning {
  import opened Wrappers
  import opened Seqs

  datatype Cell = Text(text: string) | Time(stamp: int) | Number(value: int) | NA

  /** One row of the table, one cell per column of the file's header
      Timestamp, Open, High, Low, Close, Volume. */
  datatype Row = Row(timestamp: Cell, open: Cell, high: Cell, low: Cell, close: Cell, volume: Cell)

  /** The date-time conversion raised on a cell it could not parse. */
  datatype LoadError = UnparseableTimestamp(text: string)

  /** What the date-time parser makes of a text: a date-time, the text
      "NaT" in any of the spellings pandas accepts, or nothing valid. */
  datatype TimeText = Parsed(nanos: int) | NotATime | Invalid

  // ---------------------------------------------------------------------
  // Line 10: pd.to_datetime on the Timestamp column, without errors='coerce'

  /** The date-time conversion of one cell; `None` when the conversion
      raises. A number is read with pandas' default unit, nanoseconds. */
  function ToDatetime(c: Cell, parse: string -> TimeText): (r: Option<Cell>)
    ensures r.None? <==> c.Text? && parse(c.text).Invalid?
    ensures r.Some? ==> (r.value.Time? || r.value.NA?)
    ensures r.Some? ==> (r.value.NA? <==> c.NA? || (c.Text? && parse(c.text).NotATime?))
    ensures c.Text? && parse(c.text).Parsed? ==> r == Some(Time(parse(c.text).nanos))
    ensures c.Time? ==> r == Some(c)
    ensures c.Number? ==> r == Some(Time(c.value))
  {
    match c
    case Text(s) =>
      (match parse(s)
       case Parsed(t) => Some(Time(t))
       case NotATime => Some(NA)
       case Invalid => None)
    case Time(_) => Some(c)
    case Number(v) => Some(Time(v))
    case NA => Some(NA)
  }

  /** The whole column converted, or the error for the first cell that
      cannot be parsed: one bad cell fails the entire table. */
  function ConvertTimestamps(t: seq<Row>, parse: string -> TimeText): (r: Result<seq<Row>, LoadError>)
    ensures r.Success? <==> forall i :: 0 <= i < |t| ==> ToDatetime(t[i].timestamp, parse).Some?
    ensures r.Success? ==> |r.value| == |t|
    ensures r.Success? ==> forall i :: 0 <= i < |t| ==>
      r.value[i] == t[i].(timestamp := ToDatetime(t[i].timestamp, parse).value)
  {
    if t == [] then Success([])
    else match ToDatetime(t[0].timestamp, parse)
      case None => Failure(UnparseableTimestamp(t[0].timestamp.text))
      case Some(c) =>
        match ConvertTimestamps(t[1..], parse)
        case Failure(e) => Failure(e)
        case Success(rest) => Success([t[0].(timestamp := c)] + rest)
  }

  /** The error reported names the first unparseable timestamp. */
  lemma {:induction false} ConvertTimestampsFirstError(t: seq<Row>, parse: string -> TimeText, k: nat)
    requires k < |t| && t[k].timestamp.Text? && parse(t[k].timestamp.text).Invalid?
    requires forall i :: 0 <= i < k ==> ToDatetime(t[i].timestamp, parse).Some?
    ensures ConvertTimestamps(t, parse) == Failure(UnparseableTimestamp(t[k].timestamp.text))
  {
    if k > 0 {
      ConvertTimestampsFirstError(t[1..], parse, k - 1);
    }
  }

  // ---------------------------------------------------------------------
  // Line 13: pd.to_numeric with errors='coerce' on the five numeric columns

  /** The numeric coercion of one cell: anything unparseable becomes NA.
      A date-time becomes its count of seconds. */
  function ToNumeric(c: Cell, parse: string -> Option<int>): (r: Cell)
    ensures r.Number? || r.NA?
    ensures r.NA? <==> c.NA? || (c.Text? && parse(c.text).None?)
    ensures c.Text? && r.Number? ==> r.value == parse(c.text).value
    ensures c.Number? ==> r == c
    ensures c.Time? ==> r == Number(c.stamp)
  {
    match c
    case Text(s) => (match parse(s) case Some(v) => Number(v) case None => NA)
    case Time(t) => Number(t)
    case Number(_) => c
    case NA => NA
  }

  function CoerceRow(r: Row, parse: string -> Option<int>): Row {
    r.(open := ToNumeric(r.open, parse), high := ToNumeric(r.high, parse),
       low := ToNumeric(r.low, parse), close := ToNumeric(r.close, parse),
       volume := ToNumeric(r.volume, parse))
  }

  /** A row whose five numeric cells are each a number or NA. */
  predicate NumericOrNA(r: Row) {
    (r.open.Number? || r.open.NA?) && (r.high.Number? || r.high.NA?) &&
    (r.low.Number? || r.low.NA?) && (r.close.Number? || r.close.NA?) &&
    (r.volume.Number? || r.volume.NA?)
  }

  /** Line 13 on the whole table: the timestamps are untouched and no
      numeric cell is left holding text. */
  function CoerceNumeric(t: seq<Row>, parse: string -> Option<int>): (r: seq<Row>)
    ensures |r| == |t| && forall i :: 0 <= i < |t| ==> r[i] == CoerceRow(t[i], parse)
    ensures forall i :: 0 <= i < |t| ==> r[i].timestamp == t[i].timestamp && NumericOrNA(r[i])
  {
    seq(|t|, i requires 0 <= i < |t| => CoerceRow(t[i], parse))
  }

  // ---------------------------------------------------------------------
  // Line 16: dropna

  predicate HasNA(r: Row) {
    r.timestamp.NA? || r.open.NA? || r.high.NA? || r.low.NA? || r.close.NA? || r.volume.NA?
  }

  predicate NoNA(r: Row) {
    !HasNA(r)
  }

  /** Line 16: removes exactly the rows with a missing value. It adds no
      row, alters none, keeps every occurrence of a row without a missing
      value, and keeps the survivors in their original relative order. */
  function DropNa(t: seq<Row>): (r: seq<Row>)
    ensures IsSubsequence(r, t)
    ensures forall x :: multiset(r)[x] == if HasNA(x) then 0 else multiset(t)[x]
    ensures forall x :: x in r <==> x in t && !HasNA(x)
  {
    KeepIsSubsequence(t, NoNA);
    KeepCounts(t, NoNA);
    Keep(t, NoNA)
  }

  /** The number of rows dropped is the number of rows with a missing value. */
  lemma {:induction false} DropNaCount(t: seq<Row>)
    ensures |t| - |DropNa(t)| == |Keep(t, HasNA)|
  {
    KeepPartition(t, NoNA, HasNA);
  }

  // ---------------------------------------------------------------------
  // Lines 10-16 together

  /** A fully typed row: a date-time and five numbers. */
  predicate Complete(r: Row) {
    r.timestamp.Time? && r.open.Number? && r.high.Number? && r.low.Number? &&
    r.close.Number? && r.volume.Number?
  }

  /** The table after lines 10, 13 and 16, before sorting. */
  function Clean(t: seq<Row>, parseTime: string -> TimeText, parseNum: string -> Option<int>): (r: Result<seq<Row>, LoadError>)
    ensures r.Failure? <==> exists i :: 0 <= i < |t| && t[i].timestamp.Text? && parseTime(t[i].timestamp.text).Invalid?
    ensures r.Success? ==> forall i :: 0 <= i < |r.value| ==> Complete(r.value[i])
    ensures r.Success? ==> |r.value| <= |t|
  {
    match ConvertTimestamps(t, parseTime)
    case Failure(e) => Failure(e)
    case Success(u) =>
      var c := CoerceNumeric(u, parseNum);
      DropNaComplete(c);
      Success(DropNa(c))
  }

  /** Once every timestamp is a date-time or NA and every numeric cell a
      number or NA, the rows that survive dropna are complete. */
  lemma {:induction false} DropNaComplete(t: seq<Row>)
    requires forall i :: 0 <= i < |t| ==> t[i].timestamp.Time? || t[i].timestamp.NA?
    requires forall i :: 0 <= i < |t| ==> NumericOrNA(t[i])
    ensures forall i :: 0 <= i < |DropNa(t)| ==> Complete(DropNa(t)[i])
  {
  }

  /** A numeric cell that line 13 turns into a number. */
  predicate NumericParses(c: Cell, parse: string -> Option<int>) {
    c.Number? || c.Time? || (c.Text? && parse(c.text).Some?)
  }

  /** An input row whose timestamp becomes a date-time at line 10 and whose
      five numeric cells become numbers at line 13, stated on the input. */
  predicate Survives(r: Row, parseTime: string -> TimeText, parseNum: string -> Option<int>) {
    (r.timestamp.Time? || r.timestamp.Number? || (r.timestamp.Text? && parseTime(r.timestamp.text).Parsed?)) &&
    NumericParses(r.open, parseNum) && NumericParses(r.high, parseNum) && NumericParses(r.low, parseNum) &&
    NumericParses(r.close, parseNum) && NumericParses(r.volume, parseNum)
  }

  /** An input row as lines 10 and 13 leave it. */
  function Cleaned(r: Row, parseTime: string -> TimeText, parseNum: string -> Option<int>): Row
    requires ToDatetime(r.timestamp, parseTime).Some?
  {
    CoerceRow(r.(timestamp := ToDatetime(r.timestamp, parseTime).value), parseNum)
  }

  /** A converted and coerced row has no missing value exactly when the
      input row survives. */
  lemma CleanedHasNA(r: Row, parseTime: string -> TimeText, parseNum: string -> Option<int>)
    requires ToDatetime(r.timestamp, parseTime).Some?
    ensures HasNA(Cleaned(r, parseTime, parseNum)) <==> !Survives(r, parseTime, parseNum)
  {
  }

  /** When the load does not abort, the cleaned form of an input row is in
      the result exactly when that row survives, and the result keeps the
      converted rows in their original order. */
  lemma {:induction false} CleanKeepsExactlySurvivors(t: seq<Row>, parseTime: string -> TimeText, parseNum: string -> Option<int>)
    requires Clean(t, parseTime, parseNum).Success?
    ensures forall i :: 0 <= i < |t| ==> ToDatetime(t[i].timestamp, parseTime).Some?
    ensures forall i :: 0 <= i < |t| ==>
      (Cleaned(t[i], parseTime, parseNum) in Clean(t, parseTime, parseNum).value <==> Survives(t[i], parseTime, parseNum))
    ensures ConvertTimestamps(t, parseTime).Success?
    ensures IsSubsequence(Clean(t, parseTime, parseNum).value, CoerceNumeric(ConvertTimestamps(t, parseTime).value, parseNum))
  {
    var u := ConvertTimestamps(t, parseTime).value;
    var c := CoerceNumeric(u, parseNum);
    assert Clean(t, parseTime, parseNum).value == DropNa(c);
    forall i | 0 <= i < |t|
      ensures Cleaned(t[i], parseTime, parseNum) in DropNa(c) <==> Survives(t[i], parseTime, parseNum)
    {
      assert c[i] == Cleaned(t[i], parseTime, parseNum);
      assert c[i] in c;
      CleanedHasNA(t[i], parseTime, parseNum);
    }
  }

  /** A table with one unparseable timestamp does not lose that row: the
      whole load fails, because line 10 passes no coercion option. */
  lemma MalformedTimestampAbortsLoad(parseTime: string -> TimeText, parseNum: string -> Option<int>)
    requires parseTime("2024-01-01T09:00").Parsed? && parseTime("2024-01-02T09:00").Parsed?
    requires parseTime("bad").Invalid?
    ensures Clean([
      Row(Text("2024-01-01T09:00"), Text("100"), Text("101"), Text("99"), Text("100.5"), Text("1000")),
      Row(Text("2024-01-02T09:00"), Text("101"), Text("102"), Text("100"), Text("101.5"), Text("1500")),
      Row(Text("bad"), Text("x"), Text("y"), Text("z"), Text("w"), Text("v"))],
      parseTime, parseNum) == Failure(UnparseableTimestamp("bad"))
  {
  }

  // ---------------------------------------------------------------------
  // Line 19: sort_values(by='Timestamp')

  /** Every row has a date-time, as after cleaning. */
  predicate AllStamped(t: seq<Row>) {
    forall i :: 0 <= i < |t| ==> t[i].timestamp.Time?
  }

  /** `a` may precede `b` in a table sorted by timestamp. */
  predicate NotAfter(a: Row, b: Row) {
    a.timestamp.Time? && b.timestamp.Time? && a.timestamp.stamp <= b.timestamp.stamp
  }

  predicate SortedByTime(t: seq<Row>) {
    SortedBy(t, NotAfter)
  }

  /** `x` placed into a sorted table of stamped rows so that it stays sorted. */
  function Insert(x: Row, s: seq<Row>): (r: seq<Row>)
    requires x.timestamp.Time? && SortedByTime(s) && AllStamped(s)
    ensures SortedByTime(r) && multiset(r) == multiset(s) + multiset{x}
    ensures AllStamped(r)
  {
    if s == [] then [x]
    else if NotAfter(x, s[0]) then
      InsertAtFront(x, s);
      [x] + s
    else
      var rest := Insert(x, s[1..]);
      InsertBehind(x, s, rest);
      [s[0]] + rest
  }

  lemma {:induction false} InsertAtFront(x: Row, s: seq<Row>)
    requires x.timestamp.Time? && SortedByTime(s) && AllStamped(s)
    requires s != [] && NotAfter(x, s[0])
    ensures SortedByTime([x] + s)
  {
  }

  lemma {:induction false} InsertBehind(x: Row, s: seq<Row>, rest: seq<Row>)
    requires x.timestamp.Time? && SortedByTime(s) && AllStamped(s)
    requires s != [] && NotAfter(s[0], x)
    requires SortedByTime(rest) && multiset(rest) == multiset(s[1..]) + multiset{x}
    ensures SortedByTime([s[0]] + rest) && multiset([s[0]] + rest) == multiset(s) + multiset{x}
  {
    assert s == [s[0]] + s[1..];
    var r := [s[0]] + rest;
    forall i, j | 0 <= i < j < |r| ensures NotAfter(r[i], r[j]) {
      if i == 0 {
        var y := rest[j - 1];
        assert y in multiset(rest);
        if y != x {
          assert y in multiset(s[1..]);
          var k :| 0 <= k < |s[1..]| && s[1..][k] == y;
          assert s[k + 1] == y;
        }
      } else {
        assert r[i] == rest[i - 1] && r[j] == rest[j - 1];
      }
    }
  }

  // ---------------------------------------------------------------------
  // The table `df`, updated in place by lines 10, 13, 16 and 19

  class Frame {
    var rows: seq<Row>

    /** The table as read from the file (line 7). */
    constructor (table: seq<Row>)
      ensures rows == table
    {
      rows := table;
    }

    /** Line 10: replaces the Timestamp column by its date-time conversion;
        when a cell cannot be parsed, the table is left as it was and the
        error is returned. */
    method ParseTimestampColumn(parse: string -> TimeText) returns (err: Option<LoadError>)
      modifies this
      ensures err.None? <==> ConvertTimestamps(old(rows), parse).Success?
      ensures err.None? ==> rows == ConvertTimestamps(old(rows), parse).value
      ensures err.Some? ==> rows == old(rows) && Failure(err.value) == ConvertTimestamps(old(rows), parse)
    {
      var src := rows;
      var out: seq<Row> := [];
      var i := 0;
      while i < |src|
        invariant 0 <= i <= |src| && |out| == i
        invariant forall k :: 0 <= k < i ==> ToDatetime(src[k].timestamp, parse).Some?
        invariant forall k :: 0 <= k < i ==> out[k] == src[k].(timestamp := ToDatetime(src[k].timestamp, parse).value)
      {
        match ToDatetime(src[i].timestamp, parse)
        case None =>
          ConvertTimestampsFirstError(src, parse, i);
          return Some(UnparseableTimestamp(src[i].timestamp.text));
        case Some(c) =>
          out := out + [src[i].(timestamp := c)];
        i := i + 1;
      }
      rows := out;
      return None;
    }

    /** Line 13: coerces the five numeric columns, unparseable cells
        becoming NA. */
    method CoerceNumericColumns(parse: string -> Option<int>)
      modifies this
      ensures rows == CoerceNumeric(old(rows), parse)
    {
      var src := rows;
      var out: seq<Row> := [];
      var i := 0;
      while i < |src|
        invariant 0 <= i <= |src| && |out| == i
        invariant forall k :: 0 <= k < i ==> out[k] == CoerceRow(src[k], parse)
      {
        out := out + [CoerceRow(src[i], parse)];
        i := i + 1;
      }
      rows := out;
    }

    /** Line 16: drops every row with a missing value. */
    method DropMissing()
      modifies this
      ensures rows == DropNa(old(rows))
    {
      var src := rows;
      var kept: seq<Row> := [];
      var i := 0;
      while i < |src|
        invariant 0 <= i <= |src|
        invariant kept == Keep(src[..i], NoNA)
      {
        assert src[..i + 1] == src[..i] + [src[i]];
        KeepAppend(src[..i], [src[i]], NoNA);
        if NoNA(src[i]) {
          kept := kept + [src[i]];
        }
        i := i + 1;
      }
      assert src[..i] == src;
      rows := kept;
    }

    /** Line 19: sorts the rows by timestamp. Only the order of rows with
        different timestamps is determined. */
    method SortByTimestamp()
      requires AllStamped(rows)
      modifies this
      ensures SortedByTime(rows) && multiset(rows) == multiset(old(rows))
    {
      var src := rows;
      var sorted: seq<Row> := [];
      var i := 0;
      while i < |src|
        invariant 0 <= i <= |src|
        invariant SortedByTime(sorted) && AllStamped(sorted)
        invariant multiset(sorted) == multiset(src[..i])
      {
        assert src[..i + 1] == src[..i] + [src[i]];
        sorted := Insert(src[i], sorted);
        i := i + 1;
      }
      assert src[..i] == src;
      rows := sorted;
    }
  }

  /** Lines 7-19: the table the dashboard works on, or the error that
      aborted the load. */
  method Load(table: seq<Row>, parseTime: string -> TimeText, parseNum: string -> Option<int>)
    returns (r: Result<seq<Row>, LoadError>)
    ensures r.Failure? <==> Clean(table, parseTime, parseNum).Failure?
    ensures r.Failure? ==> r == Clean(table, parseTime, parseNum)
    ensures r.Success? ==> SortedByTime(r.value)
    ensures r.Success? ==> multiset(r.value) == multiset(Clean(table, parseTime, parseNum).value)
    ensures r.Success? ==> forall i :: 0 <= i < |r.value| ==> Complete(r.value[i])
    ensures r.Success? ==> forall i :: 0 <= i < |table| ==>
      ToDatetime(table[i].timestamp, parseTime).Some? &&
      (Cleaned(table[i], parseTime, parseNum) in r.value <==> Survives(table[i], parseTime, parseNum))
  {
    var df := new Frame(table);
    var err := df.ParseTimestampColumn(parseTime);
    if err.Some? {
      return Failure(err.value);
    }
    df.CoerceNumericColumns(parseNum);
    df.DropMissing();
    ghost var cleaned := df.rows;
    assert cleaned == Clean(table, parseTime, parseNum).value;
    CleanKeepsExactlySurvivors(table, parseTime, parseNum);
    df.SortByTimestamp();
    forall i | 0 <= i < |df.rows| ensures Complete(df.rows[i]) {
      assert df.rows[i] in multiset(cleaned);
    }
    forall x ensures x in df.rows <==> x in cleaned {
      assert x in df.rows <==> x in multiset(df.rows);
      assert x in cleaned <==> x in multiset(cleaned);
    }
    r := Success(df.rows);
  }
}
