/** CSV rows as the upload view handles them: the cells `csv.DictReader`
    yields, the normalisation of the `-date` columns, and `_order_records`,
    which orders the rows of one reference by end date. */
module Records {
  import opened Ascii
  import opened Optional
  import opened Dates

  /** A row as `csv.DictReader` yields it: a `str` per header column, or
      `None` where the line is shorter than the header. */
  type RawRow = map<string, Option<string>>

  /** A row once its cells may also hold dates and entity numbers. */
  type Row = map<string, Value>

  /** `row.get(key)` on a raw row. */
  function RawGet(row: RawRow, key: string): Option<string>
  {
    if key in row then row[key] else None
  }

  /** `row.get(key)` on a row. */
  function Get(row: Row, key: string): Value
  {
    if key in row then row[key] else Null
  }

  function LiftCell(cell: Option<string>): Value
  {
    match cell
    case None => Null
    case Some(s) => Text(s)
  }

  /** The columns the upload view rewrites: those whose name contains "-date". */
  predicate IsDateKey(key: string) { Contains(key, "-date") }

  /** A needle can only occur in a haystack that holds its first character. */
  lemma {:induction false} ContainsFirstChar(haystack: string, needle: string)
    requires needle != [] && needle[0] !in haystack
    ensures !Contains(haystack, needle)
  {
    if haystack != [] {
      ContainsFirstChar(haystack[1..], needle);
    }
  }

  lemma EndDateIsDateKey()
    ensures IsDateKey("end-date")
  {
    assert "end-date"[3..] == "-date";
    assert Contains("end-date"[3..], "-date");
    assert Contains("end-date"[2..], "-date");
    assert Contains("end-date"[1..], "-date");
  }

  lemma EntityIsNotDateKey()
    ensures !IsDateKey("entity")
  {
    assert "-date"[0] !in "entity";
    ContainsFirstChar("entity", "-date");
  }

  /** One cell after normalisation: in a `-date` column an empty or missing
      value becomes `None` and anything else goes through `parse_date`;
      every other column keeps its cell as it was. */
  function NormaliseCell(key: string, cell: Option<string>): (v: Value)
    ensures IsDateKey(key) ==> v.Null? || v.DateValue?
    ensures IsDateKey(key) && (cell.None? || cell.value == "") ==> v == Null
    ensures IsDateKey(key) && cell.Some? && cell.value != "" ==> v == AsValue(ParseDate(Text(cell.value)))
    ensures !IsDateKey(key) ==> v == LiftCell(cell)
  {
    if IsDateKey(key) then
      if cell.None? || cell.value == "" then Null else AsValue(ParseDate(Text(cell.value)))
    else
      LiftCell(cell)
  }

  /** A row after the normalisation loop of the upload view. */
  function NormaliseRow(row: RawRow): (r: Row)
    ensures r.Keys == row.Keys
    ensures forall k :: k in row && IsDateKey(k) ==> r[k].Null? || r[k].DateValue?
    ensures forall k :: k in row && !IsDateKey(k) ==> r[k] == LiftCell(row[k])
  {
    map k | k in row :: NormaliseCell(k, row[k])
  }

  /** A date cell written as `date_to_string` writes it is read back as the
      same date. */
  lemma NormaliseCanonicalDate(key: string, d: Date)
    requires IsDateKey(key)
    ensures NormaliseCell(key, Some(DateToString(DateValue(d)))) == DateValue(d)
  {
    FormatThenParse(d);
  }

  /** `_order_records` compares rows by `end-date`, so it needs that cell to
      be a date or `None` (comparing a `str` with a date raises). */
  predicate EndDateComparable(row: Row) {
    Get(row, "end-date").Null? || Get(row, "end-date").DateValue?
  }

  predicate AllComparable(rows: seq<Row>) {
    forall i :: 0 <= i < |rows| ==> EndDateComparable(rows[i])
  }

  /** A normalised row's end date is always comparable. */
  lemma NormalisedComparable(row: RawRow)
    ensures EndDateComparable(NormaliseRow(row))
  {
    EndDateIsDateKey();
  }

  /** The sort key of `_order_records`: the end date, with a missing one
      standing for `date.max`. */
  function EndKey(row: Row): Date
    requires EndDateComparable(row)
  {
    match Get(row, "end-date")
    case DateValue(d) => d
    case _ => MaxDate
  }

  predicate SortedByEnd(rows: seq<Row>)
    requires AllComparable(rows)
  {
    forall i, j :: 0 <= i < j < |rows| ==> NotAfter(EndKey(rows[i]), EndKey(rows[j]))
  }

  /** Puts `x` after every row whose key is not after its own, as a stable
      sort does for a row that came later in the input. */
  function Insert(x: Row, s: seq<Row>): (r: seq<Row>)
    requires EndDateComparable(x) && AllComparable(s)
    ensures |r| == |s| + 1
    ensures AllComparable(r)
  {
    if s == [] || NotAfter(EndKey(s[|s| - 1]), EndKey(x)) then s + [x]
    else Insert(x, s[..|s| - 1]) + [s[|s| - 1]]
  }

  /** `_order_records`: Python's stable `sorted` by `EndKey`. */
  function OrderRecords(rows: seq<Row>): (r: seq<Row>)
    requires AllComparable(rows)
    ensures |r| == |rows|
    ensures AllComparable(r)
  {
    if rows == [] then []
    else Insert(rows[|rows| - 1], OrderRecords(rows[..|rows| - 1]))
  }

  lemma {:induction false} InsertPermutation(x: Row, s: seq<Row>)
    requires EndDateComparable(x) && AllComparable(s)
    ensures multiset(Insert(x, s)) == multiset(s) + multiset{x}
  {
    if !(s == [] || NotAfter(EndKey(s[|s| - 1]), EndKey(x))) {
      var init := s[..|s| - 1];
      assert s == init + [s[|s| - 1]];
      InsertPermutation(x, init);
    }
  }

  /** `_order_records` returns a rearrangement of its rows. */
  lemma {:induction false} OrderRecordsPermutation(rows: seq<Row>)
    requires AllComparable(rows)
    ensures multiset(OrderRecords(rows)) == multiset(rows)
  {
    if rows != [] {
      var init := rows[..|rows| - 1];
      assert rows == init + [rows[|rows| - 1]];
      OrderRecordsPermutation(init);
      InsertPermutation(rows[|rows| - 1], OrderRecords(init));
    }
  }

  /** Inserting a row no later than `d` among rows no later than `d` gives
      rows no later than `d`. */
  lemma InsertBelow(x: Row, s: seq<Row>, d: Date)
    requires EndDateComparable(x) && AllComparable(s)
    requires NotAfter(EndKey(x), d)
    requires forall i :: 0 <= i < |s| ==> NotAfter(EndKey(s[i]), d)
    ensures forall i :: 0 <= i < |Insert(x, s)| ==> NotAfter(EndKey(Insert(x, s)[i]), d)
  {
    InsertPermutation(x, s);
    var r := Insert(x, s);
    forall i | 0 <= i < |r|
      ensures NotAfter(EndKey(r[i]), d)
    {
      assert r[i] in multiset(r);
      if r[i] != x {
        assert r[i] in multiset(s);
        var j :| 0 <= j < |s| && s[j] == r[i];
      }
    }
  }

  lemma {:induction false} InsertSorted(x: Row, s: seq<Row>)
    requires EndDateComparable(x) && AllComparable(s) && SortedByEnd(s)
    ensures SortedByEnd(Insert(x, s))
  {
    if s == [] || NotAfter(EndKey(s[|s| - 1]), EndKey(x)) {
    } else {
      var init, last := s[..|s| - 1], s[|s| - 1];
      InsertSorted(x, init);
      InsertBelow(x, init, EndKey(last));
    }
  }

  /** `_order_records` returns its rows ordered by end date. */
  lemma {:induction false} OrderRecordsSorted(rows: seq<Row>)
    requires AllComparable(rows)
    ensures SortedByEnd(OrderRecords(rows))
  {
    if rows != [] {
      var init := rows[..|rows| - 1];
      OrderRecordsSorted(init);
      InsertSorted(rows[|rows| - 1], OrderRecords(init));
    }
  }

  /** The rows whose key is `d`, in order. */
  function WithKey(rows: seq<Row>, d: Date): seq<Row>
    requires AllComparable(rows)
  {
    if rows == [] then []
    else
      var init := WithKey(rows[..|rows| - 1], d);
      if EndKey(rows[|rows| - 1]) == d then init + [rows[|rows| - 1]] else init
  }

  lemma {:induction false} WithKeyAppend(a: seq<Row>, b: seq<Row>, d: Date)
    requires AllComparable(a) && AllComparable(b)
    ensures AllComparable(a + b)
    ensures WithKey(a + b, d) == WithKey(a, d) + WithKey(b, d)
    decreases |b|
  {
    if b == [] {
      assert a + b == a;
    } else {
      var b' := b[..|b| - 1];
      assert (a + b)[..|a + b| - 1] == a + b';
      WithKeyAppend(a, b', d);
    }
  }

  lemma {:induction false} InsertStable(x: Row, s: seq<Row>, d: Date)
    requires EndDateComparable(x) && AllComparable(s) && SortedByEnd(s)
    ensures EndKey(x) == d ==> WithKey(Insert(x, s), d) == WithKey(s, d) + [x]
    ensures EndKey(x) != d ==> WithKey(Insert(x, s), d) == WithKey(s, d)
  {
    if s == [] || NotAfter(EndKey(s[|s| - 1]), EndKey(x)) {
      WithKeyAppend(s, [x], d);
      assert WithKey([x], d) == WithKey([], d) + (if EndKey(x) == d then [x] else []);
    } else {
      var init := s[..|s| - 1];
      var last := s[|s| - 1];
      assert s == init + [last];
      assert WithKey([last], d) == WithKey([], d) + (if EndKey(last) == d then [last] else []);
      InsertStable(x, init, d);
      WithKeyAppend(Insert(x, init), [last], d);
      WithKeyAppend(init, [last], d);
      assert EndKey(last) != EndKey(x);
    }
  }

  /** `_order_records` is stable: rows with the same end date keep their
      relative order. */
  lemma {:induction false} OrderRecordsStable(rows: seq<Row>, d: Date)
    requires AllComparable(rows)
    ensures WithKey(OrderRecords(rows), d) == WithKey(rows, d)
  {
    if rows != [] {
      var init := rows[..|rows| - 1];
      OrderRecordsStable(init, d);
      OrderRecordsSorted(init);
      InsertStable(rows[|rows| - 1], OrderRecords(init), d);
    }
  }

  lemma {:induction false} WithKeyHead(rows: seq<Row>)
    requires rows != [] && AllComparable(rows)
    ensures WithKey(rows, EndKey(rows[0])) != []
    ensures WithKey(rows, EndKey(rows[0]))[0] == rows[0]
  {
    WithKeyAppend([rows[0]], rows[1..], EndKey(rows[0]));
    assert [rows[0]] + rows[1..] == rows;
  }

  /** The row that creates the record: it has the earliest end date of its
      group (a missing one counting as `date.max`), and among the rows with
      that end date it is the first in the file. */
  lemma OrderRecordsHead(rows: seq<Row>)
    requires rows != [] && AllComparable(rows)
    ensures forall i :: 0 <= i < |rows| ==> NotAfter(EndKey(OrderRecords(rows)[0]), EndKey(rows[i]))
    ensures WithKey(rows, EndKey(OrderRecords(rows)[0])) != []
    ensures OrderRecords(rows)[0] == WithKey(rows, EndKey(OrderRecords(rows)[0]))[0]
  {
    var ordered := OrderRecords(rows);
    OrderRecordsSorted(rows);
    OrderRecordsPermutation(rows);
    forall i | 0 <= i < |rows|
      ensures NotAfter(EndKey(ordered[0]), EndKey(rows[i]))
    {
      assert rows[i] in multiset(ordered);
      var j :| 0 <= j < |ordered| && ordered[j] == rows[i];
    }
    WithKeyHead(ordered);
    OrderRecordsStable(rows, EndKey(ordered[0]));
  }
}
