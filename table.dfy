/** The aligned table the text renderer prints for a list of at most ten
    distinct field names: sorted headers, column widths, a header row, a
    dashed separator and one row per record. */
module Table {
  import opened Results
  import opened Strings
  import opened Ordering
  import opened Values
  import opened Records

  /** More distinct field names than this switch to the multiline layout. */
  const MaxTableColumns := 10
  const ColumnSeparator := " | "

  function KeysOf(r: Record): set<string> {
    set i | 0 <= i < |r| :: r[i].key
  }

  /** The union of the keys of all records (the set `all_keys`). */
  function AllKeys(records: seq<Record>): set<string> {
    set i, j | 0 <= i < |records| && 0 <= j < |records[i]| :: records[i][j].key
  }

  /** Adds the keys of one record, in order, to the sorted headers. */
  function InsertKeys(headers: seq<string>, r: Record): seq<string>
    decreases |r|
  {
    if |r| == 0 then headers else InsertSorted(InsertKeys(headers, r[..|r| - 1]), r[|r| - 1].key)
  }

  /** The sorted, duplicate-free union of the records' keys, built one key at a time in the order the records list them. */
  function HeadersOf(records: seq<Record>): seq<string>
    decreases |records|
  {
    if |records| == 0 then [] else InsertKeys(HeadersOf(records[..|records| - 1]), records[|records| - 1])
  }

  lemma {:induction false} InsertKeysCorrect(headers: seq<string>, r: Record)
    requires StrictlySorted(headers)
    ensures StrictlySorted(InsertKeys(headers, r))
    ensures Elements(InsertKeys(headers, r)) == Elements(headers) + KeysOf(r)
    decreases |r|
  {
    if |r| > 0 {
      var init := r[..|r| - 1];
      InsertKeysCorrect(headers, init);
      InsertSortedCorrect(InsertKeys(headers, init), r[|r| - 1].key);
      assert KeysOf(r) == KeysOf(init) + {r[|r| - 1].key} by {
        forall k | k in KeysOf(r) ensures k in KeysOf(init) + {r[|r| - 1].key} {
          var i :| 0 <= i < |r| && r[i].key == k;
          if i < |r| - 1 {
            assert init[i].key == k;
          }
        }
        forall k | k in KeysOf(init) ensures k in KeysOf(r) {
          var i :| 0 <= i < |init| && init[i].key == k;
          assert r[i].key == k;
        }
      }
    }
  }

  /** The headers are sorted, duplicate-free, and exactly the keys that occur in some record. */
  lemma {:induction false} HeadersOfCorrect(records: seq<Record>)
    ensures StrictlySorted(HeadersOf(records))
    ensures Elements(HeadersOf(records)) == AllKeys(records)
    decreases |records|
  {
    if |records| > 0 {
      var init := records[..|records| - 1];
      var last := records[|records| - 1];
      HeadersOfCorrect(init);
      InsertKeysCorrect(HeadersOf(init), last);
      assert AllKeys(records) == AllKeys(init) + KeysOf(last) by {
        forall k | k in AllKeys(records) ensures k in AllKeys(init) + KeysOf(last) {
          var i, j :| 0 <= i < |records| && 0 <= j < |records[i]| && records[i][j].key == k;
          if i < |records| - 1 {
            assert init[i][j].key == k;
          }
        }
        forall k | k in AllKeys(init) ensures k in AllKeys(records) {
          var i, j :| 0 <= i < |init| && 0 <= j < |init[i]| && init[i][j].key == k;
          assert records[i][j].key == k;
        }
        forall k | k in KeysOf(last) ensures k in AllKeys(records) {
          var j :| 0 <= j < |last| && last[j].key == k;
          assert records[|records| - 1][j].key == k;
        }
      }
    }
  }

  /** The headers are what `sorted(all_keys)` gives: the only sorted, duplicate-free
      sequence of exactly the record keys. */
  lemma HeadersAreSortedKeys(records: seq<Record>, sortedKeys: seq<string>)
    requires StrictlySorted(sortedKeys) && Elements(sortedKeys) == AllKeys(records)
    ensures sortedKeys == HeadersOf(records)
  {
    HeadersOfCorrect(records);
    SortedUnique(sortedKeys, HeadersOf(records));
  }

  /** Collects the headers record by record and key by key. */
  method CollectHeaders(records: seq<Record>) returns (headers: seq<string>)
    ensures headers == HeadersOf(records)
    ensures StrictlySorted(headers)
    ensures forall k :: k in headers <==> k in AllKeys(records)
  {
    headers := [];
    for i := 0 to |records|
      invariant headers == HeadersOf(records[..i])
    {
      var r := records[i];
      for j := 0 to |r|
        invariant headers == InsertKeys(HeadersOf(records[..i]), r[..j])
      {
        headers := InsertSorted(headers, r[j].key);
        assert r[..j + 1][..j] == r[..j];
      }
      assert r[..|r|] == r;
      assert records[..i + 1][..i] == records[..i];
    }
    assert records[..|records|] == records;
    HeadersOfCorrect(records);
  }

  /** `col_widths[header]`: the header's length raised to each present value's text length. */
  function ColumnWidth(records: seq<Record>, h: string): nat
    decreases |records|
  {
    if |records| == 0 then |h|
    else
      var w := ColumnWidth(records[..|records| - 1], h);
      match Lookup(records[|records| - 1], h)
      case None => w
      case Some(v) => if |PyStr(v)| > w then |PyStr(v)| else w
  }

  /** The width is the largest of the header's length and the lengths of the column's values. */
  lemma {:induction false} ColumnWidthIsMax(records: seq<Record>, h: string)
    ensures ColumnWidth(records, h) >= |h|
    ensures forall i :: 0 <= i < |records| && Lookup(records[i], h).Some? ==>
      |PyStr(Lookup(records[i], h).value)| <= ColumnWidth(records, h)
    ensures ColumnWidth(records, h) == |h| ||
      exists i :: 0 <= i < |records| && Lookup(records[i], h).Some? &&
                  |PyStr(Lookup(records[i], h).value)| == ColumnWidth(records, h)
    decreases |records|
  {
    if |records| > 0 {
      var init := records[..|records| - 1];
      ColumnWidthIsMax(init, h);
      assert forall i :: 0 <= i < |init| ==> init[i] == records[i];
    }
  }

  /** `str(item.get(header, ""))`. */
  function Cell(r: Record, h: string): string {
    PyStr(Lookup(r, h).GetOr(Str("")))
  }

  lemma CellFits(records: seq<Record>, h: string, i: int)
    requires 0 <= i < |records|
    ensures |Cell(records[i], h)| <= ColumnWidth(records, h)
  {
    ColumnWidthIsMax(records, h);
  }

  function Widths(records: seq<Record>, headers: seq<string>): map<string, nat> {
    map h | h in headers :: ColumnWidth(records, h)
  }

  function HeaderRow(headers: seq<string>, widths: map<string, nat>): string
    requires forall h :: h in headers ==> h in widths
  {
    Join(ColumnSeparator, seq(|headers|, i requires 0 <= i < |headers| => LJust(headers[i], widths[headers[i]])))
  }

  function DataRow(r: Record, headers: seq<string>, widths: map<string, nat>): string
    requires forall h :: h in headers ==> h in widths
  {
    Join(ColumnSeparator, seq(|headers|, i requires 0 <= i < |headers| => LJust(Cell(r, headers[i]), widths[headers[i]])))
  }

  /** One data row per record, in the records' order. */
  function DataRows(records: seq<Record>, headers: seq<string>, widths: map<string, nat>): seq<string>
    requires forall h :: h in headers ==> h in widths
  {
    seq(|records|, i requires 0 <= i < |records| => DataRow(records[i], headers, widths))
  }

  /** The `lines` of the table. */
  function TableLines(records: seq<Record>, headers: seq<string>): seq<string> {
    var widths := Widths(records, headers);
    var header := HeaderRow(headers, widths);
    [header, Repeat('-', |header|)] + DataRows(records, headers, widths)
  }

  /** Every data row is exactly as long as the header row, because every column
      is as wide as its widest cell. */
  lemma RowMatchesHeader(records: seq<Record>, headers: seq<string>, n: int)
    requires 0 <= n < |records|
    ensures |DataRow(records[n], headers, Widths(records, headers))| == |HeaderRow(headers, Widths(records, headers))|
  {
    var widths := Widths(records, headers);
    var headerCells := seq(|headers|, i requires 0 <= i < |headers| => LJust(headers[i], widths[headers[i]]));
    var cells := seq(|headers|, i requires 0 <= i < |headers| => LJust(Cell(records[n], headers[i]), widths[headers[i]]));
    forall i | 0 <= i < |headers| ensures |cells[i]| == |headerCells[i]| {
      ColumnWidthIsMax(records, headers[i]);
      CellFits(records, headers[i], n);
    }
    JoinSameShape(ColumnSeparator, cells, headerCells);
  }

  /** The table has the header row, a separator of exactly its length, and one row
      per record, each as long as the header row. */
  lemma TableLayout(records: seq<Record>, headers: seq<string>)
    ensures var lines := TableLines(records, headers);
      && |lines| == 2 + |records|
      && lines[1] == Repeat('-', |lines[0]|)
      && forall i :: 2 <= i < |lines| ==> |lines[i]| == |lines[0]|
  {
    var lines := TableLines(records, headers);
    HeaderLine(records, headers);
    forall i | 2 <= i < |lines| ensures |lines[i]| == |lines[0]| {
      DataLine(records, headers, i);
      RowMatchesHeader(records, headers, i - 2);
    }
  }

  lemma HeaderLine(records: seq<Record>, headers: seq<string>)
    ensures TableLines(records, headers)[0] == HeaderRow(headers, Widths(records, headers))
  {
  }

  /** Line `i` of the table, past the header and the separator, is row `i - 2`. */
  lemma DataLine(records: seq<Record>, headers: seq<string>, i: int)
    requires 2 <= i < |records| + 2
    ensures TableLines(records, headers)[i] == DataRow(records[i - 2], headers, Widths(records, headers))
  {
  }

  /** Computes every column's width as a running maximum over the records. */
  method ColumnWidths(records: seq<Record>, headers: seq<string>) returns (widths: map<string, nat>)
    ensures widths == Widths(records, headers)
  {
    widths := map[];
    for i := 0 to |headers|
      invariant widths == Widths(records, headers[..i])
    {
      var h := headers[i];
      var w: nat := |h|;
      for j := 0 to |records|
        invariant w == ColumnWidth(records[..j], h)
      {
        match Lookup(records[j], h) {
          case None =>
          case Some(v) =>
            if |PyStr(v)| > w {
              w := |PyStr(v)|;
            }
        }
        assert records[..j + 1][..j] == records[..j];
      }
      assert records[..|records|] == records;
      widths := widths[h := w];
      assert headers[..i + 1] == headers[..i] + [h];
    }
    assert headers[..|headers|] == headers;
  }

  /** The header row, its separator, then one row per record. */
  method BuildTable(records: seq<Record>, headers: seq<string>) returns (lines: seq<string>)
    ensures lines == TableLines(records, headers)
  {
    var widths := ColumnWidths(records, headers);
    var header := HeaderRow(headers, widths);
    lines := [header, Repeat('-', |header|)];
    for i := 0 to |records|
      invariant lines == [header, Repeat('-', |header|)] +
        DataRows(records[..i], headers, widths)
    {
      lines := lines + [DataRow(records[i], headers, widths)];
    }
    assert records[..|records|] == records;
  }
}
