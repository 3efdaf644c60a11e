/** `format_table_output`: the text form of any result the command-line
    tool prints. A dict or a model object becomes `key: value` lines, a
    non-empty list becomes an aligned table (or, past ten distinct field
    names, the multiline layout), and anything else is printed with `str`,
    or as "No results found" when it is falsy. */
module Render {
  import opened Results
  import opened Strings
  import opened Ordering
  import opened Values
  import opened BinaryField
  import opened Records
  import opened Table
  import opened Multiline

  const NoResultsText := "No results found"

  /** One `key: value` line of a single object: binary content as its placeholder,
      dicts and lists as JSON, everything else by `str`. */
  function KeyValueLine(f: Field): string {
    f.key + ": " + (if IsBinaryField(f.key, f.value) then Placeholder(f.value) else ValueText(f.value))
  }

  function KeyValueLines(fields: seq<Field>): seq<string>
  {
    seq(|fields|, i requires 0 <= i < |fields| => KeyValueLine(fields[i]))
  }

  /** The records built from the elements of a list. */
  function RecordsOf(items: seq<Value>): seq<Record>
  {
    seq(|items|, i requires 0 <= i < |items| => RecordOf(items[i]))
  }

  /** The lines of a non-empty list: the aligned table, or the multiline layout
      when there are more than ten headers. */
  function ListLines(records: seq<Record>): seq<string> {
    var headers := HeadersOf(records);
    if |headers| > MaxTableColumns then MultilineLines(records, headers) else TableLines(records, headers)
  }

  /** What `format_table_output(data)` returns. */
  function TextOutput(data: Value): string {
    if data.Dict? then Join("\n", KeyValueLines(data.fields))
    else if data.Object? then Join("\n", KeyValueLines(VisibleFields(data.attrs)))
    else if data.List? && |data.items| > 0 then Join("\n", ListLines(RecordsOf(data.items)))
    else if Truthy(data) then PyStr(data)
    else NoResultsText
  }

  /** A binary field never shows its value: its line depends only on its name and
      the length of its text. */
  lemma BinaryValueHidden(key: string, v: Value, w: Value)
    requires IsBinaryField(key, v) && IsBinaryField(key, w)
    requires |PyStr(v)| == |PyStr(w)|
    ensures KeyValueLine(Field(key, v)) == KeyValueLine(Field(key, w))
    ensures KeyValueLine(Field(key, v)) == key + ": " + Placeholder(v)
  {
  }

  /** Data that is neither a dict nor a model object nor a non-empty list prints as `str`
      when truthy and as the no-results text otherwise; an empty dict prints nothing. */
  lemma ScalarOutput(data: Value)
    requires !data.Dict? && !data.Object? && !(data.List? && |data.items| > 0)
    ensures Truthy(data) ==> TextOutput(data) == PyStr(data)
    ensures !Truthy(data) ==> TextOutput(data) == NoResultsText
  {
  }

  lemma EmptyDictIsEmptyText()
    ensures TextOutput(Dict([])) == ""
    ensures TextOutput(List([])) == NoResultsText
    ensures TextOutput(Int(0)) == NoResultsText && TextOutput(Str("")) == NoResultsText
  {
  }

  /** The layout of a non-empty list depends on how many distinct field names its
      records have between them, and the headers are those names in sorted order. */
  lemma ListLayout(items: seq<Value>, headers: seq<string>)
    requires |items| > 0
    requires StrictlySorted(headers) && Elements(headers) == AllKeys(RecordsOf(items))
    ensures |AllKeys(RecordsOf(items))| > MaxTableColumns ==>
      TextOutput(List(items)) == Join("\n", MultilineLines(RecordsOf(items), headers))
    ensures |AllKeys(RecordsOf(items))| <= MaxTableColumns ==>
      TextOutput(List(items)) == Join("\n", TableLines(RecordsOf(items), headers))
  {
    ListOutput(items);
    HeadersAreSortedKeys(RecordsOf(items), headers);
    SortedElementsCount(headers);
  }

  /** A non-empty list prints the lines of its records, joined by newlines. */
  lemma ListOutput(items: seq<Value>)
    requires |items| > 0
    ensures TextOutput(List(items)) == Join("\n", ListLines(RecordsOf(items)))
  {
  }

  /** A list of plain values is a one-column table headed `value`. */
  lemma ScalarListIsValueTable(items: seq<Value>)
    requires |items| > 0
    requires forall i :: 0 <= i < |items| ==> !items[i].Dict? && !items[i].Object?
    ensures HeadersOf(RecordsOf(items)) == ["value"]
    ensures TextOutput(List(items)) == Join("\n", TableLines(RecordsOf(items), ["value"]))
  {
    var records := RecordsOf(items);
    assert AllKeys(records) == {"value"} by {
      forall k | k in AllKeys(records) ensures k == "value" {
        var i, j :| 0 <= i < |records| && 0 <= j < |records[i]| && records[i][j].key == k;
        assert records[i] == [Field("value", items[i])];
      }
      assert records[0] == [Field("value", items[0])];
      assert records[0][0].key == "value";
    }
    assert Elements(["value"]) == {"value"};
    HeadersAreSortedKeys(records, ["value"]);
    ListOutput(items);
  }

  /** The `key: value` lines of a dict or a single object, field by field. */
  method KeyValueLoop(fields: seq<Field>) returns (lines: seq<string>)
    ensures lines == KeyValueLines(fields)
  {
    lines := [];
    for i := 0 to |fields|
      invariant |lines| == i
      invariant forall k :: 0 <= k < i ==> lines[k] == KeyValueLine(fields[k])
    {
      var key := fields[i].key;
      var value := fields[i].value;
      if IsBinaryField(key, value) {
        lines := lines + [key + ": " + Placeholder(value)];
        continue;
      }
      if value.Dict? || value.List? {
        value := Str(JsonDumps(value));
      }
      lines := lines + [key + ": " + PyStr(value)];
    }
  }

  /** The text renderer: dispatches on the shape of the data. */
  method FormatTableOutput(data: Value) returns (out: string)
    ensures out == TextOutput(data)
  {
    if data.Dict? {
      var lines := KeyValueLoop(data.fields);
      out := Join("\n", lines);
    } else if data.Object? {
      var lines := KeyValueLoop(VisibleFields(data.attrs));
      out := Join("\n", lines);
    } else if data.List? && |data.items| > 0 {
      var records := ToRecords(data.items);
      assert records == RecordsOf(data.items);
      var headers := CollectHeaders(records);
      if |headers| > MaxTableColumns {
        out := FormatMultilineTable(records, headers);
      } else {
        var lines := BuildTable(records, headers);
        out := Join("\n", lines);
      }
    } else if Truthy(data) {
      out := PyStr(data);
    } else {
      out := NoResultsText;
    }
  }
}
