/** How the text renderer turns each element of a list into a record
    (a dict in insertion order): model objects lose their private, `raw_data`
    and `None` attributes, dict elements keep every field, and both have
    binary fields replaced by a placeholder; any other element becomes
    the one-field record `{"value": item}`. */
module Records {
  import opened Results
  import opened Strings
  import Decimal
  import opened Values
  import opened BinaryField

  type Record = seq<Field>

  /** `record.get(key)`. */
  function Lookup(r: Record, key: string): Option<Value>
    decreases |r|
  {
    if |r| == 0 then None
    else if r[0].key == key then Some(r[0].value)
    else Lookup(r[1..], key)
  }

  /** `item.get(key)` finds a field exactly when the key occurs, and then returns
      the value of the first field with that key. */
  lemma {:induction false} LookupFinds(r: Record, key: string)
    ensures Lookup(r, key).Some? <==> exists i :: 0 <= i < |r| && r[i].key == key
    ensures Lookup(r, key).Some? ==> exists i ::
      && 0 <= i < |r| && r[i] == Field(key, Lookup(r, key).value)
      && forall j :: 0 <= j < i ==> r[j].key != key
    decreases |r|
  {
    if |r| > 0 && r[0].key != key {
      var t := r[1..];
      LookupFinds(t, key);
      if Lookup(r, key).Some? {
        var i :| 0 <= i < |t| && t[i] == Field(key, Lookup(t, key).value) && forall j :: 0 <= j < i ==> t[j].key != key;
        assert r[i + 1] == t[i];
        forall j | 0 <= j < i + 1 ensures r[j].key != key {
          if j > 0 {
            assert r[j] == t[j - 1];
          }
        }
      }
      if exists i :: 0 <= i < |r| && r[i].key == key {
        var i :| 0 <= i < |r| && r[i].key == key;
        assert t[i - 1] == r[i];
      }
    }
  }

  /** What is shown instead of binary content: the length of the value's text, in bytes. */
  function Placeholder(v: Value): string {
    "[BINARY DATA - " + Decimal.NatToString(|PyStr(v)|) + " bytes]"
  }

  /** The placeholder reports the length of the hidden value's text, and nothing else of it. */
  lemma PlaceholderReportsLength(v: Value)
    ensures exists count ::
      && Placeholder(v) == "[BINARY DATA - " + count + " bytes]"
      && Decimal.ParseInt(count) == Some(|PyStr(v)|)
    ensures forall w :: |PyStr(w)| == |PyStr(v)| ==> Placeholder(w) == Placeholder(v)
  {
    Decimal.ParseIntRoundTrip(|PyStr(v)|);
    assert Decimal.IntToString(|PyStr(v)|) == Decimal.NatToString(|PyStr(v)|);
  }

  /** The field as the renderer keeps it: binary content replaced by its placeholder. */
  function Redact(f: Field): Field {
    if IsBinaryField(f.key, f.value) then Field(f.key, Str(Placeholder(f.value))) else f
  }

  /** The attribute filter for model objects: no `_` prefix, not `raw_data`, not `None`. */
  predicate Visible(f: Field) {
    !StartsWith(f.key, "_") && f.key != "raw_data" && !f.value.Null?
  }

  /** The attributes of a model object that are kept, in their order. */
  function VisibleFields(attrs: seq<Field>): seq<Field>
    decreases |attrs|
  {
    if |attrs| == 0 then []
    else
      var last := attrs[|attrs| - 1];
      VisibleFields(attrs[..|attrs| - 1]) + (if Visible(last) then [last] else [])
  }

  /** The kept attributes are exactly the visible ones. */
  lemma {:induction false} VisibleFieldsFilters(attrs: seq<Field>)
    ensures forall f :: f in VisibleFields(attrs) <==> f in attrs && Visible(f)
    ensures |VisibleFields(attrs)| <= |attrs|
    ensures forall k :: 0 <= k < |VisibleFields(attrs)| ==> Visible(VisibleFields(attrs)[k])
    ensures (forall a :: a in attrs ==> Visible(a)) ==> VisibleFields(attrs) == attrs
    decreases |attrs|
  {
    if |attrs| > 0 {
      var init := attrs[..|attrs| - 1];
      VisibleFieldsFilters(init);
      assert attrs == init + [attrs[|attrs| - 1]];
    }
  }

  /** The filter keeps the order of the attributes: filtering two runs of
      attributes one after the other is filtering their concatenation. */
  lemma {:induction false} VisibleFieldsConcat(a: seq<Field>, b: seq<Field>)
    ensures VisibleFields(a + b) == VisibleFields(a) + VisibleFields(b)
    decreases |b|
  {
    if |b| == 0 {
      assert a + b == a;
    } else {
      var init := b[..|b| - 1];
      VisibleFieldsConcat(a, init);
      assert (a + b)[..|a + b| - 1] == a + init;
      assert (a + b)[|a + b| - 1] == b[|b| - 1];
    }
  }

  /** The record of a dict element: every field, redacted, in order. */
  function DictRecord(fields: seq<Field>): (r: Record)
    ensures |r| == |fields|
  {
    seq(|fields|, i requires 0 <= i < |fields| => Redact(fields[i]))
  }

  lemma DictRecordConcat(a: seq<Field>, b: seq<Field>)
    ensures DictRecord(a + b) == DictRecord(a) + DictRecord(b)
  {
  }

  /** The record of a model object's attributes: the visible attributes, redacted, in order. */
  function ObjectRecord(attrs: seq<Field>): Record {
    DictRecord(VisibleFields(attrs))
  }

  /** The record of one list element. */
  function RecordOf(item: Value): Record {
    match item
    case Object(attrs, _) => ObjectRecord(attrs)
    case Dict(fields) => DictRecord(fields)
    case _ => [Field("value", item)]
  }

  /** An object's record is exactly its visible attributes, each redacted, in their order:
      no private, `raw_data` or `None` attribute survives, and every other one does. */
  lemma ObjectRecordFilters(attrs: seq<Field>)
    ensures forall f :: f in ObjectRecord(attrs) ==> exists a :: a in attrs && Visible(a) && f == Redact(a)
    ensures forall a :: a in attrs && Visible(a) ==> Redact(a) in ObjectRecord(attrs)
    ensures forall f :: f in ObjectRecord(attrs) ==> !StartsWith(f.key, "_") && f.key != "raw_data" && !f.value.Null?
    ensures |ObjectRecord(attrs)| <= |attrs|
  {
    var vis := VisibleFields(attrs);
    VisibleFieldsFilters(attrs);
    forall f | f in ObjectRecord(attrs)
      ensures (exists a :: a in attrs && Visible(a) && f == Redact(a)) && Visible(f)
    {
      var k :| 0 <= k < |vis| && DictRecord(vis)[k] == f;
      assert vis[k] in vis;
      RedactKeepsVisible(vis[k]);
    }
    forall a | a in attrs && Visible(a) ensures Redact(a) in ObjectRecord(attrs) {
      var k :| 0 <= k < |vis| && vis[k] == a;
      assert DictRecord(vis)[k] == Redact(a);
    }
  }

  /** Redacting a field keeps its key and never turns its value into `None`. */
  lemma RedactKeepsVisible(f: Field)
    requires Visible(f)
    ensures Redact(f).key == f.key && Visible(Redact(f))
  {
  }

  /** A dict element keeps every key in order, `None` values included; only binary values change. */
  lemma DictRecordKeepsFields(fields: seq<Field>)
    ensures |DictRecord(fields)| == |fields|
    ensures forall i :: 0 <= i < |fields| ==>
      && DictRecord(fields)[i].key == fields[i].key
      && (IsBinaryField(fields[i].key, fields[i].value) ==>
            DictRecord(fields)[i].value == Str(Placeholder(fields[i].value)))
      && (!IsBinaryField(fields[i].key, fields[i].value) ==> DictRecord(fields)[i].value == fields[i].value)
  {
  }

  /** A scalar or list element becomes `{"value": item}` and is never redacted,
      even when it looks binary. */
  lemma ScalarElementUnredacted(item: Value)
    requires !item.Object? && !item.Dict?
    ensures RecordOf(item) == [Field("value", item)]
  {
  }

  /** Builds a model object's record attribute by attribute. */
  method ObjectToRecord(attrs: seq<Field>) returns (record: Record)
    ensures record == ObjectRecord(attrs)
  {
    record := [];
    for i := 0 to |attrs|
      invariant record == ObjectRecord(attrs[..i])
    {
      var f := attrs[i];
      if Visible(f) {
        if IsBinaryField(f.key, f.value) {
          record := record + [Field(f.key, Str(Placeholder(f.value)))];
        } else {
          record := record + [f];
        }
      }
      assert attrs[..i + 1][..i] == attrs[..i];
      DictRecordConcat(VisibleFields(attrs[..i]), if Visible(f) then [f] else []);
    }
    assert attrs[..|attrs|] == attrs;
  }

  /** Builds a dict element's record field by field. */
  method DictToRecord(fields: seq<Field>) returns (record: Record)
    ensures record == DictRecord(fields)
  {
    record := [];
    for i := 0 to |fields|
      invariant |record| == i
      invariant forall k :: 0 <= k < i ==> record[k] == Redact(fields[k])
    {
      var f := fields[i];
      if IsBinaryField(f.key, f.value) {
        record := record + [Field(f.key, Str(Placeholder(f.value)))];
      } else {
        record := record + [f];
      }
    }
  }

  /** Builds one record per list element, in order. */
  method ToRecords(items: seq<Value>) returns (records: seq<Record>)
    ensures |records| == |items|
    ensures forall i :: 0 <= i < |items| ==> records[i] == RecordOf(items[i])
  {
    records := [];
    for i := 0 to |items|
      invariant |records| == i
      invariant forall k :: 0 <= k < i ==> records[k] == RecordOf(items[k])
    {
      var record: Record;
      match items[i] {
        case Object(attrs, _) =>
          record := ObjectToRecord(attrs);
        case Dict(fields) =>
          record := DictToRecord(fields);
        case _ =>
          record := [Field("value", items[i])];
      }
      records := records + [record];
    }
  }
}
