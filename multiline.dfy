/** The layout for wide lists (more than ten distinct field names): one block
    per record with a 1-based label, a dashed separator and one
    `header : value` line per header, long values hard-wrapped at 80
    characters under the value column. */
module Multiline {
  import opened Results
  import opened Strings
  import Decimal
  import opened Values
  import opened Records

  const WrapWidth := 80
  /** The separator is this much longer than the widest header. */
  const SeparatorExtra := 50
  /** The length of `" : "`, between the padded header and the value. */
  const ValueGap := 3

  /** The length of the widest header. */
  function MaxHeaderWidth(headers: seq<string>): (w: nat)
    requires |headers| > 0
    ensures forall i :: 0 <= i < |headers| ==> |headers[i]| <= w
    ensures exists i :: 0 <= i < |headers| && |headers[i]| == w
    decreases |headers|
  {
    if |headers| == 1 then |headers[0]|
    else
      var w := MaxHeaderWidth(headers[1..]);
      assert forall i :: 1 <= i < |headers| ==> headers[i] == headers[1..][i - 1];
      if |headers[0]| > w then |headers[0]| else w
  }

  function Concat(parts: seq<string>): string
    decreases |parts|
  {
    if |parts| == 0 then "" else parts[0] + Concat(parts[1..])
  }

  /** The value cut into consecutive 80-character pieces, the last one possibly shorter. */
  function Chunks(s: string): seq<string>
    decreases |s|
  {
    if |s| == 0 then []
    else if |s| <= WrapWidth then [s]
    else [s[..WrapWidth]] + Chunks(s[WrapWidth..])
  }

  /** The chunks put back together give the value again; each has 1 to 80
      characters, all but the last exactly 80, and there are ceil(n / 80) of them. */
  lemma {:induction false} ChunksCorrect(s: string)
    ensures Concat(Chunks(s)) == s
    ensures forall k :: 0 <= k < |Chunks(s)| ==> 0 < |Chunks(s)[k]| <= WrapWidth
    ensures forall k :: 0 <= k < |Chunks(s)| - 1 ==> |Chunks(s)[k]| == WrapWidth
    ensures |Chunks(s)| == (|s| + WrapWidth - 1) / WrapWidth
    decreases |s|
  {
    if |s| > WrapWidth {
      var rest := s[WrapWidth..];
      ChunksCorrect(rest);
      assert Chunks(s)[1..] == Chunks(rest);
      assert s == s[..WrapWidth] + rest;
      forall k | 0 <= k < |Chunks(s)| ensures 0 < |Chunks(s)[k]| <= WrapWidth {
        if k > 0 {
          assert Chunks(s)[k] == Chunks(rest)[k - 1];
        }
      }
      forall k | 0 <= k < |Chunks(s)| - 1 ensures |Chunks(s)[k]| == WrapWidth {
        if k > 0 {
          assert Chunks(s)[k] == Chunks(rest)[k - 1];
        }
      }
    }
  }

  function Min(a: int, b: int): int {
    if a < b then a else b
  }

  /** Cuts the value into chunks, advancing 80 characters at a time. */
  method WrapValue(s: string) returns (chunks: seq<string>)
    ensures chunks == Chunks(s)
  {
    chunks := [];
    var j := 0;
    while j < |s|
      invariant 0 <= j
      invariant chunks + Chunks(s[Min(j, |s|)..]) == Chunks(s)
      decreases |s| - j
    {
      var rest := s[j..];
      var end := Min(j + WrapWidth, |s|);
      if |rest| > WrapWidth {
        assert end == j + WrapWidth;
        assert rest[..WrapWidth] == s[j..end];
        assert rest[WrapWidth..] == s[end..];
        assert Chunks(rest) == [s[j..end]] + Chunks(s[end..]);
      } else {
        assert end == |s| && s[j..end] == rest;
        assert Chunks(rest) == [rest];
        assert Chunks(s[end..]) == [];
      }
      assert (chunks + [s[j..end]]) + Chunks(s[end..]) == chunks + Chunks(rest);
      chunks := chunks + [s[j..end]];
      j := j + WrapWidth;
    }
  }

  /** The indentation of continuation lines: the padded header and `" : "`. */
  function Indent(width: nat): string {
    Repeat(' ', width + ValueGap)
  }

  /** Each chunk of a wrapped value behind the continuation indent. */
  function Indented(chunks: seq<string>, width: nat): seq<string> {
    seq(|chunks|, k requires 0 <= k < |chunks| => Indent(width) + chunks[k])
  }

  function ValueDisplay(text: string, width: nat): string {
    if |text| > WrapWidth then "\n" + Join("\n", Indented(Chunks(text), width)) else text
  }

  /** One field line: the header padded to the widest header, the gap, then the value as displayed. */
  function FieldLine(r: Record, h: string, width: nat): string {
    LJust(h, width) + " : " + ValueDisplay(ValueText(Lookup(r, h).GetOr(Str(""))), width)
  }

  function FieldLines(r: Record, headers: seq<string>, width: nat): seq<string> {
    seq(|headers|, k requires 0 <= k < |headers| => FieldLine(r, headers[k], width))
  }

  function RecordLabel(i: nat): string {
    "Record " + Decimal.NatToString(i + 1) + ":"
  }

  /** The lines for record `i`: a blank line first unless it is the first record. */
  function RecordBlock(i: nat, r: Record, headers: seq<string>, width: nat): seq<string> {
    (if i > 0 then [""] else []) +
    [RecordLabel(i), Repeat('-', width + SeparatorExtra)] +
    FieldLines(r, headers, width)
  }

  function Blocks(records: seq<Record>, headers: seq<string>, width: nat): seq<string>
    decreases |records|
  {
    if |records| == 0 then []
    else Blocks(records[..|records| - 1], headers, width) +
         RecordBlock(|records| - 1, records[|records| - 1], headers, width)
  }

  /** The `lines` of `format_multiline_table(data, headers)`. */
  function MultilineLines(records: seq<Record>, headers: seq<string>): seq<string>
    requires |headers| > 0
  {
    Blocks(records, headers, MaxHeaderWidth(headers))
  }

  /** Each record takes its header count plus two lines, plus the blank line
      that separates it from the previous record. */
  lemma {:induction false} BlocksCount(records: seq<Record>, headers: seq<string>, width: nat)
    ensures |records| == 0 ==> |Blocks(records, headers, width)| == 0
    ensures |records| > 0 ==> |Blocks(records, headers, width)| + 1 == |records| * (|headers| + 3)
    decreases |records|
  {
    if |records| > 0 {
      var n := |records|;
      var h := |headers| + 3;
      BlocksCount(records[..n - 1], headers, width);
      assert |RecordBlock(n - 1, records[n - 1], headers, width)| == (if n > 1 then 1 else 0) + 2 + |headers|;
      MulStep(n, h);
    }
  }

  lemma MulStep(n: int, h: int)
    ensures (n - 1) * h + h == n * h
  {
  }

  /** Record i is labelled `Record i+1:` (the number reads back as i + 1), has a separator
      of the widest header's length plus 50 dashes, is preceded by a blank line exactly
      when it is not the first, and ends with its field lines. */
  lemma BlockStructure(i: nat, r: Record, headers: seq<string>, width: nat)
    ensures var block := RecordBlock(i, r, headers, width);
      var at := if i > 0 then 1 else 0;
      && |block| == at + 2 + |headers|
      && (i > 0 ==> block[0] == "")
      && block[at] == "Record " + Decimal.NatToString(i + 1) + ":"
      && Decimal.ParseInt(Decimal.NatToString(i + 1)) == Some(i + 1)
      && block[at + 1] == Repeat('-', width + SeparatorExtra)
      && block[at + 2..] == FieldLines(r, headers, width)
  {
    BlockShape(i, r, headers, width);
    Decimal.ParseNatRoundTrip(i + 1);
  }

  /** The lines of a block, in order: the optional blank line, the label, the dashes, the fields. */
  lemma BlockShape(i: nat, r: Record, headers: seq<string>, width: nat)
    ensures var block := RecordBlock(i, r, headers, width);
      var at := if i > 0 then 1 else 0;
      && |block| == at + 2 + |headers|
      && (i > 0 ==> block[0] == "")
      && block[at] == RecordLabel(i)
      && block[at + 1] == Repeat('-', width + SeparatorExtra)
      && block[at + 2..] == FieldLines(r, headers, width)
  {
    var block := RecordBlock(i, r, headers, width);
    var fields := FieldLines(r, headers, width);
    var head := if i > 0 then [""] else [];
    var marks := [RecordLabel(i), Repeat('-', width + SeparatorExtra)];
    assert block == head + marks + fields;
    assert block[|head| + 2..] == fields;
  }

  /** Every header is padded to the widest header, so the value column starts at the
      same place on every line, and the continuation lines of a wrapped value are
      indented to exactly that column. */
  lemma ValueColumnAligned(headers: seq<string>, k: int)
    requires 0 <= k < |headers|
    ensures var width := MaxHeaderWidth(headers);
      |LJust(headers[k], width) + " : "| == width + ValueGap == |Indent(width)|
  {
  }

  /** A long value is shown on the following lines, one indented chunk of at most 80
      characters per line, the chunks giving back the value; a value of at most 80
      characters is shown as it is. */
  lemma ValueDisplayWraps(text: string, width: nat)
    ensures |text| <= WrapWidth ==> ValueDisplay(text, width) == text
    ensures |text| > WrapWidth ==>
      && ValueDisplay(text, width) == "\n" + Join("\n", Indented(Chunks(text), width))
      && (forall k :: 0 <= k < |Chunks(text)| ==> 0 < |Chunks(text)[k]| <= WrapWidth)
      && Concat(Chunks(text)) == text
  {
    ChunksCorrect(text);
  }

  /** How one value is shown: dicts and lists as JSON, then wrapped when longer than 80 characters. */
  method DisplayValue(value: Value, width: nat) returns (display: string)
    ensures display == ValueDisplay(ValueText(value), width)
  {
    var v := value;
    if v.Dict? || v.List? {
      v := Str(JsonDumps(v));
    }
    var text := PyStr(v);
    if |text| > WrapWidth {
      var chunks := WrapValue(text);
      display := "\n" + Join("\n", seq(|chunks|, m requires 0 <= m < |chunks| => Indent(width) + chunks[m]));
    } else {
      display := text;
    }
  }

  /** The field lines of one record, one header at a time. */
  method RecordFieldLines(r: Record, headers: seq<string>, width: nat) returns (lines: seq<string>)
    ensures lines == FieldLines(r, headers, width)
  {
    lines := [];
    for k := 0 to |headers|
      invariant lines == FieldLines(r, headers[..k], width)
    {
      var display := DisplayValue(Lookup(r, headers[k]).GetOr(Str("")), width);
      FieldLinesStep(r, headers, width, k);
      lines := lines + [LJust(headers[k], width) + " : " + display];
    }
    assert headers[..|headers|] == headers;
  }

  /** The field lines of two runs of headers are those of the first run, then those of the second. */
  lemma FieldLinesConcat(r: Record, a: seq<string>, b: seq<string>, width: nat)
    ensures FieldLines(r, a + b, width) == FieldLines(r, a, width) + FieldLines(r, b, width)
  {
    var whole := FieldLines(r, a + b, width);
    var parts := FieldLines(r, a, width) + FieldLines(r, b, width);
    forall j | 0 <= j < |whole| ensures whole[j] == parts[j] {
      if j < |a| {
        assert (a + b)[j] == a[j];
      } else {
        assert (a + b)[j] == b[j - |a|];
      }
    }
  }

  lemma FieldLinesStep(r: Record, headers: seq<string>, width: nat, k: int)
    requires 0 <= k < |headers|
    ensures FieldLines(r, headers[..k + 1], width) == FieldLines(r, headers[..k], width) + [FieldLine(r, headers[k], width)]
  {
    assert headers[..k + 1] == headers[..k] + [headers[k]];
    FieldLinesConcat(r, headers[..k], [headers[k]], width);
    assert FieldLines(r, [headers[k]], width) == [FieldLine(r, headers[k], width)];
  }

  /** The lines of one record: the blank line before it, its label, its dashes and its field lines. */
  method RecordLines(i: nat, r: Record, headers: seq<string>, width: nat) returns (block: seq<string>)
    ensures block == RecordBlock(i, r, headers, width)
  {
    block := [];
    if i > 0 {
      block := block + [""];
    }
    block := block + ["Record " + Decimal.NatToString(i + 1) + ":"];
    block := block + [Repeat('-', width + SeparatorExtra)];
    var fields := RecordFieldLines(r, headers, width);
    block := block + fields;
  }

  lemma BlocksStep(records: seq<Record>, headers: seq<string>, width: nat, i: int)
    requires 0 <= i < |records|
    ensures Blocks(records[..i + 1], headers, width) ==
            Blocks(records[..i], headers, width) + RecordBlock(i, records[i], headers, width)
  {
    assert records[..i + 1][..i] == records[..i];
  }

  /** The multiline layout, built one record at a time and joined by newlines. */
  method FormatMultilineTable(records: seq<Record>, headers: seq<string>) returns (out: string)
    requires |headers| > 0
    ensures out == Join("\n", MultilineLines(records, headers))
  {
    var width := MaxHeaderWidth(headers);
    var lines: seq<string> := [];
    for i := 0 to |records|
      invariant lines == Blocks(records[..i], headers, width)
    {
      var block := RecordLines(i, records[i], headers, width);
      BlocksStep(records, headers, width, i);
      lines := lines + block;
    }
    assert records[..|records|] == records;
    out := Join("\n", lines);
  }
}
