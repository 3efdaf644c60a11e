/** The heuristic that decides whether a field holds binary or blob content
    that the text renderer must not print. */
module BinaryField {
  import opened Strings
  import opened Values

  /** Field names that always mark blob content, compared case-insensitively as substrings. */
  const BinaryFieldNames: seq<string> := [
    "Cert_TemplateFile",
    "TemplateFile",
    "FileContent",
    "BinaryData",
    "ImageData",
    "DocumentData",
    "AttachmentData",
    "FileData"
  ]

  /** A string value must be longer than this before its alphabet is examined. */
  const PrefilterLength := 100
  /** A string value of the base64 alphabet is binary only beyond this length. */
  const EncodedLength := 200
  /** A list is binary when its first element is a string longer than this. */
  const ListItemLength := 100

  /** The class `[A-Za-z0-9+/=\s]`. */
  predicate IsEncodedChar(c: char) {
    ('A' <= c <= 'Z') || ('a' <= c <= 'z') || ('0' <= c <= '9') ||
    c == '+' || c == '/' || c == '=' || IsSpace(c)
  }

  /** The anchored match of one or more characters of the class. An end anchor may
      also match before a final newline, but a newline is itself in the class, so the
      whole string must consist of class characters. */
  predicate MatchesEncodedPattern(s: string) {
    |s| > 0 && forall i :: 0 <= i < |s| ==> IsEncodedChar(s[i])
  }

  /** Some denylisted name, lower-cased, occurs in the lower-cased field name. */
  predicate NameIsDenylisted(name: string) {
    exists k :: 0 <= k < |BinaryFieldNames| && Contains(Lower(name), Lower(BinaryFieldNames[k]))
  }

  /** The denylist check is a case-insensitive substring search. */
  lemma NameIsDenylistedIff(name: string)
    ensures NameIsDenylisted(name) <==>
      exists k, i :: 0 <= k < |BinaryFieldNames| && OccursAt(Lower(name), Lower(BinaryFieldNames[k]), i)
  {
    forall k | 0 <= k < |BinaryFieldNames| {
      ContainsIff(Lower(name), Lower(BinaryFieldNames[k]));
    }
  }

  /** `is_binary_field(field_name, field_value)`. */
  function IsBinaryField(name: string, value: Value): (r: bool)
    ensures NameIsDenylisted(name) ==> r
    ensures !NameIsDenylisted(name) && value.Str? ==>
      (r <==> |value.s| > EncodedLength && forall i :: 0 <= i < |value.s| ==> IsEncodedChar(value.s[i]))
    ensures !NameIsDenylisted(name) && value.List? ==>
      (r <==> |value.items| > 0 && value.items[0].Str? && |value.items[0].s| > ListItemLength)
    ensures !value.Str? && !value.List? ==> (r <==> NameIsDenylisted(name))
  {
    if NameIsDenylisted(name) then true
    else if value.Str? && |value.s| > PrefilterLength && MatchesEncodedPattern(value.s) && |value.s| > EncodedLength then true
    else if value.List? && |value.items| > 0 && value.items[0].Str? && |value.items[0].s| > ListItemLength then true
    else false
  }

  /** A string of at most 200 characters is never binary by content. */
  lemma ShortStringIsPlain(name: string, s: string)
    requires !NameIsDenylisted(name) && |s| <= EncodedLength
    ensures !IsBinaryField(name, Str(s))
  {
  }

  /** A string with one character outside the encoded alphabet is never binary by content. */
  lemma ForeignCharacterIsPlain(name: string, s: string, i: int)
    requires !NameIsDenylisted(name) && 0 <= i < |s| && !IsEncodedChar(s[i])
    ensures !IsBinaryField(name, Str(s))
  {
  }

  /** Upper- or lower-casing the field name does not change the verdict. */
  lemma CaseInsensitiveName(name: string, other: string, value: Value)
    requires Lower(name) == Lower(other)
    ensures IsBinaryField(name, value) == IsBinaryField(other, value)
  {
  }

  /** `Cert_TemplateFile` is redundant in the denylist: every name containing it contains `TemplateFile`. */
  lemma CertTemplateFileSubsumed(name: string)
    requires Contains(Lower(name), Lower(BinaryFieldNames[0]))
    ensures Contains(Lower(name), Lower(BinaryFieldNames[1]))
  {
    var big := Lower(BinaryFieldNames[0]);
    var small := Lower(BinaryFieldNames[1]);
    assert BinaryFieldNames[0] == "Cert_" + BinaryFieldNames[1];
    LowerConcat("Cert_", BinaryFieldNames[1]);
    SuffixContained(Lower("Cert_"), small);
    ContainsTransitive(Lower(name), big, small);
  }

  /** A field named `Cert_TemplateFile` is binary whatever its value. */
  lemma CertTemplateFileIsBinary(value: Value)
    ensures IsBinaryField("Cert_TemplateFile", value)
  {
    var lowered := Lower("Cert_TemplateFile");
    assert lowered == "cert_templatefile";
    assert lowered[..|lowered|] == lowered;
    assert Contains(lowered, Lower(BinaryFieldNames[0]));
  }
}
