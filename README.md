# TMO API command-line core, modelled in Dafny

The `tmoapi` command-line tools for The Mortgage Office API share five
pieces of logic, all in `src/tmo_api/cli/__init__.py`. This project models them and states their
properties as contracts and lemmas:

- **Connection settings** (`Config`). `resolve_config_values` seeds a
  record from the named profile of the profile store. When the profile is
  missing the seed is the built-in `demo` credentials, or, for any other
  name, a `ValidationError` naming the stored profiles. Non-empty
  command-line options then override the seed. `TMO_API_TOKEN` and
  `TMO_DATABASE` fill whatever is still empty. A missing token, then a
  missing database, fails. The environment-name alias table of
  `create_client_from_args` maps the result onto a region.
- **Date windows** (`Dates`). `apply_default_date_ranges` fills in a
  31-day window from whichever dates are given and rejects an end later than
  tomorrow. It updates the argument object in place, modelled as the class
  `DateRangeArgs`.
- **Binary fields** (`BinaryField`). `is_binary_field` hides blob content.
  It checks a case-insensitive denylist of field names, then long strings of
  the base64 alphabet, then lists whose first element is a long string.
- **Tables** (`Records`, `Table`, `Render`). `format_table_output`
  prints a dict or a model object as `key: value` lines. A non-empty list
  becomes records, headed by the sorted union of their keys, and prints as an
  aligned table.
- **Wide tables** (`Multiline`). Past ten headers, `format_multiline_table`
  prints one labelled block per record and hard-wraps values at 80
  characters.

Supporting modules:

- `Results`: option, result and error types.
- `Strings`: lower-casing, substring search, `join`, `ljust` and `strip`.
- `Ordering`: Python's string order, and `sorted` over a set.
- `Decimal`: `str` and `int()` on integers.
- `Values`: the Python values the renderer receives, and their `str`,
  `repr` and `json.dumps` forms.

The state-changing code is written as imperative Dafny:

- `ResolveConfigValues`
- `ApplyDefaultDateRanges` on its class
- the record, header, width, row and wrapping loops

Each method is proved equal to a specification function, and the lemmas are
proved about those functions.

External inputs become parameters:

- The profile store is a value: sections in file order plus the `DEFAULT`
  section they inherit from.
- The process environment is a map.
- The clock is today's day number together with its `MM/DD/YYYY` text.
- The path of the profile file is a string.

## Model

| member | source | states |
|---|---|---|
| Strings.Lower | src/tmo_api/cli/__init__.py:271 | lower-casing keeps the length, leaves no capital letter, turns each capital into its small letter and keeps every other character in place |
| Strings.LowerIdempotent | src/tmo_api/cli/__init__.py:271-272 | lower-casing twice is lower-casing once |
| Strings.ContainsIff | src/tmo_api/cli/__init__.py:272 | the substring test holds exactly when the needle occurs at some offset |
| Strings.ContainsTransitive | src/tmo_api/cli/__init__.py:259-272 | a name containing a longer denylist entry contains every entry inside it |
| Strings.JoinSameShape | src/tmo_api/cli/__init__.py:422-431 | joining parts of equal lengths with one separator gives equal lengths |
| Strings.Strip | src/tmo_api/cli/__init__.py:111 | the stripped text is a contiguous piece of the original that neither starts nor ends with whitespace, and everything cut off before and after it is whitespace |
| Strings.StripIgnoresTrailingSpace | src/tmo_api/cli/__init__.py:111 | whitespace added after a text does not change its strip |
| Strings.LJust | src/tmo_api/cli/__init__.py:422 | `ljust` keeps the text as a prefix, pads with spaces, and has length max(len, width) |
| Ordering.LexLessIrreflexive | src/tmo_api/cli/__init__.py:404 | no string sorts before itself |
| Ordering.LexLessTransitive | src/tmo_api/cli/__init__.py:404 | the string order is transitive |
| Ordering.LexLessTotal | src/tmo_api/cli/__init__.py:404 | any two distinct strings are ordered one way or the other |
| Ordering.InsertSortedCorrect | src/tmo_api/cli/__init__.py:399-404 | adding a key to sorted distinct keys keeps them sorted and distinct, and their set becomes the old set plus that key (unchanged when it was already there) |
| Ordering.SortedUnique | src/tmo_api/cli/__init__.py:404 | there is only one sorted duplicate-free sequence of a given set of keys |
| Ordering.SortedElementsCount | src/tmo_api/cli/__init__.py:404-406 | `len(headers)` is the number of distinct keys |
| Decimal.NatToString | src/tmo_api/cli/__init__.py:339 | a count is printed as a non-empty string of digits |
| Decimal.ParseInt | src/tmo_api/cli/__init__.py:111 | `int()` accepts only text containing a digit |
| Decimal.ParseDigits | src/tmo_api/cli/__init__.py:111 | `int()` reads a plain digit string as the number it denotes |
| Decimal.ParseIntIgnoresLeadingSpace | src/tmo_api/cli/__init__.py:111 | whitespace in front of the number does not change what `int()` reads |
| Decimal.ParseIntIgnoresTrailingSpace | src/tmo_api/cli/__init__.py:111 | whitespace after the number does not change what `int()` reads |
| Decimal.ParseIntCharacters | src/tmo_api/cli/__init__.py:111 | a text `int()` accepts holds, once stripped, only digits, a sign in first place and underscores standing between two digits; any other character makes it fail |
| Decimal.UnitSuffixRejected | src/tmo_api/cli/__init__.py:111 | a timeout written with a unit, such as `30s`, is rejected by `int()` |
| Decimal.ParseIntRoundTrip | src/tmo_api/cli/__init__.py:111 | `int()` reads back exactly the integer that `str` printed |
| Values.PyStr | src/tmo_api/cli/__init__.py:476 | `str` prints a string as itself, `None` as `None`, a list in brackets and a dict in braces |
| Values.PyRepr | src/tmo_api/cli/__init__.py:415 | `repr` of a string is that string in single quotes |
| Values.JsonDumps | src/tmo_api/cli/__init__.py:473 | `json.dumps` puts strings and objects in double quotes, writes `null`, `true` and `false`, and brackets containers |
| Values.ValueText | src/tmo_api/cli/__init__.py:472-476 | a shown value is a bare string, `None`, `True` or `False` via `str`, while containers are JSON (a list of one string shows that string in double quotes) |
| Values.IntTextRoundTrip | src/tmo_api/cli/__init__.py:472-476 | an integer printed by `str` or `json.dumps`, or shown as a value, is text that `int()` reads back as that integer |
| BinaryField.NameIsDenylistedIff | src/tmo_api/cli/__init__.py:259-273 | the name test is a case-insensitive substring search over the eight denylisted names |
| BinaryField.IsBinaryField | src/tmo_api/cli/__init__.py:248-288 | a denylisted name is binary whatever the value; otherwise a string is binary iff it is over 200 characters, all base64 or whitespace; a list is binary iff its first element is a string over 100 characters; any other value is never binary |
| BinaryField.ShortStringIsPlain | src/tmo_api/cli/__init__.py:276-279 | a string of at most 200 characters under a clean name is never binary |
| BinaryField.ForeignCharacterIsPlain | src/tmo_api/cli/__init__.py:278 | one character outside the class makes a string under a clean name plain |
| BinaryField.CaseInsensitiveName | src/tmo_api/cli/__init__.py:271-272 | names that lower-case alike are classified alike |
| BinaryField.CertTemplateFileSubsumed | src/tmo_api/cli/__init__.py:259-261 | any name matching `Cert_TemplateFile` also matches `TemplateFile` |
| BinaryField.CertTemplateFileIsBinary | src/tmo_api/cli/__init__.py:272-273 | a field named `Cert_TemplateFile` is binary whatever its value |
| Config.FindSection | src/tmo_api/cli/__init__.py:104-105 | the profile section is found exactly when a section of that name exists, and it is that section |
| Config.FirstNonEmpty | src/tmo_api/cli/__init__.py:126-138 | the first candidate that is present and non-empty (every earlier one is empty or missing), or none when there is no such candidate |
| Config.SectionGet | src/tmo_api/cli/__init__.py:108-110 | the lookup reads the section laid over the `DEFAULT` section: a key is found exactly when either of them has it, and the section's own value wins |
| Config.StoredTimeoutRead | src/tmo_api/cli/__init__.py:111 | a stored timeout written as an integer's decimal text is read back as exactly that integer |
| Config.ResolveConfigValues | src/tmo_api/cli/__init__.py:82-150 | the step-by-step update of the working record computes the resolution (seed, overrides, environment fallback, validation) |
| Config.ResolvedIsComplete | src/tmo_api/cli/__init__.py:140-150 | a successful resolution has a non-empty token and a non-empty database |
| Config.ResolvePrecedence | src/tmo_api/cli/__init__.py:126-147 | token and database each take the command line, then the profile, then the environment variable; the token is validated before the database |
| Config.OverrideWins | src/tmo_api/cli/__init__.py:126-132 | a non-empty command-line token, database or environment always wins |
| Config.StoredProfileUsed | src/tmo_api/cli/__init__.py:104-113 | with a stored profile and no overrides, the profile's values and timeout are returned and the environment is never consulted |
| Config.EnvironmentOnlyWhenEmpty | src/tmo_api/cli/__init__.py:134-138 | `TMO_API_TOKEN` cannot affect the result once the command line or the profile supplied a token |
| Config.DemoFallback | src/tmo_api/cli/__init__.py:114-116 | an absent `demo` profile resolves to token `TMO`, database `API Sandbox`, environment `us` and timeout 30 |
| Config.UnknownProfileFails | src/tmo_api/cli/__init__.py:117-124 | any other absent profile fails, with a message naming the profile, the file and the stored profiles |
| Config.UnknownProfileMessageExample | src/tmo_api/cli/__init__.py:119-124 | the stored profiles `a` and `b` are listed as `a, b` |
| Config.BadTimeoutFails | src/tmo_api/cli/__init__.py:111 | a stored timeout that `int()` rejects fails the resolution with a `ValueError` |
| Config.RegionOf | src/tmo_api/cli/__init__.py:167-178 | `can` or `canada` gives CANADA, `aus` or `australia` gives AUSTRALIA, anything else gives US, ignoring case |
| Config.RegionCaseInsensitive | src/tmo_api/cli/__init__.py:176 | the region depends only on the lower-cased name |
| Config.ClientSettingsFromArgs | src/tmo_api/cli/__init__.py:153-188 | a resolution error passes through; otherwise the client gets the resolved values, their region, the debug flag, and the command-line user agent or else `TMO_USER_AGENT` |
| Dates.DateRangeArgs.ApplyDefaultDateRanges | src/tmo_api/cli/__init__.py:191-245 | the attributes are set to the defaulted window, and the default flag is raised only when neither date was given; on an error nothing changes |
| Dates.EndWithinTolerance | src/tmo_api/cli/__init__.py:214-245 | every accepted window ends no later than tomorrow |
| Dates.LateEndFails | src/tmo_api/cli/__init__.py:214-219 | an end date after tomorrow fails whatever the start date is |
| Dates.NeitherGiven | src/tmo_api/cli/__init__.py:206-210 | with no dates the window is the 31 days ending today |
| Dates.OnlyEndGiven | src/tmo_api/cli/__init__.py:212-220 | with only an end date the window is the 31 days ending there |
| Dates.OnlyStartGiven | src/tmo_api/cli/__init__.py:225-232 | with only a start date the window runs 31 days from it, cut back to today when that passes tomorrow |
| Dates.FutureStartInvertsWindow | src/tmo_api/cli/__init__.py:227-232 | a start date after today yields an end date before the start |
| Dates.BothGiven | src/tmo_api/cli/__init__.py:237-243 | two dates are kept as given once the end passes the check; the start is never parsed |
| Dates.MalformedFails | src/tmo_api/cli/__init__.py:212-245 | a date that does not parse fails with the format message for the date being parsed |
| Records.LookupFinds | src/tmo_api/cli/__init__.py:430 | `item.get(key)` finds a value exactly when the key occurs, and it is the value of the first field with that key |
| Records.PlaceholderReportsLength | src/tmo_api/cli/__init__.py:339 | the placeholder shows the length of the value's text and nothing else about it |
| Records.ObjectRecordFilters | src/tmo_api/cli/__init__.py:370-379 | an object's record is its visible attributes, in order, each redacted: no private, `raw_data` or `None` attribute survives and every other one does |
| Records.VisibleFieldsFilters | src/tmo_api/cli/__init__.py:348-353 | the kept attributes are exactly the visible ones, and all of them when every attribute is visible |
| Records.VisibleFieldsConcat | src/tmo_api/cli/__init__.py:350-355 | filtering keeps the attributes' order: filtering two runs one after the other is filtering their concatenation |
| Records.DictRecordKeepsFields | src/tmo_api/cli/__init__.py:380-388 | a dict element keeps every key in order, `None` included; only binary values are replaced |
| Records.ScalarElementUnredacted | src/tmo_api/cli/__init__.py:389-390 | a scalar or list element becomes `{"value": item}` and is never redacted |
| Records.ObjectToRecord | src/tmo_api/cli/__init__.py:370-379 | the attribute loop builds the object's record |
| Records.DictToRecord | src/tmo_api/cli/__init__.py:380-388 | the field loop builds the dict element's record |
| Records.ToRecords | src/tmo_api/cli/__init__.py:368-390 | one record per list element, in order |
| Table.InsertKeysCorrect | src/tmo_api/cli/__init__.py:399-401 | adding a record's keys keeps the headers sorted and distinct and adds exactly those keys |
| Table.HeadersOfCorrect | src/tmo_api/cli/__init__.py:397-404 | the headers are sorted, duplicate-free, and exactly the keys of all records |
| Table.HeadersAreSortedKeys | src/tmo_api/cli/__init__.py:404 | any sorted duplicate-free listing of all the keys is the headers |
| Table.CollectHeaders | src/tmo_api/cli/__init__.py:397-404 | the key loops produce `sorted(all_keys)` |
| Table.ColumnWidthIsMax | src/tmo_api/cli/__init__.py:409-416 | a column is as wide as its header or its widest present cell, whichever is larger |
| Table.CellFits | src/tmo_api/cli/__init__.py:413-431 | every cell of a column fits in the column's width |
| Table.RowMatchesHeader | src/tmo_api/cli/__init__.py:419-432 | every data row is exactly as long as the header row |
| Table.TableLayout | src/tmo_api/cli/__init__.py:419-434 | a table has 2 + n lines, its separator is one dash per character of the header row, and every row is as long as the header row |
| Table.ColumnWidths | src/tmo_api/cli/__init__.py:409-416 | the width loops compute each column's width |
| Table.BuildTable | src/tmo_api/cli/__init__.py:418-432 | the row loop produces the header row, its separator and one row per record |
| Multiline.MaxHeaderWidth | src/tmo_api/cli/__init__.py:456 | the widest header: at least every header's length, and equal to one of them |
| Multiline.ChunksCorrect | src/tmo_api/cli/__init__.py:477-481 | the chunks concatenate back to the value, each has 1 to 80 characters, all but the last exactly 80, and there are ceil(len / 80) of them |
| Multiline.WrapValue | src/tmo_api/cli/__init__.py:479-481 | the `range(0, len, 80)` loop produces the chunks |
| Multiline.BlocksCount | src/tmo_api/cli/__init__.py:458-487 | the list of lines for n records has n × (headers + 3) − 1 entries; a wrapped value is one entry spanning several printed lines |
| Multiline.BlockStructure | src/tmo_api/cli/__init__.py:462-467 | record i is labelled with the number i + 1, gets a separator of max header length + 50 dashes, is preceded by a blank line exactly when it is not the first, and ends with its field lines, one per header |
| Multiline.ValueColumnAligned | src/tmo_api/cli/__init__.py:482-487 | every value starts at column max header length + 3, and continuation lines are indented by exactly that many spaces |
| Multiline.ValueDisplayWraps | src/tmo_api/cli/__init__.py:476-485 | a value of at most 80 characters is shown unchanged; a longer one moves to the following lines as indented chunks that give back the value |
| Multiline.DisplayValue | src/tmo_api/cli/__init__.py:471-485 | the JSON conversion and wrapping give the value's display |
| Multiline.FieldLinesConcat | src/tmo_api/cli/__init__.py:470-487 | the field lines follow the headers' order: two runs of headers give the first run's lines, then the second's |
| Multiline.RecordFieldLines | src/tmo_api/cli/__init__.py:470-487 | the header loop gives the record's field lines |
| Multiline.RecordLines | src/tmo_api/cli/__init__.py:462-487 | one record's blank line, label, separator and field lines |
| Multiline.FormatMultilineTable | src/tmo_api/cli/__init__.py:443-490 | the record loop produces the multiline layout |
| Render.BinaryValueHidden | src/tmo_api/cli/__init__.py:338-340 | a binary field's line depends only on its name and the length of its text |
| Render.ScalarOutput | src/tmo_api/cli/__init__.py:439-440 | anything else prints as `str` when truthy and as `No results found` otherwise |
| Render.EmptyDictIsEmptyText | src/tmo_api/cli/__init__.py:333-440 | an empty dict prints nothing, while an empty list, `0` and `""` print `No results found` |
| Render.ListLayout | src/tmo_api/cli/__init__.py:397-434 | a non-empty list uses the multiline layout exactly when its records have more than ten distinct keys, headed by those keys sorted |
| Render.ScalarListIsValueTable | src/tmo_api/cli/__init__.py:389-434 | a list of plain values is a one-column table headed `value` |
| Render.KeyValueLoop | src/tmo_api/cli/__init__.py:336-345 | the key loop gives one `key: value` line per field, with placeholders for binary values |
| Render.FormatTableOutput | src/tmo_api/cli/__init__.py:324-440 | the renderer computes the text form of a dict, an object, a non-empty list or anything else |

## Left out

- Reading `~/.tmorc` (`load_config`, `TMORC_PATH`): file I/O. The parsed profile store is a parameter.
- `os.getenv`: the process environment is a map parameter.
- `add_common_arguments`: argparse wiring only. Its defaults appear in `CliArgs`, where a missing profile means `demo`.
- The `TMOClient` constructor: it is a foreign HTTP client. `ClientSettingsFromArgs` stops at the arguments it would be given.
- configparser interpolation (`%(name)s`): not modelled. Stored values are taken literally, so a stored token, database, environment or timeout holding a lone `%`, which makes configparser raise `InterpolationSyntaxError`, is read by the model as plain text.
- Config.SectionTimeout: the `ValueError` message always puts the rejected text between single quotes. Python builds it with `%.200R`, the text's `repr`: double quotes when the text contains `'`, backslash escapes for special characters, and a cut after 200 characters.
- `datetime.strptime`, `strftime` and `timedelta`: a date is its day number or a text that does not parse. An out-of-range date (`OverflowError`) is not modelled.
- The JSON path of `format_output` (lines 301-318): not part of this model. Only the text path is.
- String escaping by `repr` and `json.dumps`: `Values` quotes strings without escaping them. Floats and other Python objects are not modelled. An object's `str` is a given text, and its `repr` inside a container is taken to be that same text.
- `int()` accepts non-ASCII digits, and `str.lower` folds non-ASCII letters: the model handles ASCII only. `\s` follows `str.isspace`.
- Repeated keys in one dict cannot occur in Python: the model represents a dict by its fields in insertion order and assumes each key appears once.
- The `continue` for non-dict items (line 459) and the `not dict_data` guard (lines 394-395): neither can run. Every list element becomes a dict and the list is non-empty.
- The `else` of lines 435-437: it cannot run either, for the same reason.

## Behaviour worth knowing

These follow the code, where the function descriptions or docstrings suggest otherwise:

- A stored `timeout` that `int()` rejects raises `ValueError` from `getint`. It is not a `ValidationError`, and the default of 30 applies only when the key is absent.
- An empty dict prints as the empty text, not as `No results found`.
- With only a start date later than today, the window ends today, before its start.
- With both dates given, the start date is never parsed.
