# Taxonomy tags and front-matter fields

This project models the Markdown helpers of compiler/files/markdownUtils.py:

- **Tag generation** (`generateTags`, `splitTaxonomie`). Each taxonomy code,
  such as `A.2.S1.1`, is checked against the taxonomy pattern and split into
  its four parts TC1..TC4. It is then matched against every row of the
  reference dataset. A row matches when its TC1 equals the code's TC1 and its
  TC3 equals the code's TC3 and is a reportable subject. Each matching row adds:
  - the level tag `HBO-i/niveau-<TC2>`, the row's process, its process step
    and its TC3, to the tag list;
  - the code itself, to a separate list;
  - a "not needed" message when the row's comma-separated TC2 flags hold `X`
    at position `int(TC2) - 1`;
  - two report updates.

  Each of the five appends happens only if the value is not in its list yet.

  A code that matches nothing adds "not found", but only while the call has
  collected neither tags nor messages. An absent, empty, `["None"]` or `[""]`
  code list gives "no codes". The existing tags, the new tags and the codes
  are then sorted, level tags first, and deduplicated.
- **Header fields** (`extractHeaderValues`, `hasIgnoreTag`). Only the first
  line that starts with `field:` is read. If the rest of that line is
  non-empty, it is the single value. Otherwise the value is the list of `- item`
  lines that follow, up to the first line that is not an item. A document is
  ignored when its `ignore` values contain `true`.

Structure:

- `Taxonomy` holds the imperative methods that keep the source's loops and
  list appends: `GenerateTags` (the code loop and the merge), with its loop
  body in `ProcessCode`; `ScanDataset` (the row loop), with its loop body in
  `ScanRow`. Each is proved equal to a pure specification (`Resolve`,
  `CodeStep`, `ScanRows`, `RowStep`).
- `TaxonomyProperties` proves what those specifications promise. It compares
  them with independent row-by-row and code-by-code reference definitions
  (`MatchEvents`, `NotNeededErrors`, `CodeErrors`, `CodesEvents`,
  `Contributes`).
- `TagOrder` models `sorted` with the key `(not level tag, tag)` and
  `dict.fromkeys`. It proves that the final list has no repeats and holds
  exactly the input's tags, with level tags first and each group strictly
  ascending. It also proves that this list is the only such listing.
- `Header` holds the imperative `ExtractHeaderValues`, proved equal to the
  function `HeaderValues`. Its list loop is in `ReadListItems`, and the
  per-line work of that loop is in `ReadItem`.
  `HeaderProperties` characterises that function and `HasIgnoreTag`.
- `Text` models the Python string primitives used: `split`, `split(c, 1)[1]`,
  `startswith`, `strip`, `lstrip(chars)`, `int`, negative list indexing and
  string `<`.

The module-level configuration is a `Context` value: the dataset, the keys of
the content report and the taxonomy pattern. The two report-update calls are
returned as a sequence of `Event`s in call order.

Two consequences of the code deserve a note:

- The comment at line 74 reads as if every code without a match got a "not
  found" message. Line 75 adds it only when no message has been recorded yet
  either, and `tags` and `errors` belong to the whole call. So after the first
  tag or message, an unmatched code adds nothing
  (`UnmatchedCodeAddsNothing`), and only the first code can ever yield "not
  found" (`ResolveNotFoundOnlyFirst`).
- Lines 83-90 also run in the no-codes branch. The existing tags therefore
  come back sorted and deduplicated (`ResolveNoCodes`).

## Model

| member | source | states |
|---|---|---|
| Taxonomy.GenerateTags | compiler/files/markdownUtils.py:14-90 | The imperative tag generation returns exactly what `Resolve` specifies: final tags, messages and report updates, or the `IndexError` with the updates made before it. |
| Taxonomy.ProcessCode | compiler/files/markdownUtils.py:23-77 | One pass of the code loop yields the state `CodeStep` specifies: an invalid-format message, or the row scan followed by the "not found" check, or the `IndexError`. |
| Taxonomy.ScanDataset | compiler/files/markdownUtils.py:34-72 | The row loop with its guarded appends yields the state `ScanRows` specifies, or stops where line 62 raises. |
| Taxonomy.ScanRow | compiler/files/markdownUtils.py:36-72 | One row's guarded appends, flag lookup and report updates yield the state `RowStep` specifies, or the `IndexError` with the updates made before it. |
| Taxonomy.SplitTaxonomie | compiler/files/markdownUtils.py:92-93 | The dot-separated parts (at least one, none containing a dot) join back into the code. |
| Taxonomy.PartsOf | compiler/files/markdownUtils.py:29 | A code the pattern accepts unpacks into four dot-free parts that join back into the code with `.`, and TC2 is decimal digits. |
| Taxonomy.AddIfAbsent | compiler/files/markdownUtils.py:41-58 | A guarded append keeps the old list as a prefix, grows it by at most one element, adds exactly the new element to its members, and leaves the list unchanged when the element is already there. |
| TagOrder.SortTagsSortsPermutes | compiler/files/markdownUtils.py:88 | The sort yields an ascending permutation of its input under the key `(not level tag, tag)`. |
| TagOrder.DedupElements | compiler/files/markdownUtils.py:90 | `dict.fromkeys` keeps exactly the input's elements, each once. |
| TagOrder.DedupKeepsOrder | compiler/files/markdownUtils.py:90 | Deduplicating an ascending list keeps it ascending. |
| TagOrder.FinalTags | compiler/files/markdownUtils.py:83-90 | The returned tags have no repeats and are exactly the combined tags, with every level tag before every other tag and each group in strictly ascending string order. |
| TagOrder.StrictlyOrderedUnique | compiler/files/markdownUtils.py:88-90 | Two strictly ascending lists with the same elements are equal. |
| TagOrder.FinalTagsIsTheOrderedListing | compiler/files/markdownUtils.py:88-90 | Any strictly ascending listing of the combined tags is the returned list. |
| TagOrder.KeyLessTransitive | compiler/files/markdownUtils.py:88 | The sort key order is transitive. |
| TagOrder.KeyLessTotal | compiler/files/markdownUtils.py:88 | Two distinct tags are ordered one way or the other by the sort key. |
| Text.LexLessTransitive | compiler/files/markdownUtils.py:88 | Python's string `<` is transitive. |
| Text.LexLessTotal | compiler/files/markdownUtils.py:88 | Python's string `<` orders any two distinct strings. |
| Text.LexLessAsymmetric | compiler/files/markdownUtils.py:88 | Python's string `<` is asymmetric. |
| Text.JoinSplit | compiler/files/markdownUtils.py:93 | Joining the parts of `split` with the separator restores the string. |
| Text.SplitJoin | compiler/files/markdownUtils.py:93 | Splitting a join of separator-free parts gives the parts back. |
| Text.AfterFirst | compiler/files/markdownUtils.py:103 | `split(':', 1)[1]` is what follows the first colon; the text before it has no colon. |
| Text.AfterFirstOf | compiler/files/markdownUtils.py:103 | The text after the first separator is fixed by where that separator is. |
| Text.TrimLeftRemovesPrefix | compiler/files/markdownUtils.py:110 | `lstrip(chars)` removes exactly the leading characters that are in `chars`. |
| Text.TrimRightRemovesSuffix | compiler/files/markdownUtils.py:103 | The right half of `strip` removes exactly the trailing whitespace. |
| Text.Strip | compiler/files/markdownUtils.py:103 | A stripped string neither starts nor ends with whitespace. |
| TaxonomyProperties.ScanRowsRaises | compiler/files/markdownUtils.py:61-62 | The row scan raises `IndexError` exactly when some matching row has no flag at position `int(TC2) - 1`. Python's negative index makes `TC2 = 0` read the last flag. |
| TaxonomyProperties.ScanRowsUnmatched | compiler/files/markdownUtils.py:34-38 | Without a matching row, the scan changes nothing and produces no "not needed" message and no report update. |
| TaxonomyProperties.ScanRowsEvents | compiler/files/markdownUtils.py:71-72 | A completed scan adds two report updates per matching row, process then subject, in dataset order. |
| TaxonomyProperties.ScanRowsErrors | compiler/files/markdownUtils.py:60-64 | A completed scan adds one "not needed" message per matching row whose flag at position `int(TC2) - 1` is `X`, in dataset order. |
| TaxonomyProperties.ScanRowsCodeTags | compiler/files/markdownUtils.py:56-58 | A completed scan records the code once among the code tags exactly when some row matched. |
| TaxonomyProperties.ScanRowsEffects | compiler/files/markdownUtils.py:34-72 | A completed scan adds two report updates per matching row in dataset order. It adds one "not needed" message per matching row flagged `X`. It adds the code to the code tags exactly when some row matched. |
| TaxonomyProperties.ScanRowsTags | compiler/files/markdownUtils.py:36-54 | The scan only appends tags. Every tag of a matching row is present afterwards. Every new tag came from a matching row. |
| TaxonomyProperties.FirstOutOfRange | compiler/files/markdownUtils.py:34-62 | The row where the scan raises is a matching row without its flag. |
| TaxonomyProperties.FirstOutOfRangeIsFirst | compiler/files/markdownUtils.py:34-62 | No matching row before it lacks its flag. |
| TaxonomyProperties.ScanRowsRaisedEvents | compiler/files/markdownUtils.py:34-72 | A scan with a matching row lacking its flag raises, keeping exactly the report updates of the matching rows before the first such row. |
| TaxonomyProperties.NotNeededErrorsAre | compiler/files/markdownUtils.py:62-63 | Every message the row scan adds is "not needed" for the scanned code. |
| TaxonomyProperties.InvalidCodeStep | compiler/files/markdownUtils.py:23-26 | A code the pattern rejects adds one invalid-format message and nothing else. |
| TaxonomyProperties.CodeStepErrors | compiler/files/markdownUtils.py:23-77 | One code's messages are exactly those of `CodeErrors`: invalid format; or its "not needed" messages, then "not found" under the cumulative rule. |
| TaxonomyProperties.UnmatchedCodeAddsNothing | compiler/files/markdownUtils.py:74-77 | Once the call has a tag or a message, a valid code without a matching row adds nothing at all. |
| TaxonomyProperties.CodeStepEvents | compiler/files/markdownUtils.py:21-72 | One code's report updates are those of its matching rows when it is scanned, and none otherwise. |
| TaxonomyProperties.CodeStepTags | compiler/files/markdownUtils.py:32-58 | One code only appends tags and code tags, and exactly those its matching rows derive. |
| TaxonomyProperties.ResolveCodesEvents | compiler/files/markdownUtils.py:21-72 | Over all codes, the report updates are `CodesEvents`: per code, two per matching row, in order. |
| TaxonomyProperties.ResolveCodesRaises | compiler/files/markdownUtils.py:21-62 | The code loop raises exactly when some scanned code has a matching row without its flag. |
| TaxonomyProperties.FirstFailingCode | compiler/files/markdownUtils.py:21-62 | The code whose scan raises is a scanned code with a matching row without its flag. |
| TaxonomyProperties.FirstFailingCodeIsFirst | compiler/files/markdownUtils.py:21-62 | No code before it has such a row. |
| TaxonomyProperties.ResolveCodesRaisedEvents | compiler/files/markdownUtils.py:21-72 | A code loop with a failing code raises, keeping the report updates of the codes before the first failing code and of that code's matching rows before its first failing row. |
| TaxonomyProperties.ResolveCodesNoLateNotFound | compiler/files/markdownUtils.py:74-76 | Once the call holds a tag or a message, the later codes only append messages, and none of them is "not found". |
| TaxonomyProperties.ResolveCodesTagsContain | compiler/files/markdownUtils.py:38-54 | Over all codes, tags only accumulate and every tag of every contributing (code, row) pair is present. |
| TaxonomyProperties.ResolveCodesTagsProvenance | compiler/files/markdownUtils.py:38-54 | Over all codes, every new tag comes from some contributing (code, row) pair. |
| TaxonomyProperties.ResolveCodesCodeTags | compiler/files/markdownUtils.py:56-58 | Over all codes, the code tags gain exactly the codes that have a contributing row. |
| TaxonomyProperties.ResolveCodesTags | compiler/files/markdownUtils.py:21-58 | Over all codes, tags and code tags hold exactly what the contributing (code, row) pairs derive. |
| TaxonomyProperties.ResolveNoCodes | compiler/files/markdownUtils.py:78-90 | With no codes supplied, the result is the sorted, deduplicated existing tags, the single "no codes" message and no report update. |
| TaxonomyProperties.ResolveRaises | compiler/files/markdownUtils.py:61-62 | A call raises exactly when some scanned code has a matching row whose flags are too short. |
| TaxonomyProperties.ResolveRaisedEvents | compiler/files/markdownUtils.py:21-72 | A call with a failing code raises `IndexError` after exactly the report updates of the codes before the first failing code and of that code's matching rows before its first row without a flag. |
| TaxonomyProperties.ResolveNotFoundOnlyFirst | compiler/files/markdownUtils.py:74-76 | A "not found" message can only be the call's first message, and only for the first code. |
| TaxonomyProperties.ResolveCodesLaterErrors | compiler/files/markdownUtils.py:21-77 | Once the call holds a tag or a message, each later code adds exactly its invalid-format message or its "not needed" messages, in code order. |
| TaxonomyProperties.ResolveCodesErrors | compiler/files/markdownUtils.py:21-77 | The code loop's messages are the first code's `CodeErrors`, then every later code's invalid-format or "not needed" messages. |
| TaxonomyProperties.ResolveErrors | compiler/files/markdownUtils.py:21-77 | A call's messages are those of the first code under the cumulative "not found" rule, then, for every later code, its invalid-format message or one "not needed" message per flagged matching row, in code order and then row order. |
| TaxonomyProperties.ResolveEvents | compiler/files/markdownUtils.py:71-72 | A call's report updates are two per matching row, code by code, in order. |
| TaxonomyProperties.ResolveContributedTagsAppear | compiler/files/markdownUtils.py:38-58 | Every contributing (code, row) pair puts its level tag, process, process step, TC3 and the code into the returned tags. |
| TaxonomyProperties.ResolveTagProvenance | compiler/files/markdownUtils.py:38-85 | Every returned tag is an existing tag, a tag some contributing pair derives, or a code that has a contributing row. |
| TaxonomyProperties.ResolveSingleUnmatchedCode | compiler/files/markdownUtils.py:74-77 | A single valid code without a matching row gives one "not found" message, no new tags and no report update. |
| Header.FindFieldLine | compiler/files/markdownUtils.py:100-101 | The found index is the first line that starts with `field:`; absent means no line does. |
| Header.HeaderValues | compiler/files/markdownUtils.py:115 | The result is never an empty list. |
| Header.FindFieldLineAt | compiler/files/markdownUtils.py:100-101 | The first field line is the one the scan stops at. |
| Header.ItemRunStep | compiler/files/markdownUtils.py:107-112 | An item line contributes its value and the run continues; any other line ends it. |
| Header.ReadListItems | compiler/files/markdownUtils.py:107-112 | The list loop returns exactly the values of the item lines up to the first non-item line. |
| Header.ExtractHeaderValues | compiler/files/markdownUtils.py:96-115 | The imperative field reader returns exactly what `HeaderValues` specifies. |
| Header.HasIgnoreTag | compiler/files/markdownUtils.py:122-129 | A document is ignored only if some line starts the `ignore` field. |
| HeaderProperties.HeaderValuesAbsent | compiler/files/markdownUtils.py:100-115 | Without a field line the result is `None`. |
| HeaderProperties.ItemRunValues | compiler/files/markdownUtils.py:107-112 | The run's values are those of its leading item lines, and the line right after the run, if any, is not an item. |
| HeaderProperties.HeaderValuesInline | compiler/files/markdownUtils.py:103-104 | A non-empty value on the first field line is the single value, whatever follows. |
| HeaderProperties.ItemRunExact | compiler/files/markdownUtils.py:107-112 | A run of exactly `n` item lines, ended by a non-item line or the end, yields the `n` item values. |
| HeaderProperties.HeaderValuesList | compiler/files/markdownUtils.py:105-115 | With nothing after the colon, the values are those of the following item lines. No item line gives `None`. |
| HeaderProperties.ItemRunStopsAtNonItem | compiler/files/markdownUtils.py:111-112 | The list scan reads nothing after the first non-item line. |
| HeaderProperties.FindFieldLineAppend | compiler/files/markdownUtils.py:100-101 | Appending lines does not change which field line is first. |
| HeaderProperties.LaterLinesIgnored | compiler/files/markdownUtils.py:100-113 | Once the value is settled, appending lines to the document changes nothing. |
| HeaderProperties.InlineValueOf | compiler/files/markdownUtils.py:101-104 | The line `field: value` starts the field and carries `value` inline. |
| HeaderProperties.ItemValueOf | compiler/files/markdownUtils.py:108-110 | The line `- value` is an item whose value is `value`. |
| HeaderProperties.HasIgnoreTagIff | compiler/files/markdownUtils.py:122-129 | A document is ignored exactly when its first `ignore:` line has the inline value `true`, or has no inline value and `true` among its list items. |
| HeaderProperties.NoIgnoreFieldNotIgnored | compiler/files/markdownUtils.py:122-129 | A document without an `ignore:` line is not ignored. |
| HeaderProperties.InlineIgnoreTag | compiler/files/markdownUtils.py:122-129 | The document `ignore: value` is ignored exactly when the value is `true`. |
| HeaderProperties.ListDocumentValues | compiler/files/markdownUtils.py:105-115 | The document `ignore:` followed by `- value` lines reads back the listed values, or `None` when there are none. |
| HeaderProperties.ListIgnoreTag | compiler/files/markdownUtils.py:122-129 | A document with an `ignore:` list is ignored exactly when `true` is one of the listed values. |

## Left out

- `findWIPItems` (lines 118-119) is not modelled. It is a single regular-expression search with no logic of its own.
- contentCompiler/src/helpers.ts is not part of this model.
- Logging (`logging.warning`, `logging.info`) and the `filePath` argument are left out. They only feed log messages.
- The taxonomy pattern is an arbitrary predicate `matchesPattern` in the `Context`. The model requires that every accepted code splits on `.` into four parts, the second of them decimal digits. A pattern that let other codes through would make lines 29 or 62 raise `ValueError`; that exception is not modelled.
- The report aggregator's internals are left out. The calls to `updateProcessReportData` and `updateSubjectReportData` are recorded as `Event`s with their arguments.
- Messages are values (`InvalidFormat`, `NoCodes`, `NotFound`, `NotNeeded`) carrying the code. The configured message texts are not modelled.
- A `re.match` on a non-string and dataset cells that are not strings are not modelled; every input is a string.
- `splitlines` is modelled as splitting at line feeds only. Carriage returns and the other Unicode line boundaries are not separators here. A final line feed yields one extra empty line, which is neither a field line nor an item and so changes no result.
- `strip` removes ASCII whitespace only; the non-ASCII characters Python also treats as whitespace are kept.
- `int` is modelled for ASCII decimal digits, the only strings the pattern requirement admits. The signs, surrounding spaces, underscores and non-ASCII digits that Python's `int` also accepts are not modelled.
- Python's `sorted` is modelled by an insertion sort on the same key. Ties cannot occur, since equal keys mean equal tags, so stability does not matter.
