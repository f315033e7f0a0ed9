# Question bank admin: the string and list logic of its forms

This project models the core of a small React/Firestore tool. Editors use it to maintain a bank of
exam questions of three types: Write-From-Dictation (`WFD`), Repeat-Sentence (`RS`) and
Repeat-Answer (`RA`). The forms' event handlers carry all of its logic:

- a text-to-records converter and a bulk importer that validates records and then stores them one
  by one;
- four search forms that normalise a comma-separated list of numbers, split it into records found
  in the store and identifiers missing from it, and let the editor add a missing one;
- two entry forms that insert a question only if its identifier is not stored yet;
- two list views that filter by type and search term, sort by the number in the identifier, and
  export CSV.

The Firestore collection `questions` is the class `Records.Store`. It holds a `seq<Record>` in store
order. A query is a filter over that sequence that keeps store order, and `addDoc` is an append
that may fail with a message. Each component is a class whose fields are the component's state
(`results`, `error`, the input fields). Its handlers are methods that change those fields and the
store. Each handler is proved against a reference function that states its result: `Reconciled`, `Found`/`Missing`,
`Searched`/`SearchView`, `InsertAllAbsent`, `Submit`, `Displayed` and `ProgressTrace`. The lemmas
beside each function state what the source promises about it.

Store failures are parameters:
- a read or write fault as `Option<string>`;
- for handlers that write or read in a loop, a `StoreFault` naming the element at which the store
  fails.

So every error path of the handlers is modelled. Their effect is "message shown, results left as
they were, earlier writes kept".

Modelling choices worth knowing:
- **Add-missing refresh.** The three add-missing handlers refresh the search after a successful
  write and then clear `newContent` and `selectedMissing`. The refresh reads neither field. The
  model therefore clears both fields just before calling the refresh, which leads to the same final
  state.
- **Sort comparator.** The list views sort with `Array.prototype.sort` and the comparator
  `aNum - bNum`. The model is an in-place insertion sort on an `array`. It takes the comparator's
  "is positive" relation as a parameter, and the views pass `Greater`. A `NaN` difference (an
  identifier without digits) counts as "not greater".
- **Ordering is only proved when every identifier has a digit.** Sortedness is proved under that
  assumption. That the sorted list is a permutation of its input is proved for every input.
- **Behaviour of the code worth knowing.**
  - The code does not deduplicate the entered tokens: a token entered twice and not found is
    missing twice.
  - The Repeat-Answer and Repeat-Sentence searches list every matching record, in store order.
  - The list exports and the mixed search export use the header `QuestionNo,Type,Content`. The
    Repeat-Answer and Repeat-Sentence search exports start with a byte-order mark and use the
    header `QuestionNo,Content`.

## Model

| member | source | states |
|---|---|---|
| Records.Filter | src/components/QuestionList.tsx:33-35 | a query or `filter` keeps exactly the elements that pass, and never lengthens the list |
| Records.FilterAppend | src/components/BulkRASearch.tsx:58-69 | a filter of two concatenated parts is the filter of the first, then that of the second: store order is kept |
| Records.FilterCount | src/components/BulkRASearch.tsx:72-73 | a filter keeps every occurrence of an element that passes, so repeats are kept, and drops every occurrence of one that fails |
| Records.WhereQuestionNo | src/components/RAQuestionInput.tsx:23-29 | the `questionNo` query holds exactly the stored records with that identifier, and is empty exactly when none has it |
| Records.WhereRSNoIn | src/components/BulkQuestionInput.tsx:96-100 | the `RSNo in` query holds exactly the stored records whose `RSNo` is one of the numbers, and nothing for no numbers |
| Records.Store.AddDoc | src/components/BulkImport.tsx:49 | a write appends the record when the store does not fail, and changes nothing when it fails |
| TextToJsonConverter.HeadMatch | src/components/TextToJsonConverter.tsx:18 | when the head pattern `#\d+\s*(WFD\|RS)` matches, it ends inside the line and its tag is WFD or RS |
| TextToJsonConverter.HeadComplete | src/components/TextToJsonConverter.tsx:18 | every way the head pattern can match (`#`, digits, white space, tag) fixes where it ends and which tag it reads, and `HeadMatch` returns exactly that |
| TextToJsonConverter.HeadSound | src/components/TextToJsonConverter.tsx:18 | what `HeadMatch` returns is a match of the head pattern |
| TextToJsonConverter.TailSound | src/components/TextToJsonConverter.tsx:18 | where the third group starts is a match of `\s*(.+)$`: white space before it, no line terminator from there to the end |
| TextToJsonConverter.TailComplete | src/components/TextToJsonConverter.tsx:18 | whenever `\s*(.+)$` can match the rest of the line, the model finds a start for the third group |
| TextToJsonConverter.TailContent | src/components/TextToJsonConverter.tsx:18-25 | the trimmed third group is the whole text after the tag, trimmed |
| TextToJsonConverter.MatchLineIff | src/components/TextToJsonConverter.tsx:18-19 | a line yields a record exactly when the regular expression matches it, and no other line does |
| TextToJsonConverter.MatchLineComplete | src/components/TextToJsonConverter.tsx:18-24 | any match of the pattern yields a record whose `questionNo` is the matched head and whose `type` is the matched tag |
| TextToJsonConverter.MatchLineShape | src/components/TextToJsonConverter.tsx:18-25 | a record's `questionNo` is a prefix of its line and is exactly a head match, whitespace between digits and tag kept; its `type` is WFD or RS and is the suffix of `questionNo`; its `content` is the rest of the line trimmed |
| TextToJsonConverter.CarriageReturnLineDropped | src/components/TextToJsonConverter.tsx:13-19 | a line ending in `'\r'` never yields a record |
| TextToJsonConverter.NonBlankLines | src/components/TextToJsonConverter.tsx:13 | the kept lines are exactly the pieces of the text split at `'\n'` only that are not blank after trimming |
| TextToJsonConverter.NonBlankLinesAppend | src/components/TextToJsonConverter.tsx:13 | the kept lines of two blocks joined by a line break are those of the first, then those of the second: line order is kept |
| TextToJsonConverter.ConvertToJson | src/components/TextToJsonConverter.tsx:13-27 | the output is never longer than the number of non-blank lines |
| TextToJsonConverter.ConvertOneLine | src/components/TextToJsonConverter.tsx:13-27 | a single line gives no record if it is blank or does not match, and otherwise exactly its match |
| TextToJsonConverter.ConvertAppend | src/components/TextToJsonConverter.tsx:16-27 | two blocks of text joined by a line break give the records of the first, then those of the second: records keep line order |
| TextToJsonConverter.ExampleNoSeparator | src/components/TextToJsonConverter.tsx:18-25 | `#12WFDHi` gives `#12WFD`, WFD, `Hi`: no separator is needed after the tag |
| TextToJsonConverter.ExampleSpacesKept | src/components/TextToJsonConverter.tsx:18-23 | `#7  RS Go.` gives `questionNo` `#7  RS` with both spaces kept |
| TextToJsonConverter.ExampleEmptyContent | src/components/TextToJsonConverter.tsx:18-25 | a tag followed only by white space gives empty content |
| BulkImport.ValidQuestionNoIff | src/components/BulkImport.tsx:38 | the identifier check holds exactly when `#\d+\s*(WFD\|RS)` covers the whole identifier |
| BulkImport.FirstProblem | src/components/BulkImport.tsx:32-42 | all elements pass exactly when none has a problem; otherwise the reported index is the first failing element and its problem is that element's |
| BulkImport.ConvertedTextPasses | src/components/BulkImport.tsx:33-38 | every record the converter emits with non-empty content passes validation |
| BulkImport.ConvertedPasses | src/components/BulkImport.tsx:33-38 | a single converted line with non-empty content passes validation |
| BulkImport.RepeatAnswerRejected | src/components/BulkImport.tsx:38 | an identifier starting with `RA` always fails validation |
| BulkImport.Percent | src/components/BulkImport.tsx:50 | the percentage is `(k / n) * 100` rounded half up: it lies within half a unit of the exact value |
| BulkImport.PercentBounds | src/components/BulkImport.tsx:50 | the percentage after storing at most all elements is at most 100 |
| BulkImport.PercentFull | src/components/BulkImport.tsx:50 | the percentage after the last element is 100 |
| BulkImport.PercentMonotone | src/components/BulkImport.tsx:50 | more stored elements never give a smaller percentage |
| BulkImport.ProgressTraceAt | src/components/BulkImport.tsx:48-51 | after `i` stored elements the progress shown is the percentage of `i` |
| BulkImport.ProgressTraceProperties | src/components/BulkImport.tsx:21-51 | progress starts at 0, stays within 0..100, never decreases, and is 100 after the last element |
| BulkImport.Component.HandleImport | src/components/BulkImport.tsx:17-63 | a parse error, a non-array value or a failed validation sets the error and leaves the store, the input, the callback count and the progress (0) unchanged; otherwise the elements are stored in array order up to a failing write, which is reported with the earlier elements kept; success reports the array length, clears the input and calls back; progress ends at 0 |
| BulkImport.Component.ImportLoop | src/components/BulkImport.tsx:48-52 | the store gains exactly the elements before the failing write, in array order, and the progress trace is the percentage after each |
| BulkRASearch.RaIdShape | src/components/BulkRASearch.tsx:52-55 | the identifier is `RA`, then zeros, then every digit of the token in order; at least three digits, and none cut |
| BulkRASearch.RaIdDigitFree | src/components/BulkRASearch.tsx:52-55 | a token without digits becomes `RA000` |
| BulkRASearch.RaIdIdempotent | src/components/BulkRASearch.tsx:52-55 | normalising an already normalised identifier changes nothing |
| BulkRASearch.RaIdPadsShort | src/components/BulkRASearch.tsx:52-55 | `7` becomes `RA007` |
| BulkRASearch.RaIdKeepsLong | src/components/BulkRASearch.tsx:52-55 | `RA1200` stays `RA1200` |
| BulkRASearch.RaIdDropsLetters | src/components/BulkRASearch.tsx:52-55 | `ra 42` becomes `RA042` |
| Strings.Tokens | src/components/BulkRASearch.tsx:30-33 | the kept tokens are exactly the trimmed pieces of the entry split at `','` that are not empty; none holds a comma or surrounding white space |
| Strings.TokensAppend | src/components/BulkRSSearch.tsx:24-27 | the tokens of two entries joined by a comma are the tokens of the first, then those of the second: input order is kept |
| Strings.SplitCount | src/components/QuestionInput.tsx:22 | a split at a separator yields one piece more than the text has separators, so no piece is lost |
| BulkRASearch.SearchNumbers | src/components/BulkRASearch.tsx:30-55 | one normalised identifier per kept token, in input order |
| BulkRASearch.Component.HandleSearch | src/components/BulkRASearch.tsx:25-84 | no tokens: the error `Please enter valid numbers`, results unchanged; a failed read: its message, results unchanged; otherwise the reconciliation of the stored RA records against the identifiers |
| BulkRASearch.Component.HandleAddMissing | src/components/BulkRASearch.tsx:86-112 | nothing happens without a selection and a content; a failed write sets the error and changes nothing else; otherwise the store gains the RA record, both fields are cleared, and the results are those of a new search |
| BulkRASearch.AddedIsFound | src/components/BulkRASearch.tsx:93-102 | after a searched identifier is added as an RA record, the repeated search finds that record and no longer lists the identifier as missing |
| BulkRSSearch.RsIdShape | src/components/BulkRSSearch.tsx:46-49 | the identifier is `#`, the token's digits whole and in order with no padding, then ` RS` |
| BulkRSSearch.RsIdDigitFree | src/components/BulkRSSearch.tsx:46-49 | a token without digits becomes `# RS` |
| BulkRSSearch.RsIdIdempotent | src/components/BulkRSSearch.tsx:46-49 | normalising an already normalised identifier changes nothing |
| BulkRSSearch.RsIdExamples | src/components/BulkRSSearch.tsx:46-49 | `418` becomes `#418 RS`, and `12` and `012` stay distinct |
| BulkRSSearch.SearchNumbers | src/components/BulkRSSearch.tsx:24-49 | one normalised identifier per kept token, in input order |
| BulkRSSearch.Component.HandleSearch | src/components/BulkRSSearch.tsx:19-79 | as for Repeat-Answer, against the stored RS records |
| BulkRSSearch.Component.HandleAddMissing | src/components/BulkRSSearch.tsx:81-107 | as for Repeat-Answer, storing an RS record |
| BulkRSSearch.AddedIsFound | src/components/BulkRSSearch.tsx:88-97 | after a searched identifier is added as an RS record, the repeated search finds that record and no longer lists the identifier as missing |
| Reconcile.Matching | src/components/BulkRASearch.tsx:58-69 | the found records are exactly the snapshot's records whose identifier is a search identifier |
| Reconcile.Unmatched | src/components/BulkRASearch.tsx:72-73 | missing holds exactly the search identifiers not found |
| Reconcile.MatchSnapshot | src/components/BulkRASearch.tsx:58-69 | the `forEach` collects the matching records in store order and the set of their identifiers |
| Reconcile.FoundIffStored | src/components/BulkRSSearch.tsx:52-64 | a search identifier is found exactly when some snapshot record carries it |
| Reconcile.StoredIsFound | src/components/BulkRASearch.tsx:58-73 | a stored record whose identifier is searched is found, and its identifier is not missing |
| Reconcile.Partition | src/components/BulkRASearch.tsx:62-73 | every search identifier is the identifier of a found record or missing, never both |
| Reconcile.MissingKeepsRepeats | src/components/BulkRSSearch.tsx:67-68 | a missing identifier is listed as often as it was entered, and a found one never |
| Reconcile.ExistingInStoreOrder | src/components/BulkRASearch.tsx:58-69 | found records follow store order, not input order |
| BulkQuestionInput.NumberList | src/components/BulkQuestionInput.tsx:24-27 | no kept token is empty |
| BulkQuestionInput.NumberListTokens | src/components/BulkQuestionInput.tsx:24-27 | the kept tokens are exactly the trimmed, upper-cased pieces of the entry split at `','` that are not empty |
| BulkQuestionInput.NumberListAppend | src/components/BulkQuestionInput.tsx:24-27 | the tokens of two entries joined by a comma are the tokens of the first, then those of the second: input order is kept |
| BulkQuestionInput.WfdList | src/components/BulkQuestionInput.tsx:42-54 | every dictation search number starts with `WFD`, and there are never more than tokens |
| BulkQuestionInput.RsList | src/components/BulkQuestionInput.tsx:42-54 | every sentence search number starts with `RS` and not with `WFD` |
| BulkQuestionInput.Classify | src/components/BulkQuestionInput.tsx:42-54 | the loop builds the dictation and sentence lists of the tokens' routes, in input order |
| BulkQuestionInput.ClassifyCovers | src/components/BulkQuestionInput.tsx:42-54 | every token routed to a list reaches it |
| BulkQuestionInput.ClassifyAppend | src/components/BulkQuestionInput.tsx:42-54 | the lists of concatenated tokens are the concatenated lists: input order is kept |
| BulkQuestionInput.ClassifyDrops | src/components/BulkQuestionInput.tsx:43-52 | a token is dropped exactly when it has neither prefix and no digit |
| BulkQuestionInput.PrefixWfd | src/components/BulkQuestionInput.tsx:69-87 | the result starts with `WFD`, and a string that already does is unchanged |
| BulkQuestionInput.PrefixWfdIdempotent | src/components/BulkQuestionInput.tsx:69-87 | prefixing twice is prefixing once |
| BulkQuestionInput.PrefixAllWfdList | src/components/BulkQuestionInput.tsx:73-87 | prefixing is the identity on the dictation list |
| BulkQuestionInput.WfdMatching | src/components/BulkQuestionInput.tsx:66-83 | the found dictation records are exactly the stored ones whose prefixed `WFDNo` equals a prefixed search number |
| BulkQuestionInput.MatchWfd | src/components/BulkQuestionInput.tsx:66-83 | the `forEach` collects those records in store order and the set of their keys |
| BulkQuestionInput.Meets | src/components/BulkQuestionInput.tsx:72-81 | the inner loop with `break` reports a hit exactly when the key equals some prefixed search number |
| BulkQuestionInput.WfdFoundOnce | src/components/BulkQuestionInput.tsx:72-81 | a stored record is found at most as often as it is stored, however many numbers it meets |
| BulkQuestionInput.WfdPartition | src/components/BulkQuestionInput.tsx:66-91 | every prefixed search number is the key of a found record or missing, never both |
| BulkQuestionInput.RsPartition | src/components/BulkQuestionInput.tsx:95-114 | a sentence number is missing exactly when no stored record carries it as `RSNo` |
| BulkQuestionInput.MissingRecord | src/components/BulkQuestionInput.tsx:135-143 | the added record is RS exactly when the upper-cased selection starts with `RS`, WFD otherwise; it stores the selection as `questionNo` and as `RSNo` or `WFDNo` accordingly |
| BulkQuestionInput.Search | src/components/BulkQuestionInput.tsx:35-120 | a failed dictation read, then a failed membership read, is reported when its list is non-empty; otherwise the result is dictation matches then sentence records, dictation misses then sentence misses |
| BulkQuestionInput.SearchedUnguarded | src/components/BulkQuestionInput.tsx:57-95 | the `length > 0` guards change nothing: empty lists contribute no records and no misses |
| BulkQuestionInput.SearchView | src/components/BulkQuestionInput.tsx:19-126 | the error is cleared exactly when there are tokens and no query that runs fails, and on an error the results are the earlier ones |
| BulkQuestionInput.Component.HandleSearch | src/components/BulkQuestionInput.tsx:19-126 | the error line and results are what `SearchView` gives for the tokens, the store and the faults |
| BulkQuestionInput.Component.HandleAddMissing | src/components/BulkQuestionInput.tsx:128-158 | nothing happens without a selection and a content; a failed write sets the error only; otherwise the store gains the typed record, both fields are cleared and the view is that of a new search |
| BulkWFDInput.NumberList | src/components/BulkWFDInput.tsx:21-24 | the kept tokens are exactly the trimmed non-empty pieces whose upper-cased form starts with `WFD`, in their typed case |
| BulkWFDInput.Lookup | src/components/BulkWFDInput.tsx:36-46 | a lookup returns a stored record whose `WFDNo` is the token |
| BulkWFDInput.LookupFirst | src/components/BulkWFDInput.tsx:36-49 | a lookup is empty exactly when no stored record has the token as `WFDNo`, and otherwise returns the first such record in store order |
| BulkWFDInput.LookupEach | src/components/BulkWFDInput.tsx:35-50 | one lookup per token in input order; a failed lookup stops with its message; otherwise found and missing are the tokens' outcomes and their lengths add up to the number of tokens |
| BulkWFDInput.FoundMissingCount | src/components/BulkWFDInput.tsx:35-50 | each token lands in exactly one of found and missing |
| BulkWFDInput.MissingIff | src/components/BulkWFDInput.tsx:42-49 | a token is missing exactly when it was entered and no stored record has it as `WFDNo` |
| BulkWFDInput.MissingRepeats | src/components/BulkWFDInput.tsx:35-50 | a missing token is listed as often as it was entered |
| BulkWFDInput.FoundRepeats | src/components/BulkWFDInput.tsx:35-50 | a found token's record is listed exactly as often as the token was entered: once per entry, and never for another token |
| BulkWFDInput.LookupAppend | src/components/BulkWFDInput.tsx:35-50 | found and missing keep token order |
| BulkWFDInput.Component.HandleSearch | src/components/BulkWFDInput.tsx:17-61 | no tokens: `Please enter valid WFD numbers`, results unchanged; a failed lookup: its message, results unchanged; otherwise found and missing of the tokens |
| BulkWFDInput.Component.HandleAddMissing | src/components/BulkWFDInput.tsx:63-90 | nothing happens without a selection and a content; a failed write sets the error only; otherwise the store gains a WFD record whose `questionNo` and `WFDNo` are the selection, both fields are cleared and the search is repeated |
| BulkWFDInput.AddedIsFound | src/components/BulkWFDInput.tsx:70-80 | after adding a selection, looking it up finds a record |
| QuestionInput.Numbers | src/components/QuestionInput.tsx:22 | at least one identifier, each trimmed and comma-free |
| QuestionInput.NumbersCount | src/components/QuestionInput.tsx:22 | no piece is dropped: there is one identifier more than the entry has commas |
| QuestionInput.EmptyPieceKept | src/components/QuestionInput.tsx:22 | `a,,b` gives the identifiers `a`, the empty one, and `b` |
| QuestionInput.TypeOf | src/components/QuestionInput.tsx:25 | the type is WFD or RS |
| QuestionInput.InsertAllAbsent | src/components/QuestionInput.tsx:24-45 | stored records are kept in place, and at most one record per identifier is added |
| QuestionInput.InsertCovers | src/components/QuestionInput.tsx:24-45 | after the loop every identifier has a record |
| QuestionInput.InsertShape | src/components/QuestionInput.tsx:25-41 | every added record carries one of the identifiers, the type its prefix gives, and the shared content |
| QuestionInput.InsertFresh | src/components/QuestionInput.tsx:28-44 | an added record never repeats an identifier an earlier record carries |
| QuestionInput.InsertKeepsUnique | src/components/QuestionInput.tsx:28-44 | unique stored identifiers stay unique |
| QuestionInput.InsertIfAbsent | src/components/QuestionInput.tsx:26-44 | one pass appends the typed record exactly when no stored record has the identifier |
| QuestionInput.InsertLoop | src/components/QuestionInput.tsx:24-45 | the store becomes the inserts for the identifiers before a failing query or write, and the failure is reported |
| QuestionInput.Component.HandleSubmit | src/components/QuestionInput.tsx:16-55 | the store gains the inserts up to a failure; on success the fields are cleared and the callback fires; on failure the error is set and the fields are kept |
| RAQuestionInput.Submit | src/components/RAQuestionInput.tsx:22-37 | stored records are kept; one record is added exactly when no record carries the identifier as typed, and it carries the trimmed identifier |
| RAQuestionInput.SubmitNoDuplicate | src/components/RAQuestionInput.tsx:25-33 | for trimmed input, unique identifiers stay unique |
| RAQuestionInput.SubmitSpacesBypassCheck | src/components/RAQuestionInput.tsx:25-33 | ` RA1` next to a stored `RA1` creates a second `RA1` record |
| RAQuestionInput.SubmitNoNormalisation | src/components/RAQuestionInput.tsx:22-35 | `RA001` is new next to `RA1` |
| RAQuestionInput.Component.HandleSubmit | src/components/RAQuestionInput.tsx:16-49 | a failed read or write sets its message; a stored identifier gives `Question number already exists`; both leave the store and the fields unchanged; otherwise the record is stored, the fields are cleared and the callback fires |
| ListView.ByKind | src/components/QuestionList.tsx:33-35 | with a type only records of that type are kept; without one all are |
| ListView.BySearch | src/components/QuestionList.tsx:38-44 | with a non-empty term a record is kept exactly when its lower-cased content or identifier contains the lower-cased term |
| ListView.SortPermutes | src/components/QuestionList.tsx:47-52 | the sorted list is a permutation of its input |
| ListView.InsertPermutes | src/components/QuestionList.tsx:47-52 | one insertion step adds exactly the inserted element |
| ListView.SortSorts | src/components/QuestionList.tsx:47-52 | when every identifier has a digit, the list is ascending by its number |
| ListView.InsertSorted | src/components/QuestionList.tsx:47-52 | inserting a numbered record into an ascending numbered list keeps it ascending |
| ListView.SortInPlace | src/components/QuestionList.tsx:47-52 | the in-place sort leaves the array holding the insertion-sorted sequence |
| ListView.InsertAt | src/components/QuestionList.tsx:47-52 | one pass moves the element left past the greater ones and leaves the rest of the array alone |
| ListView.InsertShape | src/components/QuestionList.tsx:47-52 | insertion places the element just before the final run of greater elements |
| ListView.Fetch | src/components/QuestionList.tsx:27-54 | the shown list is the filtered, searched and sorted list |
| ListView.DisplayedContents | src/components/QuestionList.tsx:27-52 | the shown list is a permutation of the filtered records, and holds exactly the fetched records of the type that match the term |
| QuestionList.Component.FetchQuestions | src/components/QuestionList.tsx:22-60 | a failed read sets its message and keeps the list; otherwise the list is the displayed pipeline over the store |
| QuestionList.UnfilteredShowsAll | src/components/QuestionList.tsx:33-44 | without a type or a term every stored record is shown, as often as it is stored |
| QuestionList.ExportFollowsList | src/components/QuestionList.tsx:72-81 | the export is the header, then one line per shown record in shown order |
| RAQuestionList.Component.FetchQuestions | src/components/RAQuestionList.tsx:21-56 | a failed read sets its message and keeps the list; otherwise the list is the pipeline with the type fixed to RA |
| RAQuestionList.OnlyRepeatAnswers | src/components/RAQuestionList.tsx:32 | only RA records are shown |
| RAQuestionList.NumericOrder | src/components/RAQuestionList.tsx:44-48 | `RA2` is shown before `RA010` |
| Csv.Escape | src/components/QuestionList.tsx:79 | escaping never shortens the content and introduces no other characters |
| Csv.UnquoteQuote | src/components/QuestionList.tsx:79 | stripping the outer quotes and halving the pairs recovers the content |
| Csv.QuoteInjective | src/components/RAQuestionList.tsx:75 | different contents give different fields |
| Csv.ParseListRowRoundTrip | src/components/QuestionList.tsx:76-80 | a list row reads back as its identifier, type and content when the identifier has no comma |
| Csv.ParseSearchRowRoundTrip | src/components/BulkRASearch.tsx:162-165 | a search row reads back as its identifier and content when the identifier has no comma |
| Csv.ListCsv | src/components/QuestionList.tsx:73-81 | the list export starts with `QuestionNo,Type,Content` and has no byte-order mark |
| Csv.SearchCsv | src/components/BulkRSSearch.tsx:156-167 | the search export starts with a byte-order mark and then `QuestionNo,Content` |
| Csv.TypedCsv | src/components/BulkQuestionInput.tsx:206-215 | the mixed search export starts with `QuestionNo,Type,Content` and has no byte-order mark |
| Csv.TypedCsvLines | src/components/BulkQuestionInput.tsx:206-215 | the mixed search export splits into the header and one line per found record, in order, each reading back as the record's `WFDNo` (dictation) or `RSNo` (otherwise), its type and its content |
| BulkQuestionInput.AddedExportsSelection | src/components/BulkQuestionInput.tsx:135-210 | a record added from the missing list is exported under the identifier it was added with |
| Csv.ListCsvLines | src/components/RAQuestionList.tsx:68-77 | the list export splits into the header and exactly one line per record, in order |
| Csv.SearchCsvLines | src/components/BulkRASearch.tsx:159-168 | after the byte-order mark, the search export splits into the header and one line per found record, in order |

## Left out

- Rendering, the loading flags, tab switching and the debounce timers are left out. They are UI and event-loop plumbing.
- `app/page.tsx` mounts a `BulkWFDSearch` component. That component is not part of this model.
- Firebase initialisation and the CRUD wrappers are left out. So are the real Firestore semantics: the size limit of an `in` query, query ordering other than store order, document ids, `updateDoc`, deletion and edits. The store is an abstract sequence.
- Handlers run one at a time, with no concurrent writer and no interleaving of asynchronous calls.
- `JSON.parse` and `JSON.stringify` are left out. The importer receives the parsed value (`Parsed`), and the converter returns the record sequence. Fields of a non-string type in the parsed JSON are not modelled.
- A record's type is one of `WFD`, `RS` and `RA`. The importer stores each element without checking its `type`, so the source can store an element with no `type` or with another string. The model cannot represent such an element. It assumes every imported element carries one of the three types, and it does not capture that such a record is invisible to every query by type.
- File upload (`handleFileUpload`, `FileReader`), `Blob` and link downloads and `window.confirm` are left out. Only the CSV text is modelled.
- BulkImport.Percent: rounds the exact rational percentage half up. The floating-point division of `Math.round(((i + 1) / total) * 100)` is not modelled.
- ListView.SortKey: reads the digits as an unbounded natural number. `parseInt` loses precision past 2^53, and that is not modelled.
- Upper- and lower-casing map ASCII letters only. Full Unicode case mapping is left out.
- Whitespace is the finite set ECMAScript `trim` and `\s` use. Line terminators are the four ECMAScript line terminators.
- A stored record without `questionNo` is read as the empty identifier, as the components' `?? ''` and `|| ''` read it. The list views would throw on such a record, and that case is not modelled.
- ListView.SortSorts: ordering is proved only when every identifier has a digit. With a `NaN` key, `Array.prototype.sort` leaves the order to the engine; the model fixes the insertion-sort order.
- ListView.SortInPlace: models the engine's sort as an insertion sort. A different stable algorithm gives the same result for a consistent comparator.
- A `StoreFault` fails at most one element of a loop, which ends the loop. One fault per handler call covers every way the source's loops can stop.
