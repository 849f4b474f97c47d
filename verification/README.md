# PrepLens admin: a Dafny model of the question bank's core

PrepLens Admin is a small content-management tool for multiple-choice exam questions. An Express
back end keeps the questions in one MongoDB collection. Next.js pages create, list, import and
delete them. This project models the core of that system as pure Dafny functions over immutable
data, and proves what each operation promises:

- **Back end** (`preplensadmin/backend/index.js`). The question document, the single-question
  route `POST /questions`, the spreadsheet import `POST /bulk-upload` (after the workbook has
  been read into rows), `GET /statistics`, the development login, the bearer-token middleware,
  and the two deletion routes. The collection is a sequence of documents in insertion order.
  The driver calls `insertMany`, `deleteMany` and `countDocuments` are functions from the old
  sequence to the new one.
- **Question list** (`components/QuestionsList.tsx`). Search and the four filters, pages of ten,
  the Prev/number/Next controls, the return to page 1 when a filter changes, the distinct
  drop-down choices, and the highlight of recent uploads.
- **Question card** (`preplensadmin/components/QuestionCard.tsx`). How the correct option is
  resolved from a stored index, a stored letter or the answer text. Also the letter shown with
  it, the summary box, the warning box, the note for legacy records, and the difficulty badge
  colour.
- **Question form** (both copies of `CreateQuestionForm.tsx`). The copies share validation, the
  request payload, tag parsing, single-field edits, submission, the reset after success and the
  summary box. Module `QuestionForm` holds these once.
  - `AdminForm` adds the admin copy's extra features: images inside option texts, LaTeX
    insertion through the math editor, and the diagram uploader.
  - `CleanForm` adds the other copy's own diagram upload.
- **Math editor** (`preplensadmin/components/MathEditor.tsx`). Its state, the props effect, the
  symbol palettes, symbol clicks, and the insert action.

JavaScript's behaviour is written out where it matters:

- `undefined`, `null`, numbers and strings are kept apart (`Js.Value`, `Js.Slot`).
- `||` follows truthiness.
- `trim` uses the ECMAScript white-space set.
- `parseInt` follows ECMAScript (sign, `0x` prefix, longest digit prefix, NaN).
- `split` on one character, `slice` with clamped bounds, and `Array.from(new Set(...))` keep the
  first occurrence of each value.
- `JSON.stringify` drops `undefined` and turns NaN into `null`.
- The global regular-expression replace `/<img[^>]*>/g` does not rescan text it has already
  matched.

On the store side, `$ne: ''` matches a stored `null` and `$group` files a missing field under
`null`.

Modules: `Js` (JavaScript values), `JsString` (string built-ins), `Seqs` (sequence helpers),
`Store`, `CreateQuestion`, `BulkUpload`, `ClearQuestions`, `Statistics`, `Auth`,
`QuestionsList`, `QuestionCard`, `QuestionForm`, `MathEditor`, `AdminForm`, `CleanForm`.

Two behaviours of the spreadsheet import are easy to get wrong, and the model follows the code
in both:

- **Bulk import precedence.** For marks, time limit and blooms the batch value beats the row's
  own value: `index.js:109-111` reads `marks || row.marks || 4`. Only `type` lets the row win
  (`row.type || type`, line 112). See `BulkUpload.DefaultPrecedence`.
- **Bulk import tags.** The form trims its tags and drops empty ones (`QuestionForm.ParseTags`).
  The import route only splits on commas (`index.js:108`), so padding and empty tags are kept.
  See `BulkUpload.TagsNotTrimmed`.

## Model

| member | source | states |
|---|---|---|
| Store.LetterAt | preplensadmin/backend/index.js:180 | looking up a position in the A-D table yields a letter exactly for positions 0 to 3, and `undefined` otherwise |
| Store.InsertMany | preplensadmin/backend/index.js:116 | the collection after `insertMany` is the old collection, unchanged, followed by the new documents in order |
| Store.DeleteMany | preplensadmin/backend/index.js:313 | the deleted count is the number of matching documents; no remaining document matches; every non-matching document remains as often as it was stored, in the original order |
| Store.CountDocuments | preplensadmin/backend/index.js:150-151 | the count is the number of documents the filter matches, counted one by one, and never exceeds the collection size |
| CreateQuestion.NewDoc | preplensadmin/backend/index.js:170-200 | with an index that is neither null nor undefined and a non-empty options array, the index is stored with the letter at that position; the answer text becomes that option when it is truthy and otherwise stays the caller's. Without both, index and letter are null and the caller's answer is kept. Type defaults to `static`, solution to `''`. Text, options (`[]` when absent), tags, subject, exam, difficulty, marks, time limit, blooms and image URL are stored as sent |
| CreateQuestion.AddQuestion | preplensadmin/backend/index.js:201-202 | a successful save appends exactly the built document and returns it; a failed save stores and returns nothing |
| CreateQuestion.NewDocConsistent | preplensadmin/backend/index.js:178-182 | an index that names an existing option among A-D yields a document whose index, letter and answer agree |
| CreateQuestion.IndexPastLettersInconsistent | preplensadmin/backend/index.js:180 | an index of 4 or more is stored with an `undefined` letter, so the record's index and letter disagree |
| CreateQuestion.IndexTwoExample | preplensadmin/backend/index.js:178-182 | index 2 over options a-d stores letter C and answer `c`, whatever answer the caller sent |
| CreateQuestion.IndexZeroMaps | preplensadmin/backend/index.js:178 | index 0 counts as a selection: it is stored with letter A |
| BulkUpload.AnswerLetter | preplensadmin/backend/index.js:93 | the answer cell is upper-cased; a missing cell gives `undefined`; a numeric cell throws |
| BulkUpload.LetterIndex | preplensadmin/backend/index.js:94-95 | a letter's position in A-D under strict equality, or -1 exactly when the value is none of the four letters |
| BulkUpload.RowTags | preplensadmin/backend/index.js:108 | a falsy cell gives no tags; a non-zero numeric cell throws; a text cell's pieces joined with commas give the cell back |
| BulkUpload.MapRow | preplensadmin/backend/index.js:91-114 | a row fails exactly when its answer is numeric or its tags are a non-zero number. Otherwise the document keeps the four option cells and the upper-cased letter, and its index and answer text come from the letter's position in A-D (null and `''` when it has none). Text and solution are the row's when truthy and `''` otherwise; subject, exam and difficulty are the row's as they are; tags are the cell split on commas (`[]` for a falsy cell); no image is stored. Every mapped document has a consistent index, letter and answer |
| BulkUpload.MapRows | preplensadmin/backend/index.js:91-114 | mapping succeeds exactly when every row maps, and then gives each row's document in row order |
| BulkUpload.Upload | preplensadmin/backend/index.js:116-120 | the batch is stored when every row maps and the insert is accepted, with the reply counting all rows; otherwise nothing is stored (the insert is taken to be all-or-nothing, see Left out) |
| BulkUpload.DefaultPrecedence | preplensadmin/backend/index.js:86-112 | marks, time limit and blooms take the truthy batch value first, then the row's, then 4, 60 and `''`. Type takes the row's, then the batch's, then `static`. Marks, time limit and type always end up truthy |
| BulkUpload.LetterResolves | preplensadmin/backend/index.js:93-102 | an answer cell that upper-cases to one of A-D resolves to that position, whatever its case |
| BulkUpload.UnresolvedRowDegrades | preplensadmin/backend/index.js:95-103 | a row whose letter is missing or outside A-D is still stored: null index, empty answer, and the raw upper-cased letter |
| BulkUpload.LowerCaseLetterExample | preplensadmin/backend/index.js:93-95 | the cell `b` resolves to option B at index 1 |
| BulkUpload.OutOfRangeLetterExample | preplensadmin/backend/index.js:93-103 | the cell `E` keeps letter E with a null index and an empty answer |
| BulkUpload.TagsNotTrimmed | preplensadmin/backend/index.js:108 | imported tags joined with commas give the cell back exactly, one tag per comma plus one: nothing is trimmed or dropped |
| BulkUpload.UploadConsistent | preplensadmin/backend/index.js:91-117 | every document of a stored batch has a consistent index, letter and answer |
| ClearQuestions.BuildQuery | preplensadmin/backend/index.js:305-311 | the query holds subject, exam and difficulty exactly when those body values are truthy, and a tag condition exactly when the tags array is non-empty |
| ClearQuestions.QueryMatchesIffSelected | preplensadmin/backend/index.js:306-313 | the built query matches a document exactly when the document meets every truthy body field and, when tags are given, shares at least one tag |
| ClearQuestions.ClearByFilter | preplensadmin/backend/index.js:303-318 | exactly the selected documents are deleted; the rest stay, as often as they were stored and in order; the reply counts the deleted ones and echoes the query |
| ClearQuestions.EmptyBodyClearsAll | preplensadmin/backend/index.js:306-313 | a body with no truthy field and no tags deletes every document |
| ClearQuestions.SubjectOnlyFilter | preplensadmin/backend/index.js:308-313 | a subject-only body removes exactly the documents with that subject |
| ClearQuestions.ClearDatabase | preplensadmin/backend/index.js:289-295 | the wipe empties the collection and reports the old size |
| Statistics.Bump | preplensadmin/backend/index.js:139 | counting one document raises the count of its key by one, adds the key if it is new, and leaves every other count alone |
| Statistics.Tally | preplensadmin/backend/index.js:138-139 | `$group` gives one entry per key that occurs; each entry's count is the number of documents with that key, and the counts sum to the total |
| Statistics.InsertByCount | preplensadmin/backend/index.js:140 | inserting an entry keeps every old entry, adds the new one and nothing else, and adds its count to the sum |
| Statistics.InsertByCountSorted | preplensadmin/backend/index.js:140 | inserting into a list sorted by descending count keeps it sorted |
| Statistics.SortByCount | preplensadmin/backend/index.js:140 | `$sort: { count: -1 }` orders entries by descending count and keeps the same entries and the same sum |
| Statistics.GroupCounts | preplensadmin/backend/index.js:138-149 | each group-by list is sorted by descending count; every entry's count equals the number of documents with its key; every document's key has an entry; the counts sum to the total |
| Statistics.Compute | preplensadmin/backend/index.js:135-162 | the route with the corrected image count (see Findings). The total is the collection size. Each group-by list is the sorted `$group` result for its field: every entry counts the documents with its key, every key present has an entry, and the counts sum to the total. The solution count and the corrected image count are the numbers of documents that have one (an image count excludes a stored `null`), and each "without" count is its complement, between 0 and the total |
| Statistics.CountEverything | preplensadmin/backend/index.js:136 | `countDocuments()` with no filter counts the whole collection |
| Statistics.SolutionCountExample | preplensadmin/backend/index.js:150 | of three documents with solutions `because`, `hence` and `''`, two count as having a solution |
| Statistics.ImageCountAsWrittenCountsNull | preplensadmin/backend/index.js:151 | the route's image filter counts a stored `null` URL as an image, where the corrected count does not |
| Statistics.ImageCountsAgreeWithoutNulls | preplensadmin/backend/index.js:151 | without stored `null` URLs, the route's image count and the corrected one agree |
| Auth.Login | preplensadmin/backend/index.js:260-269 | a token is issued exactly for the hard-coded admin address, carrying id `devadmin`, that address and role `admin` |
| Auth.LoginIgnoresPassword | preplensadmin/backend/index.js:262-263 | the password never changes the login's outcome |
| Auth.LoginCaseSensitive | preplensadmin/backend/index.js:263 | the address is compared exactly: `Admin@preplens.com` is refused |
| Auth.BearerToken | preplensadmin/backend/index.js:278 | the token taken from a `Bearer ` header never contains a space |
| Auth.Check | preplensadmin/backend/index.js:273-286 | a missing header, or one not starting with `Bearer `, is unauthorised. Otherwise the request proceeds exactly when the verifier accepts the token, and the token passed on is the one read from the header |
| Auth.BearerTokenRoundTrip | preplensadmin/backend/index.js:278 | a space-free token is read back unchanged from `Bearer <t>`, also when more words follow |
| Auth.DoubleSpaceGivesEmptyToken | preplensadmin/backend/index.js:278 | two spaces after `Bearer` yield the empty token |
| Auth.ValidTokenProceeds | preplensadmin/backend/index.js:275-282 | a token the verifier accepts, sent as `Bearer <token>`, lets the request through with that token |
| QuestionsList.FilterQuestions | components/QuestionsList.tsx:76-85 | the list keeps exactly the questions that pass search and every chosen filter, each as often as it is listed, in their original order |
| QuestionsList.NoFiltersKeepAll | components/QuestionsList.tsx:76-85 | with empty search and no filter chosen, every question is listed, in order |
| QuestionsList.SearchIgnoresCase | components/QuestionsList.tsx:77-79 | searching a text or its upper-case form matches the same questions |
| QuestionsList.DifficultyIgnoresCase | components/QuestionsList.tsx:82 | difficulty `Easy` is kept by both the `easy` and the `EASY` filters |
| QuestionsList.TotalPages | components/QuestionsList.tsx:88 | the page count is the fewest pages of ten that hold all items, and 0 exactly when there are none |
| QuestionsList.SliceBound | components/QuestionsList.tsx:89 | a slice bound is clamped into the sequence, and a non-negative one is kept when in range |
| QuestionsList.Slice | components/QuestionsList.tsx:89 | for ordered non-negative bounds, a slice is the clamped sub-range; it is never longer than the sequence |
| QuestionsList.Paginate | components/QuestionsList.tsx:89 | a page holds at most ten items: the items from (page-1)·10 to page·10. A page within the page count is non-empty, and a page past it (or page 0) is empty |
| QuestionsList.PagesUpToIsPrefix | components/QuestionsList.tsx:88-89 | pages 1 to k, read in turn, are the first 10·k items |
| QuestionsList.PagesReassemble | components/QuestionsList.tsx:88-89 | reading every page in turn gives back the whole filtered list, so no item is lost or shown twice |
| QuestionsList.ItemOnItsPage | components/QuestionsList.tsx:89 | item i is on page i/10 + 1, at position i mod 10, and that page exists |
| QuestionsList.Press | components/QuestionsList.tsx:183-208 | from a page in range no control leaves the range. A disabled control does nothing; Prev goes back one page and Next forward one |
| QuestionsList.ControlsDisabledAtEnds | components/QuestionsList.tsx:187-204 | Prev is disabled exactly on page 1, and Next exactly on the last page |
| QuestionsList.SetFilters | components/QuestionsList.tsx:96 | changing any filter value returns to page 1; setting the same values changes nothing |
| QuestionsList.FilterChangeShowsFirstPage | components/QuestionsList.tsx:96 | after a filter change the screen shows the first ten (or fewer) items of the new result |
| QuestionsList.Navigate | components/QuestionsList.tsx:183-208 | page controls keep the questions and filters, and keep a page in range in range |
| QuestionsList.VisibleInRange | components/QuestionsList.tsx:88-89 | on a page in range, between one and ten questions show, all of them passing the filters |
| QuestionsList.GivenValues | components/QuestionsList.tsx:92 | `filter(Boolean)` keeps exactly the present non-empty values |
| QuestionsList.Choices | components/QuestionsList.tsx:92-94 | the choices are the present non-empty values, each once, in order of first appearance |
| QuestionsList.FacetValues | components/QuestionsList.tsx:92-94 | the mapped values are, position by position, the questions' subject, exam or blooms |
| QuestionsList.FacetChoicesExact | components/QuestionsList.tsx:92-94 | every drop-down choice is some question's value, and every question's non-empty value is a choice, listed once |
| QuestionsList.HighlightedIds | components/QuestionsList.tsx:57-60 | the highlighted ids are exactly the ids of questions with a non-zero id less than ten seconds before now |
| QuestionsList.NoIdsNoHighlight | components/QuestionsList.tsx:59 | records without an `id` property are never highlighted |
| QuestionCard.LetterPosition | preplensadmin/components/QuestionCard.tsx:35 | a letter's position in A-D, or -1 exactly when it is not one of them |
| QuestionCard.FindIndex | preplensadmin/components/QuestionCard.tsx:39 | the first option equal to the answer, or -1 exactly when no option is equal |
| QuestionCard.ResolveAsWritten | preplensadmin/components/QuestionCard.tsx:30-42 | a stored index is returned unless it is undefined, so a stored null comes back as null; without an index the fallbacks apply |
| QuestionCard.LegacyIndex | preplensadmin/components/QuestionCard.tsx:34-41 | a non-empty letter gives its position in A-D; else a non-empty answer with options gives the matching option's position; else -1. A result of 0 or more is a real position |
| QuestionCard.NullIndexHidesWarning | preplensadmin/components/QuestionCard.tsx:91-106 | a record stored with a null index shows the "Correct Answer" box and not the "No Correct Answer Set" warning |
| QuestionCard.NullIndexExample | preplensadmin/components/QuestionCard.tsx:30-45 | letter E with a null index shows the summary and no warning, although no fallback finds an answer |
| QuestionCard.CorrectIndex | preplensadmin/components/QuestionCard.tsx:30-42 | with the corrected resolution (see Findings): a stored number is used as the index; otherwise the fallbacks decide, giving -1 or more |
| QuestionCard.CorrectIndexAgrees | preplensadmin/components/QuestionCard.tsx:30-42 | where a number or no index at all is stored, the corrected resolution equals the written one |
| QuestionCard.UnresolvedShowsWarning | preplensadmin/components/QuestionCard.tsx:106-108 | with the corrected resolution, a record with no usable index, letter or matching answer shows the warning and not the summary |
| QuestionCard.DisplayExclusive | preplensadmin/components/QuestionCard.tsx:77-106 | with the corrected resolution (see Findings): at most one option is marked correct, and the summary and the warning never show together. When the index is -1 or more, exactly one of them shows |
| QuestionCard.CorrectLetter | preplensadmin/components/QuestionCard.tsx:45 | with the corrected resolution (see Findings): a stored non-empty letter is shown as is. Otherwise the letter comes from the index: A-D for 0 to 3, `undefined` past D, and `null` for a negative index |
| QuestionCard.CorrectLetterAgrees | preplensadmin/components/QuestionCard.tsx:44-45 | for a record found by its letter, the letter shown is that of the marked option |
| QuestionCard.ShowsLegacyNote | preplensadmin/components/QuestionCard.tsx:91-99 | the legacy note shows only for records with neither an index property nor a letter, whose answer text is the marked option. Every such record whose answer is among the options shows it |
| QuestionCard.CorrectLetterAsWritten | preplensadmin/components/QuestionCard.tsx:44-45 | as written: a stored non-empty letter is shown as is; with no letter, a stored `null` index shows `undefined`, and a number shows a letter exactly when it is 0 to 3 |
| QuestionCard.NullIndexMarksNothing | preplensadmin/components/QuestionCard.tsx:44-79 | as written, a record with a `null` index and no letter marks no option and shows an `undefined` letter |
| QuestionCard.NullIndexAnswerExample | preplensadmin/components/QuestionCard.tsx:30-79 | options a-d, answer `b`, index and letter `null`: the card as written marks nothing and shows no letter, while the corrected resolution marks option B |
| QuestionCard.DisplayAgrees | preplensadmin/components/QuestionCard.tsx:44-106 | where a number or no index is stored, the corrected display marks the same option, shows the same boxes and the same letter as the card as written |
| QuestionCard.DifficultyBadge | preplensadmin/components/QuestionCard.tsx:10-17 | there is no badge exactly when the difficulty is missing or empty. Easy, medium and hard in any case are green, yellow and red, and any other text is gray |
| QuestionCard.BadgeIgnoresCase | preplensadmin/components/QuestionCard.tsx:13-15 | a difficulty and its upper-case form get the same badge |
| QuestionCard.BadgeExamples | preplensadmin/components/QuestionCard.tsx:10-17 | `Hard` is red, `EASY` green, `tricky` gray, and `''` has no badge |
| QuestionForm.EmptyOptions | preplensadmin/components/CreateQuestionForm.tsx:20 | the form starts with four empty options |
| QuestionForm.NumberError | preplensadmin/components/CreateQuestionForm.tsx:211-222 | a blank number is required. A non-blank one is refused exactly when `parseInt` reads a number at most 0, so unreadable text passes |
| QuestionForm.Record | preplensadmin/components/CreateQuestionForm.tsx:192-222 | recording a message sets that key to it and leaves every other key alone |
| QuestionForm.Collect | preplensadmin/components/CreateQuestionForm.tsx:191-224 | each key of the error object is present exactly when its check failed, with that check's message |
| QuestionForm.Validate | preplensadmin/components/CreateQuestionForm.tsx:191-225 | there is an error for the text exactly when it is blank, for the options exactly when one is blank, for the answer exactly when none is selected, and for marks and time limit exactly when their number check fails (the other copy has the same code at lines 104-138) |
| QuestionForm.ValidIff | preplensadmin/components/CreateQuestionForm.tsx:191-225 | the error object is empty exactly when the form passes each check, and that is exactly when text and every option are non-blank, an answer is selected, and marks and time limit are non-blank and not read as a number below 1 (the other copy has the same code at lines 104-138) |
| QuestionForm.ValidFilled | preplensadmin/components/CreateQuestionForm.tsx:191-225 | a valid form has an answer selected, no blank option, and non-blank marks and time limit |
| QuestionForm.UnreadableMarksPass | preplensadmin/components/CreateQuestionForm.tsx:211-214 | marks starting with a character `parseInt` cannot read pass validation and are sent as NaN |
| QuestionForm.TrimAll | preplensadmin/components/CreateQuestionForm.tsx:247 | each piece is replaced by its trimmed form, position by position |
| QuestionForm.ParseTags | preplensadmin/components/CreateQuestionForm.tsx:247 | the tags sent are the trimmed comma-separated pieces in order, every non-empty one kept as often as it occurs and the empty ones dropped; each tag is non-empty, comma-free and unpadded (the other copy has the same code at lines 160) |
| QuestionForm.ParseTagsKeepsText | preplensadmin/components/CreateQuestionForm.tsx:247 | every non-blank piece contributes its trimmed text |
| QuestionForm.ParseTagsCount | preplensadmin/components/CreateQuestionForm.tsx:247 | there are at most as many tags as commas plus one |
| QuestionForm.ParseTagsJoin | preplensadmin/components/CreateQuestionForm.tsx:247 | parsing clean tags joined with commas gives them back: parsing inverts joining |
| QuestionForm.ParseTagsDropsPadding | preplensadmin/components/CreateQuestionForm.tsx:247 | white space around a tag and an all-space entry disappear: `" t , "` sends `[t]` |
| QuestionForm.ParseTagsEmpty | preplensadmin/components/CreateQuestionForm.tsx:247 | an empty tag field sends no tags |
| QuestionForm.NumberFieldOf | preplensadmin/components/CreateQuestionForm.tsx:245-246 | an empty text is omitted; otherwise the field is the number `parseInt` reads, or NaN |
| QuestionForm.BuildPayload | preplensadmin/components/CreateQuestionForm.tsx:239-249 | the payload carries the text, solution, options, selected index and diagram as typed, the parsed tags, and the parsed marks and time limit (the other copy has the same code at lines 152-162) |
| QuestionForm.ValidPayloadNumbers | preplensadmin/components/CreateQuestionForm.tsx:245-246 | a valid form always sends marks and time limit, each NaN or a positive number |
| QuestionForm.PassingNumber | preplensadmin/components/CreateQuestionForm.tsx:211-222 | a text the number check lets through is sent as NaN or as a positive number |
| QuestionForm.ToBody | preplensadmin/components/CreateQuestionForm.tsx:255 | after `JSON.stringify`, the server sees the options as strings and a selected index as a number. The diagram arrives as string, `null` or absent, and no `answer` is sent |
| QuestionForm.SubmittedQuestionConsistent | preplensadmin/components/CreateQuestionForm.tsx:239-255 | a valid form yields a stored question whose index is the selection, whose answer is the selected option's text, and whose letter agrees |
| QuestionForm.SelectedOptionStored | preplensadmin/components/CreateQuestionForm.tsx:244 | a selected non-empty option is stored as the answer together with its index and letter |
| QuestionForm.PayloadStored | preplensadmin/backend/index.js:178-182 | a payload selecting a non-empty one of four options is stored consistently, with that option as the answer |
| QuestionForm.ReplaceAt | preplensadmin/components/CreateQuestionForm.tsx:95 | only position idx takes the new value |
| QuestionForm.ClearError | preplensadmin/components/CreateQuestionForm.tsx:97-99 | the key's message is blanked, the keys stay, and other messages are kept |
| QuestionForm.OptionChange | preplensadmin/components/CreateQuestionForm.tsx:94-100 | only option idx changes; the options message no longer shows; nothing else changes (the other copy has the same code at lines 95-101) |
| QuestionForm.SelectCorrect | preplensadmin/components/CreateQuestionForm.tsx:334-339 | the radio button selects its option and hides the answer message, nothing else changes (the other copy has the same code at lines 239-244) |
| QuestionForm.SetMarks | preplensadmin/components/CreateQuestionForm.tsx:419-424 | typing marks stores them and hides the marks message, nothing else changes |
| QuestionForm.SetTimer | preplensadmin/components/CreateQuestionForm.tsx:439-444 | typing a time limit stores it and hides its message, nothing else changes |
| QuestionForm.Reset | preplensadmin/components/CreateQuestionForm.tsx:257-268 | after success every typed field is empty, nothing is selected, the diagram is null, there are no errors, and the success message shows. The question type is kept (the other copy has the same code at lines 170-181) |
| QuestionForm.Submit | preplensadmin/components/CreateQuestionForm.tsx:229-274 | once the handler runs, a payload is sent exactly when the form is valid. An invalid form only records its errors; success resets the form; any other reply keeps the fields as typed (the other copy has the same code at lines 142-187) |
| QuestionForm.RejectedShowsEveryError | preplensadmin/components/CreateQuestionForm.tsx:224 | after a rejected submission every message validation produced is on screen |
| QuestionForm.SummaryOf | preplensadmin/components/CreateQuestionForm.tsx:498-505 | the summary shows exactly when the selected option has text. It gives that text, the letter at the index, the marks and time limit as typed or `Not set` when empty, and the number of non-blank options (the other copy has the same code at lines 344-351) |
| QuestionForm.FilledCountIff | preplensadmin/components/CreateQuestionForm.tsx:505 | the summary counts every option as filled exactly when no option is blank, that is when the options check passes |
| QuestionForm.ValidFormSummary | preplensadmin/components/CreateQuestionForm.tsx:498-505 | a valid form always shows the summary, with the selected letter, 4/4 options filled, and marks and time limit as typed |
| QuestionForm.FilledSummary | preplensadmin/components/CreateQuestionForm.tsx:498-505 | with all options filled and marks and time limit typed, the summary shows exactly these values |
| MathEditor.Init | preplensadmin/components/MathEditor.tsx:12-14 | the editor starts on the given target (else the question) and the given option index (else 0), with an empty buffer on the Basic tab |
| MathEditor.SyncProps | preplensadmin/components/MathEditor.tsx:17-20 | the target is taken over only when one is passed, and the option index only when it is defined. Buffer and tab are kept |
| MathEditor.SyncPropsIdempotent | preplensadmin/components/MathEditor.tsx:17-20 | running the props effect twice with the same props is the same as once |
| MathEditor.GetSymbols | preplensadmin/components/MathEditor.tsx:58-68 | each known tab shows its own palette, and any other tab name shows the basic one |
| MathEditor.BasicVisible | preplensadmin/components/MathEditor.tsx:22-25 | every basic symbol starts with a visible character |
| MathEditor.MathVisible | preplensadmin/components/MathEditor.tsx:27-30 | every maths symbol starts with a visible character |
| MathEditor.MatrixVisible | preplensadmin/components/MathEditor.tsx:32-35 | every matrix symbol starts with a visible character |
| MathEditor.FormulaVisible | preplensadmin/components/MathEditor.tsx:37-40 | every formula symbol starts with a visible character |
| MathEditor.ArrowVisible | preplensadmin/components/MathEditor.tsx:42-45 | every arrow symbol starts with a visible character |
| MathEditor.AlphabetVisible | preplensadmin/components/MathEditor.tsx:47-54 | every letter of the alphabet palette is visible |
| MathEditor.SymbolsNotBlank | preplensadmin/components/MathEditor.tsx:22-68 | no symbol of any tab's palette is blank after trimming |
| MathEditor.SymbolClick | preplensadmin/components/MathEditor.tsx:70-72 | a click puts the symbol after the unchanged buffer, and nothing else changes |
| MathEditor.EditLatex | preplensadmin/components/MathEditor.tsx:111 | typing replaces the buffer and nothing else |
| MathEditor.SelectTab | preplensadmin/components/MathEditor.tsx:123 | a tab button shows that tab's palette and keeps the buffer |
| MathEditor.Insert | preplensadmin/components/MathEditor.tsx:74-80 | a blank buffer does nothing and does not close. Otherwise the buffer, target and index are handed over once, the buffer empties and the dialog closes |
| MathEditor.InsertTwiceOnce | preplensadmin/components/MathEditor.tsx:74-80 | a second Insert right after a successful one hands nothing over |
| MathEditor.AppendNotBlank | preplensadmin/components/MathEditor.tsx:75 | appending non-blank text to any buffer leaves it non-blank |
| MathEditor.ClickThenInsert | preplensadmin/components/MathEditor.tsx:70-80 | after clicking any palette symbol, Insert hands over the buffer with that symbol at its end |
| AdminForm.ImageChange | preplensadmin/components/CreateQuestionForm.tsx:88-91 | the uploader's address is stored as the diagram, or null when the image is removed, and nothing else changes |
| AdminForm.AdminImageNeverUndefined | preplensadmin/components/CreateQuestionForm.tsx:88-91 | the admin form never leaves the diagram undefined: the server receives the address or `null` |
| AdminForm.OpenMathEditor | preplensadmin/components/CreateQuestionForm.tsx:162-168 | the editor opens on the given target, and takes the option index only when one is given; form and images are untouched |
| AdminForm.CloseMathEditor | preplensadmin/components/CreateQuestionForm.tsx:516 | closing only hides the editor |
| AdminForm.AppendAt | preplensadmin/components/CreateQuestionForm.tsx:183-185 | only option k gets the LaTeX appended |
| AdminForm.MathInsert | preplensadmin/components/CreateQuestionForm.tsx:170-188 | the LaTeX goes at the end of exactly one text: the question, the solution, or option k. Target and k fall back to the form's own |
| AdminForm.MathInsertOutOfRange | preplensadmin/components/CreateQuestionForm.tsx:183-186 | inserting into an option that does not exist leaves everything unchanged |
| AdminForm.MathInsertEmpty | preplensadmin/components/CreateQuestionForm.tsx:170-188 | inserting the empty text changes nothing, whatever the target |
| AdminForm.EditorInsert | preplensadmin/components/CreateQuestionForm.tsx:514-521 | the editor's Insert calls the form's insert handler with the buffer, target and index, and then closes the editor; a blank buffer changes nothing |
| AdminForm.OptionMathRoundTrip | preplensadmin/components/CreateQuestionForm.tsx:354 | the f(x) button of option idx, typing LaTeX, then Insert: the LaTeX lands at the end of that option only, the editor closes, and its buffer empties |
| AdminForm.QuestionMathRoundTrip | preplensadmin/components/CreateQuestionForm.tsx:298 | the question's f(x) button, then Insert, appends the LaTeX to the question text and changes nothing else in the form |
| AdminForm.BlankInsertNoEffect | preplensadmin/components/MathEditor.tsx:74-80 | Insert with a blank buffer leaves the form untouched and the editor open |
| AdminForm.TagInside | preplensadmin/components/CreateQuestionForm.tsx:118 | the tag's attributes contain no `>` when the address has none |
| AdminForm.ImageTag | preplensadmin/components/CreateQuestionForm.tsx:118 | the tag opens with `<img`, ends with its only `>` when the address holds none, and so is one match of the removal pattern |
| AdminForm.WithImage | preplensadmin/components/CreateQuestionForm.tsx:119-121 | an empty option becomes the tag; any other option keeps its text, followed by a line break and the tag |
| AdminForm.OptionImageUploaded | preplensadmin/components/CreateQuestionForm.tsx:103-129 | only a reply with a truthy `url` has an effect: it records the image for option idx and appends the tag to that option alone |
| AdminForm.StripImgTags | preplensadmin/components/CreateQuestionForm.tsx:157 | removing image tags never makes the text longer |
| AdminForm.StripOnlyDeletes | preplensadmin/components/CreateQuestionForm.tsx:157 | removal only deletes characters: the result is a subsequence of the text |
| AdminForm.StripWithoutImg | preplensadmin/components/CreateQuestionForm.tsx:157 | a text containing no `<img` is unchanged |
| AdminForm.StripPlainPrefix | preplensadmin/components/CreateQuestionForm.tsx:157 | text before the first `<` passes through untouched |
| AdminForm.TagMatch | preplensadmin/components/CreateQuestionForm.tsx:157 | `<img` up to the first `>` is one match, and the scan resumes after it |
| AdminForm.StripImageTag | preplensadmin/components/CreateQuestionForm.tsx:118-157 | a tag built by the upload is removed whole |
| AdminForm.StripLineBreak | preplensadmin/components/CreateQuestionForm.tsx:119-157 | the line break the upload adds is not a tag and stays |
| AdminForm.StripWithImage | preplensadmin/components/CreateQuestionForm.tsx:118-157 | cutting the tags from a plain option with an image gives the option back, plus the line break the upload added |
| AdminForm.RemoveOptionImage | preplensadmin/components/CreateQuestionForm.tsx:149-159 | the option's recorded image is forgotten and image tags are cut from that option alone |
| AdminForm.UploadThenRemove | preplensadmin/components/CreateQuestionForm.tsx:103-159 | uploading then removing an option image forgets the image and restores the option text, apart from the line break the upload added |
| AdminForm.SubmitAsWritten | preplensadmin/components/CreateQuestionForm.tsx:229-274 | the admin submission resets the shared fields and keeps the option image map as it was |
| AdminForm.StalePreviewAfterSubmit | preplensadmin/components/CreateQuestionForm.tsx:257-268 | after a successful submission the options are empty, yet each uploaded option image is still previewed |
| AdminForm.Submit | preplensadmin/components/CreateQuestionForm.tsx:229-274 | the corrected submission clears the option images exactly when it resets the form, and otherwise keeps them |
| AdminForm.SubmitClearsPreviews | preplensadmin/components/CreateQuestionForm.tsx:257-268 | after a successful corrected submission no preview shows, and the form is in its first state apart from type and success |
| AdminForm.SubmitAgreesOnFailure | preplensadmin/components/CreateQuestionForm.tsx:229-274 | when the submission does not succeed, the corrected and the written versions agree |
| AdminForm.NoDiagramCountedAsImage | preplensadmin/backend/index.js:151 | a question sent without a diagram is stored with imageUrl `null`; the route's statistics count it as having an image, the corrected count does not |
| CleanForm.DiagramChange | preplens-clean/components/CreateQuestionForm.tsx:78-92 | with no file chosen nothing changes. Otherwise the reply's `url` replaces the diagram as it comes, and nothing else changes |
| CleanForm.MissingUrlDropsDiagram | preplens-clean/components/CreateQuestionForm.tsx:89-90 | a reply without `url` leaves the diagram undefined: it is left out of the request and not stored, so neither image count counts it |
| CleanForm.UploadedDiagramStored | preplens-clean/components/CreateQuestionForm.tsx:90 | a reply with an address sends and stores exactly that address |
| CleanForm.DiagramIgnoredByValidation | preplens-clean/components/CreateQuestionForm.tsx:104-138 | the diagram plays no part in validation |
| JsString.BlankIffAllSpace | preplensadmin/components/CreateQuestionForm.tsx:195 | `s.trim()` is empty exactly when `s` is white space only, which is how the required-field checks are stated |
| JsString.ParseIntNatToString | preplensadmin/components/CreateQuestionForm.tsx:213 | `parseInt` reads the decimal text of any natural number back as that number |
| JsString.ParseIntSkipsSpace | preplensadmin/components/CreateQuestionForm.tsx:213 | `parseInt` ignores leading white space |
| JsString.ParseIntNoDigits | preplensadmin/components/CreateQuestionForm.tsx:213 | a text starting with a character that is not a sign, space or digit reads as NaN |
| Js.OrChain | preplensadmin/backend/index.js:109-111 | `a || b || c` is the first truthy value of the three, else the last |

## Left out

- Mongoose and MongoDB themselves: the connection, ids, schema casting and the `type` enum. The bulk route's `insertMany` outcome is a parameter (`insertOk`).
- Reading the spreadsheet (`XLSX.readFile`, `sheet_to_json`) and multer's file handling, including the 400 reply for a missing file. The rows arrive as a sequence.
- Signing and verifying tokens. Login returns the claims that would be signed, and the middleware takes the verifier as a function parameter.
- `/auth/register`, bcrypt, `GET /questions`, `DELETE /questions/:id` and the S3 image upload route (`index.js:220-244`). These are outside the modelled core.
- The components `ImageUploader.tsx`, `Statistics.tsx` and `BulkUploadForm.tsx`, and the other `QuestionCard.tsx` (under `components/`). They are not part of this model.
- React scheduling, `fetch` and its failures, `alert`, and the `uploading`, `uploadingOptions` and `submitting` flags. A submission's reply is a boolean parameter. A thrown fetch is treated like a reply that is not ok.
- The option-image paste handler (`CreateQuestionForm.tsx:132-147`). It is a clipboard path into the same upload, which is modelled.
- The math editor's `isOpen` rendering and its Cancel button. Cancel is `CloseMathEditor`.
- Numbers are integers. Floating point, NaN arithmetic and boolean values in JSON bodies are not modelled. Statistics' "without" counts are exact differences.
- `toUpperCase` and `toLowerCase` map ASCII letters only. Other characters are left as they are.
- Statistics.SortByCount: MongoDB does not fix the order of groups with equal counts. The model uses a stable insertion sort, which is one allowed order. The contract states only sortedness, the same entries and the same sum.
- AdminForm.ImageTag: the option number in the alt text is written for a natural index. The source's `idx + 1` is always applied to a rendered option position 0-3.
- QuestionsList.HighlightedIds: the clock is a parameter (`now`). Ids are integers, where the source compares whatever the server sent.
- QuestionForm.Submit: models `handleSubmit`, not the browser's own form validation in front of it. The form has no `noValidate`, and its option inputs carry `required` while marks and time limit are `type="number"` with `min={0}` and `required` (admin copy lines 350 and 415-446, the other copy lines 253 and 271-302). A browser therefore refuses to submit with an empty option, empty marks or time limit, or a negative number, and a number field holds only a numeric text or `''`. The model lets every such input reach the handler, so `QuestionForm.RejectedShowsEveryError` and `QuestionForm.UnreadableMarksPass` also cover inputs that a browser stops first.
- BulkUpload.Upload: assumes `insertMany` stores all documents or none. An ordered `insertMany` that fails part-way leaves the documents before the failure stored; the model has only full acceptance and full rejection.
- QuestionForm.SelectCorrect: the index is one of the four rendered radio buttons. That is a precondition, because the form offers no other.

## Findings

| source | as written | input that shows it | evidently intended | confidence | as-written member | corrected member |
|---|---|---|---|---|---|---|
| preplensadmin/components/QuestionCard.tsx:30-42 | `getCorrectOptionIndex` returns a stored index whenever it is not `undefined`, so a stored `null` comes back as `null`. Then `null >= 0` is true and `null === -1` is false | a bulk-imported row whose answer letter is `E` (stored `correctOptionIndex: null`, letter `E`): the card shows an empty "Correct Answer" box and no "No Correct Answer Set" warning | treat a stored `null` like a missing index, so that the fallbacks run and an unresolved record shows the warning | high (not executed) | QuestionCard.ResolveAsWritten, QuestionCard.NullIndexHidesWarning, QuestionCard.CorrectLetterAsWritten, QuestionCard.NullIndexMarksNothing | QuestionCard.CorrectIndex, QuestionCard.UnresolvedShowsWarning, QuestionCard.CorrectLetter, QuestionCard.DisplayExclusive |
| preplensadmin/backend/index.js:151 | `{ imageUrl: { $exists: true, $ne: '' } }` also matches a stored `null` | a question created from the admin form without a diagram (the form sends `imageUrl: null`) is counted under `questionsWithImages` | count only questions whose image URL is a non-empty string | high (not executed) | Statistics.ImageCountAsWrittenCountsNull, AdminForm.NoDiagramCountedAsImage | Statistics.Compute, Statistics.ImageCountsAgreeWithoutNulls |
| preplensadmin/components/CreateQuestionForm.tsx:257-268 | the reset after a successful submission empties the options but not `optionImages` | upload an image into option A, fill the form, submit successfully: option A is empty, yet its image preview still shows | clear the option images together with the option texts that carried them | medium (not executed) | AdminForm.SubmitAsWritten, AdminForm.StalePreviewAfterSubmit | AdminForm.Submit, AdminForm.SubmitClearsPreviews |
