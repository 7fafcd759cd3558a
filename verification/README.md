# Batch distribution, user export and API errors — a Dafny model

This project models three pieces of the zuux admin front end and proves properties of them.

- **The batch-distribution form** (`BatchTransferForm`). The operator pastes text: addresses with amounts, or
  addresses that all get one global amount. `parseInput` turns the text into an ordered list of
  (address, amount string, amount in base units). The parse is all or nothing. The first bad line aborts it
  with a message naming the rejected address, or the address and the amount. A text with no usable line fails
  with a message of its own. The form empties the list when the transfer type or the token's reported decimals
  change, when the mode switches, and when the text is edited; editing the token address alone keeps it.
  From the list the form derives the total and the approval gate (`needsApproval`). It also derives the
  two contract calls its buttons send: `approve` on the token, and `distributeETH` / `distributeERC20` on the
  batch contract.
- **The user export** (`generateCSV` in `export-helpers.ts`). It chooses the checked columns and indexes the
  bot users by Telegram id, the last one with an id winning. Each web user gets one row, joined with the bot
  user that has its id. Every bot user no web user claimed gets a row of its own. Fields are escaped with
  `escapeCSV`. The bot users are fetched by a paging loop, `fetchAllBotUsers`.
- **API error formatting** (`formatError` / `getErrorMessage` of `useApiError`). An ordered decision table
  turns a caught error into a code, a message, optional field errors and an optional status code.

Modules, one per file:

| module | file | models |
|---|---|---|
| `Wrappers` | `wrappers.dfy` | `Option` / `Result` |
| `JsText` | `js_text.dfy` | JavaScript `trim`, `split('\n')`, `split(/[\s,]+/)` |
| `BatchParse` | `batch_parse.dfy` | `parseInput` |
| `BatchForm` | `batch_form.dfy` | form state, clearing rules, total, approval gate, contract calls |
| `Seqs` | `seqs.dfy` | `Array.prototype.filter` and what it keeps |
| `Csv` | `csv.dfy` | `escapeCSV`, row and document text, an RFC 4180-style reader |
| `CsvExport` | `csv_export.dfy` | the merge of `generateCSV`, `fetchAllBotUsers` |
| `ApiError` | `api_error.dfy` | `formatError`, `getErrorMessage` |

Modelling choices:

- viem's `isAddress` and `parseUnits` are parameters: a record of two total functions (`BatchParse.Viem`).
  `parseUnits` returns `None` where the library throws. Every property holds for every such pair.
- The whitespace of `trim` and of `\s` is the ECMAScript WhiteSpace and LineTerminator set.
  `split(/[\s,]+/)` keeps the empty field before a leading separator run and after a trailing one, as
  JavaScript does.
- The React component is a pure record `BatchForm.Form`. `BatchForm.Step` applies one event.
  - Events are user actions, plus `ReadsChanged` for new token-contract reads (symbol, decimals, allowance).
  - Each step runs the event's state setters, then the effect at lines 173-175. That effect empties the list
    whenever the decimals or the transfer type changed.
- A caught error is a datatype (`ApiError.Caught`): either not an `AxiosError`, or one with an optional
  response, an optional transport code and a message.
- The reader `Csv.ReadDocument` is in the style of section 2 of RFC 4180, with two differences: a record
  ends at a line feed, not CRLF, and an unquoted field may hold any character but a comma or a line feed
  (so also `"` and `\r`). It exists only to state the round trip: what `escapeCSV` and the row joining write
  reads back as the original cell texts.
- `Array.prototype.filter` is one generic function, `Seqs.Filter`. The non-blank lines, the checked columns
  and the unclaimed bot users are all defined through it. `Seqs.FilterPicks` proves that a filter keeps the
  passing elements at increasing positions, and keeps every passing position, repeats included.

Behaviours of the code worth knowing:

- A failed validation does not empty the list. The previous list stays, hidden behind the error message, so
  no button is offered (`BatchForm.FailedValidateHidesList`).
- In list mode, a line with fewer than two fields is skipped, not rejected. Only when every line is skipped
  does the parse fail, with "No valid entries".
- The total is an unbounded sum (`bigint` reduce). There is no 256-bit overflow check.
- Editing the token address does not itself clear the list. It is cleared through the effect, and only
  once the new token's reported decimals differ from the old ones.

## Model

| member | source | states |
|---|---|---|
| JsText.Trim | src/components/BatchTransferForm.tsx:83 | the trimmed line has no leading or trailing whitespace, is a contiguous slice of the input, and is empty exactly when the input is all whitespace |
| JsText.JoinSplitOn | src/components/BatchTransferForm.tsx:83 | splitting on line feeds loses nothing: joining the pieces back with line feeds gives the original text |
| JsText.SplitOn | src/components/BatchTransferForm.tsx:83 | `split('\n')` yields at least one piece, and no piece contains a line feed |
| JsText.Lines | src/components/BatchTransferForm.tsx:83 | every line handed to the parser is non-empty and trimmed |
| JsText.NonBlank | src/components/BatchTransferForm.tsx:83 | no more lines are kept than there were pieces; each is non-empty and trimmed |
| JsText.NonBlankMembers | src/components/BatchTransferForm.tsx:83 | the kept lines are exactly the trimmed pieces that are non-empty |
| JsText.NonBlankInOrder | src/components/BatchTransferForm.tsx:83 | the kept lines are the trimmed pieces at increasing positions, and every non-blank piece is among them: input order is kept, repeats included |
| Seqs.FilterPicks | src/components/BatchTransferForm.tsx:83 | a filter keeps exactly the passing elements, at increasing positions, each passing position once |
| Seqs.FilterMembers | src/components/BatchTransferForm.tsx:83 | an element is kept exactly when it occurs and passes the test |
| JsText.Fields | src/components/BatchTransferForm.tsx:106 | there is always at least one field, and the first is the longest prefix free of whitespace and commas |
| JsText.FieldsRoundTrip | src/components/BatchTransferForm.tsx:106 | the fields, with the separator runs put back between them, rebuild the line; there is one run fewer than fields |
| JsText.SepsAreRuns | src/components/BatchTransferForm.tsx:106 | every separator run between two fields is non-empty and made only of whitespace and commas |
| JsText.FieldsNoSep | src/components/BatchTransferForm.tsx:97 | no field produced by `split(/[\s,]+/)` contains whitespace or a comma |
| JsText.FieldsConcat | src/components/BatchTransferForm.tsx:106 | the fields, concatenated, are exactly the non-separator characters of the line in order |
| JsText.FieldsCount | src/components/BatchTransferForm.tsx:106-107 | a line yields two or more fields exactly when it contains a separator character |
| JsText.FieldsInnerNonEmpty | src/components/BatchTransferForm.tsx:106 | separator runs are maximal: only the first and last field can be empty |
| BatchParse.Message | src/components/BatchTransferForm.tsx:79-128 | every way the parse can stop sets a non-empty banner message, so a failure is never silent |
| BatchParse.ListVerdict | src/components/BatchTransferForm.tsx:105-123 | a line is skipped exactly when it has under two fields; otherwise it is kept exactly when its address is valid and its amount parses; the address is checked first, so a line wrong in both reports the address; a kept entry uses the first two fields at the current decimals |
| BatchParse.SingleVerdict | src/components/BatchTransferForm.tsx:96-102 | single mode never skips a line; it keeps a line exactly when the first field is a valid address, else reports that address; a kept entry is the first field with the global amount |
| BatchParse.Collect | src/components/BatchTransferForm.tsx:96-124 | the loop succeeds exactly when no line is rejected; it fails with the error of the first rejected line; its result is empty exactly when every line was skipped |
| BatchParse.Parse | src/components/BatchTransferForm.tsx:76-133 | the token guard fails first; in single mode a blank or unparsable global amount fails next; a success is non-empty, no longer than the line list, and every entry is unit-consistent at the decimals used |
| BatchParse.CollectInOrder | src/components/BatchTransferForm.tsx:96-124 | a successful collection holds, in order, exactly the entries of the good lines |
| BatchParse.Finish | src/components/BatchTransferForm.tsx:127-130 | an empty collection becomes the "no valid entries" error of the mode; a non-empty one passes through; an earlier error is kept |
| BatchParse.ListModeEntries | src/components/BatchTransferForm.tsx:105-124 | list mode: the entries come from exactly the lines with two or more fields, in line order, each from that line's first two fields |
| BatchParse.SingleModeEntries | src/components/BatchTransferForm.tsx:86-103 | single mode: one entry per non-blank line, in order, each the line's first field with the global amount in base units |
| BatchParse.ListModeSucceedsIff | src/components/BatchTransferForm.tsx:76-133 | list mode succeeds if and only if the token guard passes, every line with two or more fields has a valid address and a parsable amount, and some line has two fields |
| BatchParse.SingleModeSucceedsIff | src/components/BatchTransferForm.tsx:76-133 | single mode succeeds if and only if the token guard passes, the global amount is non-blank and parses, there is a line, and every line's first field is an address |
| BatchParse.ListModeFirstError | src/components/BatchTransferForm.tsx:105-130 | a list-mode failure past the guard is "no valid entries" with every line skipped, or the error of the first rejected line |
| BatchParse.SingleModeFirstError | src/components/BatchTransferForm.tsx:95-129 | a single-mode failure past the token guard and a valid global amount is "no valid addresses" only when there is no line, otherwise "Invalid address found" naming the first field of the first line whose first field is not an address, every earlier line having a valid one |
| BatchForm.Decimals | src/components/BatchTransferForm.tsx:69 | the token's reported decimals, or 18 when none was read |
| BatchForm.Allowance | src/components/BatchTransferForm.tsx:70 | the reported allowance, or 0 when none was read |
| BatchForm.Step | src/components/BatchTransferForm.tsx:173-262 | each event's full post-state: a type button sets the type and empties the list unless the type is unchanged; an address or global-amount edit sets only that field; new reads empty the list only when the decimals differ; a mode switch sets the mode and clears list and error; a text edit sets the text and clears the list; validation touches only the list and the error; a type or decimals change always leaves the list empty |
| BatchForm.ValidateOutcome | src/components/BatchTransferForm.tsx:76-133 | validating installs the parse result and clears the error on success; on failure it sets the failure's message and keeps the previous list |
| BatchForm.StepKeepsConsistent | src/components/BatchTransferForm.tsx:172-175 | after any event, every entry of the list is still unit-consistent at the current decimals |
| BatchForm.RunKeepsConsistent | src/components/BatchTransferForm.tsx:172-175 | from a consistent form, any sequence of events keeps every entry unit-consistent at the current decimals |
| BatchForm.InitialConsistent | src/components/BatchTransferForm.tsx:46-70 | the first render has decimals 18, allowance 0, and a (trivially) consistent list |
| BatchForm.Total | src/components/BatchTransferForm.tsx:135 | when no amount is negative, the total is not negative |
| BatchForm.TotalIsSum | src/components/BatchTransferForm.tsx:135 | the left-to-right reduce equals the plain sum of the amounts |
| BatchForm.TotalAppend | src/components/BatchTransferForm.tsx:135 | the total of two lists back to back is the sum of their totals |
| BatchForm.TotalOfUniform | src/components/BatchTransferForm.tsx:135 | in single mode the total is the entry count times the global amount |
| BatchForm.ApprovalGate | src/components/BatchTransferForm.tsx:136 | ETH never needs approval; an allowance equal to the total is enough; one below it is not |
| BatchForm.NeedsApproval | src/components/BatchTransferForm.tsx:136 | approval is asked only for an ERC20 distribution with a positive total, and always for one when no allowance has been read |
| BatchForm.ApproveCall | src/components/BatchTransferForm.tsx:138-147 | there is an approve call exactly when the token address is valid; it targets the token and grants the batch contract the total, with no value attached |
| BatchForm.ApproveIsExact | src/components/BatchTransferForm.tsx:136-147 | once the granted amount is the allowance the gate opens; any smaller allowance keeps it shut |
| BatchForm.SendCall | src/components/BatchTransferForm.tsx:149-170 | the send goes to the batch contract with receivers and amounts in list order; ETH attaches the total, a token attaches nothing and names the token |
| BatchForm.SendEthValueIsSum | src/components/BatchTransferForm.tsx:149-161 | the value attached to `distributeETH` equals the sum of the amounts it distributes |
| BatchForm.Offered | src/components/BatchTransferForm.tsx:275-323 | the action area is hidden exactly when the list is empty or an error shows; send is offered only when no approval is needed; the button is enabled exactly when connected and idle |
| BatchForm.FailedValidateHidesList | src/components/BatchTransferForm.tsx:76-133 | a failed validation keeps the old list but nothing is offered from it |
| BatchForm.DecimalsChangeHidesList | src/components/BatchTransferForm.tsx:172-175 | after the decimals change the list is empty and nothing is offered |
| Csv.Escape | src/lib/export-helpers.ts:41-50 | a missing value escapes to empty; a value without quote, comma or line break is unchanged; any other is wrapped in quotes |
| Csv.EscapeReadsBack | src/lib/export-helpers.ts:41-50 | an escaped value, read back by an RFC 4180-style reader, gives the value's text and leaves what follows untouched |
| Csv.RowReadsBack | src/lib/export-helpers.ts:191-198 | a non-empty escaped row joined by commas and ended by a line feed reads back as its cell texts |
| Csv.DocumentReadsBack | src/lib/export-helpers.ts:177-224 | a sequence of non-empty escaped rows reads back as the rows of cell texts, in order |
| CsvExport.Enabled | src/lib/export-helpers.ts:154-155 | the selected names are exactly the checked ones, and no more than there are flags |
| CsvExport.EnabledInOrder | src/lib/export-helpers.ts:154-155 | the selected names are those of the checked flags, in key order, every checked flag among them |
| CsvExport.Key | src/lib/export-helpers.ts:160-161 | an id is a merge key exactly when it is present and non-empty |
| CsvExport.Flatten | src/lib/export-helpers.ts:162-166 | a game object's score becomes the `score` field; every other field is unchanged; without a game object the user is unchanged |
| CsvExport.BotIndex | src/lib/export-helpers.ts:158-169 | only non-empty ids are keys of the index |
| CsvExport.BotIndexKeys | src/lib/export-helpers.ts:158-169 | the index holds exactly the ids some bot user carries |
| CsvExport.BotIndexLastWins | src/lib/export-helpers.ts:158-169 | the entry for an id is the flattened last bot user with that id |
| CsvExport.Matched | src/lib/export-helpers.ts:178-189 | every processed id is a key of the bot index |
| CsvExport.MatchedIff | src/lib/export-helpers.ts:182-189 | an id is processed exactly when some web user carries it and a bot user has it |
| CsvExport.UnclaimedBots | src/lib/export-helpers.ts:203-207 | every bot user written on its own row has no id or an unprocessed one, and there are no more of them than bot users |
| CsvExport.UnclaimedMembers | src/lib/export-helpers.ts:203-207 | exactly the bot users without an id or with an unprocessed id are kept |
| CsvExport.UnclaimedInOrder | src/lib/export-helpers.ts:203-224 | the unclaimed bot users keep their list order, and each unclaimed position gets a row, so two equal bot users get two rows |
| CsvExport.WebRow | src/lib/export-helpers.ts:191-196 | a web user's row has one cell per header column |
| CsvExport.BotRow | src/lib/export-helpers.ts:215-220 | an unclaimed bot user's row has one cell per header column, and its web cells are blank |
| CsvExport.Header | src/lib/export-helpers.ts:172-175 | the header is the web fields prefixed `web_`, then the bot fields prefixed `bot_` |
| CsvExport.Merge | src/lib/export-helpers.ts:153-224 | the header has one column per selected field, prefixed by origin; every row has one cell per column |
| CsvExport.WebRows | src/lib/export-helpers.ts:182-200 | web user i gets row i: its own fields, then the fields of the last bot user with its id, or blanks when none has it |
| CsvExport.LastWithKey | src/lib/export-helpers.ts:159-169 | the position of a bot user with the id after which no other has it, or none when no bot user has it |
| CsvExport.BotRows | src/lib/export-helpers.ts:202-224 | after the web rows come the unclaimed bot users in order, with blank web cells; the row count is web users plus those |
| CsvExport.UnclaimedIff | src/lib/export-helpers.ts:202-207 | a bot user gets a row of its own exactly when it has no id or no web user carries its id |
| CsvExport.Render | src/lib/export-helpers.ts:177-222 | the CSV text starts with the header names joined by commas, unescaped, and a line feed |
| CsvExport.RenderReadsBack | src/lib/export-helpers.ts:177-230 | when no header name needs quoting, the CSV text reads back as the header followed by every row's cell texts |
| CsvExport.FetchAllBotUsers | src/lib/export-helpers.ts:110-140 | the loop returns the users of all pages up to the first short or malformed one, fails on the first thrown request, and asks for consecutive pages of 1000 |
| ApiError.FieldErrors | src/hooks/useApiError.ts:20-23 | a field has an error exactly when some detail names it |
| ApiError.FieldErrorsLastWins | src/hooks/useApiError.ts:20-23 | for a field named more than once, the message of its last detail wins |
| ApiError.Format | src/hooks/useApiError.ts:12-72 | the decision table in order: validation with details, body error, timeout, network failure, generic HTTP error, unknown error |
| ApiError.MessageOf | src/hooks/useApiError.ts:74-77 | the message is the body's message when there is one, the timeout or network text for those codes, otherwise the error's own message or, when that is empty, the generic text; the generic text for a non-Axios error |
| ApiError.BodyBeatsTransport | src/hooks/useApiError.ts:33-40 | an error in the response body decides the result whatever the transport code and message |
| ApiError.FieldErrorsIff | src/hooks/useApiError.ts:18-31 | field errors are reported exactly for a 422 response whose body error has details |
| ApiError.StatusAbsentIff | src/hooks/useApiError.ts:42-71 | the status code is missing exactly for a non-Axios error, or for one without a response whose code is neither a timeout nor a network failure |
| ApiError.MessageNonEmpty | src/hooks/useApiError.ts:59-71 | the message is never empty unless the API itself sent an empty one |

## Left out

- viem's `isAddress` and `parseUnits` are not modelled. They are parameters, so a property holds for every address predicate and every unit parser.
- `formatUnits` and all display formatting are left out. They only render numbers.
- wagmi hooks are left out: `useReadContracts`, polling every 5 s, and `writeContract` with its pending, confirming and confirmed state. The model produces the call arguments and takes the reads as an event. It does not model submission or confirmation.
- `fetchAllWebUsers`, the HTTP client, authentication and `downloadFile` are left out. They are I/O. The merge takes both user lists as inputs.
- The timestamp in the file name is left out. It depends on the clock.
- The outer `try`/`catch` of `generateCSV` only rewraps errors, so it is left out.
- CsvExport.FetchAllBotUsers: bounded by a `fuel` count of requests; the source loops while pages are full, so an endless supply of full pages is reported as `OutOfFuel` instead of not terminating.
- CsvExport.Enabled: field flags are given in key order; JavaScript's `Object.keys` puts integer-like keys first, which is not modelled (the export page's field names are not integer-like).
- Csv.Escape: cells are strings or missing; `String(value)` of numbers and objects is taken as already done by the caller.
- BatchForm.Total: the sum is an unbounded integer, as `bigint` is; a total above 256 bits, which the contract would reject, is not checked.
- BatchForm.Step: editing the global amount does not clear the list, as in the source; a list validated under an earlier global amount stays until the next validation.
- BatchForm.Step: the effect at lines 173-175 is applied in the same step as the handler. The component instead renders once with the old list under the new decimals (or type) before the effect empties it; that intermediate render is not modelled.
- The export page, the dashboard pages and the other components are not part of this model.
