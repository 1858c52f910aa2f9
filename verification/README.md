# PT Ramadan Drive — a verified model of the admin portal's logic

The portal keeps a list of beneficiaries ("Lalas") for a ration drive. Each list is split into two tabs, inside and outside GIKI. The portal offers the following:

- adding a beneficiary through a form;
- editing one through a second form;
- bulk-importing a spreadsheet;
- searching and filtering the list, and counting it;
- toggling a beneficiary between pending and done.

Everything sits behind a pass-code gate that is remembered in the browser's storage. This project models the logic around the remote store calls and proves what it promises.

The record is `Records.Beneficiary`, from `lib/supabaseClient.ts:13-23`. `location` and `status` each take two values, and `zakaatEligible` is a tri-state `Option<bool>`.

The remote store does not appear in the model. Each insert or update is replaced by a `StoreReply` parameter that says how the call ended:

- `Accepted`;
- `Rejected(error)`, where the error carries a code and a message;
- `Threw`.

The model states the data handed to the store and the state left behind for each reply. A query's result is likewise a parameter: a `FetchReply` for the list, the returned CNICs for the known-CNIC set.

Modules:

- `Strings` (strings.dfy) covers the JavaScript string operations the code relies on:
  - `trim()`, over the ECMAScript white-space and line-terminator set;
  - `toLowerCase()`;
  - `includes()`, with its specification as "occurs at some offset".
- `Records` (records.dfy) holds the record types, the store replies, the trim-or-null normalisation (`s.trim() || null`), and the tri-state mapping between the `zakaat_eligible` select and `bool | null`.
- `SpreadsheetImport` (excel_import.dfy) models `components/ExcelImport.tsx`:
  - cell normalisation;
  - case-insensitive column-alias resolution, a nested-loop method proved against a first-match specification;
  - the row-admission loop, proved equal to a fold. The fold's results are also proved:
    - it is admissible (non-empty, unknown and pairwise distinct CNICs; pending; the active tab);
    - its counts add up;
    - row by row, it queues exactly the rows that hold the first occurrence in the file of a non-blank CNIC that is not already known, and it queues them in row order.
  - the bulk insert's `inserted` counter.

  A spreadsheet row is an ordered list of key/cell entries, in `Object.keys` order. A cell is blank, text or a boolean. A numeric cell is its `String(...)` form as text.
- `ListView` (list_view.dfy) models `app/page.tsx`. It covers:
  - the search/category pipeline, expressed as a filter by a list of criteria;
  - the statistics;
  - the status toggle;
  - the known-CNIC set;
  - a `ListPage` class for the page's state slots.
- `AddForm` (add_modal.dfy) and `EditForm` (edit_modal.dfy) model the two modal forms: the payloads they send, the error messages and the form state around one submission.
- `AccessGate` (access_gate.dfy) models `context/AuthContext.tsx` as a class holding a storage map, with restore, unlock and lock. A page reload is a fresh `Gate` built over the same storage.

## Model

| member | source | states |
|---|---|---|
| Strings.TrimStartSpec | components/ExcelImport.tsx:21 | trimming the front drops exactly a leading run of white space: what remains is a suffix that is empty or starts with a non-space |
| Strings.TrimEndSpec | components/ExcelImport.tsx:21 | trimming the back drops exactly a trailing run of white space: what remains is a prefix that is empty or ends with a non-space |
| Strings.TrimSpec | components/ExcelImport.tsx:21 | `trim()` is no longer than its input and has no white space at either end; it is empty exactly when the input is all white space; an already-trimmed string is returned unchanged |
| Strings.TrimIdempotent | app/page.tsx:77 | trimming twice is the same as trimming once |
| Strings.ToLower | app/page.tsx:77 | lower-casing keeps the length and lower-cases each character on its own |
| Strings.ToLowerIdempotent | app/page.tsx:77 | lower-casing twice is the same as lower-casing once |
| Strings.OccurrenceContained | app/page.tsx:81-82 | if the query occurs at some offset, `includes` is true |
| Strings.ContainedOccurrence | app/page.tsx:81-82 | if `includes` is true, it returns an offset where the query occurs |
| Strings.ContainsAt | app/page.tsx:81-82 | `includes` holds exactly when the query occurs at some offset (both directions) |
| Strings.ContainsEmpty | app/page.tsx:78-84 | every string includes the empty query |
| Records.TrimOrNullSpec | components/AddBeneficiaryModal.tsx:59-62 | `s.trim() \|\| null` is null exactly when `s` is all white space; otherwise it is the trimmed text, which is non-empty and trimmed |
| Records.OrEmpty | components/EditBeneficiaryModal.tsx:18-22 | a stored text is shown as itself, and null as `""` |
| Records.TrimOrNullShown | components/EditBeneficiaryModal.tsx:18-22 | showing a stored value (null as `""`) and normalising it again gives the value back exactly when it is null, or non-empty and trimmed |
| Records.ZakaatFromForm | components/AddBeneficiaryModal.tsx:64-67 | the select value `""` maps to null and `"true"` maps to true; any other value maps to false |
| Records.ZakaatToForm | components/EditBeneficiaryModal.tsx:23-31 | true shows as `"true"`, false as `"false"` and null as `""`, each in both directions |
| Records.ZakaatRoundTrip | components/EditBeneficiaryModal.tsx:26-31 | a stored tri-state shown in the select and read back is unchanged |
| Records.ZakaatOptionsRoundTrip | components/EditBeneficiaryModal.tsx:47-50 | each of the three select options survives the mapping to a tri-state and back |
| SpreadsheetImport.Keys | components/ExcelImport.tsx:56 | a row's keys, one per entry, in the row's order |
| SpreadsheetImport.CellAtAbsent | components/ExcelImport.tsx:19 | reading a key the row does not have yields a blank cell |
| SpreadsheetImport.GetStrSpec | components/ExcelImport.tsx:18-23 | `getStr` is null exactly for a blank cell or a cell whose text is all white space; otherwise it is the trimmed text, non-empty and trimmed |
| SpreadsheetImport.GetBool | components/ExcelImport.tsx:25-33 | a blank cell gives null and a boolean cell is passed through; a text cell, lower-cased but not trimmed, gives true for `true`/`yes`/`1`, false for `false`/`no`/`0`, and null otherwise (both directions) |
| SpreadsheetImport.GetBoolDoesNotTrim | components/ExcelImport.tsx:29-32 | `"YES"` reads as true, while `" yes"` with a leading space reads as null |
| SpreadsheetImport.InAliasesAt | components/ExcelImport.tsx:58-59 | a key equal to the lower-cased form of some alias is among the aliases |
| SpreadsheetImport.FirstMatchIndex | components/ExcelImport.tsx:55-63 | the position of the first key whose trimmed lower-cased form matches an alias: no earlier key matches, and the position is the key count when none does |
| SpreadsheetImport.FirstKeyMatchingFound | components/ExcelImport.tsx:55-63 | the first-match key, when there is one, is a key of the row and matches an alias; there is none exactly when no key matches |
| SpreadsheetImport.FirstMatchIndexIs | components/ExcelImport.tsx:56-62 | a position that matches, with no earlier match, is the first-match position |
| SpreadsheetImport.SomeAliasIs | components/ExcelImport.tsx:58-60 | the inner loop answers whether the normalised key equals some alias lower-cased |
| SpreadsheetImport.NoMatchExtends | components/ExcelImport.tsx:56-61 | a non-matching key extends the prefix in which no key matches |
| SpreadsheetImport.FindColumnKey | components/ExcelImport.tsx:55-63 | the nested loops return the original first key, in row order, that matches an alias, or null when none matches |
| SpreadsheetImport.KeyOrCanonicalSpec | components/ExcelImport.tsx:84-94 | a field's column is the canonical name when no key of the first row matches its aliases; otherwise it is a matching key of that first row |
| SpreadsheetImport.ResolveColumns | components/ExcelImport.tsx:84-94 | all five columns are resolved once from the first row, each falling back to `cnic`, `name`, `phone`, `designation` or `zakaat_eligible` |
| SpreadsheetImport.FallbackReadsBlank | components/ExcelImport.tsx:84-94 | when the fallback name is taken because no key matches, and the name is itself an alias, every read of that column is blank |
| SpreadsheetImport.AdmitAllStep | components/ExcelImport.tsx:100-117 | admitting the rows from position `i` is admitting row `i`, then the rest |
| SpreadsheetImport.AdmitRows | components/ExcelImport.tsx:99-117 | the admission loop (the seen set, the queue and the skip counter) builds exactly the batch and skip count of the admission fold |
| SpreadsheetImport.BatchCnics | components/ExcelImport.tsx:108-110 | the CNICs of a batch, one per record, in batch order |
| SpreadsheetImport.QueueKeepsConsistent | components/ExcelImport.tsx:107-116 | queuing a pending record for the active tab, whose CNIC is non-empty, trimmed and neither known nor seen, keeps the batch admissible and the seen set equal to the batch's CNICs |
| SpreadsheetImport.AdmitAllConsistent | components/ExcelImport.tsx:100-117 | admission preserves that invariant over any rows |
| SpreadsheetImport.ImportBatchAdmissible | components/ExcelImport.tsx:101-116 | every queued record has a non-empty trimmed CNIC that is not already known, is pending and carries the active tab, and the queued CNICs are pairwise distinct |
| SpreadsheetImport.AdmitAllCounts | components/ExcelImport.tsx:100-106 | each row is either blank, queued or skipped: queued plus skipped plus blank rows is the row count |
| SpreadsheetImport.ImportCounts | components/ExcelImport.tsx:100-106 | from the start state, `\|toInsert\| + skipped + blankRows = \|rows\|` |
| SpreadsheetImport.AdmitAllIsFirstOccurrences | components/ExcelImport.tsx:99-117 | the fold's batch equals a walk over the rows that threads only the set of excluded CNICs, dropping the skip counter |
| SpreadsheetImport.ImportKeepsFirstOccurrences | components/ExcelImport.tsx:99-117 | from the start state, the import batch is that walk with the known CNICs excluded |
| SpreadsheetImport.FirstNewShift | components/ExcelImport.tsx:100-107 | a later row holds the first occurrence of a new CNIC in the file exactly when it does so in the rest of the file, with the first row's CNIC added to the excluded ones |
| SpreadsheetImport.FirstOccurrencesAt | components/ExcelImport.tsx:99-117 | the walk's records are those of an increasing list of row positions, and these are exactly the rows whose CNIC is non-blank, not excluded, and not on any earlier row |
| SpreadsheetImport.ImportQueuesFirstNewRows | components/ExcelImport.tsx:99-117 | stated in row positions: the batch is the records of exactly those rows whose CNIC is non-blank, not already known and not on any earlier row, in row order |
| SpreadsheetImport.AdmitRowQueues | components/ExcelImport.tsx:107-116 | a row with a non-blank CNIC that is neither known nor seen is added to the seen set and queued at the end, and the skip count is unchanged |
| SpreadsheetImport.AdmitRowSkips | components/ExcelImport.tsx:103-106 | a row whose CNIC is known or already seen only increments the skip count |
| SpreadsheetImport.BlankRowsIgnored | components/ExcelImport.tsx:101-102 | rows whose CNIC cell is blank change nothing, not even the skip count |
| SpreadsheetImport.CnicIsOwnAlias | components/ExcelImport.tsx:48-86 | the CNIC fallback name is itself a CNIC alias, and is already trimmed |
| SpreadsheetImport.MissingCnicColumnImportsNothing | components/ExcelImport.tsx:84-102 | when no column of the first row is a CNIC alias, nothing is queued and nothing is skipped |
| SpreadsheetImport.DuplicateInFileSkipped | components/ExcelImport.tsx:99-117 | for rows A1, A2, B with no known CNICs, where A1 and A2 share a CNIC but may differ elsewhere, the batch is the records of A1 and B, in that order, and one row is skipped |
| SpreadsheetImport.KnownCnicSkipped | components/ExcelImport.tsx:103-106 | a row whose CNIC is already known is skipped and counted, and the next new row is queued |
| SpreadsheetImport.ImportSheet | components/ExcelImport.tsx:78-131 | an empty sheet returns early. Otherwise the batch and skip count are those of admission under the first row's columns, and the bulk insert is called only for a non-empty batch. `inserted` is the batch size only when that insert succeeds, and 0 otherwise |
| ListView.Keep | app/page.tsx:79-88 | filtering never grows the list, and keeps exactly the records that meet every criterion |
| ListView.KeepIsSubsequence | app/page.tsx:79-88 | a filtered list is a subsequence of its input, in the same relative order |
| ListView.KeepAgrees | app/page.tsx:79-88 | two criterion lists that accept the same records filter any list identically |
| ListView.HoldsAllAppend | app/page.tsx:79-88 | meeting all of `cs + ds` is meeting all of `cs` and all of `ds` |
| ListView.KeepKeep | app/page.tsx:79-88 | filtering by `cs` and then by `ds` is filtering once by `cs + ds` |
| ListView.KeepNothingDropped | app/page.tsx:76 | filtering with no criteria returns the list unchanged |
| ListView.EmptySearchIsEmptyQuery | app/page.tsx:77-78 | an empty search box gives the empty query |
| ListView.EmptyQueryKeepsAll | app/page.tsx:78-84 | an empty query imposes no restriction |
| ListView.CategoryCriteriaMeaning | app/page.tsx:85-88 | `zakaat_only` keeps exactly eligible-true records (dropping false and null); `pending_only` and `done_only` keep exactly that status; `all` keeps everything |
| ListView.CategoryStepIsKeep | app/page.tsx:85-88 | the category step is a filter by the category's criteria |
| ListView.SearchStepIsKeep | app/page.tsx:78-84 | the search step is a filter by the query when the query is non-empty, and no filter otherwise |
| ListView.FilteredIsKeep | app/page.tsx:75-90 | the whole pipeline is a single filter by the query's and the category's criteria |
| ListView.FilteredIsSubsequence | app/page.tsx:75-90 | the shown list is a subsequence of the fetched list |
| ListView.PipelineCriteriaMeaning | app/page.tsx:77-88 | a record meets the pipeline's criteria exactly when the query is empty or matches it, and it is in the category |
| ListView.FilteredMembership | app/page.tsx:77-88 | a record is shown exactly when it was fetched, and the trimmed lower-cased query is empty or contained in its lower-cased name (null as `""`) or CNIC, and it is in the category |
| ListView.FilteredIdempotent | app/page.tsx:75-90 | filtering the shown list again with the same inputs gives it back unchanged |
| ListView.StepsCommute | app/page.tsx:78-88 | the search step and the category step can be applied in either order |
| ListView.CountStatus | app/page.tsx:94 | a status count is at most the list length |
| ListView.CountZakaat | app/page.tsx:96 | the eligible count is at most the list length |
| ListView.StatusesPartition | app/page.tsx:94-95 | done and pending records together make up the whole list |
| ListView.PendingCountsPending | app/page.tsx:95 | `pending = total − done` is the number of pending records |
| ListView.CountStatusIsKeep | app/page.tsx:94 | the done count is the length of the list filtered by status |
| ListView.CountZakaatIsKeep | app/page.tsx:96 | the zakaat count is the length of the list filtered to eligible-true |
| ListView.StatsMatchCategories | app/page.tsx:92-98 | total, done, pending and zakaat equal the sizes of the `all`, `done_only`, `pending_only` and `zakaat_only` views of the unfiltered list with an empty search |
| ListView.NextStatus | app/page.tsx:104 | the next status differs from the current one |
| ListView.NextStatusInvolution | app/page.tsx:104 | toggling twice restores the original status |
| ListView.BuildKnownCnics | app/page.tsx:52-55 | the `forEach` loop collects exactly the non-empty CNICs of the returned rows, or none when the data is null |
| ListView.ListPage.constructor | app/page.tsx:18-68 | the page starts on the inside tab with an empty list, loading, no known CNICs, an empty search and the `all` filter |
| ListView.ListPage.BeginFetch | app/page.tsx:21-22 | starting a fetch sets loading and changes nothing else |
| ListView.ListPage.FetchResolved | app/page.tsx:28-35 | a fetch error empties the list; success sets it to the data, or empty when the data is null; loading ends either way |
| ListView.ListPage.CnicsResolved | app/page.tsx:49-56 | the known-CNIC set becomes the non-empty CNICs returned, and nothing else changes |
| ListView.ListPage.ToggleStatus | app/page.tsx:102-110 | the update targets the given id with the opposite status. The reply is not inspected, so the list refresh starts after an accepted or a rejected update; a thrown call leaves the page as it was |
| AddForm.InsertPayload | components/AddBeneficiaryModal.tsx:50-69 | no insert when the CNIC is blank after trimming. Otherwise the CNIC is the trimmed input. name, phone and designation are trimmed, with blank becoming null. The status is pending, the location is the current tab, and the select maps to the tri-state |
| AddForm.PayloadRoundTrip | components/AddBeneficiaryModal.tsx:58-69 | filling the form from a payload and submitting again builds the same payload |
| AddForm.InsertErrorMessage | components/AddBeneficiaryModal.tsx:70-75 | code 23505 shows the duplicate message; any other error shows its message, or "Failed to add." when that is empty |
| AddForm.Modal.constructor | components/AddBeneficiaryModal.tsx:34-36 | the form opens empty, not submitting, with no error |
| AddForm.Modal.Change | components/AddBeneficiaryModal.tsx:38-45 | the named input takes the value and the others are kept; a CNIC change asks the parent to clear its duplicate-CNIC error; the submit error is cleared |
| AddForm.Modal.Submit | components/AddBeneficiaryModal.tsx:47-86 | a blank CNIC sets "CNIC is required." and sends nothing. On a store error the mapped message is shown, the form is kept and no callback runs. When the call throws, "Something went wrong." is shown. On success the form resets, then `onSuccess` and `onClose` run. Submitting ends in every case after the call |
| EditForm.UpdateFor | components/EditBeneficiaryModal.tsx:43-52 | the update targets the record's id. Name, phone and designation are each null exactly when the input is blank, and otherwise the trimmed input. The select gives null exactly for `""`, true exactly for `"true"`, and false otherwise |
| EditForm.ApplyPatch | components/EditBeneficiaryModal.tsx:43-52 | an update changes only name, phone, designation and eligibility; id, CNIC, location, status and creation time stay |
| EditForm.InitialZakaatRoundTrip | components/EditBeneficiaryModal.tsx:26-50 | saving without edits writes back the stored tri-state |
| EditForm.UnchangedSaveKeepsRecord | components/EditBeneficiaryModal.tsx:18-52 | saving without edits leaves the record unchanged exactly when its text fields are already null or non-empty and trimmed |
| EditForm.UpdateErrorMessage | components/EditBeneficiaryModal.tsx:53-54 | an update error shows its message, or "Update failed." when that is empty |
| EditForm.Modal.constructor | components/EditBeneficiaryModal.tsx:18-33 | the form opens with the record's values, not submitting, with no error |
| EditForm.Modal.Submit | components/EditBeneficiaryModal.tsx:35-64 | the update is built from the form for the record's id. A store error shows the mapped message and runs no callback. A throw shows "Something went wrong.". Success runs `onSuccess` then `onClose`. Submitting ends in every case |
| AccessGate.Gate.constructor | context/AuthContext.tsx:16-48 | the provider starts locked and unmounted, so it renders nothing |
| AccessGate.Gate.Restore | context/AuthContext.tsx:19-48 | startup unlocks exactly when the stored value is `"true"`, then mounts so the children render; storage is untouched, and from then on the flag mirrors the storage key |
| AccessGate.Gate.Unlock | context/AuthContext.tsx:25-35 | succeeds exactly when the code is the secret; success stores `"true"` under `pt_ration_unlocked` and unlocks, and failure changes nothing; either way the flag still mirrors the key |
| AccessGate.Gate.Lock | context/AuthContext.tsx:37-42 | removes the storage key and locks, whatever the state was, which leaves the flag mirroring the key |
| AccessGate.UnlockThenReload | context/AuthContext.tsx:19-35 | a successful unlock is still unlocked after a reload; a failed one leaves the next start as it would have been |
| AccessGate.LockThenReload | context/AuthContext.tsx:19-42 | after a lock, a reload starts locked; the key is gone, other keys are kept, and locking twice stores the same as locking once |
| AccessGate.UnsetSecretAcceptsEmptyCode | context/AuthContext.tsx:26-27 | with no secret configured, the empty code unlocks |

## Left out

- The Supabase client and every query (`select`, `insert`, `update`, `delete`). They are not modelled. A store call is a `StoreReply` parameter, and a fetch result is a `FetchReply` parameter. Server-side filtering by location, `created_at` ordering and the store's uniqueness constraint are not modelled.
- Spreadsheet parsing with `XLSX.read` and `sheet_to_json` is not modelled. A sheet is a given sequence of rows. So a parse failure, which the `catch` at components/ExcelImport.tsx:140-145 turns into an error message, is not modelled.
- SpreadsheetImport.GetStr: the cell kinds are blank, text and boolean. A numeric cell is given as its `String(...)` text; other object cells are not modelled.
- The import's summary message at components/ExcelImport.tsx:133-139 is left out. It reads the `message` captured when the component rendered, so what it shows after a failed insert depends on stale state. The same test gates the `onImportDone(inserted, skipped)` call at line 138, so the parent's refresh after an import is left out too. In the source that refresh is skipped whenever an earlier import in the same mounted component left a message. The `uploading` flag and the file-input reset are left out too: they only affect presentation.
- Strings.ToLower: covers only ASCII `A`-`Z`. JavaScript's full Unicode case mapping is not modelled. Trimming uses the full ECMAScript white-space set.
- React machinery is not modelled: hooks, effect dependency timing, memoisation and re-render scheduling. The relative completion order of the list fetch and the CNIC fetch is left out, and so are the triggers that re-run the CNIC query (a tab change or a new list length). `ListView.ListPage` models the state slots as fields, and each completion as a method.
- ListView.MatchesQuery: treats the CNIC as always present, because the record type declares it non-null; the `?? ""` on it at app/page.tsx:82 is therefore not modelled.
- The `existingCnicError` prop is left out: the add form only displays it. The `isOpen` flag is left out too.
- The edit form's per-field input setters are left out: they are plain assignments to the form state.
- `typeof window` checks are not modelled: storage is always present. `window.location.reload` is modelled as a fresh `Gate` over the same storage. The secret is modelled as an optional configured string.
- ListView.ListPage.ToggleStatus: a thrown update is modelled as ending the handler before the refresh; the source's unhandled promise rejection that follows is not modelled.
- Exceptions thrown by the parent's `onSuccess` or `onClose` callbacks are not modelled: a callback is recorded as a `Notice` and is assumed to return normally.
- Presentation components are left out, because they hold no logic beyond the calls modelled here: the stats cards, the layout, the table (row clicks, confirm dialog and delete call) and the gatekeeper modal, which only forwards to `unlock`.
