# RB-JOB-SHEET in Dafny

RB-JOB-SHEET keeps the job sheets of a mobile-phone repair shop in a Google
spreadsheet. This project models its core logic and proves properties of
that model.

The backend:

- the job repository: ID generation, status normalisation, reading rows as
  records, the fixed-order append, whitelisted update with completion-date
  stamping, and delete;
- a hardened variant of the repository: a sanitiser, a rule-table
  validator, opaque IDs, duplicate rejection, filtered listing, and
  whitelisted update and delete;
- the job controller: get by ID, search, create defaults, status change,
  dashboard counts and the invoice guard;
- the admin credential routes: login, forgot-password and reset-password.

The admin UI:

- the job form: date notation converters, the client UID, form state and
  the submitted record;
- the job table: search filter, row menu dispatch and status colours;
- the jobs page: local edit and delete, plus the CSV and TSV exports.

The spreadsheet is an in-memory sequence of rows. A row maps header names
to cell text, and a header that is not a key reads as `undefined`.
JavaScript's `undefined` is `None`. Object state becomes classes:

- `JobSheet`, `SecureJobSheet` and `AdminSheet` hold the rows of the two
  tabs;
- `JobForm`, `RowMenu` and `JobList` hold UI component state.

The clock, `Math.random`, `crypto.randomBytes` and token signing or
verification are parameters. Strings are `seq<char>`:

- `toLowerCase` works on ASCII letters;
- `trim` uses the ECMAScript white-space and line-terminator set;
- `/RB(\d+)/` takes the leftmost match;
- `padStart`, `slice(-n)`, `split`, `join` and `includes` follow their
  JavaScript definitions for the arguments the code uses.

Modules, one per source file, over five helper modules:

| module | file | models |
|---|---|---|
| `Wrappers` | wrappers.dfy | `Option`, `Result` |
| `Seqs` | seqs.dfy | filter, subsequence, concatenation, `slice(-n)`, `reverse` |
| `Text` | text.dfy | digits, `String(n)`, `padStart`, `toLowerCase`, `includes`, `split`/`join`, `trim`, character removal |
| `Dates` | dates.dfy | the `dd/mm/yyyy` and ISO `yyyy-mm-dd` date texts |
| `Sheets` | sheets.dfy | rows, `row.get`, truthiness, `||`, template and `join` printing of `undefined`, `rows.find` by column |
| `SheetHelper` | sheet_helper.dfy | backend/utils/sheetHelper.js |
| `SecureSheetHelper` | secure_sheet_helper.dfy | backend/utils/secureSheetHelper.js |
| `JobsController` | jobs_controller.dfy | backend/controllers/jobsController.js |
| `Auth` | auth.dfy | backend/routes/auth.js |
| `DataForm` | data_form.dfy | frontend/src/components/DataForm.jsx |
| `JobTable` | job_table.dfy | frontend/src/components/JobTable.jsx |
| `ViewJobs` | view_jobs.dfy | frontend/src/Pages/ViewJobs.jsx |

Some behaviour of the code is easy to misread; the model keeps it as
written:

- `updateRow` stamps today's date on every update that sets `Completed`
  without a `completionDate`, so a stored completion date is overwritten,
  not kept (lemma `RepeatedCompletionRestamps`).
- `createJob` fills `entryDate` with the ISO `yyyy-mm-dd` date before it
  calls `appendRow`, so `appendRow`'s `dd/mm/yyyy` default never fires on
  that path (`CreatedRowCells`, `CreateJobUsesGeneratedId`).
- Only the hardened variant rejects a duplicate ID. `appendRow` writes
  whatever ID it is given or generates.
- `appendRow` writes `expectedDate`, not `completionDate`, into the
  `Completed Date` column (`AppendedCells`).
- `secureUpdateJob` validates the patch against the full schema, required
  fields included. A partial update without `customerName`, `mobile`,
  `deviceModel` and `issue` is therefore always refused
  (`PartialUpdateRefused`). The model keeps this as written.

## Model

| member | source | states |
|---|---|---|
| Dates.FormatDDMMYYYYFields | backend/utils/sheetHelper.js:5-10 | the date text splits on `/` into exactly three digit strings, day first; day and month are two digits wide and each part denotes its field |
| Dates.FormatDDMMYYYYInjective | backend/utils/sheetHelper.js:5-10 | distinct valid dates give distinct `dd/mm/yyyy` texts |
| Dates.IsoDateFields | backend/controllers/jobsController.js:70 | the ISO date of a four-digit year splits on `-` into year, padded month and padded day, each denoting its field |
| SheetHelper.JobSheet.GenerateJobId | backend/utils/sheetHelper.js:18-29 | the loop's result is `RB` and the maximum `/RB(\d+)/` suffix over the rows plus one, padded to three digits |
| SheetHelper.NextJobIdFresh | backend/utils/sheetHelper.js:18-29 | an ID whose `/RB(\d+)/` number is one past the maximum is held by no row |
| SheetHelper.GeneratedIdFresh | backend/utils/sheetHelper.js:18-29 | the generated ID for one past the maximum collides with no existing row's ID |
| SheetHelper.MaxSuffixBound | backend/utils/sheetHelper.js:18-27 | every suffix matched in a row is at most the maximum |
| SheetHelper.MaxSuffixAttained | backend/utils/sheetHelper.js:18-27 | the maximum is 0 or the suffix of some row |
| SheetHelper.MaxSuffixNone | backend/utils/sheetHelper.js:18-29 | when no ID matches, empty ones included, the maximum is 0 and the next ID is `RB001` |
| SheetHelper.JobIdForSuffix | backend/utils/sheetHelper.js:29 | the ID generated for `n` matches `/RB(\d+)/` with number `n`, so the next scan counts it |
| SheetHelper.FallbackJobIdShape | backend/utils/sheetHelper.js:32 | the catch-path ID is `RB` followed by one to six digits |
| SheetHelper.NormalizeStatusMapping | backend/utils/sheetHelper.js:52-56 | an empty or missing status becomes `Pending`; `completed`, `in progress` and `pending` in any case map to canonical casing; any other value passes through unchanged |
| SheetHelper.NormalizeStatusIdempotent | backend/utils/sheetHelper.js:52-56 | normalising a normalised status changes nothing |
| SheetHelper.NormalizeStatusCanonical | backend/utils/sheetHelper.js:52-56 | the result is canonical if and only if the raw status was empty or one of the three names in some case |
| SheetHelper.SheetData | backend/utils/sheetHelper.js:51-73 | one record per row, in row order |
| SheetHelper.RowToJobColumns | backend/utils/sheetHelper.js:58-72 | `expectedDate` and `completionDate` both copy `Completed Date`; a missing or empty `Total Amount` reads as `0.00` |
| SheetHelper.AppendValues | backend/utils/sheetHelper.js:95-107 | exactly eleven values, one per header |
| SheetHelper.HeaderIndexOf | backend/utils/sheetHelper.js:94-107 | each header's position in the fixed order is found back from its name |
| SheetHelper.RowOfCell | backend/utils/sheetHelper.js:95-109 | the row built from the value array holds the k-th value under the k-th header |
| SheetHelper.AppendedCells | backend/utils/sheetHelper.js:95-107 | cell by cell, the appended row gets the ID, name, number and model as given; the issue, with ` - customIssue` only when that is non-empty; components or `''`; status or `Pending`; the entry date; `expectedDate` or `''` in `Completed Date`; amount and comments or `''` |
| SheetHelper.NormalizeDefaultedStatus | backend/utils/sheetHelper.js:102 | defaulting a missing status to `Pending` before normalising changes nothing in the record read back |
| SheetHelper.AppendThenRead | backend/utils/sheetHelper.js:85-107 | reading the appended row back gives the record: ID and entry date filled only when absent, the date as `dd/mm/yyyy`, the normalised status, and empty defaults |
| SheetHelper.JobSheet.AppendRow | backend/utils/sheetHelper.js:81-125 | the sheet gains exactly one row at the end, built from the record with its defaults; the reply is that record |
| SheetHelper.SetFieldsCell | backend/utils/sheetHelper.js:160-164 | after the field loop a column holds the last value the patch writes to it, or its old value when nothing writes it |
| SheetHelper.PatchedCell | backend/utils/sheetHelper.js:160-169 | the same, with `Completed Date` overridden by today when the completion stamp fires |
| SheetHelper.NoWriteToUnmapped | backend/utils/sheetHelper.js:146-164 | no patch key writes a column outside the header map |
| SheetHelper.PatchedKeepsOtherColumns | backend/utils/sheetHelper.js:146-169 | every column outside the header map is left unchanged |
| SheetHelper.CompletionStampOverrides | backend/utils/sheetHelper.js:167-169 | status `Completed` without a `completionDate` sets `Completed Date` to today, whatever `expectedDate` or the row held |
| SheetHelper.RepeatedCompletionRestamps | backend/utils/sheetHelper.js:167-169 | a second `Completed` update on another day replaces the first stamp |
| SheetHelper.JobSheet.UpdateRow | backend/utils/sheetHelper.js:135-187 | an unknown ID throws `Job with ID <uid> not found` and changes nothing; otherwise only the first row with that exact ID is replaced by the patched row and the reply is read back from it |
| SheetHelper.JobSheet.DeleteRow | backend/utils/sheetHelper.js:195-206 | an unknown ID throws the not-found message and changes nothing; otherwise exactly the first matching row is removed and the reply is `Job <uid> deleted successfully` |
| Sheets.FindRow | backend/utils/sheetHelper.js:140 | the index found is the first row whose cell equals the value exactly; none means no row does |
| Sheets.RemoveOnlyMatch | backend/utils/sheetHelper.js:200-205 | after deleting the only row holding an ID, no row holds it |
| SecureSheetHelper.SanitizeStringFacts | backend/utils/secureSheetHelper.js:21 | the result is trimmed; it holds only characters of the input, none of them `< > " ' &`; it is the input without those characters with only white space cut from the two ends, so every other character survives as often as it occurs |
| SecureSheetHelper.SanitizeStringIdempotent | backend/utils/secureSheetHelper.js:21 | cleaning a cleaned string changes nothing |
| SecureSheetHelper.SanitizeShape | backend/utils/secureSheetHelper.js:16-27 | the same keys; numbers unchanged; strings cleaned |
| SecureSheetHelper.SanitizeIdempotent | backend/utils/secureSheetHelper.js:16-27 | sanitising twice equals sanitising once |
| SecureSheetHelper.SanitizeInput | backend/utils/secureSheetHelper.js:16-27 | the loop builds exactly the sanitised record |
| SecureSheetHelper.RequiredMissing | backend/utils/secureSheetHelper.js:36-39 | a required field that is absent or falsy gets exactly `<field> is required` and no other message |
| SecureSheetHelper.FalsySkipsChecks | backend/utils/secureSheetHelper.js:41-69 | an optional falsy value gets no message |
| SecureSheetHelper.MissingRequiredReported | backend/utils/secureSheetHelper.js:33-39 | a missing required field's message is in the error list |
| SecureSheetHelper.ValidIffNoFieldErrors | backend/utils/secureSheetHelper.js:30-73 | the list is empty if and only if no rule reports anything |
| SecureSheetHelper.ErrorsCollected | backend/utils/secureSheetHelper.js:31-72 | the list is every rule's messages laid end to end in schema order |
| SecureSheetHelper.ValidateJobData | backend/utils/secureSheetHelper.js:30-73 | the loop collects exactly that list; it is empty if and only if every rule passes |
| SecureSheetHelper.JobIdRule | backend/utils/secureSheetHelper.js:6 | a non-empty `jobId` passes if and only if it is at most 20 characters of `[A-Z0-9]` |
| SecureSheetHelper.MobileRule | backend/utils/secureSheetHelper.js:8 | a mobile number passes if and only if it is exactly ten digits |
| SecureSheetHelper.StatusListText | backend/utils/secureSheetHelper.js:11 | the statuses joined with `, ` read `Pending, In Progress, Completed, Delivered` |
| SecureSheetHelper.StatusRule | backend/utils/secureSheetHelper.js:58-60 | a non-empty status passes if and only if it is one of the four; otherwise the single message names all four |
| SecureSheetHelper.TotalAmountRule | backend/utils/secureSheetHelper.js:46-68 | a non-zero numeric amount passes if and only if it lies in [0, 999999] |
| SecureSheetHelper.TotalAmountTextRule | backend/utils/secureSheetHelper.js:46-68 | a non-empty text amount passes if and only if it is a decimal number in [0, 999999] |
| SecureSheetHelper.NumberOfRendered | backend/utils/secureSheetHelper.js:46 | `Number` of a decimal numeral is its value |
| SecureSheetHelper.ToBase36Value | backend/utils/secureSheetHelper.js:77 | the base-36 text of the timestamp denotes the timestamp |
| SecureSheetHelper.UpperHex | backend/utils/secureSheetHelper.js:78 | two characters per random byte |
| SecureSheetHelper.UpperHexDigits | backend/utils/secureSheetHelper.js:78 | byte `i` appears at positions `2i` and `2i+1` as its high and low hex digit |
| SecureSheetHelper.UpperHexAlphabet | backend/utils/secureSheetHelper.js:78 | every character is one of `0-9` and `A-F` |
| SecureSheetHelper.GenerateSecureIdShape | backend/utils/secureSheetHelper.js:76-80 | the opaque ID starts with `RB` and is 9 to 12 characters long |
| SecureSheetHelper.AddRejectsInvalid | backend/utils/secureSheetHelper.js:86-92 | an invalid record fails with `Validation failed: ` and the messages joined with `, ` |
| SecureSheetHelper.AddRejectsDuplicate | backend/utils/secureSheetHelper.js:105-110 | an ID some row already holds fails with `Job ID already exists` |
| SecureSheetHelper.AddedRowFacts | backend/utils/secureSheetHelper.js:94-124 | an added job's ID is held by no earlier row; the row holds it, today's `dd/mm/yyyy` entry date and the modification time, and `Pending` when no status was given |
| SecureSheetHelper.SecureRowCells | backend/utils/secureSheetHelper.js:113-124 | the row written holds the ID, entry date and time given, and a defaulted status |
| SecureSheetHelper.SanitizeKeepsFalsy | backend/utils/secureSheetHelper.js:16-27 | a value falsy before sanitising is falsy after it |
| SecureSheetHelper.SecureJobSheet.SecureAddJob | backend/utils/secureSheetHelper.js:83-127 | on failure the sheet is unchanged; on success exactly the new row is appended and its ID returned |
| SecureSheetHelper.SecureJobs | backend/utils/secureSheetHelper.js:140-151 | one record per row, in order |
| SecureSheetHelper.SecureListing | backend/utils/secureSheetHelper.js:153-162 | the listing keeps row order, a job is in it if and only if it passes both filters, and each passing job occurs as often as in the tab |
| SecureSheetHelper.SecureJobSheet.SecureGetJobs | backend/utils/secureSheetHelper.js:135-165 | the successive filters yield that listing |
| SecureSheetHelper.MappingAllowed | backend/utils/secureSheetHelper.js:197-206 | every column the field mapping names is one of the allowed columns |
| SecureSheetHelper.MappingFacts | backend/utils/secureSheetHelper.js:197-206 | the mapping between keys and columns is one-to-one: distinct keys name distinct columns, and each column is found back from its key |
| SecureSheetHelper.WriteMapped | backend/utils/secureSheetHelper.js:208-213 | the field loop leaves every allowed column that a request key maps to holding that key's value, and every other cell unchanged |
| SecureSheetHelper.SecurePatchScope | backend/utils/secureSheetHelper.js:193-215 | columns outside the seven allowed ones, `Last Modified` apart, keep their value; each mapped key's column takes its value; `Last Modified` is always set |
| SecureSheetHelper.OverlayStep | backend/utils/secureSheetHelper.js:208-213 | one pass of the field loop keeps the overlay invariant |
| SecureSheetHelper.OverlayDone | backend/utils/secureSheetHelper.js:208-215 | after the loop and the timestamp, every cell is the patched cell |
| SecureSheetHelper.PartialUpdateRefused | backend/utils/secureSheetHelper.js:177-183 | a patch without `customerName` is refused, because the full schema is checked |
| SecureSheetHelper.SecureJobSheet.SecureUpdateJob | backend/utils/secureSheetHelper.js:173-219 | a validation failure or `Job not found` changes nothing; otherwise only the row found changes, every cell to the patched cell |
| SecureSheetHelper.SecureJobSheet.SecureDeleteJob | backend/utils/secureSheetHelper.js:227-242 | `Job not found` changes nothing; otherwise exactly the first row with the cleaned ID is removed |
| JobsController.FindJobIndex | backend/controllers/jobsController.js:27 | the first job whose uid equals the ID exactly, or none when no job has it |
| JobsController.FindJob | backend/controllers/jobsController.js:27 | none if and only if no job has the ID; otherwise the first job that has it |
| JobsController.GetJobById | backend/controllers/jobsController.js:23-33 | success if and only if some job has the ID, with the first job that has it; otherwise 404 `Job not found` |
| JobsController.FindJobMatchesRow | backend/controllers/jobsController.js:26-27 | finding among the records read from the rows gives the record of the row the repository would find |
| JobsController.SearchJobs | backend/controllers/jobsController.js:40-52 | results keep source order and are exactly the matching jobs, each as often as in the list; a missing `q` over a non-empty list is a 500 |
| JobsController.SearchByEachField | backend/controllers/jobsController.js:44-48 | a hit in mobile number (case-sensitive), uid or name (case-insensitive) is enough |
| JobsController.CreateJobData | backend/controllers/jobsController.js:63-75 | no uid is forwarded, so `appendRow` always generates one, and the entry date is never empty |
| JobsController.CreatedRowCells | backend/controllers/jobsController.js:63-79 | the stored row holds the generated ID even when the body has a uid; `Pending`, the ISO date of today and `''` for an empty status, entry date, components, amount and comments; no ` - ` suffix in the issue without a custom issue; the given fields otherwise |
| JobsController.CreateJobUsesGeneratedId | backend/controllers/jobsController.js:63-79 | the ID stored is always the generated one, and the ISO entry date survives the append defaults |
| JobsController.StatusPatchOn | backend/controllers/jobsController.js:120-124 | the patch sets the status, and sets `completionDate` to the date exactly when the status is `Completed` |
| JobsController.StatusPatchOnEffect | backend/controllers/jobsController.js:120-126 | the update's own stamp never fires; the row's status and completion date become the patch's |
| JobsController.StatusPatchEffect | backend/controllers/jobsController.js:115-126 | a completed job's `Completed Date` is today's ISO date; any other status leaves it unchanged |
| JobsController.DashboardStatsFacts | backend/controllers/jobsController.js:138-144 | total is the job count, the three counts sum to at most total, and recent jobs are the last five or fewer, newest first |
| JobsController.DashboardCountsNormalised | backend/controllers/jobsController.js:140-142 | a row stored as `completed` in any case counts as completed |
| JobsController.DownloadInvoice | backend/controllers/jobsController.js:157-182 | 404 if and only if the job is absent; 400 with `Invoice only available for completed jobs` if and only if it is found but not exactly `Completed`; success with status 200 if and only if the first job with the ID is `Completed`, carrying that job, from which the invoice is rendered |
| Auth.LoginNeedsBothFields | backend/routes/auth.js:17-22 | a missing or empty e-mail or password gives 400 whatever the tab holds |
| Auth.FindLoginRow | backend/routes/auth.js:29-41 | the first row where one of the five e-mail headers holds a non-empty value equal to the e-mail, ignoring case |
| Auth.LoginLookupIgnoresCase | backend/routes/auth.js:38-40 | e-mails equal up to case find the same row |
| Auth.LoginOutcome | backend/routes/auth.js:43-78 | success if and only if the found row's `Password` equals the password exactly, with user `{email as typed, admin}`; every other case is 401 `Invalid credentials` |
| Auth.UnknownAndWrongLookAlike | backend/routes/auth.js:43-57 | an unknown e-mail and a wrong password get identical replies |
| Auth.FindByEmailId | backend/routes/auth.js:105-107 | the first row whose `Email-ID` equals the e-mail, ignoring case |
| Auth.ForgotPassword | backend/routes/auth.js:93-134 | 400 if and only if no e-mail; otherwise a success notice, with a reset token if and only if the e-mail is found |
| Auth.ForgotUsesEmailIdOnly | backend/routes/auth.js:105-107 | an admin stored only under `Email` logs in but is not found by forgot-password |
| Auth.FindByEmailIdReadsEmailIdOnly | backend/routes/auth.js:105-107 | tabs that agree row by row on `Email-ID` give the same lookup whatever their other columns hold |
| Auth.ResetPasswordOutcome | backend/routes/auth.js:150-192 | a row is overwritten if and only if both fields are given, the token decodes with type `password_reset` and an e-mail, and that e-mail is found; the reply is then `Password reset successful`, and every other reply is a refusal |
| Auth.ResetNeedsBothFields | backend/routes/auth.js:150-155 | a missing token or new password gives 400 `Token and new password are required` |
| Auth.ResetExpiredToken | backend/routes/auth.js:194-200 | an expired token gives 400 `Reset token has expired` |
| Auth.ResetMalformedToken | backend/routes/auth.js:201-206 | a token that fails verification otherwise gives 500 `Failed to reset password` |
| Auth.ResetUnknownAdmin | backend/routes/auth.js:171-181 | a reset token for an e-mail no row has gives 404 `Admin not found` |
| Auth.ResetNeedsResetToken | backend/routes/auth.js:160-165 | a token of another type gives 400 `Invalid reset token` |
| Auth.AdminSheet.ResetPassword | backend/routes/auth.js:146-206 | the reply is the outcome's, so each refusal above is the route's reply too; only the found row's `Password` takes the new password; every refusal leaves the tab unchanged |
| Auth.PasswordChangeKeepsLookup | backend/routes/auth.js:184 | overwriting a password changes no login lookup |
| Auth.LoginAfterReset | backend/routes/auth.js:172-185 | after a reset, logging in at the same row with the new password succeeds |
| DataForm.ToInputOfThree | frontend/src/components/DataForm.jsx:26-30 | `d/m/y` becomes `y-m-d` |
| DataForm.ToInputMissingParts | frontend/src/components/DataForm.jsx:27-29 | a non-empty text without `/` becomes `undefined-undefined-<text>` |
| DataForm.FromInputOfThree | frontend/src/components/DataForm.jsx:33-37 | `y-m-d` becomes `d/m/y` |
| DataForm.DisplayInputRoundTrip | frontend/src/components/DataForm.jsx:26-37 | converting `d/m/y` to the input form and back gives it again when no part holds `/` or `-` |
| DataForm.InputDisplayRoundTrip | frontend/src/components/DataForm.jsx:26-37 | and the same the other way round |
| DataForm.DisplayDateToInput | frontend/src/components/DataForm.jsx:18-30 | today's display date converts to year, padded month and padded day, and back to itself |
| DataForm.GenerateUIDShape | frontend/src/components/DataForm.jsx:98-102 | `RB`, then the last six (or fewer) digits of the timestamp, then two digits denoting the random number |
| DataForm.RandomPartFacts | frontend/src/components/DataForm.jsx:100 | the random part is exactly two digits denoting the number drawn |
| DataForm.InitialFormFacts | frontend/src/components/DataForm.jsx:40-52 | the form holds exactly the eleven fields, each the record's non-empty value or the field's default |
| DataForm.BlankFormFacts | frontend/src/components/DataForm.jsx:152-166 | the blank form is the form built without a record: empty fields, `Pending` and today's display date |
| DataForm.DateChangedFacts | frontend/src/components/DataForm.jsx:70-75 | picking the input form of a displayed date sets the field back to that date, and no other field changes |
| DataForm.SubmitDataFacts | frontend/src/components/DataForm.jsx:111-116 | `issue` is the custom issue exactly when the issue is `Other`; a typed uid is kept; otherwise the generated one is used |
| DataForm.SubmitDataCompletion | frontend/src/components/DataForm.jsx:117 | `completionDate` is today's date if and only if the status is `Completed`, and empty otherwise |
| DataForm.SubmitDataKeeps | frontend/src/components/DataForm.jsx:113-118 | the record adds `completionDate` and keeps every other field but `issue` and `uid` |
| DataForm.JobForm.constructor | frontend/src/components/DataForm.jsx:40-54 | the form starts from the initial state with the snackbar closed |
| DataForm.JobForm.Change | frontend/src/components/DataForm.jsx:91-96 | only the named field changes |
| DataForm.JobForm.PickDate | frontend/src/components/DataForm.jsx:70-75 | the state becomes the date-changed form |
| DataForm.JobForm.Submit | frontend/src/components/DataForm.jsx:104-150 | the submitted record is the assembled one; a save shows success and blanks a new-entry form; a failure shows the error and keeps the form |
| DataForm.JobForm.Reset | frontend/src/components/DataForm.jsx:152-166 | the state becomes the blank form |
| JobTable.FilteredJobs | frontend/src/components/JobTable.jsx:62-67 | an order-preserving subsequence holding exactly the jobs that match on one of the four fields, each as often as in the list |
| JobTable.EmptyTermKeeps | frontend/src/components/JobTable.jsx:62-67 | an empty term keeps exactly the jobs that have at least one of the four fields |
| JobTable.NameSearchIgnoresCase | frontend/src/components/JobTable.jsx:63 | lower-casing the term first changes no name match |
| JobTable.DispatchFacts | frontend/src/components/JobTable.jsx:43-60 | a callback is called if and only if a job is selected, the action is `view`, `edit` or `delete` and the callback exists; its name matches the action and it gets the selected job |
| JobTable.RowMenu.Click | frontend/src/components/JobTable.jsx:33-36 | the menu opens on the job |
| JobTable.RowMenu.HandleAction | frontend/src/components/JobTable.jsx:43-60 | the call is that dispatch, and the menu is always closed with no selection |
| JobTable.StatusColorFacts | frontend/src/components/JobTable.jsx:24-31 | the three canonical statuses have distinct colours, and `#757575` goes exactly to every other status; the page's own copy at frontend/src/Pages/ViewJobs.jsx lines 139-146 is the same switch |
| ViewJobs.ReplaceByUidFacts | frontend/src/Pages/ViewJobs.jsx:98-100 | every job with the edited job's uid, `undefined` included, becomes the edited job; the others stay in place; length is unchanged |
| ViewJobs.ReplaceByUidIdempotent | frontend/src/Pages/ViewJobs.jsx:98-100 | submitting the same edit again changes nothing |
| ViewJobs.RemoveByUid | frontend/src/Pages/ViewJobs.jsx:123 | an order-preserving subsequence holding exactly the jobs with another uid, each as often as in the list |
| ViewJobs.RemoveAbsentUid | frontend/src/Pages/ViewJobs.jsx:123 | a uid no job has removes nothing |
| ViewJobs.RemoveAfterReplace | frontend/src/Pages/ViewJobs.jsx:98-123 | deleting after an edit removes the same jobs as deleting straight away |
| ViewJobs.JobList.OpenEdit | frontend/src/Pages/ViewJobs.jsx:81-83 | the edit dialog opens on the job |
| ViewJobs.JobList.OpenDelete | frontend/src/Pages/ViewJobs.jsx:89-91 | the delete dialog opens on the job |
| ViewJobs.JobList.EditSubmit | frontend/src/Pages/ViewJobs.jsx:93-107 | the list becomes the replaced list, the dialog closes and the notice names the uid |
| ViewJobs.JobList.ConfirmDelete | frontend/src/Pages/ViewJobs.jsx:118-136 | with a job in the dialog, the list loses exactly that uid's jobs; without one, only the failure notice changes |
| ViewJobs.CsvLineStructure | frontend/src/Pages/ViewJobs.jsx:157-170 | with no line break in any value, the CSV splits into the header line and then one line per job, in order, with no trailing empty line |
| ViewJobs.CsvLineCells | frontend/src/Pages/ViewJobs.jsx:160-169 | with no comma in any value, a line splits into eight cells: name, model, issue and components quoted; uid, number, status and completion date bare; missing components or completion date as `''` |
| ViewJobs.ExportTsv | frontend/src/Pages/ViewJobs.jsx:244-259 | the loop builds exactly the TSV document |
| ViewJobs.TsvLineStructure | frontend/src/Pages/ViewJobs.jsx:244-259 | with no line break in any value, the TSV splits into the header, one tab-separated line per job and an empty rest, so every line, the last included, ends in `\n` |

## Left out

- The spreadsheet client (backend/config/googleSheet.js) is not part of this model. `getRows`, `addRow`, `save` and `delete` become operations on the in-memory rows. Network failures, the catch blocks that rethrow them, and the routes' 500 replies carrying `error.message` are not modelled.
- The model reads the rows once per operation. The race between concurrent read-modify-write requests is not modelled.
- Token signing and verification (`jwt.sign`, `jwt.verify`) and backend/middleware/authMiddleware.js are not part of this model. A session or reset token is an opaque string parameter. A verified token is a `TokenVerdict`: expired, malformed, or decoded claims.
- Auth.Login: a non-string e-mail or password in the request body makes the source throw and reply 500 `Authentication failed`. The model takes strings only. That 500 also comes from sheet errors, which are not modelled.
- Auth.ForgotPassword: a non-string `email` makes `email.toLowerCase()` (backend/routes/auth.js:106) throw once a row is tested, giving 500 `Failed to process password reset request`. The model takes strings only. That 500 also comes from sheet errors, which are not modelled.
- SecureSheetHelper.LengthErrors: counts Unicode characters, while `value.length` (backend/utils/secureSheetHelper.js:50) counts UTF-16 code units. A value with characters outside the Basic Multilingual Plane can pass the model's limit and fail the source's.
- SecureSheetHelper.Value: a JSON value is a string or an integer. JSON `null`, booleans, arrays and objects in a request body are not modelled, nor the checks and cell writes they would meet.
- SheetHelper.SetFields: a key is mapped when it is one of `headerMap`'s own keys. The truthiness test `headerMap[key]` (backend/utils/sheetHelper.js:161) also passes for inherited names such as `constructor` or a `__proto__` key, whose writes are not modelled.
- SheetHelper.Patched: a patch value is a string or `undefined`. The `!== undefined` test (backend/utils/sheetHelper.js:161) also lets JSON `null` through to `set`; that write is not modelled.
- SheetHelper.MaxSuffix: `parseInt` and `String` are exact on unbounded integers. For a digit run above 2^53 the source's number loses precision, and above 10^21 `String` prints an exponent form; neither is modelled (backend/utils/sheetHelper.js:23,29).
- The clock and randomness are parameters: `Date.now`, `new Date`, `Math.random` as its floor times 100, and `crypto.randomBytes` as three bytes. `toLocaleDateString('en-GB')` is the `dd/mm/yyyy` text. `toISOString` is the ISO date of the same calendar day, so the difference between UTC and local time is not modelled.
- SheetHelper.JobSheet.GenerateJobId: the fallback ID is only reached when fetching the rows fails. The method therefore always takes the scan path. `FallbackJobId` models the catch path on its own.
- `parseFloat` of `Total Amount` and `Number(value)` in validation are exact decimals (`real`). Exponents, hexadecimal, `Infinity` and binary rounding are not modelled. A numeric JSON value is an integer.
- Text.ToLower: only ASCII letters change case. Non-ASCII letters are not lower-cased.
- DataForm.GenerateUIDShape: states that the timestamp part is the last six or fewer digits, not exactly six. The exact count needs the timestamp to exceed 99999, which every real clock reading does.
- SecureSheetHelper.GenerateSecureIdShape: states the `RB` prefix and the length, not the exact characters after the cut at twelve. `ToBase36Value` states what the base-36 part denotes, and `UpperHexDigits` and `UpperHexAlphabet` state the hex part.
- The invoice template (file read and HTML replacement), the PDF and DOC exports, the file download of the CSV and TSV, and the notices shown after the exports are left out: they are browser or file I/O.
- ViewJobs.JobList.EditSubmit: the source's catch branch needs the list update to throw, which it cannot, so it is not modelled.
- `fetchJobs`, the view dialog, loading flags, the snackbar close handlers, the hidden date inputs' `showPicker`, DataGrid columns and media queries are left out: they are network or pure UI rendering.
- The HTTP route wiring (backend/routes/jobs.js, backend/index.js) is left out. Each controller handler is modelled on the data it reads.
