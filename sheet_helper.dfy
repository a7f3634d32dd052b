/** The job repository over the job tab (backend/utils/sheetHelper.js):
    sequential `RB<nnn>` IDs, status normalisation, the row-to-record
    mapping, the fixed-order append, whitelisted update with the completion
    stamp, and delete by ID. The tab is an in-memory sequence of rows. */
module SheetHelper {
  import opened Wrappers
  import opened Text
  import opened Seqs
  import opened Dates
  import opened Sheets

  /** The job tab's header row, in column order. */
  const JobHeaders: seq<string> := [
    "Job Sheet ID", "Customer Name", "Mobile Number", "Mobile Model", "Issue Description",
    "Components", "Status", "Entry Date", "Completed Date", "Total Amount", "Comments"]

  const IdColumn := "Job Sheet ID"

  // ----- Job IDs -----------------------------------------------------------

  /** The number captured by `/RB(\d+)/` in `s`: the leftmost `RB` that is
      followed by a digit, with all the digits after it. */
  function IdSuffix(s: string): Option<nat>
    decreases |s|
  {
    if |s| < 3 then None
    else if s[0] == 'R' && s[1] == 'B' && IsDigit(s[2]) then Some(DigitsValue(LeadingDigits(s[2..])))
    else IdSuffix(s[1..])
  }

  /** The suffix a row contributes to ID generation; an empty ID contributes none. */
  function RowSuffix(row: Row): Option<nat>
  {
    var id := Cell(row, IdColumn);
    if Truthy(id) then IdSuffix(id.value) else None
  }

  /** The largest suffix over the rows, 0 when none matches (`maxId`). */
  function MaxSuffix(rows: seq<Row>): nat
    decreases |rows|
  {
    if rows == [] then 0
    else
      var m := MaxSuffix(rows[..|rows| - 1]);
      var last := RowSuffix(rows[|rows| - 1]);
      if last.Some? && last.value > m then last.value else m
  }

  /** `RB${String(n).padStart(3, '0')}`. */
  function JobIdFor(n: nat): string
  {
    "RB" + PadStart(NatToString(n), 3, '0')
  }

  /** The catch-path ID: `RB` and the last six digits of the timestamp. */
  function FallbackJobId(now: nat): string
  {
    "RB" + LastN(NatToString(now), 6)
  }

  /** The fallback ID is `RB` followed by one to six digits. */
  lemma FallbackJobIdShape(now: nat)
    ensures var id := FallbackJobId(now);
      3 <= |id| <= 8 && id[..2] == "RB" && AllDigits(id[2..])
  {
    var full := NatToString(now);
    var digits := LastN(full, 6);
    AllDigitsSuffix(full, |full| - |digits|);
    assert FallbackJobId(now)[2..] == digits;
  }

  /** Every matched suffix is at most the maximum. */
  lemma {:induction false} MaxSuffixBound(rows: seq<Row>, i: nat)
    requires i < |rows| && RowSuffix(rows[i]).Some?
    ensures RowSuffix(rows[i]).value <= MaxSuffix(rows)
    decreases |rows|
  {
    if i < |rows| - 1 {
      MaxSuffixBound(rows[..|rows| - 1], i);
    }
  }

  /** The maximum is either 0 or the suffix of some row. */
  lemma {:induction false} MaxSuffixAttained(rows: seq<Row>)
    ensures MaxSuffix(rows) == 0 || exists i | 0 <= i < |rows| :: RowSuffix(rows[i]) == Some(MaxSuffix(rows))
    decreases |rows|
  {
    if rows != [] {
      var init := rows[..|rows| - 1];
      MaxSuffixAttained(init);
      if MaxSuffix(rows) == MaxSuffix(init) && MaxSuffix(init) != 0 {
        var i :| 0 <= i < |init| && RowSuffix(init[i]) == Some(MaxSuffix(init));
        assert rows[i] == init[i];
      }
    }
  }

  /** When no row matches `/RB(\d+)/` the maximum stays 0, so the next ID
      is `RB001`. */
  lemma {:induction false} MaxSuffixNone(rows: seq<Row>)
    requires forall i | 0 <= i < |rows| :: RowSuffix(rows[i]).None?
    ensures MaxSuffix(rows) == 0
    ensures JobIdFor(MaxSuffix(rows) + 1) == "RB001"
    decreases |rows|
  {
    if rows != [] {
      MaxSuffixNone(rows[..|rows| - 1]);
    }
    assert NatToString(1) == "1";
    assert PadStart("1", 3, '0') == "001";
  }

  /** The generated ID is read back by the same regular expression as its
      number, so it ranks in the next scan. */
  lemma JobIdForSuffix(n: nat)
    ensures IdSuffix(JobIdFor(n)) == Some(n)
  {
    PaddedNumberValue(n, 3);
    PrefixedDigits(PadStart(NatToString(n), 3, '0'));
  }

  /** An ID numbered one past the tab's maximum, as the generated one is
      (`JobIdForSuffix`), is held by no row of that tab. */
  lemma NextJobIdFresh(rows: seq<Row>, id: string)
    requires IdSuffix(id) == Some(MaxSuffix(rows) + 1)
    ensures forall i | 0 <= i < |rows| :: Cell(rows[i], IdColumn) != Some(id)
  {
    SuffixesBelow(rows);
    AbsentAbove(rows, id, MaxSuffix(rows) + 1);
  }

  lemma SuffixesBelow(rows: seq<Row>)
    ensures forall i | 0 <= i < |rows| && RowSuffix(rows[i]).Some? :: RowSuffix(rows[i]).value <= MaxSuffix(rows)
  {
    forall j | 0 <= j < |rows| && RowSuffix(rows[j]).Some?
      ensures RowSuffix(rows[j]).value <= MaxSuffix(rows)
    {
      MaxSuffixBound(rows, j);
    }
  }

  /** The generated ID collides with no existing one. */
  lemma GeneratedIdFresh(rows: seq<Row>, n: nat)
    requires n == MaxSuffix(rows) + 1
    ensures forall i | 0 <= i < |rows| :: Cell(rows[i], IdColumn) != Some(JobIdFor(n))
  {
    JobIdForSuffix(n);
    NextJobIdFresh(rows, JobIdFor(n));
  }

  /** An ID whose number exceeds every row's is held by no row. */
  lemma AbsentAbove(rows: seq<Row>, id: string, n: nat)
    requires IdSuffix(id) == Some(n)
    requires forall i | 0 <= i < |rows| && RowSuffix(rows[i]).Some? :: RowSuffix(rows[i]).value < n
    ensures forall i | 0 <= i < |rows| :: Cell(rows[i], IdColumn) != Some(id)
  {
    forall i | 0 <= i < |rows|
      ensures Cell(rows[i], IdColumn) != Some(id)
    {
      assert Cell(rows[i], IdColumn) == Some(id) ==> RowSuffix(rows[i]) == Some(n);
    }
  }

  /** `RB` followed by digits yields those digits as its number. */
  lemma PrefixedDigits(digits: string)
    requires 1 <= |digits| && AllDigits(digits)
    ensures IdSuffix("RB" + digits) == Some(DigitsValue(digits))
  {
    var id := "RB" + digits;
    assert id[2..] == digits;
    LeadingDigitsAll(digits);
  }

  // ----- Status and records ------------------------------------------------

  /** `row.get('Status') || 'Pending'`, then mapped to canonical casing when
      its lower-case form is one of the three known statuses. */
  function NormalizeStatus(raw: Option<string>): string
  {
    var status := OrElse(raw, "Pending");
    var lower := ToLower(status);
    if lower == "completed" then "Completed"
    else if lower == "in progress" then "In Progress"
    else if lower == "pending" then "Pending"
    else status
  }

  predicate IsCanonicalStatus(s: string)
  {
    s == "Completed" || s == "In Progress" || s == "Pending"
  }

  /** The mapping of status normalisation: known statuses in any casing go to
      their canonical form, an empty or missing status becomes `Pending`, and
      every other non-empty value passes through unchanged. */
  lemma NormalizeStatusMapping(raw: Option<string>)
    ensures !Truthy(raw) ==> NormalizeStatus(raw) == "Pending"
    ensures Truthy(raw) && ToLower(raw.value) == "completed" ==> NormalizeStatus(raw) == "Completed"
    ensures Truthy(raw) && ToLower(raw.value) == "in progress" ==> NormalizeStatus(raw) == "In Progress"
    ensures Truthy(raw) && ToLower(raw.value) == "pending" ==> NormalizeStatus(raw) == "Pending"
    ensures Truthy(raw) && ToLower(raw.value) !in {"completed", "in progress", "pending"}
            ==> NormalizeStatus(raw) == raw.value
  {
    if !Truthy(raw) {
      assert ToLower("Pending") == "pending";
    }
  }

  /** Normalising an already normalised status changes nothing. */
  lemma NormalizeStatusIdempotent(raw: Option<string>)
    ensures NormalizeStatus(Some(NormalizeStatus(raw))) == NormalizeStatus(raw)
  {
    assert ToLower("Completed") == "completed";
    assert ToLower("In Progress") == "in progress";
    assert ToLower("Pending") == "pending";
  }

  /** The result is canonical exactly when the input is, up to case, a known
      status or is missing. */
  lemma NormalizeStatusCanonical(raw: Option<string>)
    ensures IsCanonicalStatus(NormalizeStatus(raw)) <==>
            !Truthy(raw) || ToLower(raw.value) in {"completed", "in progress", "pending"}
  {
    NormalizeStatusMapping(raw);
    assert ToLower("Completed") == "completed";
    assert ToLower("In Progress") == "in progress";
    assert ToLower("Pending") == "pending";
  }

  /** A job as the API returns it from the sheet. */
  datatype Job = Job(
    uid: string, customerName: string, mobileNumber: string, mobileModel: string,
    issue: string, customIssue: string, components: string, entryDate: string,
    expectedDate: string, status: string, completionDate: string, notes: string,
    totalAmount: string)

  /** The record `getSheetData` builds from one row. */
  function RowToJob(row: Row): Job
  {
    Job(
      uid := OrElse(Cell(row, "Job Sheet ID"), ""),
      customerName := OrElse(Cell(row, "Customer Name"), ""),
      mobileNumber := OrElse(Cell(row, "Mobile Number"), ""),
      mobileModel := OrElse(Cell(row, "Mobile Model"), ""),
      issue := OrElse(Cell(row, "Issue Description"), ""),
      customIssue := "",
      components := OrElse(Cell(row, "Components"), ""),
      entryDate := OrElse(Cell(row, "Entry Date"), ""),
      expectedDate := OrElse(Cell(row, "Completed Date"), ""),
      status := NormalizeStatus(Cell(row, "Status")),
      completionDate := OrElse(Cell(row, "Completed Date"), ""),
      notes := OrElse(Cell(row, "Comments"), ""),
      totalAmount := OrElse(Cell(row, "Total Amount"), "0.00"))
  }

  /** `getSheetData`: one record per row, in row order. */
  function SheetData(rows: seq<Row>): (jobs: seq<Job>)
    ensures |jobs| == |rows|
    ensures forall i | 0 <= i < |rows| :: jobs[i] == RowToJob(rows[i])
    decreases |rows|
  {
    if rows == [] then [] else [RowToJob(rows[0])] + SheetData(rows[1..])
  }

  /** Both date fields of a record read the `Completed Date` column, and a
      missing amount reads as `'0.00'`. */
  lemma RowToJobColumns(row: Row)
    ensures RowToJob(row).expectedDate == RowToJob(row).completionDate
    ensures Cell(row, "Completed Date") == Some(RowToJob(row).completionDate) || (!Truthy(Cell(row, "Completed Date")) && RowToJob(row).completionDate == "")
    ensures !Truthy(Cell(row, "Total Amount")) <==> RowToJob(row).totalAmount == "0.00" && Cell(row, "Total Amount") != Some("0.00")
  {
  }

  // ----- Append ------------------------------------------------------------

  /** The fields `appendRow` reads; `None` is a field the caller left undefined. */
  datatype JobInput = JobInput(
    uid: Option<string>, customerName: Option<string>, mobileNumber: Option<string>,
    mobileModel: Option<string>, issue: Option<string>, customIssue: Option<string>,
    components: Option<string>, entryDate: Option<string>, expectedDate: Option<string>,
    status: Option<string>, completionDate: Option<string>, notes: Option<string>,
    totalAmount: Option<string>)

  /** The input after `appendRow` fills the ID and the entry date when absent. */
  function WithDefaults(job: JobInput, generatedId: string, today: Date): JobInput
  {
    job.(uid := if Truthy(job.uid) then job.uid else Some(generatedId),
         entryDate := if Truthy(job.entryDate) then job.entryDate else Some(FormatDDMMYYYY(today)))
  }

  /** The Issue column: the issue, then ` - ` and the custom issue when that
      is non-empty. An undefined issue prints as `undefined`. */
  function IssueCell(job: JobInput): string
  {
    TemplateText(job.issue) + (if Truthy(job.customIssue) then " - " + job.customIssue.value else "")
  }

  /** The generated ID matters only when the input has none. */
  lemma UnusedIdIgnored(job: JobInput, a: string, b: string, today: Date)
    requires !Truthy(job.uid) ==> a == b
    ensures WithDefaults(job, a, today) == WithDefaults(job, b, today)
  {
  }

  /** `rowValues`: the eleven cells of the new row in header order. */
  function AppendValues(job: JobInput): (values: seq<Option<string>>)
    ensures |values| == |JobHeaders|
  {
    [job.uid, job.customerName, job.mobileNumber, job.mobileModel,
     Some(IssueCell(job)),
     Some(OrElse(job.components, "")),
     Some(OrElse(job.status, "Pending")),
     job.entryDate,
     Some(OrElse(job.expectedDate, "")),
     Some(OrElse(job.totalAmount, "")),
     Some(OrElse(job.notes, ""))]
  }

  /** Column `k` of the header row holds position `k` of the value list. */
  function HeaderIndex(h: string): int
  {
    if h == "Job Sheet ID" then 0 else if h == "Customer Name" then 1
    else if h == "Mobile Number" then 2 else if h == "Mobile Model" then 3
    else if h == "Issue Description" then 4 else if h == "Components" then 5
    else if h == "Status" then 6 else if h == "Entry Date" then 7
    else if h == "Completed Date" then 8 else if h == "Total Amount" then 9
    else if h == "Comments" then 10 else -1
  }

  lemma HeaderIndexOf(k: nat)
    requires k < |JobHeaders|
    ensures HeaderIndex(JobHeaders[k]) == k
  {
  }

  /** The row `sheet.addRow(rowValues)` stores: positional, an undefined value
      leaving its cell empty. */
  function RowOf(values: seq<Option<string>>): Row
    requires |values| == |JobHeaders|
  {
    map h | h in JobHeaders && values[HeaderIndex(h)].Some? :: values[HeaderIndex(h)].value
  }

  lemma RowOfCell(values: seq<Option<string>>, k: nat)
    requires |values| == |JobHeaders| && k < |JobHeaders|
    ensures Cell(RowOf(values), JobHeaders[k]) == values[k]
  {
    HeaderIndexOf(k);
  }

  /** The object `appendRow` returns: the input as filled in, not re-read. */
  function AppendReply(job: JobInput): JobInput
  {
    JobInput(
      uid := job.uid, customerName := job.customerName, mobileNumber := job.mobileNumber,
      mobileModel := job.mobileModel, issue := job.issue,
      customIssue := Some(OrElse(job.customIssue, "")),
      components := Some(OrElse(job.components, "")),
      entryDate := job.entryDate, expectedDate := job.expectedDate,
      status := Some(OrElse(job.status, "Pending")),
      completionDate := Some(OrElse(job.completionDate, "")),
      notes := Some(OrElse(job.notes, "")),
      totalAmount := None)
  }

  /** The cells of the appended row, column by column. */
  lemma AppendedCells(job: JobInput)
    ensures var row := RowOf(AppendValues(job));
      && Cell(row, "Job Sheet ID") == job.uid
      && Cell(row, "Customer Name") == job.customerName
      && Cell(row, "Mobile Number") == job.mobileNumber
      && Cell(row, "Mobile Model") == job.mobileModel
      && Cell(row, "Issue Description") == Some(IssueCell(job))
      && Cell(row, "Components") == Some(OrElse(job.components, ""))
      && Cell(row, "Status") == Some(OrElse(job.status, "Pending"))
      && Cell(row, "Entry Date") == job.entryDate
      && Cell(row, "Completed Date") == Some(OrElse(job.expectedDate, ""))
      && Cell(row, "Total Amount") == Some(OrElse(job.totalAmount, ""))
      && Cell(row, "Comments") == Some(OrElse(job.notes, ""))
  {
    var values := AppendValues(job);
    RowOfCell(values, 0); RowOfCell(values, 1); RowOfCell(values, 2); RowOfCell(values, 3);
    RowOfCell(values, 4); RowOfCell(values, 5); RowOfCell(values, 6); RowOfCell(values, 7);
    RowOfCell(values, 8); RowOfCell(values, 9); RowOfCell(values, 10);
  }

  lemma FormattedDateNonEmpty(d: Date)
    ensures FormatDDMMYYYY(d) != ""
  {
    assert |FormatDDMMYYYY(d)| >= 2;
  }

  /** Writing `status || 'Pending'` and normalising on read is the same as
      normalising the original status. */
  lemma NormalizeDefaultedStatus(raw: Option<string>)
    ensures NormalizeStatus(Some(OrElse(raw, "Pending"))) == NormalizeStatus(raw)
  {
    assert ToLower("Pending") == "pending";
  }

  /** Appending and reading back: the record `getSheetData` makes of the
      appended row carries the input's fields, with the generated ID and
      entry date when absent, the issue text joined with the custom issue,
      the status normalised, and the expected date in both date fields. */
  lemma AppendThenRead(job: JobInput, generatedId: string, today: Date)
    requires generatedId != ""
    ensures var full := WithDefaults(job, generatedId, today);
      var rec := RowToJob(RowOf(AppendValues(full)));
      && rec.uid == (if Truthy(job.uid) then job.uid.value else generatedId)
      && rec.customerName == OrElse(job.customerName, "")
      && rec.mobileNumber == OrElse(job.mobileNumber, "")
      && rec.mobileModel == OrElse(job.mobileModel, "")
      && rec.issue == IssueCell(job)
      && rec.components == OrElse(job.components, "")
      && rec.status == NormalizeStatus(job.status)
      && rec.entryDate == (if Truthy(job.entryDate) then job.entryDate.value else FormatDDMMYYYY(today))
      && rec.expectedDate == OrElse(job.expectedDate, "")
      && rec.completionDate == OrElse(job.expectedDate, "")
      && rec.totalAmount == OrElse(job.totalAmount, "0.00")
      && rec.notes == OrElse(job.notes, "")
  {
    var full := WithDefaults(job, generatedId, today);
    var row := RowOf(AppendValues(full));
    AppendedCells(full);
    var rec := RowToJob(row);
    assert rec.uid == (if Truthy(job.uid) then job.uid.value else generatedId);
    assert IssueCell(full) == IssueCell(job);
    assert rec.issue == IssueCell(job);
    FormattedDateNonEmpty(today);
    assert rec.entryDate == (if Truthy(job.entryDate) then job.entryDate.value else FormatDDMMYYYY(today));
    NormalizeDefaultedStatus(job.status);
  }

  // ----- Lookup, update, delete --------------------------------------------

  /** `headerMap`: the fields `updateRow` accepts and the column each writes. */
  const HeaderMap: map<string, string> := map[
    "customerName" := "Customer Name", "mobileNumber" := "Mobile Number",
    "mobileModel" := "Mobile Model", "issue" := "Issue Description",
    "components" := "Components", "status" := "Status", "entryDate" := "Entry Date",
    "expectedDate" := "Completed Date", "completionDate" := "Completed Date",
    "notes" := "Comments", "totalAmount" := "Total Amount"]

  /** The update body's entries in insertion order; `None` is `undefined`. */
  type Patch = seq<(string, Option<string>)>

  /** `updatedData[key]`, the value of the key's last entry. The keys of a
      parsed JSON body are distinct; a patch that repeats a key is outside
      what this model describes, since `SetFields` then writes in entry order
      rather than in an object's key order. */
  function Lookup(patch: Patch, key: string): Option<string>
    decreases |patch|
  {
    if patch == [] then None
    else if patch[|patch| - 1].0 == key then patch[|patch| - 1].1
    else Lookup(patch[..|patch| - 1], key)
  }

  /** The field loop: each defined value whose key is in `HeaderMap` is
      written to its column, in entry order. */
  function SetFields(row: Row, patch: Patch): Row
    decreases |patch|
  {
    if patch == [] then row
    else
      var r := SetFields(row, patch[..|patch| - 1]);
      var (key, value) := patch[|patch| - 1];
      if value.Some? && key in HeaderMap then r[HeaderMap[key] := value.value] else r
  }

  /** The condition under which `updateRow` stamps today's date. */
  predicate AutoStamps(patch: Patch)
  {
    Lookup(patch, "status") == Some("Completed") && !Truthy(Lookup(patch, "completionDate"))
  }

  /** The row after the field loop and the completion stamp. */
  function Patched(row: Row, patch: Patch, today: Date): Row
  {
    var r := SetFields(row, patch);
    if AutoStamps(patch) then r["Completed Date" := FormatDDMMYYYY(today)] else r
  }

  /** The value the last defined entry writing column `h` carries. */
  function LastWrite(patch: Patch, h: string): Option<string>
    decreases |patch|
  {
    if patch == [] then None
    else
      var (key, value) := patch[|patch| - 1];
      if value.Some? && key in HeaderMap && HeaderMap[key] == h then value
      else LastWrite(patch[..|patch| - 1], h)
  }

  lemma {:induction false} SetFieldsCell(row: Row, patch: Patch, h: string)
    ensures Cell(SetFields(row, patch), h) == if LastWrite(patch, h).Some? then LastWrite(patch, h) else Cell(row, h)
    decreases |patch|
  {
    if patch != [] {
      SetFieldsCell(row, patch[..|patch| - 1], h);
    }
  }

  /** What `updateRow` does to each column: the completion stamp when it
      fires, otherwise the last defined whitelisted write to the column,
      otherwise the old cell. */
  lemma PatchedCell(row: Row, patch: Patch, today: Date, h: string)
    ensures Cell(Patched(row, patch, today), h) ==
      if h == "Completed Date" && AutoStamps(patch) then Some(FormatDDMMYYYY(today))
      else if LastWrite(patch, h).Some? then LastWrite(patch, h)
      else Cell(row, h)
  {
    SetFieldsCell(row, patch, h);
  }

  /** A column that no whitelisted field maps to is never written. */
  lemma PatchedKeepsOtherColumns(row: Row, patch: Patch, today: Date, h: string)
    requires h !in HeaderMap.Values
    ensures Cell(Patched(row, patch, today), h) == Cell(row, h)
  {
    assert HeaderMap["completionDate"] == "Completed Date";
    assert "Completed Date" in HeaderMap.Values;
    PatchedCell(row, patch, today, h);
    NoWriteToUnmapped(patch, h);
  }

  lemma {:induction false} NoWriteToUnmapped(patch: Patch, h: string)
    requires h !in HeaderMap.Values
    ensures LastWrite(patch, h).None?
    decreases |patch|
  {
    if patch != [] {
      var key := patch[|patch| - 1].0;
      if key in HeaderMap {
        assert HeaderMap[key] in HeaderMap.Values;
      }
      NoWriteToUnmapped(patch[..|patch| - 1], h);
    }
  }

  /** Setting status to `Completed` without a completion date stamps today
      over any expected date in the same patch and any stored date. */
  lemma CompletionStampOverrides(row: Row, patch: Patch, today: Date)
    requires Lookup(patch, "status") == Some("Completed") && !Truthy(Lookup(patch, "completionDate"))
    ensures Cell(Patched(row, patch, today), "Completed Date") == Some(FormatDDMMYYYY(today))
    ensures Cell(Patched(row, patch, today), "Status") == Some("Completed") || LastWrite(patch, "Status") != Some("Completed")
  {
    PatchedCell(row, patch, today, "Status");
  }

  /** Marking a job completed again on a later day re-stamps the date, so the
      stored completion date follows the latest such update. */
  lemma RepeatedCompletionRestamps(row: Row, day1: Date, day2: Date)
    requires Valid(day1) && Valid(day2) && day1 != day2
    ensures var p := [("status", Some("Completed"))];
      var once := Patched(row, p, day1);
      var twice := Patched(once, p, day2);
      Cell(once, "Completed Date") == Some(FormatDDMMYYYY(day1)) &&
      Cell(twice, "Completed Date") == Some(FormatDDMMYYYY(day2)) &&
      Cell(twice, "Completed Date") != Cell(once, "Completed Date")
  {
    var p: Patch := [("status", Some("Completed"))];
    assert Lookup(p, "status") == Some("Completed");
    assert Lookup(p[..0], "completionDate") == None;
    assert Lookup(p, "completionDate") == None;
    FormatDDMMYYYYInjective(day1, day2);
  }

  /** The record `updateRow` returns, read from the row after saving: most
      fields are the raw cells (possibly undefined), and unlike `getSheetData`
      the status is not normalised. */
  function UpdatedRecord(row: Row): JobInput
  {
    JobInput(
      uid := Cell(row, "Job Sheet ID"),
      customerName := Cell(row, "Customer Name"),
      mobileNumber := Cell(row, "Mobile Number"),
      mobileModel := Cell(row, "Mobile Model"),
      issue := Cell(row, "Issue Description"),
      customIssue := Some(""),
      components := Some(OrElse(Cell(row, "Components"), "")),
      entryDate := Cell(row, "Entry Date"),
      expectedDate := Cell(row, "Completed Date"),
      status := Cell(row, "Status"),
      completionDate := Some(OrElse(Cell(row, "Completed Date"), "")),
      notes := Cell(row, "Comments"),
      totalAmount := Some(OrElse(Cell(row, "Total Amount"), "")))
  }

  function NotFound(uid: string): string
  {
    "Job with ID " + uid + " not found"
  }

  /** The job tab. */
  class JobSheet {
    var rows: seq<Row>

    constructor (initial: seq<Row>)
      ensures rows == initial
    {
      rows := initial;
    }

    /** `generateJobId`: one past the largest `RB` number in the tab, padded
        to three digits (`GeneratedIdFresh`: it collides with no existing ID). */
    method GenerateJobId() returns (id: string)
      ensures id == JobIdFor(MaxSuffix(rows) + 1)
    {
      var maxId := 0;
      var i := 0;
      while i < |rows|
        invariant 0 <= i <= |rows|
        invariant maxId == MaxSuffix(rows[..i])
      {
        var cell := Cell(rows[i], IdColumn);
        if Truthy(cell) {
          var m := IdSuffix(cell.value);
          if m.Some? && m.value > maxId {
            maxId := m.value;
          }
        }
        assert rows[..i + 1][..i] == rows[..i];
        i := i + 1;
      }
      assert rows[..i] == rows;
      id := "RB" + PadStart(NatToString(maxId + 1), 3, '0');
    }

    /** `appendRow`: fill the ID and entry date when absent, append the eleven
        values in header order, and return the input as filled in. */
    method AppendRow(job: JobInput, today: Date) returns (saved: JobInput)
      modifies this
      ensures var full := WithDefaults(job, JobIdFor(MaxSuffix(old(rows)) + 1), today);
        rows == old(rows) + [RowOf(AppendValues(full))] && saved == AppendReply(full)
    {
      var id := "";
      if !Truthy(job.uid) {
        id := GenerateJobId();
      }
      ghost var expected := WithDefaults(job, JobIdFor(MaxSuffix(old(rows)) + 1), today);
      var data := WithDefaults(job, id, today);
      UnusedIdIgnored(job, id, JobIdFor(MaxSuffix(old(rows)) + 1), today);
      assert data == expected;
      var row := RowOf(AppendValues(data));
      assert row == RowOf(AppendValues(expected));
      rows := rows + [row];
      saved := AppendReply(data);
      assert saved == AppendReply(expected);
    }

    /** `updateRow`: find the row by exact ID, write the whitelisted defined
        fields in entry order, stamp the completion date if the status
        becomes `Completed` without one, and return the row as a record. */
    method UpdateRow(uid: string, patch: Patch, today: Date) returns (result: Result<JobInput, string>)
      modifies this
      ensures FindRow(old(rows), IdColumn, uid).None? ==> rows == old(rows) && result == Err(NotFound(uid))
      ensures FindRow(old(rows), IdColumn, uid).Some? ==>
        var i := FindRow(old(rows), IdColumn, uid).value;
        rows == old(rows)[i := Patched(old(rows)[i], patch, today)] &&
        result == Ok(UpdatedRecord(rows[i]))
    {
      var found := FindRow(rows, IdColumn, uid);
      if found.None? {
        return Err(NotFound(uid));
      }
      var i := found.value;
      var row := rows[i];
      var k := 0;
      while k < |patch|
        invariant 0 <= k <= |patch|
        invariant row == SetFields(rows[i], patch[..k])
      {
        var (key, value) := patch[k];
        if value.Some? && key in HeaderMap {
          row := row[HeaderMap[key] := value.value];
        }
        assert patch[..k + 1][..k] == patch[..k];
        k := k + 1;
      }
      assert patch[..k] == patch;
      if Lookup(patch, "status") == Some("Completed") && !Truthy(Lookup(patch, "completionDate")) {
        row := row["Completed Date" := FormatDDMMYYYY(today)];
      }
      rows := rows[i := row];
      result := Ok(UpdatedRecord(row));
    }

    /** `deleteRow`: remove the first row with exactly this ID. */
    method DeleteRow(uid: string) returns (result: Result<string, string>)
      modifies this
      ensures FindRow(old(rows), IdColumn, uid).None? ==> rows == old(rows) && result == Err(NotFound(uid))
      ensures FindRow(old(rows), IdColumn, uid).Some? ==>
        var i := FindRow(old(rows), IdColumn, uid).value;
        rows == old(rows)[..i] + old(rows)[i + 1..] &&
        result == Ok("Job " + uid + " deleted successfully")
    {
      var found := FindRow(rows, IdColumn, uid);
      if found.None? {
        return Err(NotFound(uid));
      }
      var i := found.value;
      rows := rows[..i] + rows[i + 1..];
      result := Ok("Job " + uid + " deleted successfully");
    }
  }
}
