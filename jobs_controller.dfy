/** The request handlers over the job repository
    (backend/controllers/jobsController.js): lookup by ID, search, the
    defaults of a new job, the status-change patch, dashboard counts and the
    invoice guard. Each handler is a function from the jobs and the request
    to the reply it sends. */
module JobsController {
  import opened Wrappers
  import opened Text
  import opened Seqs
  import opened Dates
  import opened Sheets
  import opened SheetHelper

  /** A JSON reply: `{success: true, data}` or `{success: false, error}`
      with its HTTP status. */
  datatype Reply<T> = Success(code: nat, data: T) | Failure(code: nat, error: string)

  /** The index `jobs.find(job => job.uid === id)` stops at. */
  function FindJobIndex(jobs: seq<Job>, id: string): (r: Option<nat>)
    ensures r.Some? ==> r.value < |jobs| && jobs[r.value].uid == id
    ensures r.Some? ==> forall j | 0 <= j < r.value :: jobs[j].uid != id
    ensures r.None? ==> forall j | 0 <= j < |jobs| :: jobs[j].uid != id
    decreases |jobs|
  {
    if jobs == [] then None
    else if jobs[0].uid == id then Some(0)
    else match FindJobIndex(jobs[1..], id)
      case None => None
      case Some(k) => Some(k + 1)
  }

  /** `jobs.find(job => job.uid === id)`: the first job with that ID. */
  function FindJob(jobs: seq<Job>, id: string): (r: Option<Job>)
    ensures r.None? <==> forall j | 0 <= j < |jobs| :: jobs[j].uid != id
    ensures r.Some? ==> exists i | 0 <= i < |jobs| ::
      jobs[i] == r.value && jobs[i].uid == id && forall j | 0 <= j < i :: jobs[j].uid != id
  {
    match FindJobIndex(jobs, id)
    case None => None
    case Some(i) => Some(jobs[i])
  }

  /** `getJobById`. */
  function GetJobById(jobs: seq<Job>, id: string): (reply: Reply<Job>)
    ensures reply.Success? <==> exists i | 0 <= i < |jobs| :: jobs[i].uid == id
    ensures reply.Success? ==> reply.code == 200 && reply.data.uid == id
    ensures reply.Success? ==> exists i | 0 <= i < |jobs| ::
      jobs[i] == reply.data && forall j | 0 <= j < i :: jobs[j].uid != id
    ensures reply.Failure? ==> reply == Failure(404, "Job not found")
  {
    match FindJob(jobs, id)
    case None => Failure(404, "Job not found")
    case Some(job) => Success(200, job)
  }

  /** Looking a job up in the listing finds the record of the first row with
      that ID, for any non-empty ID. */
  lemma FindJobMatchesRow(rows: seq<Row>, id: string)
    requires id != ""
    ensures match FindRow(rows, "Job Sheet ID", id)
      case None => FindJob(SheetData(rows), id).None?
      case Some(i) => FindJob(SheetData(rows), id) == Some(RowToJob(rows[i]))
  {
    FindJobIndexMatchesRow(rows, id);
  }

  /** The record of a row carries the row's ID exactly when the row has it. */
  lemma UidOfRow(row: Row, id: string)
    requires id != ""
    ensures RowToJob(row).uid == id <==> Cell(row, "Job Sheet ID") == Some(id)
  {
  }

  lemma {:induction false} FindJobIndexMatchesRow(rows: seq<Row>, id: string)
    requires id != ""
    ensures FindJobIndex(SheetData(rows), id) == FindRow(rows, "Job Sheet ID", id)
    decreases |rows|
  {
    if rows != [] {
      FindJobIndexMatchesRow(rows[1..], id);
      var jobs := SheetData(rows);
      assert jobs[1..] == SheetData(rows[1..]);
      UidOfRow(rows[0], id);
    }
  }

  /** The search predicate of `searchJobs`. */
  predicate SearchMatch(job: Job, q: string)
  {
    Contains(ToLower(job.uid), ToLower(q)) || Contains(job.mobileNumber, q) ||
    Contains(ToLower(job.customerName), ToLower(q))
  }

  function SearchFilter(q: string): Job -> bool
  {
    (job: Job) => SearchMatch(job, q)
  }

  const UndefinedQuery := "Cannot read properties of undefined (reading 'toLowerCase')"

  /** `searchJobs`: the jobs matching `q`, in listing order. Without a `q`
      the first call of `toLowerCase` fails, which only happens when there is
      a job to test. */
  function SearchJobs(jobs: seq<Job>, q: Option<string>): (reply: Reply<seq<Job>>)
    ensures q.None? ==> reply == if jobs == [] then Success(200, []) else Failure(500, UndefinedQuery)
    ensures q.Some? ==> reply.Success? && reply.code == 200 && IsSubsequence(reply.data, jobs)
    ensures q.Some? ==> forall job :: job in reply.data <==> job in jobs && SearchMatch(job, q.value)
    ensures q.Some? ==> forall job ::
      multiset(reply.data)[job] == if SearchMatch(job, q.value) then multiset(jobs)[job] else 0
  {
    if q.None? then
      if jobs == [] then Success(200, []) else Failure(500, UndefinedQuery)
    else
      FilterFacts(jobs, SearchFilter(q.value));
      FilterCount(jobs, SearchFilter(q.value));
      Success(200, Filter(jobs, SearchFilter(q.value)))
  }

  /** The three fields `searchJobs` tests: the ID or the name containing the
      query in any case, or the number containing it as is. */
  lemma SearchByEachField(job: Job, q: string)
    ensures Contains(job.mobileNumber, q) ==> SearchMatch(job, q)
    ensures Contains(ToLower(job.uid), ToLower(q)) ==> SearchMatch(job, q)
    ensures Contains(ToLower(job.customerName), ToLower(q)) ==> SearchMatch(job, q)
    ensures ToLower(q) == ToLower(job.uid) ==> SearchMatch(job, q)
  {
    if ToLower(q) == ToLower(job.uid) {
      assert ToLower(q) <= ToLower(job.uid);
    }
  }

  /** The job `createJob` hands to `appendRow`: no ID (so one is always
      generated), and the defaults for the optional fields, with the entry
      date in ISO form; what ends up in the sheet is `CreatedRowCells`. */
  function CreateJobData(body: JobInput, today: Date): (job: JobInput)
    ensures job.uid.None? && Truthy(job.entryDate)
  {
    JobInput(
      uid := None,
      customerName := body.customerName,
      mobileNumber := body.mobileNumber,
      mobileModel := body.mobileModel,
      issue := body.issue,
      customIssue := Some(OrElse(body.customIssue, "")),
      components := Some(OrElse(body.components, "")),
      entryDate := Some(OrElse(body.entryDate, IsoDate(today))),
      expectedDate := body.expectedDate,
      status := Some(OrElse(body.status, "Pending")),
      completionDate := None,
      notes := Some(OrElse(body.notes, "")),
      totalAmount := Some(OrElse(body.totalAmount, "")))
  }

  lemma IsoDateNonEmpty(d: Date)
    ensures IsoDate(d) != ""
  {
    assert |IsoDate(d)| >= 1;
  }

  /** The row `createJob` stores, column by column: the generated ID even
      when the client sends one, the fields given as they are, and for each
      optional field left empty the default of `createJob` (`Pending`, the
      ISO entry date, `''`) rather than that of `appendRow`. */
  lemma CreatedRowCells(body: JobInput, today: Date, id: string)
    ensures var row := RowOf(AppendValues(WithDefaults(CreateJobData(body, today), id, today)));
      && Cell(row, "Job Sheet ID") == Some(id)
      && Cell(row, "Customer Name") == body.customerName
      && Cell(row, "Mobile Number") == body.mobileNumber
      && Cell(row, "Mobile Model") == body.mobileModel
      && (!Truthy(body.customIssue) ==> Cell(row, "Issue Description") == Some(TemplateText(body.issue)))
      && (Truthy(body.customIssue) ==>
            Cell(row, "Issue Description") == Some(TemplateText(body.issue) + " - " + body.customIssue.value))
      && Cell(row, "Status") == (if Truthy(body.status) then body.status else Some("Pending"))
      && Cell(row, "Entry Date") == (if Truthy(body.entryDate) then body.entryDate else Some(IsoDate(today)))
      && Cell(row, "Components") == (if Truthy(body.components) then body.components else Some(""))
      && Cell(row, "Completed Date") == Some(OrElse(body.expectedDate, ""))
      && Cell(row, "Total Amount") == (if Truthy(body.totalAmount) then body.totalAmount else Some(""))
      && Cell(row, "Comments") == (if Truthy(body.notes) then body.notes else Some(""))
  {
    var job := CreateJobData(body, today);
    IsoDateNonEmpty(today);
    var full := WithDefaults(job, id, today);
    assert full.uid == Some(id) && full.entryDate == job.entryDate;
    assert full.customIssue == Some(OrElse(body.customIssue, ""));
    if Truthy(body.customIssue) {
      assert IssueCell(full) == TemplateText(body.issue) + " - " + body.customIssue.value;
    } else {
      assert IssueCell(full) == TemplateText(body.issue) + "";
      assert TemplateText(body.issue) + "" == TemplateText(body.issue);
    }
    DefaultKept(body.status, "Pending");
    DefaultKept(body.entryDate, IsoDate(today));
    DefaultKept(body.components, "");
    DefaultKept(body.totalAmount, "");
    DefaultKept(body.notes, "");
    AppendedCells(full);
  }

  /** A field `createJob` has already defaulted keeps that value through
      `appendRow`'s default for it. */
  lemma DefaultKept(v: Option<string>, d: string)
    ensures OrElse(Some(OrElse(v, d)), d) == OrElse(v, d)
    ensures Some(OrElse(v, d)) == if Truthy(v) then v else Some(d)
  {
  }

  /** Through `createJob`, whatever ID the client sends, the stored ID is the
      generated one, and `appendRow`'s own entry-date default never applies. */
  lemma CreateJobUsesGeneratedId(body: JobInput, today: Date, generatedId: string)
    ensures var full := WithDefaults(CreateJobData(body, today), generatedId, today);
      full.uid == Some(generatedId) && full.entryDate == CreateJobData(body, today).entryDate
  {
    IsoDateNonEmpty(today);
  }

  /** The patch `updateJobStatus` sends: the status, and the given date as
      the completion date exactly when the status is `Completed`. */
  function StatusPatchOn(status: Option<string>, date: string): (p: Patch)
    ensures Lookup(p, "status") == status
    ensures Lookup(p, "completionDate") == if status == Some("Completed") then Some(date) else None
  {
    if status == Some("Completed") then [("status", status), ("completionDate", Some(date))]
    else [("status", status)]
  }

  /** The patch with today's ISO date, as `toISOString().split('T')[0]`. */
  function StatusPatch(status: Option<string>, today: Date): Patch
  {
    StatusPatchOn(status, IsoDate(today))
  }

  /** With a non-empty date the automatic stamp of `updateRow` never fires:
      the completion date written is the one in the patch, and when the
      status is anything else the stored completion date is untouched. */
  lemma StatusPatchOnEffect(row: Row, status: Option<string>, date: string, stampDay: Date)
    requires date != ""
    ensures !AutoStamps(StatusPatchOn(status, date))
    ensures var after := Patched(row, StatusPatchOn(status, date), stampDay);
      && Cell(after, "Status") == (if status.Some? then status else Cell(row, "Status"))
      && Cell(after, "Completed Date") == (if status == Some("Completed") then Some(date) else Cell(row, "Completed Date"))
  {
    var p := StatusPatchOn(status, date);
    PatchedCell(row, p, stampDay, "Status");
    PatchedCell(row, p, stampDay, "Completed Date");
    assert HeaderMap["status"] == "Status" && HeaderMap["completionDate"] == "Completed Date";
    assert p[..0] == [];
    if status == Some("Completed") {
      assert p[..1] == [("status", status)];
    }
  }

  /** On the status route of the controller the stamp never fires and the
      ISO date of today is what is stored. */
  lemma StatusPatchEffect(row: Row, status: Option<string>, today: Date, stampDay: Date)
    ensures !AutoStamps(StatusPatch(status, today))
    ensures var after := Patched(row, StatusPatch(status, today), stampDay);
      Cell(after, "Completed Date") == (if status == Some("Completed") then Some(IsoDate(today)) else Cell(row, "Completed Date"))
  {
    IsoDateNonEmpty(today);
    StatusPatchOnEffect(row, status, IsoDate(today), stampDay);
  }

  predicate IsPending(job: Job) { job.status == "Pending" }
  predicate IsInProgress(job: Job) { job.status == "In Progress" }
  predicate IsCompleted(job: Job) { job.status == "Completed" }

  datatype Stats = Stats(total: nat, pending: nat, inProgress: nat, completed: nat, recentJobs: seq<Job>)

  /** `getDashboardStats`. */
  function DashboardStats(jobs: seq<Job>): Stats
  {
    Stats(
      total := |jobs|,
      pending := |Filter(jobs, IsPending)|,
      inProgress := |Filter(jobs, IsInProgress)|,
      completed := |Filter(jobs, IsCompleted)|,
      recentJobs := Reverse(LastN(jobs, 5)))
  }

  /** The counts use exact status matches, so they never exceed the total;
      the recent list is the last five jobs, newest first. */
  lemma DashboardStatsFacts(jobs: seq<Job>)
    ensures var st := DashboardStats(jobs);
      && st.total == |jobs|
      && st.pending + st.inProgress + st.completed <= st.total
      && |st.recentJobs| == (if |jobs| < 5 then |jobs| else 5)
      && forall k | 0 <= k < |st.recentJobs| :: st.recentJobs[k] == jobs[|jobs| - 1 - k]
  {
    ExclusiveFiltersBounded(jobs, IsPending, IsInProgress, IsCompleted);
    var last := LastN(jobs, 5);
    forall k | 0 <= k < |last| ensures Reverse(last)[k] == jobs[|jobs| - 1 - k] {
      ReverseIndex(last, k);
    }
  }

  /** Over the listing the counts are those of the normalised statuses, so a
      status stored in any casing is counted. */
  lemma DashboardCountsNormalised(rows: seq<Row>, i: nat)
    requires i < |rows| && Cell(rows[i], "Status").Some? && ToLower(Cell(rows[i], "Status").value) == "completed"
    ensures IsCompleted(SheetData(rows)[i])
  {
    NormalizeStatusMapping(Cell(rows[i], "Status"));
  }

  const InvoiceRefused := "Invoice only available for completed jobs"

  /** The guards of `downloadInvoice`; a success carries the job the invoice
      is rendered from, the first with the ID. */
  function DownloadInvoice(jobs: seq<Job>, id: string): (reply: Reply<Job>)
    ensures reply.Success? <==> FindJob(jobs, id).Some? && FindJob(jobs, id).value.status == "Completed"
    ensures reply.Success? ==> reply.code == 200 && Some(reply.data) == FindJob(jobs, id)
    ensures reply.Success? ==> reply.data.uid == id && reply.data.status == "Completed"
    ensures reply.Failure? && reply.code == 400 ==> reply.error == InvoiceRefused
    ensures (forall i | 0 <= i < |jobs| :: jobs[i].uid != id) <==> reply == Failure(404, "Job not found")
    ensures reply.Failure? && reply.code == 400 <==> FindJob(jobs, id).Some? && FindJob(jobs, id).value.status != "Completed"
  {
    match FindJob(jobs, id)
    case None => Failure(404, "Job not found")
    case Some(job) =>
      if job.status != "Completed" then Failure(400, InvoiceRefused) else Success(200, job)
  }
}
