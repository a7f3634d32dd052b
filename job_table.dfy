/** The job list table (frontend/src/components/JobTable.jsx): the search
    box filter, the row menu's action dispatch and the status chip colour.
    A job here is the record the API returns, field name to text, with a
    missing field `undefined`. */
module JobTable {
  import opened Wrappers
  import opened Text
  import opened Seqs
  import opened Sheets

  type UiJob = map<string, string>

  /** `job.<field>?.toLowerCase().includes(term.toLowerCase())`. */
  predicate ContainsIgnoringCase(v: Option<string>, term: string)
  {
    v.Some? && Contains(ToLower(v.value), ToLower(term))
  }

  /** `job.<field>?.includes(term)`. */
  predicate ContainsExactly(v: Option<string>, term: string)
  {
    v.Some? && Contains(v.value, term)
  }

  /** The search predicate: customer name, mobile number, UID or model. */
  predicate TableMatch(job: UiJob, term: string)
  {
    ContainsIgnoringCase(Cell(job, "customerName"), term) ||
    ContainsExactly(Cell(job, "mobileNumber"), term) ||
    ContainsIgnoringCase(Cell(job, "uid"), term) ||
    ContainsIgnoringCase(Cell(job, "mobileModel"), term)
  }

  function TableFilter(term: string): UiJob -> bool
  {
    job => TableMatch(job, term)
  }

  /** `filteredJobs`. */
  function FilteredJobs(jobs: seq<UiJob>, term: string): (r: seq<UiJob>)
    ensures IsSubsequence(r, jobs)
    ensures forall job :: job in r <==> job in jobs && TableMatch(job, term)
    ensures forall job :: multiset(r)[job] == if TableMatch(job, term) then multiset(jobs)[job] else 0
  {
    FilterFacts(jobs, TableFilter(term));
    FilterCount(jobs, TableFilter(term));
    Filter(jobs, TableFilter(term))
  }

  lemma {:induction false} ContainsEmpty(s: string)
    ensures Contains(s, "")
  {
    ContainsInfix([], "", s);
    assert [] + "" + s == s;
  }

  /** Every string contains the empty search term, so an empty box keeps
      exactly the jobs that have at least one of the four fields. */
  lemma EmptyTermKeeps(jobs: seq<UiJob>)
    ensures forall job :: job in FilteredJobs(jobs, "") <==>
      (job in jobs &&
       ("customerName" in job || "mobileNumber" in job || "uid" in job || "mobileModel" in job))
  {
    forall job: UiJob
      ensures TableMatch(job, "") <==>
        ("customerName" in job || "mobileNumber" in job || "uid" in job || "mobileModel" in job)
    {
      assert ToLower("") == "";
      if "customerName" in job { ContainsEmpty(ToLower(job["customerName"])); }
      if "mobileNumber" in job { ContainsEmpty(job["mobileNumber"]); }
      if "uid" in job { ContainsEmpty(ToLower(job["uid"])); }
      if "mobileModel" in job { ContainsEmpty(ToLower(job["mobileModel"])); }
    }
  }

  /** The case of the search term does not matter for the name, UID and
      model fields; the mobile number is matched as typed. */
  lemma {:induction false} NameSearchIgnoresCase(job: UiJob, term: string)
    requires "customerName" in job
    ensures ContainsIgnoringCase(Cell(job, "customerName"), term) ==
      ContainsIgnoringCase(Cell(job, "customerName"), ToLower(term))
  {
    ToLowerIdempotent(term);
  }

  /** The row menu's callbacks; each one may be absent. */
  datatype Action = ViewAction | EditAction | DeleteAction

  function ActionOf(action: string): Option<Action>
  {
    if action == "view" then Some(ViewAction)
    else if action == "edit" then Some(EditAction)
    else if action == "delete" then Some(DeleteAction)
    else None
  }

  /** A callback invocation: which one, with which job. */
  datatype Call = Call(callback: Action, job: UiJob)

  /** `handleAction`'s switch: `provided` says which of `onView`, `onEdit`,
      `onDelete` the parent passed. */
  function Dispatch(selected: Option<UiJob>, action: string, provided: set<Action>): Option<Call>
  {
    if selected.None? then None
    else match ActionOf(action)
      case None => None
      case Some(a) => if a in provided then Some(Call(a, selected.value)) else None
  }

  /** Exactly the callback the action names is called, with the selected
      job, and only when a job is selected and the callback exists. */
  lemma DispatchFacts(selected: Option<UiJob>, action: string, provided: set<Action>)
    ensures var call := Dispatch(selected, action, provided);
      && (call.Some? <==> selected.Some? && action in {"view", "edit", "delete"} && ActionOf(action).value in provided)
      && (call.Some? ==> call.value.job == selected.value)
      && (call.Some? && action == "view" ==> call.value.callback == ViewAction)
      && (call.Some? && action == "edit" ==> call.value.callback == EditAction)
      && (call.Some? && action == "delete" ==> call.value.callback == DeleteAction)
  {
  }

  /** The row menu: its anchor and selected job. */
  class RowMenu {
    var open: bool
    var selected: Option<UiJob>

    constructor ()
      ensures !open && selected.None?
    {
      open := false;
      selected := None;
    }

    /** `handleMenuClick`. */
    method Click(job: UiJob)
      modifies this
      ensures open && selected == Some(job)
    {
      open := true;
      selected := Some(job);
    }

    /** `handleAction`: dispatch, then `handleMenuClose`. */
    method HandleAction(action: string, provided: set<Action>) returns (call: Option<Call>)
      modifies this
      ensures call == Dispatch(old(selected), action, provided)
      ensures !open && selected.None?
    {
      call := Dispatch(selected, action, provided);
      open := false;
      selected := None;
    }
  }

  /** `getStatusColor`, the same switch in the table and in the jobs page. */
  function StatusColor(status: Option<string>): string
  {
    if status == Some("Pending") then "#ff9800"
    else if status == Some("In Progress") then "#2196f3"
    else if status == Some("Completed") then "#4caf50"
    else "#757575"
  }

  /** The three canonical statuses get three distinct colours, and a status
      gets the grey default exactly when it is none of them. */
  lemma StatusColorFacts(status: Option<string>)
    ensures StatusColor(Some("Pending")) != StatusColor(Some("In Progress"))
    ensures StatusColor(Some("Pending")) != StatusColor(Some("Completed"))
    ensures StatusColor(Some("In Progress")) != StatusColor(Some("Completed"))
    ensures StatusColor(status) == "#757575" <==>
      status !in {Some("Pending"), Some("In Progress"), Some("Completed")}
  {
  }
}
