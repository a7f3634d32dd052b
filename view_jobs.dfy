/** The jobs page (frontend/src/Pages/ViewJobs.jsx): the local list it edits
    and deletes in, and the two text exports built from it. */
module ViewJobs {
  import opened Wrappers
  import opened Text
  import opened Seqs
  import opened Sheets
  import opened JobTable

  function Uid(job: UiJob): Option<string>
  {
    Cell(job, "uid")
  }

  /** `jobs.map(job => job.uid === updatedJob.uid ? updatedJob : job)`; two
      jobs without a UID compare equal, as `undefined === undefined`. */
  function ReplaceByUid(jobs: seq<UiJob>, updated: UiJob): (r: seq<UiJob>)
    ensures |r| == |jobs|
  {
    seq(|jobs|, i requires 0 <= i < |jobs| => if Uid(jobs[i]) == Uid(updated) then updated else jobs[i])
  }

  /** Every job with the edited job's UID becomes the edited job; every other
      job stays where it was. */
  lemma ReplaceByUidFacts(jobs: seq<UiJob>, updated: UiJob, i: nat)
    requires i < |jobs|
    ensures Uid(jobs[i]) == Uid(updated) ==> ReplaceByUid(jobs, updated)[i] == updated
    ensures Uid(jobs[i]) != Uid(updated) ==> ReplaceByUid(jobs, updated)[i] == jobs[i]
    ensures Uid(ReplaceByUid(jobs, updated)[i]) == Uid(jobs[i])
  {
  }

  /** Submitting the same edit twice changes nothing more. */
  lemma ReplaceByUidIdempotent(jobs: seq<UiJob>, updated: UiJob)
    ensures ReplaceByUid(ReplaceByUid(jobs, updated), updated) == ReplaceByUid(jobs, updated)
  {
  }

  function UidIsNot(uid: Option<string>): UiJob -> bool
  {
    job => Uid(job) != uid
  }

  /** `jobs.filter(job => job.uid !== uid)`. */
  function RemoveByUid(jobs: seq<UiJob>, uid: Option<string>): (r: seq<UiJob>)
    ensures IsSubsequence(r, jobs)
    ensures forall job :: job in r <==> job in jobs && Uid(job) != uid
    ensures forall job :: multiset(r)[job] == if Uid(job) != uid then multiset(jobs)[job] else 0
  {
    FilterFacts(jobs, UidIsNot(uid));
    FilterCount(jobs, UidIsNot(uid));
    Filter(jobs, UidIsNot(uid))
  }

  /** A UID no job has removes nothing. */
  lemma RemoveAbsentUid(jobs: seq<UiJob>, uid: Option<string>)
    requires forall i | 0 <= i < |jobs| :: Uid(jobs[i]) != uid
    ensures RemoveByUid(jobs, uid) == jobs
  {
    FilterKeepsAll(jobs, UidIsNot(uid));
  }

  /** Deleting after an edit removes the same jobs as deleting straight
      away: the edit keeps every UID. */
  lemma RemoveAfterReplace(jobs: seq<UiJob>, updated: UiJob)
    ensures RemoveByUid(ReplaceByUid(jobs, updated), Uid(updated)) == RemoveByUid(jobs, Uid(updated))
  {
    FilterAfterReplace(jobs, updated);
  }

  lemma {:induction false} FilterAfterReplace(jobs: seq<UiJob>, updated: UiJob)
    ensures Filter(ReplaceByUid(jobs, updated), UidIsNot(Uid(updated))) == Filter(jobs, UidIsNot(Uid(updated)))
    decreases |jobs|
  {
    if jobs != [] {
      FilterAfterReplace(jobs[1..], updated);
      assert ReplaceByUid(jobs, updated)[1..] == ReplaceByUid(jobs[1..], updated);
    }
  }

  datatype Notification = Notification(open: bool, message: string, severity: string)

  /** The page's job list and the dialogs that act on it. */
  class JobList {
    var jobs: seq<UiJob>
    var editing: Option<UiJob>
    var deleting: Option<UiJob>
    var notification: Notification

    constructor (fetched: seq<UiJob>)
      ensures jobs == fetched && editing.None? && deleting.None?
      ensures notification == Notification(false, "", "success")
    {
      jobs := fetched;
      editing := None;
      deleting := None;
      notification := Notification(false, "", "success");
    }

    /** `handleEdit`. */
    method OpenEdit(job: UiJob)
      modifies this
      ensures editing == Some(job)
      ensures jobs == old(jobs) && deleting == old(deleting) && notification == old(notification)
    {
      editing := Some(job);
    }

    /** `handleDelete`. */
    method OpenDelete(job: UiJob)
      modifies this
      ensures deleting == Some(job)
      ensures jobs == old(jobs) && editing == old(editing) && notification == old(notification)
    {
      deleting := Some(job);
    }

    /** `handleEditSubmit`. */
    method EditSubmit(updated: UiJob)
      modifies this
      ensures jobs == ReplaceByUid(old(jobs), updated)
      ensures editing.None? && deleting == old(deleting)
      ensures notification == Notification(true, "Job " + TemplateText(Uid(updated)) + " updated successfully!", "success")
    {
      jobs := ReplaceByUid(jobs, updated);
      editing := None;
      notification := Notification(true, "Job " + TemplateText(Uid(updated)) + " updated successfully!", "success");
    }

    /** `confirmDelete`: without a job in the dialog, reading its UID throws
        and only the failure is reported. */
    method ConfirmDelete()
      modifies this
      ensures old(deleting).None? ==>
        (jobs == old(jobs) && deleting.None? &&
         notification == Notification(true, "Failed to delete job", "error"))
      ensures old(deleting).Some? ==>
        (jobs == RemoveByUid(old(jobs), Uid(old(deleting).value)) && deleting.None? &&
         notification == Notification(true, "Job " + TemplateText(Uid(old(deleting).value)) + " deleted successfully!", "success"))
      ensures editing == old(editing)
    {
      if deleting.None? {
        notification := Notification(true, "Failed to delete job", "error");
        return;
      }
      var uid := Uid(deleting.value);
      jobs := RemoveByUid(jobs, uid);
      deleting := None;
      notification := Notification(true, "Job " + TemplateText(uid) + " deleted successfully!", "success");
    }
  }

  /** The eight column titles both exports start with. */
  const ExportHeaders: seq<string> := [
    "Job ID", "Customer Name", "Mobile Number", "Device Model", "Issue", "Components", "Status", "Completed Date"
  ]

  function Quoted(s: string): string
  {
    "\"" + s + "\""
  }

  /** The eight cells of one CSV line: name, model, issue and components in
      double quotes as template literals print them, the rest as `join`
      prints them. */
  function CsvFields(job: UiJob): seq<string>
  {
    [ JoinedText(Cell(job, "uid")),
      Quoted(TemplateText(Cell(job, "customerName"))),
      JoinedText(Cell(job, "mobileNumber")),
      Quoted(TemplateText(Cell(job, "mobileModel"))),
      Quoted(TemplateText(Cell(job, "issue"))),
      Quoted(OrElse(Cell(job, "components"), "")),
      JoinedText(Cell(job, "status")),
      OrElse(Cell(job, "completionDate"), "") ]
  }

  function CsvLines(jobs: seq<UiJob>): seq<string>
  {
    seq(|jobs|, i requires 0 <= i < |jobs| => Join(CsvFields(jobs[i]), ","))
  }

  /** `exportToCSV`'s content. */
  function Csv(jobs: seq<UiJob>): string
  {
    Join([Join(ExportHeaders, ",")] + CsvLines(jobs), "\n")
  }

  /** No value of the job holds the character. */
  predicate Avoids(job: UiJob, c: char)
  {
    forall k | k in job :: c !in job[k]
  }

  lemma {:induction false} JoinAvoids(xs: seq<string>, sep: string, c: char)
    requires c !in sep && forall i | 0 <= i < |xs| :: c !in xs[i]
    ensures c !in Join(xs, sep)
    decreases |xs|
  {
    if |xs| > 1 {
      JoinAvoids(xs[1..], sep, c);
    }
  }

  /** A cell as `join` prints it, or defaulted to empty, keeps the values'
      characters, and a missing cell prints as the empty string. */
  lemma BareCellAvoids(job: UiJob, field: string, c: char)
    requires Avoids(job, c)
    ensures c !in JoinedText(Cell(job, field))
    ensures c !in OrElse(Cell(job, field), "")
  {
  }

  /** A quoted cell adds only quotes, and a missing one prints `undefined`. */
  lemma QuotedCellAvoids(job: UiJob, field: string, c: char)
    requires Avoids(job, c) && c != '"' && !('a' <= c <= 'z')
    ensures c !in Quoted(TemplateText(Cell(job, field)))
    ensures c !in Quoted(OrElse(Cell(job, field), ""))
  {
    var t := TemplateText(Cell(job, field));
    if field !in job {
      assert forall i | 0 <= i < |t| :: 'a' <= t[i] <= 'z';
    }
    assert Quoted(t) == ['"'] + t + ['"'];
  }

  lemma CsvFieldsAvoid(job: UiJob, c: char)
    requires Avoids(job, c) && c != '"' && !('a' <= c <= 'z')
    ensures forall i | 0 <= i < |CsvFields(job)| :: c !in CsvFields(job)[i]
  {
    BareCellAvoids(job, "uid", c);
    QuotedCellAvoids(job, "customerName", c);
    BareCellAvoids(job, "mobileNumber", c);
    QuotedCellAvoids(job, "mobileModel", c);
    QuotedCellAvoids(job, "issue", c);
    QuotedCellAvoids(job, "components", c);
    BareCellAvoids(job, "status", c);
    BareCellAvoids(job, "completionDate", c);
  }

  /** Letters and spaces only, as the column titles are. */
  predicate TitleText(h: string)
  {
    forall k | 0 <= k < |h| :: h[k] == ' ' || 'A' <= h[k] <= 'Z' || 'a' <= h[k] <= 'z'
  }

  lemma TitleAvoids(h: string, c: char)
    requires TitleText(h) && (c == '\n' || c == '\t' || c == ',')
    ensures c !in h
  {
  }

  lemma HeadersAvoid(c: char)
    requires c == '\n' || c == '\t' || c == ','
    ensures forall i | 0 <= i < |ExportHeaders| :: c !in ExportHeaders[i]
  {
    forall i | 0 <= i < |ExportHeaders| ensures c !in ExportHeaders[i] {
      assert TitleText(ExportHeaders[i]);
      TitleAvoids(ExportHeaders[i], c);
    }
  }

  /** When no value holds a line break, the CSV splits on `\n` into the
      header line and then exactly one line per job, in order, with no
      empty line after the last. */
  lemma CsvLineStructure(jobs: seq<UiJob>)
    requires forall i | 0 <= i < |jobs| :: Avoids(jobs[i], '\n')
    ensures Split(Csv(jobs), '\n') == [Join(ExportHeaders, ",")] + CsvLines(jobs)
    ensures |Split(Csv(jobs), '\n')| == |jobs| + 1
  {
    var lines := [Join(ExportHeaders, ",")] + CsvLines(jobs);
    HeaderLinesAvoid();
    forall i | 0 <= i < |jobs| ensures '\n' !in CsvLines(jobs)[i] {
      CsvFieldsAvoid(jobs[i], '\n');
      JoinAvoids(CsvFields(jobs[i]), ",", '\n');
    }
    assert forall i | 0 <= i < |lines| :: '\n' !in lines[i] by {
      forall i | 0 <= i < |lines| ensures '\n' !in lines[i] {
        if i > 0 { assert lines[i] == CsvLines(jobs)[i - 1]; }
      }
    }
    SplitJoin(lines, '\n');
  }

  /** When no value holds a comma, a CSV line splits on `,` into its eight
      cells: UID, mobile number, status and completion date bare, the other
      four in double quotes, and a missing components or completion date as
      the empty string. */
  lemma CsvLineCells(job: UiJob)
    requires Avoids(job, ',')
    ensures Split(Join(CsvFields(job), ","), ',') == [
      JoinedText(Cell(job, "uid")),
      "\"" + TemplateText(Cell(job, "customerName")) + "\"",
      JoinedText(Cell(job, "mobileNumber")),
      "\"" + TemplateText(Cell(job, "mobileModel")) + "\"",
      "\"" + TemplateText(Cell(job, "issue")) + "\"",
      "\"" + OrElse(Cell(job, "components"), "") + "\"",
      JoinedText(Cell(job, "status")),
      OrElse(Cell(job, "completionDate"), "") ]
  {
    CsvFieldsAvoid(job, ',');
    SplitJoin(CsvFields(job), ',');
  }

  /** The eight cells of one TSV line, all as `join` prints them. */
  function TsvFields(job: UiJob): seq<string>
  {
    [ JoinedText(Cell(job, "uid")),
      JoinedText(Cell(job, "customerName")),
      JoinedText(Cell(job, "mobileNumber")),
      JoinedText(Cell(job, "mobileModel")),
      JoinedText(Cell(job, "issue")),
      OrElse(Cell(job, "components"), ""),
      JoinedText(Cell(job, "status")),
      OrElse(Cell(job, "completionDate"), "") ]
  }

  /** The header line and the job lines of the TSV, before line breaks. */
  function TsvTable(jobs: seq<UiJob>): (r: seq<string>)
    ensures |r| == |jobs| + 1
  {
    [Join(ExportHeaders, "\t")] + seq(|jobs|, i requires 0 <= i < |jobs| => Join(TsvFields(jobs[i]), "\t"))
  }

  /** Each line followed by its own line break. */
  function Terminated(lines: seq<string>): (r: seq<string>)
    ensures |r| == |lines|
  {
    seq(|lines|, i requires 0 <= i < |lines| => lines[i] + "\n")
  }

  /** `exportToExcel`'s content. */
  function TsvDocument(jobs: seq<UiJob>): string
  {
    Concat(Terminated(TsvTable(jobs)))
  }

  /** The loop of `exportToExcel`: the header line, then one line per job. */
  method ExportTsv(jobs: seq<UiJob>) returns (content: string)
    ensures content == TsvDocument(jobs)
  {
    content := Join(ExportHeaders, "\t") + "\n";
    TsvStart(content);
    var i := 0;
    while i < |jobs|
      invariant 0 <= i <= |jobs|
      invariant content == TsvDocument(jobs[..i])
    {
      TsvStep(jobs, i);
      content := content + (Join(TsvFields(jobs[i]), "\t") + "\n");
      i := i + 1;
    }
    assert jobs[..i] == jobs;
  }

  lemma TsvStart(header: string)
    requires header == Join(ExportHeaders, "\t") + "\n"
    ensures TsvDocument([]) == header
  {
    assert Terminated(TsvTable([])) == [header];
    assert [header][..0] == [];
  }

  lemma TsvStep(jobs: seq<UiJob>, i: nat)
    requires i < |jobs|
    ensures TsvDocument(jobs[..i + 1]) == TsvDocument(jobs[..i]) + (Join(TsvFields(jobs[i]), "\t") + "\n")
  {
    var line := Join(TsvFields(jobs[i]), "\t");
    assert TsvTable(jobs[..i + 1]) == TsvTable(jobs[..i]) + [line];
    var before := Terminated(TsvTable(jobs[..i]));
    assert Terminated(TsvTable(jobs[..i + 1])) == before + [line + "\n"];
    ConcatSnoc(before, line + "\n");
  }

  /** Lines each followed by a break read as the lines joined by breaks
      with an empty last line. */
  lemma {:induction false} TerminatedJoin(lines: seq<string>)
    ensures Concat(Terminated(lines)) == Join(lines + [""], "\n")
    decreases |lines|
  {
    if lines != [] {
      TerminatedJoin(lines[1..]);
      ConcatPart(Terminated(lines), 0);
      assert Terminated(lines)[1..] == Terminated(lines[1..]);
      assert (lines + [""])[1..] == lines[1..] + [""];
    }
  }

  /** A job line of the TSV holds no line break when no value does. */
  lemma TsvRowAvoids(job: UiJob)
    requires Avoids(job, '\n')
    ensures '\n' !in Join(TsvFields(job), "\t")
  {
    BareCellAvoids(job, "uid", '\n');
    BareCellAvoids(job, "customerName", '\n');
    BareCellAvoids(job, "mobileNumber", '\n');
    BareCellAvoids(job, "mobileModel", '\n');
    BareCellAvoids(job, "issue", '\n');
    BareCellAvoids(job, "components", '\n');
    BareCellAvoids(job, "status", '\n');
    BareCellAvoids(job, "completionDate", '\n');
    JoinAvoids(TsvFields(job), "\t", '\n');
  }

  /** The header lines hold no line break. */
  lemma HeaderLinesAvoid()
    ensures '\n' !in Join(ExportHeaders, "\t")
    ensures '\n' !in Join(ExportHeaders, ",")
  {
    HeadersAvoid('\n');
    JoinAvoids(ExportHeaders, "\t", '\n');
    JoinAvoids(ExportHeaders, ",", '\n');
  }

  lemma TsvTableAvoids(jobs: seq<UiJob>)
    requires forall i | 0 <= i < |jobs| :: Avoids(jobs[i], '\n')
    ensures forall i | 0 <= i < |TsvTable(jobs)| :: '\n' !in TsvTable(jobs)[i]
  {
    var lines := seq(|jobs|, i requires 0 <= i < |jobs| => Join(TsvFields(jobs[i]), "\t"));
    HeaderLinesAvoid();
    forall i | 0 <= i < |lines| ensures '\n' !in lines[i] {
      TsvRowAvoids(jobs[i]);
    }
    HeadedAvoid(Join(ExportHeaders, "\t"), lines, '\n');
  }

  lemma HeadedAvoid(header: string, lines: seq<string>, c: char)
    requires c !in header && forall i | 0 <= i < |lines| :: c !in lines[i]
    ensures forall i | 0 <= i < |[header] + lines| :: c !in ([header] + lines)[i]
  {
    forall i | 0 <= i < |[header] + lines| ensures c !in ([header] + lines)[i] {
      if i > 0 {
        assert ([header] + lines)[i] == lines[i - 1];
      }
    }
  }

  /** When no value holds a line break, the TSV splits on `\n` into the
      header line, one line per job, and an empty remainder: every line,
      the last included, ends in a line break. */
  lemma TsvLineStructure(jobs: seq<UiJob>)
    requires forall i | 0 <= i < |jobs| :: Avoids(jobs[i], '\n')
    ensures Split(TsvDocument(jobs), '\n') == TsvTable(jobs) + [""]
    ensures TsvDocument(jobs)[|TsvDocument(jobs)| - 1] == '\n'
  {
    var table := TsvTable(jobs);
    TerminatedJoin(table);
    TsvTableAvoids(jobs);
    SplitJoin(table + [""], '\n');
    var parts := Terminated(table);
    assert Concat(parts) == Concat(parts[..|parts| - 1]) + parts[|parts| - 1];
  }
}
