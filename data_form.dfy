/** The job entry form (frontend/src/components/DataForm.jsx): the two date
    notations the form converts between, the client-side UID, the form state
    and the record it submits. The clock and `Math.random` are parameters. */
module DataForm {
  import opened Wrappers
  import opened Text
  import opened Seqs
  import opened Dates
  import opened Sheets

  /** An element of an array destructured by `const [a, b, c] = ...`, as it
      prints inside a template literal: a missing one is `undefined`. */
  function DatePart(parts: seq<string>, k: nat): string
  {
    if k < |parts| then parts[k] else "undefined"
  }

  /** `convertToInputFormat`: `dd/mm/yyyy` to the `yyyy-mm-dd` a date input
      takes. */
  function ToInputFormat(ddmmyyyy: string): string
  {
    if ddmmyyyy == "" then ""
    else
      var parts := Split(ddmmyyyy, '/');
      DatePart(parts, 2) + "-" + DatePart(parts, 1) + "-" + DatePart(parts, 0)
  }

  /** `convertFromInputFormat`: `yyyy-mm-dd` back to `dd/mm/yyyy`. */
  function FromInputFormat(yyyymmdd: string): string
  {
    if yyyymmdd == "" then ""
    else
      var parts := Split(yyyymmdd, '-');
      DatePart(parts, 2) + "/" + DatePart(parts, 1) + "/" + DatePart(parts, 0)
  }

  /** Three `/`-separated parts are reordered year first and joined by `-`. */
  lemma ToInputOfThree(d: string, m: string, y: string)
    requires '/' !in d && '/' !in m && '/' !in y
    ensures ToInputFormat(d + "/" + m + "/" + y) == y + "-" + m + "-" + d
  {
    SplitThree(d, m, y, '/');
  }

  /** Three `-`-separated parts are reordered day first and joined by `/`. */
  lemma FromInputOfThree(y: string, m: string, d: string)
    requires '-' !in y && '-' !in m && '-' !in d
    ensures FromInputFormat(y + "-" + m + "-" + d) == d + "/" + m + "/" + y
  {
    SplitThree(y, m, d, '-');
  }

  /** A non-empty text without `/` lacks the month and year parts, which
      come out as `undefined`. */
  lemma ToInputMissingParts(s: string)
    requires s != "" && '/' !in s
    ensures ToInputFormat(s) == "undefined-undefined-" + s
  {
    SplitWithoutSeparator(s, '/');
    var parts := Split(s, '/');
    assert parts == [s];
    assert DatePart(parts, 2) == "undefined" && DatePart(parts, 1) == "undefined" && DatePart(parts, 0) == s;
  }

  /** Converting a displayed date to the input notation and back gives it
      again, when no part contains either separator. */
  lemma DisplayInputRoundTrip(d: string, m: string, y: string)
    requires '/' !in d && '/' !in m && '/' !in y
    requires '-' !in d && '-' !in m && '-' !in y
    ensures FromInputFormat(ToInputFormat(d + "/" + m + "/" + y)) == d + "/" + m + "/" + y
  {
    ToInputOfThree(d, m, y);
    FromInputOfThree(y, m, d);
  }

  /** And the other way round. */
  lemma InputDisplayRoundTrip(y: string, m: string, d: string)
    requires '/' !in d && '/' !in m && '/' !in y
    requires '-' !in d && '-' !in m && '-' !in y
    ensures ToInputFormat(FromInputFormat(y + "-" + m + "-" + d)) == y + "-" + m + "-" + d
  {
    FromInputOfThree(y, m, d);
    ToInputOfThree(d, m, y);
  }

  /** `formatDateForDisplay(today)` converts to the padded month and day
      after the year as written, and converts back to itself. */
  lemma DisplayDateToInput(today: Date)
    requires Valid(today)
    ensures ToInputFormat(FormatDDMMYYYY(today)) == NatToString(today.year) + "-" + Pad2(today.month) + "-" + Pad2(today.day)
    ensures FromInputFormat(ToInputFormat(FormatDDMMYYYY(today))) == FormatDDMMYYYY(today)
  {
    Pad2Facts(today.day);
    Pad2Facts(today.month);
    var d, m, y := Pad2(today.day), Pad2(today.month), NatToString(today.year);
    assert AllDigits(d) && AllDigits(m) && AllDigits(y);
    assert '/' !in d && '-' !in d by { assert AllDigits(d); }
    assert '/' !in m && '-' !in m by { assert AllDigits(m); }
    assert '/' !in y && '-' !in y by { assert AllDigits(y); }
    ToInputOfThree(d, m, y);
    DisplayInputRoundTrip(d, m, y);
  }

  /** `generateUID`: `RB`, the last six digits of the millisecond clock and
      `Math.floor(Math.random() * 100)` padded to two digits; `hundredths`
      is that floor. */
  function GenerateUID(now: nat, hundredths: nat): string
    requires hundredths < 100
  {
    "RB" + LastN(NatToString(now), 6) + PadStart(NatToString(hundredths), 2, '0')
  }

  lemma GenerateUIDShape(now: nat, hundredths: nat)
    requires hundredths < 100
    ensures var uid := GenerateUID(now, hundredths);
      && 5 <= |uid| <= 10 && uid[..2] == "RB" && AllDigits(uid[2..])
      && uid[2..|uid| - 2] == LastN(NatToString(now), 6)
      && AllDigits(uid[|uid| - 2..]) && DigitsValue(uid[|uid| - 2..]) == hundredths
  {
    RandomPartFacts(hundredths);
    StampFacts(NatToString(now));
    UidLayout(LastN(NatToString(now), 6), PadStart(NatToString(hundredths), 2, '0'));
  }

  lemma StampFacts(digits: string)
    requires 1 <= |digits| && AllDigits(digits)
    ensures 1 <= |LastN(digits, 6)| <= 6 && AllDigits(LastN(digits, 6))
  {
    AllDigitsSuffix(digits, |digits| - |LastN(digits, 6)|);
  }

  lemma UidLayout(stamp: string, random: string)
    requires 1 <= |stamp| <= 6 && AllDigits(stamp) && |random| == 2 && AllDigits(random)
    ensures var uid := "RB" + stamp + random;
      && 5 <= |uid| <= 10 && uid[..2] == "RB" && AllDigits(uid[2..])
      && uid[2..|uid| - 2] == stamp && uid[|uid| - 2..] == random
  {
    var uid := "RB" + stamp + random;
    assert uid[2..] == stamp + random;
    assert uid[|uid| - 2..] == random;
    assert uid[2..|uid| - 2] == stamp;
  }

  /** The random part is exactly two digits denoting the number drawn. */
  lemma RandomPartFacts(hundredths: nat)
    requires hundredths < 100
    ensures var random := PadStart(NatToString(hundredths), 2, '0');
      |random| == 2 && AllDigits(random) && DigitsValue(random) == hundredths
  {
    if hundredths >= 10 {
      assert |NatToString(hundredths / 10)| == 1;
    }
    PaddedNumberValue(hundredths, 2);
  }

  /** The form state: field name to text. */
  type FormData = map<string, string>

  const FormFields: set<string> := {
    "uid", "customerName", "mobileNumber", "mobileModel", "issue", "customIssue",
    "components", "expectedDate", "entryDate", "status", "totalAmount"
  }

  /** Every field of the form has a value. */
  predicate Complete(form: FormData)
  {
    FormFields <= form.Keys
  }

  /** The value a field takes when there is nothing to show. */
  function FieldDefault(field: string, today: Date): string
  {
    if field == "entryDate" then FormatDDMMYYYY(today)
    else if field == "status" then "Pending"
    else ""
  }

  /** `initialData?.<field> || <default>`. */
  function InitialField(initial: Option<Row>, field: string, today: Date): string
  {
    OrElse(if initial.Some? then Cell(initial.value, field) else None, FieldDefault(field, today))
  }

  /** The form state a new form starts from. */
  function InitialForm(initial: Option<Row>, today: Date): FormData
  {
    map field | field in FormFields :: InitialField(initial, field, today)
  }

  /** The state `handleReset` and the reset after a successful create write. */
  function BlankForm(today: Date): FormData
  {
    map field | field in FormFields :: FieldDefault(field, today)
  }

  /** A new form holds exactly the eleven fields: the record's value where
      it is non-empty, the field's default otherwise. */
  lemma InitialFormFacts(initial: Option<Row>, today: Date, field: string)
    ensures Complete(InitialForm(initial, today))
    ensures field in InitialForm(initial, today) <==> field in FormFields
    ensures field in FormFields && initial.Some? && Truthy(Cell(initial.value, field)) ==>
      InitialForm(initial, today)[field] == initial.value[field]
    ensures field in FormFields && (initial.None? || !Truthy(Cell(initial.value, field))) ==>
      InitialForm(initial, today)[field] == FieldDefault(field, today)
  {
  }

  /** The blank form is the form built without a record: empty fields,
      status `Pending` and today's date as entry date. */
  lemma BlankFormFacts(today: Date)
    ensures BlankForm(today) == InitialForm(None, today)
    ensures BlankForm(today)["status"] == "Pending"
    ensures BlankForm(today)["entryDate"] == FormatDDMMYYYY(today)
    ensures forall field | field in FormFields && field != "status" && field != "entryDate" ::
      BlankForm(today)[field] == ""
  {
    assert "uid" in FormFields;
  }

  lemma BlankFormComplete(today: Date)
    ensures Complete(BlankForm(today))
  {
  }

  /** `handleDateChange`: an empty picker value changes nothing; otherwise
      the field takes the value in `dd/mm/yyyy` notation. */
  function DateChanged(form: FormData, field: string, value: string): FormData
  {
    if value == "" then form else form[field := FromInputFormat(value)]
  }

  /** Picking a date writes only the named field, and picking back the
      input form of the date shown leaves that date in place. */
  lemma DateChangedFacts(form: FormData, field: string, d: string, m: string, y: string, other: string)
    requires '/' !in d && '/' !in m && '/' !in y
    requires '-' !in d && '-' !in m && '-' !in y
    requires other != field
    ensures var changed := DateChanged(form, field, ToInputFormat(d + "/" + m + "/" + y));
      && changed[field] == d + "/" + m + "/" + y
      && (other in changed <==> other in form)
      && (other in form ==> changed[other] == form[other])
  {
    ToInputOfThree(d, m, y);
    DisplayInputRoundTrip(d, m, y);
  }

  /** The record `handleSubmit` hands to `onSubmit`: the custom issue in
      place of `Other`, a generated UID when none was typed, and the
      completion date set exactly when the status is `Completed`. */
  function SubmitData(form: FormData, now: nat, hundredths: nat, today: Date): FormData
    requires Complete(form) && hundredths < 100
  {
    assert "issue" in FormFields && "customIssue" in FormFields;
    assert "uid" in FormFields && "status" in FormFields;
    form["issue" := if form["issue"] == "Other" then form["customIssue"] else form["issue"]]
        ["uid" := if form["uid"] != "" then form["uid"] else GenerateUID(now, hundredths)]
        ["completionDate" := if form["status"] == "Completed" then FormatDDMMYYYY(today) else ""]
  }

  lemma SubmitDataFacts(form: FormData, now: nat, hundredths: nat, today: Date)
    requires Complete(form) && hundredths < 100
    ensures var r := SubmitData(form, now, hundredths, today);
      && r["issue"] == (if form["issue"] == "Other" then form["customIssue"] else form["issue"])
      && (form["uid"] != "" ==> r["uid"] == form["uid"])
      && (form["uid"] == "" ==> r["uid"] == GenerateUID(now, hundredths))
  {
  }

  /** The completion date is today's exactly when the status is `Completed`
      and empty otherwise. */
  lemma SubmitDataCompletion(form: FormData, now: nat, hundredths: nat, today: Date)
    requires Complete(form) && hundredths < 100
    ensures var r := SubmitData(form, now, hundredths, today);
      && (form["status"] == "Completed" <==> r["completionDate"] == FormatDDMMYYYY(today))
      && (form["status"] != "Completed" ==> r["completionDate"] == "")
  {
    assert |FormatDDMMYYYY(today)| >= 2;
  }

  /** The submitted record adds `completionDate` and leaves every other
      field but `issue` and `uid` as the form holds it. */
  lemma SubmitDataKeeps(form: FormData, now: nat, hundredths: nat, today: Date, field: string)
    requires Complete(form) && hundredths < 100
    ensures var r := SubmitData(form, now, hundredths, today);
      && r.Keys == form.Keys + {"completionDate"}
      && (field in form && field != "issue" && field != "uid" && field != "completionDate" ==>
            r[field] == form[field])
  {
  }

  datatype Snackbar = Snackbar(open: bool, message: string, severity: string)

  /** The mounted form component and its state. */
  class JobForm {
    var data: FormData
    var snackbar: Snackbar
    /** Whether the form was opened on an existing record. */
    const editing: bool

    predicate Valid()
      reads this
    {
      Complete(data)
    }

    constructor (initial: Option<Row>, today: Date)
      ensures data == InitialForm(initial, today) && Valid()
      ensures editing == initial.Some? && snackbar == Snackbar(false, "", "success")
    {
      InitialFormFacts(initial, today, "");
      data := InitialForm(initial, today);
      editing := initial.Some?;
      snackbar := Snackbar(false, "", "success");
    }

    /** `handleChange`: one field takes the typed value. */
    method Change(name: string, value: string)
      requires Valid()
      modifies this
      ensures data == old(data)[name := value] && snackbar == old(snackbar)
      ensures Valid()
    {
      data := data[name := value];
    }

    /** `handleDateChange`. */
    method PickDate(field: string, value: string)
      requires Valid()
      modifies this
      ensures data == DateChanged(old(data), field, value) && snackbar == old(snackbar)
      ensures Valid()
    {
      if value != "" {
        data := data[field := FromInputFormat(value)];
      }
    }

    /** `handleSubmit`: `saved` says whether `onSubmit` resolved; a new
        entry form is blanked after a save, with the date read then. */
    method Submit(now: nat, hundredths: nat, today: Date, saved: bool, resetDay: Date) returns (submitted: FormData)
      requires Valid() && hundredths < 100
      modifies this
      ensures submitted == SubmitData(old(data), now, hundredths, today)
      ensures saved ==> snackbar == Snackbar(true, "Job entry saved successfully!", "success")
      ensures saved ==> data == if editing then old(data) else BlankForm(resetDay)
      ensures !saved ==> snackbar == Snackbar(true, "Error saving job entry", "error") && data == old(data)
      ensures Valid()
    {
      submitted := SubmitData(data, now, hundredths, today);
      if saved {
        snackbar := Snackbar(true, "Job entry saved successfully!", "success");
        if !editing {
          BlankFormComplete(resetDay);
          data := BlankForm(resetDay);
        }
      } else {
        snackbar := Snackbar(true, "Error saving job entry", "error");
      }
    }

    /** `handleReset`. */
    method Reset(today: Date)
      modifies this
      ensures data == BlankForm(today) && snackbar == old(snackbar)
      ensures Valid()
    {
      BlankFormComplete(today);
      data := BlankForm(today);
    }
  }
}
