/** The hardened job repository (backend/utils/secureSheetHelper.js): a
    character-stripping sanitiser, a validator driven by a rule table that
    collects every violation, opaque IDs from a timestamp and random bytes,
    duplicate-ID rejection, filtered listing and whitelisted update. It uses
    its own column names (`Job ID`, `Mobile`, ...). */
module SecureSheetHelper {
  import opened Wrappers
  import opened Text
  import opened Seqs
  import opened Dates
  import opened Sheets

  // ----- Request values ----------------------------------------------------

  /** A value of a JSON request body: a string or an integral number. */
  datatype Value = Str(s: string) | Num(n: int)

  /** A request body; a key that is absent reads as `undefined`. */
  type Data = map<string, Value>

  function Get(data: Data, key: string): Option<Value>
  {
    if key in data then Some(data[key]) else None
  }

  /** JavaScript truthiness: `''` and `0` are falsy, as is `undefined`. */
  predicate Truthy(v: Option<Value>)
  {
    match v
    case None => false
    case Some(Str(s)) => s != ""
    case Some(Num(n)) => n != 0
  }

  /** `String(value)`: the text a value converts to. */
  function AsText(v: Value): string
  {
    match v
    case Str(s) => s
    case Num(n) => IntToString(n)
  }

  // ----- Numbers -----------------------------------------------------------

  function Pow10(k: nat): (r: nat)
    ensures r >= 1
  {
    if k == 0 then 1 else 10 * Pow10(k - 1)
  }

  function Signed(negative: bool, x: real): real
  {
    if negative then -x else x
  }

  /** An optional sign and the rest of the text. */
  function SplitSign(t: string): (bool, string)
  {
    if t != [] && t[0] == '-' then (true, t[1..])
    else if t != [] && t[0] == '+' then (false, t[1..])
    else (false, t)
  }

  /** `Number(s)` on the decimal literals: blank text is 0, otherwise the
      trimmed text must be a sign, digits and an optional fraction with at
      least one digit in all; anything else is NaN (`None`). */
  function NumberOf(s: string): Option<real>
  {
    var t := Trim(s);
    if t == "" then Some(0.0)
    else
      var (negative, body) := SplitSign(t);
      var whole := LeadingDigits(body);
      var rest := body[|whole|..];
      if rest == [] then
        if whole == [] then None else Some(Signed(negative, DigitsValue(whole) as real))
      else if rest[0] == '.' && AllDigits(rest[1..]) && (whole != [] || |rest| > 1) then
        var frac := rest[1..];
        Some(Signed(negative, DigitsValue(whole) as real + (DigitsValue(frac) as real) / (Pow10(|frac|) as real)))
      else None
  }

  /** `Number(value)`. */
  function NumberOfValue(v: Value): Option<real>
  {
    match v
    case Str(s) => NumberOf(s)
    case Num(n) => Some(n as real)
  }

  /** The decimal rendering of a number is read back as that number. */
  lemma NumberOfRendered(n: nat)
    ensures NumberOf(NatToString(n)) == Some(n as real)
  {
    var s := NatToString(n);
    assert forall k | 0 <= k < |s| :: !IsJsWhitespace(s[k]);
    TrimOfDigits(s);
    LeadingDigitsAll(s);
    assert s[|s|..] == [];
  }

  lemma TrimOfDigits(s: string)
    requires 1 <= |s| && AllDigits(s)
    ensures Trim(s) == s
  {
    assert !IsJsWhitespace(s[0]);
    assert TrimStart(s) == s;
    assert !IsJsWhitespace(s[|s| - 1]);
  }

  /** `parseFloat(cell) || 0` on decimal text: the longest decimal prefix
      after leading white space, and 0 when there is none. */
  function AmountOf(cell: Option<string>): real
  {
    if cell.None? then 0.0
    else
      var (negative, body) := SplitSign(TrimStart(cell.value));
      var whole := LeadingDigits(body);
      var rest := body[|whole|..];
      var frac := if rest != [] && rest[0] == '.' then LeadingDigits(rest[1..]) else [];
      if whole == [] && frac == [] then 0.0
      else Signed(negative, DigitsValue(whole) as real + (DigitsValue(frac) as real) / (Pow10(|frac|) as real))
  }

  // ----- The rule table ----------------------------------------------------

  datatype Kind = StringKind | NumberKind

  /** The two regular expressions of the schema. */
  datatype Pattern =
    | UpperAlnum   // ^[A-Z0-9]+$
    | TenDigits    // ^\d{10}$

  predicate IsUpperAlnum(c: char) { 'A' <= c <= 'Z' || IsDigit(c) }

  /** `pattern.test(text)` (the patterns are anchored at both ends). */
  predicate Matches(p: Pattern, text: string)
  {
    match p
    case UpperAlnum => |text| >= 1 && forall i | 0 <= i < |text| :: IsUpperAlnum(text[i])
    case TenDigits => |text| == 10 && AllDigits(text)
  }

  datatype Rule = Rule(
    field: string, required: bool, kind: Kind, maxLength: Option<nat>,
    pattern: Option<Pattern>, choices: Option<seq<string>>, min: Option<int>, max: Option<int>)

  const Statuses: seq<string> := ["Pending", "In Progress", "Completed", "Delivered"]

  /** `jobSchema`, in its declaration order. */
  const Schema: seq<Rule> := [
    Rule("jobId", false, StringKind, Some(20), Some(UpperAlnum), None, None, None),
    Rule("customerName", true, StringKind, Some(100), None, None, None, None),
    Rule("mobile", true, StringKind, None, Some(TenDigits), None, None, None),
    Rule("deviceModel", true, StringKind, Some(50), None, None, None, None),
    Rule("issue", true, StringKind, Some(500), None, None, None, None),
    Rule("status", false, StringKind, None, None, Some(Statuses), None, None),
    Rule("totalAmount", false, NumberKind, None, None, None, Some(0), Some(999999))]

  function TypeErrors(r: Rule, v: Value): seq<string>
  {
    if r.kind == StringKind && !v.Str? then [r.field + " must be a string"]
    else if r.kind == NumberKind && NumberOfValue(v).None? then [r.field + " must be a valid number"]
    else []
  }

  /** `value.length > maxLength`; a number has no length, so never exceeds. */
  function LengthErrors(r: Rule, v: Value): seq<string>
  {
    if r.maxLength.Some? && r.maxLength.value != 0 && v.Str? && |v.s| > r.maxLength.value then
      [r.field + " exceeds maximum length of " + NatToString(r.maxLength.value)]
    else []
  }

  function PatternErrors(r: Rule, v: Value): seq<string>
  {
    if r.pattern.Some? && !Matches(r.pattern.value, AsText(v)) then [r.field + " format is invalid"] else []
  }

  function ChoiceErrors(r: Rule, v: Value): seq<string>
  {
    if r.choices.Some? && !(v.Str? && v.s in r.choices.value) then
      [r.field + " must be one of: " + Join(r.choices.value, ", ")]
    else []
  }

  /** The range checks; NaN compares false, so it never violates a bound. */
  function RangeErrors(r: Rule, v: Value): seq<string>
  {
    var x := NumberOfValue(v);
    (if r.min.Some? && x.Some? && x.value < r.min.value as real then [r.field + " must be at least " + IntToString(r.min.value)] else [])
    + (if r.max.Some? && x.Some? && x.value > r.max.value as real then [r.field + " exceeds maximum value of " + IntToString(r.max.value)] else [])
  }

  /** One schema field's messages, in the order the validator adds them. */
  function FieldErrors(r: Rule, value: Option<Value>): seq<string>
  {
    if r.required && !Truthy(value) then [r.field + " is required"]
    else if !Truthy(value) then []
    else
      var v := value.value;
      TypeErrors(r, v) + LengthErrors(r, v) + PatternErrors(r, v) + ChoiceErrors(r, v) + RangeErrors(r, v)
  }

  /** Each schema field's messages, in schema order. */
  function FieldErrorLists(data: Data): (lists: seq<seq<string>>)
    ensures |lists| == |Schema|
  {
    seq(|Schema|, i requires 0 <= i < |Schema| => FieldErrors(Schema[i], Get(data, Schema[i].field)))
  }

  /** `validateJobData(data)`: every field's messages, collected in schema
      order without stopping at the first violation. */
  function ValidationErrors(data: Data): seq<string>
  {
    Concat(FieldErrorLists(data))
  }

  /** A record is valid exactly when no schema field reports a message. */
  lemma ValidIffNoFieldErrors(data: Data)
    ensures ValidationErrors(data) == [] <==>
      forall i | 0 <= i < |Schema| :: FieldErrors(Schema[i], Get(data, Schema[i].field)) == []
  {
    var lists := FieldErrorLists(data);
    ConcatEmpty(lists);
    forall i | 0 <= i < |Schema| ensures lists[i] == FieldErrors(Schema[i], Get(data, Schema[i].field)) {
    }
  }

  /** Every field's messages appear in the result, after those of the fields
      before it in the schema and before those after it. */
  lemma ErrorsCollected(data: Data, i: nat)
    requires i < |Schema|
    ensures var lists := FieldErrorLists(data);
      ValidationErrors(data) == Concat(lists[..i]) + FieldErrors(Schema[i], Get(data, Schema[i].field)) + Concat(lists[i + 1..])
  {
    ConcatPart(FieldErrorLists(data), i);
  }

  /** A required field that is absent or empty yields the single message
      `<field> is required` and nothing else. */
  lemma RequiredMissing(r: Rule, value: Option<Value>)
    requires r.required && !Truthy(value)
    ensures FieldErrors(r, value) == [r.field + " is required"]
  {
  }

  /** An optional field that is absent, empty or zero is not checked. */
  lemma FalsySkipsChecks(r: Rule, value: Option<Value>)
    requires !r.required && !Truthy(value)
    ensures FieldErrors(r, value) == []
  {
  }

  /** `mobile` accepts exactly a string of ten digits. */
  lemma MobileRule(s: string)
    ensures FieldErrors(Schema[2], Some(Str(s))) == [] <==> |s| == 10 && AllDigits(s)
  {
  }

  /** A non-empty `jobId` string is accepted exactly when it has at most 20
      characters, all upper-case letters or digits. */
  lemma JobIdRule(s: string)
    requires s != ""
    ensures FieldErrors(Schema[0], Some(Str(s))) == [] <==>
      |s| <= 20 && forall i | 0 <= i < |s| :: IsUpperAlnum(s[i])
  {
  }

  /** The list of statuses as the rejection message prints it. */
  lemma StatusListText()
    ensures Join(Statuses, ", ") == "Pending" + ", " + "In Progress" + ", " + "Completed" + ", " + "Delivered"
  {
    assert Statuses[1..] == ["In Progress", "Completed", "Delivered"];
    JoinThree("In Progress", "Completed", "Delivered", ", ");
  }

  /** A non-empty `status` string is accepted exactly when it is one of the
      four statuses, and a rejected one gets the message listing them. */
  lemma StatusRule(s: string)
    requires s != ""
    ensures FieldErrors(Schema[5], Some(Str(s))) == [] <==> s in Statuses
    ensures s !in Statuses ==>
      FieldErrors(Schema[5], Some(Str(s))) ==
        ["status" + " must be one of: " + ("Pending" + ", " + "In Progress" + ", " + "Completed" + ", " + "Delivered")]
  {
    StatusListText();
  }

  /** A non-zero numeric `totalAmount` is accepted exactly when it lies in
      [0, 999999]. */
  lemma TotalAmountRule(n: int)
    requires n != 0
    ensures FieldErrors(Schema[6], Some(Num(n))) == [] <==> 0 <= n <= 999999
  {
  }

  /** A `totalAmount` string is accepted exactly when it is blank or reads as
      a number in [0, 999999]. */
  lemma TotalAmountTextRule(s: string)
    requires s != ""
    ensures FieldErrors(Schema[6], Some(Str(s))) == [] <==>
      NumberOf(s).Some? && 0.0 <= NumberOf(s).value <= 999999.0
  {
  }

  /** `validateJobData`: one pass over the schema that appends each field's
      messages. */
  method ValidateJobData(data: Data) returns (errors: seq<string>)
    ensures errors == ValidationErrors(data)
    ensures errors == [] <==> forall i | 0 <= i < |Schema| :: FieldErrors(Schema[i], Get(data, Schema[i].field)) == []
  {
    ghost var lists := FieldErrorLists(data);
    errors := [];
    var i := 0;
    while i < |Schema|
      invariant 0 <= i <= |Schema|
      invariant errors == Concat(lists[..i])
    {
      var rules := Schema[i];
      var value := Get(data, rules.field);
      var found: seq<string> := [];
      if rules.required && !Truthy(value) {
        found := [rules.field + " is required"];
      } else if Truthy(value) {
        var v := value.value;
        found := TypeErrors(rules, v) + LengthErrors(rules, v) + PatternErrors(rules, v)
          + ChoiceErrors(rules, v) + RangeErrors(rules, v);
      }
      ValidationStep(data, i, found, errors);
      errors := errors + found;
      i := i + 1;
    }
    assert lists[..i] == lists;
    ValidIffNoFieldErrors(data);
  }

  /** One pass of the validator's loop appends the field's own messages. */
  lemma ValidationStep(data: Data, i: nat, found: seq<string>, errors: seq<string>)
    requires i < |Schema| && found == FieldErrors(Schema[i], Get(data, Schema[i].field))
    requires errors == Concat(FieldErrorLists(data)[..i])
    ensures errors + found == Concat(FieldErrorLists(data)[..i + 1])
  {
    var lists := FieldErrorLists(data);
    assert lists[..i + 1] == lists[..i] + [lists[i]];
    ConcatSnoc(lists[..i], lists[i]);
  }

  function ValidationFailure(errors: seq<string>): string
  {
    "Validation failed: " + Join(errors, ", ")
  }

  // ----- Sanitising --------------------------------------------------------

  const Stripped: set<char> := {'<', '>', '"', '\'', '&'}

  /** `value.replace(/[<>"'&]/g, '').trim()`. */
  function SanitizeString(s: string): string
  {
    Trim(Remove(s, Stripped))
  }

  function SanitizeValue(v: Value): Value
  {
    if v.Str? then Str(SanitizeString(v.s)) else v
  }

  /** `sanitizeInput(data)`: the same keys, strings cleaned, numbers kept. */
  function Sanitize(data: Data): Data
  {
    map k | k in data :: SanitizeValue(data[k])
  }

  /** A sanitised string has none of the stripped characters, no white space
      at either end, and only characters of the input. It is what is left of
      the input without the stripped characters once white space is cut from
      both ends, so every other character of the input survives, as often as
      it occurs. */
  lemma SanitizeStringFacts(s: string)
    ensures var r := SanitizeString(s);
      IsTrimmed(r) && (forall c | c in r :: c in s && c !in Stripped)
    ensures exists i, j | 0 <= i <= j <= |Remove(s, Stripped)| ::
      SanitizeString(s) == Remove(s, Stripped)[i..j] && SpaceOutside(Remove(s, Stripped), i, j)
    ensures forall c | c !in Stripped && !IsJsWhitespace(c) :: multiset(SanitizeString(s))[c] == multiset(s)[c]
  {
    var t := Remove(s, Stripped);
    assert SanitizeString(s) == Trim(t);
    TrimFacts(t);
    TrimCount(t);
    RemoveFacts(s, Stripped);
    var i, j :| 0 <= i <= j <= |t| && Trim(t) == t[i..j] && SpaceOutside(t, i, j);
    assert SanitizeString(s) == t[i..j] && SpaceOutside(t, i, j);
    forall c | c !in Stripped && !IsJsWhitespace(c)
      ensures multiset(SanitizeString(s))[c] == multiset(s)[c]
    {
      assert multiset(Trim(t))[c] == multiset(t)[c];
    }
  }

  /** Sanitising twice is the same as sanitising once. */
  lemma SanitizeStringIdempotent(s: string)
    ensures SanitizeString(SanitizeString(s)) == SanitizeString(s)
  {
    var r := SanitizeString(s);
    SanitizeStringFacts(s);
    RemoveAbsent(r, Stripped);
    TrimOfTrimmed(r);
  }

  lemma SanitizeIdempotent(data: Data)
    ensures Sanitize(Sanitize(data)) == Sanitize(data)
  {
    forall k | k in data ensures SanitizeValue(SanitizeValue(data[k])) == SanitizeValue(data[k]) {
      if data[k].Str? {
        SanitizeStringIdempotent(data[k].s);
      }
    }
  }

  /** Sanitising keeps the keys and leaves numbers as they are. */
  lemma SanitizeShape(data: Data)
    ensures Sanitize(data).Keys == data.Keys
    ensures forall k | k in data && data[k].Num? :: Sanitize(data)[k] == data[k]
    ensures forall k | k in data && data[k].Str? :: Sanitize(data)[k] == Str(SanitizeString(data[k].s))
  {
  }

  /** The loop of `sanitizeInput`, one entry at a time into a fresh object. */
  method SanitizeInput(data: Data) returns (sanitized: Data)
    ensures sanitized == Sanitize(data)
  {
    sanitized := map[];
    var pending := data.Keys;
    while pending != {}
      invariant pending <= data.Keys
      invariant sanitized.Keys == data.Keys - pending
      invariant forall k | k in sanitized :: sanitized[k] == SanitizeValue(data[k])
      decreases |pending|
    {
      var key :| key in pending;
      var value := data[key];
      if value.Str? {
        sanitized := sanitized[key := Str(Trim(Remove(value.s, Stripped)))];
      } else {
        sanitized := sanitized[key := value];
      }
      pending := pending - {key};
    }
  }

  // ----- Opaque IDs --------------------------------------------------------

  function Base36Digit(d: nat): char
    requires d < 36
  {
    if d < 10 then ('0' as int + d) as char else ('a' as int + d - 10) as char
  }

  predicate IsBase36Digit(c: char) { IsDigit(c) || 'a' <= c <= 'z' }

  function Base36Value(c: char): nat
    requires IsBase36Digit(c)
  {
    if IsDigit(c) then c as int - '0' as int else c as int - 'a' as int + 10
  }

  /** `n.toString(36)`. */
  function ToBase36(n: nat): (r: string)
    ensures |r| >= 1 && forall i | 0 <= i < |r| :: IsBase36Digit(r[i])
    decreases n
  {
    if n < 36 then [Base36Digit(n)] else ToBase36(n / 36) + [Base36Digit(n % 36)]
  }

  function Base36Number(s: string): nat
    requires forall i | 0 <= i < |s| :: IsBase36Digit(s[i])
    decreases |s|
  {
    if s == [] then 0 else Base36Number(s[..|s| - 1]) * 36 + Base36Value(s[|s| - 1])
  }

  /** The base-36 rendering denotes the timestamp it came from. */
  lemma {:induction false} ToBase36Value(n: nat)
    ensures Base36Number(ToBase36(n)) == n
    decreases n
  {
    if n >= 36 {
      ToBase36Value(n / 36);
      var r := ToBase36(n);
      assert r[..|r| - 1] == ToBase36(n / 36);
    }
  }

  /** The upper-case hex digit for `d`. */
  function HexDigit(d: nat): (c: char)
    requires d < 16
    ensures IsUpperHexDigit(c)
  {
    if d < 10 then ('0' as int + d) as char else ('A' as int + d - 10) as char
  }

  /** `bytes.toString('hex').toUpperCase()`: two digits per byte. */
  function UpperHex(bytes: seq<bv8>): (r: string)
    ensures |r| == 2 * |bytes|
  {
    if bytes == [] then [] else [HexDigit(bytes[0] as nat / 16), HexDigit(bytes[0] as nat % 16)] + UpperHex(bytes[1..])
  }

  /** Byte `i` is written as its high and then its low hex digit, at
      positions `2 * i` and `2 * i + 1`. */
  lemma {:induction false} UpperHexDigits(bytes: seq<bv8>, i: nat)
    requires i < |bytes|
    ensures UpperHex(bytes)[2 * i] == HexDigit(bytes[i] as nat / 16)
    ensures UpperHex(bytes)[2 * i + 1] == HexDigit(bytes[i] as nat % 16)
    decreases i
  {
    if i > 0 {
      UpperHexDigits(bytes[1..], i - 1);
    }
  }

  predicate IsUpperHexDigit(c: char)
  {
    '0' <= c <= '9' || 'A' <= c <= 'F'
  }

  /** Every character of the hex text is a digit or an upper-case letter
      `A` to `F`. */
  lemma {:induction false} UpperHexAlphabet(bytes: seq<bv8>)
    ensures forall k | 0 <= k < |UpperHex(bytes)| :: IsUpperHexDigit(UpperHex(bytes)[k])
    decreases |bytes|
  {
    if bytes != [] {
      UpperHexAlphabet(bytes[1..]);
    }
  }

  /** `generateJobId`: `RB`, the timestamp in base 36 and three random bytes
      in hex, cut to twelve characters. */
  function GenerateSecureId(now: nat, random: seq<bv8>): string
  {
    var full := "RB" + ToBase36(now) + UpperHex(random);
    if |full| <= 12 then full else full[..12]
  }

  /** A generated ID starts with `RB`, has at most 12 characters, and with
      three random bytes has at least 9. */
  lemma GenerateSecureIdShape(now: nat, random: seq<bv8>)
    requires |random| == 3
    ensures var id := GenerateSecureId(now, random);
      9 <= |id| <= 12 && id[..2] == "RB"
  {
  }

  // ----- Records -----------------------------------------------------------

  /** A job as `secureGetJobs` lists it. */
  datatype SecureJob = SecureJob(
    jobId: string, customerName: string, mobile: string, deviceModel: string, issue: string,
    status: string, entryDate: string, totalAmount: real, components: string, lastModified: string)

  function RowToSecureJob(row: Row): SecureJob
  {
    SecureJob(
      jobId := OrElse(Cell(row, "Job ID"), ""),
      customerName := OrElse(Cell(row, "Customer Name"), ""),
      mobile := OrElse(Cell(row, "Mobile"), ""),
      deviceModel := OrElse(Cell(row, "Device Model"), ""),
      issue := OrElse(Cell(row, "Issue"), ""),
      status := OrElse(Cell(row, "Status"), "Pending"),
      entryDate := OrElse(Cell(row, "Entry Date"), ""),
      totalAmount := AmountOf(Cell(row, "Total Amount")),
      components := OrElse(Cell(row, "Components"), ""),
      lastModified := OrElse(Cell(row, "Last Modified"), ""))
  }

  function SecureJobs(rows: seq<Row>): (jobs: seq<SecureJob>)
    ensures |jobs| == |rows| && forall i | 0 <= i < |rows| :: jobs[i] == RowToSecureJob(rows[i])
  {
    seq(|rows|, i requires 0 <= i < |rows| => RowToSecureJob(rows[i]))
  }

  /** The query filters; each is applied only when non-empty. */
  datatype Filters = Filters(jobId: Option<string>, mobile: Option<string>)

  function JobIdFilter(q: string): SecureJob -> bool
  {
    (job: SecureJob) => Contains(ToLower(job.jobId), ToLower(SanitizeString(q)))
  }

  function MobileFilter(q: string): SecureJob -> bool
  {
    (job: SecureJob) => Contains(job.mobile, KeepDigits(q))
  }

  /** Whether a job passes both filters. */
  predicate PassesFilters(job: SecureJob, f: Filters)
  {
    (Sheets.Truthy(f.jobId) ==> Contains(ToLower(job.jobId), ToLower(SanitizeString(f.jobId.value)))) &&
    (Sheets.Truthy(f.mobile) ==> Contains(job.mobile, KeepDigits(f.mobile.value)))
  }

  /** The listing after both filters: the jobs of the tab, in row order, that
      pass every filter given. */
  function SecureListing(rows: seq<Row>, f: Filters): (jobs: seq<SecureJob>)
    ensures IsSubsequence(jobs, SecureJobs(rows))
    ensures forall j :: j in jobs <==> j in SecureJobs(rows) && PassesFilters(j, f)
    ensures forall j :: multiset(jobs)[j] == if PassesFilters(j, f) then multiset(SecureJobs(rows))[j] else 0
  {
    var all := SecureJobs(rows);
    var byId := FilterWhen(all, JobIdFilter(OrElse(f.jobId, "")), Sheets.Truthy(f.jobId));
    var byMobile := FilterWhen(byId, MobileFilter(OrElse(f.mobile, "")), Sheets.Truthy(f.mobile));
    SubsequenceTransitive(byMobile, byId, all);
    byMobile
  }

  /** One optional filter step: `s` narrowed by `p` when `on`, else `s`. */
  function FilterWhen(s: seq<SecureJob>, p: SecureJob -> bool, on: bool): (r: seq<SecureJob>)
    ensures IsSubsequence(r, s)
    ensures forall j :: j in r <==> j in s && (on ==> p(j))
    ensures forall j :: multiset(r)[j] == if on && !p(j) then 0 else multiset(s)[j]
  {
    FilterFacts(s, p);
    FilterCount(s, p);
    SubsequenceReflexive(s);
    if on then Filter(s, p) else s
  }

  // ----- Add and update ----------------------------------------------------

  /** The cell text `addRow` and `set` store for a value. */
  function CellOf(v: Value): string { AsText(v) }

  /** A column set from a value that may be `undefined`. */
  function Put(row: Row, column: string, v: Option<Value>): Row
  {
    if v.Some? then row[column := CellOf(v.value)] else row
  }

  function ValueOr(v: Option<Value>, fallback: Value): Value
  {
    if Truthy(v) then v.value else fallback
  }

  /** The row `secureAddJob` stores for sanitised, valid data. */
  function SecureRow(data: Data, jobId: string, entryDate: string, lastModified: string): Row
  {
    var r := map["Job ID" := jobId];
    var r := Put(r, "Customer Name", Get(data, "customerName"));
    var r := Put(r, "Mobile", Get(data, "mobile"));
    var r := Put(r, "Device Model", Get(data, "deviceModel"));
    var r := Put(r, "Issue", Get(data, "issue"));
    r["Status" := CellOf(ValueOr(Get(data, "status"), Str("Pending")))]
     ["Entry Date" := entryDate]
     ["Total Amount" := CellOf(ValueOr(Get(data, "totalAmount"), Num(0)))]
     ["Components" := CellOf(ValueOr(Get(data, "components"), Str("")))]
     ["Last Modified" := lastModified]
  }

  /** The ID a new job gets: the sanitised `jobId` when given, otherwise a
      generated one. */
  function NewJobId(data: Data, now: nat, random: seq<bv8>): string
  {
    var v := Get(data, "jobId");
    if Truthy(v) then AsText(v.value) else GenerateSecureId(now, random)
  }

  /** What `secureAddJob` does: the failure message, or the new ID and the
      row to append. */
  function AddOutcome(rows: seq<Row>, jobData: Data, now: nat, random: seq<bv8>, today: Date, lastModified: string): Result<(string, Row), string>
  {
    var data := Sanitize(jobData);
    var errors := ValidationErrors(data);
    if errors != [] then Err(ValidationFailure(errors))
    else
      var id := NewJobId(data, now, random);
      if FindRow(rows, "Job ID", id).Some? then Err("Job ID already exists")
      else Ok((id, SecureRow(data, id, FormatDDMMYYYY(today), lastModified)))
  }

  /** An ID already in the tab is rejected. */
  lemma AddRejectsDuplicate(rows: seq<Row>, jobData: Data, now: nat, random: seq<bv8>, today: Date, lastModified: string, i: nat)
    requires ValidationErrors(Sanitize(jobData)) == []
    requires i < |rows| && Cell(rows[i], "Job ID") == Some(NewJobId(Sanitize(jobData), now, random))
    ensures AddOutcome(rows, jobData, now, random, today, lastModified) == Err("Job ID already exists")
  {
  }

  /** An accepted job's ID is new to the tab, and its row carries that ID,
      today's entry date whatever the request said, a status defaulting to
      `Pending`, and the modification time. */
  lemma AddedRowFacts(rows: seq<Row>, jobData: Data, now: nat, random: seq<bv8>, today: Date, lastModified: string)
    requires AddOutcome(rows, jobData, now, random, today, lastModified).Ok?
    ensures var (id, row) := AddOutcome(rows, jobData, now, random, today, lastModified).value;
      && (forall j | 0 <= j < |rows| :: Cell(rows[j], "Job ID") != Some(id))
      && Cell(row, "Job ID") == Some(id)
      && Cell(row, "Entry Date") == Some(FormatDDMMYYYY(today))
      && Cell(row, "Last Modified") == Some(lastModified)
      && (!Truthy(Get(jobData, "status")) ==> Cell(row, "Status") == Some("Pending"))
  {
    var data := Sanitize(jobData);
    var id := NewJobId(data, now, random);
    assert AddOutcome(rows, jobData, now, random, today, lastModified).value ==
      (id, SecureRow(data, id, FormatDDMMYYYY(today), lastModified));
    SecureRowCells(data, id, FormatDDMMYYYY(today), lastModified);
    SanitizeKeepsFalsy(jobData, "status");
  }

  /** The cells of a new row that do not depend on the request. */
  lemma SecureRowCells(data: Data, jobId: string, entryDate: string, lastModified: string)
    ensures var row := SecureRow(data, jobId, entryDate, lastModified);
      && Cell(row, "Job ID") == Some(jobId)
      && Cell(row, "Entry Date") == Some(entryDate)
      && Cell(row, "Last Modified") == Some(lastModified)
      && (!Truthy(Get(data, "status")) ==> Cell(row, "Status") == Some("Pending"))
  {
    assert "Job ID" != "Status" && "Job ID" != "Entry Date" && "Job ID" != "Total Amount";
    assert "Job ID" != "Components" && "Job ID" != "Last Modified";
    assert "Entry Date" != "Total Amount" && "Entry Date" != "Components" && "Entry Date" != "Last Modified";
    assert "Status" != "Entry Date" && "Status" != "Total Amount" && "Status" != "Components" && "Status" != "Last Modified";
  }

  /** A value that is falsy before sanitising is falsy after it. */
  lemma SanitizeKeepsFalsy(data: Data, key: string)
    ensures !Truthy(Get(data, key)) ==> !Truthy(Get(Sanitize(data), key))
  {
    if key in data && data[key] == Str("") {
      assert Remove("", Stripped) == "";
      assert Trim("") == "";
    }
  }

  /** Validation failure appends nothing and reports every message. */
  lemma AddRejectsInvalid(rows: seq<Row>, jobData: Data, now: nat, random: seq<bv8>, today: Date, lastModified: string)
    requires ValidationErrors(Sanitize(jobData)) != []
    ensures AddOutcome(rows, jobData, now, random, today, lastModified) ==
      Err("Validation failed: " + Join(ValidationErrors(Sanitize(jobData)), ", "))
  {
  }

  /** `fieldMapping`: request key to column. */
  const FieldMapping: map<string, string> := map[
    "customerName" := "Customer Name", "mobile" := "Mobile", "deviceModel" := "Device Model",
    "issue" := "Issue", "status" := "Status", "totalAmount" := "Total Amount",
    "components" := "Components"]

  const AllowedFields: seq<string> := ["Customer Name", "Mobile", "Device Model", "Issue", "Status", "Total Amount", "Components"]

  /** The column each mapped key writes, inverted. */
  const ColumnField: map<string, string> := map[
    "Customer Name" := "customerName", "Mobile" := "mobile", "Device Model" := "deviceModel",
    "Issue" := "issue", "Status" := "status", "Total Amount" := "totalAmount",
    "Components" := "components"]

  /** Every mapped column is an allowed one. */
  lemma MappingAllowed()
    ensures forall k | k in FieldMapping :: FieldMapping[k] in AllowedFields
  {
  }

  /** `fieldMapping` is one-to-one: `ColumnField` undoes it. */
  lemma MappingFacts()
    ensures forall k | k in FieldMapping :: FieldMapping[k] in ColumnField && ColumnField[FieldMapping[k]] == k
    ensures forall c | c in ColumnField :: ColumnField[c] in FieldMapping && FieldMapping[ColumnField[c]] == c
  {
  }

  /** A cell after the update: `Last Modified` is the new time, a mapped
      column whose key the request has takes the sanitised value, and any
      other column keeps its cell. */
  function SecurePatchedCell(row: Row, data: Data, lastModified: string, c: string): Option<string>
  {
    if c == "Last Modified" then Some(lastModified)
    else if c in ColumnField && ColumnField[c] in data then Some(CellOf(data[ColumnField[c]]))
    else Cell(row, c)
  }

  /** Only the seven mapped columns and `Last Modified` can change, and each
      mapped key in the request lands in its own column. */
  lemma SecurePatchScope(row: Row, data: Data, lastModified: string)
    ensures forall c | c !in AllowedFields && c != "Last Modified" :: SecurePatchedCell(row, data, lastModified, c) == Cell(row, c)
    ensures forall k | k in data && k in FieldMapping ::
      SecurePatchedCell(row, data, lastModified, FieldMapping[k]) == Some(CellOf(data[k]))
    ensures SecurePatchedCell(row, data, lastModified, "Last Modified") == Some(lastModified)
  {
    MappingAllowed();
    MappingFacts();
    forall c | c !in AllowedFields && c != "Last Modified"
      ensures SecurePatchedCell(row, data, lastModified, c) == Cell(row, c)
    {
      assert c !in ColumnField;
    }
  }

  /** The loop invariant of the update: the columns of the keys in `done`
      hold their sanitised values, every other cell is the original. */
  ghost predicate Overlaid(row: Row, original: Row, data: Data, done: set<string>)
  {
    forall c :: Cell(row, c) ==
      if c in ColumnField && ColumnField[c] in done && ColumnField[c] in data then Some(CellOf(data[ColumnField[c]]))
      else Cell(original, c)
  }

  lemma OverlayStep(row: Row, original: Row, data: Data, done: set<string>, key: string)
    requires Overlaid(row, original, data, done) && key in data
    ensures var next := if key in FieldMapping && FieldMapping[key] in AllowedFields then row[FieldMapping[key] := CellOf(data[key])] else row;
      Overlaid(next, original, data, done + {key})
  {
    MappingFacts();
    var next := if key in FieldMapping && FieldMapping[key] in AllowedFields then row[FieldMapping[key] := CellOf(data[key])] else row;
    forall c ensures Cell(next, c) ==
      if c in ColumnField && ColumnField[c] in done + {key} && ColumnField[c] in data then Some(CellOf(data[ColumnField[c]]))
      else Cell(original, c)
    {
      if key in FieldMapping && c == FieldMapping[key] {
        assert ColumnField[c] == key;
      } else if c in ColumnField {
        assert ColumnField[c] != key;
      }
    }
  }

  lemma OverlayDone(row: Row, original: Row, data: Data, lastModified: string)
    requires Overlaid(row, original, data, data.Keys)
    ensures forall c :: Cell(row["Last Modified" := lastModified], c) == SecurePatchedCell(original, data, lastModified, c)
  {
  }

  /** A required field that is missing is reported in the collected
      messages, so the record is invalid. */
  lemma MissingRequiredReported(data: Data, i: nat)
    requires i < |Schema| && Schema[i].required && !Truthy(Get(data, Schema[i].field))
    ensures Schema[i].field + " is required" in ValidationErrors(data)
  {
    ErrorsCollected(data, i);
    var lists := FieldErrorLists(data);
    var message := Schema[i].field + " is required";
    assert FieldErrors(Schema[i], Get(data, Schema[i].field)) == [message];
    assert ValidationErrors(data)[|Concat(lists[..i])|] == message;
  }

  /** The update is checked against the whole schema, so a request without
      the required fields is always refused. */
  lemma PartialUpdateRefused(data: Data)
    requires "customerName" !in data
    ensures "customerName" + " is required" in ValidationErrors(Sanitize(data))
  {
    assert Schema[1].field == "customerName" && Schema[1].required;
    assert Get(Sanitize(data), "customerName") == None;
    MissingRequiredReported(Sanitize(data), 1);
  }

  /** The field loop of `secureUpdateJob`: each key of the request that maps
      to an allowed column writes its value there. */
  method WriteMapped(original: Row, data: Data) returns (row: Row)
    ensures Overlaid(row, original, data, data.Keys)
  {
    row := original;
    var pending := data.Keys;
    while pending != {}
      invariant pending <= data.Keys
      invariant Overlaid(row, original, data, data.Keys - pending)
      decreases |pending|
    {
      var key :| key in pending;
      ghost var before := row;
      if key in FieldMapping && FieldMapping[key] in AllowedFields {
        row := row[FieldMapping[key] := CellOf(data[key])];
      }
      OverlayStep(before, original, data, data.Keys - pending, key);
      assert data.Keys - (pending - {key}) == (data.Keys - pending) + {key};
      pending := pending - {key};
    }
    assert data.Keys - pending == data.Keys;
  }

  /** The secure job tab. */
  class SecureJobSheet {
    var rows: seq<Row>

    constructor (initial: seq<Row>)
      ensures rows == initial
    {
      rows := initial;
    }

    /** `secureAddJob`. */
    method SecureAddJob(jobData: Data, now: nat, random: seq<bv8>, today: Date, lastModified: string)
      returns (result: Result<string, string>)
      modifies this
      ensures match AddOutcome(old(rows), jobData, now, random, today, lastModified)
        case Err(e) => result == Err(e) && rows == old(rows)
        case Ok((id, row)) => result == Ok(id) && rows == old(rows) + [row]
    {
      var data := SanitizeInput(jobData);
      var errors := ValidateJobData(data);
      if |errors| > 0 {
        return Err(ValidationFailure(errors));
      }
      var id := NewJobId(data, now, random);
      var existing := FindRow(rows, "Job ID", id);
      if existing.Some? {
        return Err("Job ID already exists");
      }
      rows := rows + [SecureRow(data, id, FormatDDMMYYYY(today), lastModified)];
      result := Ok(id);
    }

    /** `secureGetJobs`: map the rows, then narrow by each filter given. */
    method SecureGetJobs(f: Filters) returns (jobs: seq<SecureJob>)
      ensures jobs == SecureListing(rows, f)
      ensures IsSubsequence(jobs, SecureJobs(rows))
      ensures forall j :: j in jobs <==> j in SecureJobs(rows) && PassesFilters(j, f)
    {
      jobs := SecureJobs(rows);
      if Sheets.Truthy(f.jobId) {
        jobs := Filter(jobs, JobIdFilter(f.jobId.value));
      }
      if Sheets.Truthy(f.mobile) {
        jobs := Filter(jobs, MobileFilter(f.mobile.value));
      }
    }

    /** `secureUpdateJob`: sanitise and validate the patch, find the row by
        the sanitised ID, write the mapped fields and the modification time. */
    method SecureUpdateJob(jobId: string, updateData: Data, lastModified: string)
      returns (result: Result<(), string>)
      modifies this
      ensures var data := Sanitize(updateData);
        var i := FindRow(old(rows), "Job ID", SanitizeString(jobId));
        if ValidationErrors(data) != [] then
          result == Err(ValidationFailure(ValidationErrors(data))) && rows == old(rows)
        else if i.None? then result == Err("Job not found") && rows == old(rows)
        else
          && result == Ok(())
          && |rows| == |old(rows)|
          && (forall j | 0 <= j < |rows| && j != i.value :: rows[j] == old(rows)[j])
          && (forall c :: Cell(rows[i.value], c) == SecurePatchedCell(old(rows)[i.value], data, lastModified, c))
    {
      var id := SanitizeString(jobId);
      var data := SanitizeInput(updateData);
      var errors := ValidateJobData(data);
      if |errors| > 0 {
        return Err(ValidationFailure(errors));
      }
      var found := FindRow(rows, "Job ID", id);
      if found.None? {
        return Err("Job not found");
      }
      var i := found.value;
      var original := rows[i];
      var row := WriteMapped(original, data);
      OverlayDone(row, original, data, lastModified);
      rows := rows[i := row["Last Modified" := lastModified]];
      result := Ok(());
    }

    /** `secureDeleteJob`: remove the first row with the sanitised ID. */
    method SecureDeleteJob(jobId: string) returns (result: Result<(), string>)
      modifies this
      ensures var i := FindRow(old(rows), "Job ID", SanitizeString(jobId));
        if i.None? then result == Err("Job not found") && rows == old(rows)
        else result == Ok(()) && rows == old(rows)[..i.value] + old(rows)[i.value + 1..]
    {
      var id := SanitizeString(jobId);
      var found := FindRow(rows, "Job ID", id);
      if found.None? {
        return Err("Job not found");
      }
      var i := found.value;
      rows := rows[..i] + rows[i + 1..];
      result := Ok(());
    }
  }
}
