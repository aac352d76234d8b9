/** The dashboard and login page of the client: the new-document form's
    validator, the id and body it submits, the per-status counters the admin
    dashboard keeps beside its result list, and the registration form's
    checks. */
module Authentic {
  import opened Js
  import opened Documents
  import DocumentRoutes
  import AuthRoutes

  // ---------------------------------------------------------------------
  // The patterns the forms test
  // ---------------------------------------------------------------------

  /** A non-empty run of characters matched by `[^\s@]`. */
  predicate NoSpaceNoAt(t: string)
  {
    |t| > 0 && forall k :: 0 <= k < |t| ==> !IsSpace(t[k]) && t[k] != '@'
  }

  /** The `@` at `i` and the `.` at `j` split `s` into three runs of
      `[^\s@]+`. */
  predicate EmailSplit(s: string, i: int, j: int)
  {
    0 <= i < j < |s| && s[i] == '@' && s[j] == '.'
    && NoSpaceNoAt(s[..i]) && NoSpaceNoAt(s[i + 1..j]) && NoSpaceNoAt(s[j + 1..])
  }

  /** `/^[^\s@]+@[^\s@]+\.[^\s@]+$/.test(s)`. */
  predicate EmailPattern(s: string)
  {
    exists i, j | 0 <= i < j < |s| :: EmailSplit(s, i, j)
  }

  /** `/^\d{10}$/.test(s)` and `/^[0-9]{10}$/.test(s)`. */
  predicate TenDigits(s: string)
  {
    |s| == 10 && AllDigits(s)
  }

  /** A blank value matches neither pattern. */
  lemma BlankMatchesNoPattern(s: string)
    requires AllSpace(s)
    ensures !EmailPattern(s) && !TenDigits(s)
  {
    forall i | 0 <= i < |s| ensures s[i] != '@' && !IsDigit(s[i]) {
      assert IsSpace(s[i]);
    }
    forall i, j ensures !EmailSplit(s, i, j) {
      if 0 <= i < |s| {
        assert IsSpace(s[i]);
      }
    }
    if |s| == 10 {
      assert IsSpace(s[0]);
    }
  }

  /** A matching address has exactly one `@` and no white space. */
  lemma EmailPatternShape(s: string)
    requires EmailPattern(s)
    ensures exists i :: 0 < i < |s| - 3 && s[i] == '@' && forall k :: 0 <= k < |s| && k != i ==> s[k] != '@'
    ensures forall k :: 0 <= k < |s| ==> !IsSpace(s[k])
  {
    var i, j :| 0 <= i < j < |s| && EmailSplit(s, i, j);
    forall k | 0 <= k < |s| && k != i ensures s[k] != '@' && !IsSpace(s[k]) {
      if k < i {
        assert s[k] == s[..i][k];
      } else if k < j {
        assert s[k] == s[i + 1..j][k - i - 1];
      } else if k > j {
        assert s[k] == s[j + 1..][k - j - 1];
      }
    }
    assert 0 < i < |s| - 3;
  }

  // ---------------------------------------------------------------------
  // validateDocument
  // ---------------------------------------------------------------------

  /** The new-document form; every input starts as `''`. */
  datatype DocumentForm = DocumentForm(
    senderOrg: string,
    applicantName: string,
    orgEmail: string,
    contactNumber: string,
    receivedOffice: string,
    receiptDate: string,
    purpose: string,
    details: string)

  /** `newDocument[field]` for the columns the form has. */
  function FormValue(f: DocumentForm, c: Column): string
  {
    match c
    case SenderOrg => f.senderOrg
    case ApplicantName => f.applicantName
    case OrgEmail => f.orgEmail
    case ContactNumber => f.contactNumber
    case ReceivedOffice => f.receivedOffice
    case ReceiptDate => f.receiptDate
    case Purpose => f.purpose
    case Details => f.details
    case _ => ""
  }

  const FormColumns: set<Column> :=
    {SenderOrg, ApplicantName, OrgEmail, ContactNumber, ReceivedOffice, ReceiptDate, Purpose, Details}

  /** The fields checked for a blank value, in the order they are checked. */
  const RequiredFields: seq<Column> := [SenderOrg, ApplicantName, OrgEmail, ContactNumber, ReceivedOffice, Purpose]

  const RequiredMessage: string := "This field is required"
  const EmailMessage: string := "Please enter a valid email address"
  const ContactMessage: string := "Contact number must be 10 digits"
  const DateMessage: string := "Receipt date cannot be in the future"

  /** The error a field ends up with. The blank check covers the fields of
      `RequiredFields`; on the e-mail and contact keys the pattern check runs
      after it and overwrites its message. */
  function FieldError(f: DocumentForm, today: string, c: Column): Option<string>
  {
    match c
    case OrgEmail =>
      if !EmailPattern(f.orgEmail) then Some(EmailMessage)
      else if Blank(f.orgEmail) then Some(RequiredMessage) else None
    case ContactNumber =>
      if !TenDigits(f.contactNumber) then Some(ContactMessage)
      else if Blank(f.contactNumber) then Some(RequiredMessage) else None
    case ReceiptDate =>
      if f.receiptDate != "" && LexLess(today, f.receiptDate) then Some(DateMessage) else None
    case SenderOrg => if Blank(f.senderOrg) then Some(RequiredMessage) else None
    case ApplicantName => if Blank(f.applicantName) then Some(RequiredMessage) else None
    case ReceivedOffice => if Blank(f.receivedOffice) then Some(RequiredMessage) else None
    case Purpose => if Blank(f.purpose) then Some(RequiredMessage) else None
    case DocumentId | Details | Status | SubmittedBy => None
  }

  /** `newDocument[field].trim()` is empty. */
  predicate Blank(s: string)
  {
    Trim(s) == ""
  }

  /** The form raises no error at all. */
  predicate FormValid(f: DocumentForm, today: string)
  {
    forall c :: FieldError(f, today, c).None?
  }

  /** The first half of `validateDocument`: every required field whose
      trimmed value is empty gets the blank message. */
  method BlankChecks(f: DocumentForm) returns (errors: map<Column, string>)
    ensures forall c :: c in errors <==> c in RequiredFields && Blank(FormValue(f, c))
    ensures forall c :: c in errors ==> errors[c] == RequiredMessage
  {
    errors := map[];
    var i := 0;
    while i < |RequiredFields|
      invariant 0 <= i <= |RequiredFields|
      invariant forall c :: c in errors <==> c in RequiredFields[..i] && Blank(FormValue(f, c))
      invariant forall c :: c in errors ==> errors[c] == RequiredMessage
    {
      var field := RequiredFields[i];
      assert RequiredFields[..i + 1] == RequiredFields[..i] + [field];
      if Blank(FormValue(f, field)) {
        errors := errors[field := RequiredMessage];
      }
      i := i + 1;
    }
    assert RequiredFields[..i] == RequiredFields;
  }

  /** `validateDocument`: the blank checks, then the e-mail, contact and
      date checks. `today` is the ISO date of the clock. The error object
      holds exactly the error of each field. */
  method ValidateDocument(f: DocumentForm, today: string) returns (errors: map<Column, string>)
    ensures forall c :: c in errors <==> FieldError(f, today, c).Some?
    ensures forall c :: c in errors ==> errors[c] == FieldError(f, today, c).value
    ensures errors.Keys <= FormColumns
  {
    errors := BlankChecks(f);
    ghost var blank := errors;
    if !EmailPattern(f.orgEmail) {
      errors := errors[OrgEmail := EmailMessage];
    }
    if !TenDigits(f.contactNumber) {
      errors := errors[ContactNumber := ContactMessage];
    }
    if f.receiptDate != "" && LexLess(today, f.receiptDate) {
      errors := errors[ReceiptDate := DateMessage];
    }
    ErrorsMatchFields(f, today, blank, errors);
    forall c | c in errors ensures c in FormColumns {
      ErrorsOnFormColumns(f, today, c);
    }
  }

  /** What `ValidateDocument` knows after its last check: the blank
      messages, with the three checked keys overwritten. */
  ghost predicate ChecksApplied(f: DocumentForm, today: string, blank: map<Column, string>,
                                errors: map<Column, string>)
  {
    && (forall c :: c in blank <==> c in RequiredFields && Blank(FormValue(f, c)))
    && (forall c :: c in blank ==> blank[c] == RequiredMessage)
    && (forall c :: c != OrgEmail && c != ContactNumber && c != ReceiptDate ==> KeptKey(blank, errors, c))
    && CheckedKeys(f, today, blank, errors)
  }

  /** Key `c` is as the blank checks left it. */
  predicate KeptKey(blank: map<Column, string>, errors: map<Column, string>, c: Column)
  {
    (c in errors <==> c in blank) && (c in errors ==> errors[c] == blank[c])
  }

  /** The e-mail, contact and date keys after their checks. */
  predicate CheckedKeys(f: DocumentForm, today: string, blank: map<Column, string>, errors: map<Column, string>)
  {
    && (OrgEmail in errors <==> !EmailPattern(f.orgEmail) || OrgEmail in blank)
    && (OrgEmail in errors ==>
          errors[OrgEmail] == if !EmailPattern(f.orgEmail) then EmailMessage else blank[OrgEmail])
    && (ContactNumber in errors <==> !TenDigits(f.contactNumber) || ContactNumber in blank)
    && (ContactNumber in errors ==>
          errors[ContactNumber] == if !TenDigits(f.contactNumber) then ContactMessage else blank[ContactNumber])
    && (ReceiptDate in errors <==> f.receiptDate != "" && LexLess(today, f.receiptDate))
    && (ReceiptDate in errors ==> errors[ReceiptDate] == DateMessage)
  }

  /** Key `c` of `errors` holds exactly the error of field `c`. */
  predicate KeyMatches(f: DocumentForm, today: string, errors: map<Column, string>, c: Column)
  {
    && (c in errors <==> FieldError(f, today, c).Some?)
    && (c in errors ==> errors[c] == FieldError(f, today, c).value)
  }

  lemma ErrorsMatchFields(f: DocumentForm, today: string, blank: map<Column, string>, errors: map<Column, string>)
    requires ChecksApplied(f, today, blank, errors)
    ensures forall c :: c in errors <==> FieldError(f, today, c).Some?
    ensures forall c :: c in errors ==> errors[c] == FieldError(f, today, c).value
  {
    assert RequiredFields == [SenderOrg, ApplicantName, OrgEmail, ContactNumber, ReceivedOffice, Purpose];
    forall c ensures (c in errors <==> FieldError(f, today, c).Some?)
                     && (c in errors ==> errors[c] == FieldError(f, today, c).value) {
      match c
      case OrgEmail | ContactNumber =>
        CheckedKeyMatches(f, today, blank, errors, c);
      case ReceiptDate =>
        DateKeyMatches(f, today, blank, errors);
      case SenderOrg | ApplicantName | ReceivedOffice | Purpose =>
        PlainKeyMatches(f, today, blank, errors, c);
      case DocumentId | Details | Status | SubmittedBy =>
        UncheckedKeyMatches(f, today, blank, errors, c);
    }
  }

  /** Only the form's own fields can carry an error. */
  lemma ErrorsOnFormColumns(f: DocumentForm, today: string, c: Column)
    requires FieldError(f, today, c).Some?
    ensures c in FormColumns
  {
  }

  lemma CheckedKeyMatches(f: DocumentForm, today: string, blank: map<Column, string>,
                          errors: map<Column, string>, c: Column)
    requires c == OrgEmail || c == ContactNumber
    requires c in blank <==> Blank(FormValue(f, c))
    requires c in blank ==> blank[c] == RequiredMessage
    requires CheckedKeys(f, today, blank, errors)
    ensures KeyMatches(f, today, errors, c)
  {
  }

  lemma DateKeyMatches(f: DocumentForm, today: string, blank: map<Column, string>, errors: map<Column, string>)
    requires CheckedKeys(f, today, blank, errors)
    ensures KeyMatches(f, today, errors, ReceiptDate)
  {
  }

  lemma PlainKeyMatches(f: DocumentForm, today: string, blank: map<Column, string>,
                        errors: map<Column, string>, c: Column)
    requires c == SenderOrg || c == ApplicantName || c == ReceivedOffice || c == Purpose
    requires c in blank <==> Blank(FormValue(f, c))
    requires c in blank ==> blank[c] == RequiredMessage
    requires KeptKey(blank, errors, c)
    ensures KeyMatches(f, today, errors, c)
  {
  }

  lemma UncheckedKeyMatches(f: DocumentForm, today: string, blank: map<Column, string>,
                            errors: map<Column, string>, c: Column)
    requires c == Column.DocumentId || c == Details || c == Status || c == SubmittedBy
    requires c !in blank
    requires KeptKey(blank, errors, c)
    ensures KeyMatches(f, today, errors, c)
  {
  }

  /** A blank e-mail or contact number fails its pattern, so its key holds
      the pattern's message rather than the blank one. */
  lemma BlankPatternFieldsGetPatternMessage(f: DocumentForm, today: string)
    ensures Blank(f.orgEmail) ==> FieldError(f, today, OrgEmail) == Some(EmailMessage)
    ensures Blank(f.contactNumber) ==> FieldError(f, today, ContactNumber) == Some(ContactMessage)
  {
    if Blank(f.orgEmail) {
      TrimEmptyIffAllSpace(f.orgEmail);
      BlankMatchesNoPattern(f.orgEmail);
    }
    if Blank(f.contactNumber) {
      TrimEmptyIffAllSpace(f.contactNumber);
      BlankMatchesNoPattern(f.contactNumber);
    }
  }

  /** `details` is never flagged, and the blank message survives only on the
      four fields without a pattern. */
  lemma RequiredMessageOnlyOnPlainFields(f: DocumentForm, today: string)
    ensures FieldError(f, today, Details).None?
    ensures forall c :: FieldError(f, today, c) == Some(RequiredMessage) ==>
              c == SenderOrg || c == ApplicantName || c == ReceivedOffice || c == Purpose
  {
    forall c | FieldError(f, today, c) == Some(RequiredMessage)
      ensures c == SenderOrg || c == ApplicantName || c == ReceivedOffice || c == Purpose
    {
      assert |RequiredMessage| != |EmailMessage| && |RequiredMessage| != |ContactMessage|;
      if c == OrgEmail {
        assert EmailPattern(f.orgEmail) && Blank(f.orgEmail) by {
          assert FieldError(f, today, OrgEmail) == Some(RequiredMessage);
        }
        BlankPatternFieldsGetPatternMessage(f, today);
      } else if c == ContactNumber {
        assert TenDigits(f.contactNumber) && Blank(f.contactNumber) by {
          assert FieldError(f, today, ContactNumber) == Some(RequiredMessage);
        }
        BlankPatternFieldsGetPatternMessage(f, today);
      }
    }
  }

  /** The date check is a string comparison: an empty date passes, and a date
      is refused exactly when it sorts after today. */
  lemma ReceiptDateCheck(f: DocumentForm, today: string)
    ensures FieldError(f, today, ReceiptDate).Some? <==> f.receiptDate != "" && LexLess(today, f.receiptDate)
    ensures FieldError(f.(receiptDate := today), today, ReceiptDate).None?
  {
    LexLessAsymmetric(today, today);
  }

  // ---------------------------------------------------------------------
  // handleNewDocSubmit: the id and the body posted
  // ---------------------------------------------------------------------

  /** `DOC-${year}-${Date.now().toString().slice(-4)}`. */
  function DocumentId(year: nat, nowMs: nat): (r: string)
    ensures var p, t := "DOC-" + Decimal(year) + "-", Decimal(nowMs);
            && p <= r
            && |r| - |p| == (if |t| < 4 then |t| else 4)
            && r[|p|..] == t[|t| - (|r| - |p|)..]
  {
    "DOC-" + Decimal(year) + "-" + TakeLast(Decimal(nowMs), 4)
  }

  /** The last four characters of a number of at least four digits are its
      four lowest decimal digits. */
  lemma {:induction false} LastFourDigits(n: nat)
    requires n >= 1000
    ensures TakeLast(Decimal(n), 4)
            == [DigitChar(n / 1000 % 10), DigitChar(n / 100 % 10), DigitChar(n / 10 % 10), DigitChar(n % 10)]
  {
    var a := Decimal(n / 1000);
    var tail := [DigitChar(n / 100 % 10), DigitChar(n / 10 % 10), DigitChar(n % 10)];
    DecimalThreeSteps(n);
    DecimalEndsWith(n / 1000);
    var s := a + tail;
    assert s[|s| - 4..] == [a[|a| - 1]] + tail;
  }

  /** The rendering of a number of four digits or more is that of its
      thousands followed by its three lowest digits. */
  lemma DecimalThreeSteps(n: nat)
    requires n >= 1000
    ensures Decimal(n) == Decimal(n / 1000) + [DigitChar(n / 100 % 10), DigitChar(n / 10 % 10), DigitChar(n % 10)]
  {
    TenthOfTenth(n);
    TenthOfTenth(n / 10);
    DecimalStep(n);
    DecimalStep(n / 10);
    DecimalStep(n / 100);
  }

  lemma TenthOfTenth(m: nat)
    ensures m / 10 / 10 == m / 100 && m / 100 / 10 == m / 1000
  {
  }

  /** The rendering of a number of two digits or more ends with its last digit. */
  lemma DecimalStep(m: nat)
    requires m >= 10
    ensures Decimal(m) == Decimal(m / 10) + [DigitChar(m % 10)]
  {
  }

  lemma DecimalEndsWith(m: nat)
    ensures |Decimal(m)| >= 1 && Decimal(m)[|Decimal(m)| - 1] == DigitChar(m % 10)
  {
  }

  /** Ids repeat: in the same year, two submissions whose millisecond
      timestamps (of four digits or more) are ten seconds apart get the same
      id, and the second insert then fails on the primary key. */
  lemma IdRepeatsEveryTenSeconds(year: nat, t: nat)
    requires t >= 1000
    ensures DocumentId(year, t) == DocumentId(year, t + 10000)
  {
    assert TakeLast(Decimal(t), 4) == TakeLast(Decimal(t + 10000), 4) by {
      LastFourDigits(t);
      LastFourDigits(t + 10000);
      ShiftedDigits(t);
    }
  }

  /** Adding ten thousand leaves the four lowest decimal digits alone. */
  lemma ShiftedDigits(t: nat)
    ensures (t + 10000) / 1000 % 10 == t / 1000 % 10
    ensures (t + 10000) / 100 % 10 == t / 100 % 10
    ensures (t + 10000) / 10 % 10 == t / 10 % 10
    ensures (t + 10000) % 10 == t % 10
  {
    var u := t + 10000;
    assert u / 1000 == t / 1000 + 10 && u / 100 == t / 100 + 100 && u / 10 == t / 10 + 1000;
    SameLastDigit(t / 1000, 1);
    SameLastDigit(t / 100, 10);
    SameLastDigit(t / 10, 100);
    SameLastDigit(t, 1000);
  }

  /** Adding a multiple of ten keeps the last decimal digit. */
  lemma {:induction false} SameLastDigit(x: nat, k: nat)
    ensures (x + 10 * k) % 10 == x % 10
  {
    if k > 0 {
      SameLastDigit(x, k - 1);
      assert x + 10 * k == (x + 10 * (k - 1)) + 10;
    }
  }

  /** `docToSubmit`: the form spread, then `id`, `status`, `submittedBy`, and
      `receiptDate` defaulting to today. It has no `role` field. */
  function SubmittedDocument(f: DocumentForm, id: string, userEmail: string, today: string)
    : (r: DocumentRoutes.CreateRequest)
    ensures r.role == None && r.id == Some(id) && r.status == Some("Submitted") && r.submittedBy == Some(userEmail)
    ensures r.receiptDate == Some(if f.receiptDate != "" then f.receiptDate else today)
    ensures r.senderOrg == Some(f.senderOrg) && r.orgEmail == Some(f.orgEmail) && r.details == Some(f.details)
    ensures r.applicantName == Some(f.applicantName) && r.contactNumber == Some(f.contactNumber)
            && r.receivedOffice == Some(f.receivedOffice) && r.purpose == Some(f.purpose)
  {
    DocumentRoutes.CreateRequest(
      Some(id), Some(f.senderOrg), Some(f.applicantName), Some(f.orgEmail), Some(f.contactNumber),
      Some(f.receivedOffice), Some(if f.receiptDate != "" then f.receiptDate else today),
      Some(f.purpose), Some(f.details), Some("Submitted"), Some(userEmail), None)
  }

  /** A form the validator accepts, posted by a user with an e-mail address,
      passes every check of `POST /new-document`, whatever the user's role:
      the body carries no role, so the citizen guard never fires. */
  lemma {:induction false} ValidFormPassesServerChecks(f: DocumentForm, id: string, userEmail: string,
                                                       today: string, serverToday: string)
    requires FormValid(f, today) && userEmail != ""
    ensures DocumentRoutes.DecideCreate(SubmittedDocument(f, id, userEmail, today), serverToday).InsertValues?
  {
    ValidFormFilled(f, today);
    var req := SubmittedDocument(f, id, userEmail, today);
    assert !DocumentRoutes.MissingRequired(req);
  }

  /** The fields the server insists on are non-empty in a form without
      errors. */
  lemma ValidFormFilled(f: DocumentForm, today: string)
    requires FormValid(f, today)
    ensures f.senderOrg != "" && f.applicantName != "" && f.receivedOffice != "" && f.contactNumber != ""
  {
    assert FieldError(f, today, SenderOrg).None?;
    assert FieldError(f, today, ApplicantName).None?;
    assert FieldError(f, today, ReceivedOffice).None?;
    assert FieldError(f, today, ContactNumber).None?;
    assert Blank("");
  }

  // ---------------------------------------------------------------------
  // The admin's per-status counters
  // ---------------------------------------------------------------------

  /** A row of the dashboard's result list: its id, its status, and the
      other columns the search returned. */
  datatype Listed = Listed(id: string, status: string, rest: ResultRow)

  /** `summaryStats`. */
  datatype Summary = Summary(total: int, byStatus: map<string, int>)

  /** `byStatus[s]`, with a missing key read as 0. */
  function Count(m: map<string, int>, s: string): int
  {
    if s in m then m[s] else 0
  }

  /** `byStatus[s] || d`: a missing key or a 0 count gives `d`. */
  function CountOr(m: map<string, int>, s: string, d: int): int
  {
    if s in m && m[s] != 0 then m[s] else d
  }

  /** The number of rows with status `s`. */
  function Occurrences(docs: seq<Listed>, s: string): nat
  {
    if docs == [] then 0
    else Occurrences(docs[..|docs| - 1], s) + (if docs[|docs| - 1].status == s then 1 else 0)
  }

  /** The sum of the counts. */
  ghost function SumCounts(m: map<string, int>): int
    decreases |m|
  {
    if m == map[] then 0
    else
      var k :| k in m;
      assert |m - {k}| == |m| - 1 by { assert (m - {k}).Keys == m.Keys - {k}; }
      m[k] + SumCounts(m - {k})
  }

  lemma {:induction false} SumCountsRemove(m: map<string, int>, k: string)
    requires k in m
    ensures SumCounts(m) == m[k] + SumCounts(m - {k})
    decreases |m|
  {
    var j :| j in m && SumCounts(m) == m[j] + SumCounts(m - {j});
    if j != k {
      assert (m - {j}).Keys == m.Keys - {j};
      assert (m - {k}).Keys == m.Keys - {k};
      SumCountsRemove(m - {j}, k);
      SumCountsRemove(m - {k}, j);
      assert m - {j} - {k} == m - {k} - {j};
    }
  }

  lemma SumCountsSet(m: map<string, int>, k: string, v: int)
    ensures SumCounts(m[k := v]) == SumCounts(m) - Count(m, k) + v
  {
    var m' := m[k := v];
    SumCountsRemove(m', k);
    assert m' - {k} == m - {k};
    if k in m {
      SumCountsRemove(m, k);
    } else {
      assert m - {k} == m;
    }
  }

  /** The counters describe the list: `total` is its length and each
      status's count is its number of rows. */
  ghost predicate Consistent(s: Summary, docs: seq<Listed>)
  {
    s.total == |docs| && forall st :: Count(s.byStatus, st) == Occurrences(docs, st)
  }

  /** The summary computed after an admin search: one pass over the result
      rows, counting each status. */
  method Summarize(docs: seq<Listed>) returns (s: Summary)
    ensures Consistent(s, docs)
    ensures forall st :: st in s.byStatus <==> Occurrences(docs, st) > 0
    ensures SumCounts(s.byStatus) == s.total
  {
    var byStatus: map<string, int> := map[];
    var i := 0;
    while i < |docs|
      invariant 0 <= i <= |docs|
      invariant forall st :: Count(byStatus, st) == Occurrences(docs[..i], st)
      invariant forall st :: st in byStatus <==> Occurrences(docs[..i], st) > 0
      invariant SumCounts(byStatus) == i
    {
      var st := docs[i].status;
      assert docs[..i + 1][..i] == docs[..i];
      SumCountsSet(byStatus, st, CountOr(byStatus, st, 0) + 1);
      byStatus := byStatus[st := CountOr(byStatus, st, 0) + 1];
      i := i + 1;
    }
    assert docs[..i] == docs;
    s := Summary(|docs|, byStatus);
  }

  /** The list after a status change: rows with that id take the new status. */
  function UpdatedList(docs: seq<Listed>, id: string, newStatus: string): (r: seq<Listed>)
    ensures |r| == |docs|
    ensures forall i :: 0 <= i < |docs| ==>
              r[i] == if docs[i].id == id then docs[i].(status := newStatus) else docs[i]
  {
    seq(|docs|, i requires 0 <= i < |docs| =>
      if docs[i].id == id then docs[i].(status := newStatus) else docs[i])
  }

  /** The list after a delete: every row with that id is dropped. */
  function DeletedList(docs: seq<Listed>, id: string): seq<Listed>
  {
    if docs == [] then []
    else DeletedList(docs[..|docs| - 1], id)
         + (if docs[|docs| - 1].id == id then [] else [docs[|docs| - 1]])
  }

  /** The list loses exactly the rows with that id, keeping the others. */
  lemma {:induction false} DeletedListContents(docs: seq<Listed>, id: string)
    ensures forall x :: x in DeletedList(docs, id) <==> x in docs && x.id != id
  {
    if docs != [] {
      var n := |docs|;
      DeletedListContents(docs[..n - 1], id);
      assert docs == docs[..n - 1] + [docs[n - 1]];
    }
  }

  /** `documents.find(d => d.id === docId)?.status`. */
  function FindStatus(docs: seq<Listed>, id: string): (r: Option<string>)
    ensures r.None? <==> forall i :: 0 <= i < |docs| ==> docs[i].id != id
    ensures r.Some? ==> exists i :: && 0 <= i < |docs| && docs[i].id == id && docs[i].status == r.value
                                   && forall j :: 0 <= j < i ==> docs[j].id != id
  {
    if docs == [] then None
    else if docs[0].id == id then Some(docs[0].status)
    else FindStatus(docs[1..], id)
  }

  /** Ids in the list are distinct (they come from the primary key). */
  predicate UniqueIds(docs: seq<Listed>)
  {
    forall i, j :: 0 <= i < j < |docs| ==> docs[i].id != docs[j].id
  }

  /** Changing the status of the one row with that id moves one count from
      its old status to the new one. */
  lemma {:induction false} UpdatedOccurrences(docs: seq<Listed>, id: string, newStatus: string, oldStatus: string, st: string)
    requires UniqueIds(docs)
    requires exists i :: 0 <= i < |docs| && docs[i].id == id && docs[i].status == oldStatus
    ensures Occurrences(UpdatedList(docs, id, newStatus), st)
            == Occurrences(docs, st) - (if st == oldStatus then 1 else 0) + (if st == newStatus then 1 else 0)
  {
    var n := |docs|;
    var u := UpdatedList(docs, id, newStatus);
    assert u[..n - 1] == UpdatedList(docs[..n - 1], id, newStatus);
    if docs[n - 1].id == id {
      assert docs[n - 1].status == oldStatus;
      NoRowWithId(docs[..n - 1], id, newStatus);
    } else {
      var i :| 0 <= i < n && docs[i].id == id && docs[i].status == oldStatus;
      assert docs[..n - 1][i] == docs[i];
      UpdatedOccurrences(docs[..n - 1], id, newStatus, oldStatus, st);
    }
  }

  lemma {:induction false} NoRowWithId(docs: seq<Listed>, id: string, newStatus: string)
    requires forall i :: 0 <= i < |docs| ==> docs[i].id != id
    ensures UpdatedList(docs, id, newStatus) == docs
  {
  }

  lemma {:induction false} NothingDeleted(docs: seq<Listed>, id: string)
    requires forall i :: 0 <= i < |docs| ==> docs[i].id != id
    ensures DeletedList(docs, id) == docs
  {
    if docs != [] {
      var n := |docs|;
      NothingDeleted(docs[..n - 1], id);
      assert docs == docs[..n - 1] + [docs[n - 1]];
    }
  }

  lemma OccurrencesSnoc(docs: seq<Listed>, x: Listed, st: string)
    ensures Occurrences(docs + [x], st) == Occurrences(docs, st) + (if x.status == st then 1 else 0)
  {
    assert (docs + [x])[..|docs|] == docs;
  }

  /** Deleting the one row with that id removes one count from its status. */
  lemma {:induction false} DeletedOccurrences(docs: seq<Listed>, id: string, status: string, st: string)
    requires UniqueIds(docs)
    requires exists i :: 0 <= i < |docs| && docs[i].id == id && docs[i].status == status
    ensures |DeletedList(docs, id)| == |docs| - 1
    ensures Occurrences(DeletedList(docs, id), st) == Occurrences(docs, st) - (if st == status then 1 else 0)
  {
    var n := |docs|;
    var init, last := docs[..n - 1], docs[n - 1];
    assert docs == init + [last];
    if last.id == id {
      assert last.status == status by { UniqueWitness(docs, id, status); }
      EarlierIdsDiffer(init, last);
      DeletedLastRow(init, last, id, st);
    } else {
      var i :| 0 <= i < n && docs[i].id == id && docs[i].status == status;
      assert init[i] == docs[i];
      DeletedOccurrences(init, id, status, st);
      DeletedKeptRow(init, last, id, st);
    }
  }

  /** With distinct ids, no row before the last shares its id. */
  lemma EarlierIdsDiffer(init: seq<Listed>, last: Listed)
    requires UniqueIds(init + [last])
    ensures forall i :: 0 <= i < |init| ==> init[i].id != last.id
  {
    forall i | 0 <= i < |init| ensures init[i].id != last.id {
      assert (init + [last])[i] == init[i] && (init + [last])[|init|] == last;
    }
  }

  /** With distinct ids, the row of a given id has the status of any witness. */
  lemma UniqueWitness(docs: seq<Listed>, id: string, status: string)
    requires UniqueIds(docs) && |docs| > 0 && docs[|docs| - 1].id == id
    requires exists i :: 0 <= i < |docs| && docs[i].id == id && docs[i].status == status
    ensures docs[|docs| - 1].status == status
  {
  }

  /** Deleting the id of a last row that no earlier row shares drops just it. */
  lemma DeletedLastRow(init: seq<Listed>, last: Listed, id: string, st: string)
    requires last.id == id
    requires forall i :: 0 <= i < |init| ==> init[i].id != id
    ensures |DeletedList(init + [last], id)| == |init|
    ensures Occurrences(DeletedList(init + [last], id), st)
            == Occurrences(init + [last], st) - (if st == last.status then 1 else 0)
  {
    assert (init + [last])[..|init|] == init;
    assert DeletedList(init + [last], id) == DeletedList(init, id);
    NothingDeleted(init, id);
    OccurrencesSnoc(init, last, st);
  }

  /** A last row of another id survives the delete. */
  lemma DeletedKeptRow(init: seq<Listed>, last: Listed, id: string, st: string)
    requires last.id != id
    ensures |DeletedList(init + [last], id)| == |DeletedList(init, id)| + 1
    ensures Occurrences(DeletedList(init + [last], id), st)
            == Occurrences(DeletedList(init, id), st) + (if last.status == st then 1 else 0)
  {
    assert (init + [last])[..|init|] == init;
    assert DeletedList(init + [last], id) == DeletedList(init, id) + [last];
    OccurrencesSnoc(DeletedList(init, id), last, st);
  }

  /** The counters after a status change: the old status, when the row is
      in the list and its status is non-empty, loses one (`(count || 1) - 1`),
      the new status gains one, and `total` is kept. */
  method UpdateStats(prev: Summary, docs: seq<Listed>, id: string, newStatus: string) returns (next: Summary)
    ensures next.total == prev.total
    ensures FindStatus(docs, id).None? || FindStatus(docs, id).value == "" ==>
              next.byStatus == prev.byStatus[newStatus := Count(prev.byStatus, newStatus) + 1]
    ensures FindStatus(docs, id).Some? && FindStatus(docs, id).value != "" ==>
              var o := FindStatus(docs, id).value;
              var b := prev.byStatus[o := CountOr(prev.byStatus, o, 1) - 1];
              next.byStatus == b[newStatus := CountOr(b, newStatus, 0) + 1]
    ensures Consistent(prev, docs) && UniqueIds(docs) && FindStatus(docs, id).Some? && FindStatus(docs, id).value != "" ==>
              Consistent(next, UpdatedList(docs, id, newStatus))
  {
    var byStatus := prev.byStatus;
    var oldStatus := FindStatus(docs, id);
    if oldStatus.Some? && oldStatus.value != "" {
      byStatus := byStatus[oldStatus.value := CountOr(byStatus, oldStatus.value, 1) - 1];
    }
    byStatus := byStatus[newStatus := CountOr(byStatus, newStatus, 0) + 1];
    next := prev.(byStatus := byStatus);
    if Consistent(prev, docs) && UniqueIds(docs) && oldStatus.Some? && oldStatus.value != "" {
      UpdateKeepsConsistent(prev, docs, id, newStatus, oldStatus.value, next);
    }
  }

  /** Moving one row from status `o` to `newStatus` keeps consistent
      counters consistent. */
  lemma UpdateKeepsConsistent(prev: Summary, docs: seq<Listed>, id: string, newStatus: string, o: string,
                              next: Summary)
    requires Consistent(prev, docs) && UniqueIds(docs)
    requires exists i :: 0 <= i < |docs| && docs[i].id == id && docs[i].status == o
    requires next.total == prev.total
    requires var b := prev.byStatus[o := CountOr(prev.byStatus, o, 1) - 1];
             next.byStatus == b[newStatus := CountOr(b, newStatus, 0) + 1]
    ensures Consistent(next, UpdatedList(docs, id, newStatus))
  {
    forall st ensures Count(next.byStatus, st) == Occurrences(UpdatedList(docs, id, newStatus), st) {
      UpdatedOccurrences(docs, id, newStatus, o, st);
      if st == o {
        assert Occurrences(docs, st) >= 1 by { OccurrencePositive(docs, id, st); }
      }
    }
  }

  lemma {:induction false} OccurrencePositive(docs: seq<Listed>, id: string, st: string)
    requires exists i :: 0 <= i < |docs| && docs[i].id == id && docs[i].status == st
    ensures Occurrences(docs, st) >= 1
  {
    var n := |docs|;
    if docs[n - 1].status != st {
      var i :| 0 <= i < n && docs[i].id == id && docs[i].status == st;
      assert docs[..n - 1][i] == docs[i];
      OccurrencePositive(docs[..n - 1], id, st);
    }
  }

  /** The counters after a delete: unchanged when the id is not listed;
      otherwise `total` drops by one and the row's status loses one, its key
      going away when it reaches 0. */
  method DeleteStats(prev: Summary, docs: seq<Listed>, id: string) returns (next: Summary)
    ensures FindStatus(docs, id).None? ==> next == prev
    ensures FindStatus(docs, id).Some? ==>
              var st := FindStatus(docs, id).value;
              && next.total == prev.total - 1
              && (var c := CountOr(prev.byStatus, st, 1) - 1;
                  (c == 0 ==> st !in next.byStatus) && (c != 0 ==> st in next.byStatus && next.byStatus[st] == c))
              && forall s :: s != st ==> Count(next.byStatus, s) == Count(prev.byStatus, s)
    ensures FindStatus(docs, id).Some? ==>
              next.byStatus - {FindStatus(docs, id).value} == prev.byStatus - {FindStatus(docs, id).value}
    ensures Consistent(prev, docs) && UniqueIds(docs) ==> Consistent(next, DeletedList(docs, id))
  {
    var deleted := FindStatus(docs, id);
    if deleted.None? {
      NothingDeleted(docs, id);
      return prev;
    }
    var st := deleted.value;
    var byStatus := prev.byStatus;
    byStatus := byStatus[st := CountOr(byStatus, st, 1) - 1];
    if byStatus[st] == 0 {
      byStatus := byStatus - {st};
    }
    next := Summary(prev.total - 1, byStatus);
    if Consistent(prev, docs) && UniqueIds(docs) {
      DeleteKeepsConsistent(prev, docs, id, st, next);
    }
  }

  lemma DeleteKeepsConsistent(prev: Summary, docs: seq<Listed>, id: string, st: string, next: Summary)
    requires Consistent(prev, docs) && UniqueIds(docs)
    requires exists i :: 0 <= i < |docs| && docs[i].id == id && docs[i].status == st
    requires next.total == prev.total - 1
    requires forall s :: s != st ==> Count(next.byStatus, s) == Count(prev.byStatus, s)
    requires Count(next.byStatus, st) == CountOr(prev.byStatus, st, 1) - 1
    ensures Consistent(next, DeletedList(docs, id))
  {
    OccurrencePositive(docs, id, st);
    DeletedOccurrences(docs, id, st, st);
    forall s ensures Count(next.byStatus, s) == Occurrences(DeletedList(docs, id), s) {
      DeletedOccurrences(docs, id, st, s);
    }
  }

  // ---------------------------------------------------------------------
  // Registration form
  // ---------------------------------------------------------------------

  /** The login page's form state. */
  datatype RegisterForm = RegisterForm(
    username: string,
    email: string,
    contact: string,
    password: string,
    confirmPassword: string,
    role: string,
    officeName: string)

  const EmailFormatMessage: string := "Invalid email format"
  const ContactDigitsMessage: string := "Contact number must be 10 digits."
  const PasswordMismatchMessage: string := "Passwords do not match"
  const OfficeRequiredMessage: string := "Organization Name is required for the organization role."

  /** The registration checks of `handleSubmit`, first failure wins; `None`
      means the request is sent. */
  function RegistrationError(f: RegisterForm, isAdmin: bool): (r: Option<string>)
    ensures r.None? <==>
              EmailPattern(f.email) && TenDigits(f.contact) && f.password == f.confirmPassword
              && !(f.role == "organization" && !isAdmin && f.officeName == "")
    ensures !EmailPattern(f.email) ==> r == Some(EmailFormatMessage)
    ensures EmailPattern(f.email) && !TenDigits(f.contact) ==> r == Some(ContactDigitsMessage)
    ensures EmailPattern(f.email) && TenDigits(f.contact) && f.password != f.confirmPassword ==>
              r == Some(PasswordMismatchMessage)
    ensures EmailPattern(f.email) && TenDigits(f.contact) && f.password == f.confirmPassword
            && f.role == "organization" && !isAdmin && f.officeName == "" ==>
              r == Some(OfficeRequiredMessage)
  {
    if !EmailPattern(f.email) then Some(EmailFormatMessage)
    else if !TenDigits(f.contact) then Some(ContactDigitsMessage)
    else if f.password != f.confirmPassword then Some(PasswordMismatchMessage)
    else if f.role == "organization" && !isAdmin && f.officeName == "" then Some(OfficeRequiredMessage)
    else None
  }

  /** The body posted to `/auth/register`: the role is `admin` on the admin
      form, and `officeName` is sent only for an organization on the user form. */
  function RegistrationBody(f: RegisterForm, isAdmin: bool): (r: AuthRoutes.RegisterRequest)
    ensures r.role == Some(if isAdmin then "admin" else f.role)
    ensures r.officeName.Some? <==> f.role == "organization" && !isAdmin
    ensures r.officeName.Some? ==> r.officeName.value == f.officeName
    ensures r.username == Some(f.username) && r.email == Some(f.email) && r.contact == Some(f.contact)
            && r.password == Some(f.password)
  {
    AuthRoutes.RegisterRequest(
      Some(f.username), Some(f.email), Some(f.contact), Some(f.password),
      if f.role == "organization" && !isAdmin then Some(f.officeName) else None,
      Some(if isAdmin then "admin" else f.role))
  }

  /** A form that passes the client's checks, with a username, a password and
      a role, passes the server's checks too, and goes to the table of its role. */
  lemma ValidRegistrationAccepted(f: RegisterForm, isAdmin: bool)
    requires RegistrationError(f, isAdmin).None?
    requires f.username != "" && f.password != "" && (isAdmin || f.role != "")
    ensures var d := AuthRoutes.DecideRegister(RegistrationBody(f, isAdmin));
            d.RegisterInsert? && (d.table == AuthRoutes.Admins <==> isAdmin || f.role == "admin")
  {
    assert f.email != "" by { EmailNonEmpty(f.email); }
  }

  lemma EmailNonEmpty(s: string)
    requires EmailPattern(s)
    ensures s != ""
  {
  }
}
