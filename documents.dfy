/** The `document` table: one row per submitted paper document, keyed by its
    client-generated `document_id`. */
module Documents {
  import opened Js

  /** A row of the `document` table. The columns the create handler always
      fills with a non-empty string are plain strings; `orgEmail`, `purpose`
      and `details` may be NULL. */
  datatype Document = Document(
    id: string,
    senderOrg: string,
    applicantName: string,
    orgEmail: Option<string>,
    contactNumber: string,
    receivedOffice: string,
    receiptDate: string,
    purpose: Option<string>,
    details: Option<string>,
    status: string,
    submittedBy: string)

  /** The columns of the `document` table. */
  datatype Column =
    | DocumentId | SenderOrg | ApplicantName | OrgEmail | ContactNumber
    | ReceivedOffice | ReceiptDate | Purpose | Details | Status | SubmittedBy

  /** The SQL name of a column. */
  function ColumnName(c: Column): string
  {
    match c
    case DocumentId => "document_id"
    case SenderOrg => "senderOrg"
    case ApplicantName => "applicantName"
    case OrgEmail => "orgEmail"
    case ContactNumber => "contactNumber"
    case ReceivedOffice => "receivedOffice"
    case ReceiptDate => "receiptDate"
    case Purpose => "purpose"
    case Details => "details"
    case Status => "status"
    case SubmittedBy => "submittedBy"
  }

  /** The value a row holds in a column (`None` is NULL). */
  function Value(d: Document, c: Column): Option<string>
  {
    match c
    case DocumentId => Some(d.id)
    case SenderOrg => Some(d.senderOrg)
    case ApplicantName => Some(d.applicantName)
    case OrgEmail => d.orgEmail
    case ContactNumber => Some(d.contactNumber)
    case ReceivedOffice => Some(d.receivedOffice)
    case ReceiptDate => Some(d.receiptDate)
    case Purpose => d.purpose
    case Details => d.details
    case Status => Some(d.status)
    case SubmittedBy => Some(d.submittedBy)
  }

  /** A result row of a SELECT: the selected columns and their values. */
  type ResultRow = map<Column, Option<string>>

  function Project(columns: seq<Column>, d: Document): (r: ResultRow)
    ensures r.Keys == set c | c in columns
    ensures forall c :: c in r ==> r[c] == Value(d, c)
  {
    map c | c in columns :: Value(d, c)
  }
}
