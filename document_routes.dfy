/** `POST /new-document`, `GET /search-documents`, `PUT /documents/:id` and
    `DELETE /documents/:id` over an in-memory `document` table. */
module DocumentRoutes {
  import opened Js
  import opened Server
  import opened Documents
  import opened DocumentSearch

  /** The body of `POST /new-document`. Every field may be absent. */
  datatype CreateRequest = CreateRequest(
    id: Option<string>,
    senderOrg: Option<string>,
    applicantName: Option<string>,
    orgEmail: Option<string>,
    contactNumber: Option<string>,
    receivedOffice: Option<string>,
    receiptDate: Option<string>,
    purpose: Option<string>,
    details: Option<string>,
    status: Option<string>,
    submittedBy: Option<string>,
    role: Option<string>)

  const CitizenCreateMessage: string := "Citizens are not allowed to submit documents."
  const MissingFieldsMessage: string := "Missing required fields"
  const CreatedMessage: string := "Document submitted"

  /** One of the five fields the handler insists on is absent or empty. */
  predicate MissingRequired(req: CreateRequest)
  {
    !Truthy(req.senderOrg) || !Truthy(req.applicantName) || !Truthy(req.receivedOffice)
    || !Truthy(req.submittedBy) || !Truthy(req.contactNumber)
  }

  /** The handler's decision before it touches the table: refuse, or insert
      these values (the key `id` may still be absent). */
  datatype CreateDecision =
    | Refuse(reply: Reply)
    | InsertValues(id: Option<string>, row: Document)

  /** The guards of `POST /new-document` and the tuple it inserts; `today`
      is `new Date().toISOString().split("T")[0]`. */
  function DecideCreate(req: CreateRequest, today: string): (r: CreateDecision)
    ensures req.role == Some("citizen") ==> r == Refuse(Reply(403, CitizenCreateMessage))
    ensures r == Refuse(Reply(400, MissingFieldsMessage)) <==> req.role != Some("citizen") && MissingRequired(req)
    ensures r.InsertValues? <==> req.role != Some("citizen") && !MissingRequired(req)
    ensures r.InsertValues? ==>
              && r.id == req.id
              && r.row.senderOrg == req.senderOrg.value && r.row.applicantName == req.applicantName.value
              && r.row.contactNumber == req.contactNumber.value && r.row.receivedOffice == req.receivedOffice.value
              && r.row.submittedBy == req.submittedBy.value
              && r.row.orgEmail == OrNull(req.orgEmail)
              && r.row.purpose == OrNull(req.purpose)
              && r.row.details == OrNull(req.details)
              && r.row.receiptDate == OrElse(req.receiptDate, today)
              && r.row.status == (if req.status.Some? then req.status.value else "Submitted")
  {
    if req.role == Some("citizen") then Refuse(Reply(403, CitizenCreateMessage))
    else if MissingRequired(req) then Refuse(Reply(400, MissingFieldsMessage))
    else
      InsertValues(req.id, Document(
        if req.id.Some? then req.id.value else "",
        req.senderOrg.value, req.applicantName.value, OrNull(req.orgEmail), req.contactNumber.value,
        req.receivedOffice.value, OrElse(req.receiptDate, today),
        OrNull(req.purpose), OrNull(req.details),
        if req.status.Some? then req.status.value else "Submitted",
        req.submittedBy.value))
  }

  /** A citizen is refused whatever the rest of the body holds, and every
      other role, absent included, gets past that guard. */
  lemma CitizenGuard(req: CreateRequest, today: string)
    ensures DecideCreate(req, today).Refuse? && DecideCreate(req, today).reply.code == 403
            <==> req.role == Some("citizen")
  {
  }

  /** Values are not trimmed: a body of single spaces passes the checks and
      is inserted as given. */
  lemma WhitespaceFieldsAccepted(today: string)
    ensures var req := CreateRequest(Some("DOC-1"), Some(" "), Some(" "), None, Some(" "), Some(" "),
                                     None, None, None, None, Some(" "), None);
            var r := DecideCreate(req, today);
            r.InsertValues? && r.row.senderOrg == " " && r.row.orgEmail == None && r.row.purpose == None
  {
  }

  /** The reply of `GET /search-documents`: 400 with a message, or the rows. */
  datatype SearchReply =
    | SearchRefused(reply: Reply)
    | SearchRows(rows: set<ResultRow>)

  /** The `document` table, keyed by `document_id`. */
  class DocumentTable {
    var rows: map<string, Document>

    /** Every row is stored under its own id (the primary key). */
    ghost predicate Valid()
      reads this
    {
      forall k :: k in rows ==> rows[k].id == k
    }

    constructor ()
      ensures Valid() && rows == map[]
    {
      rows := map[];
    }

    /** `POST /new-document`: the guards, then the INSERT; a 201 reply carries
        the id it was given as `documentId`. An absent id is an `undefined`
        bind parameter and an id already in the table breaks the primary
        key; both fail with 500 and leave the table as it was. */
    method Create(req: CreateRequest, today: string) returns (reply: Reply, documentId: Option<string>)
      requires Valid()
      modifies this
      ensures Valid()
      ensures documentId.Some? <==> reply.code == 201
      ensures var d := DecideCreate(req, today);
              && (d.Refuse? ==> reply == d.reply && rows == old(rows))
              && (d.InsertValues? && d.id.None? ==> reply == Reply(500, UndefinedBindMessage) && rows == old(rows))
              && (d.InsertValues? && d.id.Some? && d.id.value in old(rows) ==>
                    reply == Reply(500, DuplicateEntryMessage(d.id.value, "document", "PRIMARY")) && rows == old(rows))
              && (d.InsertValues? && d.id.Some? && d.id.value !in old(rows) ==>
                    reply == Reply(201, CreatedMessage) && documentId == req.id
                    && rows == old(rows)[d.id.value := d.row])
    {
      var d := DecideCreate(req, today);
      if d.Refuse? {
        return d.reply, None;
      }
      if d.id.None? {
        return Reply(500, UndefinedBindMessage), None;
      }
      var id := d.id.value;
      if id in rows {
        return Reply(500, DuplicateEntryMessage(id, "document", "PRIMARY")), None;
      }
      rows := rows[id := d.row];
      reply, documentId := Reply(201, CreatedMessage), Some(id);
    }

    /** `GET /search-documents`: builds the statement for the caller's role
        and runs it, returning the selected columns of every row its WHERE
        clause keeps. */
    method Search(queryParam: Option<string>, emailParam: Option<string>, roleParam: Option<string>)
      returns (r: SearchReply)
      requires Valid()
      ensures r.SearchRows? ==>
                forall x: ResultRow :: x in r.rows && Column.DocumentId in x ==>
                  x[Column.DocumentId].Some? && x[Column.DocumentId].value in rows
      ensures var plan := SearchSpec(queryParam, emailParam, roleParam);
              && (plan.Refused? ==> r == SearchRefused(Reply(400, plan.message)))
              && (plan.Plan? ==> r == SearchRows(set d | d in rows.Values && Selects(plan.where, plan.params, d)
                                                    :: Project(plan.columns, d)))
    {
      var built := BuildSearch(queryParam, emailParam, roleParam);
      if built.Rejected? {
        return SearchRefused(Reply(400, built.error));
      }
      r := SearchRows(set d | d in rows.Values && Selects(built.where, built.params, d) :: Project(built.columns, d));
      forall x: ResultRow | x in r.rows && Column.DocumentId in x
        ensures x[Column.DocumentId].Some? && x[Column.DocumentId].value in rows
      {
        var d :| d in rows.Values && Selects(built.where, built.params, d) && x == Project(built.columns, d);
        var k :| k in rows && rows[k] == d;
      }
    }

    /** `PUT /documents/:id`: only the admin may set a status, any string is
        taken, and only that row's status changes. */
    method UpdateStatus(id: string, status: Option<string>, role: Option<string>) returns (reply: Reply)
      requires Valid()
      modifies this
      ensures Valid()
      ensures role != Some("admin") ==>
                reply == Reply(403, "Unauthorized: Only admin can update status") && rows == old(rows)
      ensures role == Some("admin") && status.None? ==>
                reply == Reply(500, "Failed to update") && rows == old(rows)
      ensures role == Some("admin") && status.Some? && id !in old(rows) ==>
                reply == Reply(404, "Document not found") && rows == old(rows)
      ensures role == Some("admin") && status.Some? && id in old(rows) ==>
                && reply == Reply(200, "Document status updated")
                && rows == old(rows)[id := old(rows)[id].(status := status.value)]
    {
      if role != Some("admin") {
        return Reply(403, "Unauthorized: Only admin can update status");
      }
      if status.None? {
        return Reply(500, "Failed to update");
      }
      if id !in rows {
        return Reply(404, "Document not found");
      }
      rows := rows[id := rows[id].(status := status.value)];
      reply := Reply(200, "Document status updated");
    }

    /** `DELETE /documents/:id`: only the admin may delete, and exactly the
        row with that id goes. */
    method Delete(id: string, role: Option<string>) returns (reply: Reply)
      requires Valid()
      modifies this
      ensures Valid()
      ensures role != Some("admin") ==>
                reply == Reply(403, "Forbidden: You do not have permission to delete.") && rows == old(rows)
      ensures role == Some("admin") && id !in old(rows) ==>
                reply == Reply(404, "Document not found") && rows == old(rows)
      ensures role == Some("admin") && id in old(rows) ==>
                reply == Reply(200, "Document deleted successfully") && rows == old(rows) - {id}
    {
      if role != Some("admin") {
        return Reply(403, "Forbidden: You do not have permission to delete.");
      }
      if id !in rows {
        return Reply(404, "Document not found");
      }
      rows := rows - {id};
      reply := Reply(200, "Document deleted successfully");
    }
  }

  /** An admin's search with an empty term returns every row of the table,
      with the staff columns. */
  lemma AdminBrowseReturnsEveryRow(rows: map<string, Document>, queryParam: Option<string>,
                                   emailParam: Option<string>, roleParam: Option<string>)
    requires SearchRole(roleParam) == "admin" && SearchTerm(queryParam) == ""
    ensures var plan := SearchSpec(queryParam, emailParam, roleParam);
            && plan.Plan?
            && (set d | d in rows.Values && Selects(plan.where, plan.params, d) :: Project(plan.columns, d))
               == (set d | d in rows.Values :: Project(StaffColumns, d))
  {
    var plan := SearchSpec(queryParam, emailParam, roleParam);
    AdminSearch(queryParam, emailParam, roleParam);
    assert plan.columns == StaffColumns && plan.where == [] && plan.params == [];
    var all := set d | d in rows.Values :: Project(StaffColumns, d);
    var kept := set d | d in rows.Values && Selects(plan.where, plan.params, d) :: Project(plan.columns, d);
    forall x | x in all ensures x in kept {
      var d :| d in rows.Values && x == Project(StaffColumns, d);
      assert Selects(plan.where, plan.params, d);
    }
  }

  /** After `UpdateStatus` sets a row's status (its new table is `after`),
      an admin search with an empty term returns that row with the new status,
      every other row as it was, and nothing else. */
  lemma UpdateThenAdminSearch(rows: map<string, Document>, id: string, status: string,
                              queryParam: Option<string>, emailParam: Option<string>)
    requires id in rows && SearchTerm(queryParam) == ""
    ensures var plan := SearchSpec(queryParam, emailParam, Some("admin"));
            var after := rows[id := rows[id].(status := status)];
            var found := set d | d in after.Values && Selects(plan.where, plan.params, d) :: Project(plan.columns, d);
            && Project(StaffColumns, rows[id].(status := status)) in found
            && Project(StaffColumns, rows[id].(status := status))[Status] == Some(status)
            && (forall k :: k in rows && k != id ==> Project(StaffColumns, rows[k]) in found)
            && found == (set d | d in after.Values :: Project(StaffColumns, d))
  {
    var plan := SearchSpec(queryParam, emailParam, Some("admin"));
    var after := rows[id := rows[id].(status := status)];
    AdminBrowseReturnsEveryRow(after, queryParam, emailParam, Some("admin"));
    assert after[id] in after.Values;
    forall k | k in rows && k != id
      ensures Project(StaffColumns, rows[k]) in (set d | d in after.Values :: Project(StaffColumns, d))
    {
      assert after[k] == rows[k];
      assert after[k] in after.Values;
    }
  }
}
