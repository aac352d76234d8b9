/** `GET /search-documents`: the SELECT text and parameter list the handler
    builds for each role, and the meaning of its WHERE clause as SQL reads it. */
module DocumentSearch {
  import opened Js
  import opened Documents

  // ---------------------------------------------------------------------
  // SQL conditions, WHERE token streams and their meaning
  // ---------------------------------------------------------------------

  /** A single condition with one `?` placeholder. */
  datatype Cond = Like(col: Column) | Equals(col: Column)

  /** The WHERE clause as a stream of tokens; `Group` is a parenthesised run. */
  datatype Token = Atom(cond: Cond) | AndKw | OrKw | Group(inner: seq<Token>)

  function CondText(c: Cond): string
  {
    match c
    case Like(col) => ColumnName(col) + " LIKE ?"
    case Equals(col) => ColumnName(col) + " = ?"
  }

  /** The SQL text of a token stream (white space inside a clause normalised
      to single spaces). */
  function Render(ts: seq<Token>): string
    decreases ts
  {
    if ts == [] then ""
    else
      (match ts[0]
       case Atom(c) => CondText(c)
       case AndKw => " AND "
       case OrKw => " OR "
       case Group(inner) => "(" + Render(inner) + ")")
      + Render(ts[1..])
  }

  /** The number of `?` placeholders in a token stream. */
  function Placeholders(ts: seq<Token>): nat
    decreases ts
  {
    if ts == [] then 0
    else
      (match ts[0]
       case Atom(_) => 1
       case AndKw => 0
       case OrKw => 0
       case Group(inner) => Placeholders(inner))
      + Placeholders(ts[1..])
  }

  /** The number of `?` characters in a string. */
  function CountQ(s: string): nat
  {
    if s == [] then 0 else (if s[0] == '?' then 1 else 0) + CountQ(s[1..])
  }

  lemma {:induction false} CountQAppend(a: string, b: string)
    ensures CountQ(a + b) == CountQ(a) + CountQ(b)
  {
    if a == [] {
      assert a + b == b;
    } else {
      assert (a + b)[0] == a[0];
      assert (a + b)[1..] == a[1..] + b;
      CountQAppend(a[1..], b);
    }
  }

  lemma {:induction false} CountQNone(s: string)
    requires forall i :: 0 <= i < |s| ==> s[i] != '?'
    ensures CountQ(s) == 0
  {
    if s != [] {
      CountQNone(s[1..]);
    }
  }

  lemma ColumnNameHasNoPlaceholder(c: Column)
    ensures CountQ(ColumnName(c)) == 0
  {
    CountQNone(ColumnName(c));
  }

  lemma CondTextHasOnePlaceholder(c: Cond)
    ensures CountQ(CondText(c)) == 1
  {
    ColumnNameHasNoPlaceholder(c.col);
    match c
    case Like(col) => CountQAppend(ColumnName(col), " LIKE ?");
    case Equals(col) => CountQAppend(ColumnName(col), " = ?");
  }

  /** The text of a token stream carries exactly one `?` per condition. */
  lemma {:induction false} RenderPlaceholders(ts: seq<Token>)
    ensures CountQ(Render(ts)) == Placeholders(ts)
    decreases ts
  {
    if ts != [] {
      RenderPlaceholders(ts[1..]);
      match ts[0]
      case Atom(c) =>
        CondTextHasOnePlaceholder(c);
        CountQAppend(CondText(c), Render(ts[1..]));
      case AndKw =>
        CountQAppend(" AND ", Render(ts[1..]));
      case OrKw =>
        CountQAppend(" OR ", Render(ts[1..]));
      case Group(inner) =>
        RenderPlaceholders(inner);
        CountQAppend("(", Render(inner));
        CountQAppend("(" + Render(inner), ")");
        CountQAppend("(" + Render(inner) + ")", Render(ts[1..]));
    }
  }

  lemma {:induction false} RenderAppend(a: seq<Token>, b: seq<Token>)
    ensures Render(a + b) == Render(a) + Render(b)
    ensures Placeholders(a + b) == Placeholders(a) + Placeholders(b)
  {
    if a == [] {
      assert a + b == b;
    } else {
      assert (a + b)[0] == a[0];
      assert (a + b)[1..] == a[1..] + b;
      RenderAppend(a[1..], b);
    }
  }

  /** MySQL `LIKE` with its default escape character: `%` matches any run of
      characters, `_` any one character, and `\` makes the character after it
      literal; a `\` at the end of the pattern stands for itself. The
      comparison is case-sensitive here. */
  predicate LikeMatch(s: string, p: string)
    decreases |s| + |p|
  {
    if p == [] then s == []
    else if p[0] == '%' then LikeMatch(s, p[1..]) || (s != [] && LikeMatch(s[1..], p))
    else if p[0] == '\\' && |p| >= 2 then s != [] && s[0] == p[1] && LikeMatch(s[1..], p[2..])
    else s != [] && (p[0] == '_' || s[0] == p[0]) && LikeMatch(s[1..], p[1..])
  }

  /** A search term in which `LIKE` sees no wildcard and no escape. */
  predicate NoWildcards(q: string)
  {
    forall i :: 0 <= i < |q| ==> q[i] != '%' && q[i] != '_' && q[i] != '\\'
  }

  /** The pattern `%q%` the handler binds for a search term `q`. */
  function Pattern(q: string): string
  {
    "%" + q + "%"
  }

  lemma {:induction false} PercentMatchesAll(s: string)
    ensures LikeMatch(s, "%")
  {
    if s != [] {
      PercentMatchesAll(s[1..]);
    }
  }

  lemma {:induction false} PrefixPattern(s: string, q: string)
    requires NoWildcards(q)
    ensures LikeMatch(s, q + "%") <==> |q| <= |s| && s[..|q|] == q
  {
    if q == [] {
      PercentMatchesAll(s);
      assert q + "%" == "%";
    } else {
      assert (q + "%")[0] == q[0];
      assert (q + "%")[1..] == q[1..] + "%";
      if s != [] {
        PrefixPattern(s[1..], q[1..]);
        if |q| <= |s| && s[..|q|] == q {
          assert s[1..][..|q| - 1] == q[1..];
        }
        if |q| - 1 <= |s| - 1 && s[1..][..|q| - 1] == q[1..] && s[0] == q[0] {
          assert s[..|q|] == [s[0]] + s[1..][..|q| - 1];
        }
      }
    }
  }

  lemma {:induction false} LeadingPercent(s: string, p: string)
    ensures LikeMatch(s, "%" + p) <==> exists i | 0 <= i <= |s| :: LikeMatch(s[i..], p)
  {
    assert ("%" + p)[1..] == p;
    if s == [] {
      assert s[0..] == s;
    } else {
      LeadingPercent(s[1..], p);
      assert s[0..] == s;
      if exists i | 0 <= i <= |s| :: LikeMatch(s[i..], p) {
        var i :| 0 <= i <= |s| && LikeMatch(s[i..], p);
        if i > 0 {
          assert s[1..][i - 1..] == s[i..];
        }
      }
      if exists i | 0 <= i <= |s| - 1 :: LikeMatch(s[1..][i..], p) {
        var i :| 0 <= i <= |s| - 1 && LikeMatch(s[1..][i..], p);
        assert s[1..][i..] == s[i + 1..];
      }
    }
  }

  /** For a search term without wildcards or backslashes, `col LIKE '%q%'`
      is substring containment. */
  lemma LikePatternIsContains(s: string, q: string)
    requires NoWildcards(q)
    ensures LikeMatch(s, Pattern(q)) <==> Contains(s, q)
  {
    assert Pattern(q) == "%" + (q + "%");
    LeadingPercent(s, q + "%");
    if LikeMatch(s, Pattern(q)) {
      var i :| 0 <= i <= |s| && LikeMatch(s[i..], q + "%");
      PrefixPattern(s[i..], q);
      assert s[i..][..|q|] == s[i..i + |q|];
      assert OccursAt(s, q, i);
    }
    if Contains(s, q) {
      var i :| 0 <= i <= |s| && OccursAt(s, q, i);
      PrefixPattern(s[i..], q);
      assert s[i..][..|q|] == s[i..i + |q|];
    }
  }

  /** A backslash in the term escapes the next character rather than
      matching itself: searching for `a\b` finds `ab` but not `a\b`, and
      searching for `50\` turns the closing `%` into a literal, so only
      values that end in `50%` are found. */
  lemma BackslashEscapes()
    ensures LikeMatch("ab", Pattern("a\\b")) && !LikeMatch("a\\b", Pattern("a\\b"))
    ensures !LikeMatch("50", Pattern("50\\")) && LikeMatch("50%", Pattern("50\\"))
  {
  }

  /** A condition with its bound parameter, on one row. A NULL column makes
      both `=` and `LIKE` unknown, which WHERE treats as false; since the
      clauses use only AND and OR this is the same as reading unknown as false. */
  predicate Test(c: Cond, p: string, d: Document)
  {
    match c
    case Equals(col) => Value(d, col) == Some(p)
    case Like(col) => Value(d, col).Some? && LikeMatch(Value(d, col).value, p)
  }

  function Drop(ps: seq<string>, n: nat): seq<string>
  {
    if n <= |ps| then ps[n..] else []
  }

  /** Evaluates a token stream as SQL does: AND binds tighter than OR, so an
      unparenthesised stream is a disjunction of AND-chains. The parameters
      `ps` are bound to the placeholders from left to right; `chain` is the
      value of the AND-chain read so far. */
  predicate Holds(ts: seq<Token>, ps: seq<string>, d: Document, chain: bool)
    decreases ts
  {
    if ts == [] then chain
    else
      match ts[0]
      case Atom(c) => Holds(ts[1..], Drop(ps, 1), d, chain && ps != [] && Test(c, ps[0], d))
      case AndKw => Holds(ts[1..], ps, d, chain)
      case OrKw => chain || Holds(ts[1..], ps, d, true)
      case Group(inner) =>
        Holds(ts[1..], Drop(ps, Placeholders(inner)), d, chain && Holds(inner, ps, d, true))
  }

  /** Whether `WHERE <ts>` with parameters `ps` keeps row `d` (no WHERE keeps every row). */
  predicate Selects(ts: seq<Token>, ps: seq<string>, d: Document)
  {
    Holds(ts, ps, d, true)
  }

  /** `c LIKE ?` bound to `%q%`. */
  predicate LikeQ(col: Column, q: string, d: Document)
  {
    Test(Like(col), Pattern(q), d)
  }

  // ---------------------------------------------------------------------
  // The pieces the handler appends
  // ---------------------------------------------------------------------

  /** Projection for citizens: no `orgEmail`. */
  const CitizenColumns: seq<Column> :=
    [DocumentId, SenderOrg, ApplicantName, ReceivedOffice, ReceiptDate, Purpose, Details, Status, SubmittedBy]

  /** Projection for every other role. */
  const StaffColumns: seq<Column> :=
    [DocumentId, SenderOrg, ApplicantName, OrgEmail, ReceivedOffice, ReceiptDate, Purpose, Details, Status, SubmittedBy]

  /** `document_id LIKE ? OR contactNumber LIKE ?` */
  const CitizenClause: seq<Token> := [Atom(Like(DocumentId)), OrKw, Atom(Like(ContactNumber))]

  /** `submittedBy = ?` */
  const OwnerClause: seq<Token> := [Atom(Equals(SubmittedBy))]

  /** `document_id LIKE ? OR senderOrg LIKE ? OR applicantName LIKE ?` */
  const UserClause: seq<Token> :=
    [Atom(Like(DocumentId)), OrKw, Atom(Like(SenderOrg)), OrKw, Atom(Like(ApplicantName))]

  /** `document_id LIKE ? OR senderOrg LIKE ? OR applicantName LIKE ? OR orgEmail LIKE ?` */
  const AdminClause: seq<Token> :=
    [Atom(Like(DocumentId)), OrKw, Atom(Like(SenderOrg)), OrKw, Atom(Like(ApplicantName)), OrKw, Atom(Like(OrgEmail))]

  function SelectItem(c: Column): string
  {
    if c == DocumentId then "document_id AS id" else ColumnName(c)
  }

  /** The comma-separated projection. */
  function SelectList(cols: seq<Column>): string
  {
    if cols == [] then ""
    else if |cols| == 1 then SelectItem(cols[0])
    else SelectItem(cols[0]) + ", " + SelectList(cols[1..])
  }

  lemma {:induction false} SelectListHasNoPlaceholder(cols: seq<Column>)
    ensures CountQ(SelectList(cols)) == 0
  {
    if cols != [] {
      var c := cols[0];
      assert CountQ(SelectItem(c)) == 0 by {
        if c == DocumentId {
          CountQNone("document_id AS id");
        } else {
          ColumnNameHasNoPlaceholder(c);
        }
      }
      if |cols| > 1 {
        SelectListHasNoPlaceholder(cols[1..]);
        CountQAppend(SelectItem(c), ", ");
        CountQAppend(SelectItem(c) + ", ", SelectList(cols[1..]));
      }
    }
  }

  /** The where-clause list joined by AND tokens, as `whereClauses.join(' AND ')`. */
  function JoinAnd(clauses: seq<seq<Token>>): seq<Token>
  {
    if clauses == [] then []
    else if |clauses| == 1 then clauses[0]
    else clauses[0] + [AndKw] + JoinAnd(clauses[1..])
  }

  /** JavaScript's `texts.join(sep)`. */
  function JoinText(texts: seq<string>, sep: string): string
  {
    if texts == [] then ""
    else if |texts| == 1 then texts[0]
    else texts[0] + sep + JoinText(texts[1..], sep)
  }

  function ClauseTexts(clauses: seq<seq<Token>>): (r: seq<string>)
    ensures |r| == |clauses|
    ensures forall i :: 0 <= i < |clauses| ==> r[i] == Render(clauses[i])
  {
    if clauses == [] then [] else [Render(clauses[0])] + ClauseTexts(clauses[1..])
  }

  /** Joining the clause texts with " AND " gives the text of the joined token stream. */
  lemma {:induction false} JoinTextIsRender(clauses: seq<seq<Token>>)
    ensures JoinText(ClauseTexts(clauses), " AND ") == Render(JoinAnd(clauses))
  {
    if |clauses| > 1 {
      JoinTextIsRender(clauses[1..]);
      assert ClauseTexts(clauses)[1..] == ClauseTexts(clauses[1..]);
      RenderAppend(clauses[0], [AndKw]);
      RenderAppend(clauses[0] + [AndKw], JoinAnd(clauses[1..]));
      assert Render([AndKw]) == " AND ";
    }
  }

  // ---------------------------------------------------------------------
  // The handler's builder
  // ---------------------------------------------------------------------

  /** `req.query.query?.trim() || ''` */
  function SearchTerm(queryParam: Option<string>): (q: string)
    ensures q == "" <==> queryParam.None? || AllSpace(queryParam.value)
    ensures q != "" ==> !IsSpace(q[0]) && !IsSpace(q[|q| - 1])
  {
    if queryParam.Some? then
      TrimEmptyIffAllSpace(queryParam.value);
      TrimIsSlice(queryParam.value);
      Trim(queryParam.value)
    else ""
  }

  /** `req.query.role ?? 'user'` */
  function SearchRole(roleParam: Option<string>): string
  {
    Nullish(roleParam, "user")
  }

  /** ` WHERE <clauses>`, or nothing when there is no clause. */
  function WhereText(where: seq<Token>): string
  {
    if where == [] then "" else " WHERE " + Render(where)
  }

  /** The text of the SELECT statement with a projection and a WHERE stream. */
  function Statement(columns: seq<Column>, where: seq<Token>): string
  {
    "SELECT " + SelectList(columns) + " FROM document " + WhereText(where)
  }

  /** The statement carries one `?` per condition of its WHERE stream. */
  lemma StatementPlaceholders(columns: seq<Column>, where: seq<Token>)
    ensures CountQ(Statement(columns, where)) == Placeholders(where)
  {
    KeywordsHaveNoPlaceholder();
    SelectListHasNoPlaceholder(columns);
    WhereTextPlaceholders(where);
    CountQConcat4("SELECT ", SelectList(columns), " FROM document ", WhereText(where));
  }

  lemma KeywordsHaveNoPlaceholder()
    ensures CountQ("SELECT ") == 0 && CountQ(" FROM document ") == 0 && CountQ(" WHERE ") == 0
  {
    SelectHasNoPlaceholder();
    FromHasNoPlaceholder();
    WhereHasNoPlaceholder();
  }

  lemma SelectHasNoPlaceholder() ensures CountQ("SELECT ") == 0 { CountQNone("SELECT "); }
  lemma FromHasNoPlaceholder() ensures CountQ(" FROM document ") == 0 { CountQNone(" FROM document "); }
  lemma WhereHasNoPlaceholder() ensures CountQ(" WHERE ") == 0 { CountQNone(" WHERE "); }

  lemma WhereTextPlaceholders(where: seq<Token>)
    ensures CountQ(WhereText(where)) == Placeholders(where)
  {
    if where != [] {
      RenderPlaceholders(where);
      KeywordsHaveNoPlaceholder();
      CountQAppend(" WHERE ", Render(where));
    }
  }

  lemma CountQConcat4(a: string, b: string, c: string, d: string)
    ensures CountQ(a + b + c + d) == CountQ(a) + CountQ(b) + CountQ(c) + CountQ(d)
  {
    CountQAppend(a, b);
    CountQAppend(a + b, c);
    CountQAppend(a + b + c, d);
  }

  /** What the handler decides for a search request: refuse it with a 400
      message, or run a statement with this projection, WHERE stream and
      parameters. */
  datatype SearchPlan =
    | Refused(message: string)
    | Plan(columns: seq<Column>, where: seq<Token>, params: seq<string>)

  /** What the builder hands to the database: the statement text alongside
      the plan it was built from. */
  datatype SearchBuild =
    | Rejected(error: string)
    | Query(sql: string, columns: seq<Column>, where: seq<Token>, params: seq<string>)

  /** The plan a build carries, without its text. */
  function PlanOf(r: SearchBuild): SearchPlan
  {
    if r.Rejected? then Refused(r.error) else Plan(r.columns, r.where, r.params)
  }

  /** The decision of `GET /search-documents`, branch by branch: the
      reference the builder below is proved against. */
  function SearchSpec(queryParam: Option<string>, emailParam: Option<string>, roleParam: Option<string>): SearchPlan
  {
    PlanFor(SearchTerm(queryParam), emailParam, SearchRole(roleParam))
  }

  /** The decision for a trimmed term `q`, the `email` parameter and the
      resolved role. */
  function PlanFor(q: string, email: Option<string>, role: string): SearchPlan
  {
    if role == "citizen" then
      if q == "" then Refused("Search query is required for citizens")
      else Plan(CitizenColumns, CitizenClause, [Pattern(q), Pattern(q)])
    else if role != "admin" then
      if q == "" || !Truthy(email) then Refused("Search query and email are required")
      else Plan(StaffColumns, OwnerWhere(), [email.value, Pattern(q), Pattern(q), Pattern(q)])
    else if q == "" then Plan(StaffColumns, [], [])
    else Plan(StaffColumns, AdminClause, [Pattern(q), Pattern(q), Pattern(q), Pattern(q)])
  }

  /** The builder of `GET /search-documents`: reads the parameters, chooses
      the projection, pushes the clauses and parameters of the caller's
      role, then assembles the text. Its text is the statement of the plan
      it decides. */
  method BuildSearch(queryParam: Option<string>, emailParam: Option<string>, roleParam: Option<string>)
    returns (r: SearchBuild)
    ensures PlanOf(r) == SearchSpec(queryParam, emailParam, roleParam)
    ensures r.Query? ==> r.sql == Statement(r.columns, r.where)
  {
    var query := SearchTerm(queryParam);
    var submittedBy := emailParam;
    var role := SearchRole(roleParam);
    r := BuildFor(query, submittedBy, role);
  }

  /** The body of the handler once the parameters are read. */
  method BuildFor(query: string, submittedBy: Option<string>, role: string) returns (r: SearchBuild)
    ensures PlanOf(r) == PlanFor(query, submittedBy, role)
    ensures r.Query? ==> r.sql == Statement(r.columns, r.where)
  {
    var params: seq<string> := [];
    var whereClauses: seq<seq<Token>> := [];
    var columns := if role == "citizen" then CitizenColumns else StaffColumns;

    var pattern := Pattern(query);
    if role == "citizen" {
      if query == "" {
        return Rejected("Search query is required for citizens");
      }
      whereClauses := whereClauses + [CitizenClause];
      params := params + [pattern, pattern];
      assert whereClauses == [CitizenClause];
      assert JoinAnd(whereClauses) == CitizenClause;
      assert PlanFor(query, submittedBy, role) == Plan(columns, JoinAnd(whereClauses), params);
    } else if role != "admin" {
      if query == "" || !Truthy(submittedBy) {
        return Rejected("Search query and email are required");
      }
      whereClauses := whereClauses + [OwnerClause];
      params := params + [submittedBy.value];
      whereClauses := whereClauses + [UserClause];
      params := params + [pattern, pattern, pattern];
      assert whereClauses == [OwnerClause, UserClause];
      assert JoinAnd(whereClauses) == OwnerWhere();
      assert PlanFor(query, submittedBy, role) == Plan(columns, JoinAnd(whereClauses), params);
    } else {
      if query != "" {
        whereClauses := whereClauses + [AdminClause];
        params := params + [pattern, pattern, pattern, pattern];
        assert whereClauses == [AdminClause];
        assert JoinAnd(whereClauses) == AdminClause;
      }
      assert PlanFor(query, submittedBy, role) == Plan(columns, JoinAnd(whereClauses), params);
    }
    assert [] !in whereClauses;

    var sql := StatementText(columns, whereClauses);
    r := Query(sql, columns, JoinAnd(whereClauses), params);
  }

  /** The text of the handler's statement: `SELECT`, the projection,
      `FROM document`, then ` WHERE ` and the clauses joined by ` AND ` when
      there is at least one. */
  method StatementText(columns: seq<Column>, whereClauses: seq<seq<Token>>) returns (sql: string)
    requires [] !in whereClauses
    ensures sql == Statement(columns, JoinAnd(whereClauses))
  {
    sql := "SELECT ";
    sql := sql + SelectList(columns);
    sql := sql + " FROM document ";
    ghost var prefix := sql;
    if |whereClauses| > 0 {
      sql := sql + (" WHERE " + JoinText(ClauseTexts(whereClauses), " AND "));
    }
    BuiltStatement(columns, whereClauses, prefix, sql);
  }

  /** The text appended by the builder is the statement of the joined clauses. */
  lemma BuiltStatement(columns: seq<Column>, clauses: seq<seq<Token>>, prefix: string, sql: string)
    requires prefix == "SELECT " + SelectList(columns) + " FROM document "
    requires [] !in clauses
    requires sql == if |clauses| > 0 then prefix + (" WHERE " + JoinText(ClauseTexts(clauses), " AND ")) else prefix
    ensures sql == Statement(columns, JoinAnd(clauses))
  {
    if |clauses| > 0 {
      JoinTextIsRender(clauses);
      assert clauses[0] in clauses;
      assert |JoinAnd(clauses)| >= |clauses[0]| > 0;
    } else {
      assert prefix + "" == prefix;
    }
  }

  // ---------------------------------------------------------------------
  // What the statement of each branch means
  // ---------------------------------------------------------------------

  /** Requests the handler refuses with 400, and its messages. */
  lemma SearchRejections(queryParam: Option<string>, emailParam: Option<string>, roleParam: Option<string>)
    ensures var r := SearchSpec(queryParam, emailParam, roleParam);
            && (r.Refused? <==>
                  (SearchRole(roleParam) == "citizen" && SearchTerm(queryParam) == "")
                  || (SearchRole(roleParam) != "citizen" && SearchRole(roleParam) != "admin"
                      && (SearchTerm(queryParam) == "" || !Truthy(emailParam))))
            && (r.Refused? && SearchRole(roleParam) == "citizen" ==> r.message == "Search query is required for citizens")
            && (r.Refused? && SearchRole(roleParam) != "citizen" ==> r.message == "Search query and email are required")
  {
  }

  /** In every branch the statement has exactly one `?` per parameter. */
  lemma SearchPlaceholdersMatchParams(queryParam: Option<string>, emailParam: Option<string>, roleParam: Option<string>)
    ensures var r := SearchSpec(queryParam, emailParam, roleParam);
            r.Plan? ==> CountQ(Statement(r.columns, r.where)) == |r.params|
  {
    var r := SearchSpec(queryParam, emailParam, roleParam);
    if r.Plan? {
      StatementPlaceholders(r.columns, r.where);
      var q := SearchTerm(queryParam);
      if SearchRole(roleParam) == "citizen" {
        CitizenWhereMeaning(q);
      } else if SearchRole(roleParam) != "admin" {
        OwnerWhereAsWritten(emailParam.value, q);
      } else if q != "" {
        AdminWhereMeaning(q);
      }
    }
  }

  /** Citizens: no `orgEmail` column, and a row is returned exactly when the
      term occurs in its id or its contact number. */
  lemma CitizenSearch(queryParam: Option<string>, emailParam: Option<string>, roleParam: Option<string>)
    requires SearchRole(roleParam) == "citizen" && SearchTerm(queryParam) != ""
    ensures var r, q := SearchSpec(queryParam, emailParam, roleParam), SearchTerm(queryParam);
            && r.Plan? && OrgEmail !in r.columns
            && r.params == [Pattern(q), Pattern(q)]
            && forall d :: Selects(r.where, r.params, d) <==> LikeQ(DocumentId, q, d) || LikeQ(ContactNumber, q, d)
  {
    CitizenWhereMeaning(SearchTerm(queryParam));
  }

  /** Any other non-admin role (including the default `user`): the
      parameters are the e-mail and three patterns, and, AND binding tighter
      than OR, the owner test restricts only the `document_id` disjunct. */
  lemma OwnerSearch(queryParam: Option<string>, emailParam: Option<string>, roleParam: Option<string>)
    requires SearchRole(roleParam) != "citizen" && SearchRole(roleParam) != "admin"
    requires SearchTerm(queryParam) != "" && Truthy(emailParam)
    ensures var r, q := SearchSpec(queryParam, emailParam, roleParam), SearchTerm(queryParam);
            && r.Plan? && OrgEmail in r.columns
            && r.params == [emailParam.value, Pattern(q), Pattern(q), Pattern(q)]
            && forall d :: Selects(r.where, r.params, d) <==>
                 (d.submittedBy == emailParam.value && LikeQ(DocumentId, q, d))
                 || LikeQ(SenderOrg, q, d) || LikeQ(ApplicantName, q, d)
  {
    OwnerWhereAsWritten(emailParam.value, SearchTerm(queryParam));
  }

  /** Admins: an empty term gives no WHERE and no parameters, so every row is
      returned; otherwise four patterns over id, organisation, applicant and e-mail. */
  lemma AdminSearch(queryParam: Option<string>, emailParam: Option<string>, roleParam: Option<string>)
    requires SearchRole(roleParam) == "admin"
    ensures var r, q := SearchSpec(queryParam, emailParam, roleParam), SearchTerm(queryParam);
            && r.Plan? && OrgEmail in r.columns
            && (q == "" ==> r.where == [] && r.params == [] && forall d :: Selects(r.where, r.params, d))
            && (q != "" ==>
                  && r.params == [Pattern(q), Pattern(q), Pattern(q), Pattern(q)]
                  && forall d :: Selects(r.where, r.params, d) <==>
                       LikeQ(DocumentId, q, d) || LikeQ(SenderOrg, q, d)
                       || LikeQ(ApplicantName, q, d) || LikeQ(OrgEmail, q, d))
  {
    if SearchTerm(queryParam) != "" {
      AdminWhereMeaning(SearchTerm(queryParam));
    }
  }

  // ---------------------------------------------------------------------
  // What each clause list selects
  // ---------------------------------------------------------------------

  lemma CitizenWhereMeaning(q: string)
    ensures Placeholders(JoinAnd([CitizenClause])) == 2
    ensures forall d :: Selects(JoinAnd([CitizenClause]), [Pattern(q), Pattern(q)], d) <==>
                          LikeQ(DocumentId, q, d) || LikeQ(ContactNumber, q, d)
  {
    var ts := JoinAnd([CitizenClause]);
    assert ts == CitizenClause;
    assert ts[1..][1..][1..] == [];
  }

  /** The clauses of a non-admin, non-citizen search joined as written:
      `submittedBy = ? AND document_id LIKE ? OR senderOrg LIKE ? OR applicantName LIKE ?`. */
  function OwnerWhere(): seq<Token>
  {
    JoinAnd([OwnerClause, UserClause])
  }

  /** Under AND-before-OR, the owner restriction governs only the
      `document_id` disjunct. */
  lemma OwnerWhereAsWritten(email: string, q: string)
    ensures OwnerWhere() == OwnerClause + [AndKw] + UserClause
    ensures Placeholders(OwnerWhere()) == 4
    ensures forall d :: Selects(OwnerWhere(), [email, Pattern(q), Pattern(q), Pattern(q)], d) <==>
                          (d.submittedBy == email && LikeQ(DocumentId, q, d))
                          || LikeQ(SenderOrg, q, d) || LikeQ(ApplicantName, q, d)
  {
    var ts := OwnerWhere();
    assert [OwnerClause, UserClause][1..] == [UserClause];
    assert JoinAnd([UserClause]) == UserClause;
    assert ts == OwnerClause + [AndKw] + UserClause;
    assert ts == [Atom(Equals(SubmittedBy)), AndKw, Atom(Like(DocumentId)), OrKw,
                  Atom(Like(SenderOrg)), OrKw, Atom(Like(ApplicantName))];
    var ps := [email, Pattern(q), Pattern(q), Pattern(q)];
    assert ts[1..][1..][1..][1..][1..][1..][1..] == [];
  }

  lemma AdminWhereMeaning(q: string)
    ensures Placeholders(JoinAnd([AdminClause])) == 4
    ensures forall d :: Selects(JoinAnd([AdminClause]), [Pattern(q), Pattern(q), Pattern(q), Pattern(q)], d) <==>
                          LikeQ(DocumentId, q, d) || LikeQ(SenderOrg, q, d)
                          || LikeQ(ApplicantName, q, d) || LikeQ(OrgEmail, q, d)
  {
    var ts := JoinAnd([AdminClause]);
    assert ts == AdminClause;
    assert ts[1..][1..][1..][1..][1..][1..][1..] == [];
  }

  /** As written, a non-admin search returns rows submitted by someone else:
      here a row of `b@y.org` whose sender organisation contains the term,
      searched for by `a@x.org`. */
  lemma OwnerWhereLeaks()
    ensures var d := Document("DOC-2024-0001", "x", "n", None, "0123456789", "o", "2024-01-01",
                              None, None, "Submitted", "b@y.org");
            d.submittedBy != "a@x.org"
            && Selects(OwnerWhere(), ["a@x.org", Pattern("x"), Pattern("x"), Pattern("x")], d)
  {
    var d := Document("DOC-2024-0001", "x", "n", None, "0123456789", "o", "2024-01-01",
                      None, None, "Submitted", "b@y.org");
    OwnerWhereAsWritten("a@x.org", "x");
    assert LikeMatch("x", Pattern("x")) by {
      assert Pattern("x") == ['%', 'x', '%'];
      assert LikeMatch([], ['%']) by { PercentMatchesAll([]); }
    }
    assert LikeQ(SenderOrg, "x", d);
  }

  /** The clause list with every clause parenthesised before joining:
      `(submittedBy = ?) AND (document_id LIKE ? OR senderOrg LIKE ? OR applicantName LIKE ?)`. */
  function GroupedOwnerWhere(): seq<Token>
  {
    JoinAnd([[Group(OwnerClause)], [Group(UserClause)]])
  }

  /** With the clauses parenthesised, every selected row belongs to the
      searching submitter, and the term may match any of the three columns. */
  lemma GroupedOwnerWhereRestricts(email: string, q: string)
    ensures Placeholders(GroupedOwnerWhere()) == 4
    ensures forall d :: Selects(GroupedOwnerWhere(), [email, Pattern(q), Pattern(q), Pattern(q)], d) <==>
                          d.submittedBy == email
                          && (LikeQ(DocumentId, q, d) || LikeQ(SenderOrg, q, d) || LikeQ(ApplicantName, q, d))
  {
    var ts := GroupedOwnerWhere();
    assert [[Group(OwnerClause)], [Group(UserClause)]][1..] == [[Group(UserClause)]];
    assert JoinAnd([[Group(UserClause)]]) == [Group(UserClause)];
    assert ts == [Group(OwnerClause)] + [AndKw] + [Group(UserClause)];
    assert ts == [Group(OwnerClause), AndKw, Group(UserClause)];
    var ps := [email, Pattern(q), Pattern(q), Pattern(q)];
    assert Placeholders(OwnerClause) == 1 by { assert OwnerClause[1..] == []; }
    assert Placeholders(UserClause) == 3 by { assert UserClause[1..][1..][1..][1..][1..] == []; }
    assert Drop(ps, 1) == [Pattern(q), Pattern(q), Pattern(q)];
    assert OwnerClause[1..] == [];
    assert UserClause[1..][1..][1..][1..][1..] == [];
    assert ts[1..][1..][1..] == [];
  }
}
