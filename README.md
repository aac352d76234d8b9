# File Tracking System — a Dafny model

The File Tracking System is a small document register. An Express backend
keeps a `document` table and two credential tables (`users` and `admins`) in
MySQL. A React client submits documents, searches and manages them, and
handles registration, login and password reset. This project models the
decision logic in front of the database and the client's validators and
counters, and proves what they promise.

- `js.dfy` (`Js`): the JavaScript value helpers the handlers rely on.
  These are truthiness, `||` defaults, `trim()`, decimal rendering of a
  number, `slice(-4)` and string comparison.
- `server.dfy` (`Server`): HTTP replies, and the MySQL driver's error
  texts that the handlers pass on or inspect.
- `documents.dfy` (`Documents`): a row of the `document` table, its
  columns, and the projection a SELECT returns.
- `document_search.dfy` (`DocumentSearch`): the builder of
  `GET /search-documents`. It produces the statement text and the
  parameter list step by step. The module also gives the meaning of the
  WHERE clause under SQL's AND-before-OR precedence and of `LIKE '%q%'`.
- `document_routes.dfy` (`DocumentRoutes`): `POST /new-document`,
  `GET /search-documents`, `PUT /documents/:id` and
  `DELETE /documents/:id`. The `DocumentTable` class holds the table as a
  map keyed by `document_id`.
- `auth_routes.dfy` (`AuthRoutes`): `getTable`, register, login,
  forgot-password and reset-password. The `CredentialStore` class holds the
  two tables and the reset-token life cycle.
- `authentic.dfy` (`Authentic`): the dashboard client. It covers
  `validateDocument`, the generated document id and the submitted body, the
  admin's per-status counters and their in-place updates, and the
  registration form's checks.
- `reset_password.dfy` (`ResetPassword`): the reset page's guard, the token
  it reads from the link, the body it posts and what it shows.

Some inputs are outside the program and become parameters:

- bcrypt hashing: the hash is an argument and `compare` is a function
  argument;
- the random reset token;
- the clock: `now` in milliseconds, and `today` as an ISO date;
- whether the mail transport delivered the reset e-mail.

## Model

| member | source | states |
|---|---|---|
| DocumentRoutes.DecideCreate | login/backend/routes/documentRoutes.js:10-50 | A citizen gets 403, whatever else the body holds. Otherwise 400 exactly when one of the five required fields is falsy. Otherwise the row to insert: null for a falsy orgEmail, purpose or details; today's date for a falsy receiptDate; "Submitted" for an absent status; the other values as given. |
| DocumentRoutes.CitizenGuard | login/backend/routes/documentRoutes.js:17-19 | The 403 refusal happens if and only if the role is `citizen`; an absent or other role passes this guard. |
| DocumentRoutes.WhitespaceFieldsAccepted | login/backend/routes/documentRoutes.js:21-33 | Values are not trimmed, so a body of single spaces passes the required-field check and is inserted as given. |
| DocumentRoutes.DocumentTable.Create | login/backend/routes/documentRoutes.js:35-55 | A refusal leaves the table as it was. An absent id, or an id already present, fails with 500 and the driver's error text, and the table is unchanged. Otherwise the row is added under its id, and the reply is 201 "Document submitted" with `documentId` equal to the id supplied. |
| DocumentRoutes.DocumentTable.Search | login/backend/routes/documentRoutes.js:57-129 | The reply is the 400 message of the specification plan, or the projection of exactly the rows its WHERE clause selects. Every returned `id` is a key of the table. |
| DocumentRoutes.DocumentTable.UpdateStatus | login/backend/routes/documentRoutes.js:157-180 | A non-admin gets 403. An absent status fails with 500 "Failed to update". An unknown id gets 404. In each of these cases the table is unchanged. Otherwise only that row's status changes, to any string given, and the reply is 200. |
| DocumentRoutes.DocumentTable.Delete | login/backend/routes/documentRoutes.js:136-154 | A non-admin gets 403 and an unknown id gets 404, with the table unchanged. Otherwise exactly that row is removed. |
| DocumentRoutes.AdminBrowseReturnsEveryRow | login/backend/routes/documentRoutes.js:108-121 | An admin search with an empty term returns every row of the table, with the staff columns. |
| DocumentRoutes.UpdateThenAdminSearch | login/backend/routes/documentRoutes.js:108-173 | On the table `UpdateStatus` leaves behind, an admin search with an empty term returns exactly the staff columns of every row: the updated row with its new status, and every other row as it was. |
| DocumentSearch.BuildSearch | login/backend/routes/documentRoutes.js:57-122 | The builder's plan equals the specification's plan (`SearchSpec`) in every branch. Its SQL text is the statement of that projection and WHERE stream. |
| DocumentSearch.BuildFor | login/backend/routes/documentRoutes.js:62-122 | The pushes onto `whereClauses` and `params` in each role branch give the plan `PlanFor` decides. |
| DocumentSearch.StatementText | login/backend/routes/documentRoutes.js:62-121 | `SELECT`, the projection, `FROM document`, then ` WHERE ` and the clauses joined by ` AND ` when there is at least one clause. |
| DocumentSearch.SearchRejections | login/backend/routes/documentRoutes.js:57-97 | A request is refused exactly when the role is citizen and the trimmed term is empty, or when another non-admin role lacks the term or the e-mail. Each refusal carries its message. |
| DocumentSearch.SearchPlaceholdersMatchParams | login/backend/routes/documentRoutes.js:62-122 | In every branch, the statement has as many `?` as the parameter list has entries. |
| DocumentSearch.CitizenSearch | login/backend/routes/documentRoutes.js:67-92 | A citizen gets no orgEmail column and two `%q%` parameters. A row is returned exactly when the term matches its id or its contact number. |
| DocumentSearch.OwnerSearch | login/backend/routes/documentRoutes.js:94-107 | Any other non-admin role (default `user`) gets the parameters `[email, %q%, %q%, %q%]`. A row is selected exactly when the submitter test holds with the id match, or the organisation or the applicant matches. |
| DocumentSearch.AdminSearch | login/backend/routes/documentRoutes.js:108-121 | For an admin, an empty term gives no WHERE clause and no parameters, so every row is returned. A non-empty term gives four patterns over id, organisation, applicant and e-mail. |
| DocumentSearch.OwnerWhereAsWritten | login/backend/routes/documentRoutes.js:99-121 | The joined owner clauses read `submittedBy = ? AND document_id LIKE ? OR senderOrg LIKE ? OR applicantName LIKE ?` and mean `(owner AND id) OR org OR applicant`. |
| DocumentSearch.OwnerWhereLeaks | login/backend/routes/documentRoutes.js:99-121 | A row submitted by someone else is selected for a searching user whose term matches its organisation. |
| DocumentSearch.GroupedOwnerWhereRestricts | login/backend/routes/documentRoutes.js:99-107 | With each clause parenthesised, every selected row belongs to the searching submitter, and the term may match any of the three columns. |
| DocumentSearch.LikePatternIsContains | login/backend/routes/documentRoutes.js:91-117 | For a term without `%`, `_` or `\`, `LIKE '%q%'` is substring containment. |
| DocumentSearch.BackslashEscapes | login/backend/routes/documentRoutes.js:92 | A `\` in the term is `LIKE`'s escape: the term `a\b` finds `ab` but not `a\b`, and the term `50\` finds only values that end in `50%`. |
| Documents.Project | login/backend/routes/documentRoutes.js:67-77 | A result row has exactly the selected columns, each with the row's value. |
| AuthRoutes.GetTable | login/backend/routes/authRoutes.js:9-14 | `admin` maps to `admins`; every other value, absent included, maps to `users`. |
| AuthRoutes.FirstMatch | login/backend/routes/authRoutes.js:86-91 | `results[0]` is the first matching row, and there is none exactly when no row matches. |
| AuthRoutes.DecideRegister | login/backend/routes/authRoutes.js:17-51 | 400 exactly when a required field is falsy. Otherwise 400 exactly when an organization has no officeName. A row is inserted exactly when neither refusal applies. It goes to the role's table: an admin row has no role and no officeName, and a user row has the role given and the officeName given, or null. |
| AuthRoutes.RegisteredMessage | login/backend/routes/authRoutes.js:57 | The 201 message is the role with its first character upper-cased, followed by " registered successfully!". |
| AuthRoutes.DuplicateMessage | login/backend/routes/authRoutes.js:62-70 | The 409 text is chosen by whether the database message mentions `username`, else `email`, else neither. |
| AuthRoutes.DuplicateUsernameReported | login/backend/routes/authRoutes.js:62-66 | A duplicate username is always reported as "Username already taken.". |
| AuthRoutes.DuplicateEmailMisreported | login/backend/routes/authRoutes.js:64-67 | A duplicate e-mail address that contains `username` is reported as a taken username. |
| AuthRoutes.DecideLogin | login/backend/routes/authRoutes.js:76-110 | 400 exactly when a field is missing. 401 exactly when no row has the username or the password does not match the first such row. Login succeeds exactly when the fields are present and the password matches the first row with the username. The user object then has that row's username and e-mail, a null designation, and role `admin` when `admin` was requested, else the row's role. |
| AuthRoutes.UnknownUserLooksLikeWrongPassword | login/backend/routes/authRoutes.js:87-95 | An unknown username and a wrong password get the identical 401 reply. |
| AuthRoutes.CredentialStore.Login | login/backend/routes/authRoutes.js:83-110 | On the role's table, the returned role is `admin` if and only if `admin` was requested. Any other login carries the stored row's role. |
| AuthRoutes.CredentialStore.Register | login/backend/routes/authRoutes.js:17-73 | The other table is untouched. A refusal changes nothing. A taken username gets 409 "Username already taken.", and a taken e-mail gets 409 with the text chosen from the database's message. Otherwise one row is appended with the next id and the reply is 201. |
| AuthRoutes.StoreToken | login/backend/routes/authRoutes.js:136-139 | Every row with that e-mail, and no other row, gets the token and the expiry. |
| AuthRoutes.ClearToken | login/backend/routes/authRoutes.js:186-190 | The row found gets the new hash and loses its token and expiry. It keeps its id, username, e-mail, contact and profile, and the other rows are unchanged. |
| AuthRoutes.DecideReset | login/backend/routes/authRoutes.js:167-184 | 400 "Password and role are required." exactly when one of them is falsy. 400 "Invalid or expired token. Please try again." exactly when no row holds the token with an expiry after now. A row is reset exactly when both are present and some row holds the token unexpired; it is the first such row. |
| AuthRoutes.CredentialStore.ForgotPassword | login/backend/routes/authRoutes.js:121-163 | An unknown e-mail gets 404 with the role in its text, and nothing changes. Otherwise the token and `now + 900000` are stored on the rows with that e-mail, and the link `…/reset-password/<token>?role=<role>` is made. The reply is 200 when the mail is delivered and 500 when it is not, with the token kept in both cases. |
| AuthRoutes.CredentialStore.ResetPassword | login/backend/routes/authRoutes.js:167-197 | A refusal changes nothing. Otherwise the first row holding the live token gets the new hash, and its token is cleared. |
| AuthRoutes.IssuedTokenWindow | login/backend/routes/authRoutes.js:131-184 | A token stored by forgot-password is accepted exactly while fewer than fifteen minutes have passed. |
| AuthRoutes.TokenSingleUse | login/backend/routes/authRoutes.js:178-190 | Once a reset has cleared the token, the same token is refused at every later time. |
| AuthRoutes.AppendKeepsKeys | login/backend/routes/authRoutes.js:55 | Appending a row whose username and e-mail are both new keeps the ids and unique keys of the table. |
| Authentic.BlankChecks | login/frontend/src/Authentic.js:95-100 | The `forEach` flags exactly the required fields whose trimmed value is empty, each with "This field is required". |
| Authentic.ValidateDocument | login/frontend/src/Authentic.js:91-115 | The error object holds exactly each field's error, and only form fields. |
| Authentic.BlankPatternFieldsGetPatternMessage | login/frontend/src/Authentic.js:102-108 | A blank e-mail or contact number ends up with its pattern message, which overwrites the blank message. |
| Authentic.RequiredMessageOnlyOnPlainFields | login/frontend/src/Authentic.js:95-108 | `details` is never flagged. The blank message survives only on senderOrg, applicantName, receivedOffice and purpose. |
| Authentic.ReceiptDateCheck | login/frontend/src/Authentic.js:110-112 | A receipt date is refused exactly when it is non-empty and sorts after today as a string; today itself passes. |
| Authentic.EmailPatternShape | login/frontend/src/Authentic.js:102 | An address that matches the pattern has exactly one `@`, which is neither first nor among the last three characters, and no white space. |
| Authentic.BlankMatchesNoPattern | login/frontend/src/Authentic.js:102-108 | A blank value matches neither the e-mail pattern nor the ten-digit pattern. |
| Authentic.LastFourDigits | login/frontend/src/Authentic.js:128 | `slice(-4)` of a number of four or more digits is its four lowest decimal digits. |
| Authentic.IdRepeatsEveryTenSeconds | login/frontend/src/Authentic.js:128 | Two submissions in the same year whose timestamps are ten seconds apart get the same id. |
| Authentic.SubmittedDocument | login/frontend/src/Authentic.js:131-137 | The body posted has the generated id, status "Submitted", the user's e-mail as submittedBy, and receiptDate defaulted to today. Each of the form's other seven fields is sent as typed. There is no role. |
| Authentic.ValidFormPassesServerChecks | login/frontend/src/Authentic.js:117-137 | A form the validator accepts, posted by a user with an e-mail address, passes every server check of `POST /new-document`. The citizen guard never fires, because the body has no role. |
| Authentic.Summarize | login/frontend/src/Authentic.js:66-71 | After an admin search, `total` is the number of rows. Each status's count is its number of rows, a key exists exactly for the statuses present, and the counts sum to `total`. |
| Authentic.UpdatedList | login/frontend/src/Authentic.js:182-186 | The list keeps its length, and only rows with that id change, only in their status. |
| Authentic.FindStatus | login/frontend/src/Authentic.js:190 | `find(...)?.status` is absent exactly when no row has the id. Otherwise it is the status of the first row with that id. |
| Authentic.UpdateStats | login/frontend/src/Authentic.js:188-196 | `total` is kept. When the id is unlisted or its status is empty, only the new status gains one. Otherwise the old status's count drops by one (a missing or zero count is read as 1), and then the new status gains one. Consistent counters stay consistent with the updated list. |
| Authentic.DeletedListContents | login/frontend/src/Authentic.js:215 | The list loses exactly the rows with that id and keeps every other row. |
| Authentic.DeleteStats | login/frontend/src/Authentic.js:217-227 | For an unlisted id, nothing changes. Otherwise `total` drops by one and the row's status drops by one (a missing or zero count is read as 1), and its key goes when the result is 0. Every other key is kept as it was. Consistent counters stay consistent with the filtered list. |
| Authentic.RegistrationError | login/frontend/src/Authentic.js:645-666 | The checks run in order: e-mail pattern, ten digits, confirmation, then office name for a non-admin organization. The first failure's own message is set. There is no error exactly when all four pass. |
| Authentic.RegistrationBody | login/frontend/src/Authentic.js:678-685 | The username, e-mail, contact and password are sent as typed. The role sent is `admin` on the admin form. officeName is sent, as typed, exactly for a non-admin organization. |
| Authentic.ValidRegistrationAccepted | login/frontend/src/Authentic.js:645-685 | A form that passes the client's checks, with a username, a password and a role, passes the server's checks. It goes to `admins` exactly when it is the admin form or the role is `admin`. |
| ResetPassword.ResetGuard | login/frontend/src/Resetpassword.js:18-24 | A mismatch is reported if and only if the passwords differ, even when they are short. The length error is reported if and only if they agree and are shorter than 6. Otherwise the request is sent. |
| ResetPassword.RouteToken | login/frontend/src/Resetpassword.js:6 | The route's token never contains the `?` that starts the query string. |
| ResetPassword.LinkRoundTrip | login/frontend/src/Resetpassword.js:6 | The page opened from a mailed link reads back the token the link was made with. The link's `role` query carries the request's role. |
| ResetPassword.RequestBody | login/frontend/src/Resetpassword.js:27-29 | The posted body carries the password and no role. |
| ResetPassword.Displayed | login/frontend/src/Resetpassword.js:30-34 | A 2xx reply shows the success message. Any other reply shows its error text, or "Something went wrong" when the text is empty or there is no reply. |
| ResetPassword.AsWrittenResetRefused | login/frontend/src/Resetpassword.js:26-34 | Every password that passes the guard is refused with "Password and role are required.". |
| ResetPassword.CorrectedBody | login/frontend/src/Resetpassword.js:27-29 | The corrected body carries the password and the role from the link's query. |
| ResetPassword.CorrectedResetOutcome | login/frontend/src/Resetpassword.js:26-34 | With the corrected body, the reset goes to the table the link was issued for. It succeeds exactly when a row holds the token unexpired, and otherwise shows the invalid-token error. |
| Authentic.DocumentId | login/frontend/src/Authentic.js:128 | The id is `DOC-`, the year and `-`, followed by the last four digits of the timestamp (all of them when it has fewer). |
| ResetPassword.HandleReset | login/frontend/src/Resetpassword.js:13-35 | A failed guard shows its own error. No submission ever shows the success message. |
| ResetPassword.BackendReply | login/backend/routes/authRoutes.js:167-192 | The reply is 200 with the updated message exactly when the reset decision picks a row. Otherwise it is 400 with the missing-field or invalid-token text. |
| AuthRoutes.ResetLink | login/backend/routes/authRoutes.js:141 | The link is the reset route's prefix, then the token, then `?role=` and the role as printed. |
| DocumentSearch.SearchTerm | login/backend/routes/documentRoutes.js:58 | The term is empty exactly when the parameter is absent or all white space. A non-empty term starts and ends with a non-space character. |
| Js.Nullish | login/backend/routes/documentRoutes.js:60 | `v ?? d` keeps a present value, even an empty one. The result is the default exactly when the value is absent or equals the default. `SearchRole` uses it with `user`; `RoleText` uses it with `undefined`, as a template string prints an absent role. |
| Js.TrimEmptyIffAllSpace | login/frontend/src/Authentic.js:97 | `trim()` is empty exactly when every character is white space. |
| Js.TrimIsSlice | login/backend/routes/documentRoutes.js:58 | `trim()` removes white space only from the two ends, and what remains starts and ends with a non-space character. |
| Js.DecimalRoundTrip | login/frontend/src/Authentic.js:128 | `toString()` of a number gives digits with no leading zero, and those digits read back to the number. |

## Left out

- Logging, the HTTP and database error paths (the generic 500 replies), the
  React state setters, routing, alerts and all rendering are I/O.
- bcrypt, `crypto.randomBytes`, `Date.now()` and `new Date()` are
  parameters. The model does not relate the hash to the password.
- The mail transport is the `delivered` flag of `ForgotPassword`.
- The pool's connections and queueing are not modelled, nor are concurrent
  requests; each operation runs alone.
- `login/backend/routes/dbHelpers.js` is folded into `FirstMatch` by e-mail.
  The other modules of the backend and the client are not part of this
  model.
- The frontend search guard for an empty term is not modelled. It blocks
  non-admins on the status-tracking menu before any request
  (`login/frontend/src/Authentic.js:46`).
- The forgot-password form of the client, which sends the role `user` or
  `admin`, is not modelled.
- JavaScript `undefined` and `null` are both `None`. `designation` is
  always null because neither table has that column.
- Strings are sequences of characters: lengths count characters rather than
  UTF-16 units.
- `toUpperCase` is modelled on ASCII letters only.
- `\s` in the patterns is modelled by the white-space characters of
  `IsSpace`, not the whole Unicode class.
- Texts that come from MySQL follow MySQL's documented forms: the driver's
  message for an `undefined` bind parameter and the text of error 1062.
- Collation: MySQL's default collation compares strings case-insensitively,
  and the model compares them exactly. This governs `LikeMatch` and every
  `=` lookup: `document_id` in update and delete, `username` in login,
  `email` in forgot-password and `reset_token` in reset. It also governs
  the unique keys behind the duplicate errors of create and register.
  MySQL would, for example, refuse `alice` after `Alice` with 409, where
  the model inserts it.
- The SQL text `Statement` renders is normalised to single spaces. The
  source's template strings keep their newlines and indentation; only the
  tokens and their order are modelled.
- `byStatus` is a plain JavaScript object. A status such as `constructor`
  or `__proto__` reads an inherited property rather than a count. The
  model's map counts every status exactly.
- AuthRoutes.CredentialStore.Register reports a taken username before a taken
  e-mail. This assumes the username's unique index is checked first; the
  schema is not part of this model.
- `%`, `_` and `\` inside a search term keep their `LIKE` meaning (two
  wildcards and the default escape character), as in MySQL, since the
  handler does not escape them. `LikeMatch` models all three; the
  containment reading `LikePatternIsContains` holds only for terms free of
  them.
- The `document` table is a map keyed by the primary key. The order of the
  rows a search returns is not modelled: results are sets.
- `LinkRole` reads the raw query text; URL percent-decoding is not
  modelled.
- AuthRoutes.CredentialStore.Login: the contract states only the role
  rule; the rest of the reply is stated by `AuthRoutes.DecideLogin`, which it
  calls on the role's table.
- AuthRoutes.CredentialStore.ForgotPassword: an absent e-mail is modelled
  as a 500 with nothing changed. This is what the driver's refusal of an
  `undefined` bind parameter leads to.

## Findings

| source | as written | input that shows it | evidently intended | confidence | as-written member | corrected member |
|---|---|---|---|---|---|---|
| login/backend/routes/documentRoutes.js:99-107 | The clauses are joined with ` AND ` and no parentheses, giving `submittedBy = ? AND document_id LIKE ? OR senderOrg LIKE ? OR applicantName LIKE ?`. | User `a@x.org` searches `x`; the row of `b@y.org` with senderOrg `x` is returned. | A user sees only the rows they submitted: `submittedBy = ? AND (… OR … OR …)`. | not executed | DocumentSearch.OwnerWhereLeaks | DocumentSearch.GroupedOwnerWhereRestricts |
| login/frontend/src/Resetpassword.js:27-29 | The reset page posts `{ password }` only, and the server demands a role (`login/backend/routes/authRoutes.js:171-173`). | Any link, with password and confirmation `secret1`; the page shows "Password and role are required.". | The page sends the `role` the mailed link carries in its query. | not executed | ResetPassword.AsWrittenResetRefused | ResetPassword.CorrectedResetOutcome |
