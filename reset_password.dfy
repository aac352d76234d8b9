/** The reset-password page: the checks `handleReset` makes before it posts,
    the token it reads from the link, the body it posts, and what it shows
    for the reply of `POST /auth/reset-password/:token`. */
module ResetPassword {
  import opened Js
  import opened Server
  import AuthRoutes

  // ---------------------------------------------------------------------
  // The checks before the request
  // ---------------------------------------------------------------------

  const MismatchMessage: string := "Passwords do not match"
  const ShortMessage: string := "Password must be at least 6 characters."
  const MinLength: nat := 6

  /** The error `handleReset` sets without sending anything, if any: the
      confirmation is compared first, the length second. */
  function ResetGuard(password: string, confirm: string): (r: Option<string>)
    ensures r == Some(MismatchMessage) <==> password != confirm
    ensures r == Some(ShortMessage) <==> password == confirm && |password| < MinLength
    ensures r.None? <==> password == confirm && |password| >= MinLength
  {
    if password != confirm then Some(MismatchMessage)
    else if |password| < MinLength then Some(ShortMessage)
    else None
  }

  // ---------------------------------------------------------------------
  // The link and the token
  // ---------------------------------------------------------------------

  const LinkPrefix: string := "http://localhost:3000/reset-password/"

  /** The part of `s` before its first `c` (all of `s` when there is none). */
  function Before(s: string, c: char): (r: string)
    ensures |r| <= |s| && r == s[..|r|] && c !in r
    ensures |r| < |s| ==> s[|r|] == c
  {
    if s == [] || s[0] == c then [] else [s[0]] + Before(s[1..], c)
  }

  /** The part of `s` after its first `c`, when there is one. */
  function After(s: string, c: char): Option<string>
  {
    var head := Before(s, c);
    if |head| < |s| then Some(s[|head| + 1..]) else None
  }

  /** `useParams().token` on the page a link opens: the path segment after
      the route's prefix, which stops where the query string starts. */
  function RouteToken(link: string): (r: Option<string>)
    ensures r.Some? ==> '?' !in r.value
  {
    var path := Before(link, '?');
    if LinkPrefix <= path then Some(path[|LinkPrefix|..]) else None
  }

  /** The value of the link's `role` query parameter, when the query string
      starts with it; it runs to the first `&`. */
  function LinkRole(link: string): Option<string>
  {
    var query := After(link, '?');
    if query.Some? && "role=" <= query.value then Some(Before(query.value[5..], '&')) else None
  }

  /** A string with no `c` is its own part before `c`. */
  lemma {:induction false} BeforeAbsent(s: string, c: char)
    requires c !in s
    ensures Before(s, c) == s
  {
    if s != [] {
      BeforeAbsent(s[1..], c);
    }
  }

  /** The part before the first `c` of `a + [c] + b`, where `a` holds no `c`,
      is `a`, and what follows is `b`. */
  lemma {:induction false} SplitAtFirst(a: string, c: char, b: string)
    requires c !in a
    ensures Before(a + [c] + b, c) == a
    ensures After(a + [c] + b, c) == Some(b)
  {
    var s := a + [c] + b;
    if a != [] {
      assert s[1..] == a[1..] + [c] + b;
      SplitAtFirst(a[1..], c, b);
    }
  }

  /** A character in neither part is not in their concatenation. */
  lemma AbsentFromConcat(a: string, b: string, c: char)
    requires c !in a && c !in b
    ensures c !in a + b
  {
    forall k | 0 <= k < |a + b| ensures (a + b)[k] != c {
      if k < |a| {
        assert (a + b)[k] == a[k];
      } else {
        assert (a + b)[k] == b[k - |a|];
      }
    }
  }

  /** The page opened by a link of `/auth/forgot-password` reads back the
      token the link was made with, and the link's `role` query carries the
      role of the request, as long as the token holds no `?` (a hex token
      never does) and the role no `&`. */
  lemma {:induction false} LinkRoundTrip(token: string, role: Option<string>)
    requires '?' !in token && '&' !in AuthRoutes.RoleText(role)
    ensures RouteToken(AuthRoutes.ResetLink(token, role)) == Some(token)
    ensures LinkRole(AuthRoutes.ResetLink(token, role)) == Some(AuthRoutes.RoleText(role))
  {
    var text := AuthRoutes.RoleText(role);
    var link := AuthRoutes.ResetLink(token, role);
    var path := LinkPrefix + token;
    assert link == path + ['?'] + ("role=" + text);
    assert '?' !in path by {
      assert '?' !in LinkPrefix;
      AbsentFromConcat(LinkPrefix, token, '?');
    }
    SplitAtFirst(path, '?', "role=" + text);
    assert path[|LinkPrefix|..] == token;
    assert ("role=" + text)[5..] == text;
    BeforeAbsent(text, '&');
  }

  // ---------------------------------------------------------------------
  // The request and the reply shown
  // ---------------------------------------------------------------------

  /** The JSON body of `POST /auth/reset-password/:token`. */
  datatype ResetBody = ResetBody(password: Option<string>, role: Option<string>)

  /** The JSON body posted: `{ password }`. It never carries a role. */
  function RequestBody(password: string): (body: ResetBody)
    ensures body.password == Some(password) && body.role.None?
  {
    ResetBody(Some(password), None)
  }

  const SuccessMessage: string := "Password reset successful. You can now log in."
  const FallbackMessage: string := "Something went wrong"
  const UpdatedMessage: string := "Password has been updated successfully."

  /** What the page shows. */
  datatype Shown = ShowError(error: string) | ShowMessage(message: string)

  /** The page after the request: a 2xx reply shows the success message,
      any other reply its error text or the fallback, and a request that got
      no reply (`None`) the fallback. */
  function Displayed(reply: Option<Reply>): (s: Shown)
    ensures s == ShowMessage(SuccessMessage) <==> reply.Some? && 200 <= reply.value.code < 300
    ensures s == ShowError(FallbackMessage) <==>
              reply.None? || (!(200 <= reply.value.code < 300) && reply.value.text in {"", FallbackMessage})
    ensures reply.Some? && !(200 <= reply.value.code < 300) && reply.value.text != "" ==> s == ShowError(reply.value.text)
  {
    if reply.Some? && 200 <= reply.value.code < 300 then ShowMessage(SuccessMessage)
    else if reply.Some? && reply.value.text != "" then ShowError(reply.value.text)
    else ShowError(FallbackMessage)
  }

  /** The reply of `POST /auth/reset-password/:token` to `body`, against the
      rows of the table the body's role picks. */
  function BackendReply(rows: seq<AuthRoutes.Account>, token: string, body: ResetBody, now: int): (r: Reply)
    ensures r.code == 200 <==> AuthRoutes.DecideReset(rows, token, body.password, body.role, now).ResetRow?
    ensures r.code == 200 ==> r.text == UpdatedMessage
    ensures r.code != 200 ==>
              r.code == 400 && (r.text == AuthRoutes.ResetMissingMessage || r.text == AuthRoutes.ResetInvalidMessage)
  {
    var d := AuthRoutes.DecideReset(rows, token, body.password, body.role, now);
    if d.ResetRefused? then d.reply else Reply(200, UpdatedMessage)
  }

  /** `handleReset` as written, on the page a link opened: the guard, then
      the post of `{ password }` with the token of the route. */
  function HandleReset(rows: seq<AuthRoutes.Account>, link: string, password: string, confirm: string, now: int)
    : (s: Shown)
    requires RouteToken(link).Some?
    ensures ResetGuard(password, confirm).Some? ==> s == ShowError(ResetGuard(password, confirm).value)
    ensures s != ShowMessage(SuccessMessage)
  {
    var guard := ResetGuard(password, confirm);
    if guard.Some? then ShowError(guard.value)
    else Displayed(Some(BackendReply(rows, RouteToken(link).value, RequestBody(password), now)))
  }

  /** As written, no reset ever succeeds: every password that passes the
      page's checks is posted without a role, and the server refuses it with
      "Password and role are required.", whatever the link and the rows. */
  lemma AsWrittenResetRefused(rows: seq<AuthRoutes.Account>, link: string, password: string,
                              confirm: string, now: int)
    requires RouteToken(link).Some? && ResetGuard(password, confirm).None?
    ensures HandleReset(rows, link, password, confirm, now) == ShowError(AuthRoutes.ResetMissingMessage)
  {
    var d := AuthRoutes.DecideReset(rows, RouteToken(link).value, Some(password), None, now);
    assert d == AuthRoutes.ResetRefused(Reply(400, AuthRoutes.ResetMissingMessage));
  }

  /** The body the server expects: the password and the role the link's
      query carries. */
  function CorrectedBody(link: string, password: string): (body: ResetBody)
    ensures body.password == Some(password) && body.role == LinkRole(link)
  {
    ResetBody(Some(password), LinkRole(link))
  }

  /** `handleReset` posting the corrected body. */
  function CorrectedHandleReset(rows: seq<AuthRoutes.Account>, link: string, password: string, confirm: string,
                                now: int): Shown
    requires RouteToken(link).Some?
  {
    var guard := ResetGuard(password, confirm);
    if guard.Some? then ShowError(guard.value)
    else Displayed(Some(BackendReply(rows, RouteToken(link).value, CorrectedBody(link, password), now)))
  }

  /** With the corrected body, the page opened from a mailed link posts to
      the table the link was issued for, and the reset succeeds exactly when
      a row of that table holds the link's token unexpired; otherwise the
      server's "invalid or expired" error is shown. */
  lemma CorrectedResetOutcome(rows: seq<AuthRoutes.Account>, token: string, role: Option<string>,
                              password: string, confirm: string, now: int)
    requires '?' !in token && '&' !in AuthRoutes.RoleText(role) && AuthRoutes.RoleText(role) != ""
    requires ResetGuard(password, confirm).None?
    ensures var link := AuthRoutes.ResetLink(token, role);
            && RouteToken(link).Some?
            && AuthRoutes.GetTable(CorrectedBody(link, password).role) == AuthRoutes.GetTable(role)
            && (CorrectedHandleReset(rows, link, password, confirm, now) == ShowMessage(SuccessMessage)
                <==> exists j :: 0 <= j < |rows| && AuthRoutes.TokenLive(rows[j], token, now))
            && ((forall j :: 0 <= j < |rows| ==> !AuthRoutes.TokenLive(rows[j], token, now)) ==>
                  CorrectedHandleReset(rows, link, password, confirm, now) == ShowError(AuthRoutes.ResetInvalidMessage))
  {
    var link := AuthRoutes.ResetLink(token, role);
    LinkRoundTrip(token, role);
    var text := AuthRoutes.RoleText(role);
    assert AuthRoutes.GetTable(Some(text)) == AuthRoutes.GetTable(role);
    var d := AuthRoutes.DecideReset(rows, token, Some(password), Some(text), now);
    assert d.ResetRefused? ==> d.reply.code == 400;
  }
}
