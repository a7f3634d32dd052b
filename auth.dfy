/** The admin credential routes (backend/routes/auth.js): login against the
    admin tab by e-mail under several header spellings and plain password
    equality, the forgot-password lookup, and the password overwrite of a
    reset. Signed tokens are opaque strings, and a verified token is its
    verdict. */
module Auth {
  import opened Wrappers
  import opened Text
  import opened Sheets

  datatype User = User(email: string, role: string)

  /** The JSON replies of the three routes. */
  datatype AuthReply =
    | Refused(code: nat, error: string)
    | LoggedIn(token: string, user: User, message: string)
    | Notice(message: string, resetToken: Option<string>)

  /** The header spellings the login lookup tries, in order. */
  const EmailColumns: seq<string> := ["Email - ID", "Email-ID", "Email ID", "Email", "email"]

  /** `emailVal && emailVal.toLowerCase() === email.toLowerCase()`. */
  predicate SameEmail(cell: Option<string>, email: string)
  {
    Truthy(cell) && ToLower(cell.value) == ToLower(email)
  }

  /** The login predicate on a row: some spelling of the e-mail column holds
      the e-mail, ignoring case. */
  predicate LoginRowMatches(row: Row, email: string)
  {
    exists k | 0 <= k < |EmailColumns| :: SameEmail(Cell(row, EmailColumns[k]), email)
  }

  /** The first admin row the login lookup accepts. */
  function FindLoginRow(rows: seq<Row>, email: string): (r: Option<nat>)
    ensures r.Some? ==> r.value < |rows| && LoginRowMatches(rows[r.value], email)
    ensures r.Some? ==> forall j | 0 <= j < r.value :: !LoginRowMatches(rows[j], email)
    ensures r.None? ==> forall j | 0 <= j < |rows| :: !LoginRowMatches(rows[j], email)
    decreases |rows|
  {
    if rows == [] then None
    else if LoginRowMatches(rows[0], email) then Some(0)
    else match FindLoginRow(rows[1..], email)
      case None => None
      case Some(k) => Some(k + 1)
  }

  /** `row.get('Email-ID')?.toLowerCase() === email.toLowerCase()`: unlike
      the login test an empty cell is not skipped, so it matches an empty
      e-mail. */
  predicate EmailIdMatches(row: Row, email: string)
  {
    Cell(row, "Email-ID").Some? && ToLower(Cell(row, "Email-ID").value) == ToLower(email)
  }

  /** The first admin row whose `Email-ID` holds the e-mail, ignoring case,
      as the password routes look it up. */
  function FindByEmailId(rows: seq<Row>, email: string): (r: Option<nat>)
    ensures r.Some? ==> r.value < |rows| && EmailIdMatches(rows[r.value], email)
    ensures r.Some? ==> forall j | 0 <= j < r.value :: !EmailIdMatches(rows[j], email)
    ensures r.None? ==> forall j | 0 <= j < |rows| :: !EmailIdMatches(rows[j], email)
    decreases |rows|
  {
    if rows == [] then None
    else if EmailIdMatches(rows[0], email) then Some(0)
    else match FindByEmailId(rows[1..], email)
      case None => None
      case Some(k) => Some(k + 1)
  }

  const MissingCredentials := Refused(400, "Email and password are required")
  const BadCredentials := Refused(401, "Invalid credentials")

  /** `POST /login`; `token` is what signing the session claims yields. */
  function Login(rows: seq<Row>, email: Option<string>, password: Option<string>, token: string): AuthReply
  {
    if !Truthy(email) || !Truthy(password) then MissingCredentials
    else match FindLoginRow(rows, email.value)
      case None => BadCredentials
      case Some(i) =>
        if password != Cell(rows[i], "Password") then BadCredentials
        else LoggedIn(token, User(email.value, "admin"), "Login successful")
  }

  /** A missing or empty e-mail or password is refused with 400 before the
      admin tab matters. */
  lemma LoginNeedsBothFields(rows: seq<Row>, email: Option<string>, password: Option<string>, token: string)
    requires !Truthy(email) || !Truthy(password)
    ensures Login(rows, email, password, token) == Refused(400, "Email and password are required")
  {
  }

  /** Login succeeds exactly when the first matching admin row stores
      exactly the password given; the user returned is the e-mail as typed
      with the admin role. Every other request with both fields gets the one
      `Invalid credentials` reply, so an unknown e-mail and a wrong password
      cannot be told apart. */
  lemma LoginOutcome(rows: seq<Row>, email: string, password: string, token: string)
    requires email != "" && password != ""
    ensures var reply := Login(rows, Some(email), Some(password), token);
      && (reply.LoggedIn? <==>
            FindLoginRow(rows, email).Some? && Cell(rows[FindLoginRow(rows, email).value], "Password") == Some(password))
      && (reply.LoggedIn? ==> reply == LoggedIn(token, User(email, "admin"), "Login successful"))
      && (!reply.LoggedIn? ==> reply == Refused(401, "Invalid credentials"))
  {
  }

  /** An e-mail absent from the tab and a wrong password for a known one
      receive identical replies. */
  lemma UnknownAndWrongLookAlike(rows: seq<Row>, unknown: string, known: string, wrong: string, token: string)
    requires unknown != "" && known != "" && wrong != ""
    requires FindLoginRow(rows, unknown).None?
    requires FindLoginRow(rows, known).Some? && Cell(rows[FindLoginRow(rows, known).value], "Password") != Some(wrong)
    ensures Login(rows, Some(unknown), Some(wrong), token) == Login(rows, Some(known), Some(wrong), token)
  {
  }

  /** The lookup ignores the case of the e-mail typed. */
  lemma {:induction false} LoginLookupIgnoresCase(rows: seq<Row>, e1: string, e2: string)
    requires ToLower(e1) == ToLower(e2)
    ensures FindLoginRow(rows, e1) == FindLoginRow(rows, e2)
    decreases |rows|
  {
    if rows != [] {
      LoginLookupIgnoresCase(rows[1..], e1, e2);
      assert LoginRowMatches(rows[0], e1) == LoginRowMatches(rows[0], e2);
    }
  }

  /** `POST /forgot-password`; `resetToken` is what signing the reset claim
      yields. An unknown e-mail gets a success reply too. */
  function ForgotPassword(rows: seq<Row>, email: Option<string>, resetToken: string): (reply: AuthReply)
    ensures !Truthy(email) <==> reply == Refused(400, "Email is required")
    ensures Truthy(email) ==> reply.Notice?
    ensures Truthy(email) ==> (reply.resetToken.Some? <==> FindByEmailId(rows, email.value).Some?)
  {
    if !Truthy(email) then Refused(400, "Email is required")
    else if FindByEmailId(rows, email.value).None? then
      Notice("If the email exists, password reset instructions have been sent", None)
    else Notice("Password reset instructions sent to your email", Some(resetToken))
  }

  /** The forgot-password lookup reads only `Email-ID`: an admin known only
      under another spelling is not found there though login finds it. */
  lemma ForgotUsesEmailIdOnly(email: string, resetToken: string)
    requires email != ""
    ensures var row := map["Email" := email];
      FindLoginRow([row], email) == Some(0) &&
      ForgotPassword([row], Some(email), resetToken).resetToken.None?
  {
    var row := map["Email" := email];
    assert EmailColumns[3] == "Email";
    assert SameEmail(Cell(row, EmailColumns[3]), email);
    assert "Email-ID" != "Email";
  }

  /** Two tabs whose rows agree, row by row, on `Email-ID` give the same
      forgot-password and reset lookup, whatever their other columns hold. */
  lemma {:induction false} FindByEmailIdReadsEmailIdOnly(a: seq<Row>, b: seq<Row>, email: string)
    requires |a| == |b| && forall i | 0 <= i < |a| :: Cell(a[i], "Email-ID") == Cell(b[i], "Email-ID")
    ensures FindByEmailId(a, email) == FindByEmailId(b, email)
    decreases |a|
  {
    if a != [] {
      FindByEmailIdReadsEmailIdOnly(a[1..], b[1..], email);
    }
  }

  /** What verifying the reset token yields. */
  datatype TokenVerdict =
    | Expired                                              // TokenExpiredError
    | Malformed                                            // any other verification error
    | Decoded(email: Option<string>, tokenType: Option<string>)

  /** The reply of `POST /reset-password` and the admin row it overwrites. */
  datatype ResetOutcome = ResetOutcome(reply: AuthReply, target: Option<nat>)

  function ResetPasswordOutcome(rows: seq<Row>, token: Option<string>, newPassword: Option<string>, verdict: TokenVerdict): (r: ResetOutcome)
    ensures r.target.Some? ==> r.target.value < |rows| && r.reply == Notice("Password reset successful", None)
    ensures r.target.Some? <==>
      (Truthy(token) && Truthy(newPassword) && verdict.Decoded? &&
       verdict.tokenType == Some("password_reset") && verdict.email.Some? &&
       FindByEmailId(rows, verdict.email.value).Some?)
    ensures r.target.None? ==> r.reply.Refused?
  {
    if !Truthy(token) || !Truthy(newPassword) then ResetOutcome(Refused(400, "Token and new password are required"), None)
    else match verdict
      case Expired => ResetOutcome(Refused(400, "Reset token has expired"), None)
      case Malformed => ResetOutcome(Refused(500, "Failed to reset password"), None)
      case Decoded(email, tokenType) =>
        if tokenType != Some("password_reset") then ResetOutcome(Refused(400, "Invalid reset token"), None)
        else if email.None? then
          // `decoded.email.toLowerCase()` throws only once `find` tests a row
          if rows == [] then ResetOutcome(Refused(404, "Admin not found"), None)
          else ResetOutcome(Refused(500, "Failed to reset password"), None)
        else match FindByEmailId(rows, email.value)
          case None => ResetOutcome(Refused(404, "Admin not found"), None)
          case Some(i) => ResetOutcome(Notice("Password reset successful", None), Some(i))
  }

  /** A request without a token or without a new password is refused with
      400 before the token is looked at. */
  lemma ResetNeedsBothFields(rows: seq<Row>, token: Option<string>, newPassword: Option<string>, verdict: TokenVerdict)
    requires !Truthy(token) || !Truthy(newPassword)
    ensures ResetPasswordOutcome(rows, token, newPassword, verdict) ==
      ResetOutcome(Refused(400, "Token and new password are required"), None)
  {
  }

  /** An expired token is refused with 400 and changes no row. */
  lemma ResetExpiredToken(rows: seq<Row>, token: string, newPassword: string)
    requires token != "" && newPassword != ""
    ensures ResetPasswordOutcome(rows, Some(token), Some(newPassword), Expired) ==
      ResetOutcome(Refused(400, "Reset token has expired"), None)
  {
  }

  /** A token that does not verify otherwise ends in the generic 500. */
  lemma ResetMalformedToken(rows: seq<Row>, token: string, newPassword: string)
    requires token != "" && newPassword != ""
    ensures ResetPasswordOutcome(rows, Some(token), Some(newPassword), Malformed) ==
      ResetOutcome(Refused(500, "Failed to reset password"), None)
  {
  }

  /** A valid reset token for an e-mail no admin row has is refused with 404. */
  lemma ResetUnknownAdmin(rows: seq<Row>, token: string, newPassword: string, email: string)
    requires token != "" && newPassword != "" && FindByEmailId(rows, email).None?
    ensures ResetPasswordOutcome(rows, Some(token), Some(newPassword), Decoded(Some(email), Some("password_reset"))) ==
      ResetOutcome(Refused(404, "Admin not found"), None)
  {
  }

  /** A token of any other type is refused with 400 whatever the tab holds. */
  lemma ResetNeedsResetToken(rows: seq<Row>, token: string, newPassword: string, email: Option<string>, tokenType: Option<string>)
    requires token != "" && newPassword != "" && tokenType != Some("password_reset")
    ensures ResetPasswordOutcome(rows, Some(token), Some(newPassword), Decoded(email, tokenType)) ==
      ResetOutcome(Refused(400, "Invalid reset token"), None)
  {
  }

  /** Overwriting the password changes nothing the login lookup reads, so
      the admin still logs in at the same row, now with the new password. */
  lemma {:induction false} PasswordChangeKeepsLookup(rows: seq<Row>, i: nat, newPassword: string, email: string)
    requires i < |rows|
    ensures FindLoginRow(rows[i := rows[i]["Password" := newPassword]], email) == FindLoginRow(rows, email)
    decreases |rows|
  {
    var updated := rows[i := rows[i]["Password" := newPassword]];
    if i == 0 {
      PasswordKeepsMatch(rows[0], newPassword, email);
      assert updated[1..] == rows[1..];
    } else {
      assert updated[0] == rows[0];
      PasswordChangeKeepsLookup(rows[1..], i - 1, newPassword, email);
      assert updated[1..] == rows[1..][i - 1 := rows[i]["Password" := newPassword]];
    }
  }

  /** The `Password` cell is none of the e-mail spellings. */
  lemma PasswordKeepsMatch(row: Row, newPassword: string, email: string)
    ensures LoginRowMatches(row["Password" := newPassword], email) == LoginRowMatches(row, email)
  {
    forall k | 0 <= k < |EmailColumns|
      ensures Cell(row["Password" := newPassword], EmailColumns[k]) == Cell(row, EmailColumns[k])
    {
    }
  }

  /** The admin tab. */
  class AdminSheet {
    var rows: seq<Row>

    constructor (initial: seq<Row>)
      ensures rows == initial
    {
      rows := initial;
    }

    /** `POST /reset-password`: only the `Password` cell of the admin row
        found is overwritten. */
    method ResetPassword(token: Option<string>, newPassword: Option<string>, verdict: TokenVerdict) returns (reply: AuthReply)
      modifies this
      ensures var outcome := ResetPasswordOutcome(old(rows), token, newPassword, verdict);
        reply == outcome.reply &&
        rows == if outcome.target.Some? then old(rows)[outcome.target.value := old(rows)[outcome.target.value]["Password" := newPassword.value]]
                else old(rows)
    {
      if !Truthy(token) || !Truthy(newPassword) {
        return Refused(400, "Token and new password are required");
      }
      if verdict.Expired? {
        return Refused(400, "Reset token has expired");
      }
      if verdict.Malformed? {
        return Refused(500, "Failed to reset password");
      }
      if verdict.tokenType != Some("password_reset") {
        return Refused(400, "Invalid reset token");
      }
      if verdict.email.None? {
        if |rows| == 0 {
          return Refused(404, "Admin not found");
        }
        return Refused(500, "Failed to reset password");
      }
      var found := FindByEmailId(rows, verdict.email.value);
      if found.None? {
        return Refused(404, "Admin not found");
      }
      var i := found.value;
      rows := rows[i := rows[i]["Password" := newPassword.value]];
      reply := Notice("Password reset successful", None);
    }
  }

  /** After a successful reset, logging in with the reset e-mail and the new
      password succeeds whenever the login lookup reaches the same row. */
  lemma LoginAfterReset(rows: seq<Row>, token: string, newPassword: string, email: string, sessionToken: string)
    requires token != "" && newPassword != "" && email != ""
    requires var outcome := ResetPasswordOutcome(rows, Some(token), Some(newPassword), Decoded(Some(email), Some("password_reset")));
      outcome.target.Some? && FindLoginRow(rows, email) == outcome.target
    ensures var i := FindByEmailId(rows, email).value;
      Login(rows[i := rows[i]["Password" := newPassword]], Some(email), Some(newPassword), sessionToken).LoggedIn?
  {
    var i := FindByEmailId(rows, email).value;
    PasswordChangeKeepsLookup(rows, i, newPassword, email);
  }
}
