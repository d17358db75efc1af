/** The authentication controller: registration (with its resend branch),
    password login, Google login, e-mail confirmation, the password-reset
    request, reset-token validation, the password reset itself, the two
    availability checks and the profile lookup. Each handler reads and
    writes the tables of the repositories; the clock, the random bytes,
    Google's verdict on an ID token, bcrypt and the mail server are
    parameters. */
module AuthController {
  import opened Wrappers
  import opened Strings
  import Tables
  import opened UsersRepo
  import opened ResetTokensRepo
  import opened RefreshTokensRepo
  import PoliciesRepo
  import opened AuthService
  import opened ConfirmationToken
  import opened PasswordValidation
  import opened EmailsService

  // ---------------------------------------------------------------------
  // Responses and the outside world.

  /** The public part of a user row that `checkUser` returns. */
  datatype UserSummary = UserSummary(id: nat, email: string, nickname: string, emailConfirmed: bool)

  /** The JSON bodies the handlers send. */
  datatype Body =
    | Message(message: string)
    | ErrorText(error: string)
      /** `{ error: err.message }`: the text of a caught exception. */
    | Thrown
    | Session(userId: nat, accessToken: AuthToken, refreshToken: AuthToken)
    | NewGoogleUser(email: string, name: string)
    | Tokens(accessToken: AuthToken, refreshToken: AuthToken)
    | UserCheck(found: bool, user: Option<UserSummary>)
    | NicknameCheck(taken: bool)
    | Registered(message: string, userId: nat, emailConfirmed: bool, tokens: Option<(AuthToken, AuthToken)>)
    | Profile(fields: map<Column, FieldValue>)

  datatype Response = Response(status: int, body: Body)

  /** A mail handed to the mail server. */
  datatype Mail = Mail(to: string, subject: string, link: string)

  /** The payload of a Google ID token that `verifyIdToken` accepted. */
  datatype GooglePayload = GooglePayload(email: Option<string>, name: Option<string>)

  /** bcrypt: the digest of a password, and the comparison of a password
      with a stored digest. */
  datatype Hasher = Hasher(hash: string -> string, matches: (string, string) -> bool)

  /** A password always matches its own digest. */
  ghost predicate Sound(h: Hasher) {
    forall p :: h.matches(p, h.hash(p))
  }

  /** The environment variables the handlers read. */
  datatype Settings = Settings(passwordComplexity: Option<string>, baseUrl: string)

  // ---------------------------------------------------------------------
  // Messages.

  const GoogleTokenRequired := "Google token is required"
  const InvalidGoogleToken := "Invalid Google token"
  const AuthError := "Auth error"
  const EmailRequired := "Email is required."
  const NicknameRequired := "Nickname is required."
  const ValidEmailRequired := "A valid email is required."
  const NicknameShapeMessage := "Nickname should be 3-15 characters long and contain only letters, numbers, underscores, or dashes."
  const NicknameTaken := "Nickname already exists."
  const MustAgree := "You must agree to the latest Terms and Privacy Policy."
  const PasswordRequired := "Password is required."
  const GoogleEmailMismatch := "Google token email does not match provided email"
  const ResentConfirmation := "Registration successful. A new confirmation email has been sent."
  const UserAlreadyExists := "User already exists."
  const GoogleRegistered := "User registered successfully."
  const PasswordRegistered := "Registration successful. Please check your email to confirm your account."
  const InvalidEmailOrPassword := "Invalid email or password"
  const AccountDeleted := "This account has been deleted. Please contact support or create a new account."
  const InvalidCredentials := "Invalid credentials"
  const LoginFailed := "Server error occurred. Please try again later."
  const TokenRequired := "Token is required."
  const InvalidOrExpiredToken := "Invalid or expired token."
  const EmailConfirmed := "Email confirmed successfully."
  const InvalidEmailFormat := "Invalid email format."
  const ResetLinkSent := "If the email exists, a password reset link has been sent."
  const NotConfirmedResent := "Your account is not confirmed. A new confirmation email has been sent."
  const ResetRequestFailed := "Failed to process the password reset request."
  const InvalidToken := "Invalid token."
  const TokenExpired := "Token has expired."
  const TokenValid := "Token is valid."
  const TokenAndPasswordRequired := "Token and new password are required."
  const NoUserForToken := "User associated with this token does not exist."
  const ConfirmFirst := "Email not confirmed. Please confirm your email first."
  const NoResetForGoogle := "Password reset is not available for Google accounts."
  const PasswordReset := "Password reset successfully. You can now log in."
  const ResetFailed := "Failed to reset password. Please try again later."
  const UserNotFound := "User not found"

  const ConfirmationSubject := "Email Confirmation"
  const ResetSubject := "Password Reset Request"

  // ---------------------------------------------------------------------
  // The request checks.

  /** `/\S+@\S+\.\S+/.test(email)`, unanchored: somewhere in the text a
      non-blank character, `@`, non-blank characters, `.` and a non-blank
      character. */
  predicate LooseEmail(s: string) {
    exists p, q | 1 <= p && p + 1 < q && q + 1 < |s| ::
      && s[p] == '@' && s[q] == '.'
      && !IsWhiteSpace(s[p - 1]) && NoWhiteSpace(s[p + 1..q]) && !IsWhiteSpace(s[q + 1])
  }

  /** `/^\S+@\S+\.\S+$/.test(email)`: the whole text is non-blank and is
      some text, `@`, some text, `.` and some text. */
  predicate StrictEmail(s: string) {
    && NoWhiteSpace(s)
    && exists p, q | 1 <= p && p + 1 < q && q + 1 < |s| :: s[p] == '@' && s[q] == '.'
  }

  /** Every address the password-reset request accepts, registration
      accepts too. */
  lemma StrictEmailIsLoose(s: string)
    requires StrictEmail(s)
    ensures LooseEmail(s)
  {
    var p, q :| 1 <= p && p + 1 < q && q + 1 < |s| && s[p] == '@' && s[q] == '.';
    NoWhiteSpaceSlice(s, p + 1, q);
    LooseEmailAt(s, p, q);
  }

  lemma LooseEmailAt(s: string, p: int, q: int)
    requires 1 <= p && p + 1 < q && q + 1 < |s| && s[p] == '@' && s[q] == '.'
    requires NoWhiteSpace(s) && NoWhiteSpace(s[p + 1..q])
    ensures LooseEmail(s)
  {
    assert !IsWhiteSpace(s[p - 1]) && !IsWhiteSpace(s[q + 1]);
  }

  lemma NoWhiteSpaceSlice(s: string, i: int, j: int)
    requires 0 <= i <= j <= |s| && NoWhiteSpace(s)
    ensures NoWhiteSpace(s[i..j])
  {
    forall k | 0 <= k < j - i
      ensures !IsWhiteSpace(s[i..j][k])
    {
      assert s[i..j][k] == s[i + k];
    }
  }

  /** The converse fails: registration accepts an address with a blank in
      it, which the reset request calls malformed. */
  lemma LooseEmailIsNotStrict()
    ensures LooseEmail("x a@b.c") && !StrictEmail("x a@b.c")
  {
    var s := "x a@b.c";
    assert s[4..5] == "b";
    assert s[3] == '@' && s[5] == '.' && !IsWhiteSpace(s[2]) && NoWhiteSpace(s[4..5]) && !IsWhiteSpace(s[6]);
    assert IsWhiteSpace(s[1]);
  }

  /** The class `[a-zA-Z0-9_-]`. */
  predicate IsNicknameChar(c: char) {
    IsAsciiLetter(c) || IsDigit(c) || c == '_' || c == '-'
  }

  /** `/^[a-zA-Z0-9_-]{3,15}$/.test(nickname)`. */
  predicate NicknameShape(s: string) {
    3 <= |s| <= 15 && forall i | 0 <= i < |s| :: IsNicknameChar(s[i])
  }

  /** `nickname ? nickname.trim() : null`. */
  function TrimmedNickname(nickname: Option<string>): (r: Option<string>)
    ensures r.Some? <==> Truthy(nickname)
    ensures r.Some? ==> r.value == Trim(nickname.value)
  {
    if Truthy(nickname) then Some(Trim(nickname.value)) else None
  }

  /** A nickname of the right shape has no blank at either end, so trimming
      leaves it alone. */
  lemma ShapedNicknameIsTrimmed(s: string)
    requires NicknameShape(s)
    ensures Trim(s) == s
  {
    assert !IsWhiteSpace(s[0]) && !IsWhiteSpace(s[|s| - 1]);
    assert TrimStart(s) == s;
    assert TrimEnd(s) == s;
  }

  /** `{ version }` inside `agreedPolicyVersions`; `None` is `undefined`. */
  datatype PolicyRef = PolicyRef(version: Option<string>)

  /** `agreedPolicyVersions`: `None` for a missing entry. */
  datatype AgreedVersions = AgreedVersions(terms: Option<PolicyRef>, privacy: Option<PolicyRef>)

  /** How the policy condition of `register` ends: passed, failed, or a
      `TypeError` from reading `.version` of a missing entry. */
  datatype Agreement = Agreed | NotAgreed | Crashed

  /** The policy condition of `register`: both agreed versions equal the
      latest ones and both boxes are ticked. The `||` chain reads the terms
      entry first and the privacy entry only when the terms versions agree,
      so a missing entry crashes only when it is reached. */
  function CheckAgreement(
    agreed: Option<AgreedVersions>, termsAccepted: bool, privacyAccepted: bool,
    latestTerms: Option<string>, latestPrivacy: Option<string>): (r: Agreement)
    ensures r == Agreed <==>
      && agreed.Some? && agreed.value.terms.Some? && agreed.value.privacy.Some?
      && agreed.value.terms.value.version == latestTerms
      && agreed.value.privacy.value.version == latestPrivacy
      && termsAccepted && privacyAccepted
    ensures r == Crashed <==>
      || agreed.None? || agreed.value.terms.None?
      || (agreed.value.terms.value.version == latestTerms && agreed.value.privacy.None?)
  {
    if agreed.None? || agreed.value.terms.None? then Crashed
    else if agreed.value.terms.value.version != latestTerms then NotAgreed
    else if agreed.value.privacy.None? then Crashed
    else if agreed.value.privacy.value.version != latestPrivacy || !termsAccepted || !privacyAccepted then NotAgreed
    else Agreed
  }

  /** The body of a `POST /register`. */
  datatype RegisterRequest = RegisterRequest(
    googleToken: Option<string>,
    email: Option<string>,
    password: Option<string>,
    nickname: Option<string>,
    termsAccepted: bool,
    privacyAccepted: bool,
    agreedPolicyVersions: Option<AgreedVersions>)

  /** The message the complexity rule's rejection carries. */
  function ComplexityRejection(complexity: Option<string>): Response {
    Response(400, Message(ComplexityMessage(complexity)))
  }

  /** Everything `register` demands before it touches the users table:
      a plausible e-mail, a nickname of the right shape that nobody uses,
      agreement to the latest policies, and then either a password the
      complexity rule accepts or a Google token for that same e-mail. */
  predicate RegistrationAcceptable(
    req: RegisterRequest, complexity: Option<string>, rows: seq<User>,
    latest: seq<PoliciesRepo.PolicyVersion>, google: Option<GooglePayload>)
  {
    && Truthy(req.email) && LooseEmail(req.email.value)
    && Truthy(req.nickname) && Trim(req.nickname.value) != ""
    && NicknameShape(Trim(req.nickname.value))
    && GetByNickname(rows, Trim(req.nickname.value)).None?
    && CheckAgreement(req.agreedPolicyVersions, req.termsAccepted, req.privacyAccepted,
                      PoliciesRepo.LatestVersionOf(latest, "terms"), PoliciesRepo.LatestVersionOf(latest, "privacy")) == Agreed
    && (!Truthy(req.googleToken) ==>
          Truthy(req.password) && ValidatePasswordComplexity(complexity, req.password.value))
    && (Truthy(req.googleToken) ==> google.Some? && google.value.email == req.email)
  }

  /** The checks `register` runs before it looks for an existing account,
      in their order; `None` when all pass. Each failure is a 400 with its
      own message, except a missing policy entry, which throws (500). */
  function RegisterChecks(
    req: RegisterRequest, complexity: Option<string>, rows: seq<User>,
    latest: seq<PoliciesRepo.PolicyVersion>, google: Option<GooglePayload>): (r: Option<Response>)
    ensures r.None? <==> RegistrationAcceptable(req, complexity, rows, latest, google)
    ensures r.Some? ==> r.value.status == 400 || r.value == Response(500, Thrown)
    ensures !(Truthy(req.email) && LooseEmail(req.email.value)) ==> r == Some(Response(400, Message(ValidEmailRequired)))
    ensures Truthy(req.email) && LooseEmail(req.email.value) && TrimmedNickname(req.nickname) in {None, Some("")}
      ==> r == Some(Response(400, Message(NicknameRequired)))
    ensures Truthy(req.email) && LooseEmail(req.email.value) && Truthy(req.nickname) && Trim(req.nickname.value) != ""
      && GetByNickname(rows, Trim(req.nickname.value)).Some?
      ==> r.Some? && r.value.body in {Message(NicknameShapeMessage), Message(NicknameTaken)}
    ensures r == Some(Response(400, Message(MustAgree))) ==>
      CheckAgreement(req.agreedPolicyVersions, req.termsAccepted, req.privacyAccepted,
                     PoliciesRepo.LatestVersionOf(latest, "terms"), PoliciesRepo.LatestVersionOf(latest, "privacy")) == NotAgreed
    ensures r == Some(Response(400, Message(GoogleEmailMismatch))) ==>
      Truthy(req.googleToken) && google.Some? && google.value.email != req.email
  {
    if !Truthy(req.email) || !LooseEmail(req.email.value) then Some(Response(400, Message(ValidEmailRequired)))
    else
      var nickname := TrimmedNickname(req.nickname);
      if nickname.None? || nickname.value == "" then Some(Response(400, Message(NicknameRequired)))
      else if !NicknameShape(nickname.value) then Some(Response(400, Message(NicknameShapeMessage)))
      else if GetByNickname(rows, nickname.value).Some? then Some(Response(400, Message(NicknameTaken)))
      else
        match CheckAgreement(req.agreedPolicyVersions, req.termsAccepted, req.privacyAccepted,
                             PoliciesRepo.LatestVersionOf(latest, "terms"), PoliciesRepo.LatestVersionOf(latest, "privacy"))
        case Crashed => Some(Response(500, Thrown))
        case NotAgreed => Some(Response(400, Message(MustAgree)))
        case Agreed =>
          if !Truthy(req.googleToken) then
            if !Truthy(req.password) then Some(Response(400, Message(PasswordRequired)))
            else if !ValidatePasswordComplexity(complexity, req.password.value) then Some(ComplexityRejection(complexity))
            else None
          else if google.None? then Some(Response(400, Message(InvalidGoogleToken)))
          else if google.value.email != req.email then Some(Response(400, Message(GoogleEmailMismatch)))
          else None
  }

  // ---------------------------------------------------------------------
  // Tokens and row updates the handlers issue.

  /** The access token issued for a stored user: id, e-mail and nickname. */
  function AccessTokenFor(u: User, now: int): (t: AuthToken)
    ensures t == GenerateAccessToken(u.id, Some(u.email), Some(u.nickname), now)
  {
    AccessToken(u.id, Some(u.email), Some(u.nickname), IssuedAt(now))
  }

  /** Two refresh tokens for one user coincide exactly when they are issued
      in the same second. */
  lemma RefreshTokensCollide(id: nat, now1: int, now2: int)
    ensures GenerateRefreshToken(id, now1) == GenerateRefreshToken(id, now2) <==> now1 / 1000 == now2 / 1000
  {
  }

  /** `{ email_confirmed: true, email_confirmation_token: null,
      email_confirmation_token_expires: null }`. */
  const ConfirmPatch: UserPatch := UserPatch(None, None, Some(true), Some(None), Some(None))

  /** A fresh confirmation token and its expiry. */
  function TokenPatch(t: Token): UserPatch {
    UserPatch(None, None, None, Some(Some(t.token)), Some(Some(t.tokenExpiration)))
  }

  /** The resend branch of `register`: new nickname, digest and token. */
  function ResendPatch(nickname: string, digest: Option<string>, t: Token): UserPatch {
    UserPatch(Some(nickname), Some(digest), None, Some(Some(t.token)), Some(Some(t.tokenExpiration)))
  }

  /** `{ password_hash }`. */
  function PasswordPatch(digest: string): UserPatch {
    UserPatch(None, Some(Some(digest)), None, None, None)
  }

  /** The confirmation mail `sendConfirmationEmail` sends. */
  function ConfirmationMail(settings: Settings, to: string, token: string): Mail {
    Mail(to, ConfirmationSubject, ConfirmationLink(settings.baseUrl, token))
  }

  /** The password-reset mail of `requestPasswordReset`. */
  function ResetMail(settings: Settings, to: string, token: string): Mail {
    Mail(to, ResetSubject, ResetLink(settings.baseUrl, token))
  }

  // ---------------------------------------------------------------------
  // The account invariant the handlers keep.

  /** A Google account is confirmed and has no password; any other account
      has a password digest; an account holds a confirmation token, with an
      expiry, exactly while it is unconfirmed. */
  predicate Consistent(u: User) {
    && (u.googleOauth ==> u.emailConfirmed && u.passwordHash.None?)
    && (!u.googleOauth ==> u.passwordHash.Some?)
    && (u.emailConfirmed <==> u.confirmationToken.None?)
    && (u.confirmationToken.None? <==> u.confirmationTokenExpires.None?)
  }

  predicate AllConsistent(rows: seq<User>) {
    forall i | 0 <= i < |rows| :: Consistent(rows[i])
  }

  /** An update keeps the invariant when it keeps it for the rows it hits. */
  lemma UpdateKeepsConsistent(rows: seq<User>, id: nat, p: UserPatch)
    requires AllConsistent(rows)
    requires forall i | 0 <= i < |rows| && rows[i].id == id :: Consistent(Patched(rows[i], p))
    ensures AllConsistent(UpdateRows(rows, id, p))
  {
  }

  /** Confirming keeps any account consistent. */
  lemma ConfirmKeepsConsistent(u: User)
    requires Consistent(u)
    ensures Consistent(Patched(u, ConfirmPatch))
  {
  }

  /** In a well-keyed table, the row a lookup found is the only row with its
      id, so an update by that id changes that row alone. */
  lemma OnlyRowWithId(rows: seq<User>, nextId: nat, u: User)
    requires UsersRepo.WellKeyed(rows, nextId) && u in rows
    ensures forall i | 0 <= i < |rows| && rows[i].id == u.id :: rows[i] == u
  {
    var k :| 0 <= k < |rows| && rows[k] == u;
  }

  /** Updating the row a lookup found keeps the invariant when the patched
      row is consistent. */
  lemma UpdateFoundKeepsConsistent(rows: seq<User>, nextId: nat, u: User, p: UserPatch)
    requires UsersRepo.WellKeyed(rows, nextId) && u in rows && AllConsistent(rows)
    requires Consistent(Patched(u, p))
    ensures AllConsistent(UpdateRows(rows, u.id, p))
  {
    OnlyRowWithId(rows, nextId, u);
    UpdateKeepsConsistent(rows, u.id, p);
  }

  /** An update by an id that no stored row has yet (the row just inserted)
      changes that row alone. */
  lemma UpdateNewRow(rows: seq<User>, row: User, p: UserPatch)
    requires forall i | 0 <= i < |rows| :: rows[i].id != row.id
    ensures UpdateRows(rows + [row], row.id, p) == rows + [Patched(row, p)]
  {
    var r := UpdateRows(rows + [row], row.id, p);
    assert forall i | 0 <= i < |rows| :: r[i] == rows[i];
  }

  /** A confirmation token, once used, is spent: when the row that used it
      was its only holder, no later lookup finds it. */
  lemma ConfirmationTokenSpent(rows: seq<User>, nextId: nat, token: string, now: int, later: int)
    requires UsersRepo.WellKeyed(rows, nextId)
    requires GetByEmailConfirmationToken(rows, token, now).Some?
    requires forall i, j | 0 <= i < j < |rows| ::
      rows[i].confirmationToken != Some(token) || rows[j].confirmationToken != Some(token)
    ensures var u := GetByEmailConfirmationToken(rows, token, now).value;
      GetByEmailConfirmationToken(UpdateRows(rows, u.id, ConfirmPatch), token, later).None?
  {
    var u := GetByEmailConfirmationToken(rows, token, now).value;
    OnlyRowWithId(rows, nextId, u);
    var k :| 0 <= k < |rows| && rows[k] == u;
    var updated := UpdateRows(rows, u.id, ConfirmPatch);
    forall v <- updated ensures !HoldsLiveToken(v, token, later) {
      var i :| 0 <= i < |updated| && updated[i] == v;
      if rows[i].id != u.id && i != k {
        if i < k {
          assert rows[i].confirmationToken != Some(token);
        } else {
          assert rows[i].confirmationToken != Some(token);
        }
      }
    }
  }

  // ---------------------------------------------------------------------
  // The read-only handlers.

  /** `checkUser`: a blank e-mail is refused; otherwise the answer says
      whether a row has exactly that e-mail and, if so, shows its public
      part. */
  method CheckUser(users: UsersTable, email: Option<string>) returns (r: Response)
    ensures !Truthy(email) || Trim(email.value) == "" ==> r == Response(400, ErrorText(EmailRequired))
    ensures Truthy(email) && Trim(email.value) != "" ==>
      && r.status == 200 && r.body.UserCheck?
      && (r.body.found <==> exists u <- users.rows :: u.email == email.value)
      && (r.body.found ==> r.body.user.Some? && r.body.user.value.email == email.value
                           && exists u <- users.rows :: u.id == r.body.user.value.id && u.email == email.value
                                                        && u.nickname == r.body.user.value.nickname
                                                        && u.emailConfirmed == r.body.user.value.emailConfirmed)
      && (!r.body.found ==> r.body.user.None?)
  {
    if !Truthy(email) || Trim(email.value) == "" {
      return Response(400, ErrorText(EmailRequired));
    }
    var user := GetByEmail(users.rows, email.value);
    if user.Some? {
      var u := user.value;
      r := Response(200, UserCheck(true, Some(UserSummary(u.id, u.email, u.nickname, u.emailConfirmed))));
    } else {
      r := Response(200, UserCheck(false, None));
    }
  }

  /** `checkNickname`: a blank nickname is refused; otherwise the answer
      says whether some row has exactly that nickname. Unlike `register`,
      the nickname is looked up as sent, without trimming. */
  method CheckNickname(users: UsersTable, nickname: Option<string>) returns (r: Response)
    ensures !Truthy(nickname) || Trim(nickname.value) == "" ==> r == Response(400, ErrorText(NicknameRequired))
    ensures Truthy(nickname) && Trim(nickname.value) != "" ==>
      r == Response(200, NicknameCheck(exists u <- users.rows :: u.nickname == nickname.value))
  {
    if !Truthy(nickname) || Trim(nickname.value) == "" {
      return Response(400, ErrorText(NicknameRequired));
    }
    var taken := GetByNickname(users.rows, nickname.value);
    r := Response(200, NicknameCheck(taken.Some?));
  }

  /** `validateResetToken`: the token must be stored and not yet expired
      (`expires_at < now` is expired, so a token is still valid at its
      expiry instant). Nothing is written. */
  method ValidateResetToken(resets: ResetTokensTable, token: Option<string>, now: int) returns (r: Response)
    ensures !Truthy(token) ==> r == Response(400, Message(TokenRequired))
    ensures Truthy(token) ==>
      var record := GetByToken(resets.rows, token.value);
      && (record.None? ==> r == Response(400, Message(InvalidToken)))
      && (record.Some? && record.value.expiresAt < now ==> r == Response(400, Message(TokenExpired)))
      && (record.Some? && record.value.expiresAt >= now ==> r == Response(200, Message(TokenValid)))
  {
    if !Truthy(token) {
      return Response(400, Message(TokenRequired));
    }
    var record := GetByToken(resets.rows, token.value);
    if record.None? {
      r := Response(400, Message(InvalidToken));
    } else if record.value.expiresAt < now {
      r := Response(400, Message(TokenExpired));
    } else {
      r := Response(200, Message(TokenValid));
    }
  }

  /** The columns `me` selects. */
  const ProfileColumns: seq<Column> := [Id, Email, Nickname, CreatedAt, UpdatedAt]

  /** `me`: the id, e-mail, nickname and timestamps of the authenticated
      user, or 404 when the row is gone. */
  method Me(users: UsersTable, userId: nat) returns (r: Response)
    ensures (forall u <- users.rows :: u.id != userId) ==> r == Response(404, ErrorText(UserNotFound))
    ensures (exists u <- users.rows :: u.id == userId) ==>
      && r.status == 200 && r.body.Profile?
      && (forall c :: c in r.body.fields <==> c in ProfileColumns)
      && exists u <- users.rows :: u.id == userId && forall c <- ProfileColumns :: r.body.fields[c] == Field(u, c)
  {
    var lookup := GetFieldsByUserId(users.rows, userId, ProfileColumns);
    if lookup.FieldsFound? && lookup.row.Some? {
      r := Response(200, Profile(lookup.row.value));
    } else {
      r := Response(404, ErrorText(UserNotFound));
    }
  }

  // ---------------------------------------------------------------------
  // E-mail confirmation.

  /** `confirmEmail`: a token held by some row and expiring after `now`
      confirms that row and clears its token; anything else is refused and
      changes nothing. */
  method ConfirmEmail(users: UsersTable, token: Option<string>, now: int) returns (r: Response)
    requires users.Valid()
    modifies users`rows
    ensures users.Valid()
    ensures AllConsistent(old(users.rows)) ==> AllConsistent(users.rows)
    ensures !Truthy(token) ==> r == Response(400, Message(TokenRequired)) && users.rows == old(users.rows)
    ensures Truthy(token) ==>
      var holder := GetByEmailConfirmationToken(old(users.rows), token.value, now);
      && (holder.None? ==> r == Response(400, Message(InvalidOrExpiredToken)) && users.rows == old(users.rows))
      && (holder.Some? ==> r == Response(200, Message(EmailConfirmed))
                           && users.rows == UpdateRows(old(users.rows), holder.value.id, ConfirmPatch))
  {
    if !Truthy(token) {
      return Response(400, Message(TokenRequired));
    }
    var user := GetByEmailConfirmationToken(users.rows, token.value, now);
    if user.None? {
      return Response(400, Message(InvalidOrExpiredToken));
    }
    if AllConsistent(users.rows) {
      ConfirmKeepsConsistent(user.value);
      UpdateFoundKeepsConsistent(users.rows, users.nextId, user.value, ConfirmPatch);
    }
    users.UpdateById(user.value.id, ConfirmPatch);
    r := Response(200, Message(EmailConfirmed));
  }

  /** A confirmation link works once: the same token sent again, at any
      later time, is refused. */
  method ConfirmEmailTwice(users: UsersTable, token: string, now: int, later: int)
    returns (first: Response, second: Response)
    requires users.Valid() && token != ""
    requires GetByEmailConfirmationToken(users.rows, token, now).Some?
    requires forall i, j | 0 <= i < j < |users.rows| ::
      users.rows[i].confirmationToken != Some(token) || users.rows[j].confirmationToken != Some(token)
    modifies users`rows
    ensures first == Response(200, Message(EmailConfirmed))
    ensures second == Response(400, Message(InvalidOrExpiredToken))
  {
    ConfirmationTokenSpent(users.rows, users.nextId, token, now, later);
    first := ConfirmEmail(users, Some(token), now);
    second := ConfirmEmail(users, Some(token), later);
  }

  // ---------------------------------------------------------------------
  // Logins.

  /** No row of the table holds this token yet. */
  predicate Unused(rows: seq<RefreshTokenRow>, token: AuthToken) {
    forall row <- rows :: row.token != token
  }

  /** `googleLogin`. A token Google accepts, carrying an e-mail and a name,
      logs in the account with that e-mail: an access and a refresh token
      are issued and the refresh token is stored. Without such an account
      the name and e-mail come back for the sign-up form and nothing is
      written. The account's `deleted_at` is not looked at. */
  method GoogleLogin(users: UsersTable, refresh: RefreshTokensTable, googleToken: Option<string>,
                     verified: Option<GooglePayload>, now: int) returns (r: Response)
    requires refresh.Valid()
    modifies refresh
    ensures refresh.Valid()
    ensures !Truthy(googleToken) ==> r == Response(400, Message(GoogleTokenRequired)) && unchanged(refresh)
    ensures Truthy(googleToken) && verified.None? ==> r == Response(500, Message(AuthError)) && unchanged(refresh)
    ensures Truthy(googleToken) && verified.Some? && !(Truthy(verified.value.email) && Truthy(verified.value.name))
      ==> r == Response(400, Message(InvalidGoogleToken)) && unchanged(refresh)
    ensures Truthy(googleToken) && verified.Some? && Truthy(verified.value.email) && Truthy(verified.value.name) ==>
      var email := verified.value.email.value;
      var account := GetByEmail(users.rows, email);
      && (account.None? ==> r == Response(200, NewGoogleUser(email, verified.value.name.value)) && unchanged(refresh))
      && (account.Some? ==>
            var u := account.value;
            var refreshToken := GenerateRefreshToken(u.id, now);
            && refresh.nextId == old(refresh.nextId) + 1
            && if Unused(old(refresh.rows), refreshToken) then
              && r == Response(200, Session(u.id, AccessTokenFor(u, now), refreshToken))
              && refresh.rows == old(refresh.rows) + [RefreshTokenRow(old(refresh.nextId), u.id, refreshToken, now)]
            else
              r == Response(500, Message(AuthError)) && refresh.rows == old(refresh.rows))
  {
    if !Truthy(googleToken) {
      return Response(400, Message(GoogleTokenRequired));
    }
    if verified.None? {
      return Response(500, Message(AuthError));
    }
    var payload := verified.value;
    if !Truthy(payload.email) || !Truthy(payload.name) {
      return Response(400, Message(InvalidGoogleToken));
    }
    var existing := GetByEmail(users.rows, payload.email.value);
    if existing.Some? {
      var u := existing.value;
      var accessToken := AccessTokenFor(u, now);
      var refreshToken := GenerateRefreshToken(u.id, now);
      var saved := refresh.SaveRefreshToken(u.id, refreshToken, now);
      if !saved {
        return Response(500, Message(AuthError));
      }
      return Response(200, Session(u.id, accessToken, refreshToken));
    }
    r := Response(200, NewGoogleUser(payload.email.value, payload.name.value));
  }

  /** `userPasswordLogin`. Only a confirmed, not deleted account whose
      stored digest matches the password logs in; it gets an access and a
      refresh token, and the refresh token is stored. A missing e-mail
      makes the query builder throw, and a missing password or digest makes
      bcrypt throw: both end in 500. */
  method UserPasswordLogin(users: UsersTable, refresh: RefreshTokensTable, email: Option<string>,
                           password: Option<string>, hasher: Hasher, now: int) returns (r: Response)
    requires refresh.Valid()
    modifies refresh
    ensures refresh.Valid()
    ensures email.None? ==> r == Response(500, ErrorText(LoginFailed)) && unchanged(refresh)
    ensures email.Some? ==>
      var account := GetByEmail(users.rows, email.value);
      && ((account.None? || !account.value.emailConfirmed)
            ==> r == Response(400, ErrorText(InvalidEmailOrPassword)) && unchanged(refresh))
      && ((account.Some? && account.value.emailConfirmed && account.value.deletedAt.Some?)
            ==> r == Response(403, ErrorText(AccountDeleted)) && unchanged(refresh))
      && (account.Some? && account.value.emailConfirmed && account.value.deletedAt.None? ==>
            var u := account.value;
            && (password.None? || u.passwordHash.None? ==> r == Response(500, ErrorText(LoginFailed)) && unchanged(refresh))
            && ((password.Some? && u.passwordHash.Some? && !hasher.matches(password.value, u.passwordHash.value))
                  ==> r == Response(400, ErrorText(InvalidCredentials)) && unchanged(refresh))
            && (password.Some? && u.passwordHash.Some? && hasher.matches(password.value, u.passwordHash.value) ==>
                  var refreshToken := GenerateRefreshToken(u.id, now);
                  && refresh.nextId == old(refresh.nextId) + 1
                  && if Unused(old(refresh.rows), refreshToken) then
                    && r == Response(200, Tokens(AccessTokenFor(u, now), refreshToken))
                    && refresh.rows == old(refresh.rows) + [RefreshTokenRow(old(refresh.nextId), u.id, refreshToken, now)]
                  else
                    r == Response(500, ErrorText(LoginFailed)) && refresh.rows == old(refresh.rows)))
  {
    if email.None? {
      return Response(500, ErrorText(LoginFailed));
    }
    var user := GetByEmail(users.rows, email.value);
    if user.None? || !user.value.emailConfirmed {
      return Response(400, ErrorText(InvalidEmailOrPassword));
    }
    var u := user.value;
    if u.deletedAt.Some? {
      return Response(403, ErrorText(AccountDeleted));
    }
    if password.None? || u.passwordHash.None? {
      return Response(500, ErrorText(LoginFailed));
    }
    if !hasher.matches(password.value, u.passwordHash.value) {
      return Response(400, ErrorText(InvalidCredentials));
    }
    var accessToken := AccessTokenFor(u, now);
    var refreshToken := GenerateRefreshToken(u.id, now);
    var saved := refresh.SaveRefreshToken(u.id, refreshToken, now);
    if !saved {
      return Response(500, ErrorText(LoginFailed));
    }
    r := Response(200, Tokens(accessToken, refreshToken));
  }

  /** Two successful password logins to one account within the same second
      issue the same refresh token, which the UNIQUE constraint refuses:
      the second login ends in 500. */
  method LoginTwiceInOneSecond(users: UsersTable, refresh: RefreshTokensTable, email: string,
                               password: string, hasher: Hasher, now: int, later: int)
    returns (first: Response, second: Response)
    requires refresh.Valid()
    requires now <= later && later / 1000 == now / 1000
    requires GetByEmail(users.rows, email).Some?
    requires var u := GetByEmail(users.rows, email).value;
      u.emailConfirmed && u.deletedAt.None? && u.passwordHash.Some? && hasher.matches(password, u.passwordHash.value)
    requires Unused(refresh.rows, GenerateRefreshToken(GetByEmail(users.rows, email).value.id, now))
    modifies refresh
    ensures first.status == 200 && first.body.Tokens?
    ensures second == Response(500, ErrorText(LoginFailed))
  {
    var u := GetByEmail(users.rows, email).value;
    RefreshTokensCollide(u.id, now, later);
    first := UserPasswordLogin(users, refresh, Some(email), Some(password), hasher, now);
    second := UserPasswordLogin(users, refresh, Some(email), Some(password), hasher, later);
  }

  /** With bcrypt sound, a confirmed account that is not deleted logs in
      with the password whose digest it stores, unless its refresh token
      for this second is already taken. */
  method LoginWithOwnPassword(users: UsersTable, refresh: RefreshTokensTable, email: string,
                              password: string, hasher: Hasher, now: int)
    returns (r: Response)
    requires refresh.Valid() && Sound(hasher)
    requires GetByEmail(users.rows, email).Some?
    requires var u := GetByEmail(users.rows, email).value;
      u.emailConfirmed && u.deletedAt.None? && u.passwordHash == Some(hasher.hash(password))
    requires Unused(refresh.rows, GenerateRefreshToken(GetByEmail(users.rows, email).value.id, now))
    modifies refresh
    ensures var u := GetByEmail(users.rows, email).value;
      r == Response(200, Tokens(AccessTokenFor(u, now), GenerateRefreshToken(u.id, now)))
  {
    var u := GetByEmail(users.rows, email).value;
    assert hasher.matches(password, hasher.hash(password));
    r := UserPasswordLogin(users, refresh, Some(email), Some(password), hasher, now);
  }

  // ---------------------------------------------------------------------
  // Password reset.

  /** `requestPasswordReset`. After the address checks, an unknown or
      Google account gets the generic answer and nothing is written; an
      unconfirmed account gets a new confirmation token and mail instead;
      a confirmed one gets a reset token valid for an hour, stored in the
      reset-token table and mailed as a link. A failing write or mail ends
      in 500, keeping what was already written. */
  method RequestPasswordReset(users: UsersTable, resets: ResetTokensTable, email: Option<string>,
                              settings: Settings, random: seq<byte>, smtpUp: bool, now: int)
    returns (r: Response, sent: seq<Mail>)
    requires users.Valid() && resets.Valid() && |random| == 16
    modifies users`rows, resets
    ensures users.Valid() && resets.Valid()
    ensures AllConsistent(old(users.rows)) ==> AllConsistent(users.rows)
    ensures !Truthy(email) ==>
      r == Response(400, Message(EmailRequired)) && sent == [] && users.rows == old(users.rows) && unchanged(resets)
    ensures Truthy(email) && !StrictEmail(email.value) ==>
      r == Response(400, Message(InvalidEmailFormat)) && sent == [] && users.rows == old(users.rows) && unchanged(resets)
    ensures Truthy(email) && StrictEmail(email.value) ==>
      var account := GetByEmail(old(users.rows), email.value);
      var t := GenerateConfirmationToken(random, now);
      && ((account.None? || account.value.googleOauth) ==>
            r == Response(200, Message(ResetLinkSent)) && sent == [] && users.rows == old(users.rows) && unchanged(resets))
      && ((account.Some? && !account.value.googleOauth && !account.value.emailConfirmed) ==>
            && users.rows == UpdateRows(old(users.rows), account.value.id, TokenPatch(t))
            && unchanged(resets)
            && (smtpUp ==> r == Response(200, Message(NotConfirmedResent)) && sent == [ConfirmationMail(settings, email.value, t.token)])
            && (!smtpUp ==> r == Response(500, Message(ResetRequestFailed)) && sent == []))
      && ((account.Some? && !account.value.googleOauth && account.value.emailConfirmed) ==>
            && users.rows == old(users.rows)
            && resets.nextId == old(resets.nextId) + 1
            && (GetByToken(old(resets.rows), t.token).Some? ==>
                  r == Response(500, Message(ResetRequestFailed)) && sent == [] && resets.rows == old(resets.rows))
            && (GetByToken(old(resets.rows), t.token).None? ==>
                  && resets.rows == old(resets.rows) + [ResetTokenRow(old(resets.nextId), account.value.id, t.token, now + 3_600_000, now, None)]
                  && (smtpUp ==> r == Response(200, Message(ResetLinkSent)) && sent == [ResetMail(settings, email.value, t.token)])
                  && (!smtpUp ==> r == Response(500, Message(ResetRequestFailed)) && sent == [])))
  {
    sent := [];
    if !Truthy(email) {
      return Response(400, Message(EmailRequired)), [];
    }
    if !StrictEmail(email.value) {
      return Response(400, Message(InvalidEmailFormat)), [];
    }
    var user := GetByEmail(users.rows, email.value);
    if user.None? || user.value.googleOauth {
      return Response(200, Message(ResetLinkSent)), [];
    }
    var u := user.value;
    var t := GenerateConfirmationToken(random, now);
    if !u.emailConfirmed {
      if AllConsistent(users.rows) {
        UpdateFoundKeepsConsistent(users.rows, users.nextId, u, TokenPatch(t));
      }
      users.UpdateById(u.id, TokenPatch(t));
      if !smtpUp {
        return Response(500, Message(ResetRequestFailed)), [];
      }
      return Response(200, Message(NotConfirmedResent)), [ConfirmationMail(settings, email.value, t.token)];
    }
    var saved := resets.SaveResetToken(ResetTokenRequest(u.id, t.token, t.tokenExpiration, now), now);
    if !saved || !smtpUp {
      return Response(500, Message(ResetRequestFailed)), [];
    }
    r, sent := Response(200, Message(ResetLinkSent)), [ResetMail(settings, email.value, t.token)];
  }

  /** `resetPassword`. The checks run in this order: both values present,
      the complexity rule, a stored token, not expired, its user exists, is
      confirmed and is not a Google account. Only when all pass is the
      password digest replaced and the token deleted; every refusal writes
      nothing. */
  method ResetPassword(users: UsersTable, resets: ResetTokensTable, token: Option<string>,
                       password: Option<string>, settings: Settings, hasher: Hasher, now: int)
    returns (r: Response)
    requires users.Valid() && resets.Valid()
    modifies users`rows, resets`rows
    ensures users.Valid() && resets.Valid()
    ensures AllConsistent(old(users.rows)) ==> AllConsistent(users.rows)
    ensures r != Response(200, Message(PasswordReset)) ==> users.rows == old(users.rows) && resets.rows == old(resets.rows)
    ensures !Truthy(token) || !Truthy(password) ==> r == Response(400, Message(TokenAndPasswordRequired))
    ensures Truthy(token) && Truthy(password) ==>
      var record := GetByToken(old(resets.rows), token.value);
      && (!ValidatePasswordComplexity(settings.passwordComplexity, password.value) ==>
            r == ComplexityRejection(settings.passwordComplexity))
      && (ValidatePasswordComplexity(settings.passwordComplexity, password.value) ==>
            && (record.None? ==> r == Response(400, Message(InvalidToken)))
            && (record.Some? && record.value.expiresAt < now ==> r == Response(400, Message(TokenExpired)))
            && (record.Some? && record.value.expiresAt >= now ==>
                  var account := GetById(old(users.rows), record.value.userId);
                  && (account.None? ==> r == Response(400, Message(NoUserForToken)))
                  && (account.Some? && !account.value.emailConfirmed ==> r == Response(400, Message(ConfirmFirst)))
                  && ((account.Some? && account.value.emailConfirmed && account.value.googleOauth)
                        ==> r == Response(400, Message(NoResetForGoogle)))
                  && (account.Some? && account.value.emailConfirmed && !account.value.googleOauth ==>
                        && r == Response(200, Message(PasswordReset))
                        && users.rows == UpdateRows(old(users.rows), account.value.id, PasswordPatch(hasher.hash(password.value)))
                        && resets.rows == Tables.Without(old(resets.rows), (t: ResetTokenRow) => t.resetToken == token.value))))
  {
    if !Truthy(token) || !Truthy(password) {
      return Response(400, Message(TokenAndPasswordRequired));
    }
    if !ValidatePasswordComplexity(settings.passwordComplexity, password.value) {
      return ComplexityRejection(settings.passwordComplexity);
    }
    var record := GetByToken(resets.rows, token.value);
    if record.None? {
      return Response(400, Message(InvalidToken));
    }
    if record.value.expiresAt < now {
      return Response(400, Message(TokenExpired));
    }
    var user := GetById(users.rows, record.value.userId);
    if user.None? {
      return Response(400, Message(NoUserForToken));
    }
    var u := user.value;
    if !u.emailConfirmed {
      return Response(400, Message(ConfirmFirst));
    }
    if u.googleOauth {
      return Response(400, Message(NoResetForGoogle));
    }
    var digest := hasher.hash(password.value);
    if AllConsistent(users.rows) {
      UpdateFoundKeepsConsistent(users.rows, users.nextId, u, PasswordPatch(digest));
    }
    users.UpdateById(u.id, PasswordPatch(digest));
    resets.DeleteByToken(token.value);
    r := Response(200, Message(PasswordReset));
  }

  /** A reset link works once: after a successful reset, the same token is
      an invalid one. */
  method ResetPasswordTwice(users: UsersTable, resets: ResetTokensTable, token: string, password: string,
                            settings: Settings, hasher: Hasher, now: int, later: int)
    returns (first: Response, second: Response)
    requires users.Valid() && resets.Valid()
    modifies users`rows, resets`rows
    ensures first == Response(200, Message(PasswordReset)) ==> second == Response(400, Message(InvalidToken))
  {
    first := ResetPassword(users, resets, Some(token), Some(password), settings, hasher, now);
    second := ResetPassword(users, resets, Some(token), Some(password), settings, hasher, later);
  }

  // ---------------------------------------------------------------------
  // Registration.

  /** The element of `create(...).returning('id')`: a record holding the
      new id and nothing else. */
  datatype CreatedId = CreatedId(id: nat)

  /** The access token the Google branch of `register` issues, as written:
      its claims are read from the `returning('id')` record, so the e-mail
      and the nickname are `undefined` and drop out of the payload. */
  function GoogleSignupAccessTokenAsWritten(created: CreatedId, now: int): (t: AuthToken)
    ensures t.AccessToken? && t.id == created.id && t.issuedAt == IssuedAt(now)
  {
    GenerateAccessToken(created.id, None, None, now)
  }

  /** As written, the sign-up token never matches the token any login
      issues for the same account in the same second: it lacks the e-mail
      and the nickname the other access tokens carry. */
  lemma GoogleSignupTokenLacksClaims(n: NewUser, id: nat, now: int)
    ensures var t := GoogleSignupAccessTokenAsWritten(CreatedId(id), now);
      && t.email.None? && t.nickname.None?
      && t != AccessTokenFor(Inserted(n, id, now), now)
  {
    var t := GoogleSignupAccessTokenAsWritten(CreatedId(id), now);
    assert AccessTokenFor(Inserted(n, id, now), now).email.Some?;
  }

  /** The sign-up token as intended: the claims of the row just created,
      the same token a login of that account issues. */
  function GoogleSignupAccessToken(created: User, now: int): (t: AuthToken)
    ensures t.AccessToken? && t.id == created.id && t.issuedAt == IssuedAt(now)
    ensures t.email == Some(created.email) && t.nickname == Some(created.nickname)
  {
    AccessTokenFor(created, now)
  }

  /** The row `register` asks `create` to insert. */
  function NewAccount(email: string, nickname: string, digest: Option<string>, agreed: AgreedVersions, viaGoogle: bool): NewUser
    requires agreed.terms.Some? && agreed.privacy.Some?
  {
    NewUser(email, nickname, digest, agreed.terms.value.version, agreed.privacy.value.version, Some(viaGoogle), Some(viaGoogle))
  }

  /** The unconfirmed password account `u` is taken over: its row gets the
      new nickname, the new password's hash (or keeps its own when none is
      given) and a fresh confirmation token; with the mail server up the
      answer is 200 and the link is mailed, otherwise 500 and nothing is
      mailed. The row is written before the mail is tried. */
  ghost predicate TakeOverOutcome(
    u: User, email: string, nickname: string, password: Option<string>, settings: Settings, hasher: Hasher,
    random: seq<byte>, smtpUp: bool, now: int, oldRows: seq<User>, rows: seq<User>, r: Response, sent: seq<Mail>)
    requires |random| == 16
  {
    var t := GenerateConfirmationToken(random, now);
    var digest := if Truthy(password) then Some(hasher.hash(password.value)) else u.passwordHash;
    && rows == UpdateRows(oldRows, u.id, ResendPatch(nickname, digest, t))
    && (smtpUp ==> r == Response(200, Registered(ResentConfirmation, u.id, false, None))
                   && sent == [ConfirmationMail(settings, email, t.token)])
    && (!smtpUp ==> r == Response(500, Thrown) && sent == [])
  }

  /** The resend branch of `register`: an existing account that is not
      confirmed and not a Google account takes the new nickname, the new
      password's digest (or keeps its own when none is given) and a fresh
      confirmation token, which is mailed out. The update stays when the
      mail fails. */
  method TakeOverUnconfirmed(users: UsersTable, u: User, email: string, nickname: string, password: Option<string>,
                             settings: Settings, hasher: Hasher, random: seq<byte>, smtpUp: bool, now: int)
    returns (r: Response, sent: seq<Mail>)
    requires users.Valid() && u in users.rows && !u.emailConfirmed && !u.googleOauth && |random| == 16
    modifies users`rows
    ensures users.Valid()
    ensures AllConsistent(old(users.rows)) ==> AllConsistent(users.rows)
    ensures TakeOverOutcome(u, email, nickname, password, settings, hasher, random, smtpUp, now,
                            old(users.rows), users.rows, r, sent)
  {
    var t := GenerateConfirmationToken(random, now);
    var digest := if Truthy(password) then Some(hasher.hash(password.value)) else u.passwordHash;
    if AllConsistent(users.rows) {
      var k :| 0 <= k < |users.rows| && users.rows[k] == u;
      assert Consistent(users.rows[k]);
      UpdateFoundKeepsConsistent(users.rows, users.nextId, u, ResendPatch(nickname, digest, t));
    }
    users.UpdateById(u.id, ResendPatch(nickname, digest, t));
    if !smtpUp {
      return Response(500, Thrown), [];
    }
    r, sent := Response(200, Registered(ResentConfirmation, u.id, false, None)), [ConfirmationMail(settings, email, t.token)];
  }

  /** A Google sign-up of `account` as row `id` (the sequence's next
      value): when its refresh token is not stored yet, the row and the
      refresh token are added and the answer is 201 with both tokens, the
      access token being the id-only one the code builds from the
      `returning('id')` record; otherwise the transaction rolls back and
      the answer is 500. */
  ghost predicate GoogleAccountOutcome(
    account: NewUser, now: int, oldRows: seq<User>, id: nat, oldRefresh: seq<RefreshTokenRow>, refreshId: nat,
    rows: seq<User>, refreshRows: seq<RefreshTokenRow>, r: Response)
  {
    var row := Inserted(account, id, now);
    var refreshToken := GenerateRefreshToken(id, now);
    && (Unused(oldRefresh, refreshToken) ==>
          && rows == oldRows + [row]
          && refreshRows == oldRefresh + [RefreshTokenRow(refreshId, id, refreshToken, now)]
          && r == Response(201, Registered(GoogleRegistered, id, true,
                                           Some((GoogleSignupAccessTokenAsWritten(CreatedId(id), now), refreshToken)))))
    && (!Unused(oldRefresh, refreshToken) ==>
          rows == oldRows && refreshRows == oldRefresh && r == Response(500, Thrown))
  }

  /** A password sign-up of `account` as row `id`: with the mail server up,
      the row holding the confirmation token is added, 201 is answered and
      the link is mailed; otherwise the transaction rolls back, nothing is
      mailed and the answer is 500. */
  ghost predicate PasswordAccountOutcome(
    account: NewUser, settings: Settings, random: seq<byte>, smtpUp: bool, now: int,
    oldRows: seq<User>, id: nat, rows: seq<User>, r: Response, sent: seq<Mail>)
    requires |random| == 16
  {
    var t := GenerateConfirmationToken(random, now);
    && (smtpUp ==> && rows == oldRows + [Patched(Inserted(account, id, now), TokenPatch(t))]
                   && r == Response(201, Registered(PasswordRegistered, id, false, None))
                   && sent == [ConfirmationMail(settings, account.email, t.token)])
    && (!smtpUp ==> rows == oldRows && r == Response(500, Thrown) && sent == [])
  }

  /** The Google branch of the sign-up transaction: the account is created
      confirmed and without a password, and an access and a refresh token
      are issued for it; when storing the refresh token fails the created
      row is rolled back. */
  method CreateGoogleAccount(users: UsersTable, refresh: RefreshTokensTable, account: NewUser, now: int)
    returns (r: Response)
    requires users.Valid() && refresh.Valid() && GetByEmail(users.rows, account.email).None?
    requires account.passwordHash.None? && account.googleOauth == Some(true) && account.emailConfirmed == Some(true)
    modifies users, refresh
    ensures users.Valid() && refresh.Valid()
    ensures AllConsistent(old(users.rows)) ==> AllConsistent(users.rows)
    ensures users.nextId == old(users.nextId) + 1 && refresh.nextId == old(refresh.nextId) + 1
    ensures GoogleAccountOutcome(account, now, old(users.rows), old(users.nextId), old(refresh.rows), old(refresh.nextId),
                                 users.rows, refresh.rows, r)
  {
    var snapshot := users.rows;
    var created := users.Create(account, now);
    var id := created.value;
    var accessToken := GoogleSignupAccessTokenAsWritten(CreatedId(id), now);
    var refreshToken := GenerateRefreshToken(id, now);
    var saved := refresh.SaveRefreshToken(id, refreshToken, now);
    if !saved {
      users.rows := snapshot;
      return Response(500, Thrown);
    }
    r := Response(201, Registered(GoogleRegistered, id, true, Some((accessToken, refreshToken))));
  }

  /** The password branch of the sign-up transaction: the account is
      created unconfirmed with the password's digest, given a confirmation
      token, and the token is mailed; when the mail fails the created row
      is rolled back. */
  method CreatePasswordAccount(users: UsersTable, account: NewUser, settings: Settings,
                               random: seq<byte>, smtpUp: bool, now: int)
    returns (r: Response, sent: seq<Mail>)
    requires users.Valid() && GetByEmail(users.rows, account.email).None? && |random| == 16
    requires account.passwordHash.Some? && account.googleOauth == Some(false) && account.emailConfirmed == Some(false)
    modifies users
    ensures users.Valid()
    ensures AllConsistent(old(users.rows)) ==> AllConsistent(users.rows)
    ensures users.nextId == old(users.nextId) + 1
    ensures PasswordAccountOutcome(account, settings, random, smtpUp, now, old(users.rows), old(users.nextId),
                                   users.rows, r, sent)
  {
    var snapshot := users.rows;
    var created := users.Create(account, now);
    var id := created.value;
    var row := Inserted(account, id, now);
    var t := GenerateConfirmationToken(random, now);
    UpdateNewRow(snapshot, row, TokenPatch(t));
    users.UpdateById(id, TokenPatch(t));
    if !smtpUp {
      users.rows := snapshot;
      return Response(500, Thrown), [];
    }
    r, sent := Response(201, Registered(PasswordRegistered, id, false, None)), [ConfirmationMail(settings, account.email, t.token)];
  }

  /** The fields a request that passed every check is sure to carry. */
  predicate RequestComplete(req: RegisterRequest) {
    && req.email.Some? && req.nickname.Some? && req.agreedPolicyVersions.Some?
    && req.agreedPolicyVersions.value.terms.Some? && req.agreedPolicyVersions.value.privacy.Some?
    && (!Truthy(req.googleToken) ==> req.password.Some?)
  }

  /** A request that passes every check carries every field the account
      is written from. */
  lemma CheckedRequestComplete(
    req: RegisterRequest, complexity: Option<string>, rows: seq<User>,
    latest: seq<PoliciesRepo.PolicyVersion>, google: Option<GooglePayload>)
    requires RegisterChecks(req, complexity, rows, latest, google).None?
    ensures RequestComplete(req)
  {
    assert RegistrationAcceptable(req, complexity, rows, latest, google);
  }

  /** `register` once every check has passed: the e-mail decides between
      refusing, taking over the unconfirmed account, and a new account. */
  method RegisterAccepted(users: UsersTable, refresh: RefreshTokensTable, req: RegisterRequest, nickname: string,
                          settings: Settings, hasher: Hasher, random: seq<byte>, smtpUp: bool, now: int)
    returns (r: Response, sent: seq<Mail>)
    requires users.Valid() && refresh.Valid() && |random| == 16
    requires RequestComplete(req)
    modifies users, refresh
    ensures users.Valid() && refresh.Valid()
    ensures AllConsistent(old(users.rows)) ==> AllConsistent(users.rows)
    ensures var existing := GetByEmail(old(users.rows), req.email.value);
      (existing.Some? && (existing.value.emailConfirmed || existing.value.googleOauth)) ==>
        r == Response(400, Message(UserAlreadyExists)) && sent == [] && unchanged(users) && unchanged(refresh)
    ensures var existing := GetByEmail(old(users.rows), req.email.value);
      (existing.Some? && !existing.value.emailConfirmed && !existing.value.googleOauth) ==>
        && TakeOverOutcome(existing.value, req.email.value, nickname, req.password, settings, hasher,
                           random, smtpUp, now, old(users.rows), users.rows, r, sent)
        && users.nextId == old(users.nextId) && unchanged(refresh)
    ensures GetByEmail(old(users.rows), req.email.value).None? ==>
      NewAccountOutcome(req, nickname, settings, hasher, random, smtpUp, now, old(users.rows), old(users.nextId),
                        old(refresh.rows), old(refresh.nextId), users.rows, users.nextId, refresh.rows, refresh.nextId, r, sent)
  {
    var email := req.email.value;
    var existing := GetByEmail(users.rows, email);
    if existing.Some? {
      var u := existing.value;
      if !u.emailConfirmed && !u.googleOauth {
        r, sent := TakeOverUnconfirmed(users, u, email, nickname, req.password, settings, hasher, random, smtpUp, now);
        return;
      }
      return Response(400, Message(UserAlreadyExists)), [];
    }
    r, sent := RegisterNewAccount(users, refresh, req, nickname, settings, hasher, random, smtpUp, now);
  }

  /** What `register` leaves behind for an e-mail address no row holds:
      through Google, the row and a refresh token with 201 (or neither, with
      500, when the token is already stored); with a password, the row
      holding the confirmation token with 201 and one mail (or nothing,
      with 500, when the mail cannot be sent). Either way the id sequence
      has moved on by one; the refresh-token sequence moves on by one on a
      Google sign-up and stays otherwise. */
  ghost predicate NewAccountOutcome(
    req: RegisterRequest, nickname: string, settings: Settings, hasher: Hasher, random: seq<byte>, smtpUp: bool, now: int,
    oldRows: seq<User>, oldNextId: nat, oldRefresh: seq<RefreshTokenRow>, oldRefreshNextId: nat,
    rows: seq<User>, nextId: nat, refreshRows: seq<RefreshTokenRow>, refreshNextId: nat, r: Response, sent: seq<Mail>)
    requires RequestComplete(req) && |random| == 16
  {
    var viaGoogle := Truthy(req.googleToken);
    var digest := if viaGoogle then None else Some(hasher.hash(req.password.value));
    var account := NewAccount(req.email.value, nickname, digest, req.agreedPolicyVersions.value, viaGoogle);
    && nextId == oldNextId + 1
    && refreshNextId == oldRefreshNextId + (if viaGoogle then 1 else 0)
    && (viaGoogle ==>
          && sent == []
          && GoogleAccountOutcome(account, now, oldRows, oldNextId, oldRefresh, oldRefreshNextId, rows, refreshRows, r))
    && (!viaGoogle ==>
          && refreshRows == oldRefresh
          && PasswordAccountOutcome(account, settings, random, smtpUp, now, oldRows, oldNextId, rows, r, sent))
  }


  /** `register` for an e-mail address no row holds. */
  method RegisterNewAccount(users: UsersTable, refresh: RefreshTokensTable, req: RegisterRequest, nickname: string,
                            settings: Settings, hasher: Hasher, random: seq<byte>, smtpUp: bool, now: int)
    returns (r: Response, sent: seq<Mail>)
    requires users.Valid() && refresh.Valid() && |random| == 16
    requires RequestComplete(req)
    requires GetByEmail(users.rows, req.email.value).None?
    modifies users, refresh
    ensures users.Valid() && refresh.Valid()
    ensures AllConsistent(old(users.rows)) ==> AllConsistent(users.rows)
    ensures !Truthy(req.googleToken) ==> unchanged(refresh)
    ensures NewAccountOutcome(req, nickname, settings, hasher, random, smtpUp, now, old(users.rows), old(users.nextId),
                              old(refresh.rows), old(refresh.nextId), users.rows, users.nextId, refresh.rows, refresh.nextId, r, sent)
  {
    var viaGoogle := Truthy(req.googleToken);
    var digest := if viaGoogle then None else Some(hasher.hash(req.password.value));
    var account := NewAccount(req.email.value, nickname, digest, req.agreedPolicyVersions.value, viaGoogle);
    if viaGoogle {
      r := CreateGoogleAccount(users, refresh, account, now);
      sent := [];
    } else {
      r, sent := CreatePasswordAccount(users, account, settings, random, smtpUp, now);
      assert refresh.Valid();
    }
  }

  /** `register`. After the checks of `RegisterChecks` (a refusal writes
      nothing), an existing unconfirmed password account is taken over
      (`TakeOverUnconfirmed`); any other existing account is refused.
      Otherwise a transaction creates the account, through Google
      (`CreateGoogleAccount`) or with a password (`CreatePasswordAccount`).
      A failure inside the transaction rolls the users table back, though
      the id sequence stays advanced. */
  method Register(users: UsersTable, refresh: RefreshTokensTable, policies: PoliciesRepo.PoliciesTable,
                  req: RegisterRequest, settings: Settings, google: Option<GooglePayload>, hasher: Hasher,
                  random: seq<byte>, smtpUp: bool, now: int)
    returns (r: Response, sent: seq<Mail>)
    requires users.Valid() && refresh.Valid() && |random| == 16
    modifies users, refresh
    ensures users.Valid() && refresh.Valid()
    ensures AllConsistent(old(users.rows)) ==> AllConsistent(users.rows)
    ensures var latest := PoliciesRepo.GetLatestPolicies(policies.policies, now);
      var check := RegisterChecks(req, settings.passwordComplexity, old(users.rows), latest, google);
      check.Some? ==> r == check.value && sent == [] && unchanged(users) && unchanged(refresh)
    ensures var latest := PoliciesRepo.GetLatestPolicies(policies.policies, now);
      RegisterChecks(req, settings.passwordComplexity, old(users.rows), latest, google).None? ==>
      var existing := GetByEmail(old(users.rows), req.email.value);
      existing.Some? && (existing.value.emailConfirmed || existing.value.googleOauth) ==>
        r == Response(400, Message(UserAlreadyExists)) && sent == [] && unchanged(users) && unchanged(refresh)
    ensures var latest := PoliciesRepo.GetLatestPolicies(policies.policies, now);
      RegisterChecks(req, settings.passwordComplexity, old(users.rows), latest, google).None? ==>
      var existing := GetByEmail(old(users.rows), req.email.value);
      existing.Some? && !existing.value.emailConfirmed && !existing.value.googleOauth ==>
        && TakeOverOutcome(existing.value, req.email.value, Trim(req.nickname.value), req.password, settings, hasher,
                           random, smtpUp, now, old(users.rows), users.rows, r, sent)
        && users.nextId == old(users.nextId) && unchanged(refresh)
    ensures var latest := PoliciesRepo.GetLatestPolicies(policies.policies, now);
      && RegisterChecks(req, settings.passwordComplexity, old(users.rows), latest, google).None?
      && GetByEmail(old(users.rows), req.email.value).None?
      ==> NewAccountOutcome(req, Trim(req.nickname.value), settings, hasher, random, smtpUp, now,
                            old(users.rows), old(users.nextId),
                            old(refresh.rows), old(refresh.nextId), users.rows, users.nextId, refresh.rows, refresh.nextId, r, sent)
  {
    var latest := PoliciesRepo.GetLatestPolicies(policies.policies, now);
    var check := RegisterChecks(req, settings.passwordComplexity, users.rows, latest, google);
    if check.Some? {
      return check.value, [];
    }
    CheckedRequestComplete(req, settings.passwordComplexity, users.rows, latest, google);
    r, sent := RegisterAccepted(users, refresh, req, Trim(req.nickname.value), settings, hasher, random, smtpUp, now);
  }


  /** A password sign-up of a new e-mail address, with the mail server up:
      201, one new row at the end of the table holding the e-mail and the
      confirmation token for the next hour, and one mail carrying that
      token. */
  method SignUpWithPassword(users: UsersTable, refresh: RefreshTokensTable, policies: PoliciesRepo.PoliciesTable,
                            req: RegisterRequest, settings: Settings, google: Option<GooglePayload>, hasher: Hasher,
                            random: seq<byte>, now: int)
    returns (r: Response, sent: seq<Mail>)
    requires users.Valid() && refresh.Valid() && |random| == 16
    requires RegistrationAcceptable(req, settings.passwordComplexity, users.rows,
                                    PoliciesRepo.GetLatestPolicies(policies.policies, now), google)
    requires !Truthy(req.googleToken) && GetByEmail(users.rows, req.email.value).None?
    modifies users, refresh
    ensures users.Valid()
    ensures var t := GenerateConfirmationToken(random, now);
      && r.status == 201
      && |users.rows| == |old(users.rows)| + 1 && users.rows[..|old(users.rows)|] == old(users.rows)
      && var created := users.rows[|old(users.rows)|];
      && created.email == req.email.value && !created.emailConfirmed
      && created.confirmationToken == Some(t.token) && created.confirmationTokenExpires == Some(now + 3_600_000)
      && sent == [Mail(req.email.value, ConfirmationSubject, ConfirmationLink(settings.baseUrl, t.token))]
  {
    r, sent := Register(users, refresh, policies, req, settings, google, hasher, random, true, now);
  }

  /** A password sign-up followed, within the hour, by a visit to the link
      it mailed confirms the new account. */
  method RegisterThenConfirm(users: UsersTable, refresh: RefreshTokensTable, policies: PoliciesRepo.PoliciesTable,
                             req: RegisterRequest, settings: Settings, google: Option<GooglePayload>, hasher: Hasher,
                             random: seq<byte>, now: int, later: int)
    returns (first: Response, second: Response)
    requires users.Valid() && refresh.Valid() && |random| == 16
    requires RegistrationAcceptable(req, settings.passwordComplexity, users.rows,
                                    PoliciesRepo.GetLatestPolicies(policies.policies, now), google)
    requires !Truthy(req.googleToken) && GetByEmail(users.rows, req.email.value).None?
    requires forall u <- users.rows :: u.confirmationToken != Some(GenerateConfirmationToken(random, now).token)
    requires now <= later < now + 3_600_000
    modifies users, refresh
    ensures first.status == 201
    ensures second == Response(200, Message(EmailConfirmed))
    ensures exists u <- users.rows :: u.email == req.email.value && u.emailConfirmed
  {
    var before := users.rows;
    var sent;
    first, sent := SignUpWithPassword(users, refresh, policies, req, settings, google, hasher, random, now);
    second := ConfirmMailedLink(users, before, req.email.value, settings.baseUrl, GenerateConfirmationToken(random, now).token,
                                sent[0].link, now + 3_600_000, later);
  }

  /** The visit to a mailed confirmation link, when the row holding its
      token was the last one added and no older row holds that token:
      200, and that row is confirmed. */
  method ConfirmMailedLink(users: UsersTable, before: seq<User>, email: string, baseUrl: string, token: string,
                           link: string, expires: int, later: int)
    returns (r: Response)
    requires users.Valid() && |users.rows| == |before| + 1 && users.rows[..|before|] == before
    requires token != "" && forall u <- before :: u.confirmationToken != Some(token)
    requires users.rows[|before|].email == email && users.rows[|before|].confirmationToken == Some(token)
    requires users.rows[|before|].confirmationTokenExpires == Some(expires) && later < expires
    requires link == ConfirmationLink(baseUrl, token)
    modifies users`rows
    ensures r == Response(200, Message(EmailConfirmed))
    ensures exists u <- users.rows :: u.email == email && u.emailConfirmed
  {
    var created := users.rows[|before|];
    assert users.rows == before + [created];
    forall i | 0 <= i < |before|
      ensures before[i].id != created.id
    {
      assert users.rows[i] == before[i];
    }
    UpdateNewRow(before, created, ConfirmPatch);
    ConfirmationTokenOfAppended(before, created, token, later);
    LinkRoundTrip(baseUrl, ConfirmRoute, token, link);
    r := ConfirmEmail(users, TokenOfLink(baseUrl, ConfirmRoute, link), later);
    assert users.rows[|before|] == Patched(created, ConfirmPatch);
  }

}
