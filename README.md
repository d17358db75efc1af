# auth-flow-fullstack: the credential life cycle, modelled in Dafny

This project models the backend of an account system and proves
properties of the model. Users register by password (confirmed by a
mailed link) or through Google. They log in and receive an access and a
refresh token, and they can reset a forgotten password through a mailed,
one-hour reset link. The model also covers the small pure pieces around
that life cycle:

- the backend and frontend password-complexity rules;
- the confirmation-token generator;
- the SMTP start-up checks and the mailed links;
- the policy endpoints, with their `content_url`s;
- the front end's policy-text parser and its policy-path matcher.

The model has one module per source file:

| module | file | models |
|---|---|---|
| `AuthController` | `auth_controller.dfy` | the ten handlers of `authController.js` |
| `UsersRepo`, `ResetTokensRepo`, `RefreshTokensRepo`, `PoliciesRepo` | one file each | the four repositories, with one class per table (`rows` and the serial `nextId`) |
| `PasswordValidation`, `FrontendPasswordValidation` | one file each | the two complexity validators |
| `ConfirmationToken` | `confirmation_token.dfy` | hex encoding and the token generator |
| `EmailsService` | `emails_service.dfy` | environment validation and links |
| `PoliciesController` | `policies_controller.dfy` | the policy endpoints |
| `PolicyPage` | `policy_page.dfy` | `parsePolicyContent` and the path match |
| `AuthService` | `auth_service.dfy` | tokens as the payloads they sign |
| `Strings`, `Tables`, `Wrappers` | one file each | JavaScript's white space, `trim` and `split`; knex's `.first()`; `Option` |

How the model is built:

- **Handlers** are methods over the table objects.
- **Outside inputs** are parameters:
  - the clock, `now` in milliseconds;
  - the 16 random bytes;
  - Google's verification answer;
  - whether the mail server accepts the message;
  - bcrypt, as a `Hasher`.
- **Results.** Each handler returns its HTTP response and the mails it sent.
- **The account invariant** `AuthController.Consistent` is kept by every handler that writes users:
  - a Google account is confirmed and has no password;
  - any other account has a password digest;
  - an account holds a confirmation token, with its expiry, exactly while it is unconfirmed.

Behaviour of the code that the model keeps as written:

- The complexity message says 6 characters, while the simple rule accepts 3.
- `checkNickname` does not trim the nickname, but `register` does.
- `googleLogin` does not look at `deleted_at`.
- `register` never calls `saveUserAgreement`.
- A Google sign-up answers with an access token that carries the new account's id alone (see Findings). The handlers issue that token. `AuthController.GoogleSignupAccessToken` is the intended token, kept as a reference.
- Password lengths are JavaScript `length`s, counted in UTF-16 code units: a character above U+FFFF counts twice (`PasswordValidation.AstralCountsTwice`).
- Two password logins of one account within the same second sign identical refresh tokens. The UNIQUE constraint then refuses the second one, and that login ends in a 500 (`AuthController.LoginTwiceInOneSecond`).
- `parsePolicyContent` throws when two subsection headings come before the first section heading, or when the text has a subsection heading and no section heading at all (`PolicyPage.ParseOutcome` states this condition). The model treats the exception as an error result (`None`), not as a precondition, because the page catches it. A single subsection heading before the first section heading is dropped without an error.

## Model

| member | source | states |
|---|---|---|
| UsersRepo.Inserted | backend/src/repositories/users.js:24-51 | the row `create` stores: email and nickname as given; password hash, Google flag and confirmation flag default to null/false; `accepted_policies` iff both versions are truthy; a given terms or privacy version is stored as given and a missing one takes the column default `v1.0`; no token and not deleted; created and updated at `now` |
| UsersRepo.UsersTable.Create | backend/src/repositories/users.js:24-51 | inserts exactly one row with the next serial id, or fails on an e-mail already stored and inserts nothing; the sequence advances either way |
| UsersRepo.UpdateTouchesOnlyTarget | backend/src/repositories/users.js:71-74 | `updateById` leaves every other row unchanged; in the rows with that id a listed column takes its new value and every column not listed, as well as the id, e-mail, Google flag, policy versions, deletion mark and timestamps, keeps its old one |
| UsersRepo.UsersTable.UpdateById | backend/src/repositories/users.js:71-74 | the table after the update is the old one with the target row patched, and the table stays well keyed |
| UsersRepo.UpdateKeepsKeys | backend/src/repositories/users.js:71-74 | an update keeps ids below the sequence, distinct, and e-mails unique |
| UsersRepo.GetByEmail | backend/src/repositories/users.js:4-10 | returns a stored row with exactly that e-mail, and nothing only when no row has it |
| UsersRepo.GetByEmailFindsTheRow | backend/src/repositories/users.js:4-10 | in a well-keyed table the lookup by a row's e-mail returns that very row |
| UsersRepo.GetById | backend/src/repositories/users.js:12-15 | returns a stored row with that id, and nothing only when no row has it |
| UsersRepo.GetByNickname | backend/src/repositories/users.js:17-22 | returns a stored row with exactly that nickname, and nothing only when no row has it |
| UsersRepo.GetByEmailConfirmationToken | backend/src/repositories/users.js:64-69 | returns a row holding that token whose expiry is strictly after now, and nothing only when no row holds it live |
| UsersRepo.GetFieldsByUserId | backend/src/repositories/users.js:53-62 | an empty column list is rejected; otherwise the row with that id, if any, restricted to exactly the requested columns with their stored values |
| ResetTokensRepo.GetByToken | backend/src/repositories/password_reset_tokens.js:19-23 | returns a stored row with exactly that reset token, and nothing only when none has it |
| ResetTokensRepo.ResetTokensTable.SaveResetToken | backend/src/repositories/password_reset_tokens.js:4-17 | adds exactly one row with the given user, token and expiry, stamped now, `consumed_at` null; a token already stored violates UNIQUE and nothing is added |
| ResetTokensRepo.ResetTokensTable.DeleteByToken | backend/src/repositories/password_reset_tokens.js:25-27 | removes the rows with that token and keeps all others in order; afterwards the token is not found |
| ResetTokensRepo.WithoutKeepsKeys | backend/src/repositories/password_reset_tokens.js:25-27 | deletion keeps the table well keyed (distinct ids, distinct tokens) |
| RefreshTokensRepo.RefreshTokensTable.SaveRefreshToken | backend/src/repositories/refresh_tokens.js:4-13 | appends exactly one row for the user holding the token verbatim, leaving the old rows; a token already stored is refused and nothing is added; on success the user's tokens are the old ones plus the new one; the id sequence advances either way |
| RefreshTokensRepo.TokensOf | backend/src/repositories/refresh_tokens.js:4-13 | the tokens a user holds are exactly the tokens of that user's rows |
| RefreshTokensRepo.TokensOfAppend | backend/src/repositories/refresh_tokens.js:4-13 | saving a token adds it to that user's tokens and keeps the ones held before: a user may hold any number |
| PoliciesRepo.GetByTypeAndVersion | backend/src/repositories/policies.js:4-8 | returns a row with exactly that type and version, and nothing only when none matches both |
| PoliciesRepo.LatestSorted | backend/src/repositories/policies.js:10-16 | the latest policies are ordered by type, strictly ascending |
| PoliciesRepo.LatestNotInFuture | backend/src/repositories/policies.js:10-16 | every returned policy is a stored row whose effective date is not after now |
| PoliciesRepo.LatestIsMaximal | backend/src/repositories/policies.js:10-16 | the returned row of a type has the greatest effective date among that type's rows in effect |
| PoliciesRepo.LatestHasEveryType | backend/src/repositories/policies.js:10-16 | every type with a row in effect appears in the result |
| PoliciesRepo.SortedTypesDistinct | backend/src/repositories/policies.js:14-15 | at most one row per type is returned |
| PoliciesRepo.LatestFromEligible | backend/src/repositories/policies.js:10-16 | each result is the projection of a stored row in effect |
| PoliciesRepo.LatestCovers | backend/src/repositories/policies.js:10-16 | each row in effect is matched by a result of its type at least as recent |
| PoliciesRepo.LatestVersionOf | backend/src/controllers/authController.js:158-159 | `latestPolicies.find(type)?.version`: a version exactly when some latest policy has that type, and then that policy's version |
| PoliciesRepo.PoliciesTable.SaveUserAgreement | backend/src/repositories/policies.js:19-27 | inserts one record per policy id, each with the given user and now, after the existing ones; a policy id that is unknown, repeated or already agreed fails the whole insert |
| PoliciesController.ContentUrl | backend/src/controllers/policiesController.js:14 | `/policies/`, the type, `-`, the version, laid out position by position |
| PoliciesController.GetLatestPolicies | backend/src/controllers/policiesController.js:4-21 | 200 with one entry per repository row, same order, each the row plus its `content_url`; a repository failure gives 500 `Failed to fetch policy versions` |
| PoliciesController.GetPolicyByTypeAndVersion | backend/src/controllers/policiesController.js:23-41 | 404 `Policy not found` when there is no row, the row unchanged otherwise, 500 on failure |
| PoliciesController.LatestEndpointOverTable | backend/src/controllers/policiesController.js:4-21 | served from the table, the list has distinct types and no policy taking effect after now |
| PasswordValidation.ValidatePasswordComplexity | backend/src/utils/passwordValidation.js:1-13 | simple: `length` (UTF-16 code units) at least 3; complex: `length` at least 8, an upper-case letter, a digit, one of `!@#$%^&*_`, no line terminator; any other mode accepts |
| PasswordValidation.UnsetIsSimple | backend/src/utils/passwordValidation.js:2 | an unset or empty setting behaves as `simple` |
| PasswordValidation.ComplexImpliesSimple | backend/src/utils/passwordValidation.js:3-10 | a password the complex rule accepts, the simple rule accepts |
| PasswordValidation.ComplexNeedsSpecial | backend/src/utils/passwordValidation.js:6-9 | every password without one of `!@#$%^&*_` fails the complex rule |
| PasswordValidation.AstralCountsTwice | backend/src/utils/passwordValidation.js:4-5 | a two-character password passes the simple rule exactly when one of its characters lies above U+FFFF |
| Strings.Utf16Length | backend/src/utils/passwordValidation.js:5 | `length` counts UTF-16 code units: between the number of characters and twice that |
| Strings.Utf16LengthIsSizeIffBmp | backend/src/utils/passwordValidation.js:5 | `length` equals the number of characters exactly when every character lies in the Basic Multilingual Plane |
| FrontendPasswordValidation.ValidatePasswordComplexity | frontend/src/utils/validatePasswordComplexity.js:1-14 | as the backend rule, except that `_` is not a special character |
| FrontendPasswordValidation.FrontendAcceptImpliesBackendAccept | frontend/src/utils/validatePasswordComplexity.js:10 | whatever the form accepts, the server accepts, under every setting |
| FrontendPasswordValidation.UnderscoreOnlyServerSide | frontend/src/utils/validatePasswordComplexity.js:10 | under any setting that selects the complex rule, a password meeting that rule whose special characters are all `_` (such as `Abcdefg1_`) passes the server's check and fails the form's |
| ConfirmationToken.HexEncode | backend/src/utils/generateConfirmationToken.js:5 | two lower-case hex digits per byte |
| ConfirmationToken.DecodeEncode | backend/src/utils/generateConfirmationToken.js:5 | decoding an encoding gives the bytes back |
| ConfirmationToken.EncodeDecode | backend/src/utils/generateConfirmationToken.js:5 | a text that decodes is the encoding of what it decodes to |
| ConfirmationToken.EncodeInjective | backend/src/utils/generateConfirmationToken.js:5 | distinct byte strings give distinct tokens |
| ConfirmationToken.GenerateConfirmationToken | backend/src/utils/generateConfirmationToken.js:3-9 | a 32-character lower-case hex token decoding to the 16 random bytes, expiring exactly 3,600,000 ms after now |
| EmailsService.MissingVars | backend/src/services/emailsService.js:15 | exactly the unset or empty variables, in the order they are listed |
| EmailsService.LoadSmtpConfig | backend/src/services/emailsService.js:5-41 | missing variables first (listed, comma-separated), then a port `parseInt` cannot read, then a secure flag other than `true`/`false`; otherwise the transport's host, port, user, password, and `secure` iff the flag is `true` |
| EmailsService.ParseIntNumeral | backend/src/services/emailsService.js:21 | a decimal port followed by a non-digit reads back as that number |
| EmailsService.ParseIntNaN | backend/src/services/emailsService.js:21 | a value with no digit after its sign is not a number |
| EmailsService.LoadsPlainTransport | backend/src/services/emailsService.js:5-41 | with every variable set, a decimal port and `SMTP_SECURE=false`, the transport is non-TLS on that port |
| EmailsService.Link | backend/src/services/emailsService.js:48 | base URL, then route, then token, position by position |
| EmailsService.LinkRoundTrip | backend/src/services/emailsService.js:48 | the token read out of a link is the one it was built from, and only that link yields it |
| EmailsService.LinkInjective | backend/src/services/emailsService.js:48 | distinct tokens give distinct links |
| PolicyPage.SectionHeadingMeaning | frontend/src/pages/PolicyPage/index.js:9 | the section test matches iff the line is digits, `.`, a blank and a non-empty rest, and the title is that rest |
| PolicyPage.SubsectionHeadingMeaning | frontend/src/pages/PolicyPage/index.js:10 | the subsection test matches iff the line is digits, `.`, digits, a blank and a non-empty rest, and the title is that rest |
| PolicyPage.SubsectionHeadingTitle | frontend/src/pages/PolicyPage/index.js:10 | a line shaped as a subsection heading yields the text after the number as title |
| PolicyPage.HeadingsExclusive | frontend/src/pages/PolicyPage/index.js:19-27 | no line is both a section and a subsection heading |
| PolicyPage.ClassifyMeaning | frontend/src/pages/PolicyPage/index.js:16-34 | a line is blank iff it trims to nothing, a section heading iff it has the section shape (titled by the text after the number), a subsection heading iff it has the subsection shape, and text, kept trimmed, iff it has neither |
| PolicyPage.ParseLine | frontend/src/pages/PolicyPage/index.js:15-35 | one iteration of the `forEach` updates the finished sections, the current section and the pending subsection as the step function says, or fails on a null section |
| PolicyPage.ParsePolicyContent | frontend/src/pages/PolicyPage/index.js:7-42 | the loop over the split lines followed by the two final pushes returns what the step function `PolicyPage.ParseLines` gives, `None` where the page throws |
| PolicyPage.RunShape | frontend/src/pages/PolicyPage/index.js:15-35 | the loop fails iff two subsection headings come before any section; otherwise the section titles so far are the section headings, in order |
| PolicyPage.ParseOutcome | frontend/src/pages/PolicyPage/index.js:7-42 | the parse fails iff two subsection headings come before the first section heading, or a subsection heading comes and no section heading at all; otherwise the titles are exactly the section headings in order, one section per heading |
| PolicyPage.PendingSubsectionDroppedFromText | frontend/src/pages/PolicyPage/index.js:22-26 | `1. A / 1.1 B / 2. C` parses as two sections, the first without subsections; attaching the pending subsection would keep `B` |
| PolicyPage.PendingSubsectionDropped | frontend/src/pages/PolicyPage/index.js:22-26 | a subsection pending when the next section begins is lost as written and kept by the corrected parser |
| PolicyPage.AttachedParseKeepsEverySubsection | frontend/src/pages/PolicyPage/index.js:22-38 | with the pending subsection attached at each new section, every subsection heading after the first section ends up in the result |
| PolicyPage.RunTracks | frontend/src/pages/PolicyPage/index.js:15-35 | after any prefix of the lines, the finished sections are the outline up to the last section heading (each closed as the variant closes it), the current section holds the subsections since that heading but the last, and the pending subsection is that last one with the text lines after it, each followed by a line break |
| PolicyPage.AttachedParseIsOutline | frontend/src/pages/PolicyPage/index.js:7-42 | with the pending subsection attached at each new section, a successful parse is exactly the outline: every section heading in order, each with the subsection headings up to the next section heading, each subsection's content the trimmed text lines after it up to the next heading, each followed by a line break |
| PolicyPage.ParseAsWrittenDropsLastSubsections | frontend/src/pages/PolicyPage/index.js:7-42 | the page as written fails on the same texts as the corrected parser, and otherwise gives the outline with the last subsection of every section but the final one removed |
| PolicyPage.ContentUrlRoundTrip | frontend/src/pages/PolicyPage/index.js:53-56 | a `content_url` matches the page's path pattern and gives back its type and version iff the type is non-empty letters and the version non-empty digits and dots |
| PolicyPage.ParsedPathIsContentUrl | frontend/src/pages/PolicyPage/index.js:53-56 | a path the pattern accepts is the `content_url` of the type and version it yields |
| AuthController.StrictEmailIsLoose | backend/src/controllers/authController.js:126 | every address the reset request accepts, registration accepts |
| AuthController.LooseEmailIsNotStrict | backend/src/controllers/authController.js:126 | `x a@b.c` passes registration's unanchored test and fails the reset request's anchored one |
| AuthController.TrimmedNickname | backend/src/controllers/authController.js:132 | a nickname is present exactly when the value is truthy, and it is then the trimmed value |
| AuthController.ShapedNicknameIsTrimmed | backend/src/controllers/authController.js:138-139 | a nickname of the accepted shape has nothing to trim |
| AuthController.CheckAgreement | backend/src/controllers/authController.js:158-168 | agreed iff both entries exist with the latest versions and both boxes are ticked; a crash iff the terms entry is missing, or it matches and the privacy entry is missing |
| AuthController.RegisterChecks | backend/src/controllers/authController.js:126-200 | no refusal iff the request is acceptable; every refusal is a 400 or the 500 of a crash; the e-mail is checked first, the nickname next, and the policy and Google refusals come with their causes |
| AuthController.RefreshTokensCollide | backend/src/controllers/authController.js:303 | two refresh tokens for one user coincide iff they are issued within the same second |
| AuthController.UpdateFoundKeepsConsistent | backend/src/repositories/users.js:71-74 | updating a found row keeps the account invariant when the patched row satisfies it |
| AuthController.UpdateNewRow | backend/src/controllers/authController.js:255-259 | updating the row just inserted changes that row alone |
| AuthController.ConfirmationTokenSpent | backend/src/controllers/authController.js:326-346 | once a token has confirmed its only holder, no later lookup finds it |
| AuthController.CheckUser | backend/src/controllers/authController.js:62-93 | a blank e-mail gives 400; otherwise 200, found iff some row has exactly that e-mail, and then the public part of such a row |
| AuthController.CheckNickname | backend/src/controllers/authController.js:95-118 | a blank nickname gives 400; otherwise 200 with taken iff some row has exactly that, untrimmed, nickname |
| AuthController.ValidateResetToken | backend/src/controllers/authController.js:422-451 | token required; unknown token is invalid; expired iff `expires_at` < now; otherwise valid; nothing is written |
| AuthController.Me | backend/src/controllers/authController.js:518-539 | 404 without the row; otherwise 200 with exactly id, e-mail, nickname and the two timestamps of that row |
| AuthController.ConfirmEmail | backend/src/controllers/authController.js:320-351 | a token held live confirms its row and clears the token and expiry; a missing token or none held live gives 400 and changes nothing; the account invariant is kept |
| AuthController.ConfirmEmailTwice | backend/src/controllers/authController.js:320-351 | the same confirmation token sent again is refused with `Invalid or expired token.` |
| AuthController.GoogleLogin | backend/src/controllers/authController.js:17-60 | no token: 400 before verification; verification failure: 500; no e-mail or name: 400; a known e-mail: 200 with both tokens and one stored refresh token, the refresh-token id sequence advancing by one; an unknown e-mail: 200 with e-mail and name, nothing written |
| AuthController.UserPasswordLogin | backend/src/controllers/authController.js:277-318 | unknown or unconfirmed: 400; deleted: 403; digest mismatch: 400; success: the two tokens and exactly one refresh-token row for that user, the id sequence advancing by one; a missing e-mail, password or digest, or a duplicate refresh token: 500 |
| AuthController.LoginTwiceInOneSecond | backend/src/controllers/authController.js:277-318 | two successful logins within one second: the second ends in 500 |
| AuthController.LoginWithOwnPassword | backend/src/controllers/authController.js:277-318 | with bcrypt sound, a confirmed, not deleted account logs in with the password whose digest it stores, when no refresh token for that second is stored yet: 200 with its access token and refresh token |
| AuthController.RequestPasswordReset | backend/src/controllers/authController.js:353-420 | missing or malformed e-mail: 400; unknown or Google account: the generic 200 and no write; unconfirmed: a new confirmation token and mail; confirmed: exactly one reset-token row expiring in one hour and a reset mail; a failing write or mail: 500 |
| AuthController.ResetPassword | backend/src/controllers/authController.js:453-516 | the refusals in order (values, complexity, stored token, expiry, user, confirmed, not Google) change nothing; success replaces only the digest and deletes the token; the account invariant is kept |
| AuthController.ResetPasswordTwice | backend/src/controllers/authController.js:453-516 | after a successful reset, the same token is `Invalid token.` |
| AuthController.GoogleSignupAccessTokenAsWritten | backend/src/controllers/authController.js:228-239 | the Google sign-up token built from the `returning('id')` record: right id and time, no e-mail and no nickname |
| AuthController.GoogleSignupTokenLacksClaims | backend/src/controllers/authController.js:228-239 | that token never equals the token a login of the same account issues |
| AuthController.GoogleSignupAccessToken | backend/src/controllers/authController.js:239 | the sign-up token as intended: the new row's id, e-mail and nickname |
| AuthController.TakeOverUnconfirmed | backend/src/controllers/authController.js:202-221 | an unconfirmed password account takes the new nickname, the new digest (or keeps its own) and a fresh token; 200 and a mail, or 500 with the update kept |
| AuthController.CreateGoogleAccount | backend/src/controllers/authController.js:226-253 | one new confirmed Google row without password, one stored refresh token, 201 with the id-only access token and the refresh token; a refused refresh token rolls the row back (500); both id sequences advance by one |
| AuthController.CreatePasswordAccount | backend/src/controllers/authController.js:226-274 | one new unconfirmed row with the digest and a one-hour confirmation token, 201 and a mail; a failed mail rolls the row back (500) |
| AuthController.RegisterAccepted | backend/src/controllers/authController.js:201-223 | after the checks: an existing confirmed or Google account gives 400 and writes nothing; an unconfirmed password account is taken over; an unknown e-mail leads to a new account, with the id-only access token on a Google sign-up |
| AuthController.RegisterNewAccount | backend/src/controllers/authController.js:225-275 | an unknown e-mail becomes one new row (through Google with a refresh token and the id-only access token, or with a password and a mailed token), and the users id sequence moves on by one even when the transaction rolls back; the refresh-token sequence moves on by one on a Google sign-up and stays otherwise |
| AuthController.Register | backend/src/controllers/authController.js:120-275 | a refused check writes nothing; a confirmed or Google account gives 400 `User already exists.`; an unconfirmed password account is taken over; a new e-mail is created through Google (answered with the id-only access token) or with a password; the account invariant is kept |
| AuthController.SignUpWithPassword | backend/src/controllers/authController.js:226-269 | a password sign-up of a new e-mail gives 201, one new row at the end holding the token for an hour, and one mail carrying that token |
| AuthController.RegisterThenConfirm | backend/src/controllers/authController.js:226-351 | following the mailed link within the hour confirms the new account |
| AuthController.ConfirmMailedLink | backend/src/controllers/authController.js:320-351 | visiting a mailed link whose token only the newest row holds, before it expires, answers 200 and leaves a confirmed row with that e-mail |

## Left out

- JWT signing, whose source (`backend/src/services/authService.js`) is not part of this model: tokens are the payloads they sign, with the issue time in whole seconds.
- bcrypt's salt and cost factor: hashing is a deterministic function with a match relation.
- Google's token verification is a parameter: the payload, or its absence for a failed verification.
- Sending mail: a flag says whether the server accepts it, and the handlers return the mails they sent (recipient, subject and link; not the HTML body or the sender).
- Database failures other than UNIQUE violations (connection loss, timeouts): the tables never fail otherwise.
- The text of an unexpected exception (`err.message`): such responses carry a single `Thrown` body.
- Request values that are not strings, such as numbers or objects in the JSON body: each field is a string or absent.
- The `Unable to fetch policy versions` branch of `register`: the repository always returns a list, so it cannot be reached.
- Concurrency: each handler is one atomic step, so the race between two registrations of one e-mail is not modelled.
- The `authenticateToken` middleware: `me` receives the authenticated user's id.
- Logging, configuration loading, routing and the React rendering of the policy page.
- PoliciesRepo.GetLatestPolicies: orders policy types by code point, as Postgres's "C" collation does; the migrations do not set a collation, so under the database's default one the order of the list may differ.
- Strings holding an unpaired UTF-16 surrogate: a `string` here is a sequence of Unicode scalar values, so such JavaScript strings cannot be written.
- PoliciesRepo.GetLatestPolicies: on two rows of one type with the same effective date, Postgres may return either; the model keeps the earlier-stored row.

## Findings

| source | as written | input that shows it | evidently intended | confidence | as-written member | corrected member |
|---|---|---|---|---|---|---|
| backend/src/controllers/authController.js:228-239 | the Google sign-up access token reads `email` and `nickname` from the `returning('id')` record, which holds only the id | any Google sign-up: the token carries the id alone | the token carries the new account's id, e-mail and nickname, as every login's does | not executed | AuthController.GoogleSignupTokenLacksClaims | AuthController.GoogleSignupAccessToken |
| frontend/src/pages/PolicyPage/index.js:22-26 | a new section heading discards the pending subsection instead of pushing it into the section it belongs to | `1. A\n1.1 B\n2. C` gives section `A` without subsection `B` | every subsection after the first section is kept in its section, with its text | not executed | PolicyPage.PendingSubsectionDroppedFromText | PolicyPage.AttachedParseIsOutline |
