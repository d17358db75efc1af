/** The `users` table and its repository: exact-match lookups, the
    confirmation-token lookup with its expiry filter, a column projection,
    insert and update by id. */
module UsersRepo {
  import opened Wrappers
  import opened Tables

  /** A row of `users` (the columns the core reads or writes). Times are
      milliseconds; `None` is SQL NULL. */
  datatype User = User(
    id: nat,
    email: string,
    nickname: string,
    passwordHash: Option<string>,
    termsVersion: string,
    privacyVersion: string,
    googleOauth: bool,
    emailConfirmed: bool,
    acceptedPolicies: bool,
    confirmationToken: Option<string>,
    confirmationTokenExpires: Option<int>,
    deletedAt: Option<int>,
    createdAt: int,
    updatedAt: int)

  /** The argument of `create`; `None` is a property the caller left out. */
  datatype NewUser = NewUser(
    email: string,
    nickname: string,
    passwordHash: Option<string>,
    termsVersion: Option<string>,
    privacyVersion: Option<string>,
    googleOauth: Option<bool>,
    emailConfirmed: Option<bool>)

  /** The argument of `updateById`: `Some` for each column listed in the
      update, `None` for the columns it leaves alone. */
  datatype UserPatch = UserPatch(
    nickname: Option<string>,
    passwordHash: Option<Option<string>>,
    emailConfirmed: Option<bool>,
    confirmationToken: Option<Option<string>>,
    confirmationTokenExpires: Option<Option<int>>)

  /** The column default `'v1.0'` of terms_version and privacy_version. */
  const DefaultPolicyVersion: string := "v1.0"

  /** JavaScript truthiness of an optional string. */
  predicate Truthy(s: Option<string>) {
    s.Some? && s.value != ""
  }

  function OrElse<T>(o: Option<T>, default: T): T {
    if o.Some? then o.value else default
  }

  /** The row `create` inserts under the id the sequence hands out. */
  function Inserted(n: NewUser, id: nat, now: int): (u: User)
    ensures u.id == id && u.email == n.email && u.nickname == n.nickname
    ensures u.passwordHash == n.passwordHash
    ensures u.googleOauth == (n.googleOauth == Some(true))
    ensures u.emailConfirmed == (n.emailConfirmed == Some(true))
    ensures u.acceptedPolicies <==> Truthy(n.termsVersion) && Truthy(n.privacyVersion)
    ensures n.termsVersion.Some? ==> u.termsVersion == n.termsVersion.value
    ensures n.termsVersion.None? ==> u.termsVersion == DefaultPolicyVersion
    ensures n.privacyVersion.Some? ==> u.privacyVersion == n.privacyVersion.value
    ensures n.privacyVersion.None? ==> u.privacyVersion == DefaultPolicyVersion
    ensures u.createdAt == now && u.updatedAt == now
    ensures u.confirmationToken.None? && u.confirmationTokenExpires.None? && u.deletedAt.None?
  {
    User(id, n.email, n.nickname, n.passwordHash,
         OrElse(n.termsVersion, DefaultPolicyVersion), OrElse(n.privacyVersion, DefaultPolicyVersion),
         OrElse(n.googleOauth, false), OrElse(n.emailConfirmed, false),
         Truthy(n.termsVersion) && Truthy(n.privacyVersion),
         None, None, None, now, now)
  }

  /** A row after `update(fields)`: listed columns take the new value. */
  function Patched(u: User, p: UserPatch): User {
    u.(nickname := OrElse(p.nickname, u.nickname),
       passwordHash := OrElse(p.passwordHash, u.passwordHash),
       emailConfirmed := OrElse(p.emailConfirmed, u.emailConfirmed),
       confirmationToken := OrElse(p.confirmationToken, u.confirmationToken),
       confirmationTokenExpires := OrElse(p.confirmationTokenExpires, u.confirmationTokenExpires))
  }

  /** `where({ id }).update(fields)` over the whole table. */
  function UpdateRows(rows: seq<User>, id: nat, p: UserPatch): (r: seq<User>)
    ensures |r| == |rows|
  {
    seq(|rows|, i requires 0 <= i < |rows| => if rows[i].id == id then Patched(rows[i], p) else rows[i])
  }

  /** Update by id changes nothing but the listed columns of the rows with
      that id: other rows, and the identity, e-mail, Google flag, policy
      versions, soft-delete mark and timestamps of the updated row, stay. */
  lemma UpdateTouchesOnlyTarget(rows: seq<User>, id: nat, p: UserPatch, i: nat)
    requires i < |rows|
    ensures var r := UpdateRows(rows, id, p);
      && (rows[i].id != id ==> r[i] == rows[i])
      && r[i].id == rows[i].id && r[i].email == rows[i].email
      && r[i].googleOauth == rows[i].googleOauth && r[i].deletedAt == rows[i].deletedAt
      && r[i].termsVersion == rows[i].termsVersion && r[i].privacyVersion == rows[i].privacyVersion
      && r[i].createdAt == rows[i].createdAt && r[i].updatedAt == rows[i].updatedAt
      && (rows[i].id == id && p.emailConfirmed.Some? ==> r[i].emailConfirmed == p.emailConfirmed.value)
      && (p.emailConfirmed.None? ==> r[i].emailConfirmed == rows[i].emailConfirmed)
      && (p.passwordHash.None? ==> r[i].passwordHash == rows[i].passwordHash)
      && (p.confirmationToken.None? ==> r[i].confirmationToken == rows[i].confirmationToken)
      && (p.confirmationTokenExpires.None? ==> r[i].confirmationTokenExpires == rows[i].confirmationTokenExpires)
      && (p.nickname.None? ==> r[i].nickname == rows[i].nickname)
  {
  }

  // ---------------------------------------------------------------------
  // Lookups: each is `.where(...).first()` on the table.

  /** `getByEmail(email)`. */
  function GetByEmail(rows: seq<User>, email: string): (r: Option<User>)
    ensures r.Some? ==> r.value in rows && r.value.email == email
    ensures r.None? <==> forall u <- rows :: u.email != email
  {
    match FirstMatch(rows, (u: User) => u.email == email)
    case None => None
    case Some(k) => Some(rows[k])
  }

  /** `getById(id)`. */
  function GetById(rows: seq<User>, id: nat): (r: Option<User>)
    ensures r.Some? ==> r.value in rows && r.value.id == id
    ensures r.None? <==> forall u <- rows :: u.id != id
  {
    match FirstMatch(rows, (u: User) => u.id == id)
    case None => None
    case Some(k) => Some(rows[k])
  }

  /** `getByNickname(nickname)`: exact, case-sensitive match. */
  function GetByNickname(rows: seq<User>, nickname: string): (r: Option<User>)
    ensures r.Some? ==> r.value in rows && r.value.nickname == nickname
    ensures r.None? <==> forall u <- rows :: u.nickname != nickname
  {
    match FirstMatch(rows, (u: User) => u.nickname == nickname)
    case None => None
    case Some(k) => Some(rows[k])
  }

  /** A confirmation token is live at `now` when it is the row's token and
      its expiry is strictly later (`> new Date()`; NULL never compares). */
  predicate HoldsLiveToken(u: User, token: string, now: int) {
    u.confirmationToken == Some(token) && u.confirmationTokenExpires.Some? && u.confirmationTokenExpires.value > now
  }

  /** `getByEmailConfirmationToken(token)`: the first row holding `token`
      with an expiry after `now`. */
  function GetByEmailConfirmationToken(rows: seq<User>, token: string, now: int): (r: Option<User>)
    ensures r.Some? ==> r.value in rows && r.value.confirmationToken == Some(token)
    ensures r.Some? ==> r.value.confirmationTokenExpires.Some? && r.value.confirmationTokenExpires.value > now
    ensures r.None? <==> forall u <- rows :: !HoldsLiveToken(u, token, now)
  {
    match FirstMatch(rows, (u: User) => HoldsLiveToken(u, token, now))
    case None => None
    case Some(k) => Some(rows[k])
  }

  /** A row appended after rows none of which holds a live `token` is the
      row the lookup finds. */
  lemma ConfirmationTokenOfAppended(rows: seq<User>, created: User, token: string, now: int)
    requires forall u <- rows :: !HoldsLiveToken(u, token, now)
    requires HoldsLiveToken(created, token, now)
    ensures GetByEmailConfirmationToken(rows + [created], token, now) == Some(created)
  {
    var all := rows + [created];
    forall j | 0 <= j < |rows|
      ensures !HoldsLiveToken(all[j], token, now)
    {
      assert all[j] == rows[j];
    }
    assert all[|rows|] == created;
  }

  /** Column names for `getFieldsByUserId`. */
  datatype Column =
    | Id | Email | Nickname | PasswordHash | TermsVersion | PrivacyVersion
    | GoogleOauth | EmailConfirmed | AcceptedPolicies | EmailConfirmationToken
    | EmailConfirmationTokenExpires | DeletedAt | CreatedAt | UpdatedAt

  datatype FieldValue = IntValue(i: int) | TextValue(s: string) | BoolValue(b: bool) | NullValue

  function OptText(o: Option<string>): FieldValue {
    if o.Some? then TextValue(o.value) else NullValue
  }

  function OptInt(o: Option<int>): FieldValue {
    if o.Some? then IntValue(o.value) else NullValue
  }

  /** The value a row holds in a column. */
  function Field(u: User, c: Column): FieldValue {
    match c
    case Id => IntValue(u.id)
    case Email => TextValue(u.email)
    case Nickname => TextValue(u.nickname)
    case PasswordHash => OptText(u.passwordHash)
    case TermsVersion => TextValue(u.termsVersion)
    case PrivacyVersion => TextValue(u.privacyVersion)
    case GoogleOauth => BoolValue(u.googleOauth)
    case EmailConfirmed => BoolValue(u.emailConfirmed)
    case AcceptedPolicies => BoolValue(u.acceptedPolicies)
    case EmailConfirmationToken => OptText(u.confirmationToken)
    case EmailConfirmationTokenExpires => OptInt(u.confirmationTokenExpires)
    case DeletedAt => OptInt(u.deletedAt)
    case CreatedAt => IntValue(u.createdAt)
    case UpdatedAt => IntValue(u.updatedAt)
  }

  /** The outcome of `getFieldsByUserId`: it throws on an empty column
      list, and otherwise yields the selected columns of the row, if any. */
  datatype FieldsLookup = FieldsRejected | FieldsFound(row: Option<map<Column, FieldValue>>)

  /** `getFieldsByUserId(userId, fields)`. */
  function GetFieldsByUserId(rows: seq<User>, userId: nat, fields: seq<Column>): (r: FieldsLookup)
    ensures fields == [] <==> r.FieldsRejected?
    ensures r.FieldsFound? ==> (r.row.None? <==> forall u <- rows :: u.id != userId)
    ensures r.FieldsFound? && r.row.Some? ==>
      && (forall c :: c in r.row.value <==> c in fields)
      && exists u <- rows :: u.id == userId && forall c <- fields :: r.row.value[c] == Field(u, c)
  {
    if fields == [] then FieldsRejected
    else match GetById(rows, userId)
      case None => FieldsFound(None)
      case Some(u) => FieldsFound(Some(map c | c in fields :: Field(u, c)))
  }

  // ---------------------------------------------------------------------
  // The table itself.

  /** The id sequence is ahead of every id; ids and e-mails are unique
      (the primary key and the UNIQUE constraint on email). */
  ghost predicate WellKeyed(rows: seq<User>, nextId: nat) {
    && nextId >= 1
    && (forall i | 0 <= i < |rows| :: 1 <= rows[i].id < nextId)
    && (forall i, j | 0 <= i < j < |rows| :: rows[i].id != rows[j].id && rows[i].email != rows[j].email)
  }

  /** With unique e-mails, `getByEmail` finds the one row with that e-mail. */
  lemma GetByEmailFindsTheRow(rows: seq<User>, nextId: nat, i: nat)
    requires WellKeyed(rows, nextId) && i < |rows|
    ensures GetByEmail(rows, rows[i].email) == Some(rows[i])
  {
    var k := FirstMatch(rows, (u: User) => u.email == rows[i].email);
    assert k.Some? && k.value <= i;
  }

  /** Updates by id keep ids and e-mails, so they keep the table well
      keyed. */
  lemma UpdateKeepsKeys(rows: seq<User>, nextId: nat, id: nat, p: UserPatch)
    requires WellKeyed(rows, nextId)
    ensures WellKeyed(UpdateRows(rows, id, p), nextId)
  {
  }

  class UsersTable {
    var rows: seq<User>
    /** The next value of the `users_id_seq` sequence. */
    var nextId: nat

    ghost predicate Valid()
      reads this
    {
      WellKeyed(rows, nextId)
    }

    constructor ()
      ensures Valid() && rows == [] && nextId == 1
    {
      rows := [];
      nextId := 1;
    }

    /** `create(user)`: inserts exactly one row under a fresh id, or fails
        (the UNIQUE violation on email) and inserts nothing. The sequence
        advances either way, as a Postgres sequence does. */
    method Create(n: NewUser, now: int) returns (id: Option<nat>)
      requires Valid()
      modifies this
      ensures Valid()
      ensures nextId == old(nextId) + 1
      ensures id.None? <==> GetByEmail(old(rows), n.email).Some?
      ensures id.None? ==> rows == old(rows)
      ensures id.Some? ==> id.value == old(nextId) && rows == old(rows) + [Inserted(n, id.value, now)]
    {
      id := Some(nextId);
      if GetByEmail(rows, n.email).Some? {
        id := None;
      } else {
        rows := rows + [Inserted(n, nextId, now)];
      }
      nextId := nextId + 1;
    }

    /** `updateById(id, fields)`. */
    method UpdateById(id: nat, p: UserPatch)
      requires Valid()
      modifies this`rows
      ensures Valid()
      ensures rows == UpdateRows(old(rows), id, p)
    {
      UpdateKeepsKeys(rows, nextId, id, p);
      rows := UpdateRows(rows, id, p);
    }
  }
}
