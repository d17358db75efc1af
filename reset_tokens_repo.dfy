/** The `password_reset_tokens` table: insert, lookup by token, delete by
    token. */
module ResetTokensRepo {
  import opened Wrappers
  import opened Tables

  /** A row; `consumedAt` is a column no code path writes. */
  datatype ResetTokenRow = ResetTokenRow(
    id: nat, userId: nat, resetToken: string, expiresAt: int, createdAt: int, consumedAt: Option<int>)

  /** What the caller hands to `saveResetToken`. */
  datatype ResetTokenRequest = ResetTokenRequest(userId: nat, resetToken: string, expiresAt: int, createdAt: int)

  ghost predicate WellKeyed(rows: seq<ResetTokenRow>, nextId: nat) {
    && (forall i | 0 <= i < |rows| :: rows[i].id < nextId && rows[i].consumedAt.None?)
    && (forall i, j | 0 <= i < j < |rows| :: rows[i].id != rows[j].id && rows[i].resetToken != rows[j].resetToken)
  }

  /** `getByToken(token)`. */
  function GetByToken(rows: seq<ResetTokenRow>, token: string): (r: Option<ResetTokenRow>)
    ensures r.Some? ==> r.value in rows && r.value.resetToken == token
    ensures r.None? <==> forall t <- rows :: t.resetToken != token
  {
    match FirstMatch(rows, (t: ResetTokenRow) => t.resetToken == token)
    case None => None
    case Some(k) => Some(rows[k])
  }

  class ResetTokensTable {
    var rows: seq<ResetTokenRow>
    var nextId: nat

    ghost predicate Valid()
      reads this
    {
      WellKeyed(rows, nextId)
    }

    constructor ()
      ensures Valid() && rows == [] && nextId == 1
    {
      rows := [];
      nextId := 1;
    }

    /** `saveResetToken({ user_id, reset_token, expires_at })`: one new row
        with those three values, `created_at` stamped `now` whatever the
        caller passed, `consumed_at` NULL. A token already stored violates
        the UNIQUE constraint and nothing is inserted. */
    method SaveResetToken(req: ResetTokenRequest, now: int) returns (ok: bool)
      requires Valid()
      modifies this
      ensures Valid()
      ensures nextId == old(nextId) + 1
      ensures ok <==> GetByToken(old(rows), req.resetToken).None?
      ensures ok ==> rows == old(rows) + [ResetTokenRow(old(nextId), req.userId, req.resetToken, req.expiresAt, now, None)]
      ensures !ok ==> rows == old(rows)
    {
      ok := GetByToken(rows, req.resetToken).None?;
      if ok {
        rows := rows + [ResetTokenRow(nextId, req.userId, req.resetToken, req.expiresAt, now, None)];
      }
      nextId := nextId + 1;
    }

    /** `deleteByToken(token)`: the rows holding `token` go, every other row
        stays, in order. */
    method DeleteByToken(token: string)
      requires Valid()
      modifies this`rows
      ensures Valid()
      ensures rows == Without(old(rows), (t: ResetTokenRow) => t.resetToken == token)
      ensures GetByToken(rows, token).None?
    {
      var kept := Without(rows, (t: ResetTokenRow) => t.resetToken == token);
      WithoutKeepsKeys(rows, nextId, token);
      rows := kept;
    }
  }

  /** Deleting rows keeps the table well keyed. */
  lemma {:induction false} WithoutKeepsKeys(rows: seq<ResetTokenRow>, nextId: nat, token: string)
    requires WellKeyed(rows, nextId)
    ensures WellKeyed(Without(rows, (t: ResetTokenRow) => t.resetToken == token), nextId)
  {
    if rows != [] {
      WithoutKeepsKeys(rows[1..], nextId, token);
    }
  }
}
