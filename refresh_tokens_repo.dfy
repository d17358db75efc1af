/** The `refresh_tokens` table: insert only. */
module RefreshTokensRepo {
  import opened AuthService

  datatype RefreshTokenRow = RefreshTokenRow(id: nat, userId: nat, token: AuthToken, createdAt: int)

  /** Ids below the sequence and distinct; token strings distinct (the
      UNIQUE constraint). Nothing is unique per user. */
  ghost predicate WellKeyed(rows: seq<RefreshTokenRow>, nextId: nat) {
    && (forall i | 0 <= i < |rows| :: rows[i].id < nextId)
    && (forall i, j | 0 <= i < j < |rows| :: rows[i].id != rows[j].id && rows[i].token != rows[j].token)
  }

  /** The tokens a user holds, oldest first. */
  function TokensOf(rows: seq<RefreshTokenRow>, userId: nat): (r: seq<AuthToken>)
    ensures forall t :: t in r <==> exists row <- rows :: row.userId == userId && row.token == t
  {
    if rows == [] then []
    else (if rows[0].userId == userId then [rows[0].token] else []) + TokensOf(rows[1..], userId)
  }

  /** Any number of refresh tokens may belong to one user: a fresh token is
      always accepted, and it adds one to what the user holds. */
  lemma {:induction false} TokensOfAppend(rows: seq<RefreshTokenRow>, row: RefreshTokenRow)
    ensures TokensOf(rows + [row], row.userId) == TokensOf(rows, row.userId) + [row.token]
  {
    if rows != [] {
      assert (rows + [row])[1..] == rows[1..] + [row];
      TokensOfAppend(rows[1..], row);
    } else {
      assert TokensOf([row], row.userId) == [row.token] + TokensOf([], row.userId);
    }
  }

  class RefreshTokensTable {
    var rows: seq<RefreshTokenRow>
    var nextId: nat

    ghost predicate Valid()
      reads this
    {
      WellKeyed(rows, nextId)
    }

    constructor ()
      ensures Valid() && rows == [] && nextId == 1
    {
      rows := [];
      nextId := 1;
    }

    /** `saveRefreshToken({ userId, token })`: one new row holding the
        token verbatim, stamped `now`; a token already stored violates
        the UNIQUE constraint and nothing is inserted. Existing rows never
        change, and the user's tokens gain exactly the new one. */
    method SaveRefreshToken(userId: nat, token: AuthToken, now: int) returns (ok: bool)
      requires Valid()
      modifies this
      ensures Valid()
      ensures nextId == old(nextId) + 1
      ensures ok <==> forall r <- old(rows) :: r.token != token
      ensures ok ==> rows == old(rows) + [RefreshTokenRow(old(nextId), userId, token, now)]
      ensures !ok ==> rows == old(rows)
      ensures ok ==> TokensOf(rows, userId) == TokensOf(old(rows), userId) + [token]
    {
      ok := forall r <- rows :: r.token != token;
      if ok {
        TokensOfAppend(rows, RefreshTokenRow(nextId, userId, token, now));
        rows := rows + [RefreshTokenRow(nextId, userId, token, now)];
      }
      nextId := nextId + 1;
    }
  }
}
