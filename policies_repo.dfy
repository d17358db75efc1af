/** The `policies` and `user_policies` tables: the latest published
    version of each policy type, lookup by type and version, and recording
    a user's agreement. */
module PoliciesRepo {
  import opened Wrappers
  import opened Tables
  import opened Strings

  /** A row of `policies`; `effectiveDate` in milliseconds. */
  datatype Policy = Policy(
    id: nat, version: string, policyType: string, content: string,
    effectiveDate: int, createdAt: int, updatedAt: int)

  /** The columns `getLatestPolicies` selects. */
  datatype PolicyVersion = PolicyVersion(policyType: string, version: string, content: string, effectiveDate: int)

  datatype UserPolicy = UserPolicy(userId: nat, policyId: nat, agreedAt: int)

  function Project(p: Policy): PolicyVersion {
    PolicyVersion(p.policyType, p.version, p.content, p.effectiveDate)
  }

  /** `getByTypeAndVersion(type, version)`. */
  function GetByTypeAndVersion(rows: seq<Policy>, policyType: string, version: string): (r: Option<Policy>)
    ensures r.Some? ==> r.value in rows && r.value.policyType == policyType && r.value.version == version
    ensures r.None? <==> forall p <- rows :: p.policyType != policyType || p.version != version
  {
    match FirstMatch(rows, (p: Policy) => p.policyType == policyType && p.version == version)
    case None => None
    case Some(k) => Some(rows[k])
  }

  /** Strictly increasing by type: `ORDER BY type` with `DISTINCT ON (type)`. */
  predicate SortedByType(r: seq<PolicyVersion>) {
    forall i, j | 0 <= i < j < |r| :: LexLess(r[i].policyType, r[j].policyType)
  }

  /** Some entry of `r` has the type of `v` and is at least as recent. */
  predicate Covers(r: seq<PolicyVersion>, v: PolicyVersion) {
    exists i | 0 <= i < |r| :: r[i].policyType == v.policyType && r[i].effectiveDate >= v.effectiveDate
  }

  /** `v` is the projection of a row in effect at `now`. */
  predicate FromEligible(rows: seq<Policy>, now: int, v: PolicyVersion) {
    exists k | 0 <= k < |rows| :: Project(rows[k]) == v && rows[k].effectiveDate <= now
  }

  /** Merges one eligible row into a result kept sorted by type, keeping the
      later effective date for its type (the earlier-stored row on a tie). */
  function Insert(acc: seq<PolicyVersion>, p: PolicyVersion): seq<PolicyVersion> {
    if acc == [] then [p]
    else if p.policyType == acc[0].policyType then
      [if p.effectiveDate > acc[0].effectiveDate then p else acc[0]] + acc[1..]
    else if LexLess(p.policyType, acc[0].policyType) then [p] + acc
    else [acc[0]] + Insert(acc[1..], p)
  }

  /** `getLatestPolicies()` evaluated at `now`: the rows are folded in
      order, each one in effect merged into the result. */
  function GetLatestPolicies(rows: seq<Policy>, now: int): seq<PolicyVersion> {
    if rows == [] then []
    else
      var acc := GetLatestPolicies(rows[..|rows| - 1], now);
      var last := rows[|rows| - 1];
      if last.effectiveDate <= now then Insert(acc, Project(last)) else acc
  }

  lemma CoversAfterPrefix(x: PolicyVersion, rest: seq<PolicyVersion>, v: PolicyVersion)
    requires Covers(rest, v)
    ensures Covers([x] + rest, v)
  {
    var i :| 0 <= i < |rest| && rest[i].policyType == v.policyType && rest[i].effectiveDate >= v.effectiveDate;
    assert ([x] + rest)[i + 1] == rest[i];
  }

  lemma SortedCons(x: PolicyVersion, rest: seq<PolicyVersion>)
    requires SortedByType(rest)
    requires forall j | 0 <= j < |rest| :: LexLess(x.policyType, rest[j].policyType)
    ensures SortedByType([x] + rest)
  {
    var r := [x] + rest;
    forall i, j | 0 <= i < j < |r| ensures LexLess(r[i].policyType, r[j].policyType) {
      assert r[j] == rest[j - 1];
      if i > 0 { assert r[i] == rest[i - 1]; }
    }
  }

  /** Merging adds nothing but the merged row. */
  lemma {:induction false} InsertMembers(acc: seq<PolicyVersion>, p: PolicyVersion)
    ensures forall i | 0 <= i < |Insert(acc, p)| :: Insert(acc, p)[i] == p || Insert(acc, p)[i] in acc
  {
    if acc != [] && p.policyType != acc[0].policyType && !LexLess(p.policyType, acc[0].policyType) {
      var r := Insert(acc, p);
      var rest := Insert(acc[1..], p);
      InsertMembers(acc[1..], p);
      forall i | 0 <= i < |r| ensures r[i] == p || r[i] in acc {
        if i > 0 { assert r[i] == rest[i - 1]; }
      }
    }
  }

  /** Merging covers the merged row and keeps every type already present at
      least as recent. */
  lemma {:induction false} InsertCovers(acc: seq<PolicyVersion>, p: PolicyVersion)
    ensures Covers(Insert(acc, p), p)
    ensures forall j | 0 <= j < |acc| :: Covers(Insert(acc, p), acc[j])
  {
    var r := Insert(acc, p);
    if acc == [] {
      assert r[0] == p;
    } else if p.policyType == acc[0].policyType {
      assert r[0].policyType == p.policyType && r[0].effectiveDate >= p.effectiveDate;
      forall j | 0 <= j < |acc| ensures Covers(r, acc[j]) {
        if j == 0 { assert r[0].effectiveDate >= acc[0].effectiveDate; } else { assert r[j] == acc[j]; }
      }
    } else if LexLess(p.policyType, acc[0].policyType) {
      assert r[0] == p;
      forall j | 0 <= j < |acc| ensures Covers(r, acc[j]) { assert r[j + 1] == acc[j]; }
    } else {
      var tail := acc[1..];
      var rest := Insert(tail, p);
      InsertCovers(tail, p);
      assert r == [acc[0]] + rest;
      CoversAfterPrefix(acc[0], rest, p);
      forall j | 0 <= j < |acc| ensures Covers(r, acc[j]) {
        if j == 0 {
          assert r[0] == acc[0];
        } else {
          assert acc[j] == tail[j - 1];
          CoversAfterPrefix(acc[0], rest, acc[j]);
        }
      }
    }
  }

  /** Merging keeps the result sorted by type. */
  lemma {:induction false} InsertSorted(acc: seq<PolicyVersion>, p: PolicyVersion)
    requires SortedByType(acc)
    ensures SortedByType(Insert(acc, p))
  {
    if acc == [] {
    } else if p.policyType == acc[0].policyType {
      var x := if p.effectiveDate > acc[0].effectiveDate then p else acc[0];
      assert SortedByType(acc[1..]);
      forall j | 0 <= j < |acc[1..]| ensures LexLess(x.policyType, acc[1..][j].policyType) {
        assert acc[1..][j] == acc[j + 1];
      }
      SortedCons(x, acc[1..]);
    } else if LexLess(p.policyType, acc[0].policyType) {
      forall j | 0 <= j < |acc| ensures LexLess(p.policyType, acc[j].policyType) {
        if j > 0 { LexLessTransitive(p.policyType, acc[0].policyType, acc[j].policyType); }
      }
      SortedCons(p, acc);
    } else {
      LexLessTotal(p.policyType, acc[0].policyType);
      var tail := acc[1..];
      assert SortedByType(tail);
      var rest := Insert(tail, p);
      InsertSorted(tail, p);
      InsertMembers(tail, p);
      forall j | 0 <= j < |rest| ensures LexLess(acc[0].policyType, rest[j].policyType) {
        if rest[j] != p {
          var m :| 0 <= m < |tail| && tail[m] == rest[j];
          assert tail[m] == acc[m + 1];
        }
      }
      SortedCons(acc[0], rest);
    }
  }

  /** The result of `getLatestPolicies()` is sorted by type, so it holds at
      most one entry per type. */
  lemma {:induction false} LatestSorted(rows: seq<Policy>, now: int)
    ensures SortedByType(GetLatestPolicies(rows, now))
  {
    if rows != [] {
      var init := rows[..|rows| - 1];
      LatestSorted(init, now);
      if rows[|rows| - 1].effectiveDate <= now {
        InsertSorted(GetLatestPolicies(init, now), Project(rows[|rows| - 1]));
      }
    }
  }

  /** Every entry of `getLatestPolicies()` is a row in effect at `now`. */
  lemma {:induction false} LatestFromEligible(rows: seq<Policy>, now: int)
    ensures forall i | 0 <= i < |GetLatestPolicies(rows, now)| :: FromEligible(rows, now, GetLatestPolicies(rows, now)[i])
  {
    if rows != [] {
      var init := rows[..|rows| - 1];
      var last := rows[|rows| - 1];
      var acc := GetLatestPolicies(init, now);
      var r := GetLatestPolicies(rows, now);
      LatestFromEligible(init, now);
      forall i | 0 <= i < |r| ensures FromEligible(rows, now, r[i]) {
        var v := r[i];
        if last.effectiveDate <= now && v == Project(last) {
          assert Project(rows[|rows| - 1]) == v;
        } else {
          if last.effectiveDate <= now {
            InsertMembers(acc, Project(last));
          }
          var j :| 0 <= j < |acc| && acc[j] == v;
          assert FromEligible(init, now, acc[j]);
          var k :| 0 <= k < |init| && Project(init[k]) == v && init[k].effectiveDate <= now;
          assert init[k] == rows[k];
        }
      }
    }
  }

  /** Every type with a row in effect at `now` appears in
      `getLatestPolicies()`, with an effective date at least that row's. */
  lemma {:induction false} LatestCovers(rows: seq<Policy>, now: int)
    ensures forall k | 0 <= k < |rows| && rows[k].effectiveDate <= now :: Covers(GetLatestPolicies(rows, now), Project(rows[k]))
  {
    if rows != [] {
      var init := rows[..|rows| - 1];
      var last := rows[|rows| - 1];
      var acc := GetLatestPolicies(init, now);
      var r := GetLatestPolicies(rows, now);
      LatestCovers(init, now);
      if last.effectiveDate <= now {
        InsertCovers(acc, Project(last));
      }
      forall k | 0 <= k < |rows| && rows[k].effectiveDate <= now ensures Covers(r, Project(rows[k])) {
        if k < |init| {
          assert rows[k] == init[k];
          assert Covers(acc, Project(init[k]));
          if last.effectiveDate <= now {
            var i :| 0 <= i < |acc| && acc[i].policyType == rows[k].policyType && acc[i].effectiveDate >= rows[k].effectiveDate;
            assert Covers(r, acc[i]);
          }
        } else {
          assert rows[k] == last;
        }
      }
    }
  }

  /** Two entries of a type-sorted result never share a type. */
  lemma SortedTypesDistinct(r: seq<PolicyVersion>, i: nat, j: nat)
    requires SortedByType(r) && i < |r| && j < |r| && i != j
    ensures r[i].policyType != r[j].policyType
  {
    if i < j { LexLessIrreflexive(r[i].policyType); } else { LexLessIrreflexive(r[j].policyType); }
  }

  /** No returned entry takes effect after `now`, and each is a stored row. */
  lemma LatestNotInFuture(rows: seq<Policy>, now: int, i: nat)
    requires i < |GetLatestPolicies(rows, now)|
    ensures GetLatestPolicies(rows, now)[i].effectiveDate <= now
    ensures exists k | 0 <= k < |rows| :: Project(rows[k]) == GetLatestPolicies(rows, now)[i]
  {
    LatestFromEligible(rows, now);
    assert FromEligible(rows, now, GetLatestPolicies(rows, now)[i]);
  }

  /** The returned entry for a type is at least as recent as every row of
      that type in effect at `now`. */
  lemma LatestIsMaximal(rows: seq<Policy>, now: int, i: nat, k: nat)
    requires i < |GetLatestPolicies(rows, now)| && k < |rows|
    requires rows[k].effectiveDate <= now
    requires rows[k].policyType == GetLatestPolicies(rows, now)[i].policyType
    ensures GetLatestPolicies(rows, now)[i].effectiveDate >= rows[k].effectiveDate
  {
    var r := GetLatestPolicies(rows, now);
    LatestSorted(rows, now);
    LatestCovers(rows, now);
    assert Covers(r, Project(rows[k]));
    var i' :| 0 <= i' < |r| && r[i'].policyType == rows[k].policyType && r[i'].effectiveDate >= rows[k].effectiveDate;
    if i' != i { SortedTypesDistinct(r, i, i'); }
  }

  /** Every type with a row in effect at `now` has an entry. */
  lemma LatestHasEveryType(rows: seq<Policy>, now: int, k: nat)
    requires k < |rows| && rows[k].effectiveDate <= now
    ensures exists i | 0 <= i < |GetLatestPolicies(rows, now)| :: GetLatestPolicies(rows, now)[i].policyType == rows[k].policyType
  {
    LatestCovers(rows, now);
    assert Covers(GetLatestPolicies(rows, now), Project(rows[k]));
  }

  /** The version `find(p => p.type === t)?.version` reads off the result. */
  function LatestVersionOf(latest: seq<PolicyVersion>, policyType: string): (v: Option<string>)
    ensures v.Some? <==> exists p <- latest :: p.policyType == policyType
    ensures v.Some? ==> exists p <- latest :: p.policyType == policyType && p.version == v.value
  {
    match FirstMatch(latest, (p: PolicyVersion) => p.policyType == policyType)
    case None => None
    case Some(k) => Some(latest[k].version)
  }

  /** A `user_policies` insert succeeds when every policy exists (foreign
      key) and no (user, policy) pair repeats, among the new records or
      against the stored ones (primary key). */
  predicate AgreementInsertable(policies: seq<Policy>, stored: seq<UserPolicy>, userId: nat, policyIds: seq<nat>) {
    && (forall k | 0 <= k < |policyIds| :: exists p <- policies :: p.id == policyIds[k])
    && (forall k, l | 0 <= k < l < |policyIds| :: policyIds[k] != policyIds[l])
    && (forall k | 0 <= k < |policyIds| :: forall a <- stored :: a.userId != userId || a.policyId != policyIds[k])
  }

  class PoliciesTable {
    var policies: seq<Policy>
    var userPolicies: seq<UserPolicy>

    constructor (published: seq<Policy>)
      ensures policies == published && userPolicies == []
    {
      policies := published;
      userPolicies := [];
    }

    /** `saveUserAgreement(userId, policyIds)`: one record per policy id, in
        order, all for `userId` and stamped `now`; the multi-row insert is
        all or nothing. */
    method SaveUserAgreement(userId: nat, policyIds: seq<nat>, now: int) returns (ok: bool)
      modifies this`userPolicies
      ensures ok <==> AgreementInsertable(policies, old(userPolicies), userId, policyIds)
      ensures !ok ==> userPolicies == old(userPolicies)
      ensures ok ==> && |userPolicies| == |old(userPolicies)| + |policyIds|
                     && userPolicies[..|old(userPolicies)|] == old(userPolicies)
                     && forall k | 0 <= k < |policyIds| ::
                          userPolicies[|old(userPolicies)| + k] == UserPolicy(userId, policyIds[k], now)
    {
      ok := AgreementInsertable(policies, userPolicies, userId, policyIds);
      if ok {
        var records := seq(|policyIds|, k requires 0 <= k < |policyIds| => UserPolicy(userId, policyIds[k], now));
        userPolicies := userPolicies + records;
      }
    }
  }
}
