/** The two policy endpoints: the latest version of each policy type, each
    with the URL of its page, and one policy looked up by type and version. */
module PoliciesController {
  import opened Wrappers
  import opened PoliciesRepo

  /** An entry of `GET /policies/latest`: the repository's columns plus
      `content_url`. */
  datatype PolicyWithUrl = PolicyWithUrl(
    policyType: string, version: string, content: string, effectiveDate: int, contentUrl: string)

  datatype Body =
    | PolicyList(items: seq<PolicyWithUrl>)
    | PolicyRow(policy: Policy)
    | Error(error: string)

  datatype Response = Response(status: int, body: Body)

  const LatestFailedMessage := "Failed to fetch policy versions"
  const NotFoundMessage := "Policy not found"
  const ContentFailedMessage := "Failed to fetch policy content"

  /** `/policies/${type}-${version}`. */
  function ContentUrl(policyType: string, version: string): (url: string)
    ensures |url| == 11 + |policyType| + |version|
    ensures url[..10] == "/policies/"
    ensures url[10..10 + |policyType|] == policyType
    ensures url[10 + |policyType|] == '-'
    ensures url[11 + |policyType|..] == version
  {
    "/policies/" + policyType + "-" + version
  }

  function WithUrl(p: PolicyVersion): PolicyWithUrl {
    PolicyWithUrl(p.policyType, p.version, p.content, p.effectiveDate, ContentUrl(p.policyType, p.version))
  }

  /** `getLatestPolicies` handler; `latest` is the repository's answer, or
      `None` when the repository call failed. On success the list keeps the
      repository's length and order, and each entry is its row with the
      matching `content_url` added. */
  function GetLatestPolicies(latest: Option<seq<PolicyVersion>>): (r: Response)
    ensures latest.None? ==> r == Response(500, Error(LatestFailedMessage))
    ensures latest.Some? ==>
      && r.status == 200 && r.body.PolicyList?
      && |r.body.items| == |latest.value|
      && forall i | 0 <= i < |latest.value| ::
           var (p, e) := (latest.value[i], r.body.items[i]);
           && e.policyType == p.policyType && e.version == p.version
           && e.content == p.content && e.effectiveDate == p.effectiveDate
           && e.contentUrl == "/policies/" + p.policyType + "-" + p.version
  {
    match latest
    case None => Response(500, Error(LatestFailedMessage))
    case Some(ps) => Response(200, PolicyList(seq(|ps|, i requires 0 <= i < |ps| => WithUrl(ps[i]))))
  }

  /** `getPolicyByTypeAndVersion` handler; `lookup` is the repository's
      answer (`None` when the call failed). */
  function GetPolicyByTypeAndVersion(lookup: Option<Option<Policy>>): (r: Response)
    ensures lookup.None? ==> r == Response(500, Error(ContentFailedMessage))
    ensures lookup == Some(None) ==> r == Response(404, Error(NotFoundMessage))
    ensures (lookup.Some? && lookup.value.Some?) ==> r == Response(200, PolicyRow(lookup.value.value))
  {
    match lookup
    case None => Response(500, Error(ContentFailedMessage))
    case Some(None) => Response(404, Error(NotFoundMessage))
    case Some(Some(p)) => Response(200, PolicyRow(p))
  }

  /** Served from the table at time `now`: one entry per policy type in
      effect, sorted by type, none taking effect after `now`. */
  lemma LatestEndpointOverTable(rows: seq<Policy>, now: int)
    ensures var r := GetLatestPolicies(Some(PoliciesRepo.GetLatestPolicies(rows, now)));
      && r.status == 200
      && (forall i, j | 0 <= i < j < |r.body.items| :: r.body.items[i].policyType != r.body.items[j].policyType)
      && (forall i | 0 <= i < |r.body.items| :: r.body.items[i].effectiveDate <= now)
  {
    var latest := PoliciesRepo.GetLatestPolicies(rows, now);
    var r := GetLatestPolicies(Some(latest));
    LatestSorted(rows, now);
    forall i, j | 0 <= i < j < |r.body.items| ensures r.body.items[i].policyType != r.body.items[j].policyType {
      SortedTypesDistinct(latest, i, j);
    }
    forall i | 0 <= i < |r.body.items| ensures r.body.items[i].effectiveDate <= now {
      LatestNotInFuture(rows, now, i);
    }
  }
}
