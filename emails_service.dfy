/** The mail service's start-up validation of its environment, the SMTP
    transport settings derived from it, and the links it mails out. */
module EmailsService {
  import opened Wrappers
  import opened Strings

  type Env = map<string, string>

  /** The variables the service refuses to start without, in the order its
      error message lists them. */
  const RequiredEnvVars: seq<string> :=
    ["SMTP_SERVER", "SMTP_PORT", "SMTP_SECURE", "SMTP_USER", "SMTP_USER_PASSWORD", "BASE_URL"]

  const MissingPrefix := "Missing required environment variables: "
  const PortMessage := "SMTP_PORT must be a valid number."
  const SecureMessage := "SMTP_SECURE must be \"true\" or \"false\"."

  const ConfirmRoute := "/confirm-email?token="
  const ResetRoute := "/reset-password?token="

  /** `process.env[name]`, with an unset variable read as the empty
      string: every check below treats the two alike. */
  function Value(env: Env, name: string): string {
    if name in env then env[name] else ""
  }

  /** `!process.env[name]`: unset, or set to the empty string. */
  predicate IsUnset(env: Env, name: string) {
    Value(env, name) == ""
  }

  /** `a` keeps some of the elements of `b`, in `b`'s order. */
  predicate IsSubsequence(a: seq<string>, b: seq<string>)
    decreases |a| + |b|
  {
    a == [] || (b != [] && ((a[0] == b[0] && IsSubsequence(a[1..], b[1..])) || IsSubsequence(a, b[1..])))
  }

  /** `names.filter((n) => !process.env[n])`: exactly the unset names, in
      their original order. */
  function MissingVars(names: seq<string>, env: Env): (r: seq<string>)
    ensures forall x :: x in r <==> x in names && IsUnset(env, x)
    ensures IsSubsequence(r, names)
  {
    if names == [] then []
    else
      var rest := MissingVars(names[1..], env);
      if IsUnset(env, names[0]) then [names[0]] + rest
      else
        assert forall x :: x in names <==> x == names[0] || x in names[1..];
        rest
  }

  function DigitsValue(ds: string): nat
    requires forall i | 0 <= i < |ds| :: IsDigit(ds[i])
  {
    if ds == [] then 0
    else
      assert IsDigit(ds[|ds| - 1]);
      DigitsValue(ds[..|ds| - 1]) * 10 + (ds[|ds| - 1] as int - '0' as int)
  }

  /** `parseInt(s, 10)`, `None` standing for `NaN`: leading white space is
      skipped, then an optional sign, then the longest run of digits; at
      least one digit is needed and whatever follows it is ignored. */
  function ParseInt(s: string): Option<int> {
    var t := TrimStart(s);
    var negative := t != [] && t[0] == '-';
    var unsigned := if t != [] && (t[0] == '-' || t[0] == '+') then t[1..] else t;
    var ds := Span(unsigned, IsDigit);
    if ds == [] then None
    else
      var v: int := DigitsValue(ds);
      Some(if negative then -v else v)
  }

  /** The decimal numeral of `n`, without leading zeros. */
  function NatToString(n: nat): (s: string)
    ensures |s| >= 1
    ensures forall i | 0 <= i < |s| :: IsDigit(s[i])
  {
    var d := ['0' + (n % 10) as char];
    if n < 10 then d else NatToString(n / 10) + d
  }

  lemma {:induction false} DigitsValueOfNumeral(n: nat)
    ensures DigitsValue(NatToString(n)) == n
  {
    var s := NatToString(n);
    if n >= 10 {
      DigitsValueOfNumeral(n / 10);
      assert s[..|s| - 1] == NatToString(n / 10);
    }
  }

  /** A port written in decimal, followed by anything that does not begin
      with a digit, reads back as that number. */
  lemma ParseIntNumeral(n: nat, rest: string)
    requires rest == [] || !IsDigit(rest[0])
    ensures ParseInt(NatToString(n) + rest) == Some(n)
  {
    var ds := NatToString(n);
    var s := ds + rest;
    assert s[0] == ds[0] && IsDigit(s[0]);
    assert TrimStart(s) == s;
    SpanIsMaximal(s, IsDigit, |ds|);
    assert s[..|ds|] == ds;
    DigitsValueOfNumeral(n);
  }

  /** A value with no digit after the optional sign is not a number. */
  lemma ParseIntNaN(s: string)
    requires s != [] && !IsWhiteSpace(s[0]) && !IsDigit(s[0])
    requires |s| < 2 || !IsDigit(s[1])
    ensures ParseInt(s).None?
  {
    assert TrimStart(s) == s;
  }

  datatype SmtpConfig = SmtpConfig(host: string, port: int, secure: bool, user: string, password: string)

  datatype ConfigResult = ConfigError(message: string) | Configured(config: SmtpConfig)

  /** `validateEnvVars()` followed by the transport settings built from the
      same environment. The checks run in order: the missing variables
      first, then the port, then the secure flag. */
  function LoadSmtpConfig(env: Env): (r: ConfigResult)
    ensures var missing := MissingVars(RequiredEnvVars, env);
      && (missing != [] ==> r == ConfigError(MissingPrefix + Join(missing, ", ")))
      && (missing == [] && ParseInt(Value(env, "SMTP_PORT")).None? ==> r == ConfigError(PortMessage))
      && ((missing == [] && ParseInt(Value(env, "SMTP_PORT")).Some? && Value(env, "SMTP_SECURE") != "true" && Value(env, "SMTP_SECURE") != "false")
          ==> r == ConfigError(SecureMessage))
    ensures r.Configured? <==>
      && (forall n <- RequiredEnvVars :: !IsUnset(env, n))
      && ParseInt(Value(env, "SMTP_PORT")).Some?
      && (Value(env, "SMTP_SECURE") == "true" || Value(env, "SMTP_SECURE") == "false")
    ensures r.Configured? ==>
      && (r.config.secure <==> Value(env, "SMTP_SECURE") == "true")
      && Some(r.config.port) == ParseInt(Value(env, "SMTP_PORT"))
      && r.config.host == Value(env, "SMTP_SERVER")
      && r.config.user == Value(env, "SMTP_USER") && r.config.password == Value(env, "SMTP_USER_PASSWORD")
  {
    var missing := MissingVars(RequiredEnvVars, env);
    if missing != [] then
      assert missing[0] in missing;
      ConfigError(MissingPrefix + Join(missing, ", "))
    else
      assert forall n <- RequiredEnvVars :: !IsUnset(env, n);
      match ParseInt(Value(env, "SMTP_PORT"))
      case None => ConfigError(PortMessage)
      case Some(port) =>
        if Value(env, "SMTP_SECURE") != "true" && Value(env, "SMTP_SECURE") != "false" then ConfigError(SecureMessage)
        else
          Configured(SmtpConfig(Value(env, "SMTP_SERVER"), port, Value(env, "SMTP_SECURE") == "true",
                                Value(env, "SMTP_USER"), Value(env, "SMTP_USER_PASSWORD")))
  }

  /** An environment with every variable set, a decimal port and
      `SMTP_SECURE=false` yields a plain (non-TLS) transport on that port. */
  lemma LoadsPlainTransport(env: Env, port: nat)
    requires forall n <- RequiredEnvVars :: !IsUnset(env, n)
    requires "SMTP_PORT" in env && Value(env, "SMTP_PORT") == NatToString(port)
    requires "SMTP_SECURE" in env && Value(env, "SMTP_SECURE") == "false"
    ensures LoadSmtpConfig(env).Configured?
    ensures LoadSmtpConfig(env).config.port == port && !LoadSmtpConfig(env).config.secure
  {
    assert NatToString(port) + [] == NatToString(port);
    ParseIntNumeral(port, []);
  }

  /** `${baseUrl}${route}${token}`: the base URL, then the route, then the
      token. */
  function Link(baseUrl: string, route: string, token: string): (link: string)
    ensures |link| == |baseUrl| + |route| + |token|
    ensures link[..|baseUrl|] == baseUrl
    ensures link[|baseUrl|..|baseUrl| + |route|] == route
    ensures link[|baseUrl| + |route|..] == token
  {
    baseUrl + route + token
  }

  /** The confirmation link of `sendConfirmationEmail`. */
  function ConfirmationLink(baseUrl: string, token: string): string {
    Link(baseUrl, ConfirmRoute, token)
  }

  /** The password-reset link the controller mails. */
  function ResetLink(baseUrl: string, token: string): string {
    Link(baseUrl, ResetRoute, token)
  }

  /** The token a link under `baseUrl` and `route` carries, if it is one. */
  function TokenOfLink(baseUrl: string, route: string, link: string): Option<string> {
    if |link| >= |baseUrl| + |route| && link[..|baseUrl| + |route|] == baseUrl + route
    then Some(link[|baseUrl| + |route|..])
    else None
  }

  /** The token comes back out of the link built from it, and a link that
      yields a token is the link built from that token. */
  lemma LinkRoundTrip(baseUrl: string, route: string, token: string, link: string)
    ensures TokenOfLink(baseUrl, route, Link(baseUrl, route, token)) == Some(token)
    ensures TokenOfLink(baseUrl, route, link) == Some(token) ==> Link(baseUrl, route, token) == link
  {
    var l := Link(baseUrl, route, token);
    assert l[..|baseUrl| + |route|] == baseUrl + route;
    if TokenOfLink(baseUrl, route, link) == Some(token) {
      assert link == link[..|baseUrl| + |route|] + link[|baseUrl| + |route|..];
    }
  }

  /** Distinct tokens give distinct links. */
  lemma LinkInjective(baseUrl: string, route: string, t1: string, t2: string)
    requires Link(baseUrl, route, t1) == Link(baseUrl, route, t2)
    ensures t1 == t2
  {
    LinkRoundTrip(baseUrl, route, t1, Link(baseUrl, route, t2));
    LinkRoundTrip(baseUrl, route, t2, Link(baseUrl, route, t2));
  }
}
