/**
 The portal client's request shaping and login exchange: the provider table
 and base URLs, endpoint URLs with their tails, the HTTP verb, the guard every
 JSON payload passes, the element type check, the login form, and the verdicts
 of submitting it. The network is a set of inputs: a page reply, and a
 function from the submitted form to what the submission produced.
 */
module Client {
  import opened Py
  import opened Text
  import Scrape

  const LoginEndpoint := "/mon-compte-en-ligne/je-me-connecte"
  const ConsumptionEndpoint := "/mon-compte-en-ligne/historique-de-consommation-tr"
  const DataEndpoint := "/mon-compte-en-ligne/statJData"
  const HistoryEndpoint := "/mon-compte-en-ligne/statMData"

  const DefaultProvider := "toutsurmoneau"

  /** The known providers and their base URLs, in declaration order. */
  const ProviderTable: seq<(string, string)> := [
    ("toutsurmoneau", "https://www.toutsurmoneau.fr"),
    ("Eau Olivet", "https://www.eau-olivet.fr")
  ]

  // ---------------------------------------------------------------------------
  // Providers and URLs

  /** `provider or 'toutsurmoneau'`: a missing or empty provider name selects the default. */
  function ChooseProvider(given: Option<string>): (p: string)
    ensures given.Some? && given.value != "" ==> p == given.value
    ensures given.None? || given.value == "" ==> p == DefaultProvider
    ensures p != ""
  {
    if given.Some? && given.value != "" then given.value else DefaultProvider
  }

  /** `_providers[provider]`: the base URL, or KeyError for an unknown name. */
  function BaseUrl(provider: string): (r: Result<string>)
    ensures r.Ok? <==> exists i | 0 <= i < |ProviderTable| :: ProviderTable[i].0 == provider
    ensures r.Ok? ==> (provider, r.value) in ProviderTable
    ensures r.Err? ==> r.error == Escaped(KeyError)
  {
    if provider == ProviderTable[0].0 then Ok(ProviderTable[0].1)
    else if provider == ProviderTable[1].0 then Ok(ProviderTable[1].1)
    else Err(Escaped(KeyError))
  }

  /** `providers()`: the names of the known providers, each once. */
  function Providers(): (names: seq<string>)
    ensures forall p :: p in names <==> BaseUrl(p).Ok?
    ensures forall i, j | 0 <= i < j < |names| :: names[i] != names[j]
  {
    [ProviderTable[0].0, ProviderTable[1].0]
  }

  /** The default provider is a known one: omitting it never fails the lookup. */
  lemma DefaultProviderKnown(given: Option<string>)
    requires given.None? || given.value == ""
    ensures BaseUrl(ChooseProvider(given)) == Ok("https://www.toutsurmoneau.fr")
  {
  }

  /** `_url(endpoint)`: the provider's base URL followed by the endpoint. */
  function Url(provider: string, endpoint: string): (r: Result<string>)
    ensures r.Ok? <==> BaseUrl(provider).Ok?
    ensures r.Ok? ==> |r.value| == |BaseUrl(provider).value| + |endpoint|
    ensures r.Ok? ==> r.value[..|BaseUrl(provider).value|] == BaseUrl(provider).value
    ensures r.Ok? ==> r.value[|BaseUrl(provider).value|..] == endpoint
  {
    var base :- BaseUrl(provider);
    Ok(base + endpoint)
  }

  /** `_fetch_url(tail, endpoint)`: the endpoint URL, with `/tail` appended when the tail is not empty. */
  function FetchUrl(provider: string, tail: string, endpoint: string): (r: Result<string>)
    ensures r.Ok? <==> BaseUrl(provider).Ok?
    ensures tail == "" ==> r == Url(provider, endpoint)
    ensures r.Ok? && tail != "" ==> r.value == Url(provider, endpoint).value + "/" + tail
  {
    var url :- Url(provider, endpoint);
    if tail != "" then Ok(url + "/" + tail) else Ok(url)
  }

  /** Requests for different non-empty tails go to different URLs. */
  lemma FetchUrlInjective(provider: string, endpoint: string, t1: string, t2: string)
    requires t1 != "" && t2 != "" && BaseUrl(provider).Ok?
    requires FetchUrl(provider, t1, endpoint) == FetchUrl(provider, t2, endpoint)
    ensures t1 == t2
  {
    var u := Url(provider, endpoint).value + "/";
    assert (u + t1)[|u|..] == t1;
    assert (u + t2)[|u|..] == t2;
  }

  /** The `f"{year}/{month}"` text naming a month. */
  function MonthKey(year: nat, month: nat): (k: string)
    ensures |k| >= 3
    ensures exists i | 0 < i < |k| - 1 ::
      && k[i] == '/'
      && AllDigits(k[..i]) && AllDigits(k[i + 1..])
      && DecimalValue(k[..i]) == year && DecimalValue(k[i + 1..]) == month
  {
    var y := Decimal(year);
    var m := Decimal(month);
    var k := y + "/" + m;
    DecimalRoundTrip(year);
    DecimalRoundTrip(month);
    assert k[..|y|] == y && k[|y| + 1..] == m;
    assert k[|y|] == '/';
    k
  }

  /** The `f"{year}/{month}/{counter}"` tail of a month page request. */
  function MonthTail(year: nat, month: nat, counter: string): (t: string)
    ensures |t| == |MonthKey(year, month)| + 1 + |counter|
    ensures t[..|MonthKey(year, month)|] == MonthKey(year, month)
    ensures t[|MonthKey(year, month)|] == '/'
    ensures t[|MonthKey(year, month)| + 1..] == counter
  {
    MonthKey(year, month) + "/" + counter
  }

  lemma NoSlashInDecimal(n: nat)
    ensures '/' !in Decimal(n)
  {
    var d := Decimal(n);
    assert forall i | 0 <= i < |d| :: d[i] != '/' by {
      forall i | 0 <= i < |d| ensures d[i] != '/' {
        assert IsDigit(d[i]);
      }
    }
  }

  /** Month keys name months one to one: comparing keys compares (year, month). */
  lemma MonthKeyInjective(y1: nat, m1: nat, y2: nat, m2: nat)
    ensures MonthKey(y1, m1) == MonthKey(y2, m2) <==> y1 == y2 && m1 == m2
  {
    if MonthKey(y1, m1) == MonthKey(y2, m2) {
      NoSlashInDecimal(y1);
      NoSlashInDecimal(y2);
      SplitAtSlash(Decimal(y1), Decimal(m1), Decimal(y2), Decimal(m2));
      DecimalInjective(y1, y2);
      DecimalInjective(m1, m2);
    }
  }

  /** Month page requests for different months or counters are different requests. */
  lemma MonthTailParts(year: nat, month: nat, counter: string)
    ensures MonthTail(year, month, counter) == Decimal(year) + "/" + (Decimal(month) + "/" + counter)
  {
  }

  lemma MonthTailInjective(y1: nat, m1: nat, c1: string, y2: nat, m2: nat, c2: string)
    ensures MonthTail(y1, m1, c1) == MonthTail(y2, m2, c2) <==> y1 == y2 && m1 == m2 && c1 == c2
  {
    if MonthTail(y1, m1, c1) == MonthTail(y2, m2, c2) {
      NoSlashInDecimal(y1);
      NoSlashInDecimal(y2);
      NoSlashInDecimal(m1);
      NoSlashInDecimal(m2);
      MonthTailParts(y1, m1, c1);
      MonthTailParts(y2, m2, c2);
      SplitAtSlash(Decimal(y1), Decimal(m1) + "/" + c1, Decimal(y2), Decimal(m2) + "/" + c2);
      SplitAtSlash(Decimal(m1), c1, Decimal(m2), c2);
      DecimalInjective(y1, y2);
      DecimalInjective(m1, m2);
    }
  }

  /** `_rq`: a request carrying form data is a POST; otherwise the given verb, GET by default. */
  function Verb(hasData: bool, verb: Option<string>): (v: string)
    ensures hasData ==> v == "post"
    ensures !hasData ==> v == verb.GetOr("get")
    ensures v == "post" <==> hasData || verb == Some("post")
  {
    if hasData then "post" else if verb.Some? then verb.value else "get"
  }

  // ---------------------------------------------------------------------------
  // Replies and payloads

  /** What a request produced: a decoded body, or a transport or decoding failure. */
  datatype Reply<T> = Delivered(body: T) | Undelivered

  function Received<T>(reply: Reply<T>): (r: Result<T>)
    ensures r.Ok? <==> reply.Delivered?
    ensures r.Ok? ==> r.value == reply.body
    ensures r.Err? ==> r.error == Escaped(NetworkFailure)
  {
    match reply
    case Delivered(b) => Ok(b)
    case Undelivered => Err(Escaped(NetworkFailure))
  }

  /** The portal's error envelope: a non-empty list whose first element renders as
      `ERR`. Only the string `"ERR"` renders so; numbers, lists, objects, `null`
      and booleans render otherwise. */
  predicate IsEnvelope(j: Json)
    ensures IsEnvelope(j) <==> Len(j).Ok? && Len(j).value > 0 && Index(j, 0) == Ok(JStr("ERR"))
  {
    j.JList? && |j.items| >= 1 && j.items[0] == JStr("ERR")
  }

  /** The message of an envelope: its second element rendered, or "Unknown error". */
  function EnvelopeMessage(items: seq<Json>): (m: Message)
    ensures Len(JList(items)).value > 1 ==> m == StrOf(Index(JList(items), 1).value)
    ensures Len(JList(items)).value <= 1 ==> m == Text("Unknown error")
  {
    if |items| > 1 then StrOf(items[1]) else Text("Unknown error")
  }

  /** `len(json) and str(json[0]) == 'ERR'` in `_fetch_data_url`: an envelope
      raises SuezError; every other payload `len` and `[0]` accept is returned
      unchanged. `len` rejects numbers, booleans and `null`; a non-empty object
      has no key `0`. */
  function GuardPayload(j: Json): (r: Result<Json>)
    ensures r.Ok? ==> r.value == j
    ensures IsEnvelope(j) ==> r == Err(SuezError(EnvelopeMessage(j.items)))
    ensures r.Ok? <==> (j.JList? && !IsEnvelope(j)) || j.JStr? || j == JObj([])
    ensures r.Err? && !IsEnvelope(j) ==> r.error == Escaped(if j.JObj? then KeyError else TypeError)
  {
    var n :- Len(j);
    if n == 0 then Ok(j)
    else
      var first :- Index(j, 0);
      if first == JStr("ERR") then Err(SuezError(EnvelopeMessage(j.items)))
      else Ok(j)
  }

  /** `_fetch_data_url`: the decoded reply after the envelope check. */
  function FetchData(reply: Reply<Json>): (r: Result<Json>)
    ensures r.Ok? <==> reply.Delivered? && GuardPayload(reply.body).Ok?
    ensures r.Ok? ==> r.value == reply.body && r.value != JNull
    ensures r.Err? && r.error.SuezError? ==> reply.Delivered? && IsEnvelope(reply.body)
  {
    var body :- Received(reply);
    GuardPayload(body)
  }

  /** A page fetch fails with an error envelope's SuezError, or with a fault of
      the transport or of the payload check. */
  lemma FetchFaults(reply: Reply<Json>)
    ensures FetchData(reply).Err? && FetchData(reply).error.Escaped? ==>
      FetchData(reply).error.fault in {NetworkFailure, KeyError, TypeError}
  {
  }

  /** `ensure_type`: pairs values with expected types as `zip` does, stopping
      at the shorter list, and raises on the first value of the wrong type. */
  function EnsureType(values: seq<Json>, expected: seq<Expect>): (r: Result<()>)
    ensures r.Ok? <==> forall i | 0 <= i < |values| && i < |expected| :: Matches(values[i], expected[i])
    ensures r.Err? ==>
      exists i | 0 <= i < |values| && i < |expected| ::
        && !Matches(values[i], expected[i])
        && (forall k | 0 <= k < i :: Matches(values[k], expected[k]))
        && r.error == SuezError(Mismatch(values[i], expected[i]))
  {
    if |values| == 0 || |expected| == 0 then Ok(())
    else if !Matches(values[0], expected[0]) then Err(SuezError(Mismatch(values[0], expected[0])))
    else
      var r := EnsureType(values[1..], expected[1..]);
      assert r.Err? ==> exists i | 1 <= i < |values| && i < |expected| ::
        !Matches(values[i], expected[i]) && (forall k | 0 <= k < i :: Matches(values[k], expected[k]))
        && r.error == SuezError(Mismatch(values[i], expected[i])) by {
        if r.Err? {
          var i :| 0 <= i < |values[1..]| && i < |expected[1..]| && !Matches(values[1..][i], expected[1..][i])
            && (forall k | 0 <= k < i :: Matches(values[1..][k], expected[1..][k]))
            && r.error == SuezError(Mismatch(values[1..][i], expected[1..][i]));
          assert forall k | 1 <= k < i + 1 :: Matches(values[k], expected[k]) by {
            forall k | 1 <= k < i + 1 ensures Matches(values[k], expected[k]) {
              assert values[1..][k - 1] == values[k];
            }
          }
        }
      }
      assert r.Ok? ==> forall i | 1 <= i < |values| && i < |expected| :: Matches(values[i], expected[i]) by {
        if r.Ok? {
          forall i | 1 <= i < |values| && i < |expected| ensures Matches(values[i], expected[i]) {
            assert values[1..][i - 1] == values[i];
          }
        }
      }
      r
  }

  /** `ensure_type(v, expected)` on a value the check iterates over. */
  function EnsureTypeOf(v: Json, expected: seq<Expect>): (r: Result<()>)
    ensures r.Ok? <==> Iter(v).Ok? && EnsureType(Iter(v).value, expected).Ok?
  {
    var items :- Iter(v);
    EnsureType(items, expected)
  }

  /** A value whose first two items, where present, are numbers: what
      `ensure_type(v, [(int, float), (int, float)])` accepts. */
  predicate NumericPair(v: Json) {
    EnsureTypeOf(v, [ExpectNumber, ExpectNumber]).Ok?
  }

  /** A list passes the two-number check exactly when its first two items,
      those it has, are numbers: a shorter list passes on fewer checks. */
  lemma NumericPairOfList(items: seq<Json>)
    ensures NumericPair(JList(items)) <==> forall i | 0 <= i < |items| && i < 2 :: items[i].JNum?
  {
  }

  // ---------------------------------------------------------------------------
  // Login

  const SessionCookie := "eZSESSID"
  const SubmitFailed := SuezError(Text("Can not submit login form."))
  const BadCredentials := SuezError(Text("Login error: Please check your username/password."))

  /** Form fields in submission order; `None` is a field sent without a value. */
  type Form = seq<(string, Option<string>)>

  /** The fields that carry the password. */
  const PasswordFields := {"_password", "tsme_user_login[_password]"}

  /** The login form `_get_token` builds: the token under `_csrf_token`, the
      password under the two password fields, `signin[password]` empty, and the
      user name under the remaining three fields. */
  function LoginForm(username: string, password: string, token: string): (form: Form)
    ensures |form| == 7
    ensures forall i, j | 0 <= i < j < |form| :: form[i].0 != form[j].0
    ensures forall i | 0 <= i < |form| ::
      form[i].1 == (if form[i].0 == "_csrf_token" then Some(token)
                    else if form[i].0 in PasswordFields then Some(password)
                    else if form[i].0 == "signin[password]" then None
                    else Some(username))
    ensures exists i | 0 <= i < |form| :: form[i] == ("_csrf_token", Some(token))
  {
    var form := [
      ("_username", Some(username)),
      ("_password", Some(password)),
      ("_csrf_token", Some(token)),
      ("signin[username]", Some(username)),
      ("signin[password]", None),
      ("tsme_user_login[_username]", Some(username)),
      ("tsme_user_login[_password]", Some(password)) ];
    assert form[2] == ("_csrf_token", Some(token));
    form
  }

  /** What submitting the form produced: the cookies set by the response and
      the cookies the session then holds for the provider's site; or a
      transport `OSError`; or another failure. */
  datatype PostReply =
    | Posted(responseCookies: set<string>, jarCookies: set<string>)
    | PostOSError
    | PostFailed

  /** `_get_token`: fetch the login page and read its token. */
  function LoginToken(provider: string, loginPage: Reply<string>): (r: Result<string>)
    ensures r.Ok? <==> BaseUrl(provider).Ok? && loginPage.Delivered? && Scrape.GetToken(loginPage.body).Ok?
    ensures r.Ok? ==> r == Scrape.GetToken(loginPage.body)
    ensures r.Err? ==> r.error.Escaped? || r.error == Scrape.NoToken
  {
    var _ :- FetchUrl(provider, "", LoginEndpoint);
    var page :- Received(loginPage);
    Scrape.GetToken(page)
  }

  /** `_get_cookie`: obtain the token, post the form, then require the session
      cookie. A transport `OSError` becomes "Can not submit login form."; a
      missing cookie becomes the credentials error. */
  function Login(username: string, password: string, provider: string,
                 loginPage: Reply<string>, submit: Form -> PostReply): (r: Result<()>)
    ensures r.Ok? <==>
      && LoginToken(provider, loginPage).Ok?
      && submit(LoginForm(username, password, LoginToken(provider, loginPage).value)).Posted?
      && SessionCookie in submit(LoginForm(username, password, LoginToken(provider, loginPage).value)).jarCookies
    ensures LoginToken(provider, loginPage).Err? ==> r == Err(LoginToken(provider, loginPage).error)
    ensures r == Err(BadCredentials) <==>
      && LoginToken(provider, loginPage).Ok?
      && submit(LoginForm(username, password, LoginToken(provider, loginPage).value)).Posted?
      && SessionCookie !in submit(LoginForm(username, password, LoginToken(provider, loginPage).value)).jarCookies
    ensures LoginToken(provider, loginPage).Ok? && submit(LoginForm(username, password, LoginToken(provider, loginPage).value)).PostOSError? ==>
      r == Err(SubmitFailed)
    ensures LoginToken(provider, loginPage).Ok? && submit(LoginForm(username, password, LoginToken(provider, loginPage).value)).PostFailed? ==>
      r == Err(Escaped(NetworkFailure))
  {
    var token :- LoginToken(provider, loginPage);
    match submit(LoginForm(username, password, token))
    case PostOSError => Err(SubmitFailed)
    case PostFailed => Err(Escaped(NetworkFailure))
    case Posted(_, jar) => if SessionCookie in jar then Ok(()) else Err(BadCredentials)
  }

  /** Without a token the login fails before anything is posted: the outcome does
      not depend on what a submission would produce. */
  lemma NoTokenNoPost(username: string, password: string, provider: string,
                      loginPage: Reply<string>, submit1: Form -> PostReply, submit2: Form -> PostReply)
    requires loginPage.Delivered? && Scrape.GetToken(loginPage.body) == Err(Scrape.NoToken)
    ensures Login(username, password, provider, loginPage, submit1) == Login(username, password, provider, loginPage, submit2)
    ensures BaseUrl(provider).Ok? ==> Login(username, password, provider, loginPage, submit1) == Err(Scrape.NoToken)
  {
  }

  /** `_check_credentials`: the same token and form; the answer is whether the
      login response itself set the session cookie. */
  function CheckCredentials(username: string, password: string, provider: string,
                            loginPage: Reply<string>, submit: Form -> PostReply): (r: Result<bool>)
    ensures r.Ok? <==>
      LoginToken(provider, loginPage).Ok? && submit(LoginForm(username, password, LoginToken(provider, loginPage).value)).Posted?
    ensures r.Ok? ==>
      r.value == (SessionCookie in submit(LoginForm(username, password, LoginToken(provider, loginPage).value)).responseCookies)
    ensures r.Err? && LoginToken(provider, loginPage).Ok? ==>
      r.error == (if submit(LoginForm(username, password, LoginToken(provider, loginPage).value)).PostOSError?
                  then SubmitFailed else Escaped(NetworkFailure))
  {
    var token :- LoginToken(provider, loginPage);
    match submit(LoginForm(username, password, token))
    case PostOSError => Err(SubmitFailed)
    case PostFailed => Err(Escaped(NetworkFailure))
    case Posted(response, _) => Ok(SessionCookie in response)
  }
}
