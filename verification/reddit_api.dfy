/** The three exchanges with Reddit's API and how their responses are
    judged: submitting a link, exchanging an authorization code for tokens,
    and requesting an application token. The HTTP transport and the JSON
    decoding are outside the model: a response is either a transport error
    or the already decoded body. */
module RedditApi {
  import opened Optional
  import opened PhpJson

  /** What `wp_remote_post` followed by `json_decode(..., true)` yields. */
  datatype HttpResponse =
    | TransportError(message: string)
    | Received(body: Json)

  // ---------------------------------------------------------------------
  // Submitting a link

  /** A submit counts as successful exactly when the transport succeeded
      and the decoded body has a non-null `json.data.url`. */
  function SubmitSucceeded(resp: HttpResponse): (ok: bool)
    ensures ok ==> resp.Received? && resp.body.JObject?
    ensures ok <==> resp.Received? && DataUrl(resp.body).Some? && !DataUrl(resp.body).value.JNull?
  {
    match resp
    case TransportError(_) => false
    case Received(body) => IsSetPath(body, ["json", "data", "url"])
  }

  /** Reading `json`, then `data`, then `url` one offset at a time. */
  function DataUrl(body: Json): Option<Json> {
    match Field(body, "json")
    case None => None
    case Some(j) =>
      match Field(j, "data")
      case None => None
      case Some(d) => Field(d, "url")
  }

  /** A body of the shape Reddit documents for an accepted submission made
      with `api_type=json`: a `json` envelope holding `errors` and `data`. */
  function AcceptedBody(url: string, id: string): Json {
    JObject([("json", JObject([("errors", JList([])),
                               ("data", JObject([("url", JString(url)), ("id", JString(id))]))]))])
  }

  /** An accepted submission is recognised as a success. */
  lemma AcceptedBodySucceeds(url: string, id: string)
    ensures SubmitSucceeded(Received(AcceptedBody(url, id)))
  {
    var data := JObject([("url", JString(url)), ("id", JString(id))]);
    var inner := JObject([("errors", JList([])), ("data", data)]);
    LookupFindsLast(data.members, "url", 0);
    LookupFindsLast(inner.members, "data", 1);
    LookupFindsLast(AcceptedBody(url, id).members, "json", 0);
  }

  /** Reddit reports a rejected submission (rate limit, banned domain,
      missing subreddit) as a `json.errors` list without `data`; that is a
      failure. */
  lemma ErrorsOnlyBodyFails(errors: seq<Json>)
    ensures !SubmitSucceeded(Received(JObject([("json", JObject([("errors", JList(errors))]))])))
  {
    var inner := JObject([("errors", JList(errors))]);
    assert Lookup(inner.members, "data") == None;
  }

  /** A body without a `json` member, or one that is not an object at all
      (a list, a string, null from undecodable text), is a failure. */
  lemma {:induction false} BodyWithoutJsonFails(body: Json)
    requires body.JObject? ==> forall i :: 0 <= i < |body.members| ==> body.members[i].0 != "json"
    ensures !SubmitSucceeded(Received(body))
  {
    if body.JObject? {
      LookupAbsent(body.members, "json");
    }
  }

  /** Only the last `json` member of the body counts: members after it with
      other keys, and anything before it, do not change the verdict. */
  lemma LastJsonMemberDecides(before: seq<(string, Json)>, j: Json, after: seq<(string, Json)>)
    requires forall i :: 0 <= i < |after| ==> after[i].0 != "json"
    ensures SubmitSucceeded(Received(JObject(before + [("json", j)] + after)))
         == SubmitSucceeded(Received(JObject([("json", j)])))
  {
    var members := before + [("json", j)] + after;
    assert IsLastWithKey(members, "json", |before|) by {
      forall k | |before| < k < |members| ensures members[k].0 != "json" {
        assert members[k] == after[k - |before| - 1];
      }
    }
    LookupFindsLast(members, "json", |before|);
    LookupFindsLast([("json", j)], "json", 0);
  }

  // ---------------------------------------------------------------------
  // Tokens

  const AccessTokenOption: string := "reddit_access_token"
  const RefreshTokenOption: string := "reddit_refresh_token"

  /** The site's option table, as far as the plugin's tokens go: a stored
      value per option name. */
  type Options = map<string, Json>

  /** `get_option(name)`: the stored value, or `false` when none is stored. */
  function GetOption(options: Options, name: string): Json {
    if name in options then options[name] else JBool(false)
  }

  /** The access token carried by a token response: present when the
      transport succeeded and the decoded body has a non-null
      `access_token`. */
  function AccessTokenIn(resp: HttpResponse): (t: Option<Json>)
    ensures t.Some? <==> resp.Received? && IsSetPath(resp.body, ["access_token"])
    ensures t.Some? ==> !t.value.JNull? && Field(resp.body, "access_token") == t
  {
    match resp
    case TransportError(_) => None
    case Received(body) =>
      match Field(body, "access_token")
      case None => None
      case Some(v) => if v.JNull? then None else Some(v)
  }

  /** The refresh token read next to the access token: `$body['refresh_token']`
      is null when the body has none. */
  function RefreshTokenIn(body: Json): Json {
    match Field(body, "refresh_token")
    case None => JNull
    case Some(v) => v
  }

  /** Handling the authorization-code exchange: when the response carries
      an access token, both tokens are stored; otherwise no option changes.
      Options other than the two token options are never touched. */
  function HandleOAuthResponse(options: Options, resp: HttpResponse): (after: Options)
    ensures AccessTokenIn(resp).None? ==> after == options
    ensures AccessTokenIn(resp).Some? ==>
              && after.Keys == options.Keys + {AccessTokenOption, RefreshTokenOption}
              && after[AccessTokenOption] == AccessTokenIn(resp).value
              && after[RefreshTokenOption] == RefreshTokenIn(resp.body)
    ensures forall name :: name in options && name != AccessTokenOption && name != RefreshTokenOption
              ==> name in after && after[name] == options[name]
  {
    match AccessTokenIn(resp)
    case None => options
    case Some(token) =>
      options[AccessTokenOption := token][RefreshTokenOption := RefreshTokenIn(resp.body)]
  }

  /** Requesting an application token: the token when the response carries
      one, `false` otherwise (transport error, undecodable body, no
      `access_token`). */
  function GetAccessToken(resp: HttpResponse): (t: Json)
    ensures AccessTokenIn(resp).None? ==> t == JBool(false)
    ensures AccessTokenIn(resp).Some? ==> t == AccessTokenIn(resp).value
  {
    match AccessTokenIn(resp)
    case None => JBool(false)
    case Some(token) => token
  }

  /** The two token exchanges agree: whenever the authorization-code
      handler stores a token, it is the token the application-token request
      returns for the same response, and it is what the token option then
      reads back. */
  lemma StoredTokenIsReturnedToken(options: Options, resp: HttpResponse)
    requires AccessTokenIn(resp).Some?
    ensures GetOption(HandleOAuthResponse(options, resp), AccessTokenOption) == GetAccessToken(resp)
  {
  }

  /** A response without an access token leaves whatever token was stored
      before in place, so a failed re-authorisation keeps the old one. */
  lemma FailedExchangeKeepsToken(options: Options, resp: HttpResponse)
    requires AccessTokenIn(resp).None?
    ensures GetOption(HandleOAuthResponse(options, resp), AccessTokenOption) == GetOption(options, AccessTokenOption)
    ensures GetOption(HandleOAuthResponse(options, resp), RefreshTokenOption) == GetOption(options, RefreshTokenOption)
  {
  }

  /** Reddit's successful token response: both tokens are stored. */
  lemma TokenResponseStored(options: Options, access: string, refresh: string)
    ensures var body := JObject([("access_token", JString(access)), ("token_type", JString("bearer")),
                                 ("refresh_token", JString(refresh))]);
            var after := HandleOAuthResponse(options, Received(body));
            && GetOption(after, AccessTokenOption) == JString(access)
            && GetOption(after, RefreshTokenOption) == JString(refresh)
  {
    var members := [("access_token", JString(access)), ("token_type", JString("bearer")),
                    ("refresh_token", JString(refresh))];
    LookupFindsLast(members, "access_token", 0);
    LookupFindsLast(members, "refresh_token", 2);
  }

  /** An access token without a refresh token (the client-credentials
      shape) stores null as the refresh token. */
  lemma MissingRefreshStoresNull(options: Options, access: string)
    ensures var body := JObject([("access_token", JString(access))]);
            GetOption(HandleOAuthResponse(options, Received(body)), RefreshTokenOption) == JNull
  {
    var members := [("access_token", JString(access))];
    assert Lookup(members, "refresh_token") == None;
  }

  /** An error body such as `{"error": "invalid_grant"}` stores nothing and
      makes the application-token request return false. */
  lemma ErrorBodyStoresNothing(options: Options, error: string)
    ensures var resp := Received(JObject([("error", JString(error))]));
            && HandleOAuthResponse(options, resp) == options
            && GetAccessToken(resp) == JBool(false)
  {
    var members := [("error", JString(error))];
    assert Lookup(members, "access_token") == None;
  }
}
