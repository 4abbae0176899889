/**
 * The Reddit OAuth client configuration and the authorization request it
 * builds: the URL the browser is sent to in the authorization-code grant
 * (section 4.1.1 of RFC 6749), whose `scope` parameter is a space-delimited
 * list of scope tokens (section 3.3 of RFC 6749).
 *
 * The query string is produced as Python's `urlencode` does: each key and
 * each value is percent-encoded, joined by `=`, and the pairs are joined by
 * `&` in the order of the parameter dictionary. The percent-encoding itself
 * is the parameter `encode`, left uninterpreted; properties that depend on it
 * state what they assume about it as preconditions.
 */
module Auth {
  import opened Wrappers
  import Text

  /** The authorization endpoint, including the `?` that starts the query. */
  const AUTHORIZE_ENDPOINT: string := "https://www.reddit.com/api/v1/authorize?"

  /** The scopes the application asks for, in the order it lists them. */
  const SCOPES: seq<string> := ["identity", "read", "history", "mysubreddits"]

  /** The keys of the authorization request, in the order they are sent. */
  const PARAM_KEYS: seq<string> := ["client_id", "response_type", "state", "redirect_uri", "scope"]

  /** The client's configuration: credentials and redirect URI given at start-up, and the scopes. */
  datatype RedditAuth = RedditAuth(clientId: string, clientSecret: string, redirectUri: string, scopes: seq<string>)

  /** One query parameter, as a key and an (unencoded) value. */
  type Param = (string, string)

  /** `scope-token = 1*( %x21 / %x23-5B / %x5D-7E )` of section 3.3 of RFC 6749. */
  predicate IsScopeToken(t: string) {
    |t| >= 1 && forall i :: 0 <= i < |t| ==> t[i] == '!' || ('#' <= t[i] <= '[') || (']' <= t[i] <= '~')
  }

  /** A scope token never contains the space that delimits scopes. */
  lemma ScopeTokenHasNoSpace(t: string)
    requires IsScopeToken(t)
    ensures ' ' !in t
  {
  }

  /** A non-empty list of scope tokens. */
  predicate ValidScopes(scopes: seq<string>) {
    |scopes| >= 1 && forall i :: 0 <= i < |scopes| ==> IsScopeToken(scopes[i])
  }

  /** The configuration built at start-up from the three configured values. */
  function NewRedditAuth(clientId: string, clientSecret: string, redirectUri: string): (auth: RedditAuth)
    ensures auth.clientId == clientId && auth.clientSecret == clientSecret && auth.redirectUri == redirectUri
    ensures auth.scopes == SCOPES
    ensures ValidScopes(auth.scopes)
    ensures Text.Join(auth.scopes, ' ') == "identity read history mysubreddits"
  {
    DefaultScopesAreTokens();
    DefaultScopesJoin();
    RedditAuth(clientId, clientSecret, redirectUri, SCOPES)
  }

  /** Each of the fixed scopes is a scope token. */
  lemma DefaultScopesAreTokens()
    ensures ValidScopes(SCOPES)
  {
    assert IsScopeToken(SCOPES[0]);
    assert IsScopeToken(SCOPES[1]);
    assert IsScopeToken(SCOPES[2]);
    assert IsScopeToken(SCOPES[3]);
  }

  /** The fixed scopes join to the scope string the application sends. */
  lemma DefaultScopesJoin()
    ensures Text.Join(SCOPES, ' ') == "identity read history mysubreddits"
  {
    assert SCOPES == ["identity"] + ["read", "history", "mysubreddits"];
    Text.JoinCons("identity", ["read", "history", "mysubreddits"], ' ');
    JoinLastThreeScopes();
    SpellScopeString();
  }

  /** The last three fixed scopes, joined. */
  lemma JoinLastThreeScopes()
    ensures Text.Join(["read", "history", "mysubreddits"], ' ') == "read history mysubreddits"
  {
    Text.JoinCons("read", ["history", "mysubreddits"], ' ');
    Text.JoinPair("history", "mysubreddits", ' ');
    SpellLastTwoScopes();
  }

  /** Literal spellings of the partial scope strings. */
  lemma SpellLastTwoScopes()
    ensures "history" + " " + "mysubreddits" == "history mysubreddits"
    ensures "read" + " " + "history mysubreddits" == "read history mysubreddits"
  {
  }

  /** Literal spelling of the whole scope string. */
  lemma SpellScopeString()
    ensures "identity" + " " + "read history mysubreddits" == "identity read history mysubreddits"
  {
  }

  /** The parameters of the authorization request, in the order `urlencode` emits them. */
  function AuthorizationParams(auth: RedditAuth, state: string): (params: seq<Param>)
    ensures Keys(params) == PARAM_KEYS
    ensures params[1].1 == "code"
  {
    [ ("client_id", auth.clientId),
      ("response_type", "code"),
      ("state", state),
      ("redirect_uri", auth.redirectUri),
      ("scope", Text.Join(auth.scopes, ' ')) ]
  }

  /** The keys of a parameter list, in order. */
  function Keys(params: seq<Param>): (keys: seq<string>)
    ensures |keys| == |params|
  {
    seq(|params|, i requires 0 <= i < |params| => params[i].0)
  }

  /** No key is repeated. */
  predicate DistinctKeys(params: seq<Param>) {
    forall i, j :: 0 <= i < j < |params| ==> params[i].0 != params[j].0
  }

  /** The value of the first parameter with the given key, if there is one. */
  function Lookup(params: seq<Param>, key: string): (v: Option<string>)
    ensures v.None? <==> forall i :: 0 <= i < |params| ==> params[i].0 != key
    ensures v.Some? ==> exists i ::
      && 0 <= i < |params|
      && params[i] == (key, v.value)
      && forall j :: 0 <= j < i ==> params[j].0 != key
  {
    if |params| == 0 then None
    else if params[0].0 == key then Some(params[0].1)
    else Lookup(params[1..], key)
  }

  /** With distinct keys, looking a key up finds the one parameter that carries it. */
  lemma LookupDistinct(params: seq<Param>, i: nat)
    requires DistinctKeys(params)
    requires i < |params|
    ensures Lookup(params, params[i].0) == Some(params[i].1)
  {
  }

  /** One `key=value` piece of the query. */
  function EncodePair(p: Param, encode: string -> string): (piece: string)
    ensures '=' !in encode(p.0) && '=' !in encode(p.1) ==> Text.Split(piece, '=') == [encode(p.0), encode(p.1)]
    ensures '&' !in encode(p.0) && '&' !in encode(p.1) ==> '&' !in piece
  {
    var k, v := encode(p.0), encode(p.1);
    Text.JoinPair(k, v, '=');
    if '=' !in k && '=' !in v then Text.SplitJoin([k, v], '='); k + "=" + v else k + "=" + v
  }

  /** The pieces of the query, one per parameter, in order. */
  function EncodePairs(params: seq<Param>, encode: string -> string): (pieces: seq<string>)
    ensures |pieces| == |params|
  {
    seq(|params|, i requires 0 <= i < |params| => EncodePair(params[i], encode))
  }

  /** `urlencode(params)`: the encoded pairs joined by `&`. */
  function Query(params: seq<Param>, encode: string -> string): (query: string)
    ensures |params| == 0 ==> query == ""
    ensures |params| >= 1 ==> EncodePair(params[0], encode) <= query
    ensures |params| >= 2 ==> '&' in query
  {
    Text.Join(EncodePairs(params, encode), '&')
  }

  /** The URL the browser is redirected to so the user can authorize the application. */
  function AuthorizationUrl(auth: RedditAuth, state: string, encode: string -> string): (url: string)
    ensures AUTHORIZE_ENDPOINT <= url
  {
    AUTHORIZE_ENDPOINT + Query(AuthorizationParams(auth, state), encode)
  }

  // A reference reading of the query, as the authorization server parses it:
  // split on `&`, split each piece on `=`, and decode both halves.

  /** Reads one `key=value` piece; a piece without exactly one `=` is malformed. */
  function DecodePair(piece: string, decode: string -> string): (p: Option<Param>)
    ensures p.Some? ==> |Text.Split(piece, '=')| == 2
  {
    var halves := Text.Split(piece, '=');
    if |halves| == 2 then Some((decode(halves[0]), decode(halves[1]))) else None
  }

  /** Reads every piece, failing if any piece is malformed. */
  function DecodePairs(pieces: seq<string>, decode: string -> string): (params: Option<seq<Param>>)
    ensures params.Some? ==> |params.value| == |pieces|
  {
    if |pieces| == 0 then Some([])
    else
      match (DecodePair(pieces[0], decode), DecodePairs(pieces[1..], decode))
      case (Some(p), Some(ps)) => Some([p] + ps)
      case _ => None
  }

  /** The parameters of a query string. */
  function ParseQuery(query: string, decode: string -> string): Option<seq<Param>> {
    DecodePairs(Text.Split(query, '&'), decode)
  }

  /** The parameters of a URL at the authorization endpoint; `None` for any other URL. */
  function ParseAuthorizationUrl(url: string, decode: string -> string): (params: Option<seq<Param>>)
    ensures !(AUTHORIZE_ENDPOINT <= url) ==> params == None
  {
    if AUTHORIZE_ENDPOINT <= url then ParseQuery(url[|AUTHORIZE_ENDPOINT|..], decode) else None
  }

  /** The value a URL carries for a key, as the authorization server reads it. */
  function QueryValue(url: string, key: string, decode: string -> string): Option<string> {
    match ParseAuthorizationUrl(url, decode)
    case None => None
    case Some(params) => Lookup(params, key)
  }

  /** `decode` undoes `encode`. */
  ghost predicate Inverts(encode: string -> string, decode: string -> string) {
    forall s :: decode(encode(s)) == s
  }

  /** `encode` never writes the two delimiters of a query. */
  ghost predicate EscapesDelimiters(encode: string -> string) {
    forall s :: '&' !in encode(s) && '=' !in encode(s)
  }

  /** The authorization request has the five keys, in this order, each once. */
  lemma ParamsKeysInOrder(auth: RedditAuth, state: string)
    ensures Keys(AuthorizationParams(auth, state)) == PARAM_KEYS
    ensures DistinctKeys(AuthorizationParams(auth, state))
  {
  }

  /**
   * The values sent: the configured client id and redirect URI and the given
   * state unchanged, `code` as response type, and the scopes joined by spaces.
   */
  lemma ParamsValues(auth: RedditAuth, state: string)
    ensures var params := AuthorizationParams(auth, state);
      && Lookup(params, "client_id") == Some(auth.clientId)
      && Lookup(params, "response_type") == Some("code")
      && Lookup(params, "state") == Some(state)
      && Lookup(params, "redirect_uri") == Some(auth.redirectUri)
      && Lookup(params, "scope") == Some(Text.Join(auth.scopes, ' '))
  {
    var params := AuthorizationParams(auth, state);
    ParamsKeysInOrder(auth, state);
    forall i | 0 <= i < |params|
      ensures Lookup(params, params[i].0) == Some(params[i].1)
    {
      LookupDistinct(params, i);
    }
    assert params[2] == ("state", state);
    assert params[3] == ("redirect_uri", auth.redirectUri);
    assert params[4] == ("scope", Text.Join(auth.scopes, ' '));
  }

  /** The scope parameter splits back into the configured scope list. */
  lemma ScopeParameterSplits(auth: RedditAuth, state: string)
    requires ValidScopes(auth.scopes)
    ensures var scope := Lookup(AuthorizationParams(auth, state), "scope");
      scope.Some? && Text.Split(scope.value, ' ') == auth.scopes
  {
    ParamsValues(auth, state);
    forall i | 0 <= i < |auth.scopes|
      ensures ' ' !in auth.scopes[i]
    {
      ScopeTokenHasNoSpace(auth.scopes[i]);
    }
    Text.SplitJoin(auth.scopes, ' ');
  }

  /** The start-up configuration requests `identity read history mysubreddits`. */
  lemma DefaultScopeParameter(clientId: string, clientSecret: string, redirectUri: string, state: string)
    ensures Lookup(AuthorizationParams(NewRedditAuth(clientId, clientSecret, redirectUri), state), "scope")
      == Some("identity read history mysubreddits")
  {
    ParamsValues(NewRedditAuth(clientId, clientSecret, redirectUri), state);
  }

  /** Each `key=value` piece reads back as its parameter. */
  lemma DecodePairOfEncoded(p: Param, encode: string -> string, decode: string -> string)
    requires Inverts(encode, decode)
    requires EscapesDelimiters(encode)
    ensures DecodePair(EncodePair(p, encode), decode) == Some(p)
  {
    assert '=' !in encode(p.0) && '=' !in encode(p.1);
  }

  /** The pieces of a parameter list read back as that list. */
  lemma {:induction false} DecodePairsOfEncoded(params: seq<Param>, encode: string -> string, decode: string -> string)
    requires Inverts(encode, decode)
    requires EscapesDelimiters(encode)
    ensures DecodePairs(EncodePairs(params, encode), decode) == Some(params)
  {
    if |params| > 0 {
      var pieces := EncodePairs(params, encode);
      assert pieces[1..] == EncodePairs(params[1..], encode);
      DecodePairOfEncoded(params[0], encode, decode);
      DecodePairsOfEncoded(params[1..], encode, decode);
      assert [params[0]] + params[1..] == params;
    }
  }

  /** Reading a non-empty query back gives the parameters it was built from. */
  lemma QueryRoundTrip(params: seq<Param>, encode: string -> string, decode: string -> string)
    requires |params| >= 1
    requires Inverts(encode, decode)
    requires EscapesDelimiters(encode)
    ensures ParseQuery(Query(params, encode), decode) == Some(params)
  {
    var pieces := EncodePairs(params, encode);
    forall i | 0 <= i < |pieces|
      ensures '&' !in pieces[i]
    {
      assert '&' !in encode(params[i].0) && '&' !in encode(params[i].1);
    }
    Text.SplitJoin(pieces, '&');
    DecodePairsOfEncoded(params, encode, decode);
  }

  /** The authorization server reads back exactly the five parameters, in order. */
  lemma AuthorizationUrlRoundTrip(auth: RedditAuth, state: string, encode: string -> string, decode: string -> string)
    requires Inverts(encode, decode)
    requires EscapesDelimiters(encode)
    ensures ParseAuthorizationUrl(AuthorizationUrl(auth, state, encode), decode) == Some(AuthorizationParams(auth, state))
  {
    var url := AuthorizationUrl(auth, state, encode);
    assert url[|AUTHORIZE_ENDPOINT|..] == Query(AuthorizationParams(auth, state), encode);
    QueryRoundTrip(AuthorizationParams(auth, state), encode, decode);
  }

  /** What the authorization server reads from the URL, key by key. */
  lemma AuthorizationUrlValues(auth: RedditAuth, state: string, encode: string -> string, decode: string -> string)
    requires Inverts(encode, decode)
    requires EscapesDelimiters(encode)
    ensures var url := AuthorizationUrl(auth, state, encode);
      && QueryValue(url, "client_id", decode) == Some(auth.clientId)
      && QueryValue(url, "response_type", decode) == Some("code")
      && QueryValue(url, "state", decode) == Some(state)
      && QueryValue(url, "redirect_uri", decode) == Some(auth.redirectUri)
      && QueryValue(url, "scope", decode) == Some(Text.Join(auth.scopes, ' '))
  {
    AuthorizationUrlRoundTrip(auth, state, encode, decode);
    ParamsValues(auth, state);
  }
}
