# Touch Grass: the index and the Reddit authorization URL

This project models the two computational parts of the "please touch grass"
web application and proves properties of them in Dafny:

- **The Touch Grass Index** (`TouchGrass`, `touch_grass.dfy`). The app
  fetches three Reddit listings for a user: their comments, their subscribed
  subreddits and their submitted posts. It scores the user as
  `max(0, 100 - (comments + posts) + subreddits)`. A listing is a datatype
  holding its `children` sequence. Only the lengths of those sequences are
  read.
- **The OAuth authorization URL** (`Auth`, `reddit_auth.dfy`). The client
  configuration is the `RedditAuth` datatype. It holds the client id, client
  secret and redirect URI, which are passed in rather than read from the
  environment, plus the fixed scope list `identity read history
  mysubreddits`. `AuthorizationUrl` builds the authorization-code request of
  section 4.1.1 of RFC 6749. It is the endpoint
  `https://www.reddit.com/api/v1/authorize?` followed by the form-encoded
  query. The query holds `client_id`, `response_type=code`, `state`,
  `redirect_uri` and `scope`, in that order. The scope value is the scope
  list joined by single spaces, as section 3.3 of RFC 6749 requires.
  Python's `urlencode` encodes each key and each value, writes `key=value`,
  and joins the pairs with `&`. The model follows that shape. The
  per-string percent-encoding is left uninterpreted: it is the function-typed
  parameter `encode`.
- **Joining and splitting** (`Text`, `text.dfy`). These model Python's
  `sep.join` and `str.split(sep)`. Each is proved to undo the other.

Each operation has a partner and an all-inputs lemma linking the two:

- The index is characterised as the clamp of the unclamped score. Lemmas
  cover the exact and clamped regimes, the bounds, monotonicity, the
  comment/post symmetry, and independence from the listings' contents.
- The URL has a reference parser, `ParseAuthorizationUrl`. It splits on `&`,
  then on `=`, then decodes both halves. Two assumptions are needed: `decode`
  inverts `encode`, and `encode` never writes `&` or `=`. Under them, parsing
  the built URL gives back exactly the five parameters, in order.
  `AuthorizationUrlValues` then reads each value back: the configured client
  id and redirect URI, the given state, `code`, and the joined scopes.
  `ScopeParameterSplits` shows that the scope value splits back into the
  scope list.

The order of the index function's Python arguments (comments, subreddits,
posts) is kept in `TouchGrassIndex`.

The code does not contain any of the following:

- it has no state registry: `callback` receives `state` but never checks it
  (app/main.py:78-79);
- it never calls `refresh_token`, and it keeps no sessions;
- it computes no average score and no hourly activity histogram.

None of these is modelled.

## Model

| member | source | states |
|---|---|---|
| `TouchGrass.ComputeIndex` | app/main.py:16 | the index is a natural number, at least the unclamped score `100 - (comments + posts) + subreddits`, equal to either 0 or that score, and at most `100 + subreddits` |
| `TouchGrass.TouchGrassIndex` | app/main.py:10-17 | the index reads only the three children-list lengths and is the clamp of the unclamped score: at least it, equal to 0 or to it, and at most 100 + subreddits; its other properties are stated by the lemmas from `IndexExact` to `CommentsAndPostsSymmetric` |
| `TouchGrass.IndexExact` | app/main.py:10-17 | if comments + posts <= 100 + subreddits, the index is exactly `100 - (comments + posts) + subreddits` |
| `TouchGrass.IndexClamped` | app/main.py:16 | if comments + posts > 100 + subreddits, the index is 0, never negative |
| `TouchGrass.IndexBounds` | app/main.py:16 | the index lies between 0 and 100 + subreddits |
| `TouchGrass.IndexOfEmpty` | app/main.py:11-16 | three empty listings give the index 100 |
| `TouchGrass.IndexIgnoresContents` | app/main.py:11-13 | listings whose children lists have equal lengths give equal indexes, whatever the entries |
| `TouchGrass.MoreCommentsNeverRaise` | app/main.py:16 | appending one comment never raises the index |
| `TouchGrass.MorePostsNeverRaise` | app/main.py:16 | appending one post never raises the index |
| `TouchGrass.MoreSubredditsNeverLower` | app/main.py:16 | appending one subreddit never lowers the index |
| `TouchGrass.CommentsAndPostsSymmetric` | app/main.py:16 | exchanging the comments and posts listings leaves the index unchanged |
| `TouchGrass.IndexExamples` | app/main.py:16 | (0,0,0) gives 100, (150,0,0) gives 0, (10,5,3) gives 88 |
| `Text.Join` | app/auth/reddit.py:27 | joining no words gives the empty string; two or more words put the separator in; the first word is a prefix of the result |
| `Text.Split` | app/auth/reddit.py:27 | the pieces are at least one and none contains the separator; a string without the separator splits into itself |
| `Text.SplitJoin` | app/auth/reddit.py:27 | splitting a non-empty list of separator-free words, once joined, gives back exactly that list |
| `Text.JoinSplit` | app/auth/reddit.py:27 | joining the pieces of any string gives back that string |
| `Auth.NewRedditAuth` | app/auth/reddit.py:10-19 | the configuration keeps the given client id, secret and redirect URI; its scopes are the four fixed ones, each an RFC 6749 scope-token, and they join to `identity read history mysubreddits` |
| `Auth.AuthorizationParams` | app/auth/reddit.py:22-28 | the parameter dict has keys `client_id`, `response_type`, `state`, `redirect_uri`, `scope` in that order, and `response_type` is `code`; its values are stated by `ParamsKeysInOrder` and `ParamsValues` |
| `Auth.EncodePair` | app/auth/reddit.py:29 | one `key=value` piece: if neither encoded half contains `=`, splitting on `=` gives back exactly the two encoded halves; if neither contains `&`, the piece has no `&` |
| `Auth.EncodePairs` | app/auth/reddit.py:29 | one encoded piece per parameter; the round trip is stated by `QueryRoundTrip` |
| `Auth.Query` | app/auth/reddit.py:29 | the `&`-join of the pieces: empty for no parameters, starting with the first piece, containing `&` once there are two or more; the round trip is stated by `QueryRoundTrip` |
| `Auth.AuthorizationUrl` | app/auth/reddit.py:29 | the URL always begins with `https://www.reddit.com/api/v1/authorize?` |
| `Auth.ParamsKeysInOrder` | app/auth/reddit.py:22-28 | the request has exactly the keys `client_id`, `response_type`, `state`, `redirect_uri`, `scope`, in that order, each once |
| `Auth.ParamsValues` | app/auth/reddit.py:22-28 | the values are the configured client id, `code`, the given state, the configured redirect URI, and the scopes joined by spaces, all unchanged before encoding |
| `Auth.ScopeParameterSplits` | app/auth/reddit.py:27 | for any list of valid scope tokens, the scope value splits on spaces back into that list |
| `Auth.DefaultScopeParameter` | app/auth/reddit.py:14-19 | with the start-up scopes the scope value is `identity read history mysubreddits` |
| `Auth.QueryRoundTrip` | app/auth/reddit.py:29 | if decoding inverts encoding and encoding never writes `&` or `=`, parsing a non-empty encoded query gives back its parameter list |
| `Auth.AuthorizationUrlRoundTrip` | app/auth/reddit.py:21-29 | under the same two assumptions, parsing the authorization URL gives back exactly the five parameters, in order |
| `Auth.AuthorizationUrlValues` | app/auth/reddit.py:21-29 | under the same assumptions, the URL carries the configured client id and redirect URI, `response_type=code`, the given state and the joined scopes |

## Left out

- HTTP calls: fetching comments, subreddits and posts (app/main.py:39-63), and `get_token`, `refresh_token` and `get_user_info` (app/auth/reddit.py:31-77). These are network I/O, and their "return None unless status 200" branches depend on responses the model cannot see.
- Image generation: `generate_touch_grass_card` (app/main.py:20-36) draws with PIL and writes a file.
- Web routes and templates: `read_root`, `callback` and `generate_card` (app/main.py:66-105) are routing glue. The routes call `get_authorization_url` and `get_token` as module functions, while they are defined as methods of `RedditAuth`. The model uses the methods.
- Randomness: the state comes from `uuid.uuid4()` (app/main.py:72). It is a parameter of `AuthorizationUrl`.
- Environment: `dotenv` and `os.getenv` (app/auth/reddit.py:7, 11-13) are replaced by the parameters of `NewRedditAuth`. The model's values are strings. It does not model `getenv` returning `None`, which `urlencode` would write as the text `None`.
- Percent-encoding: the safe-character set of `urlencode`'s `quote_plus` is not modelled. It is the uninterpreted parameter `encode`. Properties that need it assume only that a `decode` inverts it and that it escapes `&` and `=`.
- Malformed payloads: a listing without `data` or `children` raises `KeyError` in the source. The model's `Listing` always has a children list.
- Entry contents: listing entries are reduced to a kind and a name, because the index never reads them.
