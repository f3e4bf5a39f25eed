# URL shortener: cache-aside lookups, token creation and endpoints

This project models the core of a small URL-shortening service. The service
stores rows `(id, original_url, short_url)` in one SQL table, where both URL
columns are unique. It answers three HTTP endpoints:

- `POST /urls/` returns the row already stored for an original URL, or
  inserts a new row with a random six-character token.
- `GET /{short_url}` returns the row of a token, or 404.
- `GET /{short_url}/redirect` answers a 307 redirect to the original URL, or 404.

Both lookups go through a cache-aside decorator backed by a key-value store.
The decorator derives a key from a prefix and the keyword arguments, leaving
out the session. On a miss it queries the table and writes the serialised
row with a 30-second expiry, but only when a row was found. On a hit it
rebuilds the row from the cached payload.

Modules, one per concern:

- `Wrappers`: `Option` and `Result`.
- `Records`: the row, the column map that the cache stores for it, and its
  serialise/deserialise pair.
- `CacheKeys`: the decorator's key derivation (`key_prefix` plus the
  non-session keyword values, joined with `-`).
- `Tokens`: the 62-character alphabet and the token drawn from it.
- `Queries`: the two lookups (their prefix, expiry, keyword arguments and
  first-match query) and the uniqueness of cache keys.
- `Storage`: the class `UrlStore`, holding the table, the next id and the
  cache as fields. Its methods update them in place. It also holds the
  coherence invariant between cache and table, and the lemmas that keep it.
- `Api`: the three endpoints as methods on a `UrlStore`, plus two client
  scenarios taken from the service's tests.

The central invariant is `UrlStore.Valid()`, which has three parts:

- The table has increasing positive ids, unique columns and well-shaped tokens.
- Every cache entry whose key names a lookup holds the serialised row that
  this lookup finds in the table (`Coherent`).
- Every cache entry holds the serialisation of some table row (`FromTable`).

Every method keeps the invariant. From it follows that a cache hit gives
exactly what a database query would give.

## Model

| member | source | states |
|---|---|---|
| Records.Serialise | app/cache/url_shortener.py:33-36 | the cached object has exactly one entry per column of `urls` |
| Records.Deserialise | app/cache/url_shortener.py:39-42 | a row rebuilt from a payload is the row that serialises to that payload |
| Records.DeserialiseSerialise | app/cache/url_shortener.py:34-42 | a row written to the cache and read back comes back unchanged, all three fields |
| Records.DeserialiseRejectsOnlyForeign | app/cache/url_shortener.py:39-42 | rebuilding fails only on payloads that no row serialises to |
| CacheKeys.KeyValues | app/cache/url_shortener.py:24 | the key values are exactly the values of the non-session keyword arguments |
| CacheKeys.Join | app/cache/url_shortener.py:25 | joining one part gives that part; joining several starts with the first part followed by the separator |
| CacheKeys.JoinAppend | app/cache/url_shortener.py:25 | joining two non-empty lists of parts is their joins with one separator between them |
| CacheKeys.CacheKey | app/cache/url_shortener.py:24-25 | every key starts with the decorator's prefix, and is the bare prefix when there is no non-session keyword argument |
| CacheKeys.CacheKeyAppend | app/cache/url_shortener.py:24-25 | further non-session keyword arguments extend the key by a dash and their values joined with dashes, in call order |
| CacheKeys.KeyValuesAppend | app/cache/url_shortener.py:24 | filtering keyword arguments distributes over concatenation |
| CacheKeys.SessionNeverInKey | app/cache/url_shortener.py:23-24 | a `db_session` keyword argument, wherever it is passed, leaves the key unchanged |
| CacheKeys.SingleArgumentKey | app/cache/url_shortener.py:24-25 | a call with one non-session keyword argument is keyed `prefix-value` |
| Tokens.CharRange | app/database/crud.py:76 | the ASCII ranges that make up `ascii_letters` and `digits` have the right length and characters |
| Tokens.Draw | app/database/crud.py:76 | every drawn token has six characters, each an ASCII letter or digit |
| Tokens.AlphabetIsAlphanumeric | app/database/crud.py:76 | the alphabet has 62 characters, and a character is in it if and only if it is an ASCII letter or digit |
| Tokens.PositionInAlphabet | app/database/crud.py:76 | every ASCII letter or digit stands at some position of the alphabet |
| Tokens.EveryTokenCanBeDrawn | app/database/crud.py:76 | every six-character alphanumeric string is the outcome of some draw |
| Queries.Query.Kwargs | app/api/url_shortener.py:28 | the keyword arguments of a lookup call; with the session left out, exactly one value remains: the token or the original URL (the read and redirect calls pass the session by keyword, lines 52 and 76) |
| Queries.CacheKeyOfLookup | app/database/crud.py:24-25 | the decorator's key for a lookup call is `url_by_short_url-<token>` or `url_by_original_url-<url>`, with the session left out |
| Queries.Find | app/database/crud.py:40 | a lookup returns a row of the table that matches its filter, and returns None if and only if no row matches |
| Queries.FindIsFirst | app/database/crud.py:59 | the row returned by `.first()` is the first match in table order |
| Queries.FindAppend | app/database/crud.py:78-79 | inserting a row changes a lookup only when nothing matched before and the new row matches |
| Queries.FindUnique | app/database/models.py:9-10 | with unique columns, a lookup finds the one matching row |
| Queries.KeysNeverCollide | app/database/crud.py:24-25 | a token lookup and a URL lookup never share a cache key |
| Queries.KeyOfInjective | app/database/crud.py:43-44 | a cache key names exactly one lookup |
| Storage.Live | app/cache/url_shortener.py:26-28 | `store.get` returns a payload only for a key that is present; how long a stored key stays live is stated by `Storage.FilledEntryExpires` |
| Storage.AfterLookup | app/cache/url_shortener.py:26-36 | one call changes at most the lookup's own key; that key is present afterwards if and only if it was present before or the query found a row |
| Storage.FilledEntryExpires | app/cache/url_shortener.py:36 | a row stored on a miss at time `now` is served from the cache at a later time if and only if that time is before `now + 30` |
| Storage.AfterLookupCases | app/cache/url_shortener.py:26-44 | a live entry leaves the cache unchanged; a miss that finds a row writes it with a 30-second expiry; a miss that finds nothing writes nothing |
| Storage.HitAgreesWithTable | app/cache/url_shortener.py:39-42 | under coherence, a cache hit decodes to exactly the row the query would return |
| Storage.NoNegativeCaching | app/cache/url_shortener.py:33 | under coherence, a lookup that finds nothing has no cache entry and leaves the cache unchanged |
| Storage.FillKeepsCoherent | app/cache/url_shortener.py:33-36 | writing the found row under its key keeps the cache coherent with the table |
| Storage.LookupKeepsCoherent | app/cache/url_shortener.py:26-44 | a cached lookup, hit or miss, keeps the cache coherent with the table |
| Storage.InsertKeepsCoherent | app/database/crud.py:78-79 | inserting a row with fresh column values keeps existing cache entries correct |
| Storage.InsertKeepsUnique | app/database/models.py:9-10 | inserting a row whose URL and token are both new keeps both columns unique |
| Storage.InsertKeepsTableValid | app/database/crud.py:76-80 | inserting a row with the next id, a drawn token and fresh columns keeps the table invariant |
| Storage.StoredRowIsFound | app/database/crud.py:40 | in a valid table, the lookups by a row's token and by its URL find that row, and its token has the generated shape |
| Storage.CacheHoldsTableRows | app/cache/url_shortener.py:39-42 | every cache entry decodes to a row of the table |
| Storage.UrlStore.constructor | app/database/crud.py:14-21 | a new store has an empty table, an empty cache, and the invariant holds |
| Storage.UrlStore.CachedLookup | app/cache/url_shortener.py:22-44 | the result equals the database query, and the cache becomes its cache-aside update; the table is read only on a miss |
| Storage.UrlStore.GetUrlByShortUrl | app/database/crud.py:24-40 | the row with this token, or None if and only if no row has it, through the cache |
| Storage.UrlStore.GetUrlByOriginalUrl | app/database/crud.py:43-59 | the row with this URL, or None if and only if no row has it, through the cache |
| Storage.UrlStore.CreateUrl | app/database/crud.py:62-81 | appends a row with the next id and the drawn token, or fails with a unique violation, inserts nothing and uses up one id; the cache is untouched |
| Api.CreateUrl | app/api/url_shortener.py:13-31 | an existing row for the URL is returned unchanged; otherwise one new row is inserted, or a token collision fails with nothing inserted; every success can be found by its token |
| Api.ReadUrl | app/api/url_shortener.py:34-56 | the row with the token, or a 404 "URL not found" if and only if no row has it; the table is unchanged |
| Api.RedirectUrl | app/api/url_shortener.py:59-79 | a 307 to the original URL of the token's row, or a 404 when no row has it |
| Api.CreateThenResolve | app/tests/test_url_shortener.py:11-24 | after a successful create, reading the token gives the created row and redirecting leads to the original URL with status 307 |
| Api.ReadTwice | app/tests/test_url_shortener.py:39-47 | a second read, served from the cache or not, answers the same as the first |
| Api.CreateTwice | app/api/url_shortener.py:18-19 | creating the same URL twice returns the same row when the first create succeeds; the two calls together add at most one row in every case |

## Left out

- HTTP, FastAPI routing, response models, metrics and logging (`app/main.py`,
  the `logger` calls). An endpoint's answer is a `Result` whose error carries
  the status and detail.
- Settings, engine and session handling (`app/settings.py`,
  `app/database/session.py`, `app/database/__init__.py`). The session is a
  keyword value that prints as a fixed text.
- The Redis client and SQLAlchemy are modelled as the store's fields: the
  cache as a map from key to payload and expiry, and the table as a sequence
  of rows in insertion order. `.first()` returns the first match in that
  order. Under the unique columns there is at most one match.
- Records.Serialise: the cached value is modelled as the column map before
  `json.dumps`. The JSON text and its UTF-8 bytes are not modelled.
- Records.Deserialise: returns None on a payload that no row serialises to.
  The source would raise or build a partial object there. Only payloads
  written by the model ever reach it.
- Storage.UrlStore.CachedLookup: expiry is driven by a `now` parameter in
  seconds, and an entry is live while `now < expiresAt`. Redis's clock,
  eviction under memory pressure and `setex` failures are not modelled.
- Tokens.Draw: the random choices are an input (six positions in the
  alphabet). Uniformity and independence of `random.choices` are not modelled.
- Storage.UrlStore.CreateUrl: id assignment is modelled as PostgreSQL's
  sequence, the configured database (`app/settings.py:18-19`). The counter
  `nextId` advances on every insert attempt, including one refused by a
  unique constraint, so ids may skip. The SQLite database of the tests
  assigns the next id after the largest one instead and does not skip. The
  rollback and session state after the exception are not modelled.
- Positional arguments never enter a cache key in the source, so a lookup's
  key arguments are only its keyword arguments.
- Concurrency: two requests racing on the same URL or token, and cache
  writes interleaving with inserts.
- The Pydantic schemas `URLCreate` and `URL` (`app/models/url_shortener.py`)
  and URL validation are not modelled. Any string is accepted as an original
  URL, as in the code.
- `init_db` (table creation) is represented only by the store's constructor.
- Storage.UrlStore.constructor: the table and the cache start empty
  together, and rows are never deleted. The coherence invariant, and with
  it the fact that a hit answers as the table does, rests on this. The
  source keeps the cache and the database independent. A cache that
  outlives its table (the test fixture drops the table after each test,
  `app/tests/conftest.py:40`) could serve rows the table no longer has.
- Where the service's description promises more than the code does, the
  model follows the code. Nothing falls back to the database when the cache
  is unreachable. A token collision is not retried: it surfaces as a server
  error (`ServerError(UniqueViolation)`).
