/**
 * The HTTP endpoints of the service as operations on the store: create a
 * short URL (idempotent on the original URL), read the row of a token, and
 * give the redirect target of a token. HTTP itself is reduced to a result or
 * an error with its status.
 */
module Api {
  import opened Wrappers
  import opened Records
  import opened Tokens
  import opened Queries
  import opened Storage

  /** What an endpoint answers instead of a row: an HTTP error, or a database error it does not catch. */
  datatype ApiError = HttpError(status: int, detail: string) | ServerError(cause: DbError)

  /** `HTTPException(status_code=404, detail="URL not found")`. */
  const NotFound := HttpError(404, "URL not found")

  /** The status `RedirectResponse` answers with when none is given. */
  const TemporaryRedirect := 307

  /** A redirect response: where it sends the client, and its status. */
  datatype Redirect = Redirect(location: string, status: int)

  /**
   * `POST /urls/`: the row already stored for this URL, found through the
   * cache, or else a newly inserted one. The table grows by at most one row;
   * only a token collision makes it fail, and then nothing is inserted.
   */
  method CreateUrl(st: UrlStore, originalUrl: string, picks: seq<int>, now: int)
    returns (result: Result<Record, ApiError>)
    requires st.Valid()
    requires ValidPicks(picks)
    modifies st
    ensures st.Valid()
    ensures st.cache == AfterLookup(old(st.cache), old(st.rows), ByOriginalUrl(originalUrl), now)
    ensures result.Success? ==> result.value.originalUrl == originalUrl && IsToken(result.value.shortUrl)
    ensures result.Success? ==> Find(st.rows, ByShortUrl(result.value.shortUrl)) == Some(result.value)
    ensures
      match Find(old(st.rows), ByOriginalUrl(originalUrl))
      case Some(existing) =>
        result == Success(existing) && st.rows == old(st.rows) && st.nextId == old(st.nextId)
      case None =>
        var token := Draw(picks);
        if Find(old(st.rows), ByShortUrl(token)).Some? then
          result == Failure(ServerError(UniqueViolation)) && st.rows == old(st.rows) && st.nextId == old(st.nextId) + 1
        else
          && result == Success(Record(old(st.nextId), originalUrl, token))
          && st.rows == old(st.rows) + [result.value]
          && st.nextId == old(st.nextId) + 1
  {
    var existing := st.GetUrlByOriginalUrl(originalUrl, now);
    if existing.Some? {
      result := Success(existing.value);
    } else {
      var created := st.CreateUrl(originalUrl, picks);
      result := match created
        case Success(row) => Success(row)
        case Failure(e) => Failure(ServerError(e));
    }
    if result.Success? {
      StoredRowIsFound(st.rows, st.nextId, result.value);
    }
  }

  /** `GET /{short_url}`: the row of the token, or 404 when no row has it. The table is not changed. */
  method ReadUrl(st: UrlStore, shortUrl: string, now: int) returns (result: Result<Record, ApiError>)
    requires st.Valid()
    modifies st
    ensures st.Valid()
    ensures st.rows == old(st.rows) && st.nextId == old(st.nextId)
    ensures st.cache == AfterLookup(old(st.cache), st.rows, ByShortUrl(shortUrl), now)
    ensures match Find(st.rows, ByShortUrl(shortUrl))
            case Some(row) => result == Success(row)
            case None => result == Failure(NotFound)
    ensures result.Success? ==> result.value in st.rows && result.value.shortUrl == shortUrl
    ensures result.Failure? <==> forall i :: 0 <= i < |st.rows| ==> st.rows[i].shortUrl != shortUrl
    ensures result.Failure? ==> result.error == NotFound
  {
    var row := st.GetUrlByShortUrl(shortUrl, now);
    if row.None? {
      result := Failure(NotFound);
    } else {
      result := Success(row.value);
    }
  }

  /** `GET /{short_url}/redirect`: a 307 to the token's original URL, or 404. The table is not changed. */
  method RedirectUrl(st: UrlStore, shortUrl: string, now: int) returns (result: Result<Redirect, ApiError>)
    requires st.Valid()
    modifies st
    ensures st.Valid()
    ensures st.rows == old(st.rows) && st.nextId == old(st.nextId)
    ensures st.cache == AfterLookup(old(st.cache), st.rows, ByShortUrl(shortUrl), now)
    ensures match Find(st.rows, ByShortUrl(shortUrl))
            case Some(row) => result == Success(Redirect(row.originalUrl, TemporaryRedirect))
            case None => result == Failure(NotFound)
  {
    var row := st.GetUrlByShortUrl(shortUrl, now);
    if row.None? {
      result := Failure(NotFound);
    } else {
      result := Success(Redirect(row.value.originalUrl, TemporaryRedirect));
    }
  }

  /**
   * A client of the endpoints: create a short URL, then read it twice and
   * follow its redirect, at any later times. Once the create succeeds, every
   * read gives the created row and the redirect leads to the original URL.
   */
  method CreateThenResolve(st: UrlStore, originalUrl: string, picks: seq<int>, t0: int, t1: int, t2: int)
    returns (created: Result<Record, ApiError>, read: Result<Record, ApiError>, redirect: Result<Redirect, ApiError>)
    requires st.Valid()
    requires ValidPicks(picks)
    modifies st
    ensures st.Valid()
    ensures created.Success? ==>
              && created.value.originalUrl == originalUrl
              && |created.value.shortUrl| == TokenLength
              && read == Success(created.value)
              && redirect == Success(Redirect(originalUrl, TemporaryRedirect))
  {
    created := CreateUrl(st, originalUrl, picks, t0);
    var token := if created.Success? then created.value.shortUrl else "";
    read := ReadUrl(st, token, t1);
    redirect := RedirectUrl(st, token, t2);
  }

  /** Reading a short URL twice gives the same answer, whether the second read is served from the cache or not. */
  method ReadTwice(st: UrlStore, shortUrl: string, t1: int, t2: int)
    returns (first: Result<Record, ApiError>, second: Result<Record, ApiError>)
    requires st.Valid()
    modifies st
    ensures st.Valid()
    ensures second == first
  {
    first := ReadUrl(st, shortUrl, t1);
    second := ReadUrl(st, shortUrl, t2);
  }

  /** Creating the same URL twice gives the same row twice, and the second call inserts nothing. */
  method CreateTwice(st: UrlStore, originalUrl: string, picks1: seq<int>, picks2: seq<int>, t1: int, t2: int)
    returns (first: Result<Record, ApiError>, second: Result<Record, ApiError>)
    requires st.Valid()
    requires ValidPicks(picks1) && ValidPicks(picks2)
    modifies st
    ensures st.Valid()
    ensures first.Success? ==> second == first
    ensures |st.rows| <= |old(st.rows)| + 1
  {
    first := CreateUrl(st, originalUrl, picks1, t1);
    if first.Success? {
      StoredRowIsFound(st.rows, st.nextId, first.value);
    }
    second := CreateUrl(st, originalUrl, picks2, t2);
  }
}
