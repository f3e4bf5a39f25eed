/**
 * The state behind the service: the `urls` table and the cache in front of
 * it, with the caching decorator's `wrapped` and the database layer's three
 * operations as methods on it.
 */
module Storage {
  import opened Wrappers
  import opened Records
  import opened CacheKeys
  import opened Tokens
  import opened Queries

  /** A cached payload and the time, in seconds, at which the cache drops it. */
  datatype Entry = Entry(payload: Payload, expiresAt: int)

  /** The database refuses an insert that repeats a value of a unique column. */
  datatype DbError = UniqueViolation

  /** `store.get(key)` at time `now` returns a payload: the key is set and has not expired. */
  function Live(cache: map<string, Entry>, key: string, now: int): (live: bool)
    ensures live ==> key in cache
  {
    key in cache && now < cache[key].expiresAt
  }

  /**
   * Ids are positive, below the next id to assign and increasing; URL
   * columns are unique; every token has the shape the generator gives it.
   */
  ghost predicate TableValid(rows: seq<Record>, nextId: int)
  {
    && 0 < nextId
    && (forall i :: 0 <= i < |rows| ==> 0 < rows[i].id < nextId)
    && (forall i, j :: 0 <= i < j < |rows| ==> rows[i].id < rows[j].id)
    && UniqueColumns(rows)
    && (forall i :: 0 <= i < |rows| ==> IsToken(rows[i].shortUrl))
  }

  /**
   * A cached lookup answers as the table does: when the key of a lookup is
   * in the cache, the lookup finds a row and the entry holds that row's payload.
   */
  ghost predicate Coherent(cache: map<string, Entry>, rows: seq<Record>)
  {
    forall q :: KeyOf(q) in cache ==>
      Find(rows, q).Some? && cache[KeyOf(q)].payload == Serialise(Find(rows, q).value)
  }

  /** Every cache entry holds the payload of a row of the table. */
  ghost predicate FromTable(cache: map<string, Entry>, rows: seq<Record>)
  {
    forall k :: k in cache ==> exists i :: 0 <= i < |rows| && cache[k].payload == Serialise(rows[i])
  }

  /** The cache after one call of a cached lookup at time `now`. */
  function AfterLookup(cache: map<string, Entry>, rows: seq<Record>, q: Query, now: int): (after: map<string, Entry>)
    ensures forall k :: k in cache && k != KeyOf(q) ==> k in after && after[k] == cache[k]
    ensures forall k :: k in after ==> k in cache || k == KeyOf(q)
    ensures KeyOf(q) in after <==> KeyOf(q) in cache || Find(rows, q).Some?
  {
    var key := KeyOf(q);
    if Live(cache, key, now) then cache
    else
      match Find(rows, q)
      case Some(r) => cache[key := Entry(Serialise(r), now + q.Expiration())]
      case None => cache
  }

  /** The three outcomes of a lookup for the cache: a hit, a miss that finds a row, a miss that finds none. */
  lemma AfterLookupCases(cache: map<string, Entry>, rows: seq<Record>, q: Query, now: int)
    ensures Live(cache, KeyOf(q), now) ==> AfterLookup(cache, rows, q, now) == cache
    ensures !Live(cache, KeyOf(q), now) && Find(rows, q).Some? ==>
              AfterLookup(cache, rows, q, now)
              == cache[KeyOf(q) := Entry(Serialise(Find(rows, q).value), now + q.Expiration())]
    ensures !Live(cache, KeyOf(q), now) && Find(rows, q).None? ==> AfterLookup(cache, rows, q, now) == cache
  {
    var key := KeyOf(q);
    if !Live(cache, key, now) {
      match Find(rows, q)
      case Some(r) =>
        assert AfterLookup(cache, rows, q, now) == cache[key := Entry(Serialise(r), now + q.Expiration())];
      case None =>
    }
  }

  /** A row stored on a miss is served from the cache for exactly the lookup's expiry. */
  lemma FilledEntryExpires(cache: map<string, Entry>, rows: seq<Record>, q: Query, now: int, later: int)
    requires !Live(cache, KeyOf(q), now) && Find(rows, q).Some?
    ensures Live(AfterLookup(cache, rows, q, now), KeyOf(q), later) <==> later < now + q.Expiration()
  {
    AfterLookupCases(cache, rows, q, now);
  }

  /** A hit returns what the table would: the cached payload decodes to the lookup's row. */
  lemma HitAgreesWithTable(cache: map<string, Entry>, rows: seq<Record>, q: Query)
    requires Coherent(cache, rows)
    requires KeyOf(q) in cache
    ensures Find(rows, q).Some?
    ensures Deserialise(cache[KeyOf(q)].payload) == Find(rows, q)
  {
    DeserialiseSerialise(Find(rows, q).value);
  }

  /** Misses are never cached: a lookup that finds nothing has no entry and leaves the cache as it was. */
  lemma NoNegativeCaching(cache: map<string, Entry>, rows: seq<Record>, q: Query, now: int)
    requires Coherent(cache, rows)
    requires Find(rows, q).None?
    ensures KeyOf(q) !in cache
    ensures AfterLookup(cache, rows, q, now) == cache
  {
  }

  /** Storing a found row under its lookup's key keeps the cache coherent and filled from the table. */
  lemma FillKeepsCoherent(cache: map<string, Entry>, rows: seq<Record>, q: Query, expiresAt: int)
    requires Coherent(cache, rows) && FromTable(cache, rows)
    requires Find(rows, q).Some?
    ensures var after := cache[KeyOf(q) := Entry(Serialise(Find(rows, q).value), expiresAt)];
            Coherent(after, rows) && FromTable(after, rows)
  {
    var after := cache[KeyOf(q) := Entry(Serialise(Find(rows, q).value), expiresAt)];
    forall q' | KeyOf(q') in after
      ensures Find(rows, q').Some? && after[KeyOf(q')].payload == Serialise(Find(rows, q').value)
    {
      if KeyOf(q') == KeyOf(q) {
        KeyOfInjective(q', q);
      }
    }
    var i :| 0 <= i < |rows| && rows[i] == Find(rows, q).value;
    assert after[KeyOf(q)].payload == Serialise(rows[i]);
  }

  /** A cached lookup keeps the cache coherent and filled from the table. */
  lemma LookupKeepsCoherent(cache: map<string, Entry>, rows: seq<Record>, q: Query, now: int)
    requires Coherent(cache, rows) && FromTable(cache, rows)
    ensures Coherent(AfterLookup(cache, rows, q, now), rows)
    ensures FromTable(AfterLookup(cache, rows, q, now), rows)
  {
    if !Live(cache, KeyOf(q), now) && Find(rows, q).Some? {
      FillKeepsCoherent(cache, rows, q, now + q.Expiration());
    }
  }

  /** Inserting a row keeps the cache coherent: rows never change, so every cached lookup still finds its row. */
  lemma InsertKeepsCoherent(cache: map<string, Entry>, rows: seq<Record>, x: Record)
    requires Coherent(cache, rows) && FromTable(cache, rows)
    ensures Coherent(cache, rows + [x]) && FromTable(cache, rows + [x])
  {
    forall q | KeyOf(q) in cache
      ensures Find(rows + [x], q).Some? && cache[KeyOf(q)].payload == Serialise(Find(rows + [x], q).value)
    {
      FindAppend(rows, x, q);
    }
    forall k | k in cache
      ensures exists i :: 0 <= i < |rows + [x]| && cache[k].payload == Serialise((rows + [x])[i])
    {
      var i :| 0 <= i < |rows| && cache[k].payload == Serialise(rows[i]);
      assert (rows + [x])[i] == rows[i];
    }
  }

  /** A row whose URLs no row has yet keeps both URL columns unique. */
  lemma InsertKeepsUnique(rows: seq<Record>, x: Record)
    requires UniqueColumns(rows)
    requires Find(rows, ByShortUrl(x.shortUrl)).None? && Find(rows, ByOriginalUrl(x.originalUrl)).None?
    ensures UniqueColumns(rows + [x])
  {
    var rows' := rows + [x];
    forall i, j | 0 <= i < j < |rows'|
      ensures rows'[i].shortUrl != rows'[j].shortUrl && rows'[i].originalUrl != rows'[j].originalUrl
    {
      if j == |rows| {
        assert !ByShortUrl(x.shortUrl).Matches(rows[i]);
        assert !ByOriginalUrl(x.originalUrl).Matches(rows[i]);
      } else {
        assert rows'[i] == rows[i] && rows'[j] == rows[j];
      }
    }
  }

  /** Inserting a row with the next id, a generated token and URLs not yet in the table keeps the table valid. */
  lemma InsertKeepsTableValid(rows: seq<Record>, nextId: int, x: Record)
    requires TableValid(rows, nextId)
    requires x.id == nextId && IsToken(x.shortUrl)
    requires Find(rows, ByShortUrl(x.shortUrl)).None? && Find(rows, ByOriginalUrl(x.originalUrl)).None?
    ensures TableValid(rows + [x], nextId + 1)
  {
    InsertKeepsUnique(rows, x);
    var rows' := rows + [x];
    forall i | 0 <= i < |rows'| ensures 0 < rows'[i].id < nextId + 1 && IsToken(rows'[i].shortUrl) {
      if i < |rows| {
        assert rows'[i] == rows[i];
      }
    }
    forall i, j | 0 <= i < j < |rows'| ensures rows'[i].id < rows'[j].id {
      if j < |rows| {
        assert rows'[i] == rows[i] && rows'[j] == rows[j];
      } else {
        assert rows'[i] == rows[i];
      }
    }
  }

  /** A row of a valid table is what a lookup by its token finds, and its token has the generated shape. */
  lemma StoredRowIsFound(rows: seq<Record>, nextId: int, r: Record)
    requires TableValid(rows, nextId)
    requires r in rows
    ensures Find(rows, ByShortUrl(r.shortUrl)) == Some(r)
    ensures Find(rows, ByOriginalUrl(r.originalUrl)) == Some(r)
    ensures IsToken(r.shortUrl)
  {
    FindUnique(rows, r, ByShortUrl(r.shortUrl));
    FindUnique(rows, r, ByOriginalUrl(r.originalUrl));
  }

  /** Each cache entry decodes to a row that is in the table. */
  lemma CacheHoldsTableRows(cache: map<string, Entry>, rows: seq<Record>, k: string)
    requires FromTable(cache, rows)
    requires k in cache
    ensures Deserialise(cache[k].payload).Some?
    ensures Deserialise(cache[k].payload).value in rows
  {
    var i :| 0 <= i < |rows| && cache[k].payload == Serialise(rows[i]);
    DeserialiseSerialise(rows[i]);
  }

  class UrlStore {
    /** The `urls` table, in insertion order. */
    var rows: seq<Record>
    /** The id the database assigns to the next row it inserts. */
    var nextId: int
    /** The key-value cache store, with the expiry time of each entry. */
    var cache: map<string, Entry>
    /** How many times a wrapped lookup has queried the table. */
    ghost var lookups: nat

    ghost predicate Valid()
      reads this
    {
      TableValid(rows, nextId) && Coherent(cache, rows) && FromTable(cache, rows)
    }

    /** An empty table and an empty cache. */
    constructor ()
      ensures Valid()
      ensures rows == [] && nextId == 1 && cache == map[] && lookups == 0
    {
      rows := [];
      nextId := 1;
      cache := map[];
      lookups := 0;
    }

    /**
     * `cache_result(prefix, 30)` applied to a lookup, called once. A hit
     * decodes the cached payload and does not query the table; a miss queries
     * the table once and, only when it finds a row, stores that row's payload
     * under the key for the lookup's expiry. Either way the answer is the
     * table's.
     */
    method CachedLookup(q: Query, now: int) returns (value: Option<Record>)
      requires Valid()
      modifies this
      ensures Valid()
      ensures rows == old(rows) && nextId == old(nextId)
      ensures value == Find(rows, q)
      ensures cache == AfterLookup(old(cache), rows, q, now)
      ensures Live(old(cache), KeyOf(q), now) ==>
                value == Deserialise(old(cache)[KeyOf(q)].payload) && lookups == old(lookups)
      ensures !Live(old(cache), KeyOf(q), now) ==> lookups == old(lookups) + 1
    {
      var key := CacheKey(q.Prefix(), q.Kwargs());
      CacheKeyOfLookup(q);
      AfterLookupCases(cache, rows, q, now);
      if Live(cache, key, now) {
        value := Deserialise(cache[key].payload);
        HitAgreesWithTable(cache, rows, q);
      } else {
        value := Find(rows, q);
        lookups := lookups + 1;
        if value.Some? {
          FillKeepsCoherent(cache, rows, q, now + q.Expiration());
          cache := cache[key := Entry(Serialise(value.value), now + q.Expiration())];
        }
      }
    }

    /** `get_url_by_short_url`: the row with this token, through the cache. */
    method GetUrlByShortUrl(shortUrl: string, now: int) returns (value: Option<Record>)
      requires Valid()
      modifies this
      ensures Valid()
      ensures rows == old(rows) && nextId == old(nextId)
      ensures value.Some? ==> value.value in rows && value.value.shortUrl == shortUrl
      ensures value.None? <==> forall i :: 0 <= i < |rows| ==> rows[i].shortUrl != shortUrl
      ensures value == Find(rows, ByShortUrl(shortUrl))
      ensures cache == AfterLookup(old(cache), rows, ByShortUrl(shortUrl), now)
    {
      value := CachedLookup(ByShortUrl(shortUrl), now);
    }

    /** `get_url_by_original_url`: the row for this URL, through the cache. */
    method GetUrlByOriginalUrl(originalUrl: string, now: int) returns (value: Option<Record>)
      requires Valid()
      modifies this
      ensures Valid()
      ensures rows == old(rows) && nextId == old(nextId)
      ensures value.Some? ==> value.value in rows && value.value.originalUrl == originalUrl
      ensures value.None? <==> forall i :: 0 <= i < |rows| ==> rows[i].originalUrl != originalUrl
      ensures value == Find(rows, ByOriginalUrl(originalUrl))
      ensures cache == AfterLookup(old(cache), rows, ByOriginalUrl(originalUrl), now)
    {
      value := CachedLookup(ByOriginalUrl(originalUrl), now);
    }

    /**
     * The database layer's `create_url`: draw a token and insert one row. A
     * token or URL already in the table violates a unique constraint and
     * nothing is inserted; there is no retry. The id is drawn from the
     * table's sequence before the insert is attempted, so a failed insert
     * still uses one up. The cache is neither read nor written.
     */
    method CreateUrl(originalUrl: string, picks: seq<int>) returns (result: Result<Record, DbError>)
      requires Valid()
      requires ValidPicks(picks)
      modifies this
      ensures Valid()
      ensures cache == old(cache) && lookups == old(lookups)
      ensures result.Success? ==> IsToken(result.value.shortUrl)
      ensures
        var token := Draw(picks);
        if Find(old(rows), ByShortUrl(token)).Some? || Find(old(rows), ByOriginalUrl(originalUrl)).Some?
        then result == Failure(UniqueViolation) && rows == old(rows) && nextId == old(nextId) + 1
        else
          && result == Success(Record(old(nextId), originalUrl, token))
          && rows == old(rows) + [result.value]
          && nextId == old(nextId) + 1
    {
      var token := Draw(picks);
      if Find(rows, ByShortUrl(token)).Some? || Find(rows, ByOriginalUrl(originalUrl)).Some? {
        nextId := nextId + 1;
        result := Failure(UniqueViolation);
      } else {
        var row := Record(nextId, originalUrl, token);
        InsertKeepsTableValid(rows, nextId, row);
        InsertKeepsCoherent(cache, rows, row);
        rows := rows + [row];
        nextId := nextId + 1;
        result := Success(row);
      }
    }
  }
}
