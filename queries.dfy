/**
 * The two cached lookups of the database layer, `get_url_by_short_url` and
 * `get_url_by_original_url`: the prefix and expiry they hand to the caching
 * decorator, the keyword arguments their callers pass, and the query they run.
 */
module Queries {
  import opened Wrappers
  import opened Records
  import opened CacheKeys

  const ShortUrlPrefix := "url_by_short_url"
  const OriginalUrlPrefix := "url_by_original_url"

  /** Both lookups are decorated with an expiry of 30 seconds. */
  const LookupExpiration := 30

  /** How the session object prints; it is passed by keyword but filtered out of the key. */
  const SessionText := "<Session>"

  /** One call of a cached lookup, by the column it filters on and the value it looks for. */
  datatype Query = ByShortUrl(shortUrl: string) | ByOriginalUrl(originalUrl: string)
  {
    function Prefix(): string
    {
      match this
      case ByShortUrl(_) => ShortUrlPrefix
      case ByOriginalUrl(_) => OriginalUrlPrefix
    }

    function Argument(): string
    {
      match this
      case ByShortUrl(s) => s
      case ByOriginalUrl(o) => o
    }

    function Expiration(): int
    {
      LookupExpiration
    }

    /**
     * The keyword arguments of the call, as the callers write it: the read and
     * redirect endpoints pass the session and the token by keyword, the create
     * endpoint passes the session positionally and the URL by keyword.
     */
    function Kwargs(): (kwargs: seq<(string, string)>)
      ensures KeyValues(kwargs) == [Argument()]
    {
      match this
      case ByShortUrl(s) =>
        var kwargs := [(SessionArgument, SessionText), ("short_url", s)];
        assert KeyValues(kwargs[1..][1..]) == [];
        assert KeyValues(kwargs[1..]) == [s];
        kwargs
      case ByOriginalUrl(o) =>
        var kwargs := [("original_url", o)];
        assert KeyValues(kwargs[1..]) == [];
        kwargs
    }

    /** The filter of the query: the row's column equals the argument. */
    predicate Matches(r: Record)
    {
      match this
      case ByShortUrl(s) => r.shortUrl == s
      case ByOriginalUrl(o) => r.originalUrl == o
    }
  }

  /** The cache key of a lookup: its prefix, a dash and its argument. */
  function KeyOf(q: Query): string
  {
    q.Prefix() + Separator + q.Argument()
  }

  /** The decorator's key derivation, applied to the call's keyword arguments, gives exactly `KeyOf`. */
  lemma CacheKeyOfLookup(q: Query)
    ensures CacheKey(q.Prefix(), q.Kwargs()) == KeyOf(q)
  {
    match q
    case ByShortUrl(s) =>
      SessionNeverInKey(q.Prefix(), [], SessionText, [("short_url", s)]);
      assert [] + [(SessionArgument, SessionText)] + [("short_url", s)] == q.Kwargs();
      assert [] + [("short_url", s)] == [("short_url", s)];
      SingleArgumentKey(q.Prefix(), "short_url", s);
    case ByOriginalUrl(o) =>
      SingleArgumentKey(q.Prefix(), "original_url", o);
  }

  /**
   * `query(URL).filter(...).first()` over the rows in insertion order: the
   * first row that matches, or None when no row does.
   */
  function Find(rows: seq<Record>, q: Query): (r: Option<Record>)
    ensures r.Some? ==> q.Matches(r.value) && r.value in rows
    ensures r.None? <==> forall i :: 0 <= i < |rows| ==> !q.Matches(rows[i])
  {
    if rows == [] then None
    else if q.Matches(rows[0]) then Some(rows[0])
    else
      var r := Find(rows[1..], q);
      assert forall i :: 1 <= i < |rows| ==> rows[i] == rows[1..][i - 1];
      r
  }

  /** The row found is the first match: no earlier row matches. */
  lemma {:induction false} FindIsFirst(rows: seq<Record>, q: Query) returns (i: int)
    requires Find(rows, q).Some?
    ensures 0 <= i < |rows| && rows[i] == Find(rows, q).value
    ensures forall j :: 0 <= j < i ==> !q.Matches(rows[j])
  {
    if q.Matches(rows[0]) {
      i := 0;
    } else {
      var k := FindIsFirst(rows[1..], q);
      i := k + 1;
    }
  }

  /** Both URL columns are unique across the table. */
  ghost predicate UniqueColumns(rows: seq<Record>)
  {
    forall i, j :: 0 <= i < j < |rows| ==>
      rows[i].shortUrl != rows[j].shortUrl && rows[i].originalUrl != rows[j].originalUrl
  }

  /** Appending a row changes a lookup only when nothing matched before and the new row matches. */
  lemma {:induction false} FindAppend(rows: seq<Record>, x: Record, q: Query)
    ensures Find(rows + [x], q)
         == if Find(rows, q).Some? then Find(rows, q)
            else if q.Matches(x) then Some(x) else None
  {
    if rows == [] {
      assert rows + [x] == [x];
      assert [x][1..] == [];
    } else {
      assert (rows + [x])[1..] == rows[1..] + [x];
      FindAppend(rows[1..], x, q);
    }
  }

  /** With unique columns a lookup finds the one row that matches, whatever the row order. */
  lemma FindUnique(rows: seq<Record>, r: Record, q: Query)
    requires UniqueColumns(rows)
    requires r in rows && q.Matches(r)
    ensures Find(rows, q) == Some(r)
  {
    var k :| 0 <= k < |rows| && rows[k] == r;
    var i := FindIsFirst(rows, q);
    assert i <= k;
  }

  /** The two prefixes differ at their eighth character, so the two lookups never share a key. */
  lemma KeysNeverCollide(shortUrl: string, originalUrl: string)
    ensures KeyOf(ByShortUrl(shortUrl)) != KeyOf(ByOriginalUrl(originalUrl))
  {
    var a := KeyOf(ByShortUrl(shortUrl));
    var b := KeyOf(ByOriginalUrl(originalUrl));
    assert a[7] == ShortUrlPrefix[7] == 's';
    assert b[7] == OriginalUrlPrefix[7] == 'o';
  }

  /** A cache key names exactly one lookup. */
  lemma KeyOfInjective(q1: Query, q2: Query)
    requires KeyOf(q1) == KeyOf(q2)
    ensures q1 == q2
  {
    if q1.ByShortUrl? && q2.ByOriginalUrl? {
      KeysNeverCollide(q1.shortUrl, q2.originalUrl);
    } else if q1.ByOriginalUrl? && q2.ByShortUrl? {
      KeysNeverCollide(q2.shortUrl, q1.originalUrl);
    }
    var p := q1.Prefix() + Separator;
    assert KeyOf(q1)[|p|..] == q1.Argument();
    assert KeyOf(q2)[|p|..] == q2.Argument();
  }
}
