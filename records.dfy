/**
 * The one entity of the service, a row of the `urls` table, and the flat
 * field map that the cache stores for it (the JSON object written on a miss
 * and read back on a hit; the JSON text itself is not modelled).
 */
module Records {
  import opened Wrappers

  /** A row of `urls`: `id` is assigned by the database; both URL columns are unique. */
  datatype Record = Record(id: int, originalUrl: string, shortUrl: string)

  /** A value of the cached object: the table has one integer and two string columns. */
  datatype FieldValue = IntValue(i: int) | StrValue(s: string)

  /** The columns of `urls` (`id`, `original_url`, `short_url`); their names are the keys of the cached JSON object. */
  datatype Column = IdColumn | OriginalUrlColumn | ShortUrlColumn

  /** The cached object: column to column value. */
  type Payload = map<Column, FieldValue>

  /** The columns of `urls`, which are the keys of every payload the cache writes. */
  const Columns: set<Column> := {IdColumn, OriginalUrlColumn, ShortUrlColumn}

  /** The payload written on a miss: one entry per column, each holding that column's value. */
  function Serialise(r: Record): (p: Payload)
    ensures p.Keys == Columns
  {
    map[IdColumn := IntValue(r.id),
        OriginalUrlColumn := StrValue(r.originalUrl),
        ShortUrlColumn := StrValue(r.shortUrl)]
  }

  /**
   * Rebuilding a row from a payload on a hit: it succeeds exactly on the
   * payloads that some row serialises to, and then gives back that row.
   */
  function Deserialise(p: Payload): (r: Option<Record>)
    ensures r.Some? ==> Serialise(r.value) == p
  {
    if p.Keys == Columns && p[IdColumn].IntValue? && p[OriginalUrlColumn].StrValue?
       && p[ShortUrlColumn].StrValue?
    then
      var rec := Record(p[IdColumn].i, p[OriginalUrlColumn].s, p[ShortUrlColumn].s);
      assert Serialise(rec).Keys == p.Keys;
      Some(rec)
    else
      None
  }

  /** Decoding fails only on payloads that no row serialises to. */
  lemma DeserialiseRejectsOnlyForeign(p: Payload)
    requires Deserialise(p).None?
    ensures forall rec :: Serialise(rec) != p
  {
    forall rec ensures Serialise(rec) != p {
      DeserialiseSerialise(rec);
    }
  }

  /** Serialising and then deserialising loses nothing: the three fields come back unchanged. */
  lemma DeserialiseSerialise(r: Record)
    ensures Deserialise(Serialise(r)) == Some(r)
  {
  }
}
