/**
 * How the caching decorator names a cache entry: the key prefix followed by
 * the printed values of the keyword arguments, except the database session,
 * joined with "-". Positional arguments are not an input of the key at all.
 */
module CacheKeys {

  const Separator := "-"

  /** The keyword argument that carries the database session; it never enters a key. */
  const SessionArgument := "db_session"

  /** The values, in call order, of the keyword arguments other than the session. */
  function KeyValues(kwargs: seq<(string, string)>): (vs: seq<string>)
    ensures |vs| <= |kwargs|
    ensures forall i :: 0 <= i < |kwargs| && kwargs[i].0 != SessionArgument ==> kwargs[i].1 in vs
    ensures forall v :: v in vs ==>
              exists i :: 0 <= i < |kwargs| && kwargs[i].0 != SessionArgument && kwargs[i].1 == v
  {
    if kwargs == [] then []
    else
      var rest := KeyValues(kwargs[1..]);
      assert forall i :: 1 <= i < |kwargs| ==> kwargs[i] == kwargs[1..][i - 1];
      (if kwargs[0].0 == SessionArgument then [] else [kwargs[0].1]) + rest
  }

  /** `sep.join(parts)`. */
  function Join(parts: seq<string>, sep: string): (s: string)
    ensures |parts| == 1 ==> s == parts[0]
    ensures |parts| > 1 ==> parts[0] + sep <= s
  {
    if |parts| == 0 then ""
    else if |parts| == 1 then parts[0]
    else parts[0] + sep + Join(parts[1..], sep)
  }

  /** Joining two non-empty lists of parts puts one separator between their joins. */
  lemma {:induction false} JoinAppend(a: seq<string>, b: seq<string>, sep: string)
    requires |a| > 0 && |b| > 0
    ensures Join(a + b, sep) == Join(a, sep) + sep + Join(b, sep)
  {
    assert (a + b)[1..] == a[1..] + b;
    if |a| > 1 {
      JoinAppend(a[1..], b, sep);
    }
  }

  /** The cache key of one call of a decorated function. */
  function CacheKey(prefix: string, kwargs: seq<(string, string)>): (key: string)
    ensures prefix <= key
    ensures KeyValues(kwargs) == [] ==> key == prefix
  {
    Join([prefix] + KeyValues(kwargs), Separator)
  }

  /** Each further non-session keyword argument appends a dash and its value, in call order. */
  lemma CacheKeyAppend(prefix: string, a: seq<(string, string)>, b: seq<(string, string)>)
    requires KeyValues(b) != []
    ensures CacheKey(prefix, a + b) == CacheKey(prefix, a) + Separator + Join(KeyValues(b), Separator)
  {
    KeyValuesAppend(a, b);
    assert [prefix] + KeyValues(a + b) == ([prefix] + KeyValues(a)) + KeyValues(b);
    JoinAppend([prefix] + KeyValues(a), KeyValues(b), Separator);
  }

  /** Filtering the keyword arguments distributes over concatenation. */
  lemma {:induction false} KeyValuesAppend(a: seq<(string, string)>, b: seq<(string, string)>)
    ensures KeyValues(a + b) == KeyValues(a) + KeyValues(b)
  {
    if a == [] {
      assert a + b == b;
    } else {
      assert (a + b)[1..] == a[1..] + b;
      KeyValuesAppend(a[1..], b);
    }
  }

  /** Passing the session by keyword, anywhere in the call, does not change the key. */
  lemma SessionNeverInKey(prefix: string, before: seq<(string, string)>, session: string,
                          after: seq<(string, string)>)
    ensures CacheKey(prefix, before + [(SessionArgument, session)] + after)
         == CacheKey(prefix, before + after)
  {
    var sessionArg := [(SessionArgument, session)];
    assert KeyValues(sessionArg[1..]) == [];
    assert KeyValues(sessionArg) == [];
    KeyValuesAppend(before + sessionArg, after);
    KeyValuesAppend(before, sessionArg);
    KeyValuesAppend(before, after);
    assert KeyValues(before + sessionArg) == KeyValues(before);
    assert [prefix] + KeyValues(before + sessionArg + after) == [prefix] + KeyValues(before + after);
  }

  /** A call with one keyword argument besides the session is keyed `prefix-value`. */
  lemma SingleArgumentKey(prefix: string, name: string, value: string)
    requires name != SessionArgument
    ensures CacheKey(prefix, [(name, value)]) == prefix + Separator + value
  {
    var kwargs := [(name, value)];
    assert KeyValues(kwargs[1..]) == [];
    assert KeyValues(kwargs) == [value];
    assert [prefix] + [value] == [prefix, value];
    assert Join([prefix, value], Separator) == prefix + Separator + Join([value], Separator);
  }
}
