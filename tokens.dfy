/**
 * The short token: six characters chosen by `random.choices` from
 * `string.ascii_letters + string.digits`. The random choices are an input
 * here, as the positions in that alphabet that were drawn.
 */
module Tokens {

  /** `k` of the draw: every token has this many characters. */
  const TokenLength := 6

  /** `string.ascii_lowercase`. */
  const AsciiLowercase: string := CharRange('a', 26)

  /** `string.ascii_uppercase`. */
  const AsciiUppercase: string := CharRange('A', 26)

  /** `string.digits`. */
  const Digits: string := CharRange('0', 10)

  /** The `n` consecutive characters starting at `first`. */
  function CharRange(first: char, n: nat): (s: string)
    requires first as int + n <= 0xD800
    ensures |s| == n && forall i :: 0 <= i < n ==> s[i] as int == first as int + i
  {
    if n == 0 then [] else CharRange(first, n - 1) + [(first as int + n - 1) as char]
  }

  /** The population of the draw: `ascii_letters` (lower then upper case) followed by `digits`. */
  const Alphabet: string := AsciiLowercase + AsciiUppercase + Digits

  /** An ASCII letter or digit, stated independently of the alphabet string. */
  predicate IsAsciiAlphanumeric(c: char)
  {
    'a' <= c <= 'z' || 'A' <= c <= 'Z' || '0' <= c <= '9'
  }

  predicate IsToken(s: string)
  {
    |s| == TokenLength && forall i :: 0 <= i < |s| ==> s[i] in Alphabet
  }

  /** The outcome of `random.choices(..., k=6)`: six positions in the alphabet. */
  predicate ValidPicks(picks: seq<int>)
  {
    |picks| == TokenLength && forall i :: 0 <= i < |picks| ==> 0 <= picks[i] < |Alphabet|
  }

  /** `"".join(random.choices(alphabet, k=6))` for the given choices. */
  function Draw(picks: seq<int>): (token: string)
    requires ValidPicks(picks)
    ensures IsToken(token)
    ensures forall i :: 0 <= i < |token| ==> IsAsciiAlphanumeric(token[i])
  {
    AlphabetIsAlphanumeric('a');
    var token := seq(|picks|, i requires 0 <= i < |picks| => Alphabet[picks[i]]);
    forall i | 0 <= i < |token| ensures token[i] in Alphabet && IsAsciiAlphanumeric(token[i]) {
      assert token[i] == Alphabet[picks[i]];
      AlphabetIsAlphanumeric(token[i]);
    }
    token
  }

  /** The alphabet holds 62 characters, exactly the ASCII letters and digits. */
  lemma AlphabetIsAlphanumeric(c: char)
    ensures |Alphabet| == 62
    ensures c in Alphabet <==> IsAsciiAlphanumeric(c)
  {
    if c in Alphabet {
      var k :| 0 <= k < |Alphabet| && Alphabet[k] == c;
      if k < 26 {
        assert Alphabet[k] == AsciiLowercase[k];
      } else if k < 52 {
        assert Alphabet[k] == AsciiUppercase[k - 26];
      } else {
        assert Alphabet[k] == Digits[k - 52];
      }
    }
    if IsAsciiAlphanumeric(c) {
      var k := PositionInAlphabet(c);
    }
  }

  /** Where a letter or digit stands in the alphabet. */
  function PositionInAlphabet(c: char): (k: int)
    requires IsAsciiAlphanumeric(c)
    ensures 0 <= k < |Alphabet| && Alphabet[k] == c
  {
    if 'a' <= c <= 'z' then
      var k := c as int - 'a' as int;
      assert Alphabet[k] == AsciiLowercase[k];
      k
    else if 'A' <= c <= 'Z' then
      var k := c as int - 'A' as int;
      assert Alphabet[26 + k] == AsciiUppercase[k];
      26 + k
    else
      var k := c as int - '0' as int;
      assert Alphabet[52 + k] == Digits[k];
      52 + k
  }

  /** Every six-character alphanumeric string is the outcome of some draw. */
  lemma EveryTokenCanBeDrawn(t: string)
    requires IsToken(t)
    ensures exists picks :: ValidPicks(picks) && Draw(picks) == t
  {
    forall i | 0 <= i < |t| ensures IsAsciiAlphanumeric(t[i]) {
      AlphabetIsAlphanumeric(t[i]);
    }
    var picks := seq(|t|, i requires 0 <= i < |t| => PositionInAlphabet(t[i]));
    assert ValidPicks(picks);
    assert Draw(picks) == t;
  }
}
