/** The two hex renderings of the hash the worker uses: the compressed index
    term the tokenizer pipeline emits for every token, and the key a bookmark
    gets in the cache (and as index reference) when the startup load adds it. */
module Tokens {
  import opened JsStrings
  import opened Fnv
  import opened HexFormat

  /** `fnv1aHash(url).toString(16)`: the reference and cache key used by the startup load. */
  function BulkKey(url: JsString): (k: JsString)
    ensures Canonical(k) && |k| <= 8
    ensures ParseHex(k) == Hash(url)
  {
    var n := Hash(url);
    Uint32HexLength(n);
    ToHexCanonical(n);
    ParseToHex(n);
    ToHex(n)
  }

  /** Two URLs share a startup key exactly when their hashes are equal. */
  lemma BulkKeyInjective(a: JsString, b: JsString)
    ensures BulkKey(a) == BulkKey(b) <==> Hash(a) == Hash(b)
  {
  }

  /** The tokenizer's pipeline step, `fnv1aHash(token).toString(16).substring(0, 4)`:
      the first four digits of the token's full hex hash, or all of them when
      it has fewer. */
  function TokenCode(token: JsString): (r: JsString)
    ensures |r| == if |BulkKey(token)| < 4 then |BulkKey(token)| else 4
    ensures 1 <= |r| <= 4 && AllHexDigits(r)
    ensures r <= BulkKey(token)
    ensures |BulkKey(token)| <= 4 ==> r == BulkKey(token)
  {
    var full := BulkKey(token);
    full[..if |full| < 4 then |full| else 4]
  }
}
