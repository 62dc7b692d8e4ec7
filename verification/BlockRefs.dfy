/** Block references and the string keys a cache files entries under. */
module BlockRefs {
  import opened Base
  import opened Text

  /** A number, a tag, or both when a caller got it wrong. */
  datatype BlockRef = BlockRef(number: Option<int>, tag: string)

  const LATEST := BlockRef(None, "latest")

  function Normalize(r: BlockRef): BlockRef {
    if r.number.Some? then BlockRef(r.number, "") else if r.tag == "" then LATEST else r
  }

  function CacheKey(r: BlockRef): string {
    var n := Normalize(r);
    if n.number.Some? then "num:" + PrintInt(n.number.value) else "tag:" + n.tag
  }

  /** decodeBlockKey; a number that does not parse leaves the big.Int at zero. */
  function DecodeBlockKey(key: string): BlockRef {
    if |key| > 4 && key[..4] == "num:" then
      var n := ParseInt(key[4..]);
      BlockRef(if n.Some? then n else Some(0), "")
    else if |key| > 4 && key[..4] == "tag:" then BlockRef(None, key[4..])
    else LATEST
  }

  /** A key gives its reference back, normalized, through printing and parsing. */
  lemma DecodeCacheKey(r: BlockRef)
    ensures DecodeBlockKey(CacheKey(r)) == Normalize(r)
  {
    var n := Normalize(r);
    var key := CacheKey(r);
    if n.number.Some? {
      assert key[..4] == "num:" && key[4..] == PrintInt(n.number.value);
      ParsePrinted(n.number.value);
    } else {
      assert key[..4] == "tag:" && key[4..] == n.tag;
    }
  }

  /** So two references share a key exactly when they normalize to the same one. */
  lemma SameKeyIff(r1: BlockRef, r2: BlockRef)
    ensures CacheKey(r1) == CacheKey(r2) <==> Normalize(r1) == Normalize(r2)
  {
    DecodeCacheKey(r1);
    DecodeCacheKey(r2);
  }

  /** Which is to say: the same number, whatever the tags; or no number and the same tag, "" meaning "latest". */
  lemma SharedKeyIff(r1: BlockRef, r2: BlockRef)
    ensures CacheKey(r1) == CacheKey(r2) <==>
      && r1.number == r2.number
      && (r1.number.None? ==>
            r1.tag == r2.tag || (r1.tag in ["", "latest"] && r2.tag in ["", "latest"]))
  {
    SameKeyIff(r1, r2);
  }

  /** The keys a cache can hold: those that survive decoding and encoding. */
  predicate Canonical(key: string) {
    CacheKey(DecodeBlockKey(key)) == key
  }

  lemma CacheKeyCanonical(r: BlockRef)
    ensures Canonical(CacheKey(r))
  {
    DecodeCacheKey(r);
    SameKeyIff(Normalize(r), r);
  }
}
