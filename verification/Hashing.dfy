// The two library functions the engine's hashes are built from: SHA-256, an
// arbitrary function from bytes to 32 bytes, and the canonical JSON dump.
// Nothing is assumed about SHA-256: a result that needs collision freedom names
// the two inputs instead.

module Hashing {
  import opened Basics
  import opened Text
  import Json

  type Digest = d: seq<byte> | |d| == 32 witness Zeros(32)

  type Hash = seq<byte> -> Digest

  function Zeros(n: nat): (z: seq<byte>)
    ensures |z| == n
  {
    if n == 0 then [] else [0] + Zeros(n - 1)
  }

  datatype Library = Library(sha: Hash, dumps: seq<Json.Field> -> seq<byte>)
  {
    /** hashlib.sha256(data).hexdigest(). */
    function HexDigest(data: seq<byte>): (s: string)
      ensures |s| == 64
    {
      Hex(sha(data))
    }

    /** The dump determines the fields. */
    ghost predicate Lawful() {
      forall a, b :: Determines(a, b)
    }

    predicate Determines(a: seq<Json.Field>, b: seq<Json.Field>) {
      dumps(a) == dumps(b) ==> a == b
    }

    /** Two different inputs with one digest. */
    predicate Collide(x: seq<byte>, y: seq<byte>) {
      x != y && sha(x) == sha(y)
    }

    lemma SameHexDigest(x: seq<byte>, y: seq<byte>)
      requires HexDigest(x) == HexDigest(y)
      ensures x == y || Collide(x, y)
    {
      HexInjective(sha(x), sha(y));
    }
  }

  /** The engine's library: whatever SHA-256 is, with the real JSON dump. */
  lemma JsonLawful(sha: Hash)
    ensures Library(sha, Json.DumpsBytes).Lawful()
  {
    var lib := Library(sha, Json.DumpsBytes);
    forall a, b ensures lib.Determines(a, b) {
      if Json.DumpsBytes(a) == Json.DumpsBytes(b) {
        Json.DumpsBytesInjective(a, b);
      }
    }
  }
}
