/** zoneindex of slab.c: the chunk size and the zone list of a request. */
module ZoneIndex {

  const NZONES: nat := 72

  /** The unit a request is rounded up to. */
  function Unit(n: nat): (u: nat)
    requires n < 16384
    ensures u > 0
  {
    if n < 128 then 8
    else if n < 256 then 16
    else if n < 512 then 32
    else if n < 1024 then 64
    else if n < 2048 then 128
    else if n < 4096 then 256
    else if n < 8192 then 512
    else 1024
  }

  /** The number added to the count of units. */
  function Bias(n: nat): int
    requires n < 16384
  {
    if n < 128 then -1
    else if n < 256 then 7
    else if n < 512 then 15
    else if n < 1024 then 23
    else if n < 2048 then 31
    else if n < 4096 then 39
    else if n < 8192 then 47
    else 55
  }

  /** How many units hold the request; the ranges make it more than 8 from 128 on. */
  function Units(n: nat): (c: nat)
    requires n < 16384
    ensures n < 128 ==> 8 * c - 8 < n <= 8 * c || n == c == 0
    ensures 128 <= n < 256 ==> 16 * c - 16 < n <= 16 * c && 8 <= c <= 16
    ensures 256 <= n < 512 ==> 32 * c - 32 < n <= 32 * c && 8 <= c <= 16
    ensures 512 <= n < 1024 ==> 64 * c - 64 < n <= 64 * c && 8 <= c <= 16
    ensures 1024 <= n < 2048 ==> 128 * c - 128 < n <= 128 * c && 8 <= c <= 16
    ensures 2048 <= n < 4096 ==> 256 * c - 256 < n <= 256 * c && 8 <= c <= 16
    ensures 4096 <= n < 8192 ==> 512 * c - 512 < n <= 512 * c && 8 <= c <= 16
    ensures 8192 <= n ==> 1024 * c - 1024 < n <= 1024 * c && 8 <= c <= 16
  {
    (n + Unit(n) - 1) / Unit(n)
  }

  /** The request rounded up by adding and masking. */
  function ChunkSize(n: nat): (r: nat)
    requires n < 16384
  {
    Units(n) * Unit(n)
  }

  function Index(n: nat): int
    requires n < 16384
  {
    Units(n) + Bias(n)
  }

  /** The index is computed from the rounded request: dividing it by the unit gives back the count. */
  lemma IndexFromChunk(n: nat)
    requires n < 16384
    ensures ChunkSize(n) % Unit(n) == 0 && Index(n) == ChunkSize(n) / Unit(n) + Bias(n)
  {
    hide Units, Bias;
    WholeUnits(Units(n), Unit(n));
  }

  lemma WholeUnits(c: nat, u: nat)
    requires u in {8, 16, 32, 64, 128, 256, 512, 1024}
    ensures (c * u) % u == 0 && (c * u) / u == c
  {
    if u == 8 {
      assert (c * 8) / 8 == c;
    } else if u == 16 {
      assert (c * 16) / 16 == c;
    } else if u == 32 {
      assert (c * 32) / 32 == c;
    } else if u == 64 {
      assert (c * 64) / 64 == c;
    } else if u == 128 {
      assert (c * 128) / 128 == c;
    } else if u == 256 {
      assert (c * 256) / 256 == c;
    } else if u == 512 {
      assert (c * 512) / 512 == c;
    } else {
      assert (c * 1024) / 1024 == c;
    }
  }

  /** The chunk holds the request; below 128 less than 8 bytes are wasted, above less than an eighth. */
  lemma Fits(n: nat)
    requires 1 <= n < 16384
    ensures n <= ChunkSize(n)
    ensures if n < 128 then ChunkSize(n) - n < 8 else 8 * (ChunkSize(n) - n) < n
    ensures 8 <= ChunkSize(n) <= 16384 && ChunkSize(n) % 8 == 0
    ensures 0 <= Index(n) < NZONES
  {
    hide Units;
  }

  /** Larger requests get no smaller chunks and no lower list. */
  lemma Monotone(n: nat, m: nat)
    requires 1 <= n <= m < 16384
    ensures ChunkSize(n) <= ChunkSize(m) && Index(n) <= Index(m)
  {
    hide Units;
  }

  /** The chunk size of a list. */
  function ChunkOf(i: nat): nat
    requires i < NZONES
  {
    if i < 16 then 8 * (i + 1)
    else if i < 24 then 16 * (i - 7)
    else if i < 32 then 32 * (i - 15)
    else if i < 40 then 64 * (i - 23)
    else if i < 48 then 128 * (i - 31)
    else if i < 56 then 256 * (i - 39)
    else if i < 64 then 512 * (i - 47)
    else 1024 * (i - 55)
  }

  /** Each list has one chunk size. */
  lemma OneSizePerIndex(n: nat)
    requires 1 <= n < 16384
    ensures 0 <= Index(n) < NZONES && ChunkSize(n) == ChunkOf(Index(n))
  {
    hide Units;
  }

  /** And each of the 72 lists but the last is used by requests of its own chunk size. */
  lemma EveryIndexUsed(i: nat)
    requires i < NZONES && ChunkOf(i) < 16384
    ensures Index(ChunkOf(i)) == i && ChunkSize(ChunkOf(i)) == ChunkOf(i)
  {
    hide Units;
  }

  /** A request for a whole chunk gets that chunk, even where the next range starts. */
  lemma Idempotent(n: nat)
    requires 1 <= n < 16384 && ChunkSize(n) < 16384
    ensures ChunkSize(ChunkSize(n)) == ChunkSize(n) && Index(ChunkSize(n)) == Index(n)
  {
    hide ChunkSize, Index, ChunkOf;
    OneSizePerIndex(n);
    EveryIndexUsed(Index(n));
  }
}
