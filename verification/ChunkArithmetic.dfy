/** Cutting a file into chunks and putting it together again. */
module ChunkArithmetic {
  import opened Prelude
  import opened Files

  const TWO_53: nat := 0x20_0000_0000_0000
  const TWO_63: nat := 0x8000_0000_0000_0000

  // ---- the number of chunks, as the sender computes it ----

  function CeilDiv(n: nat): nat {
    (n + CHUNK_SIZE - 1) / CHUNK_SIZE
  }

  /** Spacing of the 64-bit floating-point numbers around `n`, or 1 where they hold every integer. */
  function Ulp(n: nat): (u: nat)
    ensures u > 0
  {
    if n < TWO_53 then 1 else 2 * Ulp(n / 2)
  }

  /** `n` rounded to a multiple of `u`, ties to the even multiple. */
  function RoundTo(n: nat, u: nat): nat
    requires u > 0
  {
    var q, r := n / u, n % u;
    if 2 * r < u || (2 * r == u && q % 2 == 0) then q * u else (q + 1) * u
  }

  /** roundTiesToEven of an integer, section 4.3.1 of IEEE 754-2019. */
  function NearestDouble(n: nat): nat {
    RoundTo(n, Ulp(n))
  }

  /** `math.ceil(file_size / CHUNK_SIZE) if file_size else 0`: the quotient is correctly rounded, and
      dividing by a power of two only moves the exponent. */
  function ComputedCount(size: nat): nat {
    if size == 0 then 0 else CeilDiv(NearestDouble(size))
  }

  ghost predicate CountIsExact(size: nat) {
    ComputedCount(size) == CeilDiv(size)
  }

  lemma SmallUlps(n: nat)
    requires n < TWO_63
    ensures Ulp(n) in {1, 2, 4, 8, 16, 32, 64, 128, 256, 512, 1024}
  {
    UlpBelow(n, 10);
  }

  function Pow2(k: nat): (p: nat)
    ensures p > 0
  {
    if k == 0 then 1 else 2 * Pow2(k - 1)
  }

  lemma {:induction false} UlpBelow(n: nat, k: nat)
    requires k <= 10 && n < TWO_53 * Pow2(k)
    ensures exists j :: 0 <= j <= k && Ulp(n) == Pow2(j)
  {
    if n < TWO_53 {
      assert Ulp(n) == Pow2(0);
    } else {
      UlpBelow(n / 2, k - 1);
      var j :| 0 <= j <= k - 1 && Ulp(n / 2) == Pow2(j);
      assert Ulp(n) == Pow2(j + 1);
    }
  }

  lemma MulMonotone(a: int, b: int, u: nat)
    requires a <= b
    ensures a * u <= b * u
  {
    assert (b - a) * u >= 0;
  }

  lemma DivModUnique(n: int, u: nat, q: int, r: int)
    requires n == q * u + r && 0 <= r < u
    ensures n / u == q && n % u == r
  {
    assert n == (n / u) * u + n % u;
    if n / u > q {
      MulMonotone(q + 1, n / u, u);
    } else if n / u < q {
      MulMonotone(n / u + 1, q, u);
    }
  }

  lemma CeilWithin(k: nat, s: nat)
    requires s <= CHUNK_SIZE
    ensures CeilDiv(k * CHUNK_SIZE + s) == if s == 0 then k else k + 1
  {
  }

  /** Where `n` lies: `k` whole chunks, `a` whole spacings into the next one, and `b` beyond. */
  lemma Place(n: nat, u: nat, m: nat) returns (a: nat, b: nat)
    requires u > 0 && CHUNK_SIZE == u * (2 * m)
    ensures n % CHUNK_SIZE == a * u + b && b < u && a < 2 * m
    ensures n / u == (n / CHUNK_SIZE) * (2 * m) + a && n % u == b
  {
    var k, r := n / CHUNK_SIZE, n % CHUNK_SIZE;
    a, b := r / u, r % u;
    assert r == a * u + b;
    var q := k * (2 * m) + a;
    assert n == q * u + b by {
      Distribute(k, m, a, u);
      assert n == k * CHUNK_SIZE + r;
    }
    DivModUnique(n, u, q, b);
    if a >= 2 * m {
      MulMonotone(2 * m, a, u);
    }
  }

  lemma Distribute(k: nat, m: nat, a: nat, u: nat)
    requires CHUNK_SIZE == u * (2 * m)
    ensures (k * (2 * m) + a) * u == k * CHUNK_SIZE + a * u
  {
    assert (k * (2 * m)) * u == k * (u * (2 * m));
  }

  lemma EvenShift(k: nat, m: nat, a: nat)
    ensures (k * (2 * m) + a) % 2 == a % 2
  {
    assert k * (2 * m) + a == (k * m + a / 2) * 2 + a % 2;
    DivModUnique(k * (2 * m) + a, 2, k * m + a / 2, a % 2);
  }

  /** Rounding to a spacing that divides half a chunk changes the count exactly when the last
      partial chunk is at most half a spacing long. */
  lemma RoundedCount(n: nat, u: nat, m: nat)
    requires u > 0 && CHUNK_SIZE == u * (2 * m)
    ensures CeilDiv(RoundTo(n, u)) == CeilDiv(n)
      <==> n % CHUNK_SIZE == 0 || 2 * (n % CHUNK_SIZE) > u
    ensures CeilDiv(RoundTo(n, u)) <= CeilDiv(n)
  {
    hide RoundTo, CeilDiv;
    var a, b, up := RoundedPlace(n, u, m);
    if up > 0 {
      MulMonotone(1, up, u);
    }
    if a > 0 {
      MulMonotone(1, a, u);
    }
    MulMonotone(up, 2 * m, u);
    Counted(n, u, n / CHUNK_SIZE, up * u);
  }

  lemma RoundedPlace(n: nat, u: nat, m: nat) returns (a: nat, b: nat, up: nat)
    requires u > 0 && CHUNK_SIZE == u * (2 * m)
    ensures n % CHUNK_SIZE == a * u + b && b < u
    ensures up <= 2 * m && (up == 0 <==> a == 0 && 2 * b <= u)
    ensures RoundTo(n, u) == (n / CHUNK_SIZE) * CHUNK_SIZE + up * u
  {
    var k := n / CHUNK_SIZE;
    a, b := Place(n, u, m);
    EvenShift(k, m, a);
    up := if 2 * b < u || (2 * b == u && a % 2 == 0) then a else a + 1;
    Distribute(k, m, up, u);
    RoundToParts(n, u, k * (2 * m) + a, b);
  }

  lemma RoundToParts(n: nat, u: nat, q: nat, r: nat)
    requires u > 0 && n / u == q && n % u == r
    ensures RoundTo(n, u) == (if 2 * r < u || (2 * r == u && q % 2 == 0) then q else q + 1) * u
  {
  }

  lemma Counted(n: nat, u: nat, k: nat, s: nat)
    requires u > 0 && s <= CHUNK_SIZE && k == n / CHUNK_SIZE
    requires RoundTo(n, u) == k * CHUNK_SIZE + s
    ensures CeilDiv(RoundTo(n, u)) == CeilDiv(n) <==> (s == 0 <==> n % CHUNK_SIZE == 0)
    ensures CeilDiv(RoundTo(n, u)) == if s == 0 then k else k + 1
    ensures CeilDiv(n) == if n % CHUNK_SIZE == 0 then k else k + 1
  {
    hide RoundTo;
    CeilWithin(k, s);
    CeilWithin(k, n % CHUNK_SIZE);
  }

  /** The count of 1 MiB chunks that hold `n` bytes: enough, and no fewer would do. */
  lemma CeilDivIsCeiling(n: nat)
    ensures n <= CeilDiv(n) * 1048576
    ensures n > 0 ==> (CeilDiv(n) - 1) * 1048576 < n
    ensures n == 0 ==> CeilDiv(n) == 0
  {
  }

  /** The spacing is the power of two that leaves `n` a significand of 53 bits. */
  lemma {:induction false} UlpIsSpacing(n: nat)
    ensures n < 0x20_0000_0000_0000 ==> Ulp(n) == 1
    ensures n >= 0x20_0000_0000_0000 ==> 0x10_0000_0000_0000 * Ulp(n) <= n < 0x20_0000_0000_0000 * Ulp(n)
    ensures exists j: nat :: Ulp(n) == Pow2(j)
  {
    if n < TWO_53 {
      assert Ulp(n) == Pow2(0);
    } else {
      UlpIsSpacing(n / 2);
      var j: nat :| Ulp(n / 2) == Pow2(j);
      assert Ulp(n) == Pow2(j + 1);
    }
  }

  /** The computed quotient goes by the multiple of the spacing nearest to the size, the even one if two
      are equally near. */
  lemma RoundsToNearest(n: nat) returns (multiple: nat)
    ensures var r, u := multiple * Ulp(n), Ulp(n);
            && NearestDouble(n) == r
            && 2 * (r - n) <= u && 2 * (n - r) <= u
            && (2 * (r - n) == u || 2 * (n - r) == u ==> multiple % 2 == 0)
  {
    multiple := RoundsToMultiple(n, Ulp(n));
  }

  lemma RoundsToMultiple(n: nat, u: nat) returns (multiple: nat)
    requires u > 0
    ensures RoundTo(n, u) == multiple * u
    ensures 2 * (multiple * u - n) <= u && 2 * (n - multiple * u) <= u
    ensures 2 * (multiple * u - n) == u || 2 * (n - multiple * u) == u ==> multiple % 2 == 0
  {
    hide RoundTo;
    DivModIs(n, u);
    RoundToParts(n, u, n / u, n % u);
    multiple := RoundsParts(n, u, n / u, n % u, RoundTo(n, u));
  }

  lemma DivModIs(n: nat, u: nat)
    requires u > 0
    ensures n == (n / u) * u + n % u && 0 <= n % u < u
  {
  }

  lemma RoundsParts(n: nat, u: nat, q: nat, r: nat, rounded: nat) returns (multiple: nat)
    requires n == q * u + r && r < u
    requires rounded == (if 2 * r < u || (2 * r == u && q % 2 == 0) then q else q + 1) * u
    ensures rounded == multiple * u
    ensures 2 * (multiple * u - n) <= u && 2 * (n - multiple * u) <= u
    ensures 2 * (multiple * u - n) == u || 2 * (n - multiple * u) == u ==> multiple % 2 == 0
  {
    multiple := if 2 * r < u || (2 * r == u && q % 2 == 0) then q else q + 1;
    NextMultiple(q, u);
    Nearer(n, u, q * u, r, q % 2 == 0);
  }

  lemma NextMultiple(q: nat, u: nat)
    ensures (q + 1) * u == q * u + u
  {
  }

  lemma Nearer(n: int, u: int, p: int, r: int, even: bool)
    requires n == p + r && 0 <= r < u
    ensures var v := if 2 * r < u || (2 * r == u && even) then p else p + u;
            && 2 * (v - n) <= u && 2 * (n - v) <= u
            && (2 * (v - n) == u || 2 * (n - v) == u ==> 2 * r == u)
  {
  }

  /** The computed number of chunks is right exactly when the last partial chunk, if any, is longer
      than half the spacing of the floating-point numbers around the file size. */
  lemma CountExactness(size: nat)
    requires size < TWO_63
    ensures CountIsExact(size) <==> size % CHUNK_SIZE == 0 || 2 * (size % CHUNK_SIZE) > Ulp(size)
    ensures ComputedCount(size) <= CeilDiv(size)
  {
    SmallUlps(size);
    var u := Ulp(size);
    var m := HalfChunkOver(u);
    RoundedCount(size, u, m);
  }

  /** A file that is not empty has a first chunk, also by the computed count. */
  lemma NonEmptyHasChunk(size: nat)
    requires 0 < size < TWO_63
    ensures ComputedCount(size) > 0
  {
    hide RoundTo, CeilDiv;
    SmallUlps(size);
    RoundsToSome(size, Ulp(size));
    NonZeroCeil(NearestDouble(size));
  }

  lemma RoundsToSome(n: nat, u: nat)
    requires 0 < u <= n
    ensures RoundTo(n, u) > 0
  {
    var q := n / u;
    assert n == q * u + n % u;
    assert q >= 1;
    MulMonotone(1, q, u);
    MulMonotone(1, q + 1, u);
  }

  lemma NonZeroCeil(n: nat)
    requires n > 0
    ensures CeilDiv(n) > 0
  {
  }

  lemma HalfChunkOver(u: nat) returns (m: nat)
    requires u in {1, 2, 4, 8, 16, 32, 64, 128, 256, 512, 1024}
    ensures CHUNK_SIZE == u * (2 * m)
  {
    m := 524288 / u;
  }

  /** It is right for every size up to 2^53, and wrong at 2^53 + 1. */
  lemma FirstWrongCount()
    ensures forall size: nat :: size <= TWO_53 ==> CountIsExact(size)
    ensures !CountIsExact(TWO_53 + 1)
  {
    forall size: nat | size <= TWO_53 ensures CountIsExact(size) {
      CountExactness(size);
    }
    CountExactness(TWO_53 + 1);
  }

  // ---- the chunks of a file ----

  /** Chunk `index` as the sender's sequential reads find it; nothing past the end of the file. */
  function Chunk(source: Bytes, index: nat): (c: Bytes)
    ensures |c| <= CHUNK_SIZE
  {
    source[Min(index * CHUNK_SIZE, |source|)..Min((index + 1) * CHUNK_SIZE, |source|)]
  }

  /** The first `n` chunks of a file. */
  function Leading(source: Bytes, n: nat): Bytes {
    source[..Min(n * CHUNK_SIZE, |source|)]
  }

  lemma LeadingStep(source: Bytes, n: nat)
    ensures Leading(source, n + 1) == Leading(source, n) + Chunk(source, n)
  {
  }

  lemma LeadingAll(source: Bytes, n: nat)
    requires CeilDiv(|source|) <= n
    ensures Leading(source, n) == source
  {
    assert |source| <= n * CHUNK_SIZE;
  }

  /** Writing the next chunk at its offset extends the leading chunks by one. */
  lemma WriteNext(source: Bytes, n: nat)
    requires n < CeilDiv(|source|)
    ensures WriteAt(Leading(source, n), n * CHUNK_SIZE, Chunk(source, n)) == Leading(source, n + 1)
  {
    assert |Leading(source, n)| == n * CHUNK_SIZE;
    LeadingStep(source, n);
  }

  function WriteChunks(file: Bytes, source: Bytes, order: seq<nat>): Bytes
    decreases |order|
  {
    if order == [] then file
    else WriteChunks(WriteAt(file, order[0] * CHUNK_SIZE, Chunk(source, order[0])), source, order[1..])
  }

  /** The file has the bytes of one chunk where they belong. */
  ghost predicate HoldsChunk(file: Bytes, source: Bytes, index: nat) {
    && Min((index + 1) * CHUNK_SIZE, |source|) <= |file|
    && forall p :: index * CHUNK_SIZE <= p < Min((index + 1) * CHUNK_SIZE, |source|) ==> file[p] == source[p]
  }

  lemma WriteAtIndexed(file: Bytes, offset: nat, data: Bytes)
    requires data != []
    ensures var f := WriteAt(file, offset, data);
            && |f| == Max(|file|, offset + |data|)
            && (forall p :: offset <= p < offset + |data| ==> f[p] == data[p - offset])
            && (forall p :: 0 <= p < |file| && !(offset <= p < offset + |data|) ==> f[p] == file[p])
            && (forall p :: |file| <= p < offset ==> f[p] == 0)
  {
  }

  lemma ChunkIndexed(source: Bytes, index: nat)
    requires index < CeilDiv(|source|)
    ensures var c := Chunk(source, index);
            && index * CHUNK_SIZE < |source|
            && |c| == Min(CHUNK_SIZE, |source| - index * CHUNK_SIZE) && c != []
            && (forall p :: 0 <= p < |c| ==> c[p] == source[index * CHUNK_SIZE + p])
  {
  }

  /** One write puts its chunk in place and disturbs no other. */
  lemma WriteHolds(file: Bytes, source: Bytes, index: nat, other: nat)
    requires index < CeilDiv(|source|) && other < CeilDiv(|source|) && |file| <= |source|
    requires other == index || HoldsChunk(file, source, other)
    ensures var f := WriteAt(file, index * CHUNK_SIZE, Chunk(source, index));
            |f| <= |source| && HoldsChunk(f, source, other)
  {
    hide WriteAt, Chunk;
    ChunkIndexed(source, index);
    WriteAtIndexed(file, index * CHUNK_SIZE, Chunk(source, index));
    var f := WriteAt(file, index * CHUNK_SIZE, Chunk(source, index));
    forall p | other * CHUNK_SIZE <= p < Min((other + 1) * CHUNK_SIZE, |source|)
      ensures f[p] == source[p]
    {
      if other == index {
        assert f[p] == Chunk(source, index)[p - index * CHUNK_SIZE];
      } else {
        assert file[p] == source[p];
      }
    }
  }

  lemma {:induction false} WritesHold(file: Bytes, source: Bytes, order: seq<nat>, index: nat)
    requires |file| <= |source| && index < CeilDiv(|source|)
    requires forall i :: i in order ==> i < CeilDiv(|source|)
    requires index in order || HoldsChunk(file, source, index)
    ensures |WriteChunks(file, source, order)| <= |source|
    ensures HoldsChunk(WriteChunks(file, source, order), source, index)
    decreases |order|
  {
    hide HoldsChunk, WriteAt, Chunk;
    if order != [] {
      assert order[0] in order;
      var f := WriteAt(file, order[0] * CHUNK_SIZE, Chunk(source, order[0]));
      WriteHolds(file, source, order[0], order[0]);
      if HoldsChunk(file, source, index) {
        WriteHolds(file, source, order[0], index);
      }
      assert forall i :: i in order[1..] ==> i in order;
      assert index in order ==> index == order[0] || index in order[1..];
      WritesHold(f, source, order[1..], index);
    }
  }

  /** Writing every chunk at its offset, in any order and with any repetitions, rebuilds the file. */
  lemma AnyOrderRebuilds(source: Bytes, order: seq<nat>)
    requires forall i :: i in order <==> 0 <= i < CeilDiv(|source|)
    ensures WriteChunks([], source, order) == source
  {
    var f := WriteChunks([], source, order);
    assert order != [] ==> order[0] in order;
    if source != [] {
      var last := CeilDiv(|source|) - 1;
      WritesHold([], source, order, last);
      forall p | 0 <= p < |source| ensures f[p] == source[p] {
        WritesHold([], source, order, p / CHUNK_SIZE);
      }
    }
  }
}
