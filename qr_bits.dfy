/** The bit source of the pattern generator in src/utils/makeQR.ts: the seed
    hash (line 13) and the xorshift-style advance applied once per data cell
    (line 26).

    JavaScript keeps `h` as a number. `Math.imul` and `| 0` reduce to a signed
    32-bit integer, so the hash is modelled on `int` with that reduction
    written out (`ToInt32`). The bitwise operators `<<`, `>>`, `^` and `&`
    work on the two's-complement bits of that integer, so the advance is
    modelled on `bv32`. `ToBits` is the bridge between the two views. */
module QRBits {

  const TwoTo31: int := 0x8000_0000
  const TwoTo32: int := 0x1_0000_0000

  predicate IsInt32(n: int) {
    -TwoTo31 <= n < TwoTo31
  }

  /** JavaScript's ToInt32 (what `x | 0` computes for an integral `x`):
      reduce modulo 2^32 into the signed range. */
  function ToInt32(n: int): (r: int)
    ensures IsInt32(r)
    ensures (r - n) % TwoTo32 == 0
    ensures IsInt32(n) ==> r == n
  {
    var m := (n + TwoTo31) % TwoTo32;
    assert n + TwoTo31 == TwoTo32 * ((n + TwoTo31) / TwoTo32) + m;
    m - TwoTo31
  }

  /** Two integers congruent modulo 2^32 have the same int32 reading. */
  lemma ToInt32Congruent(a: int, b: int)
    requires (a - b) % TwoTo32 == 0
    ensures ToInt32(a) == ToInt32(b)
  {
    var q := (a - b) / TwoTo32;
    assert a + TwoTo31 == (b + TwoTo31) + TwoTo32 * q;
    ModShift(b + TwoTo31, q);
  }

  lemma ModShift(x: int, q: int)
    ensures (x + TwoTo32 * q) % TwoTo32 == x % TwoTo32
  {
    var r := x % TwoTo32;
    var d := x / TwoTo32;
    assert x + TwoTo32 * q == TwoTo32 * (d + q) + r;
  }

  /** Multiplying preserves congruence modulo 2^32. */
  lemma MulCongruent(a: int, b: int, k: int)
    requires (a - b) % TwoTo32 == 0
    ensures (k * a - k * b) % TwoTo32 == 0
  {
    var q := (a - b) / TwoTo32;
    assert a - b == TwoTo32 * q;
    assert k * a - k * b == TwoTo32 * (k * q);
    ModShift(0, k * q);
  }

  /** `Math.imul(a, b)`: the low 32 bits of the product, read as signed. */
  function Imul(a: int, b: int): (r: int)
    ensures IsInt32(r)
    ensures (r - a * b) % TwoTo32 == 0
  {
    ToInt32(a * b)
  }

  /** One step of the seed hash: `h = Math.imul(31, h) + code | 0`. */
  function HashStep(h: int, code: bv16): (r: int)
    ensures IsInt32(r)
    ensures (r - (31 * h + code as int)) % TwoTo32 == 0
  {
    var m := Imul(31, h);
    var r := ToInt32(m + code as int);
    SumCongruent(r - (m + code as int), m - 31 * h);
    r
  }

  /** The seed hash, folded left over the seed's UTF-16 code units from 0. */
  function SeedHash(seed: seq<bv16>): (h: int)
    ensures IsInt32(h)
  {
    if seed == [] then 0 else HashStep(SeedHash(seed[..|seed| - 1]), seed[|seed| - 1])
  }

  /** Hashing one more code unit is one more step on the hash so far. */
  lemma SeedHashSnoc(seed: seq<bv16>, u: bv16)
    ensures SeedHash(seed + [u]) == HashStep(SeedHash(seed), u)
  {
    assert (seed + [u])[..|seed|] == seed;
  }

  /** A hash step reduces the exact `31 * h + code` once. */
  lemma HashStepExact(h: int, u: bv16)
    ensures HashStep(h, u) == ToInt32(31 * h + u as int)
  {
    ToInt32Congruent(Imul(31, h) + u as int, 31 * h + u as int);
  }

  /** A hash step whose exact value `31 * h + code` exceeds the int32 range
      by `k` multiples of 2^32 yields that value less those multiples. */
  lemma HashStepWraps(h: int, u: bv16, h': int, k: int)
    requires IsInt32(h') && 31 * h + u as int - h' == TwoTo32 * k
    ensures HashStep(h, u) == h'
  {
    HashStepExact(h, u);
    ModShift(0, k);
    ToInt32Congruent(31 * h + u as int, h');
  }

  /** The hash of a seed extended by one code unit, from the hash before it
      and the number `k` of times the exact step wraps around. */
  lemma SeedHashExtend(s: seq<bv16>, h: int, u: bv16, h': int, k: int)
    requires SeedHash(s) == h
    requires IsInt32(h') && 31 * h + u as int - h' == TwoTo32 * k
    ensures SeedHash(s + [u]) == h'
  {
    SeedHashSnoc(s, u);
    HashStepWraps(h, u, h', k);
  }

  /** The exact polynomial `sum seed[i] * 31^(n-1-i)` that the hash computes
      before any reduction (the recurrence of Java's `String.hashCode`). */
  function Polynomial(seed: seq<bv16>): int {
    if seed == [] then 0 else 31 * Polynomial(seed[..|seed| - 1]) + seed[|seed| - 1] as int
  }

  /** Wrapping after every step gives the same result as wrapping the exact
      polynomial once: the hash is `Polynomial(seed)` reduced to int32. */
  lemma {:induction false} SeedHashIsReducedPolynomial(seed: seq<bv16>)
    ensures SeedHash(seed) == ToInt32(Polynomial(seed))
  {
    if seed != [] {
      var p, u := seed[..|seed| - 1], seed[|seed| - 1];
      SeedHashIsReducedPolynomial(p);
      var h, P := SeedHash(p), Polynomial(p);
      // h == ToInt32(P), hence h and P are congruent, and so are 31h + u and 31P + u
      HashStepExact(h, u);
      MulCongruent(h, P, 31);
      assert (31 * h + u as int) - (31 * P + u as int) == 31 * h - 31 * P;
      ToInt32Congruent(31 * h + u as int, 31 * P + u as int);
    }
  }

  lemma SumCongruent(x: int, y: int)
    requires x % TwoTo32 == 0 && y % TwoTo32 == 0
    ensures (x + y) % TwoTo32 == 0
  {
    ModShift(y, x / TwoTo32);
  }

  /** The empty seed hashes to 0. */
  lemma EmptySeedHash()
    ensures SeedHash([]) == 0
  {
  }

  /** The two's-complement bits of an int32 value. */
  function ToBits(h: int): (b: bv32)
    requires IsInt32(h)
    ensures h == 0 <==> b == 0
  {
    if h < 0 then (h + TwoTo32) as bv32 else h as bv32
  }

  /** Bit `i` of `h` (bit 0 is the least significant). */
  predicate Bit(h: bv32, i: bv32)
    requires i < 32
  {
    (h >> i) & 1 == 1
  }

  /** JavaScript's sign-propagating `h >> 7`: every bit moves down seven
      places and the sign bit fills the seven vacated top bits. Dafny's `>>` on
      bit-vectors is the logical shift, so the fill is written out. */
  function Asr7(h: bv32): bv32 {
    if h & 0x8000_0000 == 0 then h >> 7 else (h >> 7) | 0xFE00_0000
  }

  /** The arithmetic shift, bit by bit: bit `i` of the result is bit `i + 7`
      of the argument, or its sign bit for the top seven positions. */
  lemma Asr7Bits(h: bv32)
    ensures forall i: bv32 :: i < 32 ==> Bit(Asr7(h), i) == Bit(h, if i < 25 then i + 7 else 31)
  {
  }

  /** The three statements of line 26: `h ^= h << 13`, `h ^= h >> 7` and
      `h ^= h << 17`. */
  function XorShl13(h: bv32): bv32 {
    h ^ (h << 13)
  }

  function XorAsr7(h: bv32): bv32 {
    h ^ Asr7(h)
  }

  function XorShl17(h: bv32): bv32 {
    h ^ (h << 17)
  }

  /** The advance of line 26, the three statements in order. */
  function Advance(h: bv32): bv32 {
    XorShl17(XorAsr7(XorShl13(h)))
  }

  /** The state after `n` advances. */
  function AdvanceN(h: bv32, n: nat): bv32 {
    if n == 0 then h else Advance(AdvanceN(h, n - 1))
  }

  /** Zero is a fixed point of the advance, and it is not the only state
      that ends there: because `>>` propagates the sign, the advance is not
      injective and the nonzero state 0xFC001FFF advances to 0 as well. */
  lemma AdvanceZero()
    ensures Advance(0) == 0
    ensures Advance(0xFC00_1FFF) == 0
  {
  }

  /** Starting from 0 the state stays 0 however many cells are visited. */
  lemma {:induction false} AdvanceNZero(n: nat)
    ensures AdvanceN(0, n) == 0
  {
    if n > 0 {
      AdvanceNZero(n - 1);
      AdvanceZero();
    }
  }

  /** The bit a data cell reads after one advance is bit 0 xor bit 7 of the
      state before it. */
  lemma AdvanceLowBit(h: bv32)
    ensures Advance(h) & 1 == (h ^ (h >> 7)) & 1
  {
  }
}
