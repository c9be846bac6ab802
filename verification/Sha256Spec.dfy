/** SHA-256 as sections 4 to 6 of FIPS 180-4 define it, and HMAC as section 2 of
    RFC 2104 defines it, over whole messages. */
module Sha256Spec {

  type byte = bv8
  type word = bv32
  type uint32 = x: nat | x < 0x1_0000_0000

  // ----- constants (sections 4.2.2 and 5.3.3) -----

  /** The round constants, in rows of eight, and the first sixty-four primes. */
  const K0: seq<word> := [0x428a2f98, 0x71374491, 0xb5c0fbcf, 0xe9b5dba5, 0x3956c25b, 0x59f111f1, 0x923f82a4, 0xab1c5ed5]
  const K1: seq<word> := [0xd807aa98, 0x12835b01, 0x243185be, 0x550c7dc3, 0x72be5d74, 0x80deb1fe, 0x9bdc06a7, 0xc19bf174]
  const K2: seq<word> := [0xe49b69c1, 0xefbe4786, 0x0fc19dc6, 0x240ca1cc, 0x2de92c6f, 0x4a7484aa, 0x5cb0a9dc, 0x76f988da]
  const K3: seq<word> := [0x983e5152, 0xa831c66d, 0xb00327c8, 0xbf597fc7, 0xc6e00bf3, 0xd5a79147, 0x06ca6351, 0x14292967]
  const K4: seq<word> := [0x27b70a85, 0x2e1b2138, 0x4d2c6dfc, 0x53380d13, 0x650a7354, 0x766a0abb, 0x81c2c92e, 0x92722c85]
  const K5: seq<word> := [0xa2bfe8a1, 0xa81a664b, 0xc24b8b70, 0xc76c51a3, 0xd192e819, 0xd6990624, 0xf40e3585, 0x106aa070]
  const K6: seq<word> := [0x19a4c116, 0x1e376c08, 0x2748774c, 0x34b0bcb5, 0x391c0cb3, 0x4ed8aa4a, 0x5b9cca4f, 0x682e6ff3]
  const K7: seq<word> := [0x748f82ee, 0x78a5636f, 0x84c87814, 0x8cc70208, 0x90befffa, 0xa4506ceb, 0xbef9a3f7, 0xc67178f2]

  const P0: seq<nat> := [2, 3, 5, 7, 11, 13, 17, 19]
  const P1: seq<nat> := [23, 29, 31, 37, 41, 43, 47, 53]
  const P2: seq<nat> := [59, 61, 67, 71, 73, 79, 83, 89]
  const P3: seq<nat> := [97, 101, 103, 107, 109, 113, 127, 131]
  const P4: seq<nat> := [137, 139, 149, 151, 157, 163, 167, 173]
  const P5: seq<nat> := [179, 181, 191, 193, 197, 199, 211, 223]
  const P6: seq<nat> := [227, 229, 233, 239, 241, 251, 257, 263]
  const P7: seq<nat> := [269, 271, 277, 281, 283, 293, 307, 311]

  function ConstantRow(r: nat): (row: seq<word>)
    ensures |row| == 8
  {
    if r == 0 then K0 else if r == 1 then K1 else if r == 2 then K2 else if r == 3 then K3 else if r == 4 then K4 else if r == 5 then K5 else if r == 6 then K6 else K7
  }

  function PrimeRow(r: nat): (row: seq<nat>)
    ensures |row| == 8
  {
    if r == 0 then P0 else if r == 1 then P1 else if r == 2 then P2 else if r == 3 then P3 else if r == 4 then P4 else if r == 5 then P5 else if r == 6 then P6 else P7
  }

  const INITIAL: seq<word> := [
    0x6a09e667, 0xbb67ae85, 0x3c6ef372, 0xa54ff53a, 0x510e527f, 0x9b05688c, 0x1f83d9ab, 0x5be0cd19]

  /** With integer part `whole`, the fractional part of the cube root of `p` starts with the 32 bits of `k`. */
  predicate CubeRoot(k: uint32, p: nat, whole: nat) {
    Cube(whole * 0x1_0000_0000 + k) <= p * 0x1_0000_0000_0000_0000_0000_0000 < Cube(whole * 0x1_0000_0000 + k + 1)
  }

  function Cube(x: nat): nat { x * x * x }

  /** With integer part `whole`, the fractional part of the square root of `p` starts with the 32 bits of `k`. */
  predicate SquareRoot(k: uint32, p: nat, whole: nat) {
    Square(whole * 0x1_0000_0000 + k) <= p * 0x1_0000_0000_0000_0000 < Square(whole * 0x1_0000_0000 + k + 1)
  }

  function Square(x: nat): nat { x * x }

  /** The integer part of the cube root of a number below 343. */
  function WholeCubeRoot(p: nat): nat {
    if p < 8 then 1 else if p < 27 then 2 else if p < 64 then 3 else if p < 125 then 4 else if p < 216 then 5 else 6
  }

  predicate Fits(k: word, p: nat) { CubeRoot(k as uint32, p, WholeCubeRoot(p)) }

  predicate RowFits(ks: seq<word>, ps: seq<nat>) {
    && |ks| == |ps| == 8
    && Fits(ks[0], ps[0]) && Fits(ks[1], ps[1]) && Fits(ks[2], ps[2]) && Fits(ks[3], ps[3])
    && Fits(ks[4], ps[4]) && Fits(ks[5], ps[5]) && Fits(ks[6], ps[6]) && Fits(ks[7], ps[7])
  }

  lemma Row0Fits() ensures RowFits(K0, P0) {}
  lemma Row1Fits() ensures RowFits(K1, P1) {}
  lemma Row2Fits() ensures RowFits(K2, P2) {}
  lemma Row3Fits() ensures RowFits(K3, P3) {}
  lemma Row4Fits() ensures RowFits(K4, P4) {}
  lemma Row5Fits() ensures RowFits(K5, P5) {}
  lemma Row6Fits() ensures RowFits(K6, P6) {}
  lemma Row7Fits() ensures RowFits(K7, P7) {}

  lemma RowsFit(r: nat)
    requires r < 8
    ensures RowFits(ConstantRow(r), PrimeRow(r))
  {
    Row0Fits(); Row1Fits(); Row2Fits(); Row3Fits(); Row4Fits(); Row5Fits(); Row6Fits(); Row7Fits();
  }

  /** Round constant `t` is the first 32 fractional bits of the cube root of prime `t`. */
  lemma RoundConstantsAreCubeRoots(t: nat)
    requires t < 64
    ensures Fits(ConstantRow(t / 8)[t % 8], PrimeRow(t / 8)[t % 8])
  {
    RowsFit(t / 8);
    RowElement(ConstantRow(t / 8), PrimeRow(t / 8), t % 8);
  }

  lemma RowElement(ks: seq<word>, ps: seq<nat>, j: nat)
    requires RowFits(ks, ps) && j < 8
    ensures Fits(ks[j], ps[j])
  {
  }

  lemma InitialValuesAreSquareRoots()
    ensures SquareRoot(INITIAL[0] as uint32, 2, 1) && SquareRoot(INITIAL[1] as uint32, 3, 1)
    ensures SquareRoot(INITIAL[2] as uint32, 5, 2) && SquareRoot(INITIAL[3] as uint32, 7, 2)
    ensures SquareRoot(INITIAL[4] as uint32, 11, 3) && SquareRoot(INITIAL[5] as uint32, 13, 3)
    ensures SquareRoot(INITIAL[6] as uint32, 17, 4) && SquareRoot(INITIAL[7] as uint32, 19, 4)
  {
  }

  // ----- functions (section 4.1.2) -----

  datatype Eight = Eight(a: word, b: word, c: word, d: word, e: word, f: word, g: word, h: word)

  /** The initial value, the round constants and the operations on 32-bit words. All
      of the compression function is stated for any of them, so that what is proved about the
      schedule and the rounds does not depend on them; `Fips` holds the standard's. */
  datatype WordOps = WordOps(
    initial: Eight,
    k: nat -> word,
    bigEndian: (byte, byte, byte, byte) -> word,
    plus: (word, word) -> word,
    ch: (word, word, word) -> word,
    maj: (word, word, word) -> word,
    bigSigma0: word -> word,
    bigSigma1: word -> word,
    smallSigma0: word -> word,
    smallSigma1: word -> word)

  function Initial(): Eight {
    Eight(INITIAL[0], INITIAL[1], INITIAL[2], INITIAL[3], INITIAL[4], INITIAL[5], INITIAL[6], INITIAL[7])
  }

  function RoundConstant(t: nat): word {
    if t < 64 then ConstantRow(t / 8)[t % 8] else 0
  }

  function BigEndian(b0: byte, b1: byte, b2: byte, b3: byte): word {
    (b0 as word << 24) | (b1 as word << 16) | (b2 as word << 8) | b3 as word
  }

  function Sum(x: word, y: word): word { x + y }
  function Ch(x: word, y: word, z: word): word { (x & y) ^ (!x & z) }
  function Maj(x: word, y: word, z: word): word { (x & y) ^ (x & z) ^ (y & z) }
  function BigSigma0(x: word): word { ((x >> 2) | (x << 30)) ^ ((x >> 13) | (x << 19)) ^ ((x >> 22) | (x << 10)) }
  function BigSigma1(x: word): word { ((x >> 6) | (x << 26)) ^ ((x >> 11) | (x << 21)) ^ ((x >> 25) | (x << 7)) }
  function SmallSigma0(x: word): word { ((x >> 7) | (x << 25)) ^ ((x >> 18) | (x << 14)) ^ (x >> 3) }
  function SmallSigma1(x: word): word { ((x >> 17) | (x << 15)) ^ ((x >> 19) | (x << 13)) ^ (x >> 10) }

  function Fips(): WordOps {
    WordOps(Initial(), RoundConstant, BigEndian, Sum, Ch, Maj, BigSigma0, BigSigma1, SmallSigma0, SmallSigma1)
  }

  // ----- hash computation (section 6.2.2) -----

  function Schedule(o: WordOps, block: seq<byte>, t: nat): word
    requires |block| == 64 && t < 64
  {
    if t < 16 then o.bigEndian(block[4 * t], block[4 * t + 1], block[4 * t + 2], block[4 * t + 3])
    else Expand(o, Schedule(o, block, t - 2), Schedule(o, block, t - 7), Schedule(o, block, t - 15), Schedule(o, block, t - 16))
  }

  function Expand(o: WordOps, w2: word, w7: word, w15: word, w16: word): word {
    o.plus(o.plus(o.plus(o.smallSigma0(w15), w16), o.smallSigma1(w2)), w7)
  }

  ghost predicate Sums(plus: (word, word) -> word) {
    && (forall x, y :: plus(x, y) == plus(y, x))
    && forall x, y, z :: plus(plus(x, y), z) == plus(x, plus(y, z))
  }

  // Addition of 32-bit words obeys these laws. Each lemma leaves one step of the
  // reassociation to the solver.

  lemma SumsOnTheLeft(x: word, y: word, z: word, t: word)
    requires t == x + y
    ensures t + z == x + y + z
  {
  }

  lemma SumsOnTheRight(x: word, y: word, z: word, u: word)
    requires u == y + z
    ensures x + u == x + y + z
  {
  }

  lemma SumIsPlus(x: word, y: word)
    ensures Sum(x, y) == x + y
  {
  }

  lemma Chain<T>(p: T, q: T, r: T)
    requires p == q && q == r
    ensures p == r
  {
  }

  lemma SumOfSumOnTheLeft(x: word, y: word, z: word, t: word)
    requires t == x + y
    ensures Sum(t, z) == x + y + z
  {
    SumsOnTheLeft(x, y, z, t);
    SumIsPlus(t, z);
    Chain(Sum(t, z), t + z, x + y + z);
  }

  lemma SumOfSumOnTheRight(x: word, y: word, z: word, u: word)
    requires u == y + z
    ensures Sum(x, u) == x + y + z
  {
    SumsOnTheRight(x, y, z, u);
    SumIsPlus(x, u);
    Chain(Sum(x, u), x + u, x + y + z);
  }

  lemma SumIsAssociative(x: word, y: word, z: word)
    ensures Sum(Sum(x, y), z) == Sum(x, Sum(y, z))
  {
    SumOfSumOnTheLeft(x, y, z, Sum(x, y));
    SumOfSumOnTheRight(x, y, z, Sum(y, z));
  }

  lemma FipsSums()
    ensures Sums(Fips().plus)
  {
    forall x: word, y: word, z: word
      ensures Fips().plus(Fips().plus(x, y), z) == Fips().plus(x, Fips().plus(y, z))
    {
      SumIsAssociative(x, y, z);
    }
  }

  /** With any addition that obeys them, the schedule in the order in which the standard adds
      its four terms. */
  lemma ExpandIsStandard(o: WordOps, w2: word, w7: word, w15: word, w16: word)
    requires Sums(o.plus)
    ensures Expand(o, w2, w7, w15, w16) == o.plus(o.plus(o.plus(o.smallSigma1(w2), w7), o.smallSigma0(w15)), w16)
  {
    var plus, a, b, c, d := o.plus, o.smallSigma1(w2), w7, o.smallSigma0(w15), w16;
    assert plus(plus(plus(c, d), a), b) == plus(plus(c, d), plus(a, b));
    assert plus(plus(a, b), plus(c, d)) == plus(plus(plus(a, b), c), d);
  }

  /** So the standard's operations give the schedule of the standard. */
  lemma FipsExpandIsStandard(w2: word, w7: word, w15: word, w16: word)
    ensures Expand(Fips(), w2, w7, w15, w16) == Sum(Sum(Sum(SmallSigma1(w2), w7), SmallSigma0(w15)), w16)
  {
    FipsSums();
    ExpandIsStandard(Fips(), w2, w7, w15, w16);
  }

  function Round(o: WordOps, s: Eight, k: word, w: word): Eight {
    var t1 := o.plus(o.plus(o.plus(o.plus(s.h, o.bigSigma1(s.e)), o.ch(s.e, s.f, s.g)), k), w);
    var t2 := o.plus(o.bigSigma0(s.a), o.maj(s.a, s.b, s.c));
    Eight(o.plus(t1, t2), s.a, s.b, s.c, o.plus(s.d, t1), s.e, s.f, s.g)
  }

  const ROUNDS: nat := 64

  function Rounds(o: WordOps, s: Eight, block: seq<byte>, t: nat): Eight
    requires |block| == 64 && t <= ROUNDS
  {
    if t == 0 then s
    else Round(o, Rounds(o, s, block, t - 1), o.k(t - 1), Schedule(o, block, t - 1))
  }

  function Plus(o: WordOps, x: Eight, y: Eight): Eight {
    Eight(o.plus(x.a, y.a), o.plus(x.b, y.b), o.plus(x.c, y.c), o.plus(x.d, y.d),
          o.plus(x.e, y.e), o.plus(x.f, y.f), o.plus(x.g, y.g), o.plus(x.h, y.h))
  }

  function Compress(o: WordOps, s: Eight, block: seq<byte>): Eight
    requires |block| == 64
  {
    Plus(o, s, Rounds(o, s, block, ROUNDS))
  }

  // ----- chaining over blocks -----

  /** An initial value and a compression function of 64-byte blocks. */
  datatype Chaining = Chaining(initial: Eight, step: (Eight, seq<byte>) -> Eight)

  function ChainingOf(o: WordOps): Chaining {
    Chaining(o.initial, (s: Eight, block: seq<byte>) => if |block| == 64 then Compress(o, s, block) else s)
  }

  /** A chaining whose steps are the compression with these operations. */
  ghost predicate Implements(o: WordOps, c: Chaining) {
    && c.initial == o.initial
    && forall s: Eight, block: seq<byte> {:trigger Compress(o, s, block)} | |block| == 64 ::
         c.step(s, block) == Compress(o, s, block)
  }

  /** Operations with the chaining that they compute. */
  datatype RawEngine = RawEngine(o: WordOps, c: Chaining)
  type Engine = e: RawEngine | Implements(e.o, e.c) ghost witness Standard()

  /** The chaining of SHA-256. */
  function Sha256(): Chaining { ChainingOf(Fips()) }

  function Standard(): (e: RawEngine)
    ensures Implements(e.o, e.c) && e.c == Sha256()
  {
    RawEngine(Fips(), Sha256())
  }

  /** H(i) from H(i-1) and block i, starting from H(0). */
  function HashBlocks(c: Chaining, data: seq<byte>): Eight
    requires |data| % 64 == 0
  {
    if data == [] then c.initial
    else c.step(HashBlocks(c, data[..|data| - 64]), data[|data| - 64..])
  }

  // ----- padding (section 5.1.1) and digest -----

  /** `bits >> (8 * i)`. */
  function ShiftedBytes(bits: nat, i: nat): nat {
    if i == 0 then bits else ShiftedBytes(bits, i - 1) / 256
  }

  /** Byte `i`, counted from the least significant, of a length. */
  function LengthByte(bits: nat, i: nat): byte {
    (ShiftedBytes(bits, i) % 256) as byte
  }

  /** The 64-bit big-endian length field. */
  function LengthField(bits: nat): (s: seq<byte>)
    ensures |s| == 8
  {
    seq(8, i requires 0 <= i < 8 => LengthByte(bits, 7 - i))
  }

  /** The number that big-endian bytes stand for. */
  function FieldValue(s: seq<byte>): nat {
    if s == [] then 0 else 256 * FieldValue(s[..|s| - 1]) + s[|s| - 1] as nat
  }

  lemma {:induction false} FieldPrefix(bits: nat, k: nat)
    requires k <= 8 && ShiftedBytes(bits, 8) == 0
    ensures FieldValue(LengthField(bits)[..k]) == ShiftedBytes(bits, 8 - k)
  {
    if k > 0 {
      FieldPrefix(bits, k - 1);
      assert LengthField(bits)[..k][..k - 1] == LengthField(bits)[..k - 1];
      ByteRoundTrip(ShiftedBytes(bits, 8 - k) % 256);
    }
  }

  lemma ByteRoundTrip(x: nat)
    requires x < 256
    ensures (x as byte) as nat == x
  {
    if x < 16 {
    } else if x < 32 {
    } else if x < 64 {
    } else if x < 128 {
    }
  }

  /** For every message the standard allows, the padding's last eight bytes are its length in bits. */
  lemma LengthFieldIsLength(message: seq<byte>)
    requires 8 * |message| < 0x1_0000_0000_0000_0000
    ensures FieldValue(Pad(message)[|Pad(message)| - 8..]) == 8 * |message|
  {
    var field := LengthField(8 * |message|);
    assert Pad(message)[|Pad(message)| - 8..] == field;
    var n := 8 * |message|;
    assert ShiftedBytes(n, 1) < 0x100_0000_0000_0000 && ShiftedBytes(n, 2) < 0x1_0000_0000_0000;
    assert ShiftedBytes(n, 3) < 0x100_0000_0000 && ShiftedBytes(n, 4) < 0x1_0000_0000;
    assert ShiftedBytes(n, 5) < 0x100_0000 && ShiftedBytes(n, 6) < 0x1_0000;
    assert ShiftedBytes(n, 7) < 0x100 && ShiftedBytes(n, 8) == 0;
    FieldPrefix(8 * |message|, 8);
    assert field[..8] == field;
  }

  function Zeros(n: nat): (s: seq<byte>)
    ensures |s| == n
  {
    seq(n, _ => 0)
  }

  /** The smallest count of zero bytes that brings message, marker and zeros to 56 modulo 64. */
  function ZeroCount(length: nat): (k: nat)
    ensures (length + 1 + k) % 64 == 56
    ensures k < 64
  {
    (55 - length) % 64
  }

  function Pad(message: seq<byte>): (p: seq<byte>)
    ensures |p| % 64 == 0
  {
    var k := ZeroCount(|message|);
    assert (|message| + 1 + k + 8) % 64 == 0;
    message + [0x80] + Zeros(k) + LengthField(8 * |message| % 0x1_0000_0000_0000_0000)
  }

  function WordBytes(w: word): (s: seq<byte>)
    ensures |s| == 4
  {
    [((w >> 24) & 0xff) as byte, ((w >> 16) & 0xff) as byte, ((w >> 8) & 0xff) as byte, (w & 0xff) as byte]
  }

  function Digest(s: Eight): (d: seq<byte>)
    ensures |d| == 32
  {
    WordBytes(s.a) + WordBytes(s.b) + WordBytes(s.c) + WordBytes(s.d) +
    WordBytes(s.e) + WordBytes(s.f) + WordBytes(s.g) + WordBytes(s.h)
  }

  /** The hash; SHA-256 is `Hash(Sha256(), message)`. */
  function Hash(c: Chaining, message: seq<byte>): (d: seq<byte>)
    ensures |d| == 32
  {
    Digest(HashBlocks(c, Pad(message)))
  }

  // ----- HMAC (section 2 of RFC 2104) -----

  function BlockKey(c: Chaining, key: seq<byte>): (k: seq<byte>)
    ensures |k| == 64
  {
    var short := if |key| > 64 then Hash(c, key) else key;
    short + Zeros(64 - |short|)
  }

  function Masked(key: seq<byte>, mask: byte): (k: seq<byte>)
    ensures |k| == |key|
  {
    seq(|key|, i requires 0 <= i < |key| => key[i] ^ mask)
  }

  function Hmac(c: Chaining, key: seq<byte>, text: seq<byte>): (d: seq<byte>)
    ensures |d| == 32
  {
    Hash(c, Masked(BlockKey(c, key), 0x5c) + Hash(c, Masked(BlockKey(c, key), 0x36) + text))
  }
}
