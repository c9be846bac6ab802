/** What the operations of SHA-256 and HMAC mean, said apart from how they are written, and the
    first example of the standard. */
module Sha256Laws {
  import opened Sha256Spec

  // ----- words -----

  lemma BigSigma0IsRotations(x: word)
    ensures BigSigma0(x) == x.RotateRight(2) ^ x.RotateRight(13) ^ x.RotateRight(22)
  {
  }

  lemma BigSigma1IsRotations(x: word)
    ensures BigSigma1(x) == x.RotateRight(6) ^ x.RotateRight(11) ^ x.RotateRight(25)
  {
  }

  lemma SmallSigma0IsRotations(x: word)
    ensures SmallSigma0(x) == x.RotateRight(7) ^ x.RotateRight(18) ^ (x >> 3)
  {
  }

  lemma SmallSigma1IsRotations(x: word)
    ensures SmallSigma1(x) == x.RotateRight(17) ^ x.RotateRight(19) ^ (x >> 10)
  {
  }

  /** Where `x` has a one the bit of `y` is taken, elsewhere that of `z`. */
  lemma ChChooses(x: word, y: word, z: word)
    ensures Ch(x, y, z) & x == y & x && Ch(x, y, z) & !x == z & !x
  {
  }

  /** A bit is set where at least two of the words have it. */
  lemma MajIsMajority(x: word, y: word, z: word)
    ensures Maj(x, y, z) == (x & y) | (x & z) | (y & z)
  {
  }

  // ----- bytes -----

  /** The first byte is the most significant. */
  lemma BigEndianIsPositional(b0: byte, b1: byte, b2: byte, b3: byte)
    ensures BigEndian(b0, b1, b2, b3) == 0x100_0000 * (b0 as word) + 0x1_0000 * (b1 as word) + 0x100 * (b2 as word) + b3 as word
  {
  }

  lemma WordBytesReadBack(w: word)
    ensures var s := WordBytes(w); BigEndian(s[0], s[1], s[2], s[3]) == w
  {
  }

  // ----- HMAC -----

  /** A key of at most a block, or the hash of a longer one, filled up with zeros. */
  ghost predicate FillsBlock(c: Chaining, key: seq<byte>, kb: seq<byte>) {
    var start := if |key| <= 64 then key else Hash(c, key);
    |kb| == 64 && start <= kb && forall k | |start| <= k < 64 :: kb[k] == 0
  }

  /** `pad` differs from the key's block in the same bits of every byte. */
  ghost predicate Differs(kb: seq<byte>, pad: seq<byte>, mask: byte) {
    |pad| == |kb| && forall k | 0 <= k < |kb| :: pad[k] == kb[k] ^ mask
  }

  /** HMAC, given the three blocks of section 2 of RFC 2104 by what they are. */
  lemma HmacIsNested(c: Chaining, key: seq<byte>, text: seq<byte>, kb: seq<byte>, inner: seq<byte>, outer: seq<byte>)
    requires FillsBlock(c, key, kb) && Differs(kb, inner, 0x36) && Differs(kb, outer, 0x5c)
    ensures Hmac(c, key, text) == Hash(c, outer + Hash(c, inner + text))
  {
    assert kb == BlockKey(c, key);
    assert inner == Masked(kb, 0x36) && outer == Masked(kb, 0x5c);
  }

  // ----- an example of the standard -----

  /** The next sixteen words of the schedule, and the working variables. */
  datatype Sixteen = Sixteen(
    w0: word, w1: word, w2: word, w3: word, w4: word, w5: word, w6: word, w7: word,
    w8: word, w9: word, w10: word, w11: word, w12: word, w13: word, w14: word, w15: word)
  datatype Point = Point(v: Sixteen, s: Eight)

  function Slide(v: Sixteen, w: word): Sixteen {
    Sixteen(v.w1, v.w2, v.w3, v.w4, v.w5, v.w6, v.w7, v.w8, v.w9, v.w10, v.w11, v.w12, v.w13, v.w14, v.w15, w)
  }

  function Next(p: Point, k: word): Point {
    Point(Slide(p.v, Expand(Fips(), p.v.w14, p.v.w9, p.v.w1, p.v.w0)), Round(Fips(), p.s, k, p.v.w0))
  }

  const AFTER0 := Point(
    Sixteen(0x61626380, 0x00000000, 0x00000000, 0x00000000, 0x00000000, 0x00000000, 0x00000000, 0x00000000,
            0x00000000, 0x00000000, 0x00000000, 0x00000000, 0x00000000, 0x00000000, 0x00000000, 0x00000018),
    Eight(0x6a09e667, 0xbb67ae85, 0x3c6ef372, 0xa54ff53a, 0x510e527f, 0x9b05688c, 0x1f83d9ab, 0x5be0cd19))
  const AFTER8 := Point(
    Sixteen(0x00000000, 0x00000000, 0x00000000, 0x00000000, 0x00000000, 0x00000000, 0x00000000, 0x00000018,
            0x61626380, 0x000f0000, 0x7da86405, 0x600003c6, 0x3e9d7b78, 0x0183fc00, 0x12dcbfdb, 0xe2e2c38e),
    Eight(0x85a07b5f, 0xe5030380, 0x2b4209f5, 0x04409a6a, 0x0c657a79, 0x9b27a401, 0x714260ad, 0x43ada245))
  const AFTER16 := Point(
    Sixteen(0x61626380, 0x000f0000, 0x7da86405, 0x600003c6, 0x3e9d7b78, 0x0183fc00, 0x12dcbfdb, 0xe2e2c38e,
            0xc8215c1a, 0xb73679a2, 0xe5bc3909, 0x32663c5b, 0x9d209d67, 0xec8726cb, 0x702138a4, 0xd3b7973b),
    Eight(0xb0fa238e, 0xc0645fde, 0xd932eb16, 0x87912990, 0x07590dcd, 0x0b92f20c, 0x745a48de, 0x1e578218))
  const AFTER24 := Point(
    Sixteen(0xc8215c1a, 0xb73679a2, 0xe5bc3909, 0x32663c5b, 0x9d209d67, 0xec8726cb, 0x702138a4, 0xd3b7973b,
            0x93f5997f, 0x3b68ba73, 0xaff4ffc1, 0xf10a5c62, 0x0a8b3996, 0x72af830a, 0x9409e33e, 0x24641522),
    Eight(0xc5d53d8d, 0xa7a3623f, 0xc2606d6d, 0x9dc68b63, 0xaa47c347, 0x49f5114a, 0xe1257970, 0x8ada8930))
  const AFTER32 := Point(
    Sixteen(0x93f5997f, 0x3b68ba73, 0xaff4ffc1, 0xf10a5c62, 0x0a8b3996, 0x72af830a, 0x9409e33e, 0x24641522,
            0x9f47bf94, 0xf0a64f5a, 0x3e246a79, 0x27333ba3, 0x0c4763f2, 0x840abf27, 0x7a290d5d, 0x065c43da),
    Eight(0x73b33bf5, 0xea992a22, 0xa0060b30, 0x363482c9, 0xba591112, 0x0109ab3a, 0xade79437, 0x6112a3b7))
  const AFTER40 := Point(
    Sixteen(0x9f47bf94, 0xf0a64f5a, 0x3e246a79, 0x27333ba3, 0x0c4763f2, 0x840abf27, 0x7a290d5d, 0x065c43da,
            0xfb3e89cb, 0xcc7617db, 0xb9e66c34, 0xa9993667, 0x84badedd, 0xc21462bc, 0x1487472c, 0xb20f7a99),
    Eight(0x79ea687a, 0x6dc57a8a, 0x34df1604, 0x41a65cb1, 0x1efbc0a0, 0xf0781bc8, 0xa507a53d, 0x0772a26b))
  const AFTER48 := Point(
    Sixteen(0xfb3e89cb, 0xcc7617db, 0xb9e66c34, 0xa9993667, 0x84badedd, 0xc21462bc, 0x1487472c, 0xb20f7a99,
            0xef57b9cd, 0xebe6b238, 0x9fe3095e, 0x78bc8d4b, 0xa43fcf15, 0x668b2ff8, 0xeeaba2cc, 0x12b1edeb),
    Eight(0x4172328d, 0xa14c14b0, 0x72ab4b91, 0x26628815, 0xfecf0bc6, 0xd57b94a9, 0xb7755da1, 0xa80f11f0))
  const AFTER56 := Point(
    Sixteen(0xef57b9cd, 0xebe6b238, 0x9fe3095e, 0x78bc8d4b, 0xa43fcf15, 0x668b2ff8, 0xeeaba2cc, 0x12b1edeb,
            0xb80a5a34, 0x1ce797d5, 0x310fc1d7, 0xa31968ce, 0x7d8ce042, 0xd5892c87, 0x0ef2e48b, 0x86476aaa),
    Eight(0x38cc9913, 0x3ec45cdb, 0xf5702fdb, 0x101fd28f, 0x54cb266b, 0xe50e1b4f, 0x9f4787c3, 0x529e7d00))
  const AFTER64 := Point(
    Sixteen(0xb80a5a34, 0x1ce797d5, 0x310fc1d7, 0xa31968ce, 0x7d8ce042, 0xd5892c87, 0x0ef2e48b, 0x86476aaa,
            0xfb3bcd9a, 0xe1abf701, 0x9cf194d1, 0x47ad031d, 0xaa812721, 0x04360d9c, 0xdb5ae899, 0xbe66bc93),
    Eight(0x506e3058, 0xd39a2165, 0x04d24d6c, 0xb85e2ce9, 0x5ef50f24, 0xfb121210, 0x948d25b6, 0x961f4894))

  function EightRounds(p: Point, k: seq<word>): Point
    requires |k| == 8
  {
    Next(Next(Next(Next(Next(Next(Next(Next(p, k[0]), k[1]), k[2]), k[3]), k[4]), k[5]), k[6]), k[7])
  }

  lemma Rounds0To8()
    ensures EightRounds(AFTER0, K0) == AFTER8
  {
    var p1 := Next(AFTER0, K0[0]);
    assert p1.v.w15 == 0x61626380 && p1.s.a == 0x5d6aebcd && p1.s.e == 0xfa2a4622;
    var p2 := Next(p1, K0[1]);
    assert p2.v.w15 == 0x000f0000 && p2.s.a == 0x5a6ad9ad && p2.s.e == 0x78ce7989;
    var p3 := Next(p2, K0[2]);
    assert p3.v.w15 == 0x7da86405 && p3.s.a == 0xc8c347a7 && p3.s.e == 0xf92939eb;
    var p4 := Next(p3, K0[3]);
    assert p4.v.w15 == 0x600003c6 && p4.s.a == 0xd550f666 && p4.s.e == 0x24e00850;
    var p5 := Next(p4, K0[4]);
    assert p5.v.w15 == 0x3e9d7b78 && p5.s.a == 0x04409a6a && p5.s.e == 0x43ada245;
    var p6 := Next(p5, K0[5]);
    assert p6.v.w15 == 0x0183fc00 && p6.s.a == 0x2b4209f5 && p6.s.e == 0x714260ad;
    var p7 := Next(p6, K0[6]);
    assert p7.v.w15 == 0x12dcbfdb && p7.s.a == 0xe5030380 && p7.s.e == 0x9b27a401;
    var p8 := Next(p7, K0[7]);
    assert p8.v.w15 == 0xe2e2c38e && p8.s.a == 0x85a07b5f && p8.s.e == 0x0c657a79;
  }

  lemma Rounds8To16()
    ensures EightRounds(AFTER8, K1) == AFTER16
  {
    var p1 := Next(AFTER8, K1[0]);
    assert p1.v.w15 == 0xc8215c1a && p1.s.a == 0x8e04ecb9 && p1.s.e == 0x32ca2d8c;
    var p2 := Next(p1, K1[1]);
    assert p2.v.w15 == 0xb73679a2 && p2.s.a == 0x8c87346b && p2.s.e == 0x1cc92596;
    var p3 := Next(p2, K1[2]);
    assert p3.v.w15 == 0xe5bc3909 && p3.s.a == 0x4798a3f4 && p3.s.e == 0x436b23e8;
    var p4 := Next(p3, K1[3]);
    assert p4.v.w15 == 0x32663c5b && p4.s.a == 0xf71fc5a9 && p4.s.e == 0x816fd6e9;
    var p5 := Next(p4, K1[4]);
    assert p5.v.w15 == 0x9d209d67 && p5.s.a == 0x87912990 && p5.s.e == 0x1e578218;
    var p6 := Next(p5, K1[5]);
    assert p6.v.w15 == 0xec8726cb && p6.s.a == 0xd932eb16 && p6.s.e == 0x745a48de;
    var p7 := Next(p6, K1[6]);
    assert p7.v.w15 == 0x702138a4 && p7.s.a == 0xc0645fde && p7.s.e == 0x0b92f20c;
    var p8 := Next(p7, K1[7]);
    assert p8.v.w15 == 0xd3b7973b && p8.s.a == 0xb0fa238e && p8.s.e == 0x07590dcd;
  }

  lemma Rounds16To24()
    ensures EightRounds(AFTER16, K2) == AFTER24
  {
    var p1 := Next(AFTER16, K2[0]);
    assert p1.v.w15 == 0x93f5997f && p1.s.a == 0x21da9a9b && p1.s.e == 0x8034229c;
    var p2 := Next(p1, K2[1]);
    assert p2.v.w15 == 0x3b68ba73 && p2.s.a == 0xc2fbd9d1 && p2.s.e == 0x846ee454;
    var p3 := Next(p2, K2[2]);
    assert p3.v.w15 == 0xaff4ffc1 && p3.s.a == 0xfe777bbf && p3.s.e == 0xcc899961;
    var p4 := Next(p3, K2[3]);
    assert p4.v.w15 == 0xf10a5c62 && p4.s.a == 0xe1f20c33 && p4.s.e == 0xb0638179;
    var p5 := Next(p4, K2[4]);
    assert p5.v.w15 == 0x0a8b3996 && p5.s.a == 0x9dc68b63 && p5.s.e == 0x8ada8930;
    var p6 := Next(p5, K2[5]);
    assert p6.v.w15 == 0x72af830a && p6.s.a == 0xc2606d6d && p6.s.e == 0xe1257970;
    var p7 := Next(p6, K2[6]);
    assert p7.v.w15 == 0x9409e33e && p7.s.a == 0xa7a3623f && p7.s.e == 0x49f5114a;
    var p8 := Next(p7, K2[7]);
    assert p8.v.w15 == 0x24641522 && p8.s.a == 0xc5d53d8d && p8.s.e == 0xaa47c347;
  }

  lemma Rounds24To32()
    ensures EightRounds(AFTER24, K3) == AFTER32
  {
    var p1 := Next(AFTER24, K3[0]);
    assert p1.v.w15 == 0x9f47bf94 && p1.s.a == 0x1c2c2838 && p1.s.e == 0x2823ef91;
    var p2 := Next(p1, K3[1]);
    assert p2.v.w15 == 0xf0a64f5a && p2.s.a == 0xcde8037d && p2.s.e == 0x14383d8e;
    var p3 := Next(p2, K3[2]);
    assert p3.v.w15 == 0x3e246a79 && p3.s.a == 0xb62ec4bc && p3.s.e == 0xc74c6516;
    var p4 := Next(p3, K3[3]);
    assert p4.v.w15 == 0x27333ba3 && p4.s.a == 0x77d37528 && p4.s.e == 0xedffbff8;
    var p5 := Next(p4, K3[4]);
    assert p5.v.w15 == 0x0c4763f2 && p5.s.a == 0x363482c9 && p5.s.e == 0x6112a3b7;
    var p6 := Next(p5, K3[5]);
    assert p6.v.w15 == 0x840abf27 && p6.s.a == 0xa0060b30 && p6.s.e == 0xade79437;
    var p7 := Next(p6, K3[6]);
    assert p7.v.w15 == 0x7a290d5d && p7.s.a == 0xea992a22 && p7.s.e == 0x0109ab3a;
    var p8 := Next(p7, K3[7]);
    assert p8.v.w15 == 0x065c43da && p8.s.a == 0x73b33bf5 && p8.s.e == 0xba591112;
  }

  lemma Rounds32To40()
    ensures EightRounds(AFTER32, K4) == AFTER40
  {
    var p1 := Next(AFTER32, K4[0]);
    assert p1.v.w15 == 0xfb3e89cb && p1.s.a == 0x98e12507 && p1.s.e == 0x9cd9f5f6;
    var p2 := Next(p1, K4[1]);
    assert p2.v.w15 == 0xcc7617db && p2.s.a == 0xfe604df5 && p2.s.e == 0x59249dd3;
    var p3 := Next(p2, K4[2]);
    assert p3.v.w15 == 0xb9e66c34 && p3.s.a == 0xa9a7738c && p3.s.e == 0x085f3833;
    var p4 := Next(p3, K4[3]);
    assert p4.v.w15 == 0xa9993667 && p4.s.a == 0x65a0cfe4 && p4.s.e == 0xf4b002d6;
    var p5 := Next(p4, K4[4]);
    assert p5.v.w15 == 0x84badedd && p5.s.a == 0x41a65cb1 && p5.s.e == 0x0772a26b;
    var p6 := Next(p5, K4[5]);
    assert p6.v.w15 == 0xc21462bc && p6.s.a == 0x34df1604 && p6.s.e == 0xa507a53d;
    var p7 := Next(p6, K4[6]);
    assert p7.v.w15 == 0x1487472c && p7.s.a == 0x6dc57a8a && p7.s.e == 0xf0781bc8;
    var p8 := Next(p7, K4[7]);
    assert p8.v.w15 == 0xb20f7a99 && p8.s.a == 0x79ea687a && p8.s.e == 0x1efbc0a0;
  }

  lemma Rounds40To48()
    ensures EightRounds(AFTER40, K5) == AFTER48
  {
    var p1 := Next(AFTER40, K5[0]);
    assert p1.v.w15 == 0xef57b9cd && p1.s.a == 0xd6670766 && p1.s.e == 0x26352d63;
    var p2 := Next(p1, K5[1]);
    assert p2.v.w15 == 0xebe6b238 && p2.s.a == 0xdf46652f && p2.s.e == 0x838b2711;
    var p3 := Next(p2, K5[2]);
    assert p3.v.w15 == 0x9fe3095e && p3.s.a == 0x17aa0dfe && p3.s.e == 0xdecd4715;
    var p4 := Next(p3, K5[3]);
    assert p4.v.w15 == 0x78bc8d4b && p4.s.a == 0x9d4baf93 && p4.s.e == 0xfda24c2e;
    var p5 := Next(p4, K5[4]);
    assert p5.v.w15 == 0xa43fcf15 && p5.s.a == 0x26628815 && p5.s.e == 0xa80f11f0;
    var p6 := Next(p5, K5[5]);
    assert p6.v.w15 == 0x668b2ff8 && p6.s.a == 0x72ab4b91 && p6.s.e == 0xb7755da1;
    var p7 := Next(p6, K5[6]);
    assert p7.v.w15 == 0xeeaba2cc && p7.s.a == 0xa14c14b0 && p7.s.e == 0xd57b94a9;
    var p8 := Next(p7, K5[7]);
    assert p8.v.w15 == 0x12b1edeb && p8.s.a == 0x4172328d && p8.s.e == 0xfecf0bc6;
  }

  lemma Rounds48To56()
    ensures EightRounds(AFTER48, K6) == AFTER56
  {
    var p1 := Next(AFTER48, K6[0]);
    assert p1.v.w15 == 0xb80a5a34 && p1.s.a == 0x05757ceb && p1.s.e == 0xbd714038;
    var p2 := Next(p1, K6[1]);
    assert p2.v.w15 == 0x1ce797d5 && p2.s.a == 0xf11bfaa8 && p2.s.e == 0x6e5c390c;
    var p3 := Next(p2, K6[2]);
    assert p3.v.w15 == 0x310fc1d7 && p3.s.a == 0x7a0508a1 && p3.s.e == 0x52f1ccf7;
    var p4 := Next(p3, K6[3]);
    assert p4.v.w15 == 0xa31968ce && p4.s.a == 0x886e7a22 && p4.s.e == 0x49231c1e;
    var p5 := Next(p4, K6[4]);
    assert p5.v.w15 == 0x7d8ce042 && p5.s.a == 0x101fd28f && p5.s.e == 0x529e7d00;
    var p6 := Next(p5, K6[5]);
    assert p6.v.w15 == 0xd5892c87 && p6.s.a == 0xf5702fdb && p6.s.e == 0x9f4787c3;
    var p7 := Next(p6, K6[6]);
    assert p7.v.w15 == 0x0ef2e48b && p7.s.a == 0x3ec45cdb && p7.s.e == 0xe50e1b4f;
    var p8 := Next(p7, K6[7]);
    assert p8.v.w15 == 0x86476aaa && p8.s.a == 0x38cc9913 && p8.s.e == 0x54cb266b;
  }

  lemma Rounds56To64()
    ensures EightRounds(AFTER56, K7) == AFTER64
  {
    var p1 := Next(AFTER56, K7[0]);
    assert p1.v.w15 == 0xfb3bcd9a && p1.s.a == 0xfcd1887b && p1.s.e == 0x9b5e906c;
    var p2 := Next(p1, K7[1]);
    assert p2.v.w15 == 0xe1abf701 && p2.s.a == 0xc062d46f && p2.s.e == 0x7e44008e;
    var p3 := Next(p2, K7[2]);
    assert p3.v.w15 == 0x9cf194d1 && p3.s.a == 0xffb70472 && p3.s.e == 0x6d83bfc6;
    var p4 := Next(p3, K7[3]);
    assert p4.v.w15 == 0x47ad031d && p4.s.a == 0xb6ae8fff && p4.s.e == 0xb21bad3d;
    var p5 := Next(p4, K7[4]);
    assert p5.v.w15 == 0xaa812721 && p5.s.a == 0xb85e2ce9 && p5.s.e == 0x961f4894;
    var p6 := Next(p5, K7[5]);
    assert p6.v.w15 == 0x04360d9c && p6.s.a == 0x04d24d6c && p6.s.e == 0x948d25b6;
    var p7 := Next(p6, K7[6]);
    assert p7.v.w15 == 0xdb5ae899 && p7.s.a == 0xd39a2165 && p7.s.e == 0xfb121210;
    var p8 := Next(p7, K7[7]);
    assert p8.v.w15 == 0xbe66bc93 && p8.s.a == 0x506e3058 && p8.s.e == 0x5ef50f24;
  }

  // ----- the points are those of the schedule and the rounds -----

  /** Word `t` of the schedule, or nothing behind the last. */
  predicate ScheduledAt(block: seq<byte>, t: nat, w: word)
    requires |block| == 64
  {
    t < 64 ==> w == Schedule(Fips(), block, t)
  }

  predicate At(block: seq<byte>, t: nat, p: Point)
    requires |block| == 64 && t <= ROUNDS
  {
    && p.s == Rounds(Fips(), Initial(), block, t)
    && ScheduledAt(block, t, p.v.w0) && ScheduledAt(block, t + 1, p.v.w1) && ScheduledAt(block, t + 2, p.v.w2)
    && ScheduledAt(block, t + 3, p.v.w3) && ScheduledAt(block, t + 4, p.v.w4) && ScheduledAt(block, t + 5, p.v.w5)
    && ScheduledAt(block, t + 6, p.v.w6) && ScheduledAt(block, t + 7, p.v.w7) && ScheduledAt(block, t + 8, p.v.w8)
    && ScheduledAt(block, t + 9, p.v.w9) && ScheduledAt(block, t + 10, p.v.w10) && ScheduledAt(block, t + 11, p.v.w11)
    && ScheduledAt(block, t + 12, p.v.w12) && ScheduledAt(block, t + 13, p.v.w13) && ScheduledAt(block, t + 14, p.v.w14)
    && ScheduledAt(block, t + 15, p.v.w15)
  }

  lemma OneRound(block: seq<byte>, t: nat, p: Point)
    requires |block| == 64 && t < ROUNDS && At(block, t, p)
    ensures At(block, t + 1, Next(p, RoundConstant(t)))
  {
  }

  /** Eight round constants from `t` on. */
  predicate ConstantsAt(t: nat, k: seq<word>) {
    |k| == 8 && forall j | 0 <= j < 8 :: k[j] == RoundConstant(t + j)
  }

  lemma EightRoundsOn(block: seq<byte>, t: nat, p: Point, k: seq<word>)
    requires |block| == 64 && t + 8 <= ROUNDS && At(block, t, p) && ConstantsAt(t, k)
    ensures At(block, t + 8, EightRounds(p, k))
  {
    var p1 := Next(p, k[0]);
    var p2 := Next(p1, k[1]);
    var p3 := Next(p2, k[2]);
    var p4 := Next(p3, k[3]);
    var p5 := Next(p4, k[4]);
    var p6 := Next(p5, k[5]);
    var p7 := Next(p6, k[6]);
    OneRound(block, t, p);
    OneRound(block, t + 1, p1);
    OneRound(block, t + 2, p2);
    OneRound(block, t + 3, p3);
    OneRound(block, t + 4, p4);
    OneRound(block, t + 5, p5);
    OneRound(block, t + 6, p6);
    OneRound(block, t + 7, p7);
  }

  lemma RowIsConstants(t: nat, r: nat, row: seq<word>)
    requires r < 8 && t == 8 * r && row == ConstantRow(r)
    ensures ConstantsAt(t, row)
  {
    forall j | 0 <= j < 8 ensures row[j] == RoundConstant(t + j) {
      assert (t + j) / 8 == r && (t + j) % 8 == j;
    }
  }

  lemma RowLeadsOn(block: seq<byte>, t: nat, p: Point, r: nat, row: seq<word>, q: Point)
    requires |block| == 64 && r < 8 && t == 8 * r && At(block, t, p) && row == ConstantRow(r) && q == EightRounds(p, row)
    ensures At(block, t + 8, q)
  {
    RowIsConstants(t, r, row);
    EightRoundsOn(block, t, p, row);
  }

  lemma Through8(block: seq<byte>, t: nat)
    requires |block| == 64 && t == 0 && At(block, t, AFTER0)
    ensures At(block, t + 8, AFTER8)
  {
    Rounds0To8();
    RowLeadsOn(block, t, AFTER0, 0, K0, AFTER8);
  }

  lemma Through16(block: seq<byte>, t: nat)
    requires |block| == 64 && t == 8 && At(block, t, AFTER8)
    ensures At(block, t + 8, AFTER16)
  {
    Rounds8To16();
    RowLeadsOn(block, t, AFTER8, 1, K1, AFTER16);
  }

  lemma Through24(block: seq<byte>, t: nat)
    requires |block| == 64 && t == 16 && At(block, t, AFTER16)
    ensures At(block, t + 8, AFTER24)
  {
    Rounds16To24();
    RowLeadsOn(block, t, AFTER16, 2, K2, AFTER24);
  }

  lemma Through32(block: seq<byte>, t: nat)
    requires |block| == 64 && t == 24 && At(block, t, AFTER24)
    ensures At(block, t + 8, AFTER32)
  {
    Rounds24To32();
    RowLeadsOn(block, t, AFTER24, 3, K3, AFTER32);
  }

  lemma Through40(block: seq<byte>, t: nat)
    requires |block| == 64 && t == 32 && At(block, t, AFTER32)
    ensures At(block, t + 8, AFTER40)
  {
    Rounds32To40();
    RowLeadsOn(block, t, AFTER32, 4, K4, AFTER40);
  }

  lemma Through48(block: seq<byte>, t: nat)
    requires |block| == 64 && t == 40 && At(block, t, AFTER40)
    ensures At(block, t + 8, AFTER48)
  {
    Rounds40To48();
    RowLeadsOn(block, t, AFTER40, 5, K5, AFTER48);
  }

  lemma Through56(block: seq<byte>, t: nat)
    requires |block| == 64 && t == 48 && At(block, t, AFTER48)
    ensures At(block, t + 8, AFTER56)
  {
    Rounds48To56();
    RowLeadsOn(block, t, AFTER48, 6, K6, AFTER56);
  }

  lemma Through64(block: seq<byte>, t: nat)
    requires |block| == 64 && t == 56 && At(block, t, AFTER56)
    ensures At(block, t + 8, AFTER64)
  {
    Rounds56To64();
    RowLeadsOn(block, t, AFTER56, 7, K7, AFTER64);
  }

  /** The message "abc" and its padded block. */
  const ABC: seq<byte> := [0x61, 0x62, 0x63]

  predicate IsAbcBlock(block: seq<byte>) {
    && |block| == 64 && block[0] == 0x61 && block[1] == 0x62 && block[2] == 0x63 && block[3] == 0x80
    && (forall k | 4 <= k < 63 :: block[k] == 0) && block[63] == 0x18
  }

  lemma SameByte(a: byte, b: byte)
    requires a as nat == b as nat
    ensures a == b
  {
  }

  lemma AbcLength(i: nat)
    requires i < 8
    ensures LengthByte(24, i) == if i == 0 then 0x18 else 0
  {
    ByteRoundTrip(ShiftedBytes(24, i) % 256);
    assert ShiftedBytes(24, 1) == 0 && ShiftedBytes(24, 2) == 0 && ShiftedBytes(24, 3) == 0 && ShiftedBytes(24, 4) == 0;
    assert ShiftedBytes(24, 5) == 0 && ShiftedBytes(24, 6) == 0 && ShiftedBytes(24, 7) == 0;
    SameByte(LengthByte(24, i), if i == 0 then 0x18 else 0);
  }

  lemma AbcIsPadded()
    ensures IsAbcBlock(Pad(ABC))
  {
    assert ZeroCount(3) == 52;
    forall i: nat | i < 8 ensures LengthByte(24, i) == if i == 0 then 0x18 else 0 {
      AbcLength(i);
    }
  }

  lemma AbcWord(block: seq<byte>, t: nat)
    requires IsAbcBlock(block) && t < 16
    ensures Schedule(Fips(), block, t) == if t == 0 then 0x61626380 else if t == 15 then 0x18 else 0
  {
  }

  lemma AbcBegins(block: seq<byte>, t: nat)
    requires IsAbcBlock(block) && t == 0
    ensures At(block, t, AFTER0)
  {
    forall i: nat | i < 16 ensures Schedule(Fips(), block, i) == if i == 0 then 0x61626380 else if i == 15 then 0x18 else 0 {
      AbcWord(block, i);
    }
  }

  lemma Quarter0(block: seq<byte>, t: nat)
    requires |block| == 64 && t == 0 && At(block, t, AFTER0)
    ensures At(block, t + 16, AFTER16)
  {
    Through8(block, t);
    Through16(block, t + 8);
  }

  lemma Quarter1(block: seq<byte>, t: nat)
    requires |block| == 64 && t == 16 && At(block, t, AFTER16)
    ensures At(block, t + 16, AFTER32)
  {
    Through24(block, t);
    Through32(block, t + 8);
  }

  lemma Quarter2(block: seq<byte>, t: nat)
    requires |block| == 64 && t == 32 && At(block, t, AFTER32)
    ensures At(block, t + 16, AFTER48)
  {
    Through40(block, t);
    Through48(block, t + 8);
  }

  lemma Quarter3(block: seq<byte>, t: nat)
    requires |block| == 64 && t == 48 && At(block, t, AFTER48)
    ensures At(block, t + 16, AFTER64)
  {
    Through56(block, t);
    Through64(block, t + 8);
  }

  const ABC_HASH := Eight(0xba7816bf, 0x8f01cfea, 0x414140de, 0x5dae2223, 0xb00361a3, 0x96177a9c, 0xb410ff61, 0xf20015ad)

  lemma AbcRounds(block: seq<byte>, t: nat, last: Point)
    requires IsAbcBlock(block) && t == 0 && last == AFTER64
    ensures Rounds(Fips(), Initial(), block, t + 64) == last.s
  {
    AbcBegins(block, t);
    Quarter0(block, t);
    Quarter1(block, t + 16);
    Quarter2(block, t + 32);
    Quarter3(block, t + 48);
  }

  lemma AbcSum(s: Eight)
    requires s == AFTER64.s
    ensures Plus(Fips(), Initial(), s) == ABC_HASH
  {
  }

  lemma AbcDigest(s: Eight)
    requires s == ABC_HASH
    ensures Digest(s) == [0xba, 0x78, 0x16, 0xbf, 0x8f, 0x01, 0xcf, 0xea, 0x41, 0x41, 0x40, 0xde, 0x5d, 0xae, 0x22, 0x23,
                         0xb0, 0x03, 0x61, 0xa3, 0x96, 0x17, 0x7a, 0x9c, 0xb4, 0x10, 0xff, 0x61, 0xf2, 0x00, 0x15, 0xad]
  {
  }

  lemma OneBlock(block: seq<byte>, s: Eight, t: nat)
    requires |block| == 64 && t == ROUNDS && s == Rounds(Fips(), Initial(), block, t)
    ensures HashBlocks(Sha256(), block) == Plus(Fips(), Initial(), s)
  {
    var e := Standard();
    assert e.c == Sha256() && e.o == Fips();
    var n := |block| - 64;
    assert block[..n] == [] && block[n..] == block;
    assert HashBlocks(Sha256(), block[..n]) == Initial();
  }

  lemma AbcState(block: seq<byte>, s: Eight, t: nat)
    requires IsAbcBlock(block) && t == 64 && s == Rounds(Fips(), Initial(), block, t)
    ensures Plus(Fips(), Initial(), s) == ABC_HASH
  {
    AbcRounds(block, t - 64, AFTER64);
    AbcSum(s);
  }

  lemma AbcBlockIsHashed(block: seq<byte>, s: Eight, t: nat)
    requires IsAbcBlock(block) && t == ROUNDS && s == Rounds(Fips(), Initial(), block, t)
    ensures HashBlocks(Sha256(), block) == ABC_HASH
  {
    OneBlock(block, s, t);
    AbcState(block, s, t);
  }

  /** Example B.1 of FIPS 180-2: the digest of "abc". */
  lemma AbcIsHashed()
    ensures Hash(Sha256(), ABC) == [0xba, 0x78, 0x16, 0xbf, 0x8f, 0x01, 0xcf, 0xea, 0x41, 0x41, 0x40, 0xde, 0x5d, 0xae, 0x22, 0x23,
                         0xb0, 0x03, 0x61, 0xa3, 0x96, 0x17, 0x7a, 0x9c, 0xb4, 0x10, 0xff, 0x61, 0xf2, 0x00, 0x15, 0xad]
  {
    var block, t := Pad(ABC), ROUNDS;
    AbcIsPadded();
    AbcBlockIsHashed(block, Rounds(Fips(), Initial(), block, t), t);
    AbcDigest(HashBlocks(Sha256(), block));
  }

}