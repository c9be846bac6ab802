/** The buffered incremental hash: a context updated in place, fed in any number of
    pieces, whose digest is the one-shot hash of their concatenation; and HMAC on it. */
module Sha256Stream {
  import opened Sha256Spec

  const UINT64: nat := 0x1_0000_0000_0000_0000

  /** The message schedule of a block, filled in place: the words of the block, then
      each later word from four earlier ones. */
  method FillSchedule(o: WordOps, block: seq<byte>) returns (w: array<word>)
    requires |block| == 64
    ensures w.Length == 64 && fresh(w)
    ensures forall t | 0 <= t < 64 :: w[t] == Schedule(o, block, t)
  {
    w := new word[64];
    for i := 0 to 16
      invariant forall t | 0 <= t < i :: w[t] == Schedule(o, block, t)
    {
      w[i] := o.bigEndian(block[i * 4], block[i * 4 + 1], block[i * 4 + 2], block[i * 4 + 3]);
    }
    ExtendSchedule(o, block, w);
  }

  method ExtendSchedule(o: WordOps, block: seq<byte>, w: array<word>)
    requires |block| == 64 && w.Length == 64
    requires forall t | 0 <= t < 16 :: w[t] == Schedule(o, block, t)
    modifies w
    ensures forall t | 0 <= t < 64 :: w[t] == Schedule(o, block, t)
  {
    for i := 16 to 64
      invariant forall t | 0 <= t < i :: w[t] == Schedule(o, block, t)
    {
      var x, y := w[i - 15], w[i - 2];
      assert Schedule(o, block, i) == Expand(o, y, w[i - 7], x, w[i - 16]);
      w[i] := o.plus(o.plus(o.plus(o.smallSigma0(x), w[i - 16]), o.smallSigma1(y)), w[i - 7]);
    }
  }

  /** One compression: sixty-four rounds on eight locals, then added into the state. */
  method Block(o: WordOps, h: Eight, block: seq<byte>) returns (r: Eight)
    requires |block| == 64
    ensures r == Compress(o, h, block)
  {
    var w := FillSchedule(o, block);
    var a, b, cc, d, e, f, g, hh := h.a, h.b, h.c, h.d, h.e, h.f, h.g, h.h;
    for i := 0 to 64
      invariant forall t | 0 <= t < 64 :: w[t] == Schedule(o, block, t)
      invariant Eight(a, b, cc, d, e, f, g, hh) == Rounds(o, h, block, i)
    {
      var t1 := o.plus(o.plus(o.plus(o.plus(hh, o.bigSigma1(e)), o.ch(e, f, g)), o.k(i)), w[i]);
      var t2 := o.plus(o.bigSigma0(a), o.maj(a, b, cc));
      hh := g; g := f; f := e; e := o.plus(d, t1); d := cc; cc := b; b := a; a := o.plus(t1, t2);
    }
    r := Eight(o.plus(h.a, a), o.plus(h.b, b), o.plus(h.c, cc), o.plus(h.d, d),
               o.plus(h.e, e), o.plus(h.f, f), o.plus(h.g, g), o.plus(h.h, hh));
  }

  /** The hash context, over the operations that `Block` runs with. */
  class Context {
    const e: Engine
    var h: Eight
    var bits: nat
    var used: nat
    const buf: array<byte>
    /** The whole blocks hashed so far. */
    ghost var hashed: seq<byte>

    ghost predicate Valid()
      reads this, buf
    {
      && buf.Length == 64 && used < 64 && |hashed| % 64 == 0
      && bits == 8 * |Message()| % UINT64
      && h == HashBlocks(e.c, hashed)
    }

    /** Everything fed so far. */
    ghost function Message(): seq<byte>
      requires used <= buf.Length
      reads this, buf
    {
      hashed + buf[..used]
    }

    constructor (e: Engine)
      ensures Valid() && Message() == [] && fresh(buf) && this.e == e
    {
      this.e := e;
      h, bits, used := e.o.initial, 0, 0;
      buf := new byte[64];
      hashed := [];
    }

    method Update(data: seq<byte>)
      requires Valid()
      modifies this, buf
      ensures Valid() && Message() == old(Message()) + data
    {
      Count(|data|);
      Feed(data);
    }

    /** `bits += n * 8`, on 64 bits. */
    method Count(n: nat)
      requires used <= buf.Length && bits == 8 * |Message()| % UINT64
      modifies this`bits
      ensures bits == 8 * (|Message()| + n) % UINT64
    {
      bits := (bits + n * 8) % UINT64;
    }

    method Feed(data: seq<byte>)
      requires buf.Length == 64 && used < 64 && |hashed| % 64 == 0
      requires h == HashBlocks(e.c, hashed)
      modifies this`h, this`used, this`hashed, buf
      ensures used < 64 && |hashed| % 64 == 0
      ensures h == HashBlocks(e.c, hashed)
      ensures Message() == old(Message()) + data
    {
      ghost var before := Message();
      var p := 0;
      while p < |data|
        invariant 0 <= p <= |data|
        invariant used < 64 && |hashed| % 64 == 0
        invariant Message() == before + data[..p]
        invariant h == HashBlocks(e.c, hashed)
        decreases |data| - p
      {
        var z := Take(data, p);
        NextPiece(before, data, p, z);
        p := p + z;
      }
      assert data[..|data|] == data;
    }

    /** As much of the data as the block has room for. */
    method Take(data: seq<byte>, p: nat) returns (z: nat)
      requires buf.Length == 64 && used < 64 && |hashed| % 64 == 0 && p < |data|
      requires h == HashBlocks(e.c, hashed)
      modifies this`h, this`used, this`hashed, buf
      ensures used < 64 && |hashed| % 64 == 0 && 0 < z <= |data| - p
      ensures h == HashBlocks(e.c, hashed)
      ensures Message() == old(Message()) + data[p..p + z]
    {
      z := if 64 - used > |data| - p then |data| - p else 64 - used;
      Fill(data, p, z);
      if used == 64 {
        Flush();
      }
    }

    method Fill(data: seq<byte>, p: nat, z: nat)
      requires buf.Length == 64 && used + z <= 64 && p + z <= |data|
      modifies this`used, buf
      ensures used == old(used) + z && Message() == old(Message()) + data[p..p + z]
    {
      ghost var was := buf[..used];
      Copy(data, p, z);
      Join(hashed, was, data[p..p + z]);
    }

    /** `memcpy(buf + used, p, z)`. */
    method Copy(data: seq<byte>, p: nat, z: nat)
      requires buf.Length == 64 && used + z <= 64 && p + z <= |data|
      modifies this`used, buf
      ensures used == old(used) + z
      ensures buf[..used] == old(buf[..used]) + data[p..p + z]
    {
      forall k | 0 <= k < z {
        buf[used + k] := data[p + k];
      }
      used := used + z;
    }

    /** Compress a full buffer and start an empty one. */
    method Flush()
      requires buf.Length == 64 && used == 64 && |hashed| % 64 == 0
      requires h == HashBlocks(e.c, hashed)
      modifies this`h, this`used, this`hashed
      ensures used == 0 && hashed == old(Message())
      ensures h == HashBlocks(e.c, hashed)
    {
      h := Block(e.o, h, buf[..]);
      hashed := hashed + buf[..];
      used := 0;
    }

    method Final() returns (out: seq<byte>)
      requires Valid()
      modifies this, buf
      ensures out == Hash(e.c, old(Message()))
    {
      ghost var message := Message();
      PaddingOf(hashed, buf[..used]);
      Mark();
      if used > 56 {
        Spill();
      }
      Close();
      assert hashed == Pad(message);
      out := Digest(h);
    }

    ghost predicate Chained()
      reads this, buf
    {
      buf.Length == 64 && used <= 64 && |hashed| % 64 == 0 && h == HashBlocks(e.c, hashed)
    }

    /** `buf[used++] = 0x80`. */
    method Mark()
      requires buf.Length == 64 && used < 64
      modifies this`used, buf
      ensures used == old(used) + 1 && Message() == old(Message()) + [0x80]
    {
      buf[used] := 0x80;
      used := used + 1;
    }

    /** Zero the rest of a block that has no room for the length, and compress it. */
    method Spill()
      requires Chained() && used > 56
      modifies this`h, this`used, this`hashed, buf
      ensures Chained() && used == 0
      ensures Message() == hashed == old(Message()) + Zeros(64 - old(used))
    {
      ZeroUpTo(64);
      Flush();
    }

    /** Zero up to the length, put the length, and compress the last block. */
    method Close()
      requires Chained() && used <= 56
      modifies this`h, this`used, this`hashed, buf
      ensures Chained()
      ensures hashed == old(Message()) + Zeros(56 - old(used)) + LengthField(bits)
    {
      ghost var partial := buf[..used];
      ZeroUpTo(56);
      PutLength();
      used := 64;
      Regroup(hashed, partial, Zeros(56 - |partial|), LengthField(bits), buf[..]);
      assert buf[..used] == buf[..];
      Flush();
    }

    method PutLength()
      requires buf.Length == 64
      modifies buf
      ensures buf[..] == old(buf[..56]) + LengthField(bits)
    {
      for i := 0 to 8
        invariant buf[..56] == old(buf[..56])
        invariant forall k | 0 <= k < i :: buf[63 - k] == LengthByte(bits, k)
      {
        buf[63 - i] := LengthByte(bits, i);
      }
      forall k | 0 <= k < 8
        ensures buf[..][56 + k] == LengthField(bits)[k]
      {
        assert buf[63 - (7 - k)] == LengthByte(bits, 7 - k);
      }
    }

    /** `while(used < limit) buf[used++] = 0`. */
    method ZeroUpTo(limit: nat)
      requires buf.Length == 64 && used <= limit <= 64
      modifies this`used, buf
      ensures used == limit
      ensures buf[..limit] == old(buf[..used]) + Zeros(limit - old(used))
    {
      while used < limit
        invariant old(used) <= used <= limit
        invariant buf[..used] == old(buf[..used]) + Zeros(used - old(used))
      {
        buf[used] := 0;
        used := used + 1;
        assert Zeros(used - old(used)) == Zeros(used - 1 - old(used)) + [0];
      }
    }
  }

  lemma NextPiece(before: seq<byte>, data: seq<byte>, p: nat, z: nat)
    requires p + z <= |data|
    ensures before + data[..p] + data[p..p + z] == before + data[..p + z]
  {
    assert data[..p + z] == data[..p] + data[p..p + z];
  }

  lemma Join(p: seq<byte>, q: seq<byte>, r: seq<byte>)
    ensures p + (q + r) == p + q + r
  {
  }

  lemma Regroup(p: seq<byte>, q: seq<byte>, r: seq<byte>, s: seq<byte>, block: seq<byte>)
    requires block == q + r + s
    ensures p + block == p + q + r + s
  {
  }

  /** The padding, from the bytes that do not fill a block. */
  lemma PaddingOf(whole: seq<byte>, rest: seq<byte>)
    requires |whole| % 64 == 0 && |rest| < 64
    ensures var marked, field := whole + rest + [0x80], LengthField(8 * |whole + rest| % UINT64);
            Pad(whole + rest) == if |rest| < 56 then marked + Zeros(55 - |rest|) + field
                                 else marked + Zeros(63 - |rest|) + Zeros(56) + field
  {
    if |rest| < 56 {
      assert ZeroCount(|whole + rest|) == 55 - |rest|;
    } else {
      assert ZeroCount(|whole + rest|) == 119 - |rest|;
      assert Zeros(119 - |rest|) == Zeros(63 - |rest|) + Zeros(56);
    }
  }

  function Joined(pieces: seq<seq<byte>>): seq<byte> {
    if pieces == [] then [] else Joined(pieces[..|pieces| - 1]) + pieces[|pieces| - 1]
  }

  method HashWith(e: Engine, pieces: seq<seq<byte>>) returns (out: seq<byte>)
    ensures out == Hash(e.c, Joined(pieces))
  {
    var context := new Context(e);
    for i := 0 to |pieces|
      invariant context.Valid() && context.e == e && context.Message() == Joined(pieces[..i]) && fresh(context) && fresh(context.buf)
    {
      context.Update(pieces[i]);
      assert pieces[..i + 1][..i] == pieces[..i];
    }
    assert pieces[..|pieces|] == pieces;
    out := context.Final();
  }

  /** However a message is cut into updates, the digest is the SHA-256 of the whole message. */
  method HashPieces(pieces: seq<seq<byte>>) returns (out: seq<byte>)
    ensures out == Hash(Sha256(), Joined(pieces))
  {
    out := HashWith(Standard(), pieces);
  }

  lemma JoinedPair(a: seq<byte>, b: seq<byte>)
    ensures Joined([a]) == a && Joined([a, b]) == a + b
  {
    assert [a][..0] == [] && [a, b][..1] == [a];
  }

  method KeyBlock(e: Engine, key: seq<byte>) returns (kb: seq<byte>)
    ensures kb == BlockKey(e.c, key)
  {
    kb := key;
    if |key| > 64 {
      kb := HashWith(e, [key]);
      JoinedPair(key, []);
    }
    kb := kb + Zeros(64 - |kb|);
  }

  method HmacWith(e: Engine, key: seq<byte>, data: seq<byte>) returns (out: seq<byte>)
    ensures out == Hmac(e.c, key, data)
  {
    var kb := KeyBlock(e, key);
    var ip, op := Masked(kb, 0x36), Masked(kb, 0x5c);
    var digest := HashWith(e, [ip, data]);
    JoinedPair(ip, data);
    out := HashWith(e, [op, digest]);
    JoinedPair(op, digest);
  }

  method HmacSha256(key: seq<byte>, data: seq<byte>) returns (out: seq<byte>)
    ensures out == Hmac(Sha256(), key, data)
  {
    out := HmacWith(Standard(), key, data);
  }
}
