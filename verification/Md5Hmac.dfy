/**
 The keyed hash of hmac.c, section 2 of RFC 2104, with its two pads bit by bit.
 */
module Md5Hmac {
  import opened Words
  import opened Md5Spec

  /** a is k with the bits flipped whose numbers are in ones, in every byte. */
  predicate IsFlipped(a: seq<Byte>, k: seq<Byte>, ones: set<nat>) {
    |a| == |k| && forall i :: 0 <= i < |a| ==> FlippedByte(a[i], k[i], ones)
  }

  predicate FlippedByte(a: Byte, k: Byte, ones: set<nat>) {
    forall j: nat :: j < 8 ==> (Bit(a, j) <==> (Bit(k, j) != (j in ones)))
  }

  /** The key, hashed if it is longer than a block, and zeros up to 64 bytes. */
  predicate IsKeyBlock(k: seq<Byte>, key: seq<Byte>) {
    && |k| == 64
    && var short := if |key| > 64 then Digest(key) else key;
       short <= k && forall i :: |short| <= i < 64 ==> k[i] == 0
  }

  lemma {:induction false} SameBits(x: nat, y: nat, n: nat)
    requires x < Power2(n) && y < Power2(n) && forall i: nat :: i < n ==> (Bit(x, i) <==> Bit(y, i))
    ensures x == y
    decreases n
  {
    if n > 0 {
      forall i: nat | i < n - 1
        ensures Bit(x / 2, i) <==> Bit(y / 2, i)
      {
        assert Bit(x, i + 1) <==> Bit(y, i + 1);
      }
      SameBits(x / 2, y / 2, n - 1);
      assert Bit(x, 0) <==> Bit(y, 0);
    }
  }

  lemma PadBits(j: nat)
    requires j < 8
    ensures Bit(0x36, j) <==> j in {1, 2, 4, 5}
    ensures Bit(0x5c, j) <==> j in {2, 3, 4, 6}
  {
    assert !Bit(0x36, 0) && Bit(0x36, 1) && Bit(0x36, 2) && !Bit(0x36, 3);
    assert Bit(0x36, 4) && Bit(0x36, 5) && !Bit(0x36, 6) && !Bit(0x36, 7);
    assert !Bit(0x5c, 0) && !Bit(0x5c, 1) && Bit(0x5c, 2) && Bit(0x5c, 3);
    assert Bit(0x5c, 4) && !Bit(0x5c, 5) && Bit(0x5c, 6) && !Bit(0x5c, 7);
  }

  lemma FlippedIsXor(a: Byte, k: Byte, pad: Byte, ones: set<nat>)
    requires FlippedByte(a, k, ones) && forall j: nat :: j < 8 ==> (Bit(pad, j) <==> j in ones)
    ensures a == XorByte(k, pad)
  {
    hide Bit, Xor;
    forall j: nat | j < 8
      ensures Bit(a, j) <==> Bit(Xor(k, pad), j)
    {
      XorBit(k, pad, j);
    }
    EightMore(0, 1);
    SameBits(a, XorByte(k, pad), 8);
  }

  lemma FlippedAll(a: seq<Byte>, k: seq<Byte>, pad: Byte, ones: set<nat>)
    requires IsFlipped(a, k, ones) && forall j: nat :: j < 8 ==> (Bit(pad, j) <==> j in ones)
    ensures a == XorAll(k, pad)
  {
    hide Bit, XorByte, FlippedByte;
    forall i | 0 <= i < |a|
      ensures a[i] == XorByte(k[i], pad)
    {
      FlippedIsXor(a[i], k[i], pad, ones);
    }
  }

  /** The keyed hash is the hash of the outer block and the hash of the inner block and the
      message, where the blocks are the key with four bits of every byte flipped. */
  lemma HmacExactly(key: seq<Byte>, text: seq<Byte>, k: seq<Byte>, inner: seq<Byte>, outer: seq<Byte>)
    requires IsKeyBlock(k, key) && IsFlipped(inner, k, {1, 2, 4, 5}) && IsFlipped(outer, k, {2, 3, 4, 6})
    ensures Hmac(key, text) == Digest(outer + Digest(inner + text))
  {
    hide Digest, XorAll, IsFlipped, Bit;
    assert k == KeyBlock(key);
    forall j: nat | j < 8
      ensures Bit(0x36, j) <==> j in {1, 2, 4, 5}
      ensures Bit(0x5c, j) <==> j in {2, 3, 4, 6}
    {
      PadBits(j);
    }
    FlippedAll(inner, k, 0x36, {1, 2, 4, 5});
    FlippedAll(outer, k, 0x5c, {2, 3, 4, 6});
  }
}
