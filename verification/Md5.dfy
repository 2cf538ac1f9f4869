/**
 The streaming MD5 context of utility/digest_algorithm/md5.c and the keyed hash of
 utility/digest_algorithm/hmac.c.
 */
module Md5 {
  import opened Words
  import opened ByteOrder
  import opened Md5Spec

  /** The two counter words after n more bytes, n below 2^31. */
  lemma CountStep(bits: nat, n: nat, c0: nat, c1: nat)
    requires n < 0x8000_0000 && c0 == bits % TWO32 && c1 == bits / TWO32 % TWO32
    ensures (bits + 8 * n) % TWO32 == (c0 + 8 * n % TWO32) % TWO32
    ensures (bits + 8 * n) / TWO32 % TWO32
         == (c1 + (if (c0 + 8 * n % TWO32) % TWO32 < 8 * n % TWO32 then 1 else 0) + n / 0x2000_0000) % TWO32
  {
    var q, hi, low := bits / TWO32, n / 0x2000_0000, 8 * n % TWO32;
    assert bits == q * TWO32 + c0;
    assert 8 * n == hi * TWO32 + low;
    var carry := if c0 + low >= TWO32 then 1 else 0;
    assert bits + 8 * n == (q + hi + carry) * TWO32 + (c0 + low - carry * TWO32);
    assert (bits + 8 * n) / TWO32 == q + hi + carry;
  }

  /** The byte count modulo 64 survives the counter's wrap-around. */
  lemma UsedIsTail(n: nat, c0: nat)
    requires c0 == 8 * n % TWO32
    ensures c0 / 8 % 64 == n % 64
  {
    var q := 8 * n / TWO32;
    assert 8 * n == q * TWO32 + c0;
    assert n == 64 * (q * 0x80_0000) + c0 / 8;
    Mod64(q * 0x80_0000, c0 / 8);
  }

  lemma Mod64(q: nat, r: nat)
    ensures (64 * q + r) % 64 == r % 64
  {
  }

  lemma TailMod(done: nat, n: nat)
    requires done % 64 == 0 && done <= n < done + 64
    ensures n % 64 == n - done
  {
  }

  lemma WrapTwice(a: nat, b: nat)
    ensures (a % TWO32 + b) % TWO32 == (a + b) % TWO32
  {
  }

  /** What the buffer holds at the end of an update is the rest of the whole message. */
  lemma Leftover(fed: seq<Byte>, more: seq<Byte>, kept: seq<Byte>, i: nat, done: nat)
    requires i <= |more|
    requires (i == 0 && done <= |fed| && kept == fed[done..]) || (kept == [] && done == |fed| + i)
    ensures (fed + more)[done..] == kept + more[i..]
  {
  }

  lemma AddRegrouped(a: Word, f: Word, x: Word, t: Word)
    ensures Add(false, a, Add(false, Add(false, f, x), t)) == Add(false, Add(false, Add(false, a, f), x), t)
  {
    AddThree(f, x, t);
    AddThree(a, f, x);
    WrapTwice(f + x + t, a);
    WrapTwice(a + f + x, t);
  }

  lemma AddThree(x: Word, y: Word, z: Word)
    ensures Add(false, Add(false, x, y), z) == (x + y + z) % TWO32
  {
    WrapTwice(x + y, z);
  }

  /** The macros FF, GG, HH and II: add into a, rotate, add b. */
  function Turned(m: Mixer, a: Word, b: Word, c: Word, d: Word, x: Word, s: nat, t: Word): Word
    requires s <= 32
  {
    var sum := Add(false, a, Add(false, Add(false, Mixed(m, b, c, d), x), t));
    Add(false, RotateLeft(sum, s), b)
  }

  /** A macro does one step, its words standing where the next step will look for them. */
  lemma TurnedIsStep(h: Hash, op: Op, x: Word)
    ensures Step(h, op, x) == Hash(h.d, Turned(op.mixer, h.a, h.b, h.c, h.d, x, op.s % 32, op.t), h.b, h.c)
  {
    hide Mixed, RotateLeft;
    var f := Mixed(op.mixer, h.b, h.c, h.d);
    AddRegrouped(h.a, f, x, op.t);
    var sum := Add(false, h.a, Add(false, Add(false, f, x), op.t));
    AddCommutes(RotateLeft(sum, op.s % 32), h.b);
  }

  /** What step i of a round makes of the word that it changes. */
  function Turn(ops: seq<Op>, x: seq<Word>, i: nat, a: Word, b: Word, c: Word, d: Word): Word
    requires |x| == 16 && i < |ops|
  {
    Turned(ops[i].mixer, a, b, c, d, x[ops[i].k % 16], ops[i].s % 32, ops[i].t)
  }

  /** Four calls with the words passed round are four steps. */
  lemma FourTurns(h: Hash, ops: seq<Op>, x: seq<Word>, n: nat, g: Hash)
    requires |x| == 16 && n + 4 <= |ops| && g == StepsDone(h, ops, x, n)
    ensures var a := Turn(ops, x, n, g.a, g.b, g.c, g.d);
      var d := Turn(ops, x, n + 1, g.d, a, g.b, g.c);
      var c := Turn(ops, x, n + 2, g.c, d, a, g.b);
      var b := Turn(ops, x, n + 3, g.b, c, d, a);
      StepsDone(h, ops, x, n + 4) == Hash(a, b, c, d)
  {
    hide Step, Turned;
    var g1 := StepsDone(h, ops, x, n + 1);
    var g2 := StepsDone(h, ops, x, n + 2);
    var g3 := StepsDone(h, ops, x, n + 3);
    TurnedIsStep(g, ops[n], x[ops[n].k % 16]);
    TurnedIsStep(g1, ops[n + 1], x[ops[n + 1].k % 16]);
    TurnedIsStep(g2, ops[n + 2], x[ops[n + 2].k % 16]);
    TurnedIsStep(g3, ops[n + 3], x[ops[n + 3].k % 16]);
  }

  method FirstRound(h: Hash, x: seq<Word>) returns (r: Hash)
    requires |x| == 16
    ensures r == RoundDone(h, ROUND1, x)
  {
    hide Turned, StepsDone;
    var a, b, c, d := h.a, h.b, h.c, h.d;
    NoTurns(h, ROUND1, x);
    FourTurns(h, ROUND1, x, 0, Hash(a, b, c, d));
    a := Turned(F, a, b, c, d, x[0], 7, 0xd76aa478);
    d := Turned(F, d, a, b, c, x[1], 12, 0xe8c7b756);
    c := Turned(F, c, d, a, b, x[2], 17, 0x242070db);
    b := Turned(F, b, c, d, a, x[3], 22, 0xc1bdceee);
    FourTurns(h, ROUND1, x, 4, Hash(a, b, c, d));
    a := Turned(F, a, b, c, d, x[4], 7, 0xf57c0faf);
    d := Turned(F, d, a, b, c, x[5], 12, 0x4787c62a);
    c := Turned(F, c, d, a, b, x[6], 17, 0xa8304613);
    b := Turned(F, b, c, d, a, x[7], 22, 0xfd469501);
    FourTurns(h, ROUND1, x, 8, Hash(a, b, c, d));
    a := Turned(F, a, b, c, d, x[8], 7, 0x698098d8);
    d := Turned(F, d, a, b, c, x[9], 12, 0x8b44f7af);
    c := Turned(F, c, d, a, b, x[10], 17, 0xffff5bb1);
    b := Turned(F, b, c, d, a, x[11], 22, 0x895cd7be);
    FourTurns(h, ROUND1, x, 12, Hash(a, b, c, d));
    a := Turned(F, a, b, c, d, x[12], 7, 0x6b901122);
    d := Turned(F, d, a, b, c, x[13], 12, 0xfd987193);
    c := Turned(F, c, d, a, b, x[14], 17, 0xa679438e);
    b := Turned(F, b, c, d, a, x[15], 22, 0x49b40821);
    r := Hash(a, b, c, d);
  }

  method SecondRound(h: Hash, x: seq<Word>) returns (r: Hash)
    requires |x| == 16
    ensures r == RoundDone(h, ROUND2, x)
  {
    hide Turned, StepsDone;
    var a, b, c, d := h.a, h.b, h.c, h.d;
    NoTurns(h, ROUND2, x);
    FourTurns(h, ROUND2, x, 0, Hash(a, b, c, d));
    a := Turned(G, a, b, c, d, x[1], 5, 0xf61e2562);
    d := Turned(G, d, a, b, c, x[6], 9, 0xc040b340);
    c := Turned(G, c, d, a, b, x[11], 14, 0x265e5a51);
    b := Turned(G, b, c, d, a, x[0], 20, 0xe9b6c7aa);
    FourTurns(h, ROUND2, x, 4, Hash(a, b, c, d));
    a := Turned(G, a, b, c, d, x[5], 5, 0xd62f105d);
    d := Turned(G, d, a, b, c, x[10], 9, 0x2441453);
    c := Turned(G, c, d, a, b, x[15], 14, 0xd8a1e681);
    b := Turned(G, b, c, d, a, x[4], 20, 0xe7d3fbc8);
    FourTurns(h, ROUND2, x, 8, Hash(a, b, c, d));
    a := Turned(G, a, b, c, d, x[9], 5, 0x21e1cde6);
    d := Turned(G, d, a, b, c, x[14], 9, 0xc33707d6);
    c := Turned(G, c, d, a, b, x[3], 14, 0xf4d50d87);
    b := Turned(G, b, c, d, a, x[8], 20, 0x455a14ed);
    FourTurns(h, ROUND2, x, 12, Hash(a, b, c, d));
    a := Turned(G, a, b, c, d, x[13], 5, 0xa9e3e905);
    d := Turned(G, d, a, b, c, x[2], 9, 0xfcefa3f8);
    c := Turned(G, c, d, a, b, x[7], 14, 0x676f02d9);
    b := Turned(G, b, c, d, a, x[12], 20, 0x8d2a4c8a);
    r := Hash(a, b, c, d);
  }

  method ThirdRound(h: Hash, x: seq<Word>) returns (r: Hash)
    requires |x| == 16
    ensures r == RoundDone(h, ROUND3, x)
  {
    hide Turned, StepsDone;
    var a, b, c, d := h.a, h.b, h.c, h.d;
    NoTurns(h, ROUND3, x);
    FourTurns(h, ROUND3, x, 0, Hash(a, b, c, d));
    a := Turned(H, a, b, c, d, x[5], 4, 0xfffa3942);
    d := Turned(H, d, a, b, c, x[8], 11, 0x8771f681);
    c := Turned(H, c, d, a, b, x[11], 16, 0x6d9d6122);
    b := Turned(H, b, c, d, a, x[14], 23, 0xfde5380c);
    FourTurns(h, ROUND3, x, 4, Hash(a, b, c, d));
    a := Turned(H, a, b, c, d, x[1], 4, 0xa4beea44);
    d := Turned(H, d, a, b, c, x[4], 11, 0x4bdecfa9);
    c := Turned(H, c, d, a, b, x[7], 16, 0xf6bb4b60);
    b := Turned(H, b, c, d, a, x[10], 23, 0xbebfbc70);
    FourTurns(h, ROUND3, x, 8, Hash(a, b, c, d));
    a := Turned(H, a, b, c, d, x[13], 4, 0x289b7ec6);
    d := Turned(H, d, a, b, c, x[0], 11, 0xeaa127fa);
    c := Turned(H, c, d, a, b, x[3], 16, 0xd4ef3085);
    b := Turned(H, b, c, d, a, x[6], 23, 0x4881d05);
    FourTurns(h, ROUND3, x, 12, Hash(a, b, c, d));
    a := Turned(H, a, b, c, d, x[9], 4, 0xd9d4d039);
    d := Turned(H, d, a, b, c, x[12], 11, 0xe6db99e5);
    c := Turned(H, c, d, a, b, x[15], 16, 0x1fa27cf8);
    b := Turned(H, b, c, d, a, x[2], 23, 0xc4ac5665);
    r := Hash(a, b, c, d);
  }

  method FourthRound(h: Hash, x: seq<Word>) returns (r: Hash)
    requires |x| == 16
    ensures r == RoundDone(h, ROUND4, x)
  {
    hide Turned, StepsDone;
    var a, b, c, d := h.a, h.b, h.c, h.d;
    NoTurns(h, ROUND4, x);
    FourTurns(h, ROUND4, x, 0, Hash(a, b, c, d));
    a := Turned(I, a, b, c, d, x[0], 6, 0xf4292244);
    d := Turned(I, d, a, b, c, x[7], 10, 0x432aff97);
    c := Turned(I, c, d, a, b, x[14], 15, 0xab9423a7);
    b := Turned(I, b, c, d, a, x[5], 21, 0xfc93a039);
    FourTurns(h, ROUND4, x, 4, Hash(a, b, c, d));
    a := Turned(I, a, b, c, d, x[12], 6, 0x655b59c3);
    d := Turned(I, d, a, b, c, x[3], 10, 0x8f0ccc92);
    c := Turned(I, c, d, a, b, x[10], 15, 0xffeff47d);
    b := Turned(I, b, c, d, a, x[1], 21, 0x85845dd1);
    FourTurns(h, ROUND4, x, 8, Hash(a, b, c, d));
    a := Turned(I, a, b, c, d, x[8], 6, 0x6fa87e4f);
    d := Turned(I, d, a, b, c, x[15], 10, 0xfe2ce6e0);
    c := Turned(I, c, d, a, b, x[6], 15, 0xa3014314);
    b := Turned(I, b, c, d, a, x[13], 21, 0x4e0811a1);
    FourTurns(h, ROUND4, x, 12, Hash(a, b, c, d));
    a := Turned(I, a, b, c, d, x[4], 6, 0xf7537e82);
    d := Turned(I, d, a, b, c, x[11], 10, 0xbd3af235);
    c := Turned(I, c, d, a, b, x[2], 15, 0x2ad7d2bb);
    b := Turned(I, b, c, d, a, x[9], 21, 0xeb86d391);
    r := Hash(a, b, c, d);
  }

  lemma NoTurns(h: Hash, ops: seq<Op>, x: seq<Word>)
    requires |x| == 16
    ensures StepsDone(h, ops, x, 0) == h == Hash(h.a, h.b, h.c, h.d)
  {
  }

  lemma AddCommutes(x: Word, y: Word)
    ensures Add(false, x, y) == Add(false, y, x)
  {
  }

  /** The padded message is whole blocks. */
  lemma Padded(n: nat, padLen: nat, done: nat)
    requires padLen == PadLength(n % 64) && done % 64 == 0 && done <= n + padLen + 8 < done + 64
    ensures done == n + padLen + 8
  {
  }

  /** Words in little-endian bytes, one after another. */
  function EncodedAll(words: seq<Word>): (s: seq<Byte>)
    ensures |s| == 4 * |words|
  {
    if words == [] then [] else EncodedAll(words[..|words| - 1]) + Encoded(words[|words| - 1])
  }

  lemma EncodedTwo(x: Word, y: Word)
    ensures EncodedAll([x, y]) == Encoded(x) + Encoded(y)
  {
    hide Encoded;
    assert [x, y][..1] == [x];
    assert [x][..0] == [];
  }

  lemma EncodedFour(h: Hash)
    ensures EncodedAll([h.a, h.b, h.c, h.d]) == Encoded(h.a) + Encoded(h.b) + Encoded(h.c) + Encoded(h.d)
  {
    hide Encoded;
    EncodedTwo(h.a, h.b);
    assert [h.a, h.b, h.c, h.d][..3] == [h.a, h.b, h.c];
    assert [h.a, h.b, h.c][..2] == [h.a, h.b];
  }

  lemma LowByte(x: Word)
    ensures And(x, 0xff) == x % 256
  {
    hide And;
    ByteAnd(x / 256, x % 256, 0, 255);
    AndNothing(x / 256);
  }

  /** The four bytes that are shifted and masked out of a word. */
  lemma LowBytes(x: Word)
    ensures And(x, 0xff) == x % 256 && And(ShiftRight(x, 8), 0xff) == x / 0x100 % 256
    ensures And(ShiftRight(x, 16), 0xff) == x / 0x1_0000 % 256
    ensures And(ShiftRight(x, 24), 0xff) == x / 0x100_0000 % 256
  {
    hide And, ShiftRight;
    ShiftRightMore(x, 8, 8);
    ShiftRightMore(x, 8, 16);
    ShiftRightMore(x / 0x100, 8, 8);
    ShiftRightByte(x);
    ShiftRightByte(x / 0x100);
    ShiftRightByte(x / 0x1_0000);
    LowByte(x);
    LowByte(x / 0x100);
    LowByte(x / 0x1_0000);
    LowByte(x / 0x100_0000);
  }

  /** The four bytes that are shifted and joined into a word. */
  lemma JoinBytes(b0: Byte, b1: Byte, b2: Byte, b3: Byte)
    ensures Or(Or(Or(b0, ShiftLeft(false, b1, 8)), ShiftLeft(false, b2, 16)), ShiftLeft(false, b3, 24))
         == b0 + 0x100 * b1 + 0x1_0000 * b2 + 0x100_0000 * b3
  {
    hide Or, ShiftLeft, Be;
    ByteShifts(b1, b2, b3);
    BeEight(0, 0, 0, b0);
    OrBytes([0, 0, 0, b0], [0, 0, b1, 0], [0, 0, b1, b0]);
    OrBytes([0, 0, b1, b0], [0, b2, 0, 0], [0, b2, b1, b0]);
    OrBytes([0, b2, b1, b0], [b3, 0, 0, 0], [b3, b2, b1, b0]);
    BeEight(b3, b2, b1, b0);
  }

  lemma ByteShifts(b1: Byte, b2: Byte, b3: Byte)
    ensures ShiftLeft(false, b1, 8) == Be([0, 0, b1, 0])
    ensures ShiftLeft(false, b2, 16) == Be([0, b2, 0, 0])
    ensures ShiftLeft(false, b3, 24) == Be([b3, 0, 0, 0])
  {
    hide ShiftLeft, Be;
    BeEight(0, 0, 0, b1);
    BeEight(0, 0, 0, b2);
    BeEight(0, 0, 0, b3);
    LeftBe(false, [0, 0, 0, b1]);
    LeftTwo(false, [0, 0, 0, b2]);
    LeftBe(false, [0, 0, 0, b3]);
    ShiftLeftMore(false, b3, 8, 16);
    LeftTwo(false, [0, 0, b3, 0]);
    assert [0, 0, 0, b1][1..] + [0] == [0, 0, b1, 0];
    assert [0, 0, 0, b2][2..] + [0, 0] == [0, b2, 0, 0];
    assert [0, 0, 0, b3][1..] + [0] == [0, 0, b3, 0];
    assert [0, 0, b3, 0][2..] + [0, 0] == [b3, 0, 0, 0];
  }

  method Decode(output: array<Word>, input: seq<Byte>)
    requires |input| % 4 == 0 && output.Length >= |input| / 4
    modifies output
    ensures forall i: nat :: 4 * i < |input| ==> output[i] == Decoded(input, 4 * i)
    ensures output[|input| / 4..] == old(output[|input| / 4..])
  {
    hide Or, ShiftLeft;
    var i := 0;
    while 4 * i < |input|
      invariant 0 <= i <= |input| / 4
      invariant forall k: nat :: k < i ==> output[k] == Decoded(input, 4 * k)
      invariant output[|input| / 4..] == old(output[|input| / 4..])
    {
      var j := 4 * i;
      JoinBytes(input[j], input[j + 1], input[j + 2], input[j + 3]);
      output[i] := Or(Or(Or(input[j], ShiftLeft(false, input[j + 1], 8)), ShiftLeft(false, input[j + 2], 16)),
                      ShiftLeft(false, input[j + 3], 24));
      i := i + 1;
    }
  }

  method Encode(output: array<Byte>, input: seq<Word>)
    requires output.Length >= 4 * |input|
    modifies output
    ensures output[..4 * |input|] == EncodedAll(input)
    ensures output[4 * |input|..] == old(output[4 * |input|..])
  {
    hide And, ShiftRight;
    var i := 0;
    while i < |input|
      invariant 0 <= i <= |input|
      invariant output[..4 * i] == EncodedAll(input[..i])
      invariant output[4 * |input|..] == old(output[4 * |input|..])
    {
      var j := 4 * i;
      ghost var before := output[..j];
      LowBytes(input[i]);
      output[j] := And(input[i], 0xff);
      output[j + 1] := And(ShiftRight(input[i], 8), 0xff);
      output[j + 2] := And(ShiftRight(input[i], 16), 0xff);
      output[j + 3] := And(ShiftRight(input[i], 24), 0xff);
      assert output[..j + 4] == before + Encoded(input[i]);
      assert input[..i + 1][..i] == input[..i];
      i := i + 1;
    }
    assert input[..i] == input;
  }

  /** Decoding what was encoded gives every word back. */
  lemma {:induction false} DecodeEncodedAll(words: seq<Word>, i: nat)
    requires i < |words| && words[i] < TWO32
    ensures Decoded(EncodedAll(words), 4 * i) == words[i]
  {
    var n := |words| - 1;
    if i == n {
      DecodeEncoded(words[n]);
      hide Encoded;
      assert EncodedAll(words)[4 * n..] == Encoded(words[n]);
      DecodedAt(EncodedAll(words), 4 * n);
    } else {
      DecodeEncodedAll(words[..n], i);
    }
  }

  lemma DecodedAt(s: seq<Byte>, j: nat)
    requires j + 4 == |s|
    ensures Decoded(s, j) == Decoded(s[j..], 0)
  {
  }

  class Context {
    const buffer: array<Byte>
    var state: Hash
    var count0: nat
    var count1: nat

    /** Every byte passed to Update so far, and how many of them state covers. */
    ghost var fed: seq<Byte>
    ghost var done: nat

    /** The two counter words hold bits modulo 2^64, low-order word first. */
    ghost predicate CountedAt(bits: nat)
      reads this`count0, this`count1
    {
      count0 == bits % TWO32 && count1 == bits / TWO32 % TWO32
    }

    /** state covers whole blocks and buffer starts with the bytes behind them. */
    ghost predicate Held()
      reads this`state, this`fed, this`done, buffer
    {
      && buffer.Length == 64
      && done % 64 == 0 && done <= |fed| < done + 64
      && state == Absorb(INITIAL, fed[..done])
      && buffer[..|fed| - done] == fed[done..]
    }

    ghost predicate Valid()
      reads this, buffer
    {
      Held() && CountedAt(8 * |fed|)
    }

    constructor ()
      ensures Valid() && fed == [] && fresh(buffer)
    {
      buffer := new Byte[64];
      state := INITIAL;
      count0, count1 := 0, 0;
      fed, done := [], 0;
    }

    method CountBytes(n: nat, ghost bits: nat)
      requires n < 0x8000_0000 && CountedAt(bits)
      modifies this`count0, this`count1
      ensures CountedAt(bits + 8 * n)
    {
      CountStep(bits, n, count0, count1);
      WrapTwice(count1 + 1, n / 0x2000_0000);
      var low := 8 * n % TWO32;
      count0 := (count0 + low) % TWO32;
      if count0 < low {
        count1 := (count1 + 1) % TWO32;
      }
      count1 := (count1 + n / 0x2000_0000) % TWO32;
    }

    /** Bytes waiting in the buffer, read off the first counter word. */
    method UsedSpace() returns (x: nat)
      requires Valid()
      ensures x == |fed| - done == |fed| % 64
    {
      hide Absorb;
      x := count0 / 8 % 64;
      UsedIsTail(|fed|, count0);
      TailMod(done, |fed|);
    }

    /** Copies bytes into the buffer at the given offset. */
    method PutBytes(at: nat, bytes: seq<Byte>)
      requires at + |bytes| <= buffer.Length
      modifies buffer
      ensures buffer[..] == old(buffer[..at]) + bytes + old(buffer[at + |bytes|..])
    {
      forall k | 0 <= k < |bytes| {
        buffer[at + k] := bytes[k];
      }
    }

    /** Feeds n bytes of msg to the digest. */
    method Update(msg: array<Byte>, n: nat)
      requires Valid() && msg != buffer && n <= msg.Length && n < 0x8000_0000
      modifies buffer, this`state, this`count0, this`count1, this`fed, this`done
      ensures Valid() && fed == old(fed) + msg[..n]
    {
      hide Absorb, Compress, CountedAt;
      var x := UsedSpace();
      CountBytes(n, 8 * |fed|);
      ghost var all := fed + msg[..n];
      var i := 0;
      assert all[..done] == fed[..done];
      if n >= 64 - x {
        i := Blocks(msg, n, x, all);
        x := 0;
      }
      Keep(msg, n, i, x, all);
      fed := all;
    }

    /** Keeps the rest of the message, from i on, behind the first x bytes of the buffer. */
    method Keep(msg: array<Byte>, n: nat, i: nat, x: nat, ghost all: seq<Byte>)
      requires buffer.Length == 64 && i <= n <= msg.Length && msg != buffer && x + (n - i) <= 64
      requires all == fed + msg[..n] && done <= |all|
      requires (i == 0 && done <= |fed| && buffer[..x] == fed[done..]) || (x == 0 && done == |fed| + i)
      modifies buffer
      ensures |all| - done == x + (n - i) && buffer[..|all| - done] == all[done..]
    {
      ghost var kept := buffer[..x];
      Leftover(fed, msg[..n], kept, i, done);
      PutBytes(x, msg[i..n]);
    }

    /** The block function as the program runs it. */
    method Transform(block: seq<Byte>)
      requires |block| == 64
      modifies this`state
      ensures state == Compress(old(state), block)
    {
      hide RoundDone, Decoded;
      var words := new Word[16];
      Decode(words, block);
      var x := words[..16];
      assert x == BlockWords(block);
      var h := FirstRound(state, x);
      h := SecondRound(h, x);
      h := ThirdRound(h, x);
      h := FourthRound(h, x);
      state := Hash(Add(false, state.a, h.a), Add(false, state.b, h.b), Add(false, state.c, h.c), Add(false, state.d, h.d));
    }

    /** Completes the unfinished block and hashes all full blocks of msg behind it. */
    method Blocks(msg: array<Byte>, n: nat, x: nat, ghost all: seq<Byte>) returns (i: nat)
      requires Held() && msg != buffer && n <= msg.Length && x == |fed| - done && n >= 64 - x
      requires all == fed + msg[..n]
      modifies buffer, this`state, this`done
      ensures i <= n < i + 64 && done % 64 == 0 && done == |fed| + i
      ensures state == Absorb(INITIAL, all[..done])
    {
      hide Absorb, Compress;
      FirstBlock(msg, n, x, all);
      i := 64 - x;
      while i + 63 < n
        invariant i <= n && done % 64 == 0 && done == |fed| + i
        invariant state == Absorb(INITIAL, all[..done])
      {
        assert all[done..done + 64] == msg[i..i + 64];
        Extend(all, msg[i..i + 64]);
        Transform(msg[i..i + 64]);
        done := done + 64;
        i := i + 64;
      }
    }

    method FirstBlock(msg: array<Byte>, n: nat, x: nat, ghost all: seq<Byte>)
      requires Held() && msg != buffer && n <= msg.Length && x == |fed| - done && n >= 64 - x
      requires all == fed + msg[..n]
      modifies buffer, this`state, this`done
      ensures done == old(done) + 64 && state == Absorb(INITIAL, all[..done])
    {
      hide Absorb, Compress;
      PutBytes(x, msg[..64 - x]);
      assert all[..done] == fed[..done];
      assert all[done..done + 64] == fed[done..] + msg[..64 - x] == buffer[..];
      Extend(all, buffer[..]);
      Transform(buffer[..]);
      done := done + 64;
    }

    /** One more block of the whole message. */
    lemma Extend(all: seq<Byte>, block: seq<Byte>)
      requires done % 64 == 0 && done + 64 <= |all| && all[done..done + 64] == block
      requires state == Absorb(INITIAL, all[..done])
      ensures Compress(state, block) == Absorb(INITIAL, all[..done + 64])
    {
      hide Compress, Absorb;
      AbsorbBlock(INITIAL, all[..done], block);
      assert all[..done] + block == all[..done + 64];
    }

    /** Ends the digest: pads, appends the length and writes the state. */
    method Final(digest: array<Byte>)
      requires Valid() && digest != buffer && digest.Length >= 16
      modifies buffer, this`state, this`count0, this`count1, this`fed, this`done, digest
      ensures digest[..16] == Digest(old(fed)) && digest[16..] == old(digest[16..])
    {
      hide Absorb, Encoded, EncodedAll, Pad;
      Finish();
      Encode(digest, [state.a, state.b, state.c, state.d]);
      EncodedFour(state);
    }

    /** Feeds the padding and the length the message had before it. */
    method Finish()
      requires Valid()
      modifies buffer, this`state, this`count0, this`count1, this`fed, this`done
      ensures state == Absorb(INITIAL, Pad(old(fed)))
    {
      hide Absorb, Encoded, EncodedAll;
      ghost var message := fed;
      var bits := new Byte[8];
      Encode(bits, [count0, count1]);
      EncodedTwo(count0, count1);
      assert bits[..8] == LengthField(8 * |message|);
      var x := UsedSpace();
      var padLen := if x < 56 then 56 - x else 120 - x;
      var padding := new Byte[64](i => if i == 0 then 0x80 else 0);
      assert padding[..padLen] == Mark(padLen);
      Feed(padding, padLen, bits, 8);
      Padded(|message|, padLen, done);
      assert fed[..done] == fed == Pad(message);
    }

    method Feed(first: array<Byte>, n: nat, second: array<Byte>, m: nat)
      requires Valid() && first != buffer && second != buffer && n <= first.Length && m <= second.Length
      requires n < 0x8000_0000 && m < 0x8000_0000
      modifies buffer, this`state, this`count0, this`count1, this`fed, this`done
      ensures Valid() && fed == old(fed) + first[..n] + second[..m]
    {
      hide Held, CountedAt;
      Update(first, n);
      Update(second, m);
    }
  }

  /** The digest of two pieces, written to an array that may hold either of them. */
  method HashTwo(first: array<Byte>, n: nat, second: array<Byte>, m: nat, digest: array<Byte>)
    requires n <= first.Length && m <= second.Length && digest.Length >= 16
    requires n < 0x8000_0000 && m < 0x8000_0000
    modifies digest
    ensures digest[..16] == Digest(old(first[..n] + second[..m])) && digest[16..] == old(digest[16..])
  {
    hide Digest, Context.Held, Context.CountedAt;
    var context := new Context();
    context.Feed(first, n, second, m);
    assert context.fed == first[..n] + second[..m];
    context.Final(digest);
  }

  method HashOne(data: array<Byte>, n: nat, digest: array<Byte>)
    requires n <= data.Length && digest.Length >= 16 && n < 0x8000_0000
    modifies digest
    ensures digest[..16] == Digest(old(data[..n])) && digest[16..] == old(digest[16..])
  {
    hide Digest, Context.Held, Context.CountedAt;
    var context := new Context();
    context.Update(data, n);
    assert context.fed == data[..n];
    context.Final(digest);
  }

  /** The key, hashed if it is longer than a block, and its length. */
  method ShortKey(key: array<Byte>, keyLen: nat) returns (k: array<Byte>, n: nat)
    requires keyLen <= key.Length && keyLen < 0x8000_0000
    ensures n <= 64 && n <= k.Length
    ensures k[..n] == if keyLen > 64 then Digest(key[..keyLen]) else key[..keyLen]
  {
    hide Digest;
    k, n := key, keyLen;
    if keyLen > 64 {
      var tk := new Byte[16];
      HashOne(key, keyLen, tk);
      k, n := tk, 16;
    }
  }

  /** The key block exclusive-or a pad byte, in the first 64 of 65 bytes. */
  method KeyPad(k: array<Byte>, n: nat, pad: Byte, ghost key: seq<Byte>) returns (p: array<Byte>)
    requires n <= 64 && n <= k.Length
    requires k[..n] == if |key| > 64 then Digest(key) else key
    ensures fresh(p) && p.Length == 65 && p[..64] == XorAll(KeyBlock(key), pad)
  {
    hide Digest;
    p := new Byte[65](_ => 0);
    forall i | 0 <= i < n {
      p[i] := k[i];
    }
    assert p[..64] == KeyBlock(key);
    var i := 0;
    while i < 64
      invariant 0 <= i <= 64
      invariant forall j :: 0 <= j < i ==> p[j] == XorByte(KeyBlock(key)[j], pad)
      invariant forall j :: i <= j < 64 ==> p[j] == KeyBlock(key)[j]
    {
      p[i] := XorByte(p[i], pad);
      i := i + 1;
    }
  }

  /** The keyed hash of RFC 2104; digest carries the inner hash into the outer one, and may
      share storage with the message or the key. */
  method HmacMd5(msg: array<Byte>, msgLen: nat, key: array<Byte>, keyLen: nat, digest: array<Byte>)
    requires msgLen <= msg.Length && keyLen <= key.Length && digest.Length >= 16
    requires msgLen < 0x8000_0000 && keyLen < 0x8000_0000
    modifies digest
    ensures digest[..16] == Hmac(old(key[..keyLen]), old(msg[..msgLen])) && digest[16..] == old(digest[16..])
  {
    hide Digest, XorAll, KeyBlock;
    var k, n := ShortKey(key, keyLen);
    var kIpad := KeyPad(k, n, 0x36, key[..keyLen]);
    var kOpad := KeyPad(k, n, 0x5c, key[..keyLen]);
    HashTwo(kIpad, 64, msg, msgLen, digest);
    HashTwo(kOpad, 64, digest, 16, digest);
  }
}
