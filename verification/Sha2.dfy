/**
 The streaming SHA-2 contexts of utility/digest_algorithm/sha2.c.  SHA-256 and SHA-512 are
 the same program over two word sizes, so one class serves both, and SHA-384 is SHA-512
 with other initial words and a shorter output.
 */
module Sha2 {
  import opened Words
  import opened ByteOrder
  import opened Sha2Spec

  /** Word i of a block as the host reads it from memory. */
  function Cell(little: bool, alg: Algorithm, block: seq<Byte>, i: nat): Word
    requires |block| == alg.BlockSize() && i < 16
  {
    Load(little, block[alg.At(i)..alg.At(i) + WordSize(alg.wide)])
  }

  /** The sixteen words of a block as the host reads them. */
  function Cells(little: bool, alg: Algorithm, block: seq<Byte>): (ws: seq<Word>)
    requires |block| == alg.BlockSize()
    ensures |ws| == 16 && forall i :: 0 <= i < 16 ==> ws[i] == Cell(little, alg, block, i)
  {
    seq(16, i requires 0 <= i < 16 => Cell(little, alg, block, i))
  }

  /** Storing word i changes that word and no other. */
  lemma CellsPut(little: bool, alg: Algorithm, before: seq<Byte>, after: seq<Byte>, i: nat, w: Word)
    requires |before| == |after| == alg.BlockSize() && i < 16 && w < Limit(alg.wide)
    requires after == before[..alg.At(i)] + Store(little, alg.wide, w) + before[alg.At(i) + WordSize(alg.wide)..]
    ensures Cells(little, alg, after) == Cells(little, alg, before)[i := w]
  {
    forall j | 0 <= j < 16
      ensures Cell(little, alg, after, j) == if j == i then w else Cell(little, alg, before, j)
    {
      CellPut(little, alg, before, after, i, w, j);
    }
  }

  lemma CellPut(little: bool, alg: Algorithm, before: seq<Byte>, after: seq<Byte>, i: nat, w: Word, j: nat)
    requires |before| == |after| == alg.BlockSize() && i < 16 && j < 16 && w < Limit(alg.wide)
    requires after == before[..alg.At(i)] + Store(little, alg.wide, w) + before[alg.At(i) + WordSize(alg.wide)..]
    ensures Cell(little, alg, after, j) == if j == i then w else Cell(little, alg, before, j)
  {
    var n := WordSize(alg.wide);
    if j == i {
      LoadStored(little, alg.wide, w);
      assert after[alg.At(i)..alg.At(i) + n] == Store(little, alg.wide, w);
    } else {
      hide Store, Load;
      OtherSlice(before, after, alg.At(i), Store(little, alg.wide, w), alg.At(j), n);
    }
  }

  /** What was written at one place does not show at another. */
  lemma OtherSlice(before: seq<Byte>, after: seq<Byte>, at: nat, bytes: seq<Byte>, from: nat, n: nat)
    requires at + |bytes| <= |before| && from + n <= |before|
    requires after == before[..at] + bytes + before[at + |bytes|..]
    requires from + n <= at || at + |bytes| <= from
    ensures after[from..from + n] == before[from..from + n]
  {
    if from + n <= at {
      assert after == before[..at] + (bytes + before[at + |bytes|..]);
      SliceFront(before[..at], bytes + before[at + |bytes|..], from, from + n);
    } else {
      SliceBack(before[..at] + bytes, before[at + |bytes|..], from, from + n);
    }
  }

  lemma SliceFront(p: seq<Byte>, q: seq<Byte>, a: nat, b: nat)
    requires a <= b <= |p|
    ensures (p + q)[a..b] == p[a..b]
  {
  }

  lemma SliceBack(p: seq<Byte>, q: seq<Byte>, a: nat, b: nat)
    requires |p| <= a <= b <= |p| + |q|
    ensures (p + q)[a..b] == q[a - |p|..b - |p|]
  {
  }

  /** The last schedule index before t that is kept in cell c of the rolling window. */
  function Latest(t: nat, c: nat): nat
    requires t >= 16 && c < 16
  {
    if c < t % 16 then t / 16 * 16 + c else t / 16 * 16 - 16 + c
  }

  lemma LatestStep(t: nat, c: nat)
    requires t >= 16 && c < 16
    ensures Latest(t + 1, c) == if c == t % 16 then t else Latest(t, c)
  {
  }

  /** The cell d places back from t. */
  lemma LatestBack(t: nat, d: nat)
    requires t >= 16 && 1 <= d <= 16
    ensures (t + 16 - d) % 16 < 16 && Latest(t, (t + 16 - d) % 16) == t - d
  {
    var q, b := t / 16, t % 16;
    if b >= d {
      Mod16(q + 1, b - d);
      assert t + 16 - d == 16 * (q + 1) + (b - d);
    } else {
      Mod16(q, b + 16 - d);
      assert t + 16 - d == 16 * q + (b + 16 - d);
    }
  }

  lemma Mod16(q: nat, b: nat)
    requires b < 16
    ensures (16 * q + b) % 16 == b
  {
  }

  lemma LatestFirst(c: nat)
    requires c < 16
    ensures Latest(16, c) == c
  {
  }

  /** ws is the rolling window before round t: each cell holds the latest schedule word
      that belongs in it. */
  ghost predicate IsWindow(alg: Algorithm, block: seq<Byte>, t: nat, ws: seq<Word>)
    requires |block| == alg.BlockSize() && t >= 16
  {
    |ws| == 16 && forall c :: 0 <= c < 16 ==> ws[c] == Schedule(alg, block, Latest(t, c))
  }

  lemma WindowStep(alg: Algorithm, block: seq<Byte>, t: nat, ws: seq<Word>)
    requires |block| == alg.BlockSize() && t >= 16 && IsWindow(alg, block, t, ws)
    ensures IsWindow(alg, block, t + 1, ws[t % 16 := Schedule(alg, block, t)])
  {
    var next := ws[t % 16 := Schedule(alg, block, t)];
    forall c | 0 <= c < 16
      ensures next[c] == Schedule(alg, block, Latest(t + 1, c))
    {
      LatestStep(t, c);
    }
  }

  /** The window before round 16 is the block itself. */
  lemma FirstWindow(alg: Algorithm, block: seq<Byte>, t: nat, ws: seq<Word>)
    requires |block| == alg.BlockSize() && t == |ws| == 16
    requires forall c :: 0 <= c < 16 ==> ws[c] == Schedule(alg, block, c)
    ensures IsWindow(alg, block, t, ws)
  {
    forall c | 0 <= c < 16
      ensures ws[c] == Schedule(alg, block, Latest(t, c))
    {
      LatestFirst(c);
    }
  }

  /** The word the program computes for round t from the window. */
  function NextWord(alg: Algorithm, ws: seq<Word>, t: nat): Word
    requires |ws| == 16
  {
    Add(alg.wide, ws[t % 16],
        Add(alg.wide,
            Add(alg.wide, Mix(alg.wide, alg.sigma1, ws[(t + 14) % 16]), ws[(t + 9) % 16]),
            Mix(alg.wide, alg.sigma0, ws[(t + 1) % 16])))
  }

  /** The cell d places back from t holds the schedule word d places back. */
  lemma WindowRead(alg: Algorithm, block: seq<Byte>, t: nat, ws: seq<Word>, d: nat)
    requires |block| == alg.BlockSize() && t >= 16 && IsWindow(alg, block, t, ws) && 1 <= d <= 16
    ensures |ws| == 16 && ws[(t + 16 - d) % 16] == Schedule(alg, block, t - d)
  {
    hide Schedule;
    LatestBack(t, d);
  }

  lemma ScheduleStep(alg: Algorithm, block: seq<Byte>, t: nat)
    requires |block| == alg.BlockSize() && t >= 16
    ensures Add(alg.wide, Schedule(alg, block, t - 16),
                Add(alg.wide,
                    Add(alg.wide, Mix(alg.wide, alg.sigma1, Schedule(alg, block, t - 2)), Schedule(alg, block, t - 7)),
                    Mix(alg.wide, alg.sigma0, Schedule(alg, block, t - 15))))
         == Schedule(alg, block, t) < Limit(alg.wide)
  {
    hide Mix;
  }

  /** It is W_t, although the four terms are added in another order. */
  lemma NextWordIsScheduled(alg: Algorithm, block: seq<Byte>, t: nat, ws: seq<Word>)
    requires |block| == alg.BlockSize() && t >= 16 && IsWindow(alg, block, t, ws)
    ensures NextWord(alg, ws, t) == Schedule(alg, block, t) < Limit(alg.wide)
  {
    hide Mix, Schedule, Add, IsWindow, Latest;
    WindowRead(alg, block, t, ws, 15);
    WindowRead(alg, block, t, ws, 2);
    WindowRead(alg, block, t, ws, 7);
    WindowRead(alg, block, t, ws, 16);
    ScheduleStep(alg, block, t);
  }

  /** A word of the block, loaded and byte-swapped, is its big-endian value. */
  lemma LoadedWord(little: bool, alg: Algorithm, block: seq<Byte>, i: nat)
    requires |block| == alg.BlockSize() && i < 16
    ensures Swap(little, alg.wide, Cell(little, alg, block, i)) == Schedule(alg, block, i) < Limit(alg.wide)
  {
    SwapLoaded(little, alg.wide, block[alg.At(i)..alg.At(i) + WordSize(alg.wide)]);
  }

  /** What the two words of the bit counter hold after n more bits. */
  lemma CountStep(bits: nat, n: nat, lo: nat)
    requires lo == bits % TWO64 && n < TWO64
    ensures (bits + n) % TWO64 == (lo + n) % TWO64
    ensures (bits + n) / TWO64 % TWO64 == (bits / TWO64 % TWO64 + if (lo + n) % TWO64 < n then 1 else 0) % TWO64
  {
    var q := bits / TWO64;
    assert bits == q * TWO64 + lo;
    var carry := if lo + n >= TWO64 then 1 else 0;
    assert bits + n == (q + carry) * TWO64 + (lo + n - carry * TWO64);
    assert (bits + n) / TWO64 == q + carry;
  }

  /** The byte count modulo the block size survives the counter's wrap-around. */
  lemma UsedIsTail(alg: Algorithm, n: nat, lo: nat)
    requires lo == 8 * n % TWO64
    ensures lo / 8 % alg.BlockSize() == n % alg.BlockSize()
  {
    var q := 8 * n / TWO64;
    assert 8 * n == q * TWO64 + lo;
    assert n == q * 0x2000_0000_0000_0000 + lo / 8;
    if alg.wide {
      Mod128(q, lo / 8);
    } else {
      Mod64(q, lo / 8);
    }
  }

  lemma Mod64(q: nat, r: nat)
    ensures (q * 0x2000_0000_0000_0000 + r) % 64 == r % 64
  {
    assert q * 0x2000_0000_0000_0000 + r == 64 * (q * 0x80_0000_0000_0000) + r;
  }

  lemma Mod128(q: nat, r: nat)
    ensures (q * 0x2000_0000_0000_0000 + r) % 128 == r % 128
  {
    assert q * 0x2000_0000_0000_0000 + r == 128 * (q * 0x40_0000_0000_0000) + r;
  }

  lemma Behind(s: seq<Byte>, t: seq<Byte>, from: nat, end: nat)
    requires from <= end <= |s| == |t| && s[from..] == t[from..]
    ensures s[end..] == t[end..]
  {
    assert s[end..] == s[from..][end - from..];
    assert t[end..] == t[from..][end - from..];
  }

  method StoreBytes(digest: array<Byte>, at: nat, bytes: seq<Byte>)
    requires at + |bytes| <= digest.Length
    modifies digest
    ensures digest[..at + |bytes|] == old(digest[..at]) + bytes
    ensures digest[at + |bytes|..] == old(digest[at + |bytes|..])
  {
    forall k | 0 <= k < |bytes| {
      digest[at + k] := bytes[k];
    }
  }

  /** A message with the front of some data behind it, and a piece more. */
  lemma Front(message: seq<Byte>, data: seq<Byte>, a: nat, b: nat)
    requires a <= b <= |data|
    ensures message + data[..a] + data[a..b] == message + data[..b]
    ensures message + data[..0] == message && data[..|data|] == data
  {
  }

  class Context {
    const alg: Algorithm
    const little: bool
    const buffer: array<Byte>
    var state: Regs
    var lo: nat
    var hi: nat

    /** Every byte passed to Update so far, and how many of them state covers. */
    ghost var fed: seq<Byte>
    ghost var done: nat

    /** The bit counter holds bits modulo 2^64 or 2^128. */
    ghost predicate CountedAt(bits: nat)
      reads this`lo, this`hi
    {
      && lo == bits % TWO64
      && (alg.wide ==> hi == bits / TWO64 % TWO64)
    }

    ghost predicate Counted()
      reads this`lo, this`hi, this`fed
    {
      CountedAt(8 * |fed|)
    }

    /** state covers whole blocks and buffer starts with the bytes behind them. */
    ghost predicate Held()
      reads this, buffer
    {
      && alg.Valid()
      && buffer.Length == alg.BlockSize()
      && Whole(alg, done) && done <= |fed| <= done + alg.BlockSize()
      && state == Absorb(alg, alg.initial, fed[..done])
      && buffer[..|fed| - done] == fed[done..]
    }

    ghost predicate Valid()
      reads this, buffer
    {
      Held() && Counted() && |fed| < done + alg.BlockSize()
    }

    constructor (alg: Algorithm, little: bool)
      requires alg.Valid()
      ensures Valid() && fed == [] && this.alg == alg && fresh(buffer)
    {
      this.alg, this.little := alg, little;
      buffer := new Byte[alg.BlockSize()](_ => 0);
      state := alg.initial;
      lo, hi := 0, 0;
      fed, done := [], 0;
    }

    /** Copies bytes into the buffer at the given offset. */
    method PutBytes(at: nat, bytes: seq<Byte>)
      requires at + |bytes| <= buffer.Length
      modifies buffer
      ensures buffer[..] == old(buffer[..at]) + bytes + old(buffer[at + |bytes|..])
    {
      forall k | 0 <= k < |bytes| {
        buffer[at + k] := bytes[k];
      }
    }

    /** The message schedule as it is kept in buffer. */
    function Window(): (ws: seq<Word>)
      requires buffer.Length == alg.BlockSize()
      reads buffer
      ensures |ws| == 16
    {
      Cells(little, alg, buffer[..])
    }

    /** The words of the input block at data[off..]. */
    function Input(data: array<Byte>, off: nat): (ws: seq<Word>)
      requires off + alg.BlockSize() <= data.Length
      reads data
      ensures |ws| == 16
    {
      Cells(little, alg, data[off..off + alg.BlockSize()])
    }

    method PutWord(i: nat, w: Word)
      requires buffer.Length == alg.BlockSize() && i < 16 && w < Limit(alg.wide)
      modifies buffer
      ensures Window() == old(Window())[i := w]
    {
      ghost var before := buffer[..];
      PutBytes(alg.At(i), Store(little, alg.wide, w));
      CellsPut(little, alg, before, buffer[..], i, w);
    }

    /** One application of the compression function, with the message schedule kept in
        buffer, which may hold the input block itself. */
    method Transform(data: array<Byte>, off: nat)
      requires alg.Valid() && buffer.Length == alg.BlockSize() && off + alg.BlockSize() <= data.Length
      requires data == buffer ==> off == 0
      modifies buffer, this`state
      ensures state == Compress(alg, old(state), old(data[off..off + alg.BlockSize()]))
    {
      hide Rounds, Round, AddRegs, IsWindow;
      ghost var block := data[off..off + alg.BlockSize()];
      var regs, j := FirstRounds(data, off, block);
      regs := LaterRounds(regs, j, block);
      state := AddRegs(alg.wide, state, regs);
    }

    /** One round as the program runs it, register by register. */
    method RunRound(regs: Regs, k: Word, w: Word) returns (r: Regs)
      ensures r == Round(alg, regs, k, w)
    {
      hide Mix, Ch, Maj;
      var Regs(a, b, c, d, e, f, g, h) := regs;
      var t1 := Add(alg.wide, Add(alg.wide, Add(alg.wide, Add(alg.wide, h, Mix(alg.wide, alg.bigSigma1, e)),
                                                Ch(alg.wide, e, f, g)), k), w);
      var t2 := Add(alg.wide, Mix(alg.wide, alg.bigSigma0, a), Maj(a, b, c));
      h := g;
      g := f;
      f := e;
      e := Add(alg.wide, d, t1);
      d := c;
      c := b;
      b := a;
      a := Add(alg.wide, t1, t2);
      return Regs(a, b, c, d, e, f, g, h);
    }

    /** Rounds 0 to 15, which load the schedule words from data. */
    method FirstRounds(data: array<Byte>, off: nat, ghost block: seq<Byte>) returns (regs: Regs, j: nat)
      requires alg.Valid() && buffer.Length == alg.BlockSize() && off + alg.BlockSize() <= data.Length
      requires block == data[off..off + alg.BlockSize()] && (data == buffer ==> off == 0)
      modifies buffer
      ensures j == 16 && regs == Rounds(alg, state, block, j)
      ensures IsWindow(alg, block, j, Window())
    {
      hide Round, IsWindow, Schedule, Window, Cells;
      regs := state;
      j := 0;
      while j < 16
        invariant 0 <= j <= 16
        invariant regs == Rounds(alg, state, block, j)
        invariant forall c :: 0 <= c < j ==> Window()[c] == Schedule(alg, block, c)
        invariant Input(data, off)[j..] == Cells(little, alg, block)[j..]
      {
        var w := LoadWord(data, off, j, block);
        regs := RunRound(regs, alg.k[j], w);
        j := j + 1;
      }
      FirstWindow(alg, block, j, Window());
    }

    /** Moves word j of the input into the schedule. */
    method LoadWord(data: array<Byte>, off: nat, j: nat, ghost block: seq<Byte>) returns (w: Word)
      requires buffer.Length == |block| == alg.BlockSize() && off + alg.BlockSize() <= data.Length
      requires j < 16 && (data == buffer ==> off == 0)
      requires Input(data, off)[j..] == Cells(little, alg, block)[j..]
      modifies buffer
      ensures w == Schedule(alg, block, j)
      ensures Window() == old(Window())[j := w]
      ensures Input(data, off)[j + 1..] == Cells(little, alg, block)[j + 1..]
    {
      ghost var rest := Input(data, off)[j..];
      w := Swap(little, alg.wide, Input(data, off)[j]);
      assert Input(data, off)[j] == rest[0] == Cells(little, alg, block)[j..][0] == Cell(little, alg, block, j);
      LoadedWord(little, alg, block, j);
      SameWindow(data, off);
      PutWord(j, w);
      SameWindow(data, off);
      assert Input(data, off)[j + 1..] == rest[1..];
    }

    /** When the input block is the buffer, its words are the schedule's. */
    lemma SameWindow(data: array<Byte>, off: nat)
      requires buffer.Length == alg.BlockSize() && off + alg.BlockSize() <= data.Length
      ensures data == buffer && off == 0 ==> Input(data, off) == Window()
    {
      assert data == buffer && off == 0 ==> data[off..off + alg.BlockSize()] == buffer[..];
    }

    /** The remaining rounds, which roll the sixteen schedule words forward in place. */
    method LaterRounds(first: Regs, start: nat, ghost block: seq<Byte>) returns (regs: Regs)
      requires alg.Valid() && buffer.Length == |block| == alg.BlockSize()
      requires start == 16 && first == Rounds(alg, state, block, start) && IsWindow(alg, block, start, Window())
      modifies buffer
      ensures regs == Rounds(alg, state, block, |alg.k|)
    {
      hide Round, IsWindow, NextWord, Schedule;
      regs := first;
      var j := start;
      while j < |alg.k|
        invariant 16 <= j <= |alg.k|
        invariant regs == Rounds(alg, state, block, j)
        invariant IsWindow(alg, block, j, Window())
      {
        var w := NextWord(alg, Window(), j);
        NextWordIsScheduled(alg, block, j, Window());
        WindowStep(alg, block, j, Window());
        PutWord(j % 16, w);
        regs := RunRound(regs, alg.k[j], w);
        j := j + 1;
      }
    }

    /** The bit counter goes up by n; ADDINC128 carries into the second word. */
    method CountBits(n: nat, ghost bits: nat)
      requires n < TWO64 && CountedAt(bits)
      modifies this`lo, this`hi
      ensures CountedAt(bits + n)
    {
      CountStep(bits, n, lo);
      lo := (lo + n) % TWO64;
      if alg.wide && lo < n {
        hi := (hi + 1) % TWO64;
      }
    }

    /** Appends n bytes of data to the unfinished block. */
    method Append(data: array<Byte>, off: nat, used: nat, n: nat)
      requires Held() && Counted() && data != buffer && off + n <= data.Length
      requires used == |fed| - done && used + n <= alg.BlockSize()
      modifies buffer, this`lo, this`hi, this`fed
      ensures Held() && Counted() && fed == old(fed) + data[off..off + n]
    {
      hide Compress, Absorb, CountedAt;
      PutBytes(used, data[off..off + n]);
      CountBits(8 * n, 8 * |fed|);
      fed := fed + data[off..off + n];
      assert fed[..done] == old(fed)[..done];
      assert buffer[..|fed| - done] == fed[done..];
    }

    /** Hashes the full block in the buffer. */
    method Flush()
      requires Held() && Counted() && |fed| == done + alg.BlockSize()
      modifies buffer, this`state, this`done
      ensures Valid() && |fed| == done
    {
      hide Compress, Absorb;
      ghost var block := fed[done..];
      assert buffer[0..0 + alg.BlockSize()] == block;
      Transform(buffer, 0);
      AbsorbBlock(alg, alg.initial, fed[..done], block);
      WholeNext(alg, done);
      assert fed[..done] + block == fed == fed[..done + alg.BlockSize()];
      done := done + alg.BlockSize();
    }

    /** Hashes a block straight from data. */
    method Consume(data: array<Byte>, off: nat)
      requires Held() && Counted() && |fed| == done && data != buffer && off + alg.BlockSize() <= data.Length
      modifies buffer, this`state, this`done, this`lo, this`hi, this`fed
      ensures Valid() && |fed| == done && fed == old(fed) + data[off..off + alg.BlockSize()]
    {
      hide Compress, Absorb, CountedAt;
      ghost var block := data[off..off + alg.BlockSize()];
      Transform(data, off);
      AbsorbBlock(alg, alg.initial, fed, block);
      WholeNext(alg, done);
      assert fed[..done] == fed;
      CountBits(8 * alg.BlockSize(), 8 * |fed|);
      fed := fed + block;
      done := |fed|;
      assert fed[..done] == fed;
    }

    /** Bytes waiting in the buffer, read off the bit counter. */
    method UsedSpace() returns (used: nat)
      requires Valid()
      ensures used == |fed| - done < alg.BlockSize()
    {
      used := lo / 8 % alg.BlockSize();
      UsedIsTail(alg, |fed|, lo);
      WholeMod(alg, done, |fed| - done);
    }

    /** Feeds n bytes of data to the digest.  A call without data does nothing. */
    method Update(data: array?<Byte>, n: nat)
      requires Valid() && data != buffer && (data != null ==> n <= data.Length)
      modifies buffer, this`state, this`done, this`lo, this`hi, this`fed
      ensures Valid() && fed == old(fed) + if data == null then [] else data[..n]
    {
      hide Compress, Absorb, Whole, Held, Counted;
      if n == 0 || data == null {
        return;
      }
      var used := UsedSpace();
      var off := 0;
      if used > 0 {
        off := TopUp(data, n, used);
      }
      ghost var before, first := old(fed), off;
      Front(before, data[..n], 0, off);
      off := FullBlocks(data, n, off);
      Front(before, data[..n], first, off);
      if n - off > 0 {
        Append(data, off, 0, n - off);
        Front(before, data[..n], off, n);
      }
    }

    /** Hashes as many full blocks of data as there are from off on. */
    method FullBlocks(data: array<Byte>, n: nat, start: nat) returns (off: nat)
      requires Valid() && data != buffer && start <= n <= data.Length && (start < n ==> |fed| == done)
      modifies buffer, this`state, this`done, this`lo, this`hi, this`fed
      ensures Valid() && start <= off <= n < off + alg.BlockSize() && (off < n ==> |fed| == done)
      ensures fed == old(fed) + data[start..off]
    {
      hide Compress, Absorb, Whole, Held, Counted;
      off := start;
      while n - off >= alg.BlockSize()
        invariant Valid() && start <= off <= n && (off < n ==> |fed| == done)
        invariant fed == old(fed) + data[start..off]
      {
        Consume(data, off);
        assert data[start..off] + data[off..off + alg.BlockSize()] == data[start..off + alg.BlockSize()];
        off := off + alg.BlockSize();
      }
    }

    /** Fills the unfinished block and hashes it, or takes what data there is. */
    method TopUp(data: array<Byte>, n: nat, used: nat) returns (off: nat)
      requires Valid() && data != buffer && n <= data.Length && used == |fed| - done
      modifies buffer, this`state, this`done, this`lo, this`hi, this`fed
      ensures Valid() && off <= n && (off < n ==> |fed| == done)
      ensures fed == old(fed) + data[..off]
    {
      hide Compress, Absorb, Whole, CountedAt;
      var free := alg.BlockSize() - used;
      if n >= free {
        Append(data, 0, used, free);
        Flush();
        off := free;
      } else {
        Append(data, 0, used, n);
        off := n;
      }
      assert data[0..0 + off] == data[..off];
    }

    /** Pads the message and hashes the last one or two blocks. */
    method Last()
      requires Valid()
      modifies buffer, this`state
      ensures state == Absorb(alg, alg.initial, Pad(alg, fed))
    {
      hide Compress, Absorb, Pad, Whole, LastBlock, MarkBlock, LengthBlock;
      var used := UsedSpace();
      ghost var front, tail := fed[..done], fed[done..];
      assert fed == front + tail;
      PadBlocks(alg, alg.initial, front, tail);
      if used > 0 {
        PutBytes(used, [0x80]);
        used := used + 1;
        if used <= alg.ShortSize() {
          PutBytes(used, Zeros(alg.ShortSize() - used));
          EndShort(tail);
        } else {
          if used < alg.BlockSize() {
            PutBytes(used, Zeros(alg.BlockSize() - used));
          }
          EndLong(tail);
        }
      } else {
        PutBytes(0, Zeros(alg.ShortSize()));
        buffer[0] := 0x80;
        EndShort(tail);
      }
    }

    /** The length field fits behind the mark. */
    method EndShort(ghost tail: seq<Byte>)
      requires alg.Valid() && buffer.Length == alg.BlockSize() && Counted() && |tail| + 1 <= alg.ShortSize()
      requires buffer[..alg.ShortSize()] == tail + [0x80] + Zeros(alg.ShortSize() - |tail| - 1)
      modifies buffer, this`state
      ensures state == Compress(alg, old(state), LastBlock(alg, tail, 8 * |fed|))
    {
      hide Compress;
      PutLength(buffer[..alg.ShortSize()]);
      assert buffer[0..0 + alg.BlockSize()] == LastBlock(alg, tail, 8 * |fed|);
      Transform(buffer, 0);
    }

    /** The length field needs a block of its own. */
    method EndLong(ghost tail: seq<Byte>)
      requires alg.Valid() && buffer.Length == alg.BlockSize() && Counted() && |tail| + 1 <= alg.BlockSize()
      requires buffer[..] == tail + [0x80] + Zeros(alg.BlockSize() - |tail| - 1)
      modifies buffer, this`state
      ensures state == Compress(alg, Compress(alg, old(state), MarkBlock(alg, tail)), LengthBlock(alg, 8 * |fed|))
    {
      hide Compress;
      assert buffer[0..0 + alg.BlockSize()] == MarkBlock(alg, tail);
      Transform(buffer, 0);
      PutBytes(0, Zeros(if alg.wide then alg.BlockSize() - 2 else alg.ShortSize()));
      assert buffer[..alg.ShortSize()] == Zeros(alg.ShortSize());
      PutLength(Zeros(alg.ShortSize()));
      assert buffer[0..0 + alg.BlockSize()] == LengthBlock(alg, 8 * |fed|);
      Transform(buffer, 0);
    }

    /** Stores the bit counter behind the short block. */
    method PutLength(ghost short: seq<Byte>)
      requires buffer.Length == alg.BlockSize() && Counted()
      requires buffer[..alg.ShortSize()] == short
      modifies buffer
      ensures buffer[..] == short + LengthField(alg, 8 * |fed|)
    {
      if alg.wide {
        PutBytes(alg.ShortSize(), ToBe(8, hi));
        PutBytes(alg.ShortSize() + 8, ToBe(8, lo));
      } else {
        PutBytes(alg.ShortSize(), ToBe(8, lo));
      }
    }

    /** Ends the digest.  The context is not used again. */
    method Final(digest: array?<Byte>)
      requires Valid() && digest != buffer
      requires digest != null ==> digest.Length >= alg.At(alg.digestWords)
      modifies buffer, this`state, digest
      ensures digest != null ==> digest[..alg.At(alg.digestWords)] == Digest(alg, fed)
      ensures digest != null ==> digest[alg.At(alg.digestWords)..] == old(digest[alg.At(alg.digestWords)..])
    {
      hide Absorb, Pad, Compress, Swap, Store, WordOf, Whole, CountedAt;
      if digest != null {
        Last();
        ghost var h := state;
        var j := 0;
        while j < alg.digestWords
          invariant 0 <= j <= alg.digestWords
          invariant state == h && digest[..alg.At(j)] == Output(alg, h, j)
          invariant digest[alg.At(j)..] == old(digest[alg.At(j)..])
        {
          var bytes := Store(little, alg.wide, Swap(little, alg.wide, WordOf(state, j)));
          StoreSwapped(little, alg.wide, WordOf(state, j));
          ghost var before := digest[..];
          StoreBytes(digest, alg.At(j), bytes);
          Behind(before, old(digest[..]), alg.At(j), alg.At(j + 1));
          j := j + 1;
        }
      }
    }
  }

  /** All the chunks in one message. */
  ghost function Joined(chunks: seq<array<Byte>>): seq<Byte>
    reads chunks
  {
    if chunks == [] then [] else Joined(chunks[..|chunks| - 1]) + chunks[|chunks| - 1][..]
  }

  /** However a message is cut into updates, its digest is that of the whole. */
  method HashChunks(alg: Algorithm, little: bool, chunks: seq<array<Byte>>) returns (digest: array<Byte>)
    requires alg.Valid()
    ensures digest.Length == alg.At(alg.digestWords) && digest[..] == Digest(alg, Joined(chunks))
  {
    hide Digest, Context.Held, Context.Counted;
    var context := new Context(alg, little);
    var i := 0;
    assert chunks[..i] == [];
    while i < |chunks|
      invariant 0 <= i <= |chunks|
      invariant context.Valid() && context.fed == Joined(chunks[..i])
      invariant fresh(context) && fresh(context.buffer)
    {
      context.Update(chunks[i], chunks[i].Length);
      assert chunks[..i + 1][..i] == chunks[..i];
      assert chunks[i][..chunks[i].Length] == chunks[i][..];
      i := i + 1;
    }
    assert chunks[..i] == chunks;
    digest := new Byte[alg.At(alg.digestWords)];
    context.Final(digest);
    assert digest[..] == digest[..alg.At(alg.digestWords)];
  }

  /** The three members of the family that the source has. */
  lemma Family()
    ensures Sha256.Valid() && Sha256.At(Sha256.digestWords) == 32
    ensures Sha384.Valid() && Sha384.At(Sha384.digestWords) == 48
    ensures Sha512.Valid() && Sha512.At(Sha512.digestWords) == 64
  {
  }

  method Sha256Chunks(little: bool, chunks: seq<array<Byte>>) returns (digest: array<Byte>)
    ensures digest.Length == 32 && Sha256.Valid() && digest[..] == Digest(Sha256, Joined(chunks))
  {
    hide Digest;
    Family();
    digest := HashChunks(Sha256, little, chunks);
  }

  method Sha384Chunks(little: bool, chunks: seq<array<Byte>>) returns (digest: array<Byte>)
    ensures digest.Length == 48 && Sha384.Valid() && digest[..] == Digest(Sha384, Joined(chunks))
  {
    hide Digest;
    Family();
    digest := HashChunks(Sha384, little, chunks);
  }

  method Sha512Chunks(little: bool, chunks: seq<array<Byte>>) returns (digest: array<Byte>)
    ensures digest.Length == 64 && Sha512.Valid() && digest[..] == Digest(Sha512, Joined(chunks))
  {
    hide Digest;
    Family();
    digest := HashChunks(Sha512, little, chunks);
  }
}
