/** The incremental SHA-1 object against section 6.1.2 of FIPS 180-4. */
module Sha1 {
  import opened MerkleDamgard
  import opened Basics
  import opened Bytes

  // ----- the standard

  /** Section 4.1.1. */
  function F(t: nat, x: Word, y: Word, z: Word): Word {
    if t < 20 then (x & y) ^ (!x & z)
    else if t < 40 then x ^ y ^ z
    else if t < 60 then (x & y) ^ (x & z) ^ (y & z)
    else x ^ y ^ z
  }

  /** Section 4.2.1. */
  function K(t: nat): Word {
    if t < 20 then 0x5A827999
    else if t < 40 then 0x6ED9EBA1
    else if t < 60 then 0x8F1BBCDC
    else 0xCA62C1D6
  }

  function BigEndian32(p: Octet, q: Octet, r: Octet, s: Octet): Word {
    ((p as Word) << 24) | ((q as Word) << 16) | ((r as Word) << 8) | (s as Word)
  }

  /** The i-th big-endian word of a block. */
  function WordAt(b: Block, i: nat): Word
    requires i < 16
  {
    BigEndian32(b[i * 4], b[i * 4 + 1], b[i * 4 + 2], b[i * 4 + 3])
  }

  function Expand(p: Word, q: Word, r: Word, s: Word): Word { Rotl(1, p ^ q ^ r ^ s) }

  /** The message schedule. */
  function W(b: Block, t: nat): Word {
    if t < 16 then WordAt(b, t)
    else Expand(W(b, t - 3), W(b, t - 8), W(b, t - 14), W(b, t - 16))
  }

  datatype State = State(a: Word, b: Word, c: Word, d: Word, e: Word) {
    function Plus(s: State): State { State(Add(a, s.a), Add(b, s.b), Add(c, s.c), Add(d, s.d), Add(e, s.e)) }

    function Words(): seq<Word> { [a, b, c, d, e] }
  }

  function Round(s: State, f: Word, k: Word, w: Word): State {
    State(Add(Add(Add(Add(Rotl(5, s.a), f), s.e), w), k), s.a, Rotl(30, s.b), s.c, s.d)
  }

  function Rounds(s: State, words: seq<Word>, t: nat): State
    requires t <= |words|
  {
    if t == 0 then s
    else
      var r := Rounds(s, words, t - 1);
      Round(r, F(t - 1, r.b, r.c, r.d), K(t - 1), words[t - 1])
  }

  function Schedule(b: Block): seq<Word> { seq(80, t requires 0 <= t < 80 => W(b, t)) }

  function Compress(s: State, b: Block): State {
    s.Plus(Rounds(s, Schedule(b), 80))
  }

  const INITIAL := State(0x67452301, 0xEFCDAB89, 0x98BADCFE, 0x10325476, 0xC3D2E1F0)

  /** The low `width` bytes of n, most significant first. */
  function BigEndian(n: nat, width: nat): (b: seq<byte>)
    ensures |b| == width
  {
    if width == 0 then [] else BigEndian(n / 256, width - 1) + [(n % 256) as byte]
  }

  /** The 64-bit length block of section 5.1.1. */
  function LengthBlock(n: nat): (b: seq<Octet>)
    ensures |b| == 8
  {
    ToOctets(BigEndian(n, 8))
  }

  function Digest(m: seq<Octet>): State {
    Hash(Compress, INITIAL, m, LengthBlock(8 * |m|))
  }

  // ----- the code's expressions for the standard's functions

  lemma FirstRounds(t: nat, x: Word, y: Word, z: Word)
    requires t < 20
    ensures F(t, x, y, z) == (x & y) | (!x & z) && K(t) == 0x5A827999
  {
  }

  lemma SecondRounds(t: nat, x: Word, y: Word, z: Word)
    requires 20 <= t < 40
    ensures F(t, x, y, z) == x ^ y ^ z && K(t) == 0x6ED9EBA1
  {
  }

  lemma ThirdRounds(t: nat, x: Word, y: Word, z: Word)
    requires 40 <= t < 60
    ensures F(t, x, y, z) == (x & y) | (x & z) | (y & z) && K(t) == 0x8F1BBCDC
  {
  }

  lemma FourthRounds(t: nat, x: Word, y: Word, z: Word)
    requires 60 <= t < 80
    ensures F(t, x, y, z) == x ^ y ^ z && K(t) == 0xCA62C1D6
  {
  }

  /** The four bytes of a length word, as the code stores them. */
  function WordBytes(n: nat): (b: seq<byte>)
    ensures |b| == 4
  {
    [(n / 0x100_0000 % 256) as byte, (n / 0x1_0000 % 256) as byte, (n / 0x100 % 256) as byte, (n % 256) as byte]
  }

  lemma {:induction false} BigEndianLow(k: nat, low: nat, width: nat)
    ensures BigEndian(k * Pow256(width) + low, width) == BigEndian(low, width)
  {
    if width > 0 {
      var p := k * Pow256(width - 1);
      assert k * Pow256(width) == 256 * p;
      assert (256 * p + low) / 256 == p + low / 256 && (256 * p + low) % 256 == low % 256;
      BigEndianLow(k, low / 256, width - 1);
    }
  }

  lemma LengthWords(high: nat, low: nat)
    requires low < UINT32_COUNT
    ensures BigEndian(high * UINT32_COUNT + low, 8) == BigEndian(high, 4) + BigEndian(low, 4)
  {
    BigEndianSplit(high * UINT32_COUNT + low);
    Widths();
    BigEndianLow(high, low, 4);
  }

  lemma LengthBytes(high: nat, low: nat)
    requires low < UINT32_COUNT
    ensures LengthBlock(high * UINT32_COUNT + low) == ToOctets(WordBytes(high) + WordBytes(low))
  {
    LengthWords(high, low);
    BigEndianFour(high);
    BigEndianFour(low);
  }

  lemma BigEndianNext(n: nat, width: nat)
    requires width > 0
    ensures BigEndian(n, width) == BigEndian(n / 0x100, width - 1) + [(n % 256) as byte]
  {
  }

  lemma BigEndianFour(n: nat)
    ensures BigEndian(n, 4) == WordBytes(n)
  {
    Quotients(n);
    BigEndianNext(n, 4);
    BigEndianNext(n / 0x100, 3);
    BigEndianNext(n / 0x1_0000, 2);
    BigEndianNext(n / 0x100_0000, 1);
  }

  lemma BigEndianSplit(n: nat)
    ensures BigEndian(n, 8) == BigEndian(n / 0x1_0000_0000, 4) + BigEndian(n, 4)
  {
    assert BigEndian(n / 0x100_0000, 5) == BigEndian(n / 0x1_0000_0000, 4) + BigEndian(n / 0x100_0000, 1);
    assert BigEndian(n / 0x1_0000, 6) == BigEndian(n / 0x1_0000_0000, 4) + BigEndian(n / 0x1_0000, 2);
    assert BigEndian(n / 0x100, 7) == BigEndian(n / 0x1_0000_0000, 4) + BigEndian(n / 0x100, 3);
  }

  /** The hash object. `written` is what it has been fed since it was reset. */
  class CSHA1 {
    const h: array<Word>
    const block: array<Octet>
    var index: nat
    var lengthLow: nat
    var lengthHigh: nat
    var computed: bool
    var corrupted: bool
    ghost var written: seq<Octet>

    ghost function Value(): State
      reads h
      requires h.Length == 5
    {
      State(h[0], h[1], h[2], h[3], h[4])
    }

    ghost predicate Shape()
      reads this
    {
      && h.Length == 5 && block.Length == 64
      && lengthLow < UINT32_COUNT && lengthHigh < UINT32_COUNT
    }

    ghost predicate Valid()
      reads this, h, block
    {
      && Shape()
      && index < 64
      && (!computed && !corrupted ==>
            && lengthHigh * UINT32_COUNT + lengthLow == 8 * |written| < UINT64_COUNT
            && index == |Tail(written)|
            && Streams(Compress, INITIAL, written, Value(), block[..index]))
      && (computed && !corrupted ==> Value() == Digest(written))
    }

    constructor ()
      ensures Valid() && fresh(h) && fresh(block) && written == [] && !computed && !corrupted
    {
      h := new Word[5];
      block := new Octet[64];
      new;
      Reset();
    }

    method Reset()
      requires h.Length == 5 && block.Length == 64
      modifies this, h
      ensures Valid() && written == [] && !computed && !corrupted
    {
      lengthLow, lengthHigh, index := 0, 0, 0;
      SetValue(State(0x67452301, 0xEFCDAB89, 0x98BADCFE, 0x10325476, 0xC3D2E1F0));
      computed, corrupted := false, false;
      written := [];
      StreamsEmpty(Compress, INITIAL);
      assert block[..index] == [];
    }

    method SetValue(s: State)
      requires h.Length == 5
      modifies h
      ensures Value() == s
    {
      h[0], h[1], h[2], h[3], h[4] := s.a, s.b, s.c, s.d, s.e;
    }

    method ProcessMessageBlock()
      requires h.Length == 5 && block.Length == 64
      modifies h, this`index
      ensures Value() == Compress(old(Value()), block[..]) && index == 0
    {
      var w := WordSequence(block[..]);
      var init := State(h[0], h[1], h[2], h[3], h[4]);
      var s := Rounds0(w, init, init);
      s := Rounds20(w, init, s);
      s := Rounds40(w, init, s);
      s := Rounds60(w, init, s);
      SetValue(init.Plus(s));
      index := 0;
    }

    /** The word sequence of a block. */
    method WordSequence(b: Block) returns (words: seq<Word>)
      ensures words == Schedule(b)
    {
      var w := new Word[80];
      for i := 0 to 16
        invariant forall t | 0 <= t < i :: w[t] == W(b, t)
      {
        w[i] := BigEndian32(b[i * 4], b[i * 4 + 1], b[i * 4 + 2], b[i * 4 + 3]);
      }
      for i := 16 to 80
        invariant forall t | 0 <= t < i :: w[t] == W(b, t)
      {
        w[i] := Expand(w[i - 3], w[i - 8], w[i - 14], w[i - 16]);
      }
      words := w[..];
    }

    method Rounds0(w: seq<Word>, ghost init: State, s: State) returns (r: State)
      requires |w| == 80 && s == Rounds(init, w, 0)
      ensures r == Rounds(init, w, 20)
    {
      r := s;
      for i := 0 to 20
        invariant r == Rounds(init, w, i)
      {
        var State(A, B, C, D, E) := r;
        FirstRounds(i, B, C, D);
        var temp := Add(Add(Add(Add(Rotl(5, A), ((B & C) | (!B & D))), E), w[i]), 0x5A827999);
        r := State(temp, A, Rotl(30, B), C, D);
      }
    }

    method Rounds20(w: seq<Word>, ghost init: State, s: State) returns (r: State)
      requires |w| == 80 && s == Rounds(init, w, 20)
      ensures r == Rounds(init, w, 40)
    {
      r := s;
      for i := 20 to 40
        invariant r == Rounds(init, w, i)
      {
        var State(A, B, C, D, E) := r;
        SecondRounds(i, B, C, D);
        var temp := Add(Add(Add(Add(Rotl(5, A), (B ^ C ^ D)), E), w[i]), 0x6ED9EBA1);
        r := State(temp, A, Rotl(30, B), C, D);
      }
    }

    method Rounds40(w: seq<Word>, ghost init: State, s: State) returns (r: State)
      requires |w| == 80 && s == Rounds(init, w, 40)
      ensures r == Rounds(init, w, 60)
    {
      r := s;
      for i := 40 to 60
        invariant r == Rounds(init, w, i)
      {
        var State(A, B, C, D, E) := r;
        ThirdRounds(i, B, C, D);
        var temp := Add(Add(Add(Add(Rotl(5, A), ((B & C) | (B & D) | (C & D))), E), w[i]), 0x8F1BBCDC);
        r := State(temp, A, Rotl(30, B), C, D);
      }
    }

    method Rounds60(w: seq<Word>, ghost init: State, s: State) returns (r: State)
      requires |w| == 80 && s == Rounds(init, w, 60)
      ensures r == Rounds(init, w, 80)
    {
      r := s;
      for i := 60 to 80
        invariant r == Rounds(init, w, i)
      {
        var State(A, B, C, D, E) := r;
        FourthRounds(i, B, C, D);
        var temp := Add(Add(Add(Add(Rotl(5, A), (B ^ C ^ D)), E), w[i]), 0xCA62C1D6);
        r := State(temp, A, Rotl(30, B), C, D);
      }
    }

    /** One byte of a write: it is buffered, counted, and the block processed once full. */
    method Put(b: Octet)
      requires Valid() && !computed && !corrupted
      modifies this, h, block
      ensures Valid() && !computed
      ensures corrupted <==> 8 * (|old(written)| + 1) >= UINT64_COUNT
      ensures !corrupted ==> written == old(written) + [b]
    {
      ghost var s := Value();
      ghost var tail := Tail(written);
      assert block[..index] == tail;
      block[index] := b;
      index := index + 1;
      assert block[..index] == tail + [b];
      CountByte();
      if index == 64 {
        Flush(Compress, INITIAL, written, s, [b]);
        assert block[..] == tail + [b];
        ProcessMessageBlock();
        assert block[..index] == [];
      } else {
        Buffer(Compress, INITIAL, written, s, [b]);
      }
      if !corrupted {
        written := written + [b];
      }
    }

    method CountByte()
      requires Shape() && !corrupted && lengthHigh * UINT32_COUNT + lengthLow == 8 * |written| < UINT64_COUNT
      modifies this`lengthLow, this`lengthHigh, this`corrupted
      ensures Shape()
      ensures corrupted <==> 8 * (|written| + 1) >= UINT64_COUNT
      ensures !corrupted ==> lengthHigh * UINT32_COUNT + lengthLow == 8 * (|written| + 1)
    {
      assert lengthLow == 8 * (|written| - 0x2000_0000 * lengthHigh);
      lengthLow := (lengthLow + 8) % UINT32_COUNT;
      if lengthLow == 0 {
        lengthHigh := (lengthHigh + 1) % UINT32_COUNT;
        if lengthHigh == 0 {
          corrupted := true;
        }
      }
    }

    /** A write after the digest was computed, or past 2^64 bits in all, corrupts the object; any other is
        appended to the message. */
    method Write(data: seq<Octet>)
      requires Valid()
      modifies this, h, block
      ensures Valid() && computed == old(computed)
      ensures data == [] ==> corrupted == old(corrupted) && written == old(written)
      ensures data != [] ==>
                (corrupted <==> old(computed || corrupted) || 8 * (|old(written)| + |data|) >= UINT64_COUNT)
      ensures !corrupted ==> written == old(written) + data
    {
      if data == [] {
        return;
      }
      if computed || corrupted {
        corrupted := true;
        return;
      }
      Feed(data);
    }

    method Feed(data: seq<Octet>)
      requires Valid() && !computed && !corrupted && data != []
      modifies this, h, block
      ensures Valid() && !computed
      ensures corrupted <==> 8 * (|old(written)| + |data|) >= UINT64_COUNT
      ensures !corrupted ==> written == old(written) + data
    {
      ghost var start := written;
      var n := 0;
      while n < |data| && !corrupted
        invariant n <= |data| && Valid() && !computed
        invariant corrupted ==> 8 * (|start| + n) >= UINT64_COUNT
        invariant !corrupted ==> written == start + data[..n]
        invariant n == 0 ==> !corrupted
      {
        assert data[..n + 1] == data[..n] + [data[n]];
        Put(data[n]);
        n := n + 1;
      }
      if !corrupted {
        assert data[..n] == data;
        assert 8 * |written| < UINT64_COUNT;
      }
    }

    /** The digest of everything written since the reset. Asking again gives the same answer. */
    method Result() returns (digest: Option<seq<Word>>)
      requires Valid()
      modifies this, h, block
      ensures Valid() && corrupted == old(corrupted) && written == old(written)
      ensures digest == if corrupted then None else Some(Digest(written).Words())
      ensures !corrupted ==> computed
    {
      if corrupted {
        return None;
      }
      if !computed {
        PadMessage();
        computed := true;
      }
      var words := ReadWords();
      digest := Some(words);
    }

    method ReadWords() returns (words: seq<Word>)
      requires h.Length == 5
      ensures words == Value().Words()
    {
      words := [h[0], h[1], h[2], h[3], h[4]];
    }

    method PadZeros(to: nat)
      requires block.Length == 64 && index <= to <= 64
      modifies this`index, block
      ensures index == to && block[..to] == old(block[..index]) + Zeros(to - old(index))
    {
      while index < to
        invariant old(index) <= index <= to
        invariant block[..index] == old(block[..index]) + Zeros(index - old(index))
      {
        block[index] := 0;
        index := index + 1;
        assert block[..index] == block[..index - 1] + [0];
      }
    }

    method StoreLength()
      requires Shape()
      modifies block
      ensures block[..] == old(block[..56]) + LengthBlock(lengthHigh * UINT32_COUNT + lengthLow)
    {
      LengthBytes(lengthHigh, lengthLow);
      StoreOctets(ToOctets(WordBytes(lengthHigh) + WordBytes(lengthLow)));
    }

    method StoreOctets(length: seq<Octet>)
      requires block.Length == 64 && |length| == 8
      modifies block
      ensures block[..] == old(block[..56]) + length
    {
      block[56], block[57], block[58], block[59] := length[0], length[1], length[2], length[3];
      block[60], block[61], block[62], block[63] := length[4], length[5], length[6], length[7];
      assert block[..56] == old(block[..56]);
      assert block[56..] == length;
      assert block[..] == block[..56] + block[56..];
    }

    /** Zeros up to byte 56, then the length. */
    method FillBlock()
      requires Shape() && index <= 56
      modifies this`index, block
      ensures index == 56
      ensures block[..] == old(block[..index]) + Zeros(56 - old(index)) + LengthBlock(lengthHigh * UINT32_COUNT + lengthLow)
    {
      PadZeros(56);
      StoreLength();
    }

    method AppendOneBit()
      requires Shape() && index < 64
      modifies this`index, block
      ensures index == old(index) + 1 && block[..index] == old(block[..index]) + [0x80]
    {
      block[index] := 0x80;
      index := index + 1;
    }

    method PadMessage()
      requires Valid() && !computed && !corrupted
      modifies this`index, h, block
      ensures index == 0 && Value() == Digest(written)
    {
      if index > 55 {
        PadTwoBlocks(LengthBlock(8 * |written|));
      } else {
        PadOneBlock(LengthBlock(8 * |written|));
      }
    }

    method PadOneBlock(ghost length: seq<Octet>)
      requires Shape() && index == |Tail(written)| <= 55
      requires block[..index] == Tail(written) && Streams(Compress, INITIAL, written, Value(), Tail(written))
      requires length == LengthBlock(lengthHigh * UINT32_COUNT + lengthLow)
      modifies this`index, h, block
      ensures index == 0 && Value() == Hash(Compress, INITIAL, written, length)
    {
      ghost var s, tail := Value(), Tail(written);
      AppendOneBit();
      ghost var last := CompressLast(length);
      assert last == tail + [0x80] + Zeros(55 - |tail|) + length;
      FinishOne(Compress, INITIAL, written, s, length, last);
    }

    method PadTwoBlocks(ghost length: seq<Octet>)
      requires Shape() && 55 < index == |Tail(written)|
      requires block[..index] == Tail(written) && Streams(Compress, INITIAL, written, Value(), Tail(written))
      requires length == LengthBlock(lengthHigh * UINT32_COUNT + lengthLow)
      modifies this`index, h, block
      ensures index == 0 && Value() == Hash(Compress, INITIAL, written, length)
    {
      ghost var s, tail := Value(), Tail(written);
      ghost var first := CompressFirst();
      ghost var last := CompressLast(length);
      assert last == Zeros(56) + length;
      FinishTwo(Compress, INITIAL, written, s, length, first, last);
    }

    method CompressLast(ghost length: seq<Octet>) returns (ghost last: Block)
      requires Shape() && index <= 56 && length == LengthBlock(lengthHigh * UINT32_COUNT + lengthLow)
      modifies this`index, h, block
      ensures last == old(block[..index]) + Zeros(56 - old(index)) + length
      ensures index == 0 && Value() == Compress(old(Value()), last)
    {
      FillBlock();
      last := block[..];
      ProcessMessageBlock();
    }

    method CompressFirst() returns (ghost first: Block)
      requires Shape() && index < 64
      modifies this`index, h, block
      ensures first == old(block[..index]) + [0x80] + Zeros(63 - old(index))
      ensures index == 0 && Value() == Compress(old(Value()), first)
    {
      AppendOneBit();
      PadZeros(64);
      assert block[..64] == block[..];
      first := block[..];
      ProcessMessageBlock();
    }
  }

  /** However a message is cut into writes, the digest is that of the whole, twice over; and a non-empty
      write after that makes the object refuse. */
  method DigestInChunks(chunks: seq<seq<Octet>>, late: seq<Octet>) returns (first: Option<seq<Word>>, second: Option<seq<Word>>, third: Option<seq<Word>>)
    requires 8 * |Concat(chunks)| < UINT64_COUNT && late != []
    ensures first == second == Some(Digest(Concat(chunks)).Words())
    ensures third == None
  {
    var sha := new CSHA1();
    for i := 0 to |chunks|
      invariant fresh(sha) && fresh(sha.h) && fresh(sha.block) && sha.Valid() && !sha.computed && !sha.corrupted
      invariant sha.written == Concat(chunks[..i])
    {
      ConcatNext(chunks, i);
      ConcatShorter(chunks, i + 1);
      sha.Write(chunks[i]);
    }
    assert chunks[..|chunks|] == chunks;
    first := sha.Result();
    second := sha.Result();
    sha.Write(late);
    third := sha.Result();
  }
}
