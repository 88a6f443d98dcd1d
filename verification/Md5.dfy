/** The incremental MD5 state against sections 3.1 to 3.5 of RFC 1321. */
module Md5 {
  import opened MerkleDamgard
  import opened Basics
  import opened Bytes

  // ----- RFC 1321

  /** The auxiliary function of the round that operation i belongs to. */
  function Aux(i: nat, x: Word, y: Word, z: Word): Word {
    if i < 16 then (x & y) | (!x & z)
    else if i < 32 then (x & z) | (y & !z)
    else if i < 48 then x ^ y ^ z
    else y ^ (x | !z)
  }

  /** Which word of the block operation i uses. */
  function WordIndex(i: nat): (k: nat)
    ensures k < 16
  {
    (if i < 16 then i else if i < 32 then 5 * i + 1 else if i < 48 then 3 * i + 5 else 7 * i) % 16
  }

  /** One of four numbers of places, in turn. */
  function Turn(i: nat, p: Word, q: Word, r: Word, s: Word): Word {
    if i % 4 == 0 then p else if i % 4 == 1 then q else if i % 4 == 2 then r else s
  }

  function Shift(i: nat): (s: Word)
    ensures s <= 32
  {
    if i < 16 then Turn(i, 7, 12, 17, 22)
    else if i < 32 then Turn(i, 5, 9, 14, 20)
    else if i < 48 then Turn(i, 4, 11, 16, 23)
    else Turn(i, 6, 10, 15, 21)
  }

  /** The table T of the RFC: the integer part of 2^32 * |sin(i + 1)|. */
  const SINES: seq<Word> :=
    [0xd76aa478, 0xe8c7b756, 0x242070db, 0xc1bdceee, 0xf57c0faf, 0x4787c62a, 0xa8304613, 0xfd469501,
     0x698098d8, 0x8b44f7af, 0xffff5bb1, 0x895cd7be, 0x6b901122, 0xfd987193, 0xa679438e, 0x49b40821] +
    [0xf61e2562, 0xc040b340, 0x265e5a51, 0xe9b6c7aa, 0xd62f105d, 0x02441453, 0xd8a1e681, 0xe7d3fbc8,
     0x21e1cde6, 0xc33707d6, 0xf4d50d87, 0x455a14ed, 0xa9e3e905, 0xfcefa3f8, 0x676f02d9, 0x8d2a4c8a] +
    [0xfffa3942, 0x8771f681, 0x6d9d6122, 0xfde5380c, 0xa4beea44, 0x4bdecfa9, 0xf6bb4b60, 0xbebfbc70,
     0x289b7ec6, 0xeaa127fa, 0xd4ef3085, 0x04881d05, 0xd9d4d039, 0xe6db99e5, 0x1fa27cf8, 0xc4ac5665] +
    [0xf4292244, 0x432aff97, 0xab9423a7, 0xfc93a039, 0x655b59c3, 0x8f0ccc92, 0xffeff47d, 0x85845dd1,
     0x6fa87e4f, 0xfe2ce6e0, 0xa3014314, 0x4e0811a1, 0xf7537e82, 0xbd3af235, 0x2ad7d2bb, 0xeb86d391]

  /** Word k of a block, least significant byte first. */
  function LittleEndian32(p: Octet, q: Octet, r: Octet, s: Octet): Word {
    ((s as Word) << 24) | ((r as Word) << 16) | ((q as Word) << 8) | (p as Word)
  }

  function WordsOf(b: Block): (x: seq<Word>)
    ensures |x| == 16
  {
    seq(16, k requires 0 <= k < 16 => LittleEndian32(b[4 * k], b[4 * k + 1], b[4 * k + 2], b[4 * k + 3]))
  }

  type Registers = r: seq<Word> | |r| == 4 witness [0, 0, 0, 0]

  /** The register operation i assigns: A, D, C, B, A, ... as in [ABCD], [DABC], [CDAB], [BCDA]. */
  function Target(i: nat): (t: nat)
    ensures t < 4
  {
    (4 - i % 4) % 4
  }

  /** a = b + ((a + f(b, c, d) + X[k] + T[i]) <<< s), the letters standing for the registers from the
      target on. */
  function Operate(r: Registers, x: seq<Word>, i: nat): Registers
    requires i < 64 && |x| == 16
  {
    var t := Target(i);
    var a, b, c, d := r[t], r[(t + 1) % 4], r[(t + 2) % 4], r[(t + 3) % 4];
    r[t := Add(b, Rotl(Shift(i), Add(Add(Add(a, Aux(i, b, c, d)), x[WordIndex(i)]), Sine(i))))]
  }

  function Sine(i: nat): Word
    requires i < 64
  {
    SINES[i]
  }

  function Operations(r: Registers, x: seq<Word>, n: nat): Registers
    requires n <= 64 && |x| == 16
  {
    if n == 0 then r else Operate(Operations(r, x, n - 1), x, n - 1)
  }

  function Compress(r: Registers, b: Block): Registers {
    Sum(r, Operations(r, WordsOf(b), 64))
  }

  function Sum(r: Registers, s: Registers): Registers {
    [Add(r[0], s[0]), Add(r[1], s[1]), Add(r[2], s[2]), Add(r[3], s[3])]
  }

  const INITIAL: Registers := [0x67452301, 0xefcdab89, 0x98badcfe, 0x10325476]

  function OctetsOf(x: Word): seq<Octet> {
    [(x & 255) as Octet, ((x >> 8) & 255) as Octet, ((x >> 16) & 255) as Octet, ((x >> 24) & 255) as Octet]
  }

  /** The low-order 64 bits of the length are used. */
  function LengthBlock(bits: nat): (b: seq<Octet>)
    ensures |b| == 8
  {
    ToOctets(Store(bits, 8))
  }

  function Digest(m: seq<Octet>): seq<Octet> {
    var r := Hash(Compress, INITIAL, m, LengthBlock(8 * |m|));
    OctetsOf(r[0]) + OctetsOf(r[1]) + OctetsOf(r[2]) + OctetsOf(r[3])
  }

  // ----- the tables and macros of the code

  // The order tables, a row for each of the four rounds.

  const WORD_ORDER1: seq<nat> := [0, 1, 2, 3, 4, 5, 6, 7, 8, 9, 10, 11, 12, 13, 14, 15]
  const WORD_ORDER2: seq<nat> := [1, 6, 11, 0, 5, 10, 15, 4, 9, 14, 3, 8, 13, 2, 7, 12]
  const WORD_ORDER3: seq<nat> := [5, 8, 11, 14, 1, 4, 7, 10, 13, 0, 3, 6, 9, 12, 15, 2]
  const WORD_ORDER4: seq<nat> := [0, 7, 14, 5, 12, 3, 10, 1, 8, 15, 6, 13, 4, 11, 2, 9]

  const SHIFT_ORDER1: seq<Word> := [7, 12, 17, 22, 7, 12, 17, 22, 7, 12, 17, 22, 7, 12, 17, 22]
  const SHIFT_ORDER2: seq<Word> := [5, 9, 14, 20, 5, 9, 14, 20, 5, 9, 14, 20, 5, 9, 14, 20]
  const SHIFT_ORDER3: seq<Word> := [4, 11, 16, 23, 4, 11, 16, 23, 4, 11, 16, 23, 4, 11, 16, 23]
  const SHIFT_ORDER4: seq<Word> := [6, 10, 15, 21, 6, 10, 15, 21, 6, 10, 15, 21, 6, 10, 15, 21]

  lemma FirstTables(i: nat)
    requires i < 16
    ensures WORD_ORDER1[i] == WordIndex(i) && SHIFT_ORDER1[i] == Shift(i)
  {
  }

  lemma SecondTables(i: nat)
    requires 16 <= i < 32
    ensures WORD_ORDER2[i - 16] == WordIndex(i) && SHIFT_ORDER2[i - 16] == Shift(i)
  {
  }

  lemma ThirdTables(i: nat)
    requires 32 <= i < 48
    ensures WORD_ORDER3[i - 32] == WordIndex(i) && SHIFT_ORDER3[i - 32] == Shift(i)
  {
  }

  lemma FourthTables(i: nat)
    requires 48 <= i < 64
    ensures WORD_ORDER4[i - 48] == WordIndex(i) && SHIFT_ORDER4[i - 48] == Shift(i)
  {
  }

  lemma FirstRound(i: nat, x: Word, y: Word, z: Word)
    requires i < 16
    ensures Aux(i, x, y, z) == z ^ (x & (y ^ z))
  {
  }

  lemma SecondRound(i: nat, x: Word, y: Word, z: Word)
    requires 16 <= i < 32
    ensures Aux(i, x, y, z) == y ^ (z & (y ^ x))
  {
  }

  lemma ThirdRound(i: nat, x: Word, y: Word, z: Word)
    requires 32 <= i < 48
    ensures Aux(i, x, y, z) == x ^ y ^ z
  {
  }

  lemma FourthRound(i: nat, x: Word, y: Word, z: Word)
    requires 48 <= i < 64
    ensures Aux(i, x, y, z) == y ^ (x | !z)
  {
  }

  /** The four variables of the code, which it rotates after every operation: the register about to be
      assigned comes first. */
  datatype Rotating = Rotating(a: Word, b: Word, c: Word, d: Word)

  function RotatedView(r: Registers, i: nat): Rotating {
    var t := Target(i);
    Rotating(r[t], r[(t + 1) % 4], r[(t + 2) % 4], r[(t + 3) % 4])
  }

  /** One pass of the code: a = ROL(a + f + M + t, s) + b, then t = d, d = c, c = b, b = a, a = t. */
  function Pass(v: Rotating, f: Word, m: Word, s: Word, t: Word): Rotating
    requires s <= 32
  {
    Rotating(v.d, Add(Rotl(s, Add(Add(Add(v.a, f), m), t)), v.b), v.b, v.c)
  }

  lemma AddCommutes(x: Word, y: Word)
    ensures Add(x, y) == Add(y, x)
  {
  }

  lemma LastView(r: Registers)
    ensures var v := RotatedView(r, 64); r == [v.a, v.b, v.c, v.d]
  {
  }

  lemma NextTarget(i: nat)
    ensures (Target(i + 1) + 1) % 4 == Target(i)
  {
  }

  lemma RotatesAt(r: Registers, t: nat, u: nat, value: Word)
    requires t < 4 && u < 4 && (u + 1) % 4 == t
    ensures var s := r[t := value];
            s[u] == r[(t + 3) % 4] && s[(u + 1) % 4] == value && s[(u + 2) % 4] == r[(t + 1) % 4] && s[(u + 3) % 4] == r[(t + 2) % 4]
  {
    assert u == if t == 0 then 3 else t - 1;
  }

  /** Assigning the target and moving on to the next target rotates the view. */
  lemma Rotates(r: Registers, i: nat, value: Word)
    ensures var v := RotatedView(r, i);
            RotatedView(r[Target(i) := value], i + 1) == Rotating(v.d, value, v.b, v.c)
  {
    NextTarget(i);
    RotatesAt(r, Target(i), Target(i + 1), value);
  }

  /** Rotating the variables is assigning the registers in the order of the RFC. */
  lemma PassOperates(r: Registers, x: seq<Word>, i: nat)
    requires i < 64 && |x| == 16
    ensures var v := RotatedView(r, i);
            Pass(v, Aux(i, v.b, v.c, v.d), x[WordIndex(i)], Shift(i), Sine(i)) == RotatedView(Operate(r, x, i), i + 1)
  {
    var v := RotatedView(r, i);
    var rotated := Rotl(Shift(i), Add(Add(Add(v.a, Aux(i, v.b, v.c, v.d)), x[WordIndex(i)]), Sine(i)));
    AddCommutes(v.b, rotated);
    Rotates(r, i, Add(v.b, rotated));
  }

  // ----- the length

  /** The eight bytes of the length, as the code stores them. */
  function LengthBytes(n: nat): (b: seq<Octet>)
    ensures |b| == 8
  {
    ToOctets(FourBytes(n) + FourBytes(n / 0x1_0000_0000))
  }

  lemma LengthOctets(n: nat)
    ensures LengthBytes(n) == LengthBlock(n)
  {
    StoreSplit(n);
    StoreFour(n);
    StoreFour(n / 0x1_0000_0000);
  }

  /** A bit count kept modulo 2^64 is enough. */
  lemma LengthWraps(bits: nat)
    ensures LengthBytes(bits % UINT64_COUNT) == LengthBlock(bits)
  {
    var k, n := bits / UINT64_COUNT, bits % UINT64_COUNT;
    LengthOctets(n);
    StoreHigh(k, n);
    Divides(bits);
    SameStore(k * UINT64_COUNT + n, bits);
  }

  lemma SameStore(m: nat, n: nat)
    requires m == n
    ensures Store(m, 8) == Store(n, 8)
  {
  }

  lemma NothingBefore(a: seq<Octet>, b: seq<Octet>)
    ensures [] + a + b == a + b
  {
  }

  lemma Divides(bits: nat)
    ensures bits == bits / UINT64_COUNT * UINT64_COUNT + bits % UINT64_COUNT
  {
  }

  lemma StoreHigh(k: nat, low: nat)
    ensures Store(k * UINT64_COUNT + low, 8) == Store(low, 8)
  {
    Widths();
    StoreLow(k, low, 8);
  }

  /** The hash state. `written` is what it has been fed since it was initialised. */
  class HashState {
    const state: array<Word>
    const buf: array<Octet>
    var curlen: nat
    var length: nat
    ghost var written: seq<Octet>

    ghost function Value(): Registers
      reads state
      requires state.Length == 4
    {
      [state[0], state[1], state[2], state[3]]
    }

    ghost predicate Shape()
      reads this
    {
      state.Length == 4 && buf.Length == 64 && length < UINT64_COUNT
    }

    ghost predicate Valid()
      reads this, state, buf
    {
      && Shape()
      && curlen == |Tail(written)|
      && length == BitCount(written)
      && Streams(Compress, INITIAL, written, Value(), buf[..curlen])
    }

    constructor ()
      ensures Valid() && fresh(state) && fresh(buf) && written == []
    {
      state := new Word[4];
      buf := new Octet[64];
      new;
      Init();
    }

    method Init()
      requires state.Length == 4 && buf.Length == 64
      modifies this, state
      ensures Valid() && written == []
    {
      state[0], state[1], state[2], state[3] := 0x67452301, 0xefcdab89, 0x98badcfe, 0x10325476;
      curlen, length := 0, 0;
      written := [];
      StreamsEmpty(Compress, INITIAL);
      assert buf[..curlen] == [];
    }

    method Md5Compress(block: Block)
      requires state.Length == 4
      modifies state
      ensures Value() == Compress(old(Value()), block)
    {
      var w := LoadWords(block);
      var v := AllPasses(w, Value(), Rotating(state[0], state[1], state[2], state[3]));
      AddRegisters(v);
    }

    method AddRegisters(v: Rotating)
      requires state.Length == 4
      modifies state
      ensures Value() == Sum(old(Value()), [v.a, v.b, v.c, v.d])
    {
      state[0], state[1], state[2], state[3] :=
        Add(state[0], v.a), Add(state[1], v.b), Add(state[2], v.c), Add(state[3], v.d);
    }

    method AllPasses(w: seq<Word>, ghost r: Registers, v0: Rotating) returns (v: Rotating)
      requires |w| == 16 && v0 == Rotating(r[0], r[1], r[2], r[3])
      ensures [v.a, v.b, v.c, v.d] == Operations(r, w, 64)
    {
      v := FirstPasses(w, r, v0);
      v := SecondPasses(w, r, v);
      v := ThirdPasses(w, r, v);
      v := FourthPasses(w, r, v);
      LastView(Operations(r, w, 64));
    }

    method LoadWords(block: Block) returns (words: seq<Word>)
      ensures words == WordsOf(block)
    {
      var w := new Word[16];
      for i := 0 to 16
        invariant forall k | 0 <= k < i :: w[k] == WordsOf(block)[k]
      {
        w[i] := LittleEndian32(block[4 * i], block[4 * i + 1], block[4 * i + 2], block[4 * i + 3]);
      }
      words := w[..];
    }

    method FirstPasses(w: seq<Word>, ghost r: Registers, v0: Rotating) returns (v: Rotating)
      requires |w| == 16 && v0 == Rotating(r[0], r[1], r[2], r[3])
      ensures v == RotatedView(Operations(r, w, 16), 16)
    {
      v := v0;
      for i := 0 to 16
        invariant v == RotatedView(Operations(r, w, i), i)
      {
        FirstTables(i);
        FirstRound(i, v.b, v.c, v.d);
        PassOperates(Operations(r, w, i), w, i);
        v := Pass(v, v.d ^ (v.b & (v.c ^ v.d)), w[WORD_ORDER1[i]], SHIFT_ORDER1[i], Sine(i));
      }
    }

    method SecondPasses(w: seq<Word>, ghost r: Registers, v0: Rotating) returns (v: Rotating)
      requires |w| == 16 && v0 == RotatedView(Operations(r, w, 16), 16)
      ensures v == RotatedView(Operations(r, w, 32), 32)
    {
      v := v0;
      for i := 16 to 32
        invariant v == RotatedView(Operations(r, w, i), i)
      {
        SecondTables(i);
        SecondRound(i, v.b, v.c, v.d);
        PassOperates(Operations(r, w, i), w, i);
        v := Pass(v, v.c ^ (v.d & (v.c ^ v.b)), w[WORD_ORDER2[i - 16]], SHIFT_ORDER2[i - 16], Sine(i));
      }
    }

    method ThirdPasses(w: seq<Word>, ghost r: Registers, v0: Rotating) returns (v: Rotating)
      requires |w| == 16 && v0 == RotatedView(Operations(r, w, 32), 32)
      ensures v == RotatedView(Operations(r, w, 48), 48)
    {
      v := v0;
      for i := 32 to 48
        invariant v == RotatedView(Operations(r, w, i), i)
      {
        ThirdTables(i);
        ThirdRound(i, v.b, v.c, v.d);
        PassOperates(Operations(r, w, i), w, i);
        v := Pass(v, v.b ^ v.c ^ v.d, w[WORD_ORDER3[i - 32]], SHIFT_ORDER3[i - 32], Sine(i));
      }
    }

    method FourthPasses(w: seq<Word>, ghost r: Registers, v0: Rotating) returns (v: Rotating)
      requires |w| == 16 && v0 == RotatedView(Operations(r, w, 48), 48)
      ensures v == RotatedView(Operations(r, w, 64), 64)
    {
      v := v0;
      for i := 48 to 64
        invariant v == RotatedView(Operations(r, w, i), i)
      {
        FourthTables(i);
        FourthRound(i, v.b, v.c, v.d);
        PassOperates(Operations(r, w, i), w, i);
        v := Pass(v, v.c ^ (v.b | !v.d), w[WORD_ORDER4[i - 48]], SHIFT_ORDER4[i - 48], Sine(i));
      }
    }

    /** Feeding bytes: a whole block is compressed straight from the input when nothing is buffered, and
        anything else goes through the buffer. */
    method Process(data: seq<Octet>)
      requires Valid()
      modifies this, state, buf
      ensures Valid() && written == old(written) + data
    {
      var n := 0;
      while n < |data|
        invariant n <= |data| && Valid() && written == old(written) + data[..n]
      {
        var m := if curlen == 0 && |data| - n >= 64 then 64 else Min(|data| - n, 64 - curlen);
        ExtendPrefix(old(written), data, n, m);
        if curlen == 0 && |data| - n >= 64 {
          ProcessDirect(data[n..n + 64]);
        } else {
          ProcessBuffered(data[n..n + m]);
        }
        n := n + m;
      }
      assert data[..n] == data;
    }

    method ProcessDirect(block: Block)
      requires Valid() && curlen == 0
      modifies this, state
      ensures Valid() && written == old(written) + block
    {
      assert Tail(written) + block == block;
      Flush(Compress, INITIAL, written, Value(), block);
      Md5Compress(block);
      CountBlock(block);
      written := written + block;
      assert buf[..curlen] == [];
    }

    method ProcessBuffered(piece: seq<Octet>)
      requires Valid() && curlen + |piece| <= 64
      modifies this, state, buf
      ensures Valid() && written == old(written) + piece
    {
      ghost var s := Value();
      ghost var tail := Tail(written);
      CopyIn(piece);
      if curlen == 64 {
        Flush(Compress, INITIAL, written, s, piece);
        assert buf[..] == tail + piece;
        Md5Compress(buf[..]);
        CountBlock(piece);
        curlen := 0;
        assert buf[..curlen] == [];
      } else {
        Buffer(Compress, INITIAL, written, s, piece);
        WholeStays(written, piece);
      }
      written := written + piece;
    }

    method CountBlock(ghost piece: seq<Octet>)
      requires Shape() && length == BitCount(written) && |Tail(written)| + |piece| == 64
      modifies this`length
      ensures Shape() && length == BitCount(written + piece)
    {
      WholeGrows(written, piece);
      length := (length + 512) % UINT64_COUNT;
    }

    method CopyIn(piece: seq<Octet>)
      requires Shape() && curlen + |piece| <= 64
      modifies this`curlen, buf
      ensures curlen == old(curlen) + |piece| && buf[..curlen] == old(buf[..curlen]) + piece
    {
      forall i | 0 <= i < |piece| {
        buf[curlen + i] := piece[i];
      }
      curlen := curlen + |piece|;
    }

    /** The digest of everything fed in. The state is then spent, until it is initialised again. */
    method Done() returns (out: seq<Octet>)
      requires Valid()
      modifies this, state, buf
      ensures out == Digest(old(written)) && written == old(written)
      ensures Shape()
    {
      CountRest();
      if curlen + 1 > 56 {
        PadTwoBlocks(LengthBlock(8 * |written|));
      } else {
        PadOneBlock(LengthBlock(8 * |written|));
      }
      out := ReadOctets();
      DigestJoined(written);
    }

    method CountRest()
      requires Shape() && length == BitCount(written) && curlen == |Tail(written)|
      modifies this`length
      ensures Shape() && LengthBytes(length) == LengthBlock(8 * |written|)
    {
      length := (length + curlen * 8) % UINT64_COUNT;
      LengthOfAll(written);
      LengthWraps(8 * |written|);
    }

    method ReadOctets() returns (out: seq<Octet>)
      requires state.Length == 4
      ensures out == Joined(Value(), 4)
    {
      out := [];
      for i := 0 to 4
        invariant out == Joined(Value(), i)
      {
        out := out + OctetsOf(state[i]);
      }
    }

    method AppendOneBit()
      requires Shape() && curlen < 64
      modifies this`curlen, buf
      ensures curlen == old(curlen) + 1 && buf[..curlen] == old(buf[..curlen]) + [0x80]
    {
      buf[curlen] := 0x80;
      curlen := curlen + 1;
    }

    method PadZeros(to: nat)
      requires Shape() && curlen <= to <= 64
      modifies this`curlen, buf
      ensures curlen == to && buf[..to] == old(buf[..curlen]) + Zeros(to - old(curlen))
    {
      while curlen < to
        invariant old(curlen) <= curlen <= to
        invariant buf[..curlen] == old(buf[..curlen]) + Zeros(curlen - old(curlen))
      {
        buf[curlen] := 0;
        curlen := curlen + 1;
        assert buf[..curlen] == buf[..curlen - 1] + [0];
      }
    }

    method StoreOctets(b: seq<Octet>)
      requires Shape() && |b| == 8
      modifies buf
      ensures buf[..] == old(buf[..56]) + b
    {
      buf[56], buf[57], buf[58], buf[59] := b[0], b[1], b[2], b[3];
      buf[60], buf[61], buf[62], buf[63] := b[4], b[5], b[6], b[7];
      assert buf[..56] == old(buf[..56]);
      assert buf[56..] == b;
      assert buf[..] == buf[..56] + buf[56..];
    }

    method PadOneBlock(ghost lengthBlock: seq<Octet>)
      requires Shape() && curlen == |Tail(written)| <= 55
      requires buf[..curlen] == Tail(written) && Streams(Compress, INITIAL, written, Value(), Tail(written))
      requires lengthBlock == LengthBytes(length)
      modifies this`curlen, state, buf
      ensures Value() == Hash(Compress, INITIAL, written, lengthBlock)
    {
      ghost var s, tail := Value(), Tail(written);
      AppendOneBit();
      ghost var last := CompressLast();
      assert last == tail + [0x80] + Zeros(55 - |tail|) + lengthBlock;
      FinishOne(Compress, INITIAL, written, s, lengthBlock, last);
    }

    method PadTwoBlocks(ghost lengthBlock: seq<Octet>)
      requires Shape() && 55 < curlen == |Tail(written)|
      requires buf[..curlen] == Tail(written) && Streams(Compress, INITIAL, written, Value(), Tail(written))
      requires lengthBlock == LengthBytes(length)
      modifies this`curlen, state, buf
      ensures Value() == Hash(Compress, INITIAL, written, lengthBlock)
    {
      ghost var s, tail := Value(), Tail(written);
      ghost var first := CompressFirst();
      ghost var last := CompressLast();
      NothingBefore(Zeros(56), lengthBlock);
      FinishTwo(Compress, INITIAL, written, s, lengthBlock, first, last);
    }

    method CompressFirst() returns (ghost first: Block)
      requires Shape() && curlen < 64
      modifies this`curlen, state, buf
      ensures first == old(buf[..curlen]) + [0x80] + Zeros(63 - old(curlen))
      ensures curlen == 0 && Value() == Compress(old(Value()), first)
    {
      AppendOneBit();
      PadZeros(64);
      assert buf[..64] == buf[..];
      first := buf[..];
      Md5Compress(buf[..]);
      curlen := 0;
    }

    method CompressLast() returns (ghost last: Block)
      requires Shape() && curlen <= 56
      modifies this`curlen, state, buf
      ensures last == old(buf[..curlen]) + Zeros(56 - old(curlen)) + LengthBytes(length)
      ensures Value() == Compress(old(Value()), last)
    {
      PadZeros(56);
      StoreOctets(LengthBytes(length));
      last := buf[..];
      Md5Compress(buf[..]);
    }
  }

  lemma ExtendPrefix(before: seq<Octet>, data: seq<Octet>, n: nat, m: nat)
    requires n + m <= |data|
    ensures before + data[..n + m] == before + data[..n] + data[n..n + m]
  {
  }

  function Joined(words: seq<Word>, n: nat): seq<Octet>
    requires n <= |words|
  {
    if n == 0 then [] else Joined(words, n - 1) + OctetsOf(words[n - 1])
  }

  lemma DigestJoined(m: seq<Octet>)
    ensures Digest(m) == Joined(Hash(Compress, INITIAL, m, LengthBlock(8 * |m|)), 4)
  {
    var r := Hash(Compress, INITIAL, m, LengthBlock(8 * |m|));
    assert Joined(r, 1) == OctetsOf(r[0]);
    assert Joined(r, 2) == Joined(r, 1) + OctetsOf(r[1]);
    assert Joined(r, 3) == Joined(r, 2) + OctetsOf(r[2]);
  }

  /** Eight times the bytes compressed so far, modulo 2^64. */
  function BitCount(m: seq<Octet>): nat { 8 * |Whole(m)| % UINT64_COUNT }

  lemma WholeGrows(m: seq<Octet>, more: seq<Octet>)
    requires |Tail(m)| + |more| == 64
    ensures BitCount(m + more) == (BitCount(m) + 512) % UINT64_COUNT
  {
    SplitUnique(m + more, Whole(m) + (Tail(m) + more), []);
    WrapAdd(8 * |Whole(m)|, 512);
  }

  lemma WholeStays(m: seq<Octet>, more: seq<Octet>)
    requires |Tail(m)| + |more| < 64
    ensures BitCount(m + more) == BitCount(m)
  {
    SplitUnique(m + more, Whole(m), Tail(m) + more);
  }

  lemma LengthOfAll(m: seq<Octet>)
    ensures (BitCount(m) + |Tail(m)| * 8) % UINT64_COUNT == 8 * |m| % UINT64_COUNT
  {
    WholeTail(m);
    WrapAdd(8 * |Whole(m)|, |Tail(m)| * 8);
  }

  lemma WrapAdd(a: nat, b: nat)
    ensures (a % UINT64_COUNT + b) % UINT64_COUNT == (a + b) % UINT64_COUNT
  {
    var low := a % UINT64_COUNT + b;
    Divides(a);
    Divides(low);
    ModUnique(a + b, UINT64_COUNT, a / UINT64_COUNT + low / UINT64_COUNT, low % UINT64_COUNT);
  }

  /** However a message is cut into pieces, the digest is that of the whole. */
  method DigestInPieces(pieces: seq<seq<Octet>>) returns (out: seq<Octet>)
    ensures out == Digest(Concat(pieces))
  {
    var md := new HashState();
    for i := 0 to |pieces|
      invariant fresh(md) && fresh(md.state) && fresh(md.buf) && md.Valid()
      invariant md.written == Concat(pieces[..i])
    {
      ConcatNext(pieces, i);
      md.Process(pieces[i]);
    }
    assert pieces[..|pieces|] == pieces;
    out := md.Done();
  }
}
