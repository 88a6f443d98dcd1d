/** Hashing by padding a message to whole blocks and folding a compression function over them, and the
    same thing done incrementally with a 64-byte buffer. */
module MerkleDamgard {
  import opened Basics
  import opened Bytes

  type Octet = bv8
  type Word = bv32

  /** Rotating left. */
  function Rotl(n: Word, x: Word): Word
    requires n <= 32
  {
    (x << n) | (x >> (32 - n))
  }

  predicate Bit(x: Word, k: Word)
    requires k < 32
  {
    (x >> k) & 1 == 1
  }

  /** Rotating takes bit k to place k + n, around the end. */
  lemma RotlBits(n: Word, x: Word, k: Word, y: Word)
    requires n <= 32 && k < 32 && y == Rotl(n, x)
    ensures Bit(y, (k + n) % 32) == Bit(x, k)
  {
  }

  /** Addition modulo 2^32. */
  function Add(x: Word, y: Word): Word { x + y }

  type Block = b: seq<Octet> | |b| == 64 witness seq(64, _ => 0)

  function ToOctets(b: seq<byte>): (o: seq<Octet>)
    ensures |o| == |b|
  {
    seq(|b|, k requires 0 <= k < |b| => b[k] as Octet)
  }

  /** Folding the compression function over a whole number of blocks. */
  function Absorb<S>(compress: (S, Block) -> S, s: S, m: seq<Octet>): S
    requires |m| % 64 == 0
    decreases |m|
  {
    if m == [] then s else Absorb(compress, compress(s, m[..64]), m[64..])
  }

  function Zeros(n: nat): seq<Octet> { seq(n, _ => 0) }

  /** The zero bytes between the byte 0x80 and the length: the least number that leaves the message eight
      bytes short of a whole number of blocks. */
  function ZeroCount(n: nat): nat { (55 - n) % 64 }

  lemma ZeroCountIsLeast(n: nat, k: nat)
    ensures (n + 1 + ZeroCount(n)) % 64 == 56
    ensures (n + 1 + k) % 64 == 56 ==> ZeroCount(n) <= k
  {
  }

  function Pad(m: seq<Octet>, length: seq<Octet>): (p: seq<Octet>)
    requires |length| == 8
    ensures |p| % 64 == 0
  {
    m + [0x80] + Zeros(ZeroCount(|m|)) + length
  }

  function Hash<S>(compress: (S, Block) -> S, init: S, m: seq<Octet>, length: seq<Octet>): S
    requires |length| == 8
  {
    Absorb(compress, init, Pad(m, length))
  }

  lemma {:induction false} AbsorbAppend<S>(compress: (S, Block) -> S, s: S, a: seq<Octet>, b: seq<Octet>)
    requires |a| % 64 == 0 && |b| % 64 == 0
    ensures Absorb(compress, s, a + b) == Absorb(compress, Absorb(compress, s, a), b)
    decreases |a|
  {
    if a == [] {
      assert a + b == b;
    } else {
      assert (a + b)[..64] == a[..64];
      assert (a + b)[64..] == a[64..] + b;
      AbsorbAppend(compress, compress(s, a[..64]), a[64..], b);
    }
  }

  lemma AbsorbOne<S>(compress: (S, Block) -> S, s: S, b: Block)
    ensures Absorb(compress, s, b) == compress(s, b)
  {
    assert b[..64] == b && b[64..] == [];
  }

  // ----- the incremental form

  function Whole(m: seq<Octet>): (w: seq<Octet>)
    ensures |w| % 64 == 0
  {
    m[..|m| - |m| % 64]
  }

  function Tail(m: seq<Octet>): (t: seq<Octet>)
    ensures |t| == |m| % 64
  {
    m[|m| - |m| % 64..]
  }

  lemma WholeTail(m: seq<Octet>)
    ensures m == Whole(m) + Tail(m)
  {
  }

  /** The state has absorbed the whole blocks of m, and `buffered` is the rest. */
  ghost predicate Streams<S>(compress: (S, Block) -> S, init: S, m: seq<Octet>, s: S, buffered: seq<Octet>) {
    s == Absorb(compress, init, Whole(m)) && buffered == Tail(m)
  }

  lemma StreamsEmpty<S>(compress: (S, Block) -> S, init: S)
    ensures Streams(compress, init, [], init, []) && Tail([]) == []
  {
    assert Whole([]) == [];
  }

  /** Adding bytes that do not fill the buffer. */
  lemma Buffer<S>(compress: (S, Block) -> S, init: S, m: seq<Octet>, s: S, more: seq<Octet>)
    requires Streams(compress, init, m, s, Tail(m)) && |Tail(m)| + |more| < 64
    ensures Streams(compress, init, m + more, s, Tail(m) + more)
  {
    SplitUnique(m + more, Whole(m), Tail(m) + more);
  }

  /** Adding bytes that fill the buffer exactly, then compressing it. */
  lemma Flush<S>(compress: (S, Block) -> S, init: S, m: seq<Octet>, s: S, more: seq<Octet>)
    requires Streams(compress, init, m, s, Tail(m)) && |Tail(m)| + |more| == 64
    ensures Streams(compress, init, m + more, compress(s, Tail(m) + more), [])
  {
    var b: Block := Tail(m) + more;
    AbsorbAppend(compress, init, Whole(m), b);
    AbsorbOne(compress, s, b);
    SplitUnique(m + more, Whole(m) + b, []);
  }

  lemma SplitUnique(m: seq<Octet>, whole: seq<Octet>, tail: seq<Octet>)
    requires m == whole + tail && |whole| % 64 == 0 && |tail| < 64
    ensures Whole(m) == whole && Tail(m) == tail
  {
    assert |m| % 64 == |tail|;
  }

  /** Finishing when the byte 0x80 and the length fit the buffered block. */
  lemma FinishOne<S>(compress: (S, Block) -> S, init: S, m: seq<Octet>, s: S, length: seq<Octet>, last: Block)
    requires Streams(compress, init, m, s, Tail(m)) && |length| == 8 && |Tail(m)| <= 55
    requires last == Tail(m) + [0x80] + Zeros(55 - |Tail(m)|) + length
    ensures compress(s, last) == Hash(compress, init, m, length)
  {
    assert ZeroCount(|m|) == 55 - |Tail(m)|;
    assert Pad(m, length) == Whole(m) + last;
    AbsorbAppend(compress, init, Whole(m), last);
    AbsorbOne(compress, s, last);
  }

  /** Finishing when the length needs a block of its own. */
  lemma FinishTwo<S>(compress: (S, Block) -> S, init: S, m: seq<Octet>, s: S, length: seq<Octet>, first: Block, last: Block)
    requires Streams(compress, init, m, s, Tail(m)) && |length| == 8 && |Tail(m)| > 55
    requires first == Tail(m) + [0x80] + Zeros(63 - |Tail(m)|)
    requires last == Zeros(56) + length
    ensures compress(compress(s, first), last) == Hash(compress, init, m, length)
  {
    assert ZeroCount(|m|) == 63 - |Tail(m)| + 56;
    assert Zeros(ZeroCount(|m|)) == Zeros(63 - |Tail(m)|) + Zeros(56);
    assert Pad(m, length) == (Whole(m) + first) + last;
    AbsorbAppend(compress, init, Whole(m) + first, last);
    AbsorbAppend(compress, init, Whole(m), first);
    AbsorbOne(compress, s, first);
    AbsorbOne(compress, compress(s, first), last);
  }
}
