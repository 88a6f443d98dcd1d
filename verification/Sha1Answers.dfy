/** The primitives of SHA-1 bit by bit, and the digest of one known message. */
module Sha1Answers {
  import opened MerkleDamgard
  import opened Basics
  import opened Bytes
  import opened Sha1

  // ----- the primitives, bit by bit

  lemma RotatedBits(x: Word, k: Word)
    requires k < 32
    ensures Bit(Rotl(1, x), (k + 1) % 32) == Bit(x, k)
  {
  }

  lemma XorBits(p: Word, q: Word, r: Word, s: Word, k: Word)
    requires k < 32
    ensures Bit(p ^ q ^ r ^ s, k) == (((Bit(p, k) != Bit(q, k)) != Bit(r, k)) != Bit(s, k))
  {
  }

  lemma ExpandBits(p: Word, q: Word, r: Word, s: Word, k: Word)
    requires k < 32
    ensures Bit(Expand(p, q, r, s), (k + 1) % 32) == (((Bit(p, k) != Bit(q, k)) != Bit(r, k)) != Bit(s, k))
  {
    RotatedBits(p ^ q ^ r ^ s, k);
    XorBits(p, q, r, s, k);
  }

  /** Bit k + 1 of a word of the schedule, around the end, is the exclusive or of bits k of four earlier ones. */
  lemma ScheduleBits(b: Block, t: nat, k: Word)
    requires 16 <= t < 80 && k < 32
    ensures Bit(W(b, t), (k + 1) % 32)
            == (((Bit(W(b, t - 3), k) != Bit(W(b, t - 8), k)) != Bit(W(b, t - 14), k)) != Bit(W(b, t - 16), k))
  {
    ExpandBits(W(b, t - 3), W(b, t - 8), W(b, t - 14), W(b, t - 16), k);
  }

  /** A word of the block holds its four bytes, the most significant first. */
  lemma WordBytesOf(p: Octet, q: Octet, r: Octet, s: Octet)
    ensures var w := BigEndian32(p, q, r, s);
            w >> 24 == p as Word && (w >> 16) & 255 == q as Word && (w >> 8) & 255 == r as Word && w & 255 == s as Word
  {
  }

  lemma ChooseBits(x: Word, y: Word, z: Word, k: Word)
    requires k < 32
    ensures Bit((x & y) ^ (!x & z), k) == if Bit(x, k) then Bit(y, k) else Bit(z, k)
  {
  }

  lemma MajorityBits(x: Word, y: Word, z: Word, k: Word)
    requires k < 32
    ensures var p, q, r := Bit(x, k), Bit(y, k), Bit(z, k);
            Bit((x & y) ^ (x & z) ^ (y & z), k) == ((p && q) || (p && r) || (q && r))
  {
  }

  lemma ParityBits(x: Word, y: Word, z: Word, k: Word)
    requires k < 32
    ensures Bit(x ^ y ^ z, k) == ((Bit(x, k) != Bit(y, k)) != Bit(z, k))
  {
  }

  /** Section 4.1.1: the first function chooses, the third takes the majority, the others the parity. */
  lemma FunctionBits(t: nat, x: Word, y: Word, z: Word, k: Word)
    requires t < 80 && k < 32
    ensures var p, q, r := Bit(x, k), Bit(y, k), Bit(z, k);
            Bit(F(t, x, y, z), k) == if t < 20 then (if p then q else r)
                                     else if 40 <= t < 60 then (p && q) || (p && r) || (q && r)
                                     else ((p != q) != r)
  {
    if t < 20 {
      ChooseBits(x, y, z, k);
    } else if 40 <= t < 60 {
      MajorityBits(x, y, z, k);
    } else {
      ParityBits(x, y, z, k);
    }
  }

  // ----- the digest of the three bytes "abc"

  function One(s: State, t: nat, w: Word): State { Round(s, F(t, s.b, s.c, s.d), K(t), w) }

  /** Eight words of the schedule, and eight rounds. */
  datatype Row = Row(p: Word, q: Word, r: Word, s: Word, t: Word, u: Word, v: Word, w: Word)

  function NextRow(x: Row, y: Row): Row {
    var p, q, r := Expand(y.u, y.p, x.r, x.p), Expand(y.v, y.q, x.s, x.q), Expand(y.w, y.r, x.t, x.r);
    var s, t, u := Expand(p, y.s, x.u, x.s), Expand(q, y.t, x.v, x.t), Expand(r, y.u, x.w, x.u);
    Row(p, q, r, s, t, u, Expand(s, y.v, y.p, x.v), Expand(t, y.w, y.q, x.w))
  }

  function RowOf(words: seq<Word>, k: nat): Row
    requires k + 8 <= |words|
  {
    Row(words[k], words[k + 1], words[k + 2], words[k + 3], words[k + 4], words[k + 5], words[k + 6], words[k + 7])
  }

  function Eight(s: State, t: nat, x: Row): State {
    One(One(One(One(One(One(One(One(s, t, x.p), t + 1, x.q), t + 2, x.r), t + 3, x.s), t + 4, x.t), t + 5, x.u),
            t + 6, x.v), t + 7, x.w)
  }

  lemma RowIs(b: Block, k: nat)
    requires k + 24 <= 80
    ensures RowOf(Schedule(b), k + 16) == NextRow(RowOf(Schedule(b), k), RowOf(Schedule(b), k + 8))
  {
  }

  lemma EightIs(s: State, words: seq<Word>, t: nat)
    requires t + 8 <= |words|
    ensures Rounds(s, words, t + 8) == Eight(Rounds(s, words, t), t, RowOf(words, t))
  {
    NextRound(s, words, t);
    NextRound(s, words, t + 1);
    NextRound(s, words, t + 2);
    NextRound(s, words, t + 3);
    NextRound(s, words, t + 4);
    NextRound(s, words, t + 5);
    NextRound(s, words, t + 6);
    NextRound(s, words, t + 7);
  }

  lemma NextRound(s: State, words: seq<Word>, t: nat)
    requires t < |words|
    ensures Rounds(s, words, t + 1) == One(Rounds(s, words, t), t, words[t])
  {
  }

  const ABC: seq<Octet> := [0x61, 0x62, 0x63]

  /** The rows of its schedule, and the states before each of them. */
  function AbcRow(k: nat): Row {
    match k
    case 0 => Row(0x61626380, 0, 0, 0, 0, 0, 0, 0)
    case 1 => Row(0, 0, 0, 0, 0, 0, 0, 24)
    case 2 => Row(0xc2c4c700, 0, 48, 0x85898e01, 0, 96, 0x0b131c03, 48)
    case 3 => Row(0x85898ec1, 0x16263806, 0, 0x00000180, 0x2c4c700c, 0x000000f0, 0x93afb507, 0x5898e048)
    case 4 => Row(0x8e9a9202, 0x00000600, 0xb131c0f0, 0x16263bc6, 0x4ebed41e, 0x626380a1, 0x16263806, 0x000018c0)
    case 5 => Row(0xd2e138c4, 0x00000f00, 0x3afb5079, 0x898e04e5, 0xe2ba3c2b, 0x000060c0, 0x053a37cd, 0x74458547)
    case 6 => Row(0xda9415ed, 0x26380a16, 0x626383a1, 0x4ebf54de, 0x3835b44b, 0x0000f600, 0x1e84c7a3, 0x98e04d98)
    case 7 => Row(0x651d16a0, 0x62658ca1, 0x458544d6, 0x44584cb7, 0x7ba06619, 0x6380aea2, 0x0ae55269, 0x627b49a1)
    case 8 => Row(0x7cd45c9d, 0x000f0000, 0xfb50753a, 0xec6765e8, 0xba3c2be2, 0x0060c000, 0x3a37cd05, 0x458546f4)
    case _ => Row(0xb8599dd6, 0x380a1a26, 0x01e02203, 0xe7cc3456, 0xe6e60b69, 0x00f60a00, 0x5795ef4f, 0x822e0879)
  }

  function AbcState(k: nat): State {
    match k
    case 0 => State(0x67452301, 0xefcdab89, 0x98badcfe, 0x10325476, 0xc3d2e1f0)
    case 1 => State(0x9e8c07d4, 0x993e30c1, 0x0ff1f290, 0xb3f52677, 0xf3763846)
    case 2 => State(0x20bdd62f, 0x196bee77, 0x644a3da5, 0x1181ed99, 0x18c623f9)
    case 3 => State(0xd541f12d, 0x21283486, 0x0ce88eff, 0x868dec32, 0x7f67875f)
    case 4 => State(0x3b845d33, 0x1267b407, 0x717eebd7, 0xa0dc2d4b, 0xd2aa1365)
    case 5 => State(0x32de1cba, 0x4c986405, 0xf718e5cf, 0x03d447f6, 0xf72eec32)
    case 6 => State(0xbead02ca, 0xa01b846c, 0x8714787c, 0x503ca382, 0xfb86c6ab)
    case 7 => State(0x5e6456af, 0x7b71f76d, 0x09fa7c76, 0x792410db, 0x8e11eb59)
    case 8 => State(0x6b61c9e1, 0xb66c020b, 0x9523272c, 0xf5d5b051, 0x8fd4b796)
    case 9 => State(0x39859de7, 0xc199f8c7, 0x8fc96230, 0x125c24f0, 0xde37534a)
    case _ => State(0x42541b35, 0x5738d5e1, 0x21834873, 0x681e6df6, 0xd8fdf6ad)
  }

  lemma AbcRowsFollow(k: nat)
    requires k < 8
    ensures AbcRow(k + 2) == NextRow(AbcRow(k), AbcRow(k + 1))
  {
    if k < 4 {
      assert k == 0 || k == 1 || k == 2 || k == 3;
    } else {
      assert k == 4 || k == 5 || k == 6 || k == 7;
    }
  }

  lemma AbcStatesFollow(k: nat)
    requires k < 10
    ensures AbcState(k + 1) == Eight(AbcState(k), 8 * k, AbcRow(k))
  {
    if k < 2 {
      AbcFirstRounds(k);
    } else if k < 4 {
      AbcSecondRounds(k);
    } else if k < 6 {
      AbcThirdRounds(k);
    } else if k < 8 {
      AbcFourthRounds(k);
    } else {
      AbcLastRounds(k);
    }
  }

  lemma AbcFirstRounds(k: nat)
    requires k == 0 || k == 1
    ensures AbcState(k + 1) == Eight(AbcState(k), 8 * k, AbcRow(k))
  {
  }

  lemma AbcSecondRounds(k: nat)
    requires k == 2 || k == 3
    ensures AbcState(k + 1) == Eight(AbcState(k), 8 * k, AbcRow(k))
  {
  }

  lemma AbcThirdRounds(k: nat)
    requires k == 4 || k == 5
    ensures AbcState(k + 1) == Eight(AbcState(k), 8 * k, AbcRow(k))
  {
  }

  lemma AbcFourthRounds(k: nat)
    requires k == 6 || k == 7
    ensures AbcState(k + 1) == Eight(AbcState(k), 8 * k, AbcRow(k))
  {
  }

  lemma AbcLastRounds(k: nat)
    requires k == 8 || k == 9
    ensures AbcState(k + 1) == Eight(AbcState(k), 8 * k, AbcRow(k))
  {
  }

  lemma Length24()
    ensures LengthBlock(24) == [0, 0, 0, 0, 0, 0, 0, 24]
  {
    LengthBytes(0, 24);
    var b: seq<byte> := [0, 0, 0, 0, 0, 0, 0, 24];
    assert WordBytes(0) + WordBytes(24) == b;
    SmallOctets(b);
  }

  lemma SmallOctets(b: seq<byte>)
    requires b == [0, 0, 0, 0, 0, 0, 0, 24]
    ensures ToOctets(b) == [0, 0, 0, 0, 0, 0, 0, 24]
  {
  }

  /** It is padded to this block. */
  ghost predicate IsAbc(b: Block) {
    && b[0] == 0x61 && b[1] == 0x62 && b[2] == 0x63 && b[3] == 0x80 && b[63] == 24
    && forall i | 4 <= i < 63 :: b[i] == 0
  }

  lemma AbcBlock() returns (b: Block)
    ensures b == Pad(ABC, LengthBlock(24)) && IsAbc(b)
  {
    Length24();
    assert ZeroCount(3) == 52;
    b := Pad(ABC, LengthBlock(24));
  }

  predicate Follows(next: (Row, Row) -> Row, x: nat -> Row, j: nat) { x(j + 2) == next(x(j), x(j + 1)) }

  lemma {:induction false} SameRows(next: (Row, Row) -> Row, x: nat -> Row, y: nat -> Row, k: nat)
    requires forall j: nat | j < 8 :: Follows(next, x, j) && Follows(next, y, j)
    requires x(0) == y(0) && x(1) == y(1) && k < 10
    ensures x(k) == y(k)
  {
    if k > 1 {
      SameRows(next, x, y, k - 2);
      SameRows(next, x, y, k - 1);
      assert Follows(next, x, k - 2) && Follows(next, y, k - 2);
    }
  }

  lemma {:induction false} SameStates(eight: (State, nat, Row) -> State, rows: nat -> Row, x: nat -> State, y: nat -> State, k: nat)
    requires forall j: nat | j < 10 :: x(j + 1) == eight(x(j), 8 * j, rows(j)) && y(j + 1) == eight(y(j), 8 * j, rows(j))
    requires x(0) == y(0) && k <= 10
    ensures x(k) == y(k)
  {
    if k > 0 {
      SameStates(eight, rows, x, y, k - 1);
      assert x(k - 1 + 1) == eight(x(k - 1), 8 * (k - 1), rows(k - 1)) && y(k - 1 + 1) == eight(y(k - 1), 8 * (k - 1), rows(k - 1));
    }
  }

  predicate RowFollows(words: seq<Word>, j: nat)
    requires |words| == 80 && j < 8
  {
    RowOf(words, 8 * j + 16) == NextRow(RowOf(words, 8 * j), RowOf(words, 8 * j + 8))
  }

  lemma RowNumbers(words: seq<Word>, j: nat)
    requires |words| == 80 && j < 8 && RowFollows(words, j)
    ensures RowOf(words, 8 * (j + 2)) == NextRow(RowOf(words, 8 * j), RowOf(words, 8 * (j + 1)))
  {
    assert 8 * (j + 2) == 8 * j + 16 && 8 * (j + 1) == 8 * j + 8;
  }

  ghost predicate RowsFollow(words: seq<Word>) {
    |words| == 80 && forall j: nat | j < 8 :: RowFollows(words, j)
  }

  lemma ScheduleFollows(b: Block)
    ensures RowsFollow(Schedule(b))
  {
    forall j: nat | j < 8
      ensures RowFollows(Schedule(b), j)
    {
      RowIs(b, 8 * j);
    }
  }

  lemma AbcRowsAre(words: seq<Word>, k: nat)
    requires RowsFollow(words) && RowOf(words, 0) == AbcRow(0) && RowOf(words, 8) == AbcRow(1) && k < 10
    ensures RowOf(words, 8 * k) == AbcRow(k)
  {
    var x := (j: nat) => if j < 10 then RowOf(words, 8 * j) else AbcRow(j);
    forall j: nat | j < 8 ensures Follows(NextRow, x, j) && Follows(NextRow, AbcRow, j) {
      AbcRowsFollow(j);
      RowNumbers(words, j);
    }
    SameRows(NextRow, x, AbcRow, k);
  }

  lemma AbcRowIs(b: Block, k: nat)
    requires IsAbc(b) && k < 10
    ensures RowOf(Schedule(b), 8 * k) == AbcRow(k)
  {
    ScheduleFollows(b);
    AbcFirstRows(b);
    AbcRowsAre(Schedule(b), k);
  }

  lemma AbcFirstRows(b: Block)
    requires IsAbc(b)
    ensures RowOf(Schedule(b), 0) == AbcRow(0) && RowOf(Schedule(b), 8) == AbcRow(1)
  {
  }

  lemma AbcRounds(b: Block)
    requires IsAbc(b)
    ensures Rounds(INITIAL, Schedule(b), 80) == AbcState(10)
  {
    var x := (j: nat) => if j <= 10 then Rounds(INITIAL, Schedule(b), 8 * j) else INITIAL;
    forall j: nat | j < 10
      ensures x(j + 1) == Eight(x(j), 8 * j, AbcRow(j)) && AbcState(j + 1) == Eight(AbcState(j), 8 * j, AbcRow(j))
    {
      AbcRowIs(b, j);
      EightIs(INITIAL, Schedule(b), 8 * j);
      AbcStatesFollow(j);
    }
    SameStates(Eight, AbcRow, x, AbcState, 10);
  }

  lemma AbcLast()
    ensures INITIAL.Plus(AbcState(10)) == State(0xA9993E36, 0x4706816A, 0xBA3E2571, 0x7850C26C, 0x9CD0D89D)
  {
  }

  /** The known answer of FIPS 180-4's examples for the message "abc". */
  lemma AbcDigest()
    ensures Digest(ABC) == State(0xA9993E36, 0x4706816A, 0xBA3E2571, 0x7850C26C, 0x9CD0D89D)
  {
    var b := AbcBlock();
    AbsorbOne(Compress, INITIAL, b);
    AbcRounds(b);
    AbcLast();
  }
}
