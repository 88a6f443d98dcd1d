/** The primitives of MD5 bit by bit, and the digest of one known message. */
module Md5Answers {
  import opened MerkleDamgard
  import opened Basics
  import opened Bytes
  import opened Md5

  // ----- the primitives, bit by bit

  lemma ChooseBits(x: Word, y: Word, z: Word, k: Word)
    requires k < 32
    ensures Bit((x & y) | (!x & z), k) == if Bit(x, k) then Bit(y, k) else Bit(z, k)
  {
  }

  lemma ChosenBits(x: Word, y: Word, z: Word, k: Word)
    requires k < 32
    ensures Bit((x & z) | (y & !z), k) == if Bit(z, k) then Bit(x, k) else Bit(y, k)
  {
  }

  lemma ParityBits(x: Word, y: Word, z: Word, k: Word)
    requires k < 32
    ensures Bit(x ^ y ^ z, k) == ((Bit(x, k) != Bit(y, k)) != Bit(z, k))
  {
  }

  lemma LastBits(x: Word, y: Word, z: Word, k: Word)
    requires k < 32
    ensures Bit(y ^ (x | !z), k) == (Bit(y, k) != (Bit(x, k) || !Bit(z, k)))
  {
  }

  lemma FirstBits(i: nat, x: Word, y: Word, z: Word, k: Word)
    requires i < 16 && k < 32
    ensures Bit(Aux(i, x, y, z), k) == if Bit(x, k) then Bit(y, k) else Bit(z, k)
  {
    ChooseBits(x, y, z, k);
  }

  lemma SecondBits(i: nat, x: Word, y: Word, z: Word, k: Word)
    requires 16 <= i < 32 && k < 32
    ensures Bit(Aux(i, x, y, z), k) == if Bit(z, k) then Bit(x, k) else Bit(y, k)
  {
    ChosenBits(x, y, z, k);
  }

  lemma ThirdBits(i: nat, x: Word, y: Word, z: Word, k: Word)
    requires 32 <= i < 48 && k < 32
    ensures Bit(Aux(i, x, y, z), k) == ((Bit(x, k) != Bit(y, k)) != Bit(z, k))
  {
    ParityBits(x, y, z, k);
  }

  lemma FourthBits(i: nat, x: Word, y: Word, z: Word, k: Word)
    requires 48 <= i < 64 && k < 32
    ensures Bit(Aux(i, x, y, z), k) == (Bit(y, k) != (Bit(x, k) || !Bit(z, k)))
  {
    LastBits(x, y, z, k);
  }

  /** Section 3.4 of RFC 1321: F is "if X then Y else Z", G is "if Z then X else Y", H is the parity, and I as
      stated there. */
  lemma FunctionBits(i: nat, x: Word, y: Word, z: Word, k: Word)
    requires i < 64 && k < 32
    ensures var p, q, r := Bit(x, k), Bit(y, k), Bit(z, k);
            Bit(Aux(i, x, y, z), k) == if i < 16 then (if p then q else r)
                                       else if i < 32 then (if r then p else q)
                                       else if i < 48 then ((p != q) != r)
                                       else (q != (p || !r))
  {
    if i < 16 {
      FirstBits(i, x, y, z, k);
    } else if i < 32 {
      SecondBits(i, x, y, z, k);
    } else if i < 48 {
      ThirdBits(i, x, y, z, k);
    } else {
      FourthBits(i, x, y, z, k);
    }
  }

  // ----- the digest of the three bytes "abc"

  const ABC: seq<Octet> := [0x61, 0x62, 0x63]

  /** The words of the one block of the padded message. */
  function AbcWord(k: nat): Word { if k == 0 then 0x80636261 else if k == 14 then 24 else 0 }

  /** What an operation makes of the variables, its number, its word, its places and its sine. */
  type Operation = (Rotating, nat, Word, Word, Word) -> Rotating

  function One(v: Rotating, i: nat, w: Word, s: Word, t: Word): Rotating {
    if s <= 32 then Pass(v, Aux(i, v.b, v.c, v.d), w, s, t) else v
  }

  ghost predicate Follows(one: Operation, view: nat -> Rotating) {
    forall i: nat | i < 64 :: view(i + 1) == one(view(i), i, AbcWord(WordIndex(i)), Shift(i), Sine(i))
  }

  function First(one: Operation, v: Rotating): Rotating {
    var v1 := one(v, 0, 0x80636261, 7, 0xd76aa478);
    var v2 := one(v1, 1, 0, 12, 0xe8c7b756);
    var v3 := one(v2, 2, 0, 17, 0x242070db);
    var v4 := one(v3, 3, 0, 22, 0xc1bdceee);
    var v5 := one(v4, 4, 0, 7, 0xf57c0faf);
    var v6 := one(v5, 5, 0, 12, 0x4787c62a);
    var v7 := one(v6, 6, 0, 17, 0xa8304613);
    var v8 := one(v7, 7, 0, 22, 0xfd469501);
    var v9 := one(v8, 8, 0, 7, 0x698098d8);
    var v10 := one(v9, 9, 0, 12, 0x8b44f7af);
    var v11 := one(v10, 10, 0, 17, 0xffff5bb1);
    var v12 := one(v11, 11, 0, 22, 0x895cd7be);
    var v13 := one(v12, 12, 0, 7, 0x6b901122);
    var v14 := one(v13, 13, 0, 12, 0xfd987193);
    var v15 := one(v14, 14, 24, 17, 0xa679438e);
    one(v15, 15, 0, 22, 0x49b40821)
  }

  function Second(one: Operation, v: Rotating): Rotating {
    var v17 := one(v, 16, 0, 5, 0xf61e2562);
    var v18 := one(v17, 17, 0, 9, 0xc040b340);
    var v19 := one(v18, 18, 0, 14, 0x265e5a51);
    var v20 := one(v19, 19, 0x80636261, 20, 0xe9b6c7aa);
    var v21 := one(v20, 20, 0, 5, 0xd62f105d);
    var v22 := one(v21, 21, 0, 9, 0x02441453);
    var v23 := one(v22, 22, 0, 14, 0xd8a1e681);
    var v24 := one(v23, 23, 0, 20, 0xe7d3fbc8);
    var v25 := one(v24, 24, 0, 5, 0x21e1cde6);
    var v26 := one(v25, 25, 24, 9, 0xc33707d6);
    var v27 := one(v26, 26, 0, 14, 0xf4d50d87);
    var v28 := one(v27, 27, 0, 20, 0x455a14ed);
    var v29 := one(v28, 28, 0, 5, 0xa9e3e905);
    var v30 := one(v29, 29, 0, 9, 0xfcefa3f8);
    var v31 := one(v30, 30, 0, 14, 0x676f02d9);
    one(v31, 31, 0, 20, 0x8d2a4c8a)
  }

  function Third(one: Operation, v: Rotating): Rotating {
    var v33 := one(v, 32, 0, 4, 0xfffa3942);
    var v34 := one(v33, 33, 0, 11, 0x8771f681);
    var v35 := one(v34, 34, 0, 16, 0x6d9d6122);
    var v36 := one(v35, 35, 24, 23, 0xfde5380c);
    var v37 := one(v36, 36, 0, 4, 0xa4beea44);
    var v38 := one(v37, 37, 0, 11, 0x4bdecfa9);
    var v39 := one(v38, 38, 0, 16, 0xf6bb4b60);
    var v40 := one(v39, 39, 0, 23, 0xbebfbc70);
    var v41 := one(v40, 40, 0, 4, 0x289b7ec6);
    var v42 := one(v41, 41, 0x80636261, 11, 0xeaa127fa);
    var v43 := one(v42, 42, 0, 16, 0xd4ef3085);
    var v44 := one(v43, 43, 0, 23, 0x04881d05);
    var v45 := one(v44, 44, 0, 4, 0xd9d4d039);
    var v46 := one(v45, 45, 0, 11, 0xe6db99e5);
    var v47 := one(v46, 46, 0, 16, 0x1fa27cf8);
    one(v47, 47, 0, 23, 0xc4ac5665)
  }

  function Fourth(one: Operation, v: Rotating): Rotating {
    var v49 := one(v, 48, 0x80636261, 6, 0xf4292244);
    var v50 := one(v49, 49, 0, 10, 0x432aff97);
    var v51 := one(v50, 50, 24, 15, 0xab9423a7);
    var v52 := one(v51, 51, 0, 21, 0xfc93a039);
    var v53 := one(v52, 52, 0, 6, 0x655b59c3);
    var v54 := one(v53, 53, 0, 10, 0x8f0ccc92);
    var v55 := one(v54, 54, 0, 15, 0xffeff47d);
    var v56 := one(v55, 55, 0, 21, 0x85845dd1);
    var v57 := one(v56, 56, 0, 6, 0x6fa87e4f);
    var v58 := one(v57, 57, 0, 10, 0xfe2ce6e0);
    var v59 := one(v58, 58, 0, 15, 0xa3014314);
    var v60 := one(v59, 59, 0, 21, 0x4e0811a1);
    var v61 := one(v60, 60, 0, 6, 0xf7537e82);
    var v62 := one(v61, 61, 0, 10, 0xbd3af235);
    var v63 := one(v62, 62, 0, 15, 0x2ad7d2bb);
    one(v63, 63, 0, 21, 0xeb86d391)
  }

  lemma FirstWords()
    ensures AbcWord(WordIndex(0)) == 0x80636261 && AbcWord(WordIndex(1)) == 0
    ensures AbcWord(WordIndex(2)) == 0 && AbcWord(WordIndex(3)) == 0
    ensures AbcWord(WordIndex(4)) == 0 && AbcWord(WordIndex(5)) == 0
    ensures AbcWord(WordIndex(6)) == 0 && AbcWord(WordIndex(7)) == 0
    ensures AbcWord(WordIndex(8)) == 0 && AbcWord(WordIndex(9)) == 0
    ensures AbcWord(WordIndex(10)) == 0 && AbcWord(WordIndex(11)) == 0
    ensures AbcWord(WordIndex(12)) == 0 && AbcWord(WordIndex(13)) == 0
    ensures AbcWord(WordIndex(14)) == 24 && AbcWord(WordIndex(15)) == 0
  {
  }

  lemma FirstShifts()
    ensures Shift(0) == 7 && Shift(1) == 12 && Shift(2) == 17 && Shift(3) == 22
    ensures Shift(4) == 7 && Shift(5) == 12 && Shift(6) == 17 && Shift(7) == 22
    ensures Shift(8) == 7 && Shift(9) == 12 && Shift(10) == 17 && Shift(11) == 22
    ensures Shift(12) == 7 && Shift(13) == 12 && Shift(14) == 17 && Shift(15) == 22
  {
  }

  lemma SinesTo8()
    ensures Sine(0) == 0xd76aa478 && Sine(1) == 0xe8c7b756
    ensures Sine(2) == 0x242070db && Sine(3) == 0xc1bdceee
    ensures Sine(4) == 0xf57c0faf && Sine(5) == 0x4787c62a
    ensures Sine(6) == 0xa8304613 && Sine(7) == 0xfd469501
  {
  }

  lemma SinesTo16()
    ensures Sine(8) == 0x698098d8 && Sine(9) == 0x8b44f7af
    ensures Sine(10) == 0xffff5bb1 && Sine(11) == 0x895cd7be
    ensures Sine(12) == 0x6b901122 && Sine(13) == 0xfd987193
    ensures Sine(14) == 0xa679438e && Sine(15) == 0x49b40821
  {
  }

  lemma FirstFollows(one: Operation, view: nat -> Rotating)
    requires Follows(one, view)
    ensures view(16) == First(one, view(0))
  {
    FirstWords();
    FirstShifts();
    SinesTo8();
    SinesTo16();
    assert view(0 + 1) == view(1) && view(1 + 1) == view(2) && view(2 + 1) == view(3) && view(3 + 1) == view(4);
    assert view(4 + 1) == view(5) && view(5 + 1) == view(6) && view(6 + 1) == view(7) && view(7 + 1) == view(8);
    assert view(8 + 1) == view(9) && view(9 + 1) == view(10) && view(10 + 1) == view(11) && view(11 + 1) == view(12);
    assert view(12 + 1) == view(13) && view(13 + 1) == view(14) && view(14 + 1) == view(15) && view(15 + 1) == view(16);
  }

  lemma SecondWords()
    ensures AbcWord(WordIndex(16)) == 0 && AbcWord(WordIndex(17)) == 0
    ensures AbcWord(WordIndex(18)) == 0 && AbcWord(WordIndex(19)) == 0x80636261
    ensures AbcWord(WordIndex(20)) == 0 && AbcWord(WordIndex(21)) == 0
    ensures AbcWord(WordIndex(22)) == 0 && AbcWord(WordIndex(23)) == 0
    ensures AbcWord(WordIndex(24)) == 0 && AbcWord(WordIndex(25)) == 24
    ensures AbcWord(WordIndex(26)) == 0 && AbcWord(WordIndex(27)) == 0
    ensures AbcWord(WordIndex(28)) == 0 && AbcWord(WordIndex(29)) == 0
    ensures AbcWord(WordIndex(30)) == 0 && AbcWord(WordIndex(31)) == 0
  {
  }

  lemma SecondShifts()
    ensures Shift(16) == 5 && Shift(17) == 9 && Shift(18) == 14 && Shift(19) == 20
    ensures Shift(20) == 5 && Shift(21) == 9 && Shift(22) == 14 && Shift(23) == 20
    ensures Shift(24) == 5 && Shift(25) == 9 && Shift(26) == 14 && Shift(27) == 20
    ensures Shift(28) == 5 && Shift(29) == 9 && Shift(30) == 14 && Shift(31) == 20
  {
  }

  lemma SinesTo24()
    ensures Sine(16) == 0xf61e2562 && Sine(17) == 0xc040b340
    ensures Sine(18) == 0x265e5a51 && Sine(19) == 0xe9b6c7aa
    ensures Sine(20) == 0xd62f105d && Sine(21) == 0x02441453
    ensures Sine(22) == 0xd8a1e681 && Sine(23) == 0xe7d3fbc8
  {
  }

  lemma SinesTo32()
    ensures Sine(24) == 0x21e1cde6 && Sine(25) == 0xc33707d6
    ensures Sine(26) == 0xf4d50d87 && Sine(27) == 0x455a14ed
    ensures Sine(28) == 0xa9e3e905 && Sine(29) == 0xfcefa3f8
    ensures Sine(30) == 0x676f02d9 && Sine(31) == 0x8d2a4c8a
  {
  }

  lemma SecondFollows(one: Operation, view: nat -> Rotating)
    requires Follows(one, view)
    ensures view(32) == Second(one, view(16))
  {
    SecondWords();
    SecondShifts();
    SinesTo24();
    SinesTo32();
    assert view(16 + 1) == view(17) && view(17 + 1) == view(18) && view(18 + 1) == view(19) && view(19 + 1) == view(20);
    assert view(20 + 1) == view(21) && view(21 + 1) == view(22) && view(22 + 1) == view(23) && view(23 + 1) == view(24);
    assert view(24 + 1) == view(25) && view(25 + 1) == view(26) && view(26 + 1) == view(27) && view(27 + 1) == view(28);
    assert view(28 + 1) == view(29) && view(29 + 1) == view(30) && view(30 + 1) == view(31) && view(31 + 1) == view(32);
  }

  lemma ThirdWords()
    ensures AbcWord(WordIndex(32)) == 0 && AbcWord(WordIndex(33)) == 0
    ensures AbcWord(WordIndex(34)) == 0 && AbcWord(WordIndex(35)) == 24
    ensures AbcWord(WordIndex(36)) == 0 && AbcWord(WordIndex(37)) == 0
    ensures AbcWord(WordIndex(38)) == 0 && AbcWord(WordIndex(39)) == 0
    ensures AbcWord(WordIndex(40)) == 0 && AbcWord(WordIndex(41)) == 0x80636261
    ensures AbcWord(WordIndex(42)) == 0 && AbcWord(WordIndex(43)) == 0
    ensures AbcWord(WordIndex(44)) == 0 && AbcWord(WordIndex(45)) == 0
    ensures AbcWord(WordIndex(46)) == 0 && AbcWord(WordIndex(47)) == 0
  {
  }

  lemma ThirdShifts()
    ensures Shift(32) == 4 && Shift(33) == 11 && Shift(34) == 16 && Shift(35) == 23
    ensures Shift(36) == 4 && Shift(37) == 11 && Shift(38) == 16 && Shift(39) == 23
    ensures Shift(40) == 4 && Shift(41) == 11 && Shift(42) == 16 && Shift(43) == 23
    ensures Shift(44) == 4 && Shift(45) == 11 && Shift(46) == 16 && Shift(47) == 23
  {
  }

  lemma SinesTo40()
    ensures Sine(32) == 0xfffa3942 && Sine(33) == 0x8771f681
    ensures Sine(34) == 0x6d9d6122 && Sine(35) == 0xfde5380c
    ensures Sine(36) == 0xa4beea44 && Sine(37) == 0x4bdecfa9
    ensures Sine(38) == 0xf6bb4b60 && Sine(39) == 0xbebfbc70
  {
  }

  lemma SinesTo48()
    ensures Sine(40) == 0x289b7ec6 && Sine(41) == 0xeaa127fa
    ensures Sine(42) == 0xd4ef3085 && Sine(43) == 0x04881d05
    ensures Sine(44) == 0xd9d4d039 && Sine(45) == 0xe6db99e5
    ensures Sine(46) == 0x1fa27cf8 && Sine(47) == 0xc4ac5665
  {
  }

  lemma ThirdFollows(one: Operation, view: nat -> Rotating)
    requires Follows(one, view)
    ensures view(48) == Third(one, view(32))
  {
    ThirdWords();
    ThirdShifts();
    SinesTo40();
    SinesTo48();
    assert view(32 + 1) == view(33) && view(33 + 1) == view(34) && view(34 + 1) == view(35) && view(35 + 1) == view(36);
    assert view(36 + 1) == view(37) && view(37 + 1) == view(38) && view(38 + 1) == view(39) && view(39 + 1) == view(40);
    assert view(40 + 1) == view(41) && view(41 + 1) == view(42) && view(42 + 1) == view(43) && view(43 + 1) == view(44);
    assert view(44 + 1) == view(45) && view(45 + 1) == view(46) && view(46 + 1) == view(47) && view(47 + 1) == view(48);
  }

  lemma FourthWords()
    ensures AbcWord(WordIndex(48)) == 0x80636261 && AbcWord(WordIndex(49)) == 0
    ensures AbcWord(WordIndex(50)) == 24 && AbcWord(WordIndex(51)) == 0
    ensures AbcWord(WordIndex(52)) == 0 && AbcWord(WordIndex(53)) == 0
    ensures AbcWord(WordIndex(54)) == 0 && AbcWord(WordIndex(55)) == 0
    ensures AbcWord(WordIndex(56)) == 0 && AbcWord(WordIndex(57)) == 0
    ensures AbcWord(WordIndex(58)) == 0 && AbcWord(WordIndex(59)) == 0
    ensures AbcWord(WordIndex(60)) == 0 && AbcWord(WordIndex(61)) == 0
    ensures AbcWord(WordIndex(62)) == 0 && AbcWord(WordIndex(63)) == 0
  {
  }

  lemma FourthShifts()
    ensures Shift(48) == 6 && Shift(49) == 10 && Shift(50) == 15 && Shift(51) == 21
    ensures Shift(52) == 6 && Shift(53) == 10 && Shift(54) == 15 && Shift(55) == 21
    ensures Shift(56) == 6 && Shift(57) == 10 && Shift(58) == 15 && Shift(59) == 21
    ensures Shift(60) == 6 && Shift(61) == 10 && Shift(62) == 15 && Shift(63) == 21
  {
  }

  lemma SinesTo56()
    ensures Sine(48) == 0xf4292244 && Sine(49) == 0x432aff97
    ensures Sine(50) == 0xab9423a7 && Sine(51) == 0xfc93a039
    ensures Sine(52) == 0x655b59c3 && Sine(53) == 0x8f0ccc92
    ensures Sine(54) == 0xffeff47d && Sine(55) == 0x85845dd1
  {
  }

  lemma SinesTo64()
    ensures Sine(56) == 0x6fa87e4f && Sine(57) == 0xfe2ce6e0
    ensures Sine(58) == 0xa3014314 && Sine(59) == 0x4e0811a1
    ensures Sine(60) == 0xf7537e82 && Sine(61) == 0xbd3af235
    ensures Sine(62) == 0x2ad7d2bb && Sine(63) == 0xeb86d391
  {
  }

  lemma FourthFollows(one: Operation, view: nat -> Rotating)
    requires Follows(one, view)
    ensures view(64) == Fourth(one, view(48))
  {
    FourthWords();
    FourthShifts();
    SinesTo56();
    SinesTo64();
    assert view(48 + 1) == view(49) && view(49 + 1) == view(50) && view(50 + 1) == view(51) && view(51 + 1) == view(52);
    assert view(52 + 1) == view(53) && view(53 + 1) == view(54) && view(54 + 1) == view(55) && view(55 + 1) == view(56);
    assert view(56 + 1) == view(57) && view(57 + 1) == view(58) && view(58 + 1) == view(59) && view(59 + 1) == view(60);
    assert view(60 + 1) == view(61) && view(61 + 1) == view(62) && view(62 + 1) == view(63) && view(63 + 1) == view(64);
  }

  lemma AbcViews()
    ensures First(One, Rotating(0x67452301, 0xefcdab89, 0x98badcfe, 0x10325476))
            == Rotating(0xdda9b9a6, 0x72aff2e0, 0xe396856b, 0xa1051895)
    ensures Second(One, Rotating(0xdda9b9a6, 0x72aff2e0, 0xe396856b, 0xa1051895))
            == Rotating(0x790a77fb, 0x726342d3, 0xa62884aa, 0x9f47e4f8)
    ensures Third(One, Rotating(0x790a77fb, 0x726342d3, 0xa62884aa, 0x9f47e4f8))
            == Rotating(0x7f2e507b, 0x7beb9700, 0x8fae6399, 0x99d9679d)
    ensures Fourth(One, Rotating(0x7f2e507b, 0x7beb9700, 0x8fae6399, 0x99d9679d))
            == Rotating(0x310ade8f, 0xc08226b3, 0xe484b9d8, 0x624d8cb2)
  {
  }

  lemma AbcRotates(one: Operation, view: nat -> Rotating)
    requires Follows(one, view) && one == One && view(0) == Rotating(0x67452301, 0xefcdab89, 0x98badcfe, 0x10325476)
    ensures view(64) == Rotating(0x310ade8f, 0xc08226b3, 0xe484b9d8, 0x624d8cb2)
  {
    FirstFollows(one, view);
    SecondFollows(one, view);
    ThirdFollows(one, view);
    FourthFollows(one, view);
    AbcViews();
  }

  // ----- the operations of the standard are these

  predicate IsAbc(x: seq<Word>) { |x| == 16 && forall k | 0 <= k < 16 :: x[k] == AbcWord(k) }

  function ViewAt(x: seq<Word>, i: nat): Rotating
    requires |x| == 16
  {
    if i <= 64 then RotatedView(Operations(Md5.INITIAL, x, i), i) else Rotating(0, 0, 0, 0)
  }

  lemma OneIs(x: seq<Word>, i: nat)
    requires IsAbc(x) && i < 64
    ensures ViewAt(x, i + 1) == One(ViewAt(x, i), i, AbcWord(WordIndex(i)), Shift(i), Sine(i))
  {
    PassOperates(Operations(Md5.INITIAL, x, i), x, i);
  }

  lemma AbcOperations(x: seq<Word>)
    requires IsAbc(x)
    ensures ViewAt(x, 64) == Rotating(0x310ade8f, 0xc08226b3, 0xe484b9d8, 0x624d8cb2)
  {
    var view := (i: nat) => ViewAt(x, i);
    forall i: nat | i < 64 ensures view(i + 1) == One(view(i), i, AbcWord(WordIndex(i)), Shift(i), Sine(i)) {
      OneIs(x, i);
    }
    AbcRotates(One, view);
  }

  lemma AbcBlock() returns (b: Block)
    ensures b == Pad(ABC, LengthBlock(24)) && IsAbc(WordsOf(b))
  {
    Length24();
    assert ZeroCount(3) == 52;
    b := Pad(ABC, LengthBlock(24));
    AbcWords(b);
  }

  lemma Length24()
    ensures LengthBlock(24) == [24, 0, 0, 0, 0, 0, 0, 0]
  {
    LengthOctets(24);
    var b: seq<byte> := [24, 0, 0, 0, 0, 0, 0, 0];
    assert FourBytes(24) + FourBytes(0) == b;
    SmallOctets(b);
  }

  lemma SmallOctets(b: seq<byte>)
    requires b == [24, 0, 0, 0, 0, 0, 0, 0]
    ensures ToOctets(b) == [24, 0, 0, 0, 0, 0, 0, 0]
  {
  }

  lemma AbcWords(b: Block)
    requires b[0] == 0x61 && b[1] == 0x62 && b[2] == 0x63 && b[3] == 0x80 && b[56] == 24
    requires forall i | 4 <= i < 64 && i != 56 :: b[i] == 0
    ensures IsAbc(WordsOf(b))
  {
  }

  /** The known answer of section A.5 of RFC 1321: MD5 ("abc") = 900150983cd24fb0d6963f7d28e17f72. */
  lemma AbcDigest()
    ensures Digest(ABC) == [0x90, 0x01, 0x50, 0x98, 0x3c, 0xd2, 0x4f, 0xb0, 0xd6, 0x96, 0x3f, 0x7d, 0x28, 0xe1, 0x7f, 0x72]
  {
    var b := AbcBlock();
    AbsorbOne(Compress, Md5.INITIAL, b);
    AbcOperations(WordsOf(b));
    AbcSum(Operations(Md5.INITIAL, WordsOf(b), 64));
  }

  lemma AbcSum(r: Registers)
    requires RotatedView(r, 64) == Rotating(0x310ade8f, 0xc08226b3, 0xe484b9d8, 0x624d8cb2)
    ensures var s := Sum(Md5.INITIAL, r);
            OctetsOf(s[0]) + OctetsOf(s[1]) + OctetsOf(s[2]) + OctetsOf(s[3])
            == [0x90, 0x01, 0x50, 0x98, 0x3c, 0xd2, 0x4f, 0xb0, 0xd6, 0x96, 0x3f, 0x7d, 0x28, 0xe1, 0x7f, 0x72]
  {
    LastView(r);
  }
}
