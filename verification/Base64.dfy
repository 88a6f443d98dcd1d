/** Base64 over caller-supplied buffers, against section 4 of RFC 4648. */
module Base64 {
  import opened Basics

  type Octet = bv8

  /** The byte '='. */
  const PAD: Octet := 0x3d

  // ----- the alphabet: A-Z, a-z, 0-9, +, /

  function Letter(v: Octet): Octet
    requires v < 64
  {
    if v < 26 then v + 0x41
    else if v < 52 then v - 26 + 0x61
    else if v < 62 then v - 52 + 0x30
    else if v == 62 then 0x2b
    else 0x2f
  }

  /** What the decoder takes for a character of the alphabet. */
  predicate IsLetter(c: Octet) {
    0x41 <= c <= 0x5a || 0x61 <= c <= 0x7a || 0x30 <= c <= 0x39 || c == 0x2b || c == 0x2f
  }

  function Value(c: Octet): (v: Octet)
    requires IsLetter(c)
    ensures v < 64
  {
    if 0x41 <= c <= 0x5a then c - 0x41
    else if 0x61 <= c <= 0x7a then c - 0x61 + 26
    else if 0x30 <= c <= 0x39 then c - 0x30 + 52
    else if c == 0x2b then 62
    else 63
  }

  /** Position in the alphabet, cut to a byte: 255 for what is not there. */
  function Find(c: Octet): Octet { if IsLetter(c) then Value(c) else 255 }

  lemma LetterValue(v: Octet)
    requires v < 64
    ensures IsLetter(Letter(v)) && Value(Letter(v)) == v && Letter(v) != PAD
  {
  }

  lemma ValueLetter(c: Octet)
    requires IsLetter(c)
    ensures Letter(Value(c)) == c
  {
  }

  /** Table 1 of RFC 4648. */
  const ALPHABET := "ABCDEFGHIJKLMNOPQRSTUVWXYZ" + "abcdefghijklmnopqrstuvwxyz" + "0123456789" + "+/"

  lemma LettersOfTable(v: Octet)
    requires v < 64
    ensures |ALPHABET| == 64 && Letter(v) as nat == ALPHABET[v as nat] as nat
  {
  }

  // ----- RFC 4648: a 24-bit group is three octets or four sextets

  type Group = bv24

  function FromOctets(p: Octet, q: Octet, r: Octet): Group {
    ((p as Group) << 16) | ((q as Group) << 8) | (r as Group)
  }

  function FromSextets(a: Octet, b: Octet, c: Octet, d: Octet): Group {
    ((a as Group) << 18) | ((b as Group) << 12) | ((c as Group) << 6) | (d as Group)
  }

  function OctetOf(g: Group, k: nat): Octet
    requires k < 3
  {
    if k == 0 then (g >> 16) as Octet
    else if k == 1 then ((g >> 8) & 255) as Octet
    else (g & 255) as Octet
  }

  function Sextet(g: Group, k: nat): (v: Octet)
    requires k < 4
    ensures v < 64
  {
    if k == 0 then (g >> 18) as Octet
    else if k == 1 then ((g >> 12) & 63) as Octet
    else if k == 2 then ((g >> 6) & 63) as Octet
    else (g & 63) as Octet
  }

  /** The first n of the four letters of a group. */
  function Letters(g: Group, n: nat): (t: seq<Octet>)
    requires n <= 4
    ensures |t| == n
  {
    if n == 0 then [] else Letters(g, n - 1) + [Letter(Sextet(g, n - 1))]
  }

  /** The letters of a message, without the padding. */
  function EncodeLetters(d: seq<Octet>): (t: seq<Octet>)
    ensures |t| == |d| + (|d| + 2) / 3
  {
    if |d| == 0 then []
    else if |d| == 1 then Letters(FromOctets(d[0], 0, 0), 2)
    else if |d| == 2 then Letters(FromOctets(d[0], d[1], 0), 3)
    else Letters(FromOctets(d[0], d[1], d[2]), 4) + EncodeLetters(d[3..])
  }

  function Pads(n: nat): (p: seq<Octet>)
    ensures |p| == (3 - n % 3) % 3
  {
    if n % 3 == 1 then [PAD, PAD] else if n % 3 == 2 then [PAD] else []
  }

  function Encoding(d: seq<Octet>): (t: seq<Octet>)
    ensures |t| == (|d| + 2) / 3 * 4
  {
    EncodeLetters(d) + Pads(|d|)
  }

  ghost predicate AllLetters(t: seq<Octet>) { forall k | 0 <= k < |t| :: IsLetter(t[k]) }

  /** The longest prefix of letters. */
  function Prefix(t: seq<Octet>): (p: seq<Octet>)
    ensures AllLetters(p) && p <= t && (|p| < |t| ==> !IsLetter(t[|p|]))
  {
    if t == [] || !IsLetter(t[0]) then [] else [t[0]] + Prefix(t[1..])
  }

  /** The first n of the three octets of a group. */
  function Octets(g: Group, n: nat): (d: seq<Octet>)
    requires n <= 3
    ensures |d| == n
  {
    if n == 0 then [] else Octets(g, n - 1) + [OctetOf(g, n - 1)]
  }

  function DecodeLetters(t: seq<Octet>): (d: seq<Octet>)
    requires AllLetters(t)
    ensures |d| == |t| * 3 / 4
  {
    if |t| <= 1 then []
    else if |t| == 2 then Octets(FromSextets(Value(t[0]), Value(t[1]), 0, 0), 1)
    else if |t| == 3 then Octets(FromSextets(Value(t[0]), Value(t[1]), Value(t[2]), 0), 2)
    else Octets(FromSextets(Value(t[0]), Value(t[1]), Value(t[2]), Value(t[3])), 3) + DecodeLetters(t[4..])
  }

  function Decoding(t: seq<Octet>): seq<Octet> { DecodeLetters(Prefix(t)) }

  // ----- decoding undoes encoding

  lemma GroupRoundTrip(p: Octet, q: Octet, r: Octet)
    ensures var g := FromOctets(p, q, r);
            && FromSextets(Sextet(g, 0), Sextet(g, 1), Sextet(g, 2), Sextet(g, 3)) == g
            && (r == 0 ==> Sextet(g, 3) == 0)
            && (q == 0 && r == 0 ==> Sextet(g, 2) == 0)
            && OctetOf(g, 0) == p && OctetOf(g, 1) == q && OctetOf(g, 2) == r
  {
  }

  lemma LettersAre(g: Group, n: nat)
    requires n <= 4
    ensures AllLetters(Letters(g, n))
    ensures forall k | 0 <= k < n :: Letters(g, n)[k] == Letter(Sextet(g, k)) && Value(Letters(g, n)[k]) == Sextet(g, k)
  {
    if n > 0 {
      LettersAre(g, n - 1);
      LetterValue(Sextet(g, n - 1));
    }
  }

  lemma OctetsAre(g: Group)
    ensures Octets(g, 1) == [OctetOf(g, 0)]
    ensures Octets(g, 2) == [OctetOf(g, 0), OctetOf(g, 1)]
    ensures Octets(g, 3) == [OctetOf(g, 0), OctetOf(g, 1), OctetOf(g, 2)]
  {
    assert Octets(g, 1) == Octets(g, 0) + [OctetOf(g, 0)];
    assert Octets(g, 2) == Octets(g, 1) + [OctetOf(g, 1)];
  }

  lemma {:induction false} DecodeEncodeLetters(d: seq<Octet>)
    ensures AllLetters(EncodeLetters(d)) && DecodeLetters(EncodeLetters(d)) == d
  {
    if |d| > 0 {
      var q, r := if |d| > 1 then d[1] else 0, if |d| > 2 then d[2] else 0;
      var g := FromOctets(d[0], q, r);
      GroupRoundTrip(d[0], q, r);
      LettersAre(g, if |d| < 3 then |d| + 1 else 4);
      OctetsAre(g);
      if |d| >= 3 {
        DecodeEncodeLetters(d[3..]);
        assert EncodeLetters(d)[4..] == EncodeLetters(d[3..]);
      }
    }
  }

  lemma {:induction false} PrefixStops(s: seq<Octet>, rest: seq<Octet>)
    requires AllLetters(s) && (rest == [] || !IsLetter(rest[0]))
    ensures Prefix(s + rest) == s
  {
    if s != [] {
      assert (s + rest)[1..] == s[1..] + rest;
      PrefixStops(s[1..], rest);
    } else {
      assert s + rest == rest;
    }
  }

  /** Decoding the encoding of any message gives the message back. */
  lemma DecodeUndoesEncode(d: seq<Octet>)
    ensures Decoding(Encoding(d)) == d
  {
    DecodeEncodeLetters(d);
    PrefixStops(EncodeLetters(d), Pads(|d|));
  }

  // ----- encoding undoes decoding exactly on canonical text

  /** Section 3.5: padded to whole groups, and the bits of the last letter that carry no data are zero. */
  ghost predicate Canonical(t: seq<Octet>) {
    var s := Prefix(t);
    && |t| % 4 == 0
    && match |s| % 4
       case 0 => t == s
       case 1 => false
       case 2 => t == s + [PAD, PAD] && Value(s[|s| - 1]) & 15 == 0
       case _ => t == s + [PAD] && Value(s[|s| - 1]) & 3 == 0
  }

  /** The letters that EncodeLetters can produce. */
  ghost predicate CanonicalLetters(s: seq<Octet>) {
    && AllLetters(s)
    && |s| % 4 != 1
    && (|s| % 4 == 2 ==> Value(s[|s| - 1]) & 15 == 0)
    && (|s| % 4 == 3 ==> Value(s[|s| - 1]) & 3 == 0)
  }

  lemma SextetsBack(a: Octet, b: Octet, c: Octet, d: Octet)
    requires a < 64 && b < 64 && c < 64 && d < 64
    ensures var g := FromSextets(a, b, c, d);
            && FromOctets(OctetOf(g, 0), OctetOf(g, 1), OctetOf(g, 2)) == g
            && Sextet(g, 0) == a && Sextet(g, 1) == b && Sextet(g, 2) == c && Sextet(g, 3) == d
            && (c == 0 && d == 0 && b & 15 == 0 ==> FromOctets(OctetOf(g, 0), 0, 0) == g)
            && (d == 0 && c & 3 == 0 ==> FromOctets(OctetOf(g, 0), OctetOf(g, 1), 0) == g)
  {
  }

  lemma LettersOf(a: Octet, b: Octet, c: Octet, d: Octet)
    requires IsLetter(a) && IsLetter(b) && IsLetter(c) && IsLetter(d)
    ensures var g := FromSextets(Value(a), Value(b), Value(c), Value(d));
            && Letters(g, 4) == [a, b, c, d]
            && Letters(g, 3) == [a, b, c]
            && Letters(g, 2) == [a, b]
  {
    var g := FromSextets(Value(a), Value(b), Value(c), Value(d));
    SextetsBack(Value(a), Value(b), Value(c), Value(d));
    ValueLetter(a); ValueLetter(b); ValueLetter(c); ValueLetter(d);
    LettersAre(g, 4); LettersAre(g, 3); LettersAre(g, 2);
  }

  /** The letter of the value 0. */
  const ZERO: Octet := 0x41

  lemma EncodeGroup(a: Octet, b: Octet, c: Octet, d: Octet, rest: seq<Octet>)
    requires IsLetter(a) && IsLetter(b) && IsLetter(c) && IsLetter(d)
    ensures EncodeLetters(Octets(FromSextets(Value(a), Value(b), Value(c), Value(d)), 3) + rest) == [a, b, c, d] + EncodeLetters(rest)
  {
    var g := FromSextets(Value(a), Value(b), Value(c), Value(d));
    SextetsBack(Value(a), Value(b), Value(c), Value(d));
    LettersOf(a, b, c, d);
    OctetsAre(g);
    assert (Octets(g, 3) + rest)[3..] == rest;
  }

  lemma EncodePair(a: Octet, b: Octet)
    requires IsLetter(a) && IsLetter(b) && Value(b) & 15 == 0
    ensures EncodeLetters(DecodeLetters([a, b])) == [a, b]
  {
    SextetsBack(Value(a), Value(b), 0, 0);
    LettersOf(a, b, ZERO, ZERO);
    OctetsAre(FromSextets(Value(a), Value(b), 0, 0));
  }

  lemma EncodeTriple(a: Octet, b: Octet, c: Octet)
    requires IsLetter(a) && IsLetter(b) && IsLetter(c) && Value(c) & 3 == 0
    ensures EncodeLetters(DecodeLetters([a, b, c])) == [a, b, c]
  {
    SextetsBack(Value(a), Value(b), Value(c), 0);
    LettersOf(a, b, c, ZERO);
    OctetsAre(FromSextets(Value(a), Value(b), Value(c), 0));
  }

  lemma DecodeFirst(s: seq<Octet>)
    requires |s| >= 4 && AllLetters(s)
    ensures DecodeLetters(s) == Octets(FromSextets(Value(s[0]), Value(s[1]), Value(s[2]), Value(s[3])), 3) + DecodeLetters(s[4..])
  {
  }

  lemma EncodeFirst(s: seq<Octet>, d: seq<Octet>, rest: seq<Octet>)
    requires |s| >= 4 && AllLetters(s)
    requires d == Octets(FromSextets(Value(s[0]), Value(s[1]), Value(s[2]), Value(s[3])), 3) + rest
    ensures EncodeLetters(d) == s[..4] + EncodeLetters(rest)
  {
    EncodeGroup(s[0], s[1], s[2], s[3], rest);
    assert s[..4] == [s[0], s[1], s[2], s[3]];
  }

  lemma CanonicalRest(s: seq<Octet>)
    requires |s| >= 4 && CanonicalLetters(s)
    ensures CanonicalLetters(s[4..])
  {
    assert |s[4..]| % 4 == |s| % 4;
    if |s| > 4 {
      assert s[4..][|s[4..]| - 1] == s[|s| - 1];
    }
  }

  lemma {:induction false} EncodeDecodeLetters(s: seq<Octet>)
    requires CanonicalLetters(s)
    ensures EncodeLetters(DecodeLetters(s)) == s
  {
    if |s| >= 4 {
      CanonicalRest(s);
      EncodeDecodeLetters(s[4..]);
      DecodeFirst(s);
      EncodeFirst(s, DecodeLetters(s), DecodeLetters(s[4..]));
    } else if |s| == 3 {
      assert s == [s[0], s[1], s[2]];
      EncodeTriple(s[0], s[1], s[2]);
    } else if |s| == 2 {
      assert s == [s[0], s[1]];
      EncodePair(s[0], s[1]);
    }
  }

  lemma PartialGroups(p: Octet, q: Octet)
    ensures Sextet(FromOctets(p, 0, 0), 1) & 15 == 0
    ensures Sextet(FromOctets(p, q, 0), 2) & 3 == 0
  {
  }

  lemma {:induction false} EncodesToCanonicalLetters(d: seq<Octet>)
    ensures CanonicalLetters(EncodeLetters(d))
  {
    DecodeEncodeLetters(d);
    if |d| == 1 {
      PartialGroups(d[0], 0);
      LettersAre(FromOctets(d[0], 0, 0), 2);
    } else if |d| == 2 {
      PartialGroups(d[0], d[1]);
      LettersAre(FromOctets(d[0], d[1], 0), 3);
    } else if |d| >= 3 {
      EncodesToCanonicalLetters(d[3..]);
      CanonicalAfterGroup(Letters(FromOctets(d[0], d[1], d[2]), 4), EncodeLetters(d[3..]));
    }
  }

  lemma CanonicalAfterGroup(group: seq<Octet>, s: seq<Octet>)
    requires |group| == 4 && AllLetters(group + s) && CanonicalLetters(s)
    ensures CanonicalLetters(group + s)
  {
    if s != [] {
      assert (group + s)[|group + s| - 1] == s[|s| - 1];
    }
  }

  lemma CanonicalEncodes(t: seq<Octet>)
    requires Canonical(t)
    ensures Encoding(Decoding(t)) == t
  {
    EncodeDecodeLetters(Prefix(t));
    PadsFollow(|Prefix(t)|);
  }

  lemma PadsFollow(k: nat)
    requires k % 4 != 1
    ensures Pads(k * 3 / 4) == if k % 4 == 2 then [PAD, PAD] else if k % 4 == 3 then [PAD] else []
  {
    var g := k / 4;
    assert k == 4 * g + k % 4;
    assert k * 3 / 4 == 3 * g + k % 4 * 3 / 4;
  }

  lemma EncodesCanonical(d: seq<Octet>)
    ensures Canonical(Encoding(d))
  {
    EncodesToCanonicalLetters(d);
    PrefixStops(EncodeLetters(d), Pads(|d|));
    PaddedIsCanonical(EncodeLetters(d), |d|);
  }

  lemma PaddedIsCanonical(s: seq<Octet>, n: nat)
    requires CanonicalLetters(s) && |s| == n + (n + 2) / 3 && Prefix(s + Pads(n)) == s
    ensures Canonical(s + Pads(n))
  {
    LetterCount(n);
  }

  lemma LetterCount(n: nat)
    ensures (n + (n + 2) / 3) % 4 == if n % 3 == 0 then 0 else n % 3 + 1
  {
    var g := n / 3;
    assert (n + 2) / 3 == if n % 3 == 0 then g else g + 1;
  }

  /** Encoding gives the text back exactly when the text was canonical. */
  lemma EncodeUndoesDecode(t: seq<Octet>)
    ensures Encoding(Decoding(t)) == t <==> Canonical(t)
  {
    if Canonical(t) {
      CanonicalEncodes(t);
    }
    EncodesCanonical(Decoding(t));
  }

  // ----- the code

  /** The four sextets as the code extracts them. */
  lemma CodeSextets(p: Octet, q: Octet, r: Octet)
    ensures var g := FromOctets(p, q, r);
            && Sextet(g, 0) == (p & 0xfc) >> 2
            && Sextet(g, 1) == ((p & 0x03) << 4) + ((q & 0xf0) >> 4)
            && Sextet(g, 2) == ((q & 0x0f) << 2) + ((r & 0xc0) >> 6)
            && Sextet(g, 3) == r & 0x3f
  {
  }

  function Byte0(v0: Octet, v1: Octet): Octet { (v0 << 2) + ((v1 & 0x30) >> 4) }

  function Byte1(v1: Octet, v2: Octet): Octet { ((v1 & 0xf) << 4) + ((v2 & 0x3c) >> 2) }

  function Byte2(v2: Octet, v3: Octet): Octet { ((v2 & 0x3) << 6) + v3 }

  /** The three octets as the code joins them. A sextet that is missing has no influence on the octets before
      it. */
  lemma CodeOctets(a: Octet, b: Octet, c: Octet, d: Octet, c': Octet, d': Octet)
    requires a < 64 && b < 64 && c < 64 && d < 64
    ensures OctetOf(FromSextets(a, b, c', d'), 0) == Byte0(a, b)
    ensures OctetOf(FromSextets(a, b, c, d'), 1) == Byte1(b, c)
    ensures OctetOf(FromSextets(a, b, c, d), 2) == Byte2(c, d)
  {
  }

  function Int32(n: nat): int
    requires n < UINT32_COUNT
  {
    if n <= INT32_MAX then n else n - UINT32_COUNT
  }

  /** The four letters of a group, from its three bytes. */
  method QuadLetters(p: Octet, q: Octet, r: Octet) returns (t: seq<Octet>)
    ensures t == Letters(FromOctets(p, q, r), 4)
  {
    CodeSextets(p, q, r);
    var v0, v1 := (p & 0xfc) >> 2, ((p & 0x03) << 4) + ((q & 0xf0) >> 4);
    var v2, v3 := ((q & 0x0f) << 2) + ((r & 0xc0) >> 6), r & 0x3f;
    t := [Letter(v0), Letter(v1), Letter(v2), Letter(v3)];
    LettersAre(FromOctets(p, q, r), 4);
  }

  lemma LettersPrefix(g: Group, n: nat)
    requires n <= 4
    ensures Letters(g, 4)[..n] == Letters(g, n)
  {
    LettersAre(g, 4);
    LettersAre(g, n);
  }

  lemma EncodeMore(group: seq<Octet>, rest: seq<Octet>)
    requires |group| == 3
    ensures EncodeLetters(group + rest) == Letters(FromOctets(group[0], group[1], group[2]), 4) + EncodeLetters(rest)
  {
    assert (group + rest)[3..] == rest;
  }

  /** One byte: it joins the group, which is turned into letters once it has three. */
  method EncodeByte(ret: seq<Octet>, group: seq<Octet>, c: Octet, ghost ahead: seq<Octet>)
    returns (ret': seq<Octet>, group': seq<Octet>)
    requires |group| < 3 && |ret| % 4 == 0
    ensures |group'| < 3 && |ret'| % 4 == 0
    ensures ret' + EncodeLetters(group' + ahead) == ret + EncodeLetters(group + ([c] + ahead))
  {
    ret', group' := ret, group + [c];
    assert group + ([c] + ahead) == group' + ahead;
    if |group'| == 3 {
      EncodeMore(group', ahead);
      var quad := QuadLetters(group'[0], group'[1], group'[2]);
      ret' := ret + quad;
      group' := [];
      assert group' + ahead == ahead;
    }
  }

  /** The text built by the encoder. */
  method EncodeText(data: seq<Octet>) returns (ret: seq<Octet>)
    ensures ret == Encoding(data)
  {
    ret := [];
    var group: seq<Octet> := [];
    var n := 0;
    assert [] + data[0..] == data;
    while n < |data|
      invariant n <= |data| && |group| < 3 && |ret| % 4 == 0
      invariant ret + EncodeLetters(group + data[n..]) == EncodeLetters(data)
    {
      assert data[n..] == [data[n]] + data[n + 1..];
      ret, group := EncodeByte(ret, group, data[n], data[n + 1..]);
      n := n + 1;
    }
    assert group + data[n..] == group;
    ret := EncodeRest(ret, group, data);
  }

  lemma SamePads(n: nat, m: nat, k: nat)
    requires k % 4 == 0 && k + n + (n + 2) / 3 == m + (m + 2) / 3
    ensures Pads(n) == Pads(m)
  {
    LetterCount(n);
    LetterCount(m);
    SameRest(k, n + (n + 2) / 3);
  }

  lemma SameRest(k: nat, n: nat)
    requires k % 4 == 0
    ensures (k + n) % 4 == n % 4
  {
  }

  method EncodeRest(ret: seq<Octet>, group: seq<Octet>, ghost data: seq<Octet>) returns (ret': seq<Octet>)
    requires |group| < 3 && ret + EncodeLetters(group) == EncodeLetters(data) && |ret| % 4 == 0
    ensures ret' == Encoding(data)
  {
    ret' := ret;
    SamePads(|group|, |data|, |ret|);
    if group != [] {
      var tail := EncodeTail(group);
      ret' := ret + tail;
    }
  }

  /** The letters and padding of the one or two bytes left over. */
  method EncodeTail(group: seq<Octet>) returns (t: seq<Octet>)
    requires 1 <= |group| <= 2
    ensures t == EncodeLetters(group) + Pads(|group|)
  {
    var i := |group|;
    var q := if i > 1 then group[1] else 0;
    var quad := QuadLetters(group[0], q, 0);
    LettersPrefix(FromOctets(group[0], q, 0), i + 1);
    t := quad[..i + 1];
    while i < 3
      invariant |group| <= i <= 3
      invariant t == EncodeLetters(group) + Pads(|group|)[..i - |group|]
    {
      t := t + [PAD];
      i := i + 1;
    }
  }

  /** Writes the encoding to a buffer of `size` bytes: its length, or -1 when an argument is null, there is
      nothing to encode, or it does not fit. */
  method Encode(data: array?<Octet>, len: nat, buf: array?<Octet>, size: nat) returns (r: int)
    requires data != null ==> len <= data.Length
    requires buf != null ==> size <= buf.Length
    requires len < UINT32_COUNT && size < UINT32_COUNT
    modifies buf
    ensures buf == null || data == null || len == 0 || (len + 2) / 3 * 4 > size ==>
              r == -1 && (buf != null ==> buf[..] == old(buf[..]))
    ensures buf != null && data != null && 0 < len && (len + 2) / 3 * 4 <= size ==>
              var text := Encoding(old(data[..len]));
              && r == Int32(|text|)
              && buf[..] == text + old(buf[|text|..])
  {
    if buf == null || data == null {
      return -1;
    }
    var ret := EncodeText(data[..len]);
    if |ret| > size || ret == [] {
      return -1;
    }
    CopyOut(ret, buf);
    r := Int32(|ret|);
  }

  method CopyOut(bytes: seq<Octet>, buf: array<Octet>)
    requires |bytes| <= buf.Length
    modifies buf
    ensures buf[..] == bytes + old(buf[|bytes|..])
  {
    forall i | 0 <= i < |bytes| {
      buf[i] := bytes[i];
    }
    assert buf[|bytes|..] == old(buf[|bytes|..]);
    assert buf[..|bytes|] == bytes;
  }

  /** The three bytes of a group as the code joins them from the positions of four bytes. */
  function Joined(a: Octet, b: Octet, c: Octet, d: Octet): (t: seq<Octet>)
    ensures |t| == 3
  {
    var v0, v1, v2, v3 := Find(a), Find(b), Find(c), Find(d);
    [Byte0(v0, v1), Byte1(v1, v2), Byte2(v2, v3)]
  }

  lemma JoinedFull(a: Octet, b: Octet, c: Octet, d: Octet)
    requires IsLetter(a) && IsLetter(b) && IsLetter(c) && IsLetter(d)
    ensures Joined(a, b, c, d) == Octets(FromSextets(Value(a), Value(b), Value(c), Value(d)), 3)
  {
    CodeOctets(Value(a), Value(b), Value(c), Value(d), Value(c), Value(d));
    OctetsAre(FromSextets(Value(a), Value(b), Value(c), Value(d)));
  }

  lemma JoinedThree(a: Octet, b: Octet, c: Octet, d: Octet)
    requires IsLetter(a) && IsLetter(b) && IsLetter(c)
    ensures Joined(a, b, c, d)[..2] == DecodeLetters([a, b, c])
  {
    CodeOctets(Value(a), Value(b), Value(c), 0, Value(c), 0);
    OctetsAre(FromSextets(Value(a), Value(b), Value(c), 0));
  }

  lemma JoinedTwo(a: Octet, b: Octet, c: Octet, d: Octet)
    requires IsLetter(a) && IsLetter(b)
    ensures Joined(a, b, c, d)[..1] == DecodeLetters([a, b])
  {
    CodeOctets(Value(a), Value(b), 0, 0, 0, 0);
    OctetsAre(FromSextets(Value(a), Value(b), 0, 0));
  }

  /** The missing letters of a last group are zero bytes, which no position can be found for; what that puts
      in the bytes past the data is not output. */
  lemma JoinedPartial(group: seq<Octet>, g: seq<Octet>)
    requires 1 <= |group| < 4 == |g| && group <= g && AllLetters(group)
    ensures Joined(g[0], g[1], g[2], g[3])[..|group| - 1] == DecodeLetters(group)
  {
    if |group| == 3 {
      assert group == [g[0], g[1], g[2]];
      JoinedThree(g[0], g[1], g[2], g[3]);
    } else if |group| == 2 {
      assert group == [g[0], g[1]];
      JoinedTwo(g[0], g[1], g[2], g[3]);
    }
  }

  lemma DecodeMore(group: seq<Octet>, rest: seq<Octet>)
    requires |group| == 4 && AllLetters(group) && AllLetters(rest)
    ensures DecodeLetters(group + rest) == Octets(FromSextets(Value(group[0]), Value(group[1]), Value(group[2]), Value(group[3])), 3) + DecodeLetters(rest)
  {
    assert (group + rest)[4..] == rest;
  }

  lemma PrefixNext(text: seq<Octet>, pos: nat)
    requires pos < |text| && IsLetter(text[pos])
    ensures Prefix(text[pos..]) == [text[pos]] + Prefix(text[pos + 1..])
  {
    assert text[pos..][1..] == text[pos + 1..];
  }

  lemma PrefixEnds(text: seq<Octet>, pos: nat)
    requires pos == |text| || (pos < |text| && (text[pos] == PAD || !IsLetter(text[pos])))
    ensures Prefix(text[pos..]) == []
  {
  }

  lemma DecodeGroup(group: seq<Octet>, rest: seq<Octet>)
    requires |group| == 4 && AllLetters(group) && AllLetters(rest)
    ensures DecodeLetters(group + rest) == Joined(group[0], group[1], group[2], group[3]) + DecodeLetters(rest)
  {
    DecodeMore(group, rest);
    JoinedFull(group[0], group[1], group[2], group[3]);
  }

  /** One letter: it joins the group, which is turned into bytes once it has four. */
  method DecodeByte(ret: seq<Octet>, group: seq<Octet>, c: Octet, ghost ahead: seq<Octet>)
    returns (ret': seq<Octet>, group': seq<Octet>)
    requires |group| < 4 && AllLetters(group) && AllLetters(ahead) && IsLetter(c)
    ensures |group'| < 4 && AllLetters(group')
    ensures ret' + DecodeLetters(group' + ahead) == ret + DecodeLetters(group + ([c] + ahead))
  {
    ret', group' := ret, group + [c];
    assert group + ([c] + ahead) == group' + ahead;
    if |group'| == 4 {
      DecodeGroup(group', ahead);
      ret' := ret + Joined(group'[0], group'[1], group'[2], group'[3]);
      group' := [];
      assert group' + ahead == ahead;
    }
  }

  /** What is decoded so far, the letters left over and the text from pos on make up the whole decoding. */
  ghost predicate Decodes(text: seq<Octet>, pos: nat, ret: seq<Octet>, group: seq<Octet>) {
    && pos <= |text| && |group| < 4 && AllLetters(group)
    && ret + DecodeLetters(group + Prefix(text[pos..])) == Decoding(text)
  }

  lemma DecodingStarts(text: seq<Octet>)
    ensures Decodes(text, 0, [], [])
  {
    assert text[0..] == text && [] + Prefix(text) == Prefix(text);
  }

  lemma DecodingEnds(text: seq<Octet>, pos: nat, ret: seq<Octet>, group: seq<Octet>)
    requires Decodes(text, pos, ret, group) && (pos == |text| || text[pos] == PAD || !IsLetter(text[pos]))
    ensures ret + DecodeLetters(group) == Decoding(text)
  {
    PrefixEnds(text, pos);
    assert group + [] == group;
  }

  method DecodeNext(text: seq<Octet>, pos: nat, ret: seq<Octet>, group: seq<Octet>)
    returns (ret': seq<Octet>, group': seq<Octet>)
    requires pos < |text| && IsLetter(text[pos]) && Decodes(text, pos, ret, group)
    ensures Decodes(text, pos + 1, ret', group')
  {
    PrefixNext(text, pos);
    ret', group' := DecodeByte(ret, group, text[pos], Prefix(text[pos + 1..]));
  }

  /** Whole groups are turned into bytes until a byte that is not a letter; letters may be left over. */
  method DecodeGroups(text: seq<Octet>) returns (ret: seq<Octet>, group: seq<Octet>)
    ensures |group| < 4 && AllLetters(group) && ret + DecodeLetters(group) == Decoding(text)
  {
    ret, group := [], [];
    var pos := 0;
    DecodingStarts(text);
    while pos < |text| && text[pos] != PAD && IsLetter(text[pos])
      invariant Decodes(text, pos, ret, group)
    {
      ret, group := DecodeNext(text, pos, ret, group);
      pos := pos + 1;
    }
    DecodingEnds(text, pos, ret, group);
  }

  /** The bytes rebuilt by the decoder. */
  method DecodeText(text: seq<Octet>) returns (ret: seq<Octet>)
    ensures ret == Decoding(text)
  {
    var bytes, group := DecodeGroups(text);
    ret := DecodeRest(bytes, group, text);
  }

  method DecodeRest(ret: seq<Octet>, group: seq<Octet>, ghost text: seq<Octet>) returns (ret': seq<Octet>)
    requires |group| < 4 && AllLetters(group) && ret + DecodeLetters(group) == Decoding(text)
    ensures ret' == Decoding(text)
  {
    ret' := ret;
    if group != [] {
      var g := group + seq(4 - |group|, _ => 0);
      JoinedPartial(group, g);
      ret' := ret + Joined(g[0], g[1], g[2], g[3])[..|group| - 1];
    }
  }

  /** Writes the decoding to a buffer of `size` bytes: its length, or -1 when an argument is null, there is
      nothing to decode, or it does not fit. */
  method Decode(data: array?<Octet>, len: nat, buf: array?<Octet>, size: nat) returns (r: int)
    requires data != null ==> len <= data.Length
    requires buf != null ==> size <= buf.Length
    requires len <= INT32_MAX && size < UINT32_COUNT
    modifies buf
    ensures buf == null || data == null ==> r == -1
    ensures buf != null && data != null ==>
              var bytes := Decoding(old(data[..len]));
              if bytes == [] || |bytes| > size then r == -1 && buf[..] == old(buf[..])
              else r == |bytes| && buf[..] == bytes + old(buf[|bytes|..])
  {
    if buf == null || data == null {
      return -1;
    }
    var ret := DecodeText(data[..len]);
    if |ret| > size || ret == [] {
      return -1;
    }
    CopyOut(ret, buf);
    r := |ret|;
  }

  /** Through the two calls, with buffers just large enough, any non-empty message comes back. */
  method EncodeThenDecode(message: seq<Octet>) returns (r: int, back: seq<Octet>)
    requires 0 < |message| && (|message| + 2) / 3 * 4 <= INT32_MAX
    ensures r == |message| && back == message
  {
    var data := new Octet[|message|](i requires 0 <= i < |message| => message[i]);
    var size := (|message| + 2) / 3 * 4;
    var text := new Octet[size];
    var out := new Octet[|message|];
    assert data[..|message|] == message;
    var n := Encode(data, |message|, text, size);
    assert text[..n] == Encoding(message);
    DecodeUndoesEncode(message);
    r := Decode(text, n, out, |message|);
    back := out[..];
  }
}
