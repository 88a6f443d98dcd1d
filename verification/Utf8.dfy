/** Counting and cutting UTF-8 text by its lead bytes. */
module Utf8 {
  import opened Basics
  import opened Bytes

  type Octet = byte

  /** size_t is 64 bits, and a string is shorter than half its range. */
  const NPOS: nat := UINT64_COUNT - 1
  const MAX_STRING := 0x7fff_ffff_ffff_ffff

  /** Bytes of the unit that a lead byte starts; 0 for a byte that starts none. */
  function Width(c: Octet): (w: nat)
    ensures w <= 6
  {
    if c < 0x80 then 1
    else if c < 0xC0 then 0
    else if c < 0xE0 then 2
    else if c < 0xF0 then 3
    else if c < 0xF8 then 4
    else if c < 0xFC then 5
    else if c < 0xFE then 6
    else 0
  }

  /** The same, as the code finds it. */
  function MaskedWidth(c: bv8): nat {
    if c <= 127 then 1
    else if c & 0xE0 == 0xC0 then 2
    else if c & 0xF0 == 0xE0 then 3
    else if c & 0xF8 == 0xF0 then 4
    else if c & 0xFC == 0xF8 then 5
    else if c & 0xFE == 0xFC then 6
    else 0
  }

  lemma MasksAreRanges(c: Octet)
    ensures MaskedWidth(c as bv8) == Width(c)
  {
  }

  /** What follows the first unit; a last unit may be cut short. */
  function Rest(s: seq<Octet>): (r: seq<Octet>)
    requires s != [] && Width(s[0]) > 0
    ensures |r| < |s|
  {
    if Width(s[0]) <= |s| then s[Width(s[0])..] else []
  }

  /** The first unit, as much of it as there is. */
  function First(s: seq<Octet>): (f: seq<Octet>)
    requires s != [] && Width(s[0]) > 0
    ensures f != []
  {
    s[..|s| - |Rest(s)|]
  }

  /** Every unit starts with a lead byte. */
  predicate Accepted(s: seq<Octet>)
    decreases |s|
  {
    s != [] ==> Width(s[0]) > 0 && Accepted(Rest(s))
  }

  function Units(s: seq<Octet>): (u: seq<seq<Octet>>)
    requires Accepted(s)
    ensures |u| <= |s| && (s == [] <==> u == [])
    decreases |s|
  {
    if s == [] then [] else [First(s)] + Units(Rest(s))
  }

  function Join(u: seq<seq<Octet>>): seq<Octet> {
    if u == [] then [] else u[0] + Join(u[1..])
  }

  /** The units from pos on, at most `count` of them. */
  function Slice(s: seq<Octet>, pos: nat, count: nat): seq<Octet>
    requires Accepted(s)
  {
    var u := Units(s);
    Join(u[Min(pos, |u|)..Min(pos + count, |u|)])
  }

  /** A unit starts with its lead byte and has the width that byte says, unless it is the last and cut short. */
  lemma {:induction false} UnitsAreUnits(s: seq<Octet>, k: nat)
    requires Accepted(s) && k < |Units(s)|
    ensures var u := Units(s)[k]; u != [] && |u| <= Width(u[0]) && (k < |Units(s)| - 1 ==> |u| == Width(u[0]))
    decreases k
  {
    UnitsFirst(s);
    if k > 0 {
      UnitsAreUnits(Rest(s), k - 1);
    }
  }

  lemma UnitsFirst(s: seq<Octet>)
    requires Accepted(s) && s != []
    ensures First(s) + Rest(s) == s
    ensures Units(s) == [First(s)] + Units(Rest(s)) && Units(s)[0] == First(s) && Units(s)[1..] == Units(Rest(s))
  {
  }

  lemma {:induction false} JoinUnits(s: seq<Octet>)
    requires Accepted(s)
    ensures Join(Units(s)) == s
    decreases |s|
  {
    if s != [] {
      JoinUnits(Rest(s));
      UnitsFirst(s);
    }
  }

  lemma {:induction false} JoinAppend(u: seq<seq<Octet>>, v: seq<seq<Octet>>)
    ensures Join(u + v) == Join(u) + Join(v)
  {
    if u == [] {
      assert u + v == v;
    } else {
      assert (u + v)[1..] == u[1..] + v;
      JoinAppend(u[1..], v);
    }
  }

  lemma JoinOne(x: seq<Octet>)
    ensures Join([x]) == x
  {
    assert Join([x][1..]) == [];
  }

  /** Cutting at any unit loses nothing. */
  lemma SlicesJoin(s: seq<Octet>, k: nat)
    requires Accepted(s) && k <= |Units(s)|
    ensures Slice(s, 0, k) + Slice(s, k, |Units(s)| - k) == s
  {
    var u := Units(s);
    JoinRange(u, k, |u|);
    assert u[..|u|] == u && u[0..k] == u[..k];
    JoinUnits(s);
  }

  // ----- text made of code points, each of 31 bits as in RFC 2279

  const CODE_POINTS := 0x8000_0000

  type CodePoint = c: nat | c < CODE_POINTS witness 0

  /** n bytes that each carry the next lower six bits. */
  function Trail(c: nat, n: nat): (t: seq<Octet>)
    ensures |t| == n
  {
    if n == 0 then [] else Trail(c / 64, n - 1) + [(0x80 + c % 64) as Octet]
  }

  /** The table of section 2 of RFC 2279. */
  function Encoded(c: CodePoint): (e: seq<Octet>)
    ensures 1 <= |e| <= 6
  {
    if c < 0x80 then [c as Octet]
    else if c < 0x800 then [(0xC0 + c / 0x40) as Octet] + Trail(c, 1)
    else if c < 0x1_0000 then [(0xE0 + c / 0x1000) as Octet] + Trail(c, 2)
    else if c < 0x20_0000 then [(0xF0 + c / 0x4_0000) as Octet] + Trail(c, 3)
    else if c < 0x400_0000 then [(0xF8 + c / 0x100_0000) as Octet] + Trail(c, 4)
    else [(0xFC + c / 0x4000_0000) as Octet] + Trail(c, 5)
  }

  function EncodedAll(cs: seq<CodePoint>): (s: seq<Octet>) {
    if cs == [] then [] else Encoded(cs[0]) + EncodedAll(cs[1..])
  }

  /** The lead byte of a code point says how long its encoding is. */
  lemma LeadWidth(c: CodePoint)
    ensures Width(Encoded(c)[0]) == |Encoded(c)|
  {
  }

  /** The units of a text are the encodings of its code points: none is counted twice, skipped or cut. */
  lemma {:induction false} UnitsAreCodePoints(cs: seq<CodePoint>)
    ensures Accepted(EncodedAll(cs)) && |Units(EncodedAll(cs))| == |cs|
    ensures forall k | 0 <= k < |cs| :: Units(EncodedAll(cs))[k] == Encoded(cs[k])
  {
    if cs != [] {
      var s, first, rest := EncodedAll(cs), Encoded(cs[0]), EncodedAll(cs[1..]);
      UnitsAreCodePoints(cs[1..]);
      LeadWidth(cs[0]);
      assert s == first + rest && s[0] == first[0];
      assert Rest(s) == rest && First(s) == first;
      UnitsFirst(s);
    }
  }

  /** Cutting such a text cuts the list of its code points. */
  lemma SlicesAreCodePoints(cs: seq<CodePoint>, pos: nat, count: nat)
    ensures Accepted(EncodedAll(cs))
    ensures Slice(EncodedAll(cs), pos, count) == EncodedAll(cs[Min(pos, |cs|)..Min(pos + count, |cs|)])
  {
    UnitsAreCodePoints(cs);
    JoinEncodedRange(Units(EncodedAll(cs)), cs, Min(pos, |cs|), Min(pos + count, |cs|));
  }

  lemma JoinEncodedRange(u: seq<seq<Octet>>, cs: seq<CodePoint>, from: nat, to: nat)
    requires |u| == |cs| && from <= to <= |u| && forall k | 0 <= k < |u| :: u[k] == Encoded(cs[k])
    ensures Join(u[from..to]) == EncodedAll(cs[from..to])
  {
    JoinEncoded(u[from..to], cs[from..to]);
  }

  lemma {:induction false} JoinEncoded(u: seq<seq<Octet>>, cs: seq<CodePoint>)
    requires |u| == |cs| && forall k | 0 <= k < |u| :: u[k] == Encoded(cs[k])
    ensures Join(u) == EncodedAll(cs)
  {
    if u != [] {
      JoinEncoded(u[1..], cs[1..]);
    }
  }

  /** One unit, or nothing past the end. */
  lemma SliceOne(s: seq<Octet>, pos: nat)
    requires Accepted(s)
    ensures Slice(s, pos, 1) == if pos < |Units(s)| then Units(s)[pos] else []
  {
    OneOf(Units(s), pos);
  }

  lemma OneOf(u: seq<seq<Octet>>, pos: nat)
    ensures Join(u[Min(pos, |u|)..Min(pos + 1, |u|)]) == if pos < |u| then u[pos] else []
  {
    if pos < |u| {
      assert u[pos..pos + 1] == [u[pos]];
      JoinOne(u[pos]);
    }
  }

  // ----- scanning

  /** A native position, which a last unit cut short can take past the end. */
  function Cut(s: seq<Octet>, native: nat): nat { Min(native, |s|) }

  /** Unit k starts at this byte; the end of the text counts as a start. */
  ghost predicate StartsUnit(s: seq<Octet>, at: nat, k: nat)
    requires Accepted(s)
  {
    && k <= |Units(s)| && at <= |s|
    && s[..at] == Join(Units(s)[..k])
    && Accepted(s[at..]) && Units(s[at..]) == Units(s)[k..]
  }

  lemma StepUnits(u: seq<seq<Octet>>, k: nat, first: seq<Octet>, rest: seq<seq<Octet>>)
    requires k <= |u| && u[k..] == [first] + rest
    ensures k < |u| && u[k + 1..] == rest && Join(u[..k + 1]) == Join(u[..k]) + first
  {
    assert u[k] == u[k..][0] == first;
    assert u[k + 1..] == u[k..][1..];
    assert u[..k + 1] == u[..k] + [first];
    JoinAppend(u[..k], [first]);
    JoinOne(first);
  }

  /** Moving a boundary over the unit behind it. */
  lemma MoveOver(s: seq<Octet>, u: seq<seq<Octet>>, at: nat, k: nat, next: nat, first: seq<Octet>, rest: seq<Octet>, units: seq<seq<Octet>>)
    requires at <= |s| && k <= |u| && s[..at] == Join(u[..k]) && s[at..] == first + rest && u[k..] == [first] + units
    requires next == at + |first|
    ensures k < |u| && next <= |s|
    ensures s[..next] == Join(u[..k + 1]) && s[next..] == rest && u[k + 1..] == units
  {
    StepUnits(u, k, first, units);
    assert s[..next] == s[..at] + first;
  }

  lemma StartsNext(s: seq<Octet>, at: nat, k: nat) returns (next: nat)
    requires Accepted(s) && at < |s| && StartsUnit(s, at, k)
    ensures Width(s[at]) > 0 && next == at + |First(s[at..])| && StartsUnit(s, next, k + 1)
  {
    var tail := s[at..];
    assert Accepted(tail) && tail[0] == s[at];
    UnitsFirst(tail);
    next := at + |First(tail)|;
    MoveOver(s, Units(s), at, k, next, First(tail), Rest(tail), Units(Rest(tail)));
    SameText(s[next..], Rest(tail), Units(s)[k + 1..]);
  }

  lemma SameText(t: seq<Octet>, rest: seq<Octet>, units: seq<seq<Octet>>)
    requires t == rest && Accepted(rest) && Units(rest) == units
    ensures Accepted(t) && Units(t) == units
  {
  }

  lemma StartsLast(s: seq<Octet>, at: nat, k: nat)
    requires Accepted(s) && StartsUnit(s, at, k)
    ensures at == |s| <==> k == |Units(s)|
  {
  }

  /** From one unit to another are the units in between. */
  lemma Between(s: seq<Octet>, from: nat, j: nat, to: nat, k: nat)
    requires Accepted(s) && StartsUnit(s, from, j) && StartsUnit(s, to, k) && j <= k
    ensures from <= to && s[from..to] == Join(Units(s)[j..k])
  {
    JoinRange(Units(s), j, k);
    assert s[..to] == s[..from] + Join(Units(s)[j..k]);
  }

  lemma JoinRange(u: seq<seq<Octet>>, j: nat, k: nat)
    requires j <= k <= |u|
    ensures Join(u[..k]) == Join(u[..j]) + Join(u[j..k])
  {
    assert u[..k] == u[..j] + u[j..k];
    JoinAppend(u[..j], u[j..k]);
  }

  /** std::string::substr, on a position within the string. */
  function StdSubstr(s: seq<Octet>, pos: nat, count: nat): seq<Octet>
    requires pos <= |s|
  {
    s[pos..Min(pos + count, |s|)]
  }

  /** Where unit k starts, which for the number of units is the end of the text. */
  function Offset(u: seq<seq<Octet>>, k: nat): nat
    requires k <= |u|
  {
    |Join(u[..k])|
  }

  lemma {:induction false} OffsetStarts(s: seq<Octet>, k: nat)
    requires Accepted(s) && k <= |Units(s)|
    ensures StartsUnit(s, Offset(Units(s), k), k) && Offset(Units(s), k) <= |s|
  {
    if k > 0 {
      var native := Offset(Units(s), k - 1);
      OffsetStarts(s, k - 1);
      StartsLast(s, native, k - 1);
      var next := StartsNext(s, native, k - 1);
      assert |s[..next]| == Offset(Units(s), k);
    }
  }

  lemma OffsetInside(s: seq<Octet>, k: nat)
    requires Accepted(s) && k <= |Units(s)|
    ensures Offset(Units(s), k) <= |s| && (Offset(Units(s), k) == |s| <==> k == |Units(s)|)
  {
    OffsetStarts(s, k);
    StartsLast(s, Offset(Units(s), k), k);
  }

  /** The scan is at unit k. */
  ghost predicate AtUnit(s: seq<Octet>, native: nat, k: nat)
    requires Accepted(s)
  {
    k <= |Units(s)| && Cut(s, native) == Offset(Units(s), k) && native <= |s| + 5 && (native < |s| <==> k < |Units(s)|)
  }

  lemma AtFirst(s: seq<Octet>)
    requires Accepted(s)
    ensures AtUnit(s, 0, 0)
  {
    OffsetInside(s, 0);
  }

  lemma AtNext(s: seq<Octet>, native: nat, k: nat)
    requires Accepted(s) && native < |s| && AtUnit(s, native, k)
    ensures Width(s[native]) > 0 && AtUnit(s, native + Width(s[native]), k + 1)
  {
    OffsetStarts(s, k);
    var next := StartsNext(s, native, k);
    StartsLast(s, next, k + 1);
    assert |s[..next]| == Offset(Units(s), k + 1);
  }

  lemma BetweenOffsets(s: seq<Octet>, j: nat, k: nat)
    requires Accepted(s) && j <= k <= |Units(s)|
    ensures var from, to := Offset(Units(s), j), Offset(Units(s), k);
            from <= to <= |s| && s[from..to] == Join(Units(s)[j..k])
  {
    OffsetStarts(s, j);
    OffsetStarts(s, k);
    Between(s, Offset(Units(s), j), j, Offset(Units(s), k), k);
  }

  lemma OffsetsGrow(s: seq<Octet>, j: nat, k: nat)
    requires Accepted(s) && j < k <= |Units(s)|
    ensures Offset(Units(s), j) < Offset(Units(s), k) <= |s|
  {
    BetweenOffsets(s, j, k);
    UnitsAreUnits(s, j);
  }

  /** The last unit index that the scan takes as the end, before it is cut to the number of units. */
  function Limit(pos: nat, count: nat): nat { if count == NPOS then UINT64_COUNT else (pos + count) % UINT64_COUNT }

  function WrapSub(a: nat, b: nat): nat { (a - b) % UINT64_COUNT }

  lemma WrapSubValue(a: nat, b: nat)
    requires a <= MAX_STRING + 5 && b <= MAX_STRING
    ensures WrapSub(a, b) == if a >= b then a - b else a - b + UINT64_COUNT
  {
  }

  /** The two ends found by the scan give the slice, even when pos + count wraps: the end then lies before the
      start, and the length, wrapping too, reaches past the end of the string. */
  lemma EndsGiveSlice(s: seq<Octet>, pos: nat, count: nat, min: nat, max: nat)
    requires Accepted(s) && |s| <= MAX_STRING && pos < |Units(s)| && 0 < count < UINT64_COUNT
    requires AtUnit(s, min, pos) && AtUnit(s, max, Min(|Units(s)|, Limit(pos, count)))
    ensures min < |s| && StdSubstr(s, min, WrapSub(max, min)) == Slice(s, pos, count)
  {
    WrapSubValue(max, min);
    if Limit(pos, count) > pos {
      NormalEnd(s, pos, count, min, max, Min(pos + count, |Units(s)|));
    } else {
      WrappedEnd(s, pos, count, min, max, Limit(pos, count));
    }
  }

  lemma NormalEnd(s: seq<Octet>, pos: nat, count: nat, min: nat, max: nat, end: nat)
    requires Accepted(s) && pos < end == Min(pos + count, |Units(s)|)
    requires AtUnit(s, min, pos) && AtUnit(s, max, end)
    ensures min <= max && StdSubstr(s, min, max - min) == Slice(s, pos, count)
  {
    BetweenOffsets(s, pos, end);
  }

  lemma WrappedEnd(s: seq<Octet>, pos: nat, count: nat, min: nat, max: nat, end: nat)
    requires Accepted(s) && |s| <= MAX_STRING && end < pos < |Units(s)| <= pos + count
    requires AtUnit(s, min, pos) && AtUnit(s, max, end)
    ensures max < min && StdSubstr(s, min, max - min + UINT64_COUNT) == Slice(s, pos, count)
  {
    OffsetsGrow(s, end, pos);
    BetweenOffsets(s, pos, |Units(s)|);
    OffsetInside(s, |Units(s)|);
  }

  // ----- the code

  /** Whether text would be accepted. */
  method CheckUtf8(s: seq<Octet>) returns (ok: bool)
    ensures ok <==> Accepted(s)
  {
    var i := 0;
    ghost var tail := s;
    while i < |s|
      invariant Accepted(tail) <==> Accepted(s)
      invariant tail == if i <= |s| then s[i..] else []
    {
      MasksAreRanges(s[i]);
      var w := MaskedWidth(s[i] as bv8);
      if w == 0 {
        return false;
      }
      assert Rest(tail) == if i + w <= |s| then s[i + w..] else [];
      tail := Rest(tail);
      i := i + w;
    }
    ok := true;
  }

  class CUTF8 {
    var data: seq<Octet>

    predicate Valid()
      reads this
    {
      Accepted(data) && |data| <= MAX_STRING
    }

    constructor ()
      ensures Valid() && data == []
    {
      data := [];
    }

    /** Text that is not accepted leaves the old text. */
    method Init(utf8: seq<Octet>) returns (ok: bool)
      requires Valid() && |utf8| <= MAX_STRING
      modifies this
      ensures Valid() && (ok <==> Accepted(utf8))
      ensures data == if ok then utf8 else old(data)
    {
      ok := CheckUtf8(utf8);
      if ok {
        data := utf8;
      }
    }

    method Length() returns (count: nat)
      requires Valid()
      ensures count == |Units(data)|
    {
      count := 0;
      var i := 0;
      AtFirst(data);
      while i < |data|
        invariant AtUnit(data, i, count)
      {
        i := Step(i, count);
        count := count + 1;
      }
    }

    method Substr(pos: nat, count: nat) returns (r: seq<Octet>)
      requires Valid() && pos < UINT64_COUNT && count < UINT64_COUNT
      ensures r == Slice(data, pos, count)
    {
      if count == 0 {
        return [];
      }
      var minPos, maxPos := Scan(pos, count);
      if minPos == NPOS || maxPos == NPOS {
        return [];
      }
      EndsGiveSlice(data, pos, count, minPos, maxPos);
      r := StdSubstr(data, minPos, WrapSub(maxPos, minPos));
    }

    /** The native positions of unit pos and of the end. */
    method Scan(pos: nat, count: nat) returns (minPos: nat, maxPos: nat)
      requires Valid() && pos < UINT64_COUNT && 0 < count < UINT64_COUNT
      ensures if pos < |Units(data)| then AtUnit(data, minPos, pos) && minPos != NPOS else minPos == NPOS
      ensures AtUnit(data, maxPos, Min(|Units(data)|, Limit(pos, count))) && maxPos != NPOS
    {
      var utf8Pos, nativePos := 0, 0;
      minPos, maxPos := NPOS, NPOS;
      var last := (pos + count) % UINT64_COUNT;
      ghost var limit := if count == NPOS then UINT64_COUNT else last;
      AtFirst(data);
      while nativePos < |data|
        invariant AtUnit(data, nativePos, utf8Pos)
        invariant if utf8Pos <= pos then minPos == NPOS else AtUnit(data, minPos, pos) && minPos < |data|
        invariant utf8Pos > 0 ==> AtUnit(data, maxPos, Min(utf8Pos - 1, limit)) && maxPos < |data|
      {
        if utf8Pos == pos {
          minPos := nativePos;
        }
        if utf8Pos <= last || count == NPOS {
          maxPos := nativePos;
        }
        nativePos := Step(nativePos, utf8Pos);
        utf8Pos := utf8Pos + 1;
      }
      if utf8Pos <= last || count == NPOS {
        maxPos := nativePos;
      }
    }

    /** Over one unit, by its lead byte. */
    method Step(nativePos: nat, ghost k: nat) returns (next: nat)
      requires Valid() && nativePos < |data| && AtUnit(data, nativePos, k)
      ensures next > nativePos && AtUnit(data, next, k + 1)
    {
      AtNext(data, nativePos, k);
      MasksAreRanges(data[nativePos]);
      next := nativePos + MaskedWidth(data[nativePos] as bv8);
    }

    method At(pos: nat) returns (r: seq<Octet>)
      requires Valid() && pos < UINT64_COUNT
      ensures r == if pos < |Units(data)| then Units(data)[pos] else []
    {
      SliceOne(data, pos);
      r := Substr(pos, 1);
    }

    /** Cutting a text in two and joining the pieces. */
    method CutInTwo(k: nat) returns (front: seq<Octet>, back: seq<Octet>)
      requires Valid() && k <= |Units(data)|
      ensures front + back == data
    {
      front := Substr(0, k);
      var n := Length();
      back := Substr(k, n - k);
      SlicesJoin(data, k);
    }
  }
}
