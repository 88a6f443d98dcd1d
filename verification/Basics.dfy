/** What several modules share: optional values, machine integer ranges, and chunks joined to a sequence. */
module Basics {

  datatype Option<T> = None | Some(value: T)

  const UINT16_MAX := 0xffff
  const UINT16_COUNT := 0x1_0000
  const UINT32_COUNT := 0x1_0000_0000
  const UINT64_COUNT := 0x1_0000_0000_0000_0000
  const INT32_MAX := 0x7fff_ffff

  function Min(a: nat, b: nat): nat { if a < b then a else b }

  lemma Regroup<T>(a: seq<T>, b: seq<T>, c: seq<T>, d: seq<T>)
    ensures a + (b + c) + d == a + b + (c + d) == (a + b) + c + d
    ensures a + (b + c) == (a + b) + c
  {
  }

  lemma RegroupThree<T>(a: seq<T>, b: seq<T>, c: seq<T>, d: seq<T>)
    ensures a + (b + c + d) == (a + b + c) + d
  {
  }

  /** The chunks of a message, joined. */
  function Concat<T>(chunks: seq<seq<T>>): seq<T> {
    if chunks == [] then [] else Concat(chunks[..|chunks| - 1]) + chunks[|chunks| - 1]
  }

  lemma ConcatNext<T>(chunks: seq<seq<T>>, i: nat)
    requires i < |chunks|
    ensures Concat(chunks[..i + 1]) == Concat(chunks[..i]) + chunks[i]
  {
    assert chunks[..i + 1][..i] == chunks[..i];
  }

  lemma {:induction false} ConcatFirst<T>(chunks: seq<seq<T>>)
    requires chunks != []
    ensures Concat(chunks) == chunks[0] + Concat(chunks[1..])
  {
    var front, last := chunks[..|chunks| - 1], chunks[|chunks| - 1];
    if front == [] {
      assert chunks[1..] == [];
    } else {
      ConcatFirst(front);
      assert chunks[1..][..|chunks| - 2] == front[1..];
    }
  }

  lemma {:induction false} ConcatShorter<T>(chunks: seq<seq<T>>, n: nat)
    requires n <= |chunks|
    ensures |Concat(chunks[..n])| <= |Concat(chunks)|
  {
    if n == |chunks| {
      assert chunks[..n] == chunks;
    } else {
      var shorter := chunks[..|chunks| - 1];
      ConcatShorter(shorter, n);
      assert shorter[..n] == chunks[..n];
    }
  }
}
