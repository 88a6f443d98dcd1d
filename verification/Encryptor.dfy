/** The stream cipher of two key wheels. */
module Encryptor {
  import opened Basics

  type Octet = bv8

  const WHEEL := 256

  type Code = n: nat | n < WHEEL witness 0

  /** The quadratic map of a wheel. */
  function Map(a: nat, b: nat, c: nat): Code -> Code {
    (k: Code) => (a * k * k + b * k + c) % WHEEL
  }

  /** A wheel: a code and its successors. */
  function CodeAt(next: Code -> Code, x: Code, i: nat): Code {
    if i == 0 then x else next(CodeAt(next, x, i - 1))
  }

  function ToOctet(code: Code): Octet { code as Octet }

  /** The eight parameters of a key, four for each wheel. */
  datatype Key = Key(a1: nat, b1: nat, c1: nat, x1: nat, a2: nat, b2: nat, c2: nat, x2: nat) {
    predicate Valid() {
      a1 < 256 && b1 < 256 && c1 < 256 && x1 < 256 && a2 < 256 && b2 < 256 && c2 < 256 && x2 < 256
    }

  }

  function Wheel1(k: Key, i: nat): Octet
    requires k.Valid()
  {
    ToOctet(CodeAt(Map(k.a1, k.b1, k.c1), k.x1, i))
  }

  function Wheel2(k: Key, i: nat): Octet
    requires k.Valid()
  {
    ToOctet(CodeAt(Map(k.a2, k.b2, k.c2), k.x2, i))
  }

  function Xor(x: Octet, y: Octet): Octet { x ^ y }

  /** Byte n of the stream: the first wheel turns with every byte, the second with every turn of the first. */
  function Crypted(k: Key, n: nat, x: Octet): Octet
    requires k.Valid()
  {
    Xor(Xor(x, Wheel1(k, n % WHEEL)), Wheel2(k, n / WHEEL % WHEEL))
  }

  /** A piece of the stream that starts at byte n. */
  function Stream(k: Key, n: nat, data: seq<Octet>): (out: seq<Octet>)
    requires k.Valid()
    ensures |out| == |data|
  {
    seq(|data|, i requires 0 <= i < |data| => Crypted(k, n + i, data[i]))
  }

  function Bit(x: Octet, k: Octet): Octet
    requires k < 8
  {
    (x >> k) & 1
  }

  lemma XorBits(x: Octet, y: Octet, z: Octet, k: Octet)
    requires k < 8
    ensures Bit(Xor(Xor(x, y), z), k) == if Bit(y, k) == Bit(z, k) then Bit(x, k) else 1 - Bit(x, k)
  {
  }

  /** A bit of the stream is flipped exactly where the two wheels differ. */
  lemma StreamBits(key: Key, n: nat, data: seq<Octet>, i: nat, k: Octet)
    requires key.Valid() && i < |data| && k < 8
    ensures var (one, two) := (Wheel1(key, (n + i) % 256), Wheel2(key, (n + i) / 256 % 256));
            Bit(Stream(key, n, data)[i], k) == if Bit(one, k) == Bit(two, k) then Bit(data[i], k) else 1 - Bit(data[i], k)
  {
    XorBits(data[i], Wheel1(key, (n + i) % 256), Wheel2(key, (n + i) / 256 % 256), k);
  }

  /** A wheel starts at the key's x and turns by its quadratic map modulo 256. */
  lemma WheelsTurn(k: Key, i: nat) returns (x: Code, y: Code)
    requires k.Valid()
    ensures Wheel1(k, 0) == k.x1 as Octet && Wheel2(k, 0) == k.x2 as Octet
    ensures Wheel1(k, i) == x as Octet && Wheel1(k, i + 1) == ((k.a1 * x * x + k.b1 * x + k.c1) % 256) as Octet
    ensures Wheel2(k, i) == y as Octet && Wheel2(k, i + 1) == ((k.a2 * y * y + k.b2 * y + k.c2) % 256) as Octet
  {
    x, y := CodeAt(Map(k.a1, k.b1, k.c1), k.x1, i), CodeAt(Map(k.a2, k.b2, k.c2), k.x2, i);
    TurnsOnce(k.a1, k.b1, k.c1, k.x1, i);
    TurnsOnce(k.a2, k.b2, k.c2, k.x2, i);
  }

  lemma TurnsOnce(a: nat, b: nat, c: nat, x: Code, i: nat)
    ensures var y := CodeAt(Map(a, b, c), x, i); CodeAt(Map(a, b, c), x, i + 1) == (a * y * y + b * y + c) % 256
  {
  }

  lemma XorTwice(x: Octet, y: Octet, z: Octet)
    ensures Xor(Xor(Xor(Xor(x, y), z), y), z) == x
  {
  }

  /** The same stream position takes back what it did. */
  lemma StreamUndoes(k: Key, n: nat, data: seq<Octet>)
    requires k.Valid()
    ensures Stream(k, n, Stream(k, n, data)) == data
  {
    forall i | 0 <= i < |data| ensures Stream(k, n, Stream(k, n, data))[i] == data[i] {
      XorTwice(data[i], Wheel1(k, (n + i) % WHEEL), Wheel2(k, (n + i) / WHEEL % WHEEL));
    }
  }

  lemma StreamAppend(k: Key, n: nat, a: seq<Octet>, b: seq<Octet>)
    requires k.Valid()
    ensures Stream(k, n, a + b) == Stream(k, n, a) + Stream(k, n + |a|, b)
  {
  }

  /** The chunks of a stream, each where the one before ended. */
  function StreamChunks(k: Key, n: nat, chunks: seq<seq<Octet>>): (out: seq<seq<Octet>>)
    requires k.Valid()
    ensures |out| == |chunks|
    decreases chunks
  {
    if chunks == [] then [] else [Stream(k, n, chunks[0])] + StreamChunks(k, n + |chunks[0]|, chunks[1..])
  }

  lemma {:induction false} ChunksJoin(k: Key, n: nat, chunks: seq<seq<Octet>>)
    requires k.Valid()
    ensures Concat(StreamChunks(k, n, chunks)) == Stream(k, n, Concat(chunks))
    decreases chunks
  {
    if chunks != [] {
      ChunksJoin(k, n + |chunks[0]|, chunks[1..]);
      StreamAppend(k, n, chunks[0], Concat(chunks[1..]));
      assert StreamChunks(k, n, chunks)[1..] == StreamChunks(k, n + |chunks[0]|, chunks[1..]);
      ConcatFirst(chunks);
      ConcatFirst(StreamChunks(k, n, chunks));
    }
  }

  /** Two sides with the same key agree on the whole stream, each cutting it as it likes. */
  lemma ChunkingDoesNotMatter(k: Key, sent: seq<seq<Octet>>, received: seq<seq<Octet>>)
    requires k.Valid() && Concat(received) == Concat(StreamChunks(k, 0, sent))
    ensures Concat(StreamChunks(k, 0, received)) == Concat(sent)
  {
    ChunksJoin(k, 0, sent);
    ChunksJoin(k, 0, received);
    StreamUndoes(k, 0, Concat(sent));
  }

  class CEncryptor {
    var ready: bool
    var pos1: nat
    var pos2: nat
    const key1: array<Octet>
    const key2: array<Octet>
    ghost var key: Key
    ghost var count: nat

    ghost predicate Valid()
      reads this, key1, key2
    {
      && key1.Length == WHEEL && key2.Length == WHEEL && key1 != key2
      && (ready ==>
            && key.Valid()
            && (forall i: nat | i < WHEEL :: key1[i] == Wheel1(key, i) && key2[i] == Wheel2(key, i))
            && pos1 == count % WHEEL && pos2 == count / WHEEL % WHEEL)
    }

    constructor ()
      ensures Valid() && !ready && fresh(key1) && fresh(key2)
    {
      pos1, pos2, ready := 0, 0, false;
      key1 := new Octet[WHEEL](_ => 0);
      key2 := new Octet[WHEEL](_ => 0);
    }

    method InitWithKey(k: Key)
      requires Valid() && k.Valid()
      modifies this, key1, key2
      ensures Valid() && ready && key == k && count == 0
    {
      pos1, pos2 := 0, 0;
      FillWheel(key1, Map(k.a1, k.b1, k.c1), k.x1);
      FillWheel(key2, Map(k.a2, k.b2, k.c2), k.x2);
      ready, key, count := true, k, 0;
    }

    method FillWheel(wheel: array<Octet>, next: Code -> Code, x: Code)
      requires wheel.Length == WHEEL
      modifies wheel
      ensures forall j: nat | j < WHEEL :: wheel[j] == ToOctet(CodeAt(next, x, j))
    {
      var code := x;
      for i := 0 to WHEEL
        invariant code == CodeAt(next, x, i)
        invariant forall j: nat | j < i :: wheel[j] == ToOctet(CodeAt(next, x, j))
      {
        ghost var before := wheel[..];
        wheel[i] := ToOctet(code);
        assert forall j: nat | j < i :: wheel[j] == before[j];
        code := next(code);
      }
    }

    /** In place; nothing happens before a key is set. */
    method Encrypt(buf: array<Octet>, len: nat)
      requires Valid() && len <= buf.Length && buf != key1 && buf != key2
      modifies this`pos1, this`pos2, this`count, buf
      ensures Valid() && count == if ready then old(count) + len else old(count)
      ensures buf[..len] == if ready then Stream(key, old(count), old(buf[..len])) else old(buf[..len])
      ensures buf[len..] == old(buf[len..])
    {
      if !ready {
        return;
      }
      ghost var before, from := buf[..], count;
      for i := 0 to len
        invariant Valid() && ready && key == old(key) && count == from + i
        invariant forall j | 0 <= j < i :: buf[j] == Crypted(key, from + j, before[j])
        invariant forall j | i <= j < buf.Length :: buf[j] == before[j]
      {
        EncryptByte(buf, i);
      }
    }

    method EncryptByte(buf: array<Octet>, i: nat)
      requires Valid() && ready && i < buf.Length && buf != key1 && buf != key2
      modifies this`pos1, this`pos2, this`count, buf
      ensures Valid() && count == old(count) + 1
      ensures buf[i] == Crypted(key, old(count), old(buf[i]))
      ensures forall j | 0 <= j < buf.Length && j != i :: buf[j] == old(buf[j])
    {
      buf[i] := Xor(buf[i], key1[pos1]);
      buf[i] := Xor(buf[i], key2[pos2]);
      Turn();
    }

    /** The wheels after one more byte. */
    method Turn()
      requires Valid() && ready
      modifies this`pos1, this`pos2, this`count
      ensures Valid() && count == old(count) + 1
    {
      pos1 := pos1 + 1;
      if pos1 >= WHEEL {
        pos1 := 0;
        pos2 := pos2 + 1;
        if pos2 >= WHEEL {
          pos2 := 0;
        }
      }
      count := count + 1;
    }

    method Decrypt(buf: array<Octet>, len: nat)
      requires Valid() && len <= buf.Length && buf != key1 && buf != key2
      modifies this`pos1, this`pos2, this`count, buf
      ensures Valid() && count == if ready then old(count) + len else old(count)
      ensures buf[..len] == if ready then Stream(key, old(count), old(buf[..len])) else old(buf[..len])
      ensures buf[len..] == old(buf[len..])
    {
      if !ready {
        return;
      }
      Encrypt(buf, len);
    }
  }

  method ThroughOne(e: CEncryptor, chunk: seq<Octet>) returns (out: seq<Octet>)
    requires e.Valid() && e.ready
    modifies e`pos1, e`pos2, e`count
    ensures e.Valid() && e.count == old(e.count) + |chunk| && out == Stream(e.key, old(e.count), chunk)
  {
    var buf := new Octet[|chunk|](j requires 0 <= j < |chunk| => chunk[j]);
    assert buf[..|chunk|] == chunk;
    e.Encrypt(buf, buf.Length);
    out := buf[..];
  }

  lemma NextChunk(k: Key, n: nat, chunks: seq<seq<Octet>>, i: nat)
    requires k.Valid() && i < |chunks|
    ensures StreamChunks(k, n, chunks[i..]) == [Stream(k, n, chunks[i])] + StreamChunks(k, n + |chunks[i]|, chunks[i + 1..])
  {
    assert chunks[i..][1..] == chunks[i + 1..];
  }

  /** One side of a connection: the chunks of a stream through an object with the key. */
  method Through(k: Key, chunks: seq<seq<Octet>>) returns (out: seq<seq<Octet>>)
    requires k.Valid()
    ensures out == StreamChunks(k, 0, chunks)
  {
    var e := new CEncryptor();
    e.InitWithKey(k);
    out := [];
    assert chunks[0..] == chunks;
    for i := 0 to |chunks|
      invariant fresh(e) && fresh(e.key1) && fresh(e.key2) && e.Valid() && e.ready && e.key == k
      invariant out + StreamChunks(k, e.count, chunks[i..]) == StreamChunks(k, 0, chunks)
    {
      NextChunk(k, e.count, chunks, i);
      var piece := ThroughOne(e, chunks[i]);
      out := out + [piece];
    }
  }
}
