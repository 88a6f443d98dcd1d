/** Raw memory: bytes, and unsigned integers stored little-endian as the host does. */
module Bytes {

  newtype byte = x: int | 0 <= x < 256

  /** 256 to the given power. */
  function Pow256(width: nat): (p: nat)
    ensures p > 0
  {
    if width == 0 then 1 else 256 * Pow256(width - 1)
  }

  /** The low `width` bytes of n, least significant first; higher bytes are lost. */
  function Store(n: nat, width: nat): (bytes: seq<byte>)
    ensures |bytes| == width
  {
    if width == 0 then [] else [(n % 256) as byte] + Store(n / 256, width - 1)
  }

  function Load(bytes: seq<byte>): (n: nat)
    ensures n < Pow256(|bytes|)
  {
    if bytes == [] then 0 else bytes[0] as nat + 256 * Load(bytes[1..])
  }

  lemma {:induction false} LoadStore(n: nat, width: nat)
    ensures Load(Store(n, width)) == n % Pow256(width)
  {
    if width > 0 {
      LoadStore(n / 256, width - 1);
      assert Store(n, width)[1..] == Store(n / 256, width - 1);
      ModSplit(n, Pow256(width - 1));
    }
  }

  lemma ModSplit(n: nat, p: nat)
    requires p > 0
    ensures n % (256 * p) == n % 256 + 256 * ((n / 256) % p)
  {
    var q, r := n / 256, n % 256;
    var a, b := q / p, q % p;
    assert n == 256 * (p * a + b) + r;
    assert n == (256 * p) * a + (256 * b + r) by {
      assert 256 * (p * a) == (256 * p) * a;
    }
    assert 0 <= 256 * b + r < 256 * p;
    ModUnique(n, 256 * p, a, 256 * b + r);
  }

  lemma ModUnique(n: int, d: nat, q: int, r: int)
    requires d > 0 && 0 <= r < d && n == d * q + r
    ensures n % d == r && n / d == q
  {
    var q', r' := n / d, n % d;
    assert d * q' + r' == d * q + r;
    if q' > q {
      Grows(d, q, q');
    } else if q' < q {
      Grows(d, q', q);
    }
  }

  lemma {:induction false} Grows(d: nat, a: int, b: int)
    requires a < b
    ensures d * a + d <= d * b
    decreases b - a
  {
    if b > a + 1 {
      Grows(d, a, b - 1);
    }
    assert d * b == d * (b - 1) + d;
  }

  lemma {:induction false} StoreLoad(bytes: seq<byte>)
    ensures Store(Load(bytes), |bytes|) == bytes
  {
    if bytes != [] {
      var n := Load(bytes);
      ModUnique(n, 256, Load(bytes[1..]), bytes[0] as nat);
      StoreLoad(bytes[1..]);
    }
  }

  lemma SmallMod(n: nat, width: nat)
    requires n < Pow256(width)
    ensures Load(Store(n, width)) == n
  {
    LoadStore(n, width);
  }

  /** The four low bytes one by one. */
  function FourBytes(n: nat): (b: seq<byte>)
    ensures |b| == 4
  {
    [(n % 256) as byte, (n / 0x100 % 256) as byte, (n / 0x1_0000 % 256) as byte, (n / 0x100_0000 % 256) as byte]
  }

  lemma StoreNext(n: nat, width: nat)
    requires width > 0
    ensures Store(n, width) == [(n % 256) as byte] + Store(n / 0x100, width - 1)
  {
  }

  lemma StoreFour(n: nat)
    ensures Store(n, 4) == FourBytes(n)
  {
    Quotients(n);
    StoreNext(n, 4);
    StoreNext(n / 0x100, 3);
    StoreNext(n / 0x1_0000, 2);
    StoreNext(n / 0x100_0000, 1);
  }

  lemma StoreSplit(n: nat)
    ensures Store(n, 8) == Store(n, 4) + Store(n / 0x1_0000_0000, 4)
  {
    StoreFour(n);
    Quotients(n);
    StoreNext(n, 8);
    StoreNext(n / 0x100, 7);
    StoreNext(n / 0x1_0000, 6);
    StoreNext(n / 0x100_0000, 5);
    FourThen((n % 256) as byte, (n / 0x100 % 256) as byte, (n / 0x1_0000 % 256) as byte, (n / 0x100_0000 % 256) as byte,
             Store(n / 0x1_0000_0000, 4));
  }

  lemma FourThen(a: byte, b: byte, c: byte, d: byte, rest: seq<byte>)
    ensures [a] + ([b] + ([c] + ([d] + rest))) == [a, b, c, d] + rest
  {
  }

  lemma {:induction false} StoreLow(k: nat, low: nat, width: nat)
    ensures Store(k * Pow256(width) + low, width) == Store(low, width)
  {
    if width > 0 {
      var p := k * Pow256(width - 1);
      var n := k * Pow256(width) + low;
      assert n == 256 * p + low;
      assert n / 256 == p + low / 256 && n % 256 == low % 256;
      StoreNext(n, width);
      StoreNext(low, width);
      StoreLow(k, low / 256, width - 1);
    }
  }

  lemma Quotients(n: nat)
    ensures n / 0x100 / 0x100 == n / 0x1_0000 && n / 0x1_0000 / 0x100 == n / 0x100_0000
    ensures n / 0x100_0000 / 0x100 == n / 0x1_0000_0000
  {
  }

  lemma Widths()
    ensures Pow256(1) == 256 && Pow256(2) == 0x1_0000 && Pow256(4) == 0x1_0000_0000 && Pow256(8) == 0x1_0000_0000_0000_0000
  {
    assert Pow256(3) == 0x100_0000;
    assert Pow256(5) == 256 * Pow256(4);
    assert Pow256(6) == 256 * Pow256(5);
    assert Pow256(7) == 256 * Pow256(6);
  }
}
