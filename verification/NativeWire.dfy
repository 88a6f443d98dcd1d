/** The bytes of the native database messages: little-endian integers, and strings behind a two-byte length. */
module NativeWire {
  import opened Basics
  import opened Bytes
  import opened BufFile
  import opened NativeMessage

  function TwoBytes(n: nat): (b: seq<byte>)
    ensures |b| == 2
  {
    [(n % 256) as byte, (n / 256 % 256) as byte]
  }

  function Framed(s: seq<byte>): seq<byte> { TwoBytes(|s|) + s }

  function AllFramed(args: seq<seq<byte>>): seq<byte> {
    if args == [] then [] else Framed(args[0]) + AllFramed(args[1..])
  }

  lemma StoreTwo(n: nat)
    ensures Store(n, 2) == TwoBytes(n)
  {
    StoreNext(n, 2);
    StoreNext(n / 256, 1);
  }

  lemma {:induction false} FramedTexts(args: seq<seq<byte>>)
    requires AllFit(Texts(args))
    ensures WireAll(Texts(args)) == AllFramed(args)
  {
    if args != [] {
      assert Texts(args)[0] == Text(args[0]) && Texts(args)[1..] == Texts(args[1..]);
      assert Fits(Text(args[0]));
      FramedTexts(args[1..]);
      FramedText(args[0]);
    }
  }

  lemma WireChannel(n: nat)
    ensures Wire(Uint(4, n)) == FourBytes(n)
  {
    StoreFour(n);
  }

  lemma FramedText(s: seq<byte>)
    requires Fits(Text(s))
    ensures Wire(Text(s)) == Framed(s)
  {
    StoreTwo(|s|);
  }

  lemma AllKept(args: seq<seq<byte>>)
    requires |args| <= UINT16_MAX
    ensures |args| % UINT16_COUNT == |args| && args[..|args| % UINT16_COUNT] == args
  {
  }

  lemma WholeList(args: seq<seq<byte>>)
    requires |args| <= UINT16_MAX
    ensures PackedList(args) == TwoBytes(|args|) + WireAll(Texts(args))
  {
    AllKept(args);
    StoreTwo(|args|);
  }

  lemma FramedList(args: seq<seq<byte>>)
    requires AllFit(Texts(args)) && |args| <= UINT16_MAX
    ensures PackedList(args) == TwoBytes(|args|) + AllFramed(args)
  {
    WholeList(args);
    FramedTexts(args);
  }

  /** What a query looks like on the wire: channel, table, where clause, number of arguments, arguments. */
  lemma QueryBytes(channelId: nat, tableName: seq<byte>, whereClause: seq<byte>, args: seq<seq<byte>>)
    requires Fits(Text(tableName)) && Fits(Text(whereClause)) && AllFit(Texts(args)) && |args| <= UINT16_MAX
    ensures Packed(Record([Uint(4, channelId), Text(tableName), Text(whereClause)], args))
            == FourBytes(channelId) + Framed(tableName) + Framed(whereClause) + (TwoBytes(|args|) + AllFramed(args))
  {
    QueryHeader(channelId, tableName, whereClause);
    FramedList(args);
  }

  lemma QueryHeader(channelId: nat, tableName: seq<byte>, whereClause: seq<byte>)
    requires Fits(Text(tableName)) && Fits(Text(whereClause))
    ensures WireAll([Uint(4, channelId), Text(tableName), Text(whereClause)])
            == FourBytes(channelId) + Framed(tableName) + Framed(whereClause)
  {
    ThreeWires(Uint(4, channelId), Text(tableName), Text(whereClause));
    WireChannel(channelId);
    FramedText(tableName);
    FramedText(whereClause);
  }
}
