/** The native database messages: what packing writes, and when unpacking gives it back. */
module NativeMessage {
  import opened Basics
  import opened Bytes
  import opened BufFile

  /** A message as its fixed fields in order and its list of arguments. */
  datatype Record = Record(header: seq<Field>, args: seq<seq<byte>>)

  function Texts(args: seq<seq<byte>>): (fs: seq<Field>)
    ensures |fs| == |args| && forall k | 0 <= k < |args| :: fs[k] == Text(args[k])
  {
    seq(|args|, k requires 0 <= k < |args| => Text(args[k]))
  }

  function Strings(fs: seq<Field>): (args: seq<seq<byte>>)
    requires forall k | 0 <= k < |fs| :: fs[k].Text?
    ensures Texts(args) == fs
  {
    seq(|fs|, k requires 0 <= k < |fs| => fs[k].s)
  }

  /** The list is written as a 16-bit count and that many strings. */
  function PackedList(args: seq<seq<byte>>): seq<byte> {
    var count := |args| % UINT16_COUNT;
    Wire(Uint(2, count)) + WireAll(Texts(args[..count]))
  }

  function Packed(r: Record): seq<byte> { WireAll(r.header) + PackedList(r.args) }

  /** Bytes a message needs for nothing in it to be lost. */
  function FullLength(r: Record): nat { FullSizeAll(r.header) + 2 + FullSizeAll(Texts(r.args)) }

  /** The list keeps its first n strings, and new ones are empty. */
  function Resize(args: seq<seq<byte>>, n: nat): (resized: seq<seq<byte>>)
    ensures |resized| == n
  {
    if n <= |args| then args[..n] else args + seq(n - |args|, _ => [])
  }

  /** The list read into `args`, from a position on. */
  function UnpackedList(args: seq<seq<byte>>, buf: seq<byte>, pos: nat): seq<seq<byte>>
    requires pos <= |buf|
  {
    var (count, start) := ReadField(Uint(2, 0), buf, pos);
    Strings(ReadAll(Texts(Resize(args, count.n)), buf, start).0)
  }

  /** Unpacking into a message that held `before`. Reads that fail go unnoticed. */
  function Unpacked(before: Record, buf: seq<byte>): Record {
    var (header, pos) := ReadAll(before.header, buf, 0);
    Record(header, UnpackedList(before.args, buf, pos))
  }

  /** Unpacking takes the size as 16 bits. */
  function Received(buf: seq<byte>): seq<byte> { buf[..|buf| % UINT16_COUNT] }

  /** A message that the same class may hold. */
  ghost predicate SameShape(r: Record, s: Record) { SameKinds(r.header, s.header) && InRange(s.header) }

  lemma ShortFieldsFit(fs: seq<Field>)
    requires InRange(fs) && FullSizeAll(fs) <= UINT16_MAX
    ensures AllFit(fs) && |WireAll(fs)| == FullSizeAll(fs)
  {
    forall k | 0 <= k < |fs| ensures Fits(fs[k]) {
      FieldIsSmaller(fs, k);
    }
    WireAllSize(fs);
  }

  lemma {:induction false} ListIsShort(args: seq<seq<byte>>)
    ensures 2 * |args| <= FullSizeAll(Texts(args))
  {
    if args != [] {
      assert Texts(args)[1..] == Texts(args[1..]);
      ListIsShort(args[1..]);
    }
  }

  // ----- messages without a list

  lemma WholeReceived(buf: seq<byte>)
    requires |buf| <= UINT16_MAX
    ensures Received(buf) == buf
  {
  }

  lemma ShortFieldsRead(fs: seq<Field>, into: seq<Field>, after: seq<byte>)
    requires InRange(fs) && SameKinds(fs, into) && FullSizeAll(fs) <= UINT16_MAX
    ensures ReadAll(into, WireAll(fs) + after, 0) == (fs, |WireAll(fs)|)
  {
    ShortFieldsFit(fs);
    ReadAllWritten(fs, into, [], after);
    assert [] + WireAll(fs) == WireAll(fs);
  }

  lemma LongFieldsAreLost(fs: seq<Field>, buf: seq<byte>)
    requires FullSizeAll(fs) > UINT16_MAX >= |buf|
    ensures ReadAll(ChangedAll(fs), buf, 0).0 != fs
  {
    if ReadAll(ChangedAll(fs), buf, 0).0 == fs {
      ChangedMeansRead(fs, ChangedAll(fs), buf, 0);
    }
  }

  /** Fixed fields come back, whatever was in the target, exactly when they need at most 65535 bytes. */
  lemma FieldsRoundTrip(fs: seq<Field>)
    requires InRange(fs)
    ensures (forall into | SameKinds(fs, into) && InRange(into) :: ReadAll(into, Received(WireAll(fs)), 0).0 == fs)
            <==> FullSizeAll(fs) <= UINT16_MAX
  {
    if FullSizeAll(fs) <= UINT16_MAX {
      ShortFieldsFit(fs);
      WholeReceived(WireAll(fs));
      assert WireAll(fs) + [] == WireAll(fs);
      forall into | SameKinds(fs, into) && InRange(into) ensures ReadAll(into, Received(WireAll(fs)), 0).0 == fs {
        ShortFieldsRead(fs, into, []);
      }
    } else {
      LongFieldsAreLost(fs, Received(WireAll(fs)));
      assert SameKinds(fs, ChangedAll(fs)) && InRange(ChangedAll(fs));
    }
  }

  // ----- messages with a list

  lemma ShortListUnpacks(args: seq<seq<byte>>, into: seq<seq<byte>>, before: seq<byte>)
    requires |args| <= UINT16_MAX && AllFit(Texts(args))
    ensures UnpackedList(into, before + PackedList(args), |before|) == args
  {
    var n := |args|;
    assert args[..n] == args;
    var count, list := Wire(Uint(2, n)), WireAll(Texts(args));
    assert before + PackedList(args) == before + count + list by {
      Regroup(before, count, list, []);
    }
    Widths();
    ReadWritten(Uint(2, n), Uint(2, 0), before, list);
    StringsRead(args, Resize(into, n), before + count);
  }

  lemma StringsOfTexts(fs: seq<Field>, args: seq<seq<byte>>)
    requires fs == Texts(args)
    ensures Strings(fs) == args
  {
    SameTexts(Strings(fs), args);
  }

  lemma StringsRead(args: seq<seq<byte>>, into: seq<seq<byte>>, before: seq<byte>)
    requires |args| == |into| && AllFit(Texts(args))
    ensures Strings(ReadAll(Texts(into), before + WireAll(Texts(args)), |before|).0) == args
  {
    var fs := Texts(into);
    ReadAllToEnd(Texts(args), fs, before);
    StringsOfTexts(ReadAll(fs, before + WireAll(Texts(args)), |before|).0, args);
  }

  lemma ShortMessageFits(m: Record)
    requires InRange(m.header) && FullLength(m) <= UINT16_MAX
    ensures AllFit(m.header) && AllFit(Texts(m.args)) && |m.args| <= UINT16_MAX
    ensures |WireAll(m.header)| == FullSizeAll(m.header) && |Packed(m)| == FullLength(m)
  {
    ListIsShort(m.args);
    ShortFieldsFit(m.header);
    ShortFieldsFit(Texts(m.args));
    assert m.args[..|m.args|] == m.args;
  }

  lemma ShortMessageUnpacks(m: Record, before: Record)
    requires InRange(m.header) && SameKinds(m.header, before.header) && FullLength(m) <= UINT16_MAX
    ensures Unpacked(before, Received(Packed(m))) == m
  {
    ShortMessageFits(m);
    WholeReceived(Packed(m));
    ShortFieldsRead(m.header, before.header, PackedList(m.args));
    ShortListUnpacks(m.args, before.args, WireAll(m.header));
  }

  lemma SameTexts(a: seq<seq<byte>>, b: seq<seq<byte>>)
    requires Texts(a) == Texts(b)
    ensures a == b
  {
    forall k | 0 <= k < |a| ensures a[k] == b[k] {
      assert Texts(a)[k] == Texts(b)[k];
    }
  }

  function ChangedList(args: seq<seq<byte>>): (changed: seq<seq<byte>>)
    ensures |changed| == |args| && forall k | 0 <= k < |args| :: changed[k] == args[k] + [0]
  {
    seq(|args|, k requires 0 <= k < |args| => args[k] + [0])
  }

  lemma ChangedListDiffers(args: seq<seq<byte>>)
    ensures Differ(Texts(args), Texts(ChangedList(args)))
  {
    forall k | 0 <= k < |args| ensures Texts(args)[k] != Texts(ChangedList(args))[k] {
      assert |ChangedList(args)[k]| == |args[k]| + 1;
    }
  }

  /** A list that came back over one that differed was all there. */
  lemma ListWasRead(args: seq<seq<byte>>, buf: seq<byte>, pos: nat)
    requires pos <= |buf| && UnpackedList(ChangedList(args), buf, pos) == args
    ensures pos + FullSizeAll(Texts(args)) + (if args == [] then 0 else 2) <= |buf|
  {
    var changed := ChangedList(args);
    var (count, start) := ReadField(Uint(2, 0), buf, pos);
    var resized := Resize(changed, count.n);
    var read := ReadAll(Texts(resized), buf, start);
    assert Texts(args) == read.0;
    assert count.n == |args| && resized == changed;
    ChangedListDiffers(args);
    ChangedMeansRead(Texts(args), Texts(changed), buf, start);
  }

  /** A header that was read leaves room for one more field only. */
  lemma HeaderTooLong(header: seq<Field>)
    requires InRange(header) && FullSizeAll(header) + 2 > UINT16_MAX
    ensures |Received(WireAll(header) + PackedList([]))| < FullSizeAll(header)
  {
    if FullSizeAll(header) <= UINT16_MAX {
      ShortFieldsFit(header);
      assert Texts([][..0]) == [];
      var size := |WireAll(header) + PackedList([])|;
      assert size == FullSizeAll(header) + 2;
      WrapsOnce(size);
    }
  }

  lemma WrapsOnce(size: nat)
    requires UINT16_COUNT <= size < 2 * UINT16_COUNT
    ensures size % UINT16_COUNT == size - UINT16_COUNT
  {
  }

  lemma LongListIsLost(args: seq<seq<byte>>, buf: seq<byte>, pos: nat)
    requires args != [] && pos <= |buf| <= UINT16_MAX && pos + 2 + FullSizeAll(Texts(args)) > UINT16_MAX
    ensures UnpackedList(ChangedList(args), buf, pos) != args
  {
    if UnpackedList(ChangedList(args), buf, pos) == args {
      ListWasRead(args, buf, pos);
    }
  }

  lemma LongHeaderIsLost(header: seq<Field>)
    requires InRange(header) && FullSizeAll(header) + 2 > UINT16_MAX
    ensures ReadAll(ChangedAll(header), Received(WireAll(header) + PackedList([])), 0).0 != header
  {
    var buf := Received(WireAll(header) + PackedList([]));
    HeaderTooLong(header);
    if ReadAll(ChangedAll(header), buf, 0).0 == header {
      ChangedMeansRead(header, ChangedAll(header), buf, 0);
    }
  }

  lemma LongBareMessageIsLost(m: Record)
    requires InRange(m.header) && FullLength(m) > UINT16_MAX && m.args == []
    ensures ReadAll(ChangedAll(m.header), Received(Packed(m)), 0).0 != m.header
  {
    assert FullSizeAll(Texts([])) == 0;
    LongHeaderIsLost(m.header);
  }

  lemma LongListMessageIsLost(m: Record, buf: seq<byte>)
    requires FullLength(m) > UINT16_MAX >= |buf| && m.args != []
    requires ReadAll(ChangedAll(m.header), buf, 0).0 == m.header
    ensures UnpackedList(ChangedList(m.args), buf, ReadAll(ChangedAll(m.header), buf, 0).1) != m.args
  {
    ChangedMeansRead(m.header, ChangedAll(m.header), buf, 0);
    LongListIsLost(m.args, buf, ReadAll(ChangedAll(m.header), buf, 0).1);
  }

  lemma LongMessageIsLost(m: Record)
    requires InRange(m.header) && FullLength(m) > UINT16_MAX
    ensures Unpacked(Record(ChangedAll(m.header), ChangedList(m.args)), Received(Packed(m))) != m
  {
    if m.args == [] {
      LongBareMessageIsLost(m);
    } else if ReadAll(ChangedAll(m.header), Received(Packed(m)), 0).0 == m.header {
      LongListMessageIsLost(m, Received(Packed(m)));
    }
  }

  /** A message comes back, whatever was in the target, exactly when it needs at most 65535 bytes. */
  lemma RoundTrip(m: Record)
    requires InRange(m.header)
    ensures (forall before | SameShape(m, before) :: Unpacked(before, Received(Packed(m))) == m) <==> FullLength(m) <= UINT16_MAX
  {
    if FullLength(m) <= UINT16_MAX {
      forall before | SameShape(m, before) ensures Unpacked(before, Received(Packed(m))) == m {
        ShortMessageUnpacks(m, before);
      }
    } else {
      LongMessageIsLost(m);
      assert SameShape(m, Record(ChangedAll(m.header), ChangedList(m.args)));
    }
  }

  // ----- the messages

  /** The 16-bit count and the strings, as every message with a list packs them. */
  method PackList(args: seq<seq<byte>>, w: CWriteBuf)
    requires w.Valid() && w.curPos + 2 + FullSizeAll(Texts(args)) + 2 + UINT16_MAX <= INT32_MAX
    modifies w, w.buf
    ensures w.Valid() && (w.buf == old(w.buf) || fresh(w.buf))
    ensures w.Contents() == old(w.Contents()) + PackedList(args)
  {
    var count := |args| % UINT16_COUNT;
    w.WriteUint(count, 2);
    TextsShorter(args, count);
    Regroup(old(w.Contents()), Wire(Uint(2, count)), WireAll(Texts(args[..count])), []);
    PackStrings(args[..count], w);
  }

  method PackStrings(args: seq<seq<byte>>, w: CWriteBuf)
    requires w.Valid() && w.curPos + FullSizeAll(Texts(args)) + 2 + UINT16_MAX <= INT32_MAX
    modifies w, w.buf
    ensures w.Valid() && (w.buf == old(w.buf) || fresh(w.buf))
    ensures w.Contents() == old(w.Contents()) + WireAll(Texts(args))
  {
    ghost var start := w.Contents();
    for i := 0 to |args|
      invariant w.Valid() && (w.buf == old(w.buf) || fresh(w.buf))
      invariant w.Contents() == start + WireAll(Texts(args[..i]))
    {
      TextsNext(start, args, i);
      TextsShorter(args, i);
      w.WriteString(args[i]);
    }
    assert args[..|args|] == args;
  }

  lemma TextsNext(start: seq<byte>, args: seq<seq<byte>>, i: nat)
    requires i < |args|
    ensures start + WireAll(Texts(args[..i + 1])) == start + WireAll(Texts(args[..i])) + Wire(Text(args[i]))
  {
    assert Texts(args[..i + 1]) == Texts(args[..i]) + [Text(args[i])];
    WireAllAppend(Texts(args[..i]), [Text(args[i])]);
    assert WireAll([Text(args[i])]) == Wire(Text(args[i]));
  }

  lemma TextsShorter(args: seq<seq<byte>>, i: nat)
    requires i <= |args|
    ensures |WireAll(Texts(args[..i]))| <= FullSizeAll(Texts(args[..i])) <= FullSizeAll(Texts(args))
  {
    assert Texts(args) == Texts(args[..i]) + Texts(args[i..]);
    WireAllAppend(Texts(args[..i]), Texts(args[i..]));
    WireAllSize(Texts(args[..i]));
  }

  method UnpackList(args: seq<seq<byte>>, r: CReadBuf) returns (args': seq<seq<byte>>)
    requires r.Valid()
    modifies r`curPos
    ensures r.Valid() && args' == UnpackedList(args, r.buf, old(r.curPos))
  {
    var ok, count := r.ReadUint(2, 0);
    args' := UnpackStrings(Resize(args, count), r);
  }

  method UnpackStrings(args: seq<seq<byte>>, r: CReadBuf) returns (args': seq<seq<byte>>)
    requires r.Valid()
    modifies r`curPos
    ensures r.Valid() && args' == Strings(ReadAll(Texts(args), r.buf, old(r.curPos)).0)
  {
    ghost var all := ReadAll(Texts(args), r.buf, r.curPos).0;
    args' := [];
    assert args[0..] == args;
    for i := 0 to |args|
      invariant r.Valid() && |args'| == i
      invariant all == Texts(args') + ReadAll(Texts(args[i..]), r.buf, r.curPos).0
    {
      NextRead(args, i, r.buf, r.curPos);
      var read, s := r.ReadString(args[i]);
      NextText(args', s, ReadAll(Texts(args[i + 1..]), r.buf, r.curPos).0);
      args' := args' + [s];
    }
    assert Texts(args') == all;
    SameTexts(args', Strings(all));
  }

  lemma NextRead(args: seq<seq<byte>>, i: nat, buf: seq<byte>, pos: nat)
    requires i < |args| && pos <= |buf|
    ensures var (f, next) := ReadField(Text(args[i]), buf, pos);
            ReadAll(Texts(args[i..]), buf, pos).0 == [f] + ReadAll(Texts(args[i + 1..]), buf, next).0
  {
    assert Texts(args[i..])[1..] == Texts(args[i + 1..]);
  }

  lemma NextText(args: seq<seq<byte>>, s: seq<byte>, rest: seq<Field>)
    ensures Texts(args) + ([Text(s)] + rest) == Texts(args + [s]) + rest
  {
    assert Texts(args + [s]) == Texts(args) + [Text(s)];
  }

  lemma OneWire(f: Field)
    ensures WireAll([f]) == Wire(f)
  {
    assert [f][1..] == [];
  }

  lemma TwoWires(f: Field, g: Field)
    ensures WireAll([f, g]) == Wire(f) + Wire(g)
  {
    assert [f, g] == [f] + [g];
    WireAllAppend([f], [g]);
    OneWire(f);
    OneWire(g);
  }

  lemma ThreeWires(f: Field, g: Field, h: Field)
    ensures WireAll([f, g, h]) == Wire(f) + Wire(g) + Wire(h)
  {
    assert [f, g, h] == [f, g] + [h];
    WireAllAppend([f, g], [h]);
    TwoWires(f, g);
    OneWire(h);
  }

  class QueryCommand {
    var channelId: nat
    var tableName: seq<byte>
    var whereClause: seq<byte>
    var args: seq<seq<byte>>

    ghost function Value(): Record
      reads this
    {
      Record([Uint(4, channelId), Text(tableName), Text(whereClause)], args)
    }

    constructor (channelId: nat, tableName: seq<byte>, whereClause: seq<byte>, args: seq<seq<byte>>)
      ensures Value() == Record([Uint(4, channelId), Text(tableName), Text(whereClause)], args)
    {
      this.channelId, this.tableName, this.whereClause, this.args := channelId, tableName, whereClause, args;
    }

    method Pack(w: CWriteBuf)
      requires w.Valid() && FullLength(Value()) + 2 * (2 + UINT16_MAX) <= INT32_MAX
      modifies w, w.buf
      ensures w.Valid() && (w.buf == old(w.buf) || fresh(w.buf))
      ensures w.Contents() == Packed(Value())
    {
      PackHeader(w);
      PackList(args, w);
    }

    method PackHeader(w: CWriteBuf)
      requires w.Valid() && FullLength(Value()) + 2 * (2 + UINT16_MAX) <= INT32_MAX
      modifies w, w.buf
      ensures w.Valid() && (w.buf == old(w.buf) || fresh(w.buf))
      ensures w.Contents() == WireAll(Value().header) && w.curPos <= FullSizeAll(Value().header)
    {
      ThreeWires(Uint(4, channelId), Text(tableName), Text(whereClause));
      WireAllSize(Value().header);
      w.Clear();
      w.WriteUint(channelId, 4);
      assert w.Contents() == Wire(Uint(4, channelId));
      w.WriteString(tableName);
      w.WriteString(whereClause);
      assert w.curPos == |w.Contents()|;
    }

    method Unpack(data: array?<byte>, size: nat) returns (ok: bool)
      requires size <= UINT16_MAX && (data != null ==> size <= data.Length)
      modifies this
      ensures ok && Value() == Unpacked(old(Value()), if data == null then [] else old(data[..size]))
    {
      var r := new CReadBuf(data, size);
      ThreeReads(Uint(4, channelId), Text(tableName), Text(whereClause), r.buf);
      var read;
      read, channelId := r.ReadUint(4, channelId);
      read, tableName := r.ReadString(tableName);
      read, whereClause := r.ReadString(whereClause);
      args := UnpackList(args, r);
      ok := true;
    }
  }

  class CallCommand {
    var channelId: nat
    var sql: seq<byte>
    var args: seq<seq<byte>>

    ghost function Value(): Record
      reads this
    {
      Record([Uint(4, channelId), Text(sql)], args)
    }

    constructor (channelId: nat, sql: seq<byte>, args: seq<seq<byte>>)
      ensures Value() == Record([Uint(4, channelId), Text(sql)], args)
    {
      this.channelId, this.sql, this.args := channelId, sql, args;
    }

    method Pack(w: CWriteBuf)
      requires w.Valid() && FullLength(Value()) + 2 * (2 + UINT16_MAX) <= INT32_MAX
      modifies w, w.buf
      ensures w.Valid() && (w.buf == old(w.buf) || fresh(w.buf))
      ensures w.Contents() == Packed(Value())
    {
      PackHeader(w);
      PackList(args, w);
    }

    method PackHeader(w: CWriteBuf)
      requires w.Valid() && FullLength(Value()) + 2 * (2 + UINT16_MAX) <= INT32_MAX
      modifies w, w.buf
      ensures w.Valid() && (w.buf == old(w.buf) || fresh(w.buf))
      ensures w.Contents() == WireAll(Value().header) && w.curPos <= FullSizeAll(Value().header)
    {
      TwoWires(Uint(4, channelId), Text(sql));
      WireAllSize(Value().header);
      w.Clear();
      w.WriteUint(channelId, 4);
      assert w.Contents() == Wire(Uint(4, channelId));
      w.WriteString(sql);
      assert w.curPos == |w.Contents()|;
    }

    method Unpack(data: array?<byte>, size: nat) returns (ok: bool)
      requires size <= UINT16_MAX && (data != null ==> size <= data.Length)
      modifies this
      ensures ok && Value() == Unpacked(old(Value()), if data == null then [] else old(data[..size]))
    {
      var r := new CReadBuf(data, size);
      TwoReads(Uint(4, channelId), Text(sql), r.buf, 0);
      var read;
      read, channelId := r.ReadUint(4, channelId);
      read, sql := r.ReadString(sql);
      args := UnpackList(args, r);
      ok := true;
    }
  }

  lemma FirstRead(f: Field, rest: seq<Field>, buf: seq<byte>, pos: nat)
    requires pos <= |buf|
    ensures var (f', next) := ReadField(f, buf, pos);
            var r := ReadAll(rest, buf, next);
            ReadAll([f] + rest, buf, pos).0 == [f'] + r.0 && ReadAll([f] + rest, buf, pos).1 == r.1
  {
    assert ([f] + rest)[1..] == rest;
  }

  lemma TwoReads(f: Field, g: Field, buf: seq<byte>, pos: nat)
    requires pos <= |buf|
    ensures var a := ReadField(f, buf, pos);
            var b := ReadField(g, buf, a.1);
            ReadAll([f, g], buf, pos).0 == [a.0, b.0] && ReadAll([f, g], buf, pos).1 == b.1
  {
    FirstRead(f, [g], buf, pos);
    var next := ReadField(f, buf, pos).1;
    FirstRead(g, [], buf, next);
    assert [g] + [] == [g] && [f] + [g] == [f, g];
  }

  lemma ThreeReads(f: Field, g: Field, h: Field, buf: seq<byte>)
    ensures var a := ReadField(f, buf, 0);
            var b := ReadField(g, buf, a.1);
            var c := ReadField(h, buf, b.1);
            ReadAll([f, g, h], buf, 0).0 == [a.0, b.0, c.0] && ReadAll([f, g, h], buf, 0).1 == c.1
  {
    FirstRead(f, [g, h], buf, 0);
    TwoReads(g, h, buf, ReadField(f, buf, 0).1);
    assert [f] + [g, h] == [f, g, h];
  }

  /** Packing a query, passing its bytes and their size on, and unpacking them into any other query. */
  method SendQuery(m: QueryCommand, target: QueryCommand, w: CWriteBuf)
    requires m != target && w.Valid() && InRange(m.Value().header) && FullLength(m.Value()) <= UINT16_MAX
    modifies w, w.buf, target
    ensures target.Value() == m.Value()
  {
    ghost var value, before := m.Value(), target.Value();
    m.Pack(w);
    ShortMessageFits(value);
    ShortMessageUnpacks(value, before);
    WholeReceived(Packed(value));
    var ok := target.Unpack(w.buf, w.curPos);
  }
}
