/** The growable write buffer and the read cursor, and the wire form of the values written through them. */
module BufFile {
  import opened Basics
  import opened Bytes

  /** A value written: an unsigned integer of `width` bytes, or a string. */
  datatype Field = Uint(width: nat, n: nat) | Text(s: seq<byte>)

  /** The bytes a field needs: a string carries a two-byte length. */
  function FullWire(f: Field): seq<byte> {
    match f
    case Uint(width, n) => Store(n, width)
    case Text(s) => Store(|s|, 2) + s
  }

  function FullSize(f: Field): (n: nat)
    ensures n == |FullWire(f)|
  {
    match f
    case Uint(width, _) => width
    case Text(s) => 2 + |s|
  }

  /** The bytes actually written: a string of 65535 bytes or more is skipped. */
  function Wire(f: Field): seq<byte> {
    if f.Text? && |f.s| >= UINT16_MAX then [] else FullWire(f)
  }

  function WireAll(fs: seq<Field>): seq<byte> {
    if fs == [] then [] else Wire(fs[0]) + WireAll(fs[1..])
  }

  function FullSizeAll(fs: seq<Field>): nat {
    if fs == [] then 0 else FullSize(fs[0]) + FullSizeAll(fs[1..])
  }

  predicate Fits(f: Field) {
    match f
    case Uint(width, n) => n < Pow256(width)
    case Text(s) => |s| < UINT16_MAX
  }

  /** Reading at a position into a variable that holds `f`: a read that would pass the end changes neither. */
  function ReadField(f: Field, buf: seq<byte>, pos: nat): (r: (Field, nat))
    requires pos <= |buf|
    ensures pos <= r.1 <= |buf| && SameKind(r.0, f)
  {
    match f
    case Uint(width, _) =>
      if pos + width > |buf| then (f, pos) else (Uint(width, Load(buf[pos..pos + width])), pos + width)
    case Text(_) =>
      if pos + 2 > |buf| then (f, pos)
      else
        var len := Load(buf[pos..pos + 2]);
        if pos + 2 + len > |buf| then (f, pos) else (Text(buf[pos + 2..pos + 2 + len]), pos + 2 + len)
  }

  function ReadAll(fs: seq<Field>, buf: seq<byte>, pos: nat): (r: (seq<Field>, nat))
    requires pos <= |buf|
    ensures SameKinds(r.0, fs) && pos <= r.1 <= |buf|
  {
    if fs == [] then ([], pos)
    else
      var first := ReadField(fs[0], buf, pos);
      var rest := ReadAll(fs[1..], buf, first.1);
      ([first.0] + rest.0, rest.1)
  }

  predicate SameKind(f: Field, g: Field) {
    f.Text? == g.Text? && (f.Uint? ==> f.width == g.width)
  }

  predicate SameKinds(fs: seq<Field>, gs: seq<Field>) {
    |fs| == |gs| && forall k | 0 <= k < |fs| :: SameKind(fs[k], gs[k])
  }

  ghost predicate AllFit(fs: seq<Field>) { forall k | 0 <= k < |fs| :: Fits(fs[k]) }

  // ----- what is written comes back

  lemma Middle(before: seq<byte>, wire: seq<byte>, after: seq<byte>)
    ensures (before + wire + after)[|before|..|before| + |wire|] == wire
  {
  }

  lemma UintRead(width: nat, n: nat, held: nat, before: seq<byte>, after: seq<byte>)
    requires n < Pow256(width)
    ensures ReadField(Uint(width, held), before + Store(n, width) + after, |before|) == (Uint(width, n), |before| + width)
  {
    Middle(before, Store(n, width), after);
    SmallMod(n, width);
  }

  lemma TextRead(s: seq<byte>, held: seq<byte>, before: seq<byte>, after: seq<byte>)
    requires |s| < UINT16_MAX
    ensures var r := ReadField(Text(held), before + (Store(|s|, 2) + s) + after, |before|);
            r.0 == Text(s) && r.1 == |before| + 2 + |s|
  {
    var len := Store(|s|, 2);
    Widths();
    SmallMod(|s|, 2);
    Regroup(before, len, s, after);
    Middle(before, len, s + after);
    Middle(before + len, s, after);
  }

  lemma ReadWritten(f: Field, into: Field, before: seq<byte>, after: seq<byte>)
    requires Fits(f) && SameKind(f, into)
    ensures ReadField(into, before + Wire(f) + after, |before|) == (f, |before + Wire(f)|)
  {
    match f
    case Uint(width, n) => UintRead(width, n, into.n, before, after);
    case Text(s) => TextRead(s, into.s, before, after);
  }

  /** Reading the same kinds in the same order recovers any sequence of values, and ends where they end. */
  lemma {:induction false} ReadAllWritten(fs: seq<Field>, into: seq<Field>, before: seq<byte>, after: seq<byte>)
    requires AllFit(fs) && SameKinds(fs, into)
    ensures ReadAll(into, before + WireAll(fs) + after, |before|) == (fs, |before + WireAll(fs)|)
  {
    if fs != [] {
      var wire, rest := Wire(fs[0]), WireAll(fs[1..]);
      ReadWritten(fs[0], into[0], before, rest + after);
      ReadAllWritten(fs[1..], into[1..], before + wire, after);
      Regroup(before, wire, rest, after);
      assert [fs[0]] + fs[1..] == fs;
    }
  }

  lemma ReadAllToEnd(fs: seq<Field>, into: seq<Field>, before: seq<byte>)
    requires AllFit(fs) && SameKinds(fs, into)
    ensures ReadAll(into, before + WireAll(fs), |before|) == (fs, |before + WireAll(fs)|)
  {
    ReadAllWritten(fs, into, before, []);
    assert before + WireAll(fs) + [] == before + WireAll(fs);
  }

  /** Values that differ from what was read can only come from reads that succeeded. A field of no bytes always is
      read. */
  ghost predicate Differ(fs: seq<Field>, gs: seq<Field>) {
    SameKinds(fs, gs) && forall k | 0 <= k < |fs| :: fs[k] != gs[k] || FullSize(fs[k]) == 0
  }

  lemma {:induction false} ChangedMeansRead(fs: seq<Field>, into: seq<Field>, buf: seq<byte>, pos: nat)
    requires pos <= |buf| && Differ(fs, into) && ReadAll(into, buf, pos).0 == fs
    ensures ReadAll(into, buf, pos).1 == pos + FullSizeAll(fs)
  {
    if fs != [] {
      var first := ReadField(into[0], buf, pos);
      assert first.0 == fs[0];
      assert first.1 == pos + FullSize(fs[0]);
      assert ReadAll(into[1..], buf, first.1).0 == fs[1..];
      ChangedMeansRead(fs[1..], into[1..], buf, first.1);
    }
  }

  /** The integers are within their widths. */
  ghost predicate InRange(fs: seq<Field>) {
    forall k | 0 <= k < |fs| && fs[k].Uint? :: fs[k].n < Pow256(fs[k].width)
  }

  /** Another value of the same kind, within its width. */
  function Changed(f: Field): (g: Field)
    ensures SameKind(f, g) && (f != g || FullSize(f) == 0) && (g.Uint? ==> g.n < Pow256(g.width))
  {
    match f
    case Uint(width, n) => Uint(width, (n + 1) % Pow256(width))
    case Text(s) => Text(s + [0])
  }

  function ChangedAll(fs: seq<Field>): (gs: seq<Field>)
    ensures Differ(fs, gs) && InRange(gs)
  {
    seq(|fs|, k requires 0 <= k < |fs| => Changed(fs[k]))
  }

  lemma {:induction false} WireAllSize(fs: seq<Field>)
    ensures |WireAll(fs)| <= FullSizeAll(fs)
    ensures (forall k | 0 <= k < |fs| && fs[k].Text? :: |fs[k].s| < UINT16_MAX) ==> |WireAll(fs)| == FullSizeAll(fs)
  {
    if fs != [] {
      WireAllSize(fs[1..]);
    }
  }

  lemma {:induction false} WireAllAppend(fs: seq<Field>, gs: seq<Field>)
    ensures WireAll(fs + gs) == WireAll(fs) + WireAll(gs)
    ensures FullSizeAll(fs + gs) == FullSizeAll(fs) + FullSizeAll(gs)
  {
    if fs == [] {
      assert fs + gs == gs;
    } else {
      AppendFirst(fs, gs);
      WireAllAppend(fs[1..], gs);
      Regroup(Wire(fs[0]), WireAll(fs[1..]), WireAll(gs), []);
    }
  }

  lemma AppendFirst(fs: seq<Field>, gs: seq<Field>)
    requires fs != []
    ensures WireAll(fs + gs) == Wire(fs[0]) + WireAll(fs[1..] + gs)
    ensures FullSizeAll(fs + gs) == FullSize(fs[0]) + FullSizeAll(fs[1..] + gs)
  {
    assert (fs + gs)[1..] == fs[1..] + gs;
  }

  lemma {:induction false} FieldIsSmaller(fs: seq<Field>, k: nat)
    requires k < |fs|
    ensures FullSize(fs[k]) <= FullSizeAll(fs)
  {
    if k > 0 {
      FieldIsSmaller(fs[1..], k - 1);
    }
  }

  // ----- the buffers

  class CWriteBuf {
    var buf: array<byte>
    var curPos: nat

    ghost predicate Valid()
      reads this
    {
      curPos <= buf.Length <= INT32_MAX
    }

    ghost function Contents(): seq<byte>
      reads this, buf
      requires Valid()
    {
      buf[..curPos]
    }

    constructor (bufSize: nat)
      requires bufSize <= INT32_MAX
      ensures Valid() && fresh(buf) && Contents() == []
    {
      buf := new byte[bufSize];
      curPos := 0;
    }

    method Clear()
      requires Valid()
      modifies this`curPos
      ensures Valid() && Contents() == []
    {
      curPos := 0;
    }

    /** A larger buffer that starts with the bytes of the old one; a smaller size is refused. */
    method Resize(size: nat) returns (ok: bool)
      requires Valid() && size <= INT32_MAX
      modifies this`buf
      ensures Valid() && old(buf.Length) <= buf.Length && buf[..old(buf.Length)] == old(buf[..])
      ensures ok <==> old(buf.Length) < size
      ensures if ok then fresh(buf) && buf.Length == size else buf == old(buf)
    {
      if buf.Length >= size {
        return false;
      }
      var larger := new byte[size];
      forall i | 0 <= i < buf.Length {
        larger[i] := buf[i];
      }
      buf := larger;
      ok := true;
    }

    /** Room for n more bytes. */
    method Reserve(n: nat)
      requires Valid() && curPos + n <= INT32_MAX
      modifies this`buf
      ensures Valid() && curPos + n <= buf.Length && (buf == old(buf) || fresh(buf))
      ensures Contents() == old(Contents())
    {
      var remain := buf.Length - curPos;
      if remain < n {
        ghost var before := buf[..];
        var ok := Resize(buf.Length + n - remain);
        assert buf[..curPos] == buf[..|before|][..curPos];
      }
    }

    method Append(bytes: seq<byte>)
      requires Valid() && curPos + |bytes| <= buf.Length
      modifies this`curPos, buf
      ensures Valid() && Contents() == old(Contents()) + bytes
    {
      forall i | 0 <= i < |bytes| {
        buf[curPos + i] := bytes[i];
      }
      curPos := curPos + |bytes|;
    }

    /** Any fixed-size value. */
    method WriteUint(n: nat, width: nat)
      requires Valid() && curPos + width <= INT32_MAX
      modifies this, buf
      ensures Valid() && (buf == old(buf) || fresh(buf))
      ensures Contents() == old(Contents()) + Wire(Uint(width, n))
    {
      Reserve(width);
      Append(Store(n, width));
    }

    /** Raw bytes; an empty write is refused, which comes to the same. */
    method WriteBytes(bytes: seq<byte>)
      requires Valid() && curPos + |bytes| <= INT32_MAX
      modifies this, buf
      ensures Valid() && (buf == old(buf) || fresh(buf))
      ensures Contents() == old(Contents()) + bytes
    {
      if bytes == [] {
        return;
      }
      Reserve(|bytes|);
      Append(bytes);
    }

    /** A string of 65535 bytes or more is refused without a sign to the caller. */
    method WriteString(s: seq<byte>)
      requires Valid() && curPos + 2 + UINT16_MAX <= INT32_MAX
      modifies this, buf
      ensures Valid() && (buf == old(buf) || fresh(buf))
      ensures Contents() == old(Contents()) + Wire(Text(s))
    {
      if |s| >= UINT16_MAX {
        return;
      }
      Reserve(|s| + 2);
      Append(Store(|s|, 2) + s);
    }
  }

  class CReadBuf {
    var buf: seq<byte>
    var curPos: nat

    ghost predicate Valid()
      reads this
    {
      curPos <= |buf| && |buf| + 2 + UINT16_MAX <= INT32_MAX
    }

    /** A null pointer is refused, which leaves nothing to read. */
    constructor (data: array?<byte>, size: nat)
      requires data != null ==> size <= data.Length
      requires size + 2 + UINT16_MAX <= INT32_MAX
      ensures Valid() && curPos == 0 && buf == if data == null then [] else data[..size]
    {
      buf := if data == null then [] else data[..size];
      curPos := 0;
    }

    method ReadUint(width: nat, val: nat) returns (ok: bool, val': nat)
      requires Valid() && width <= UINT16_MAX
      modifies this`curPos
      ensures Valid() && (Uint(width, val'), curPos) == ReadField(Uint(width, val), buf, old(curPos))
      ensures !ok ==> curPos == old(curPos) && val' == val
      ensures ok <==> old(curPos) + width <= |buf|
    {
      if curPos + width > |buf| {
        return false, val;
      }
      ok, val' := true, Load(buf[curPos..curPos + width]);
      curPos := curPos + width;
    }

    method ReadString(s: seq<byte>) returns (ok: bool, s': seq<byte>)
      requires Valid()
      modifies this`curPos
      ensures Valid() && (Text(s'), curPos) == ReadField(Text(s), buf, old(curPos))
      ensures !ok ==> curPos == old(curPos) && s' == s
      ensures ok ==> curPos == old(curPos) + 2 + |s'|
    {
      if curPos + 2 > |buf| {
        return false, s;
      }
      var len := Load(buf[curPos..curPos + 2]);
      if curPos + 2 + len > |buf| {
        return false, s;
      }
      ok, s' := true, buf[curPos + 2..curPos + 2 + len];
      curPos := curPos + len + 2;
    }
  }

  lemma NextWire(fs: seq<Field>, i: nat)
    requires i < |fs|
    ensures WireAll(fs[..i + 1]) == WireAll(fs[..i]) + Wire(fs[i])
  {
    assert fs[..i + 1] == fs[..i] + [fs[i]];
    WireAllAppend(fs[..i], [fs[i]]);
    assert WireAll([fs[i]]) == Wire(fs[i]);
  }

  lemma PrefixSize(fs: seq<Field>, i: nat)
    requires i < |fs|
    ensures |WireAll(fs[..i])| + FullSize(fs[i]) <= FullSizeAll(fs)
  {
    assert fs == fs[..i] + ([fs[i]] + fs[i + 1..]);
    WireAllAppend(fs[..i], [fs[i]] + fs[i + 1..]);
    WireAllSize(fs[..i]);
  }

  predicate SmallWidth(f: Field) { f.Uint? ==> f.width <= UINT16_MAX }

  method WriteFields(fs: seq<Field>, w: CWriteBuf)
    requires w.Valid() && w.Contents() == [] && FullSizeAll(fs) + 2 + UINT16_MAX <= INT32_MAX
    modifies w, w.buf
    ensures w.Valid() && w.Contents() == WireAll(fs) && (w.buf == old(w.buf) || fresh(w.buf))
  {
    for i := 0 to |fs|
      invariant w.Valid() && w.Contents() == WireAll(fs[..i]) && (w.buf == old(w.buf) || fresh(w.buf))
    {
      NextWire(fs, i);
      PrefixSize(fs, i);
      match fs[i]
      case Uint(width, n) => w.WriteUint(n, width);
      case Text(s) => w.WriteString(s);
    }
    assert fs[..|fs|] == fs;
  }

  method ReadInto(f: Field, r: CReadBuf) returns (f': Field)
    requires r.Valid() && SmallWidth(f)
    modifies r`curPos
    ensures r.Valid() && (f', r.curPos) == ReadField(f, r.buf, old(r.curPos))
  {
    match f
    case Uint(width, n) =>
      var ok, n' := r.ReadUint(width, n);
      f' := Uint(width, n');
    case Text(s) =>
      var ok, s' := r.ReadString(s);
      f' := Text(s');
  }

  lemma NextField(into: seq<Field>, i: nat, buf: seq<byte>, pos: nat)
    requires i < |into| && pos <= |buf|
    ensures var (f, next) := ReadField(into[i], buf, pos);
            var rest := ReadAll(into[i + 1..], buf, next);
            ReadAll(into[i..], buf, pos).0 == [f] + rest.0 && ReadAll(into[i..], buf, pos).1 == rest.1
  {
    assert into[i..][1..] == into[i + 1..];
  }

  method ReadFields(into: seq<Field>, r: CReadBuf) returns (out: seq<Field>)
    requires r.Valid() && forall k | 0 <= k < |into| :: SmallWidth(into[k])
    modifies r`curPos
    ensures r.Valid() && out == ReadAll(into, r.buf, old(r.curPos)).0 && r.curPos == ReadAll(into, r.buf, old(r.curPos)).1
  {
    ghost var all := ReadAll(into, r.buf, r.curPos);
    out := [];
    assert into[0..] == into;
    for i := 0 to |into|
      invariant r.Valid() && |out| == i
      invariant var rest := ReadAll(into[i..], r.buf, r.curPos); all.0 == out + rest.0 && all.1 == rest.1
    {
      NextField(into, i, r.buf, r.curPos);
      var f := ReadInto(into[i], r);
      Regroup(out, [f], ReadAll(into[i + 1..], r.buf, r.curPos).0, []);
      out := out + [f];
    }
  }

  /** Any values written to a buffer of any initial size, which grows as needed, and read back. */
  method WriteThenRead(fs: seq<Field>, into: seq<Field>, capacity: nat) returns (out: seq<Field>, left: nat)
    requires AllFit(fs) && SameKinds(fs, into) && forall k | 0 <= k < |into| :: SmallWidth(into[k])
    requires capacity <= INT32_MAX && FullSizeAll(fs) + 2 + UINT16_MAX <= INT32_MAX
    ensures out == fs && left == 0
  {
    var w := new CWriteBuf(capacity);
    WriteFields(fs, w);
    WireAllSize(fs);
    ReadAllToEnd(fs, into, []);
    assert [] + WireAll(fs) == WireAll(fs);
    var r := new CReadBuf(w.buf, w.curPos);
    out := ReadFields(into, r);
    left := |r.buf| - r.curPos;
  }
}
