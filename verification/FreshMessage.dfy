/** Unpacking a native message into a fresh object, where a value whose bytes were lost may be there already. */
module FreshMessage {
  import opened Basics
  import opened Bytes
  import opened BufFile
  import opened NativeMessage

  /** The value of a field in a fresh object. */
  function Blank(f: Field): (blank: Field)
    ensures SameKind(blank, f)
  {
    match f
    case Uint(width, _) => Uint(width, 0)
    case Text(_) => Text([])
  }

  function Blanks(fs: seq<Field>): (blanks: seq<Field>)
    ensures SameKinds(blanks, fs) && forall k | 0 <= k < |fs| :: blanks[k] == Blank(fs[k])
  {
    seq(|fs|, k requires 0 <= k < |fs| => Blank(fs[k]))
  }

  /** The class of m, with nothing in it yet. */
  function Fresh(m: Record): Record { Record(Blanks(m.header), []) }

  lemma BlanksFirst(fs: seq<Field>)
    requires fs != []
    ensures Blanks(fs)[0] == Blank(fs[0]) && Blanks(fs)[1..] == Blanks(fs[1..])
  {
  }

  lemma ReadFirst(fs: seq<Field>, buf: seq<byte>, pos: nat)
    requires fs != [] && pos <= |buf| && ReadAll(Blanks(fs), buf, pos).0 == fs
    ensures var (f, next) := ReadField(Blank(fs[0]), buf, pos);
            var rest := ReadAll(Blanks(fs[1..]), buf, next);
            f == fs[0] && rest.0 == fs[1..] && rest.1 == ReadAll(Blanks(fs), buf, pos).1
  {
    BlanksFirst(fs);
  }

  // ----- what reading over blanks can give

  /** Read over blanks, fields need no more bytes than there were, besides those that blanks need. */
  lemma {:induction false} BlankResults(fs: seq<Field>, buf: seq<byte>, pos: nat)
    requires pos <= |buf|
    ensures var r := ReadAll(Blanks(fs), buf, pos);
            && FullSizeAll(r.0) <= r.1 - pos + FullSizeAll(Blanks(fs))
            && forall k | 0 <= k < |fs| && r.0[k].Text? :: r.0[k].s == [] || |r.0[k].s| + 2 <= |buf|
  {
    if fs != [] {
      BlanksFirst(fs);
      var first := ReadField(Blank(fs[0]), buf, pos);
      var rest := ReadAll(Blanks(fs[1..]), buf, first.1);
      BlankResults(fs[1..], buf, first.1);
      assert ([first.0] + rest.0)[1..] == rest.0;
    }
  }

  lemma BlankResultsFit(fs: seq<Field>, buf: seq<byte>, pos: nat)
    requires pos <= |buf| <= UINT16_MAX && InRange(fs) && ReadAll(Blanks(fs), buf, pos).0 == fs
    ensures AllFit(fs)
  {
    BlankResults(fs, buf, pos);
  }

  // ----- fields without a list

  lemma AllFitSize(fs: seq<Field>)
    requires AllFit(fs)
    ensures |WireAll(fs)| == FullSizeAll(fs)
  {
    forall k | 0 <= k < |fs| && fs[k].Text? ensures |fs[k].s| < UINT16_MAX {
      assert Fits(fs[k]);
    }
    WireAllSize(fs);
  }

  /** The part that a 16-bit size leaves is all there is if it lacks less than 65536 bytes. */
  lemma ReceivedWhole(buf: seq<byte>)
    requires |buf| < |Received(buf)| + UINT16_COUNT
    ensures |buf| <= UINT16_MAX
  {
  }

  /** Fixed fields come back in a fresh object exactly when they need at most 65535 bytes, too. */
  lemma FreshFieldsRoundTrip(fs: seq<Field>)
    requires InRange(fs) && FullSizeAll(Blanks(fs)) <= UINT16_MAX
    ensures ReadAll(Blanks(fs), Received(WireAll(fs)), 0).0 == fs <==> FullSizeAll(fs) <= UINT16_MAX
  {
    var buf := Received(WireAll(fs));
    if FullSizeAll(fs) <= UINT16_MAX {
      ShortFieldsFit(fs);
      WholeReceived(WireAll(fs));
      assert WireAll(fs) + [] == WireAll(fs);
      ShortFieldsRead(fs, Blanks(fs), []);
    } else if ReadAll(Blanks(fs), buf, 0).0 == fs {
      BlankResults(fs, buf, 0);
      BlankResultsFit(fs, buf, 0);
      AllFitSize(fs);
      ReceivedWhole(WireAll(fs));
    }
  }

  // ----- where the bytes end

  lemma {:induction false} StoreZero(width: nat)
    ensures Store(0, width) == seq(width, _ => 0)
  {
    if width > 0 {
      StoreZero(width - 1);
    }
  }

  /** A field whose bytes are all there is read as written. */
  lemma WholeField(f: Field, before: seq<byte>, after: seq<byte>, size: nat)
    requires Fits(f) && |before + Wire(f)| <= size <= |before + Wire(f) + after|
    ensures ReadField(Blank(f), (before + Wire(f) + after)[..size], |before|) == (f, |before + Wire(f)|)
  {
    var left := after[..size - |before + Wire(f)|];
    assert (before + Wire(f) + after)[..size] == before + Wire(f) + left;
    ReadWritten(f, Blank(f), before, left);
  }

  lemma CutTextUnread(s: seq<byte>, before: seq<byte>, after: seq<byte>, size: nat)
    requires |s| < UINT16_MAX && |before| + 2 <= size < |before| + |Wire(Text(s))|
    ensures ReadField(Text([]), (before + Wire(Text(s)) + after)[..size], |before|).0 == Text([])
  {
    Widths();
    SmallMod(|s|, 2);
    assert (before + Wire(Text(s)) + after)[..size][|before|..|before| + 2] == Store(|s|, 2);
  }

  /** A string cut short that is read as written all the same is empty, and even its length is cut. */
  lemma CutText(s: seq<byte>, before: seq<byte>, after: seq<byte>, size: nat)
    requires |s| < UINT16_MAX && |before| <= size < |before| + |Wire(Text(s))|
    requires ReadField(Text([]), (before + Wire(Text(s)) + after)[..size], |before|).0 == Text(s)
    ensures s == [] && size < |before| + 2
  {
    if |before| + 2 <= size {
      CutTextUnread(s, before, after, size);
    }
  }

  lemma CutUint(width: nat, n: nat, before: seq<byte>, after: seq<byte>, size: nat)
    requires |before| <= size < |before| + width
    requires ReadField(Uint(width, 0), (before + Store(n, width) + after)[..size], |before|).0 == Uint(width, n)
    ensures n == 0
  {
  }

  /** Whatever is left of a field cut short that is read as written all the same is zeros. */
  lemma CutField(f: Field, before: seq<byte>, after: seq<byte>, size: nat)
    requires Fits(f) && |before| <= size < |before| + |Wire(f)|
    requires ReadField(Blank(f), (before + Wire(f) + after)[..size], |before|).0 == f
    ensures forall i | |before| <= i < size :: (before + Wire(f) + after)[i] == 0
  {
    match f
    case Uint(width, n) =>
      CutUint(width, n, before, after, size);
      StoreZero(width);
    case Text(s) =>
      CutText(s, before, after, size);
      StoreZero(2);
  }

  /** A header that came back was read to its end, or nothing but zeros is left. */
  lemma {:induction false} BlankRead(fs: seq<Field>, before: seq<byte>, after: seq<byte>, size: nat)
    requires AllFit(fs) && |before| <= size <= |before + WireAll(fs) + after|
    requires ReadAll(Blanks(fs), (before + WireAll(fs) + after)[..size], |before|).0 == fs
    ensures var wire := before + WireAll(fs) + after;
            var end := ReadAll(Blanks(fs), wire[..size], |before|).1;
            end == |before + WireAll(fs)| || forall i | end <= i < size :: wire[i] == 0
  {
    if fs != [] {
      var first, rest := Wire(fs[0]), WireAll(fs[1..]);
      var wire := before + WireAll(fs) + after;
      assert wire == before + first + (rest + after) == (before + first) + rest + after by {
        Regroup(before, first, rest, after);
      }
      ReadFirst(fs, wire[..size], |before|);
      if |before + first| <= size {
        WholeField(fs[0], before, rest + after, size);
        BlankRead(fs[1..], before + first, after, size);
      } else {
        CutField(fs[0], before, rest + after, size);
      }
    }
  }

  /** With less than a length left, no string is read any more. */
  lemma {:induction false} NothingLeft(args: seq<seq<byte>>, buf: seq<byte>, pos: nat)
    requires pos <= |buf| < pos + 2 && ReadAll(Blanks(Texts(args)), buf, pos).0 == Texts(args)
    ensures forall k | 0 <= k < |args| :: args[k] == []
  {
    if args != [] {
      assert Texts(args)[1..] == Texts(args[1..]);
      ReadFirst(Texts(args), buf, pos);
      NothingLeft(args[1..], buf, pos);
    }
  }

  lemma PrefixFirst(args: seq<seq<byte>>, j: nat)
    requires j < |args|
    ensures FullSizeAll(Texts(args[..j + 1])) == FullSize(Text(args[0])) + FullSizeAll(Texts(args[1..][..j]))
  {
    assert Texts(args[..j + 1]) == [Text(args[0])] + Texts(args[1..][..j]);
    AppendFirst([Text(args[0])], Texts(args[1..][..j]));
    assert [Text(args[0])][1..] + Texts(args[1..][..j]) == Texts(args[1..][..j]);
  }

  lemma FirstText(args: seq<seq<byte>>, before: seq<byte>)
    requires args != [] && AllFit(Texts(args))
    ensures before + WireAll(Texts(args)) == before + Wire(Text(args[0])) + WireAll(Texts(args[1..]))
    ensures Fits(Text(args[0])) && AllFit(Texts(args[1..])) && Texts(args)[1..] == Texts(args[1..])
  {
    assert Texts(args)[1..] == Texts(args[1..]);
    assert Fits(Texts(args)[0]);
    Regroup(before, Wire(Text(args[0])), WireAll(Texts(args[1..])), []);
  }

  /** The strings after one that is all there. */
  lemma NextTexts(args: seq<seq<byte>>, before: seq<byte>, size: nat)
    requires args != [] && AllFit(Texts(args)) && |before + Wire(Text(args[0]))| <= size <= |before + WireAll(Texts(args))|
    requires ReadAll(Blanks(Texts(args)), (before + WireAll(Texts(args)))[..size], |before|).0 == Texts(args)
    ensures var start, rest := before + Wire(Text(args[0])), WireAll(Texts(args[1..]));
            && size <= |start + rest|
            && ReadAll(Blanks(Texts(args[1..])), (start + rest)[..size], |start|).0 == Texts(args[1..])
  {
    FirstText(args, before);
    ReadFirst(Texts(args), (before + WireAll(Texts(args)))[..size], |before|);
    WholeField(Text(args[0]), before, WireAll(Texts(args[1..])), size);
  }

  /** And no string after one that is cut. */
  lemma NoNextTexts(args: seq<seq<byte>>, before: seq<byte>, size: nat)
    requires args != [] && AllFit(Texts(args)) && |before| <= size < |before + Wire(Text(args[0]))|
    requires size <= |before + WireAll(Texts(args))|
    requires ReadAll(Blanks(Texts(args)), (before + WireAll(Texts(args)))[..size], |before|).0 == Texts(args)
    ensures size < |before| + 2 && forall k | 0 <= k < |args| :: args[k] == []
  {
    var buf := (before + WireAll(Texts(args)))[..size];
    FirstText(args, before);
    ReadFirst(Texts(args), buf, |before|);
    CutText(args[0], before, WireAll(Texts(args[1..])), size);
    NothingLeft(args, buf, |before|);
  }

  /** Strings that came back are those whose bytes are all there, and behind them empty ones. */
  lemma {:induction false} BlankListRead(args: seq<seq<byte>>, before: seq<byte>, size: nat) returns (i: nat)
    requires AllFit(Texts(args)) && |before| <= size <= |before + WireAll(Texts(args))|
    requires ReadAll(Blanks(Texts(args)), (before + WireAll(Texts(args)))[..size], |before|).0 == Texts(args)
    ensures i <= |args| && (forall k | i <= k < |args| :: args[k] == [])
    ensures |before| + FullSizeAll(Texts(args[..i])) <= size
    ensures i < |args| ==> size < |before| + FullSizeAll(Texts(args[..i])) + 2
    decreases |args|
  {
    i := 0;
    if args != [] {
      var first := Wire(Text(args[0]));
      FirstText(args, before);
      if |before + first| <= size {
        NextTexts(args, before, size);
        var j := BlankListRead(args[1..], before + first, size);
        i := j + 1;
        PrefixFirst(args, j);
      } else {
        NoNextTexts(args, before, size);
      }
    }
  }

  lemma PrefixNext(args: seq<seq<byte>>, i: nat)
    requires i < |args|
    ensures FullSizeAll(Texts(args[..i + 1])) == FullSizeAll(Texts(args[..i])) + FullSize(Text(args[i]))
  {
    var last := [Text(args[i])];
    assert Texts(args[..i + 1]) == Texts(args[..i]) + last;
    WireAllAppend(Texts(args[..i]), last);
    assert FullSizeAll(last) == FullSize(last[0]) + FullSizeAll(last[1..]);
  }

  lemma {:induction false} EmptyTail(args: seq<seq<byte>>, i: nat)
    requires i <= |args| && forall k | i <= k < |args| :: args[k] == []
    ensures FullSizeAll(Texts(args)) == FullSizeAll(Texts(args[..i])) + 2 * (|args| - i)
    decreases |args| - i
  {
    if i == |args| {
      assert args[..i] == args;
    } else {
      EmptyTail(args, i + 1);
      PrefixNext(args, i);
    }
  }

  // ----- messages with a list

  /** The bytes that do not arrive are those of 32768 empty strings. */
  ghost predicate LostAreBlank(m: Record) {
    && 0x8000 <= |m.args| <= UINT16_MAX && FullLength(m) < 2 * UINT16_COUNT
    && forall k | |m.args| - 0x8000 <= k < |m.args| :: m.args[k] == []
  }

  lemma FreshList(n: nat, args: seq<seq<byte>>)
    requires |args| == n
    ensures Texts(Resize([], n)) == Blanks(Texts(args))
  {
  }

  /** A list that came back was read over as many empty strings. */
  lemma ListWasBlank(args: seq<seq<byte>>, buf: seq<byte>, pos: nat)
    requires pos <= |buf| && UnpackedList([], buf, pos) == args
    ensures var (count, start) := ReadField(Uint(2, 0), buf, pos);
            count.n == |args| && ReadAll(Blanks(Texts(args)), buf, start).0 == Texts(args)
  {
    var (count, start) := ReadField(Uint(2, 0), buf, pos);
    FreshList(count.n, args);
  }

  /** What came back into a fresh object fits, so nothing was skipped when it was packed. */
  lemma FreshResultFits(m: Record)
    requires InRange(m.header) && Unpacked(Fresh(m), Received(Packed(m))) == m
    ensures AllFit(m.header) && AllFit(Texts(m.args)) && |m.args| <= UINT16_MAX
  {
    var buf := Received(Packed(m));
    var pos := ReadAll(Blanks(m.header), buf, 0).1;
    BlankResultsFit(m.header, buf, 0);
    Widths();
    ListWasBlank(m.args, buf, pos);
    BlankResultsFit(Texts(m.args), buf, ReadField(Uint(2, 0), buf, pos).1);
  }

  /** The bytes up to the count, and all bytes. */
  lemma FullyPacked(m: Record)
    requires AllFit(m.header) && AllFit(Texts(m.args)) && |m.args| <= UINT16_MAX
    ensures var count := Wire(Uint(2, |m.args|));
            && Packed(m) == WireAll(m.header) + count + WireAll(Texts(m.args))
            && |WireAll(m.header) + count| == FullSizeAll(m.header) + 2 && |Packed(m)| == FullLength(m)
  {
    AllFitSize(m.header);
    AllFitSize(Texts(m.args));
    assert m.args[..|m.args|] == m.args;
    Regroup(WireAll(m.header), Wire(Uint(2, |m.args|)), WireAll(Texts(m.args)), []);
  }

  lemma HeaderEnd(header: seq<Field>, after: seq<byte>, size: nat)
    requires AllFit(header) && size <= |WireAll(header) + after|
    requires ReadAll(Blanks(header), (WireAll(header) + after)[..size], 0).0 == header
    ensures var buf := (WireAll(header) + after)[..size];
            var end := ReadAll(Blanks(header), buf, 0).1;
            end == |WireAll(header)| || forall i | end <= i < size :: buf[i] == 0
  {
    assert [] + WireAll(header) == WireAll(header);
    BlankRead(header, [], after, size);
  }

  /** The count read after a header that came back is the one written, or 0. */
  lemma CountRead(header: seq<Field>, n: nat, after: seq<byte>, size: nat)
    requires AllFit(header) && n <= UINT16_MAX && size <= |WireAll(header) + Wire(Uint(2, n)) + after|
    requires ReadAll(Blanks(header), (WireAll(header) + Wire(Uint(2, n)) + after)[..size], 0).0 == header
    ensures var buf := (WireAll(header) + Wire(Uint(2, n)) + after)[..size];
            var count := ReadField(Uint(2, 0), buf, ReadAll(Blanks(header), buf, 0).1);
            count.0 == Uint(2, 0) || count == (Uint(2, n), |WireAll(header) + Wire(Uint(2, n))|)
  {
    var head, count := WireAll(header), Wire(Uint(2, n));
    Regroup(head, count, after, []);
    HeaderEnd(header, count + after, size);
    CountFrom(n, head, after, size, ReadAll(Blanks(header), (head + count + after)[..size], 0).1);
  }

  lemma CountFrom(n: nat, head: seq<byte>, after: seq<byte>, size: nat, end: nat)
    requires n <= UINT16_MAX && end <= size <= |head + Wire(Uint(2, n)) + after|
    requires end == |head| || forall i | end <= i < size :: (head + Wire(Uint(2, n)) + after)[..size][i] == 0
    ensures var count := ReadField(Uint(2, 0), (head + Wire(Uint(2, n)) + after)[..size], end);
            count.0 == Uint(2, 0) || count == (Uint(2, n), |head + Wire(Uint(2, n))|)
  {
    if end == |head| {
      CountReadAtEnd(n, head, after, size);
    } else if end + 2 <= size {
      ZeroCount((head + Wire(Uint(2, n)) + after)[..size], end);
    }
  }

  lemma CountReadAtEnd(n: nat, head: seq<byte>, after: seq<byte>, size: nat)
    requires n <= UINT16_MAX && |head| <= size <= |head + Wire(Uint(2, n)) + after|
    ensures var count := ReadField(Uint(2, 0), (head + Wire(Uint(2, n)) + after)[..size], |head|);
            count.0 == Uint(2, 0) || count == (Uint(2, n), |head + Wire(Uint(2, n))|)
  {
    if |head| + 2 <= size {
      Widths();
      WholeField(Uint(2, n), head, after, size);
    }
  }

  lemma ZeroCount(buf: seq<byte>, at: nat)
    requires at + 2 <= |buf| && forall i | at <= i < |buf| :: buf[i] == 0
    ensures Load(buf[at..at + 2]) == 0
  {
    StoreZero(2);
    Widths();
    SmallMod(0, 2);
    assert buf[at..at + 2] == Store(0, 2);
  }

  lemma FreshLost(m: Record)
    requires InRange(m.header) && FullSizeAll(Blanks(m.header)) + 2 <= UINT16_MAX && FullLength(m) > UINT16_MAX
    requires Unpacked(Fresh(m), Received(Packed(m))) == m
    ensures LostAreBlank(m)
  {
    FreshResultFits(m);
    FullyPacked(m);
    var n, size, before := |m.args|, |Packed(m)| % UINT16_COUNT, WireAll(m.header) + Wire(Uint(2, |m.args|));
    var buf := Received(Packed(m));
    CountRead(m.header, n, WireAll(Texts(m.args)), size);
    ListWasBlank(m.args, buf, ReadAll(Blanks(m.header), buf, 0).1);
    if n == 0 {
      BlankResults(m.header, buf, 0);
      ReceivedWhole(Packed(m));
    } else {
      var i := BlankListRead(m.args, before, size);
      EmptyTail(m.args, i);
      LostBytes(FullLength(m), size, n, i);
    }
  }

  /** Of L bytes 65536 or more are lost, and those are of n - i empty strings, but for one byte at most. */
  lemma LostBytes(length: nat, size: nat, n: nat, i: nat)
    requires i <= n <= UINT16_MAX < length && size == length % UINT16_COUNT
    requires length - 2 * (n - i) <= size && (i < n ==> size < length - 2 * (n - i) + 2)
    ensures n - i == 0x8000 && length < 2 * UINT16_COUNT
  {
  }

  // ----- where the lost strings are empty

  lemma {:induction false} NoBytes(fs: seq<Field>, buf: seq<byte>)
    requires forall k | 0 <= k < |fs| :: fs[k] == Text([])
    ensures ReadAll(Blanks(fs), buf, |buf|).0 == fs
  {
    if fs != [] {
      BlanksFirst(fs);
      NoBytes(fs[1..], buf);
      assert [fs[0]] + fs[1..] == fs;
    }
  }

  /** The first i strings are read, and the others are empty and stay so. */
  lemma PrefixRead(args: seq<seq<byte>>, i: nat, before: seq<byte>)
    requires i <= |args| && AllFit(Texts(args[..i])) && forall k | i <= k < |args| :: args[k] == []
    ensures ReadAll(Blanks(Texts(args)), before + WireAll(Texts(args[..i])), |before|).0 == Texts(args)
  {
    EmptyEnd(args, i);
    FrontRead(Texts(args), i, before);
  }

  lemma EmptyEnd(args: seq<seq<byte>>, i: nat)
    requires i <= |args| && forall k | i <= k < |args| :: args[k] == []
    ensures Texts(args[..i]) == Texts(args)[..i] && forall k | i <= k < |args| :: Texts(args)[k] == Text([])
  {
  }

  lemma {:induction false} FrontRead(fs: seq<Field>, i: nat, before: seq<byte>)
    requires i <= |fs| && AllFit(fs[..i]) && forall k | i <= k < |fs| :: fs[k] == Text([])
    ensures ReadAll(Blanks(fs), before + WireAll(fs[..i]), |before|).0 == fs
  {
    if i == 0 {
      assert before + WireAll(fs[..0]) == before;
      NoBytes(fs, before);
    } else {
      var rest := fs[1..][..i - 1];
      assert fs[..i][0] == fs[0] && fs[..i][1..] == rest;
      assert Fits(fs[..i][0]) && forall k | 0 <= k < |rest| :: rest[k] == fs[..i][k + 1];
      Regroup(before, Wire(fs[0]), WireAll(rest), []);
      FrontRead(fs[1..], i - 1, before + Wire(fs[0]));
      FirstToo(fs, before, WireAll(rest));
    }
  }

  /** If the fields after the first come back, so does the first with them. */
  lemma FirstToo(fs: seq<Field>, before: seq<byte>, rest: seq<byte>)
    requires fs != [] && Fits(fs[0])
    requires ReadAll(Blanks(fs[1..]), before + Wire(fs[0]) + rest, |before + Wire(fs[0])|).0 == fs[1..]
    ensures ReadAll(Blanks(fs), before + Wire(fs[0]) + rest, |before|).0 == fs
  {
    BlanksFirst(fs);
    ReadWritten(fs[0], Blank(fs[0]), before, rest);
    assert [fs[0]] + fs[1..] == fs;
  }

  /** Only the last strings are lost, so what arrives ends before them. */
  lemma LostSize(m: Record)
    requires LostAreBlank(m)
    ensures FullSizeAll(m.header) + 2 + FullSizeAll(Texts(m.args[..|m.args| - 0x8000])) + UINT16_COUNT == FullLength(m)
  {
    EmptyTail(m.args, |m.args| - 0x8000);
  }

  /** And what is packed fits. */
  lemma LostFits(m: Record)
    requires InRange(m.header) && LostAreBlank(m)
    ensures AllFit(m.header) && AllFit(Texts(m.args)) && AllFit(Texts(m.args[..|m.args| - 0x8000]))
  {
    LostSize(m);
    var front := m.args[..|m.args| - 0x8000];
    ShortFieldsFit(m.header);
    ShortFieldsFit(Texts(front));
    forall k | 0 <= k < |m.args| ensures Fits(Texts(m.args)[k]) {
      if k < |front| {
        assert Fits(Texts(front)[k]);
      }
    }
  }

  lemma HeaderRead(header: seq<Field>, after: seq<byte>)
    requires AllFit(header)
    ensures ReadAll(Blanks(header), WireAll(header) + after, 0) == (header, |WireAll(header)|)
  {
    ReadAllWritten(header, Blanks(header), [], after);
    assert [] + WireAll(header) == WireAll(header);
  }

  lemma ListKept(args: seq<seq<byte>>, i: nat, before: seq<byte>)
    requires i <= |args| <= UINT16_MAX && AllFit(Texts(args[..i])) && forall k | i <= k < |args| :: args[k] == []
    ensures UnpackedList([], before + Wire(Uint(2, |args|)) + WireAll(Texts(args[..i])), |before|) == args
  {
    var n := |args|;
    var count, list := Wire(Uint(2, n)), WireAll(Texts(args[..i]));
    Widths();
    ReadWritten(Uint(2, n), Uint(2, 0), before, list);
    PrefixRead(args, i, before + count);
    FreshList(n, args);
    StringsOfTexts(ReadAll(Blanks(Texts(args)), before + count + list, |before + count|).0, args);
  }

  lemma FreshKept(m: Record)
    requires InRange(m.header) && LostAreBlank(m)
    ensures Unpacked(Fresh(m), Received(Packed(m))) == m
  {
    var i: nat := |m.args| - 0x8000;
    var head, count, list := WireAll(m.header), Wire(Uint(2, |m.args|)), WireAll(Texts(m.args[..i]));
    LostFits(m);
    KeptBytes(m);
    Regroup(head, count, list, []);
    HeaderRead(m.header, count + list);
    ListKept(m.args, i, head);
  }

  lemma SplitList(args: seq<seq<byte>>, i: nat)
    requires i <= |args| && AllFit(Texts(args[..i]))
    ensures WireAll(Texts(args)) == WireAll(Texts(args[..i])) + WireAll(Texts(args[i..]))
    ensures |WireAll(Texts(args[..i]))| == FullSizeAll(Texts(args[..i]))
  {
    assert Texts(args) == Texts(args[..i]) + Texts(args[i..]);
    WireAllAppend(Texts(args[..i]), Texts(args[i..]));
    AllFitSize(Texts(args[..i]));
  }

  lemma ReceivedPrefix(kept: seq<byte>, lost: seq<byte>)
    requires |lost| == UINT16_COUNT && |kept| <= UINT16_MAX
    ensures Received(kept + lost) == kept
  {
  }

  lemma KeptBytes(m: Record)
    requires InRange(m.header) && LostAreBlank(m)
    ensures Received(Packed(m)) == WireAll(m.header) + Wire(Uint(2, |m.args|)) + WireAll(Texts(m.args[..|m.args| - 0x8000]))
  {
    var i := |m.args| - 0x8000;
    LostSize(m);
    LostFits(m);
    FullyPacked(m);
    SplitList(m.args, i);
    var before, kept, lost := WireAll(m.header) + Wire(Uint(2, |m.args|)), WireAll(Texts(m.args[..i])), WireAll(Texts(m.args[i..]));
    Regroup(before, kept, lost, []);
    ReceivedPrefix(before + kept, lost);
  }

  /** A message comes back in a fresh object exactly when it needs at most 65535 bytes, or the 65536 bytes that its
      16-bit size drops are those of empty strings at the end of its list. */
  lemma FreshRoundTrip(m: Record)
    requires InRange(m.header) && FullSizeAll(Blanks(m.header)) + 2 <= UINT16_MAX
    ensures Unpacked(Fresh(m), Received(Packed(m))) == m <==> FullLength(m) <= UINT16_MAX || LostAreBlank(m)
  {
    if FullLength(m) <= UINT16_MAX {
      ShortMessageUnpacks(m, Fresh(m));
    } else if LostAreBlank(m) {
      FreshKept(m);
    } else if Unpacked(Fresh(m), Received(Packed(m))) == m {
      FreshLost(m);
    }
  }
}
