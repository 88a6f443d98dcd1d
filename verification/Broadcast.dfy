/** The two broadcast packets: the logic side lays them out in one raw buffer, the net side reads them
    back through the same offsets. Structure sizes and offsets are those of natural alignment. */
module Broadcast {
  import opened Basics
  import opened Bytes
  import opened ConnectionIndex

  const ID_SIZE := 8
  /** Broadcast to a list of ids: message type at 0, count at 2. */
  const LIST_HEADER := 4
  /** Broadcast to a type: message type at 0, excluded count at 2, type length at 4, type name at 6. */
  const KIND_HEADER := 8
  const KIND_AT := 6

  datatype Message = Message(messageType: byte, payload: seq<byte>)

  datatype ToList = ToList(ids: seq<Id>, message: Message)
  datatype ToKind = ToKind(kind: Name, excluded: seq<Id>, message: Message)

  predicate IsId(id: Id) { id < 0x1_0000_0000_0000_0000 }

  predicate NoNul(kind: Name) { 0 !in kind }

  // ----- reading, on the net side

  /** A C string: up to the first NUL. */
  function CString(mem: seq<byte>): (s: seq<byte>)
    ensures |s| <= |mem|
  {
    if mem == [] || mem[0] == 0 then [] else [mem[0]] + CString(mem[1..])
  }

  function LoadIds(mem: seq<byte>, count: nat): (ids: seq<Id>)
    requires ID_SIZE * count <= |mem|
    ensures |ids| == count
  {
    if count == 0 then [] else [Load(mem[..ID_SIZE])] + LoadIds(mem[ID_SIZE..], count - 1)
  }

  /** None when a region would lie outside the buffer. */
  function DecodeToList(buf: seq<byte>, dataSize: nat): Option<ToList> {
    if |buf| < LIST_HEADER then None
    else
      var count := Load(buf[2..4]);
      var payloadAt := LIST_HEADER + ID_SIZE * count;
      var payloadLength := (dataSize - payloadAt) % 0x1_0000;
      if |buf| < payloadAt + payloadLength then None
      else Some(ToList(LoadIds(buf[LIST_HEADER..], count),
                       Message(buf[0], buf[payloadAt..payloadAt + payloadLength])))
  }

  function DecodeToKind(buf: seq<byte>, dataSize: nat): Option<ToKind> {
    if |buf| < KIND_HEADER then None
    else
      var count := Load(buf[2..4]);
      var excludedAt := KIND_HEADER + Load(buf[4..6]);
      var payloadAt := excludedAt + ID_SIZE * count;
      var payloadLength := (dataSize - payloadAt) % 0x1_0000;
      if |buf| < payloadAt + payloadLength then None
      else Some(ToKind(CString(buf[KIND_AT..]), LoadIds(buf[excludedAt..], count),
                       Message(buf[0], buf[payloadAt..payloadAt + payloadLength])))
  }

  // ----- writing, on the logic side

  function StoreIds(ids: seq<Id>): (mem: seq<byte>)
    ensures |mem| == ID_SIZE * |ids|
  {
    if ids == [] then [] else Store(ids[0], ID_SIZE) + StoreIds(ids[1..])
  }

  function Zeros(n: nat): seq<byte> { seq(n, _ => 0) }

  /** What copying a name with its terminator leaves in its |kind| + 1 bytes. */
  function StoreName(kind: Name): seq<byte> {
    CString(kind) + Zeros(|kind| + 1 - |CString(kind)|)
  }

  method CopyIn(buf: array<byte>, at: nat, data: seq<byte>)
    requires at + |data| <= buf.Length
    modifies buf
    ensures forall i | 0 <= i < buf.Length ::
              buf[i] == if at <= i < at + |data| then data[i - at] else old(buf[i])
  {
    for k := 0 to |data|
      invariant forall i | 0 <= i < buf.Length ::
                  buf[i] == if at <= i < at + k then data[i - at] else old(buf[i])
    {
      buf[at + k] := data[k];
    }
  }

  lemma {:induction false} StoredIds(ids: seq<Id>, rest: seq<byte>)
    requires forall id <- ids :: IsId(id)
    ensures LoadIds(StoreIds(ids) + rest, |ids|) == ids
  {
    if ids != [] {
      var mem := StoreIds(ids) + rest;
      assert IsId(ids[0]);
      Widths();
      SmallMod(ids[0], ID_SIZE);
      assert mem[..ID_SIZE] == Store(ids[0], ID_SIZE);
      assert mem[ID_SIZE..] == StoreIds(ids[1..]) + rest;
      StoredIds(ids[1..], rest);
    }
  }

  lemma {:induction false} CStringStops(s: seq<byte>, rest: seq<byte>)
    requires rest != [] && rest[0] == 0
    ensures CString(s + rest) == CString(s)
    ensures CString(s) == s <==> NoNul(s)
    ensures NoNul(CString(s))
  {
    if s == [] {
      assert s + rest == rest;
    } else {
      assert (s + rest)[1..] == s[1..] + rest;
      CStringStops(s[1..], rest);
      assert s == [s[0]] + s[1..];
    }
  }

  lemma StoredName(kind: Name, rest: seq<byte>)
    ensures CString(StoreName(kind) + rest) == CString(kind)
    ensures CString(kind) == kind <==> NoNul(kind)
  {
    var zeros := Zeros(|kind| + 1 - |CString(kind)|) + rest;
    CStringStops(kind, [0]);
    CStringStops(CString(kind), zeros);
    assert StoreName(kind) + rest == CString(kind) + zeros;
  }

  /** The bytes of a buffer that the writer of a list broadcast has filled. */
  ghost predicate LaidOutToList(mem: seq<byte>, ids: seq<Id>, m: Message) {
    && |mem| == LIST_HEADER + ID_SIZE * |ids| + |m.payload|
    && mem[0] == m.messageType
    && mem[2..4] == Store(|ids|, 2)
    && (|ids| <= UINT16_MAX ==> mem[LIST_HEADER..] == StoreIds(ids) + m.payload)
  }

  lemma IdsRead(mem: seq<byte>, ids: seq<Id>, payload: seq<byte>)
    requires mem == StoreIds(ids) + payload && forall id <- ids :: IsId(id)
    ensures LoadIds(mem, |ids|) == ids
  {
    StoredIds(ids, payload);
  }

  lemma Behind(mem: seq<byte>, at: nat, a: seq<byte>, b: seq<byte>)
    requires at <= |mem| && mem[at..] == a + b
    ensures |mem| == at + |a| + |b| && mem[at + |a|..at + |a| + |b|] == b
  {
    assert mem == mem[..at] + (a + b);
  }

  lemma DecodesToListWell(mem: seq<byte>, ids: seq<Id>, m: Message)
    requires LaidOutToList(mem, ids, m) && (forall id <- ids :: IsId(id)) && |m.payload| <= UINT16_MAX
    requires |ids| <= UINT16_MAX
    ensures DecodeToList(mem, |mem| % 0x1_0000_0000) == Some(ToList(ids, m))
  {
    ListCounts(mem, ids, m);
    IdsRead(mem[LIST_HEADER..], ids, m.payload);
    Behind(mem, LIST_HEADER, StoreIds(ids), m.payload);
  }

  lemma ListCounts(mem: seq<byte>, ids: seq<Id>, m: Message)
    requires LaidOutToList(mem, ids, m) && |m.payload| <= UINT16_MAX && |ids| <= UINT16_MAX
    ensures Load(mem[2..4]) == |ids|
    ensures (|mem| % 0x1_0000_0000 - (LIST_HEADER + ID_SIZE * |ids|)) % 0x1_0000 == |m.payload|
  {
    Widths();
    SmallMod(|ids|, 2);
  }

  lemma DecodesToListBadly(mem: seq<byte>, ids: seq<Id>, m: Message)
    requires LaidOutToList(mem, ids, m) && |ids| > UINT16_MAX
    ensures DecodeToList(mem, |mem| % 0x1_0000_0000) != Some(ToList(ids, m))
  {
    Widths();
  }

  lemma DecodesToList(mem: seq<byte>, ids: seq<Id>, m: Message)
    requires LaidOutToList(mem, ids, m) && (forall id <- ids :: IsId(id)) && |m.payload| <= UINT16_MAX
    ensures DecodeToList(mem, |mem| % 0x1_0000_0000) == Some(ToList(ids, m)) <==> |ids| <= UINT16_MAX
  {
    if |ids| <= UINT16_MAX {
      DecodesToListWell(mem, ids, m);
    } else {
      DecodesToListBadly(mem, ids, m);
    }
  }

  /** The broadcast to a list of ids; nothing is sent for an empty list. The net side decodes exactly what
      was passed, if and only if the number of ids fits the packet's 16-bit count. */
  method EncodeToList(ids: seq<Id>, messageType: byte, payload: seq<byte>) returns (sent: bool, buf: array<byte>, dataSize: nat)
    requires (forall id <- ids :: IsId(id)) && |payload| <= UINT16_MAX
    ensures fresh(buf) && (sent <==> ids != [])
    ensures sent ==> LaidOutToList(buf[..], ids, Message(messageType, payload))
    ensures sent ==> (DecodeToList(buf[..], dataSize) == Some(ToList(ids, Message(messageType, payload)))
                      <==> |ids| <= UINT16_MAX)
  {
    if ids == [] {
      buf := new byte[0];
      return false, buf, 0;
    }
    sent := true;
    buf := new byte[LIST_HEADER + |payload| + ID_SIZE * |ids|];
    StoreTruncates(|ids|);
    CopyIn(buf, 0, [messageType]);
    CopyIn(buf, 2, Store(|ids| % 0x1_0000, 2));
    FillIdsAndPayload(buf, LIST_HEADER, ids, payload);
    dataSize := (LIST_HEADER + |payload| + ID_SIZE * |ids|) % 0x1_0000_0000;
    DecodesToList(buf[..], ids, Message(messageType, payload));
  }

  lemma StoreTruncates(n: nat)
    ensures Store(n % 0x1_0000, 2) == Store(n, 2)
  {
    assert Store(n, 1) == [(n % 256) as byte] + Store(n / 256, 0);
    assert n % 0x1_0000 % 256 == n % 256 && n % 0x1_0000 / 256 == n / 256 % 256;
    assert Store(n / 256, 1) == [(n / 256 % 256) as byte] + [];
  }

  /** The bytes of a buffer that the writer of a type broadcast has filled. */
  ghost predicate LaidOutToKind(mem: seq<byte>, kind: Name, excluded: seq<Id>, m: Message) {
    && |mem| == KIND_HEADER + |kind| + ID_SIZE * |excluded| + |m.payload|
    && mem[0] == m.messageType
    && mem[2..4] == Store(|excluded|, 2)
    && mem[4..6] == Store(|kind|, 2)
    && (|excluded| <= UINT16_MAX ==>
          mem[KIND_HEADER + |kind|..] == StoreIds(excluded) + m.payload)
    && mem[KIND_AT..KIND_AT + |kind| + 1] == StoreName(kind)
  }

  lemma KindRead(mem: seq<byte>, kind: Name, excluded: seq<Id>, m: Message)
    requires LaidOutToKind(mem, kind, excluded, m)
    ensures CString(mem[KIND_AT..]) == CString(kind)
    ensures CString(kind) == kind <==> NoNul(kind)
  {
    var nameEnd := KIND_AT + |kind| + 1;
    assert mem[KIND_AT..] == mem[KIND_AT..nameEnd] + mem[nameEnd..];
    StoredName(kind, mem[nameEnd..]);
  }

  lemma DecodesToKindWell(mem: seq<byte>, kind: Name, excluded: seq<Id>, m: Message)
    requires LaidOutToKind(mem, kind, excluded, m) && |kind| <= UINT16_MAX
    requires (forall id <- excluded :: IsId(id)) && |m.payload| <= UINT16_MAX
    requires NoNul(kind) && |excluded| <= UINT16_MAX
    ensures DecodeToKind(mem, |mem| % 0x1_0000_0000) == Some(ToKind(kind, excluded, m))
  {
    DecodesWhereFound(mem, kind, excluded, m);
    assert mem[ExcludedAt(kind)..] == StoreIds(excluded) + m.payload;
  }

  /** Where the net side looks for the excluded ids: the length of the type name is kept modulo 2^16. */
  function ExcludedAt(kind: Name): (at: nat)
    ensures |kind| <= UINT16_MAX ==> at == KIND_HEADER + |kind|
  {
    KIND_HEADER + |kind| % UINT16_COUNT
  }

  /** The ids and the payload are where the net side looks for them. */
  ghost predicate FoundToKind(mem: seq<byte>, kind: Name, excluded: seq<Id>, m: Message) {
    IsAt(mem, ExcludedAt(kind), StoreIds(excluded) + m.payload)
  }

  ghost predicate IsAt(mem: seq<byte>, at: nat, bytes: seq<byte>) {
    at + |bytes| <= |mem| && Stretch(mem, at, |bytes|) == bytes
  }

  /** What the net side decodes, wherever that is. */
  lemma DecodedToKind(mem: seq<byte>, dataSize: nat, at: nat, payloadAt: nat, kind: Name, excluded: seq<Id>, m: Message)
    requires LaidOutToKind(mem, kind, excluded, m) && NoNul(kind) && |excluded| <= UINT16_MAX && |m.payload| <= UINT16_MAX
    requires dataSize == |mem| % 0x1_0000_0000 && at == ExcludedAt(kind) && payloadAt == at + ID_SIZE * |excluded|
    ensures payloadAt + |m.payload| <= |mem|
    ensures DecodeToKind(mem, dataSize)
            == Some(ToKind(kind, LoadIds(mem[at..], |excluded|), Message(m.messageType, Stretch(mem, payloadAt, |m.payload|))))
  {
    CountsRead(mem, kind, excluded);
    KindRead(mem, kind, excluded, m);
    PayloadLengthToKind(|mem|, dataSize, payloadAt, |kind|, ID_SIZE * |excluded|, |m.payload|);
    RegionsToKind(mem, dataSize, kind, at, |excluded|, payloadAt, |m.payload|);
  }

  function Stretch(mem: seq<byte>, at: nat, length: nat): seq<byte>
    requires at + length <= |mem|
  {
    mem[at..at + length]
  }

  /** What is decoded from a buffer whose fields give these positions and lengths. */
  lemma RegionsToKind(mem: seq<byte>, dataSize: nat, kind: Name, at: nat, count: nat, payloadAt: nat, length: nat)
    requires |mem| >= KIND_HEADER && Load(mem[2..4]) == count && KIND_HEADER + Load(mem[4..6]) == at
    requires payloadAt == at + ID_SIZE * count && payloadAt + length <= |mem| && (dataSize - payloadAt) % 0x1_0000 == length
    requires CString(mem[KIND_AT..]) == kind
    ensures DecodeToKind(mem, dataSize)
            == Some(ToKind(kind, LoadIds(mem[at..], count), Message(mem[0], Stretch(mem, payloadAt, length))))
  {
  }

  lemma DecodesWhereFound(mem: seq<byte>, kind: Name, excluded: seq<Id>, m: Message)
    requires LaidOutToKind(mem, kind, excluded, m) && NoNul(kind) && |excluded| <= UINT16_MAX
    requires (forall id <- excluded :: IsId(id)) && |m.payload| <= UINT16_MAX
    ensures DecodeToKind(mem, |mem| % 0x1_0000_0000) == Some(ToKind(kind, excluded, m)) <==> FoundToKind(mem, kind, excluded, m)
  {
    var at, payloadAt := ExcludedAt(kind), ExcludedAt(kind) + ID_SIZE * |excluded|;
    DecodedToKind(mem, |mem| % 0x1_0000_0000, at, payloadAt, kind, excluded, m);
    SameToKind(kind, LoadIds(mem[at..], |excluded|), Stretch(mem, payloadAt, |m.payload|), excluded, m);
    LoadedIff(mem, at, payloadAt, excluded, m.payload);
  }

  lemma SameToKind(kind: Name, ids: seq<Id>, payload: seq<byte>, excluded: seq<Id>, m: Message)
    ensures Some(ToKind(kind, ids, Message(m.messageType, payload))) == Some(ToKind(kind, excluded, m))
            <==> ids == excluded && payload == m.payload
  {
  }

  lemma LoadedIff(mem: seq<byte>, at: nat, payloadAt: nat, ids: seq<Id>, payload: seq<byte>)
    requires payloadAt == at + ID_SIZE * |ids| && payloadAt + |payload| <= |mem| && forall id <- ids :: IsId(id)
    ensures LoadIds(mem[at..], |ids|) == ids && Stretch(mem, payloadAt, |payload|) == payload
            <==> IsAt(mem, at, StoreIds(ids) + payload)
  {
    IdsAtIff(mem, at, ids, |StoreIds(ids)|);
    TwoStretches(mem, at, StoreIds(ids), payloadAt, payload);
  }

  lemma IdsAtIff(mem: seq<byte>, at: nat, ids: seq<Id>, size: nat)
    requires size == ID_SIZE * |ids| && at + size <= |mem| && forall id <- ids :: IsId(id)
    ensures LoadIds(mem[at..], |ids|) == ids <==> Stretch(mem, at, size) == StoreIds(ids)
  {
    StretchFrom(mem, at, size);
    IdsLoadedIff(mem[at..], ids, size);
  }

  lemma StretchFrom(mem: seq<byte>, at: nat, length: nat)
    requires at + length <= |mem|
    ensures mem[at..][..length] == Stretch(mem, at, length)
  {
  }

  lemma TwoStretches(mem: seq<byte>, at: nat, a: seq<byte>, next: nat, b: seq<byte>)
    requires next == at + |a| && next + |b| <= |mem|
    ensures IsAt(mem, at, a + b) <==> Stretch(mem, at, |a|) == a && Stretch(mem, next, |b|) == b
  {
    var x, y := Stretch(mem, at, |a|), Stretch(mem, next, |b|);
    assert Stretch(mem, at, |a + b|) == x + y;
    if x + y == a + b {
      assert (x + y)[..|a|] == x && (a + b)[..|a|] == a;
      assert (x + y)[|a|..] == y && (a + b)[|a|..] == b;
    }
  }

  lemma IdsLoadedIff(mem: seq<byte>, ids: seq<Id>, size: nat)
    requires size == ID_SIZE * |ids| <= |mem| && forall id <- ids :: IsId(id)
    ensures LoadIds(mem, |ids|) == ids <==> mem[..size] == StoreIds(ids)
  {
    var front, rest := mem[..size], mem[size..];
    assert mem == front + rest;
    LoadedIds(mem, |ids|);
    if front == StoreIds(ids) {
      StoredIds(ids, rest);
    }
  }

  /** Whatever ids are loaded are stored as the bytes they came from. */
  lemma {:induction false} LoadedIds(mem: seq<byte>, count: nat)
    requires ID_SIZE * count <= |mem|
    ensures StoreIds(LoadIds(mem, count)) == mem[..ID_SIZE * count]
  {
    if count > 0 {
      StoreLoad(mem[..ID_SIZE]);
      LoadedIds(mem[ID_SIZE..], count - 1);
      assert LoadIds(mem, count)[1..] == LoadIds(mem[ID_SIZE..], count - 1);
      assert mem[..ID_SIZE * count] == mem[..ID_SIZE] + mem[ID_SIZE..][..ID_SIZE * (count - 1)];
    }
  }

  lemma PayloadLengthToKind(size: nat, dataSize: nat, payloadAt: nat, length: nat, ids: nat, n: nat)
    requires n <= UINT16_MAX && size == KIND_HEADER + length + ids + n && dataSize == size % 0x1_0000_0000
    requires payloadAt == KIND_HEADER + length % UINT16_COUNT + ids
    ensures (dataSize - payloadAt) % 0x1_0000 == n && payloadAt + n <= size
  {
    var k := length / UINT16_COUNT - 0x1_0000 * (size / 0x1_0000_0000);
    ModUnique(dataSize - payloadAt, 0x1_0000, k, n);
  }

  lemma CountsRead(mem: seq<byte>, kind: Name, excluded: seq<Id>)
    requires |mem| >= KIND_HEADER && |excluded| <= UINT16_MAX
    requires mem[2..4] == Store(|excluded|, 2) && mem[4..6] == Store(|kind|, 2)
    ensures Load(mem[2..4]) == |excluded| && Load(mem[4..6]) == |kind| % UINT16_COUNT
  {
    Widths();
    SmallMod(|excluded|, 2);
    LoadStore(|kind|, 2);
  }

  lemma DecodesToKindBadly(mem: seq<byte>, kind: Name, excluded: seq<Id>, m: Message)
    requires LaidOutToKind(mem, kind, excluded, m)
    requires !NoNul(kind) || |excluded| > UINT16_MAX
    ensures DecodeToKind(mem, |mem| % 0x1_0000_0000) != Some(ToKind(kind, excluded, m))
  {
    Widths();
    KindRead(mem, kind, excluded, m);
  }

  function Excluded(exclude: Option<seq<Id>>): seq<Id> {
    if exclude.Some? then exclude.value else []
  }

  /** The broadcast to a type. The net side decodes exactly what was passed if and only if the name holds no NUL,
      the excluded ids fit their count, and what stands where it looks for the ids is the ids and the payload: with
      a type name that fits its 16-bit length it is. */
  method EncodeToKind(kind: Name, messageType: byte, payload: seq<byte>, exclude: Option<seq<Id>>)
    returns (buf: array<byte>, dataSize: nat)
    requires |payload| <= UINT16_MAX
    requires exclude.Some? ==> forall id <- exclude.value :: IsId(id)
    ensures fresh(buf)
    ensures LaidOutToKind(buf[..], kind, Excluded(exclude), Message(messageType, payload))
    ensures DecodeToKind(buf[..], dataSize) == Some(ToKind(kind, Excluded(exclude), Message(messageType, payload)))
            <==> && NoNul(kind) && |Excluded(exclude)| <= UINT16_MAX
                 && FoundToKind(buf[..], kind, Excluded(exclude), Message(messageType, payload))
    ensures |kind| <= UINT16_MAX && |Excluded(exclude)| <= UINT16_MAX ==>
              FoundToKind(buf[..], kind, Excluded(exclude), Message(messageType, payload))
  {
    var excluded := Excluded(exclude);
    buf := new byte[KIND_HEADER + |payload| + ID_SIZE * |excluded| + |kind|];
    FillToKind(buf, kind, excluded, Message(messageType, payload));
    dataSize := (KIND_HEADER + |kind| + |payload| + ID_SIZE * |excluded|) % 0x1_0000_0000;
    ghost var mem := buf[..];
    assert dataSize == |mem| % 0x1_0000_0000;
    DecodesToKind(mem, kind, excluded, Message(messageType, payload));
  }

  lemma DecodesToKind(mem: seq<byte>, kind: Name, excluded: seq<Id>, m: Message)
    requires LaidOutToKind(mem, kind, excluded, m)
    requires (forall id <- excluded :: IsId(id)) && |m.payload| <= UINT16_MAX
    ensures DecodeToKind(mem, |mem| % 0x1_0000_0000) == Some(ToKind(kind, excluded, m))
            <==> NoNul(kind) && |excluded| <= UINT16_MAX && FoundToKind(mem, kind, excluded, m)
    ensures |kind| <= UINT16_MAX && |excluded| <= UINT16_MAX ==> FoundToKind(mem, kind, excluded, m)
  {
    if NoNul(kind) && |excluded| <= UINT16_MAX {
      DecodesWhereFound(mem, kind, excluded, m);
    } else {
      DecodesToKindBadly(mem, kind, excluded, m);
    }
  }

  /** With a longer type name the net side looks inside the name. */
  lemma FoundInName(mem: seq<byte>, kind: Name, excluded: seq<Id>, m: Message)
    requires LaidOutToKind(mem, kind, excluded, m) && NoNul(kind) && |kind| > UINT16_MAX
    requires 2 + |kind| % UINT16_COUNT + ID_SIZE * |excluded| + |m.payload| <= |kind|
    ensures FoundToKind(mem, kind, excluded, m) <==> IsAt(kind, 2 + |kind| % UINT16_COUNT, StoreIds(excluded) + m.payload)
  {
    var skip, tail := 2 + |kind| % UINT16_COUNT, StoreIds(excluded) + m.payload;
    NameStored(kind);
    AtInName(mem, kind, skip, tail);
  }

  lemma AtInName(mem: seq<byte>, kind: Name, skip: nat, tail: seq<byte>)
    requires KIND_AT + |kind| < |mem| && mem[KIND_AT..KIND_AT + |kind| + 1] == kind + [0] && skip + |tail| <= |kind|
    ensures IsAt(mem, KIND_AT + skip, tail) <==> IsAt(kind, skip, tail)
  {
    SameStretch(mem, KIND_AT, kind + [0], skip, |tail|);
    SameStretch(kind + [0], 0, kind, skip, |tail|);
  }

  /** Where there is nothing to look for, a type name of any length does no harm. */
  lemma NothingToFind(mem: seq<byte>, kind: Name, m: Message)
    requires LaidOutToKind(mem, kind, [], m) && NoNul(kind) && m.payload == []
    ensures DecodeToKind(mem, |mem| % 0x1_0000_0000) == Some(ToKind(kind, [], m))
  {
    assert StoreIds([]) + m.payload == [];
    DecodesToKind(mem, kind, [], m);
  }

  lemma NameStored(kind: Name)
    requires NoNul(kind)
    ensures StoreName(kind) == kind + [0]
  {
    CStringStops(kind, [0]);
  }

  lemma SameStretch(mem: seq<byte>, at: nat, part: seq<byte>, skip: nat, length: nat)
    requires at + |part| <= |mem| && mem[at..at + |part|] == part && skip + length <= |part|
    ensures Stretch(mem, at + skip, length) == Stretch(part, skip, length)
  {
    var a, b := Stretch(mem, at + skip, length), Stretch(part, skip, length);
    forall i | 0 <= i < length ensures a[i] == b[i] {
      assert mem[at..at + |part|][skip + i] == part[skip + i];
    }
  }

  method FillToKind(buf: array<byte>, kind: Name, excluded: seq<Id>, m: Message)
    requires buf.Length == KIND_HEADER + |kind| + ID_SIZE * |excluded| + |m.payload|
    modifies buf
    ensures LaidOutToKind(buf[..], kind, excluded, m)
  {
    FillKindHeader(buf, kind, excluded, m.messageType);
    FillIdsAndPayload(buf, KIND_HEADER + |kind|, excluded, m.payload);
    LaidOutPointwise(buf[..], kind, excluded, m);
  }

  /** The header's fields, and behind them the name, each in its own region. */
  method FillKindHeader(buf: array<byte>, kind: Name, excluded: seq<Id>, messageType: byte)
    requires buf.Length >= KIND_HEADER + |kind|
    modifies buf
    ensures HeaderRegions(buf[..], messageType, Store(|excluded|, 2), Store(|kind|, 2), StoreName(kind))
  {
    StoreTruncates(|kind|);
    StoreTruncates(|excluded|);
    CopyIn(buf, 4, Store(|kind| % 0x1_0000, 2));
    CopyIn(buf, KIND_AT, StoreName(kind));
    CopyIn(buf, 0, [messageType]);
    var count := if excluded == [] then 0 else |excluded| % 0x1_0000;
    FillCount(buf, messageType, Store(count, 2), Store(|kind|, 2), StoreName(kind), excluded != []);
  }

  ghost predicate HeaderRegions(mem: seq<byte>, messageType: byte, count: seq<byte>, length: seq<byte>, name: seq<byte>) {
    && |count| == |length| == 2 && |mem| >= KIND_AT + |name| && mem[0] == messageType
    && (forall i | 0 <= i < 2 :: mem[2 + i] == count[i])
    && (forall i | 0 <= i < 2 :: mem[4 + i] == length[i])
    && (forall i | 0 <= i < |name| :: mem[KIND_AT + i] == name[i])
  }

  /** The count is zeroed, then set if there is something to count. */
  method FillCount(buf: array<byte>, messageType: byte, count: seq<byte>, ghost length: seq<byte>, ghost name: seq<byte>, some: bool)
    requires |count| == |length| == 2 && buf.Length >= KIND_AT + |name| && (some || count == Store(0, 2))
    requires buf[0] == messageType && (forall i | 0 <= i < 2 :: buf[4 + i] == length[i])
    requires forall i | 0 <= i < |name| :: buf[KIND_AT + i] == name[i]
    modifies buf
    ensures HeaderRegions(buf[..], messageType, count, length, name)
  {
    CopyIn(buf, 2, Store(0, 2));
    if some {
      CopyIn(buf, 2, count);
    }
  }

  /** The ids, and behind as many of them as the 16-bit count says, the payload. */
  method FillIdsAndPayload(buf: array<byte>, at: nat, ids: seq<Id>, payload: seq<byte>)
    requires buf.Length == at + ID_SIZE * |ids| + |payload|
    modifies buf
    ensures forall i | 0 <= i < at :: buf[i] == old(buf[i])
    ensures |ids| <= UINT16_MAX ==> forall i | at <= i < buf.Length :: buf[i] == (StoreIds(ids) + payload)[i - at]
  {
    var count := |ids| % 0x1_0000;
    if ids != [] {
      CopyIn(buf, at, StoreIds(ids));
    }
    CopyIn(buf, at + ID_SIZE * count, payload);
  }

  lemma LaidOutPointwise(mem: seq<byte>, kind: Name, excluded: seq<Id>, m: Message)
    requires |mem| == KIND_HEADER + |kind| + ID_SIZE * |excluded| + |m.payload|
    requires HeaderRegions(mem, m.messageType, Store(|excluded|, 2), Store(|kind|, 2), StoreName(kind))
    requires |excluded| <= UINT16_MAX ==>
               var idsAt := KIND_HEADER + |kind|;
               forall i | idsAt <= i < |mem| :: mem[i] == (StoreIds(excluded) + m.payload)[i - idsAt]
    ensures LaidOutToKind(mem, kind, excluded, m)
  {
    HeaderSlices(mem, m.messageType, Store(|excluded|, 2), Store(|kind|, 2), StoreName(kind));
    if |excluded| <= UINT16_MAX {
      assert mem[KIND_HEADER + |kind|..] == StoreIds(excluded) + m.payload;
    }
  }

  lemma HeaderSlices(mem: seq<byte>, messageType: byte, count: seq<byte>, length: seq<byte>, name: seq<byte>)
    requires HeaderRegions(mem, messageType, count, length, name)
    ensures mem[2..4] == count && mem[4..6] == length && mem[KIND_AT..KIND_AT + |name|] == name
  {
  }
}
