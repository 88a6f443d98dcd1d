/** The net thread's handling of one received batch of packets. */
module NetRunnable {
  import opened Basics
  import opened Bytes
  import opened ConnectionIndex
  import opened Broadcast
  import Lifetime = ConnectionProtocol

  datatype Packet =
    | ConnectAck(c: Connection, success: bool)
    | SendDirect(c: Connection, message: Message)
    | DisconnectAck(id: Id)
    | SendById(id: Id, message: Message)
    | Shutdown(id: Id)
    | BroadcastToList(buf: seq<byte>, dataSize: nat)
    | BroadcastToKind(buf: seq<byte>, dataSize: nat)
    | Other

  /** The index, and everything handed to connections so far. */
  datatype Net = Net(index: Index, sent: seq<Delivery<Message>>)

  function SendEach(ix: Index, ids: seq<Id>, m: Message): seq<Delivery<Message>> {
    if ids == [] then []
    else (if ids[0] in ix.byId then [Delivery(ix.byId[ids[0]], m)] else []) + SendEach(ix, ids[1..], m)
  }

  function Handle(net: Net, p: Packet): Net {
    match p
    case SendDirect(c, m) => net.(sent := net.sent + Deliveries([c], m))
    case DisconnectAck(id) => net.(index := Destroy(net.index, id))
    case SendById(id, m) =>
      if id in net.index.byId then net.(sent := net.sent + Deliveries([net.index.byId[id]], m)) else net
    case BroadcastToList(buf, dataSize) =>
      (match DecodeToList(buf, dataSize)
       case None => net
       case Some(b) => net.(sent := net.sent + SendEach(net.index, b.ids, b.message)))
    case BroadcastToKind(buf, dataSize) =>
      (match DecodeToKind(buf, dataSize)
       case None => net
       case Some(b) =>
         net.(sent := net.sent + Deliveries(Targets(net.index.OfType(b.kind), b.excluded), b.message)))
    case _ => net
  }

  /** A send to an id that is not connected makes the thread return from the whole batch. */
  predicate Abandons(net: Net, p: Packet) {
    p.SendById? && p.id !in net.index.byId
  }

  function HandleAll(net: Net, packets: seq<Packet>): Net
    decreases |packets|
  {
    if packets == [] || Abandons(net, packets[0]) then net
    else HandleAll(Handle(net, packets[0]), packets[1..])
  }

  lemma HandleKeepsValid(net: Net, p: Packet)
    requires net.index.Valid()
    ensures Handle(net, p).index.Valid()
    ensures Handle(net, p).index.byId == if p.DisconnectAck? then net.index.byId - {p.id} else net.index.byId
  {
    if p.DisconnectAck? {
      DestroyKeepsValid(net.index, p.id);
    }
  }

  class CNetRunnable {
    const mgr: CoreConnectionMgr<Message>

    constructor ()
      ensures fresh(mgr) && View() == Net(EMPTY, [])
    {
      mgr := new CoreConnectionMgr();
    }

    function View(): Net
      reads mgr
    {
      Net(mgr.View(), mgr.sent)
    }

    method HandlePacket(p: Packet)
      requires View().index.Valid() && !Abandons(View(), p)
      modifies mgr
      ensures View() == Handle(old(View()), p) && View().index.Valid()
    {
      HandleKeepsValid(View(), p);
      match p {
        case SendDirect(c, m) => mgr.SendTo(c, m);
        case DisconnectAck(id) => mgr.DestroyCoreConnection(id);
        case SendById(id, m) =>
          var c := mgr.GetCoreConnectionBySocketId(id);
          mgr.SendTo(c.value, m);
        case BroadcastToList(buf, dataSize) =>
          match DecodeToList(buf, dataSize) {
            case None =>
            case Some(b) => SendToList(b.ids, b.message);
          }
        case BroadcastToKind(buf, dataSize) =>
          match DecodeToKind(buf, dataSize) {
            case None =>
            case Some(b) => mgr.Broadcast(b.kind, b.message, b.excluded);
          }
        case _ =>
      }
    }

    method SendToList(ids: seq<Id>, m: Message)
      requires View().index.Valid()
      modifies mgr`sent
      ensures mgr.sent == old(mgr.sent) + SendEach(mgr.View(), ids, m)
    {
      for i := 0 to |ids|
        invariant mgr.sent + SendEach(mgr.View(), ids[i..], m) == old(mgr.sent) + SendEach(mgr.View(), ids, m)
      {
        var c := mgr.GetCoreConnectionBySocketId(ids[i]);
        if c.Some? {
          mgr.SendTo(c.value, m);
        }
      }
    }

    method ProcessBatch(packets: seq<Packet>)
      requires View().index.Valid()
      modifies mgr
      ensures View() == HandleAll(old(View()), packets) && View().index.Valid()
    {
      for i := 0 to |packets|
        invariant View().index.Valid()
        invariant HandleAll(View(), packets[i..]) == HandleAll(old(View()), packets)
      {
        if packets[i].SendById? {
          var c := mgr.GetCoreConnectionBySocketId(packets[i].id);
          if c == None {
            return;
          }
        }
        HandlePacket(packets[i]);
      }
    }
  }

  // ----- which disconnect-acks take effect

  /** Packet j, looked at before the batch starts, is one that will make the thread give up. */
  predicate GivesUpAt(net: Net, packets: seq<Packet>, j: nat)
    requires j < |packets|
  {
    packets[j].SendById? &&
    (packets[j].id !in net.index.byId || DisconnectAck(packets[j].id) in packets[..j])
  }

  predicate AckReached(net: Net, packets: seq<Packet>, id: Id) {
    exists i :: 0 <= i < |packets| && packets[i] == DisconnectAck(id)
                && forall j | 0 <= j < i :: !GivesUpAt(net, packets, j)
  }

  lemma AckReachedLater(net: Net, packets: seq<Packet>, id: Id)
    requires net.index.Valid() && packets != [] && !Abandons(net, packets[0])
    ensures packets[0] == DisconnectAck(id) ==> AckReached(net, packets, id)
    ensures packets[0] != DisconnectAck(id) ==>
              (AckReached(net, packets, id) <==> AckReached(Handle(net, packets[0]), packets[1..], id))
  {
    HandleKeepsValid(net, packets[0]);
    var net', rest := Handle(net, packets[0]), packets[1..];
    assert !GivesUpAt(net, packets, 0);
    forall j | 0 <= j < |rest| ensures GivesUpAt(net', rest, j) <==> GivesUpAt(net, packets, j + 1) {
      assert packets[..j + 1] == [packets[0]] + rest[..j];
    }
    if packets[0] != DisconnectAck(id) {
      if AckReached(net, packets, id) {
        var i :| 0 <= i < |packets| && packets[i] == DisconnectAck(id)
                 && forall j | 0 <= j < i :: !GivesUpAt(net, packets, j);
        assert rest[i - 1] == DisconnectAck(id);
      }
      if AckReached(net', rest, id) {
        var i :| 0 <= i < |rest| && rest[i] == DisconnectAck(id)
                 && forall j | 0 <= j < i :: !GivesUpAt(net', rest, j);
        assert packets[i + 1] == DisconnectAck(id);
        forall j | 0 <= j < i + 1 ensures !GivesUpAt(net, packets, j) {
          if j > 0 { assert GivesUpAt(net', rest, j - 1) <==> GivesUpAt(net, packets, j); }
        }
      }
    }
  }

  /** Processing a batch destroys a live connection if and only if the batch holds its disconnect-ack with
      no earlier send by an id that is unknown, or acked away, by then; otherwise the ack is dropped and
      the connection stays. */
  lemma {:induction false} DestroyedIffAckReached(net: Net, packets: seq<Packet>, id: Id)
    requires net.index.Valid() && id in net.index.byId
    ensures id !in HandleAll(net, packets).index.byId <==> AckReached(net, packets, id)
    decreases |packets|
  {
    if packets != [] {
      if Abandons(net, packets[0]) {
        assert GivesUpAt(net, packets, 0);
      } else {
        HandleKeepsValid(net, packets[0]);
        AckReachedLater(net, packets, id);
        if packets[0] == DisconnectAck(id) {
          StaysDestroyed(Handle(net, packets[0]), packets[1..], id);
        } else {
          DestroyedIffAckReached(Handle(net, packets[0]), packets[1..], id);
        }
      }
    }
  }

  lemma {:induction false} StaysDestroyed(net: Net, packets: seq<Packet>, id: Id)
    requires net.index.Valid() && id !in net.index.byId
    ensures id !in HandleAll(net, packets).index.byId
    decreases |packets|
  {
    if packets != [] && !Abandons(net, packets[0]) {
      HandleKeepsValid(net, packets[0]);
      StaysDestroyed(Handle(net, packets[0]), packets[1..], id);
    }
  }

  /** The failing batch: a send to an unknown id ahead of a disconnect-ack leaves the connection behind. */
  lemma AckCanBeDropped(net: Net, id: Id, unknown: Id, m: Message)
    requires net.index.Valid() && id in net.index.byId && unknown !in net.index.byId
    ensures id in HandleAll(net, [SendById(unknown, m), DisconnectAck(id)]).index.byId
  {
    var packets := [SendById(unknown, m), DisconnectAck(id)];
    assert GivesUpAt(net, packets, 0);
    DestroyedIffAckReached(net, packets, id);
  }

  // ----- the same step, as the lifetime protocol sees it

  function Abstract(p: Packet): Lifetime.Packet {
    match p
    case ConnectAck(c, success) => Lifetime.ConnectAck(c.id, success)
    case SendDirect(c, _) => Lifetime.SendDirect(c.id)
    case DisconnectAck(id) => Lifetime.DisconnectAck(id)
    case SendById(id, _) => Lifetime.SendById(id)
    case Shutdown(id) => Lifetime.Shutdown(id)
    case _ => Lifetime.Other
  }

  function AbstractAll(packets: seq<Packet>): (r: seq<Lifetime.Packet>)
    ensures |r| == |packets|
  {
    seq(|packets|, i requires 0 <= i < |packets| => Abstract(packets[i]))
  }

  /** Handling the first packet of a batch is the net thread's Handle step of the lifetime protocol: the
      live connections and the rest of the batch agree. */
  lemma HandleRefinesLifetime(net: Net, packets: seq<Packet>, s: Lifetime.State)
    requires net.index.Valid() && packets != []
    requires s.live == net.index.byId.Keys && s.batch == AbstractAll(packets)
    ensures var s' := Lifetime.HandleFirst(s);
            if Abandons(net, packets[0]) then s'.batch == [] && s'.live == net.index.byId.Keys
            else s'.batch == AbstractAll(packets[1..]) && s'.live == Handle(net, packets[0]).index.byId.Keys
  {
    HandleKeepsValid(net, packets[0]);
    assert s.batch[1..] == AbstractAll(packets[1..]);
  }

  // ----- broadcast, end to end

  /** From the buffer the logic side filled to the connections: each live connection of the type that is
      not excluded is handed the payload exactly once, and no other connection is handed anything. */
  lemma BroadcastToKindEndToEnd(net: Net, mem: seq<byte>, kind: Name, excluded: seq<Id>, m: Message, c: Connection)
    requires net.index.Valid() && LaidOutToKind(mem, kind, excluded, m)
    requires |kind| <= UINT16_MAX && NoNul(kind) && |excluded| <= UINT16_MAX && |m.payload| <= UINT16_MAX
    requires forall id <- excluded :: IsId(id)
    ensures var net' := Handle(net, BroadcastToKind(mem, |mem| % 0x1_0000_0000));
            && net'.index == net.index
            && net.sent <= net'.sent
            && (forall d <- net'.sent[|net.sent|..] :: d.message == m)
            && multiset(net'.sent[|net.sent|..])[Delivery(c, m)]
               == if c.id in net.index.byId && net.index.byId[c.id] == c && c.kind == kind && c.id !in excluded then 1 else 0
  {
    DecodesToKindWell(mem, kind, excluded, m);
    var targets := Targets(net.index.OfType(kind), excluded);
    var net' := Handle(net, BroadcastToKind(mem, |mem| % 0x1_0000_0000));
    assert net'.sent[|net.sent|..] == Deliveries(targets, m);
    DeliveriesCount(targets, m, c);
    ReachesExactlyOnce(net.index, kind, excluded, c);
  }

  lemma {:induction false} DeliveriesCount(to: seq<Connection>, m: Message, c: Connection)
    ensures multiset(Deliveries(to, m))[Delivery(c, m)] == multiset(to)[c]
  {
    if to != [] {
      DeliveriesCount(to[1..], m, c);
      assert to == [to[0]] + to[1..];
      assert Deliveries(to, m) == [Delivery(to[0], m)] + Deliveries(to[1..], m);
    }
  }

  /** A broadcast to a list hands the payload to a live connection once for each time its id is listed. */
  lemma BroadcastToListEndToEnd(net: Net, mem: seq<byte>, ids: seq<Id>, m: Message, c: Connection)
    requires net.index.Valid() && LaidOutToList(mem, ids, m)
    requires |ids| <= UINT16_MAX && |m.payload| <= UINT16_MAX && forall id <- ids :: IsId(id)
    ensures var net' := Handle(net, BroadcastToList(mem, |mem| % 0x1_0000_0000));
            && net'.index == net.index
            && net.sent <= net'.sent
            && multiset(net'.sent[|net.sent|..])[Delivery(c, m)]
               == if c.id in net.index.byId && net.index.byId[c.id] == c then multiset(ids)[c.id] else 0
  {
    DecodesToList(mem, ids, m);
    var net' := Handle(net, BroadcastToList(mem, |mem| % 0x1_0000_0000));
    assert net'.sent[|net.sent|..] == SendEach(net.index, ids, m);
    SendEachCount(net.index, ids, m, c);
  }

  lemma {:induction false} SendEachCount(ix: Index, ids: seq<Id>, m: Message, c: Connection)
    requires ix.Valid()
    ensures multiset(SendEach(ix, ids, m))[Delivery(c, m)]
            == if c.id in ix.byId && ix.byId[c.id] == c then multiset(ids)[c.id] else 0
  {
    if ids != [] {
      SendEachCount(ix, ids[1..], m, c);
      assert ids == [ids[0]] + ids[1..];
    }
  }
}
