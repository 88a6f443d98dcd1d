/** What a batch of packets hands to each connection. */
module NetDelivery {
  import opened Basics
  import opened Bytes
  import opened ConnectionIndex
  import opened Broadcast
  import opened NetRunnable

  /** The messages handed to a connection, in order. */
  function Inbox(sent: seq<Delivery<Message>>, c: Connection): seq<Message> {
    if sent == [] then [] else (if sent[0].to == c then [sent[0].message] else []) + Inbox(sent[1..], c)
  }

  /** The same message so many times. */
  function Times(m: Message, n: nat): seq<Message> { seq(n, _ => m) }

  /** The connection was live when the batch came, and has not been acknowledged away since. */
  predicate Live(ix: Index, gone: set<Id>, c: Connection) {
    c.id in ix.byId && ix.byId[c.id] == c && c.id !in gone
  }

  /** What a packet is for c, with the connections of `gone` acknowledged away before it. */
  function Reaches(ix: Index, gone: set<Id>, p: Packet, c: Connection): seq<Message> {
    match p
    case SendDirect(d, m) => if d == c then [m] else []
    case SendById(id, m) => if id == c.id && Live(ix, gone, c) then [m] else []
    case BroadcastToList(buf, dataSize) =>
      (match DecodeToList(buf, dataSize)
       case None => []
       case Some(b) => if Live(ix, gone, c) then Times(b.message, multiset(b.ids)[c.id]) else [])
    case BroadcastToKind(buf, dataSize) =>
      (match DecodeToKind(buf, dataSize)
       case None => []
       case Some(b) => if Live(ix, gone, c) && c.kind == b.kind && c.id !in b.excluded then [b.message] else [])
    case _ => []
  }

  /** The messages of a batch for c: those of its packets, up to the first send to an id that is unknown or has been
      acknowledged away. */
  function Reaching(ix: Index, gone: set<Id>, packets: seq<Packet>, c: Connection): seq<Message>
    decreases |packets|
  {
    if packets == [] then []
    else if packets[0].SendById? && (packets[0].id !in ix.byId || packets[0].id in gone) then []
    else
      var gone' := if packets[0].DisconnectAck? then gone + {packets[0].id} else gone;
      Reaches(ix, gone, packets[0], c) + Reaching(ix, gone', packets[1..], c)
  }

  lemma {:induction false} InboxJoins(a: seq<Delivery<Message>>, b: seq<Delivery<Message>>, c: Connection)
    ensures Inbox(a + b, c) == Inbox(a, c) + Inbox(b, c)
  {
    if a == [] {
      assert a + b == b;
    } else {
      InboxJoins(a[1..], b, c);
      assert (a + b)[1..] == a[1..] + b;
      Regroup(if a[0].to == c then [a[0].message] else [], Inbox(a[1..], c), Inbox(b, c), []);
    }
  }

  lemma {:induction false} InboxOfDeliveries(to: seq<Connection>, m: Message, c: Connection)
    ensures Inbox(Deliveries(to, m), c) == Times(m, multiset(to)[c])
  {
    if to != [] {
      InboxOfDeliveries(to[1..], m, c);
      assert to == [to[0]] + to[1..];
      assert Deliveries(to, m)[1..] == Deliveries(to[1..], m);
    }
  }

  lemma TimesNext(m: Message, n: nat)
    ensures Times(m, n + 1) == [m] + Times(m, n) && Times(m, 0) == []
  {
  }

  function SendOne(ix: Index, id: Id, m: Message): seq<Delivery<Message>> {
    if id in ix.byId then [Delivery(ix.byId[id], m)] else []
  }

  lemma InboxOfOne(ix: Index, id: Id, m: Message, c: Connection)
    requires ix.Valid()
    ensures Inbox(SendOne(ix, id, m), c) == if id == c.id && Live(ix, {}, c) then [m] else []
  {
  }

  lemma ListedNext(ids: seq<Id>, id: Id)
    requires ids != []
    ensures multiset(ids)[id] == multiset(ids[1..])[id] + if ids[0] == id then 1 else 0
  {
    assert ids == [ids[0]] + ids[1..];
  }

  lemma {:induction false} InboxOfEach(ix: Index, ids: seq<Id>, m: Message, c: Connection)
    requires ix.Valid()
    ensures Inbox(SendEach(ix, ids, m), c) == if Live(ix, {}, c) then Times(m, multiset(ids)[c.id]) else []
  {
    if ids != [] {
      InboxOfEach(ix, ids[1..], m, c);
      ListedNext(ids, c.id);
      TimesNext(m, multiset(ids[1..])[c.id]);
      InboxOfOne(ix, ids[0], m, c);
      InboxJoins(SendOne(ix, ids[0], m), SendEach(ix, ids[1..], m), c);
    }
  }

  lemma SentDelivers(sent: seq<Delivery<Message>>, d: Connection, m: Message, c: Connection)
    ensures Inbox(sent + Deliveries([d], m), c) == Inbox(sent, c) + if d == c then [m] else []
  {
    InboxJoins(sent, Deliveries([d], m), c);
    InboxOfDeliveries([d], m, c);
    TimesNext(m, 0);
  }

  lemma ByIdDelivers(net: Net, id: Id, m: Message, ix: Index, gone: set<Id>, c: Connection)
    requires net.index.Valid() && net.index.byId == ix.byId - gone && id in net.index.byId
    ensures var p := SendById(id, m);
            Inbox(Handle(net, p).sent, c) == Inbox(net.sent, c) + Reaches(ix, gone, p, c)
  {
    SentDelivers(net.sent, net.index.byId[id], m, c);
  }

  /** One packet, whatever it is. */
  lemma PacketDelivers(net: Net, p: Packet, ix: Index, gone: set<Id>, c: Connection)
    requires net.index.Valid() && net.index.byId == ix.byId - gone && !Abandons(net, p)
    ensures Inbox(Handle(net, p).sent, c) == Inbox(net.sent, c) + Reaches(ix, gone, p, c)
  {
    match p
    case SendDirect(d, m) => SentDelivers(net.sent, d, m, c);
    case SendById(id, m) => ByIdDelivers(net, id, m, ix, gone, c);
    case BroadcastToList(buf, dataSize) => ListDelivers(net, buf, dataSize, ix, gone, c);
    case BroadcastToKind(buf, dataSize) => KindDelivers(net, buf, dataSize, ix, gone, c);
    case _ =>
  }

  lemma ListDelivers(net: Net, buf: seq<byte>, dataSize: nat, ix: Index, gone: set<Id>, c: Connection)
    requires net.index.Valid() && net.index.byId == ix.byId - gone
    ensures var p := BroadcastToList(buf, dataSize);
            Inbox(Handle(net, p).sent, c) == Inbox(net.sent, c) + Reaches(ix, gone, p, c)
  {
    match DecodeToList(buf, dataSize)
    case None =>
    case Some(b) =>
      InboxJoins(net.sent, SendEach(net.index, b.ids, b.message), c);
      InboxOfEach(net.index, b.ids, b.message, c);
  }

  lemma KindDelivers(net: Net, buf: seq<byte>, dataSize: nat, ix: Index, gone: set<Id>, c: Connection)
    requires net.index.Valid() && net.index.byId == ix.byId - gone
    ensures var p := BroadcastToKind(buf, dataSize);
            Inbox(Handle(net, p).sent, c) == Inbox(net.sent, c) + Reaches(ix, gone, p, c)
  {
    match DecodeToKind(buf, dataSize)
    case None =>
    case Some(b) => TargetsDeliver(net.index, net.sent, b.kind, b.excluded, b.message, c);
  }

  lemma TargetsDeliver(ix: Index, sent: seq<Delivery<Message>>, kind: Name, excluded: seq<Id>, m: Message, c: Connection)
    requires ix.Valid()
    ensures Inbox(sent + Deliveries(Targets(ix.OfType(kind), excluded), m), c)
            == Inbox(sent, c) + if Live(ix, {}, c) && c.kind == kind && c.id !in excluded then [m] else []
  {
    var targets := Targets(ix.OfType(kind), excluded);
    InboxJoins(sent, Deliveries(targets, m), c);
    InboxOfDeliveries(targets, m, c);
    ReachesExactlyOnce(ix, kind, excluded, c);
    TimesNext(m, 0);
  }

  lemma {:induction false} BatchFrom(net: Net, packets: seq<Packet>, ix: Index, gone: set<Id>, c: Connection)
    requires net.index.Valid() && net.index.byId == ix.byId - gone
    ensures Inbox(HandleAll(net, packets).sent, c) == Inbox(net.sent, c) + Reaching(ix, gone, packets, c)
    decreases |packets|
  {
    if packets != [] && !Abandons(net, packets[0]) {
      var p, net' := packets[0], Handle(net, packets[0]);
      HandleKeepsValid(net, p);
      PacketDelivers(net, p, ix, gone, c);
      var gone' := if p.DisconnectAck? then gone + {p.id} else gone;
      assert net'.index.byId == ix.byId - gone';
      BatchFrom(net', packets[1..], ix, gone', c);
    }
  }

  /** Processing a batch hands to a connection, in order, the messages of the packets that are for it: direct sends
      and sends to its id, once for each time its id is in a list, once for each broadcast to its type that does not
      exclude it; until the batch ends or is given up. */
  lemma BatchDelivers(net: Net, packets: seq<Packet>, c: Connection)
    requires net.index.Valid()
    ensures Inbox(HandleAll(net, packets).sent, c) == Inbox(net.sent, c) + Reaching(net.index, {}, packets, c)
  {
    BatchFrom(net, packets, net.index, {}, c);
  }

  /** A direct send is handed to its connection once, and nothing else is handed to any. */
  lemma DirectDelivers(net: Net, c: Connection, m: Message, d: Delivery<Message>)
    ensures var net' := Handle(net, SendDirect(c, m));
            && net'.index == net.index && net.sent <= net'.sent
            && multiset(net'.sent[|net.sent|..])[d] == if d == Delivery(c, m) then 1 else 0
  {
    assert Handle(net, SendDirect(c, m)).sent[|net.sent|..] == [Delivery(c, m)];
  }

  /** A send to an id is handed to the connection live under it, once, if and only if there is one. */
  lemma IdDelivers(net: Net, id: Id, m: Message, d: Delivery<Message>)
    ensures var net' := Handle(net, SendById(id, m));
            && net'.index == net.index && net.sent <= net'.sent
            && multiset(net'.sent[|net.sent|..])[d] == if id in net.index.byId && d == Delivery(net.index.byId[id], m) then 1 else 0
  {
    if id in net.index.byId {
      assert Handle(net, SendById(id, m)).sent[|net.sent|..] == [Delivery(net.index.byId[id], m)];
    }
  }
}
