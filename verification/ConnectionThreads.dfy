/** The objects through which the logic threads and the net thread take the steps of the connection lifetime. */
module ConnectionThreads {
  import opened Basics
  import opened ConnectionLifetime
  import opened ConnectionProtocol

  // ----- a connection is connected once

  /** At most one connect notification of c is anywhere, and none once c has had a base connection. */
  ghost predicate OnceAt(s: State, c: Conn) {
    && (forall q, i, j | 0 <= i < j < |s.Notes(q)| :: !(s.Notes(q)[i] == Connected(c) && s.Notes(q)[j] == Connected(c)))
    && (c in s.base + s.closing ==> forall q :: Connected(c) !in s.Notes(q))
    && (c !in s.connectPosted ==> c !in s.closing)
  }

  ghost predicate Once(s: State) { Inv(s) && forall c :: OnceAt(s, c) }

  lemma SameNotes(s: State, s': State, c: Conn)
    requires OnceAt(s, c) && (forall q :: s'.Notes(q) == s.Notes(q))
    requires s'.connectPosted == s.connectPosted && s'.base <= s.base && s'.closing <= s.base + s.closing
    requires Ok(s, c)
    ensures OnceAt(s', c)
  {
  }

  lemma PostOnce(s: State, n: Note, c: Conn)
    requires Once(s)
    requires if n.Connected? then Enabled(s, PostConnect(n.c)) else Enabled(s, PostDisconnect(n.c))
    ensures OnceAt(Step(s, if n.Connected? then PostConnect(n.c) else PostDisconnect(n.c)), c)
  {
    var s' := Step(s, if n.Connected? then PostConnect(n.c) else PostDisconnect(n.c));
    var owner := s.created[n.c];
    assert OnceAt(s, c) && Ok(s, c);
    assert forall q :: s'.Notes(q) == if q == owner then s.Notes(q) + [n] else s.Notes(q);
    if n == Connected(c) {
      assert !HasNote(s, c);
      forall q, i | 0 <= i < |s.Notes(q)| ensures s.Notes(q)[i] != Connected(c) {
        assert Mentions(s.Notes(q), c) ==> HasNote(s, c);
      }
    }
  }

  lemma TakeOnce(s: State, q0: Queue, s': State, c: Conn)
    requires Once(s) && s.Notes(q0) != []
    requires forall q :: s'.Notes(q) == if q == q0 then s.Notes(q)[1..] else s.Notes(q)
    requires s'.connectPosted == s.connectPosted && s'.closing == s.closing
    requires s'.base <= s.base + if s.Notes(q0)[0].Connected? then {s.Notes(q0)[0].c} else {}
    ensures OnceAt(s', c)
  {
    assert OnceAt(s, c) && Ok(s, c);
    if s.Notes(q0)[0] == Connected(c) {
      assert NotesOk(s, q0, c) && Mentions(s.Notes(q0), c);
      forall q, i | 0 <= i < |s'.Notes(q)| ensures s'.Notes(q)[i] != Connected(c) {
        assert NotesOk(s, q, c);
        assert s'.Notes(q)[i] == s.Notes(q)[if q == q0 then i + 1 else i];
        assert s'.Notes(q)[i] == Connected(c) ==> Mentions(s.Notes(q), c);
      }
    }
  }

  lemma DispatchOnce(s: State, q: Queue, accepted: bool, c: Conn)
    requires Once(s) && Enabled(s, DispatchConnect(q, accepted))
    ensures OnceAt(Step(s, DispatchConnect(q, accepted)), c)
  {
    TakeOnce(s, q, Step(s, DispatchConnect(q, accepted)), c);
  }

  lemma BeginOnce(s: State, q: Queue, c: Conn)
    requires Once(s) && Enabled(s, BeginDisconnect(q))
    ensures OnceAt(Step(s, BeginDisconnect(q)), c)
  {
    TakeOnce(s, q, Step(s, BeginDisconnect(q)), c);
  }

  lemma StepOnce(s: State, a: Action)
    requires Once(s) && Enabled(s, a)
    ensures Once(Step(s, a))
  {
    StepKeepsInv(s, a);
    forall c ensures OnceAt(Step(s, a), c) {
      assert OnceAt(s, c) && Ok(s, c);
      match a
      case PostConnect(d) => PostOnce(s, Connected(d), c);
      case PostDisconnect(d) => PostOnce(s, Disconnected(d), c);
      case DispatchConnect(q, accepted) => DispatchOnce(s, q, accepted, c);
      case BeginDisconnect(q) => BeginOnce(s, q, c);
      case _ => SameNotes(s, Step(s, a), c);
    }
  }

  lemma {:induction false} RunOnce(s: State, actions: seq<Action>)
    requires Once(s) && Runs(s, actions)
    ensures Once(After(s, actions))
    decreases |actions|
  {
    if actions != [] {
      StepOnce(s, actions[0]);
      RunOnce(Step(s, actions[0]), actions[1..]);
    }
  }

  /** In every run, a connect notification about to be dispatched is of a connection that never had a base
      connection, so none that was asked to shut down. */
  lemma ConnectedIsNew(actions: seq<Action>, q: Queue, accepted: bool)
    requires Runs(INITIAL, actions) && Enabled(After(INITIAL, actions), DispatchConnect(q, accepted))
    ensures var s := After(INITIAL, actions); s.Notes(q)[0].c !in s.base + s.closing
  {
    InitialInv();
    RunOnce(INITIAL, actions);
    var s := After(INITIAL, actions);
    assert OnceAt(s, s.Notes(q)[0].c);
    assert Connected(s.Notes(q)[0].c) in s.Notes(q);
  }

  /** Notifications of a connection are in the queue of its own service. */
  lemma NotedByOwner(s: State, q: Queue, c: Conn)
    requires Inv(s) && s.Notes(q) != [] && s.Notes(q)[0].c == c
    ensures c in s.created && s.created[c] == q
  {
    assert Ok(s, c) && NotesOk(s, q, c) && Mentions(s.Notes(q), c);
  }

  // ----- the objects

  /** The queue to the net thread; each method runs under its lock. */
  class CNetMessageQueue {
    var packets: seq<Packet>

    constructor ()
      ensures packets == []
    {
      packets := [];
    }

    method SendPacket(p: Packet)
      modifies this
      ensures packets == old(packets) + [p]
    {
      packets := packets + [p];
    }

    /** The receiver's vector, cleared, is swapped with the queue's. */
    method Recv() returns (batch: seq<Packet>)
      modifies this
      ensures batch == old(packets) && packets == []
    {
      batch := [];
      batch, packets := packets, batch;
    }

    /** Taking a batch is the net thread's receive. */
    method Receive(ghost s: State) returns (batch: seq<Packet>)
      requires s.incoming == packets && s.batch == []
      modifies this
      ensures var s' := Step(s, ConnectionProtocol.Receive); s'.incoming == packets && s'.batch == batch
    {
      batch := Recv();
    }
  }

  /** A base connection: it holds a raw pointer to its core connection. */
  class CBaseConnection {
    const c: Conn
    const queue: CNetMessageQueue
    var closing: bool

    constructor (c: Conn, queue: CNetMessageQueue)
      ensures this.c == c && this.queue == queue && !closing
    {
      this.c, this.queue, this.closing := c, queue, false;
    }

    method SendData()
      modifies queue
      ensures queue.packets == old(queue.packets) + [SendDirect(c)]
    {
      queue.SendPacket(SendDirect(c));
    }

    /** Only the first call asks for the shutdown. */
    method RequestShutdown()
      modifies this, queue
      ensures closing
      ensures queue.packets == if old(closing) then old(queue.packets) else old(queue.packets) + [Shutdown(c)]
    {
      if closing {
        return;
      }
      closing := true;
      queue.SendPacket(Shutdown(c));
    }
  }

  /** The base connections of one service, whose logic queue is `q`. */
  class CBaseConnectionMgrImpl {
    const q: Queue
    const queue: CNetMessageQueue
    var byId: map<Conn, CBaseConnection>
    /** The base connection that onDisconnect has taken out of the map and not released yet. */
    var releasing: Option<CBaseConnection>

    constructor (q: Queue, queue: CNetMessageQueue)
      ensures this.q == q && this.queue == queue && byId == map[] && releasing == None
    {
      this.q, this.queue, this.byId, this.releasing := q, queue, map[], None;
    }

    predicate Has(c: Conn)
      reads this
    {
      c in byId || (releasing.Some? && releasing.value.c == c)
    }

    function Get(c: Conn): CBaseConnection
      requires Has(c)
      reads this
    {
      if c in byId then byId[c] else releasing.value
    }

    ghost function Objects(): set<object>
      reads this
    {
      byId.Values + if releasing.Some? then {releasing.value} else {}
    }

    ghost predicate Valid()
      reads this
    {
      && (forall c | c in byId :: byId[c].c == c && byId[c].queue == queue)
      && (releasing.Some? ==> releasing.value.queue == queue && releasing.value.c !in byId)
    }

    /** The objects are in this state of the protocol: the manager has the base connections of its own service. */
    ghost predicate Matches(s: State)
      reads this, queue, Objects()
    {
      && Valid()
      && s.incoming == queue.packets
      && (forall c :: Has(c) <==> c in s.base && c in s.created && s.created[c] == q)
      && (forall c | Has(c) :: Get(c).closing <==> c in s.closing)
      && (releasing.Some? ==> q in s.inDisconnect && s.inDisconnect[q] == releasing.value.c)
      && (q in s.inDisconnect ==> s.inDisconnect[q] !in byId)
    }

    /** A connection no object knows yet; a factory that refuses it leaves nothing behind. */
    method OnConnect(c: Conn, accepted: bool) returns (ok: bool)
      requires Valid() && !Has(c)
      modifies this`byId, queue
      ensures Valid() && ok == accepted
      ensures ok ==>
                && c in byId && fresh(byId[c]) && !byId[c].closing && byId == old(byId)[c := byId[c]]
                && queue.packets == old(queue.packets) + [ConnectAck(c, true)]
      ensures !ok ==> byId == old(byId) && queue.packets == old(queue.packets)
    {
      if !accepted {
        return false;
      }
      var base := new CBaseConnection(c, queue);
      byId := byId[c := base];
      queue.SendPacket(ConnectAck(c, true));
      ok := true;
    }

    /** Dispatching a connect notification. */
    method DispatchConnected(c: Conn, accepted: bool, ghost s: State)
      requires Once(s) && Matches(s) && Enabled(s, DispatchConnect(q, accepted)) && s.Notes(q)[0] == Connected(c)
      modifies this`byId, queue
      ensures Matches(Step(s, DispatchConnect(q, accepted)))
      ensures Has(c) <==> accepted
      ensures queue.packets == old(queue.packets) + [ConnectAck(c, accepted)]
    {
      assert OnceAt(s, c) && Connected(c) in s.Notes(q);
      NotedByOwner(s, q, c);
      var ok := OnConnect(c, accepted);
      if !ok {
        queue.SendPacket(ConnectAck(c, false));
      }
    }

    /** Dispatching a disconnect notification begins by taking the base connection, if there is one, out of the
        map; its callbacks may still use it. */
    method BeginOnDisconnect(c: Conn, ghost s: State)
      requires Inv(s) && Matches(s) && Enabled(s, BeginDisconnect(q)) && s.Notes(q)[0] == Disconnected(c)
      modifies this`byId, this`releasing
      ensures Matches(Step(s, BeginDisconnect(q)))
    {
      if c in byId {
        releasing := Some(byId[c]);
        byId := byId - {c};
      }
    }

    /** It ends by releasing the base connection; the acknowledgement follows. */
    method EndOnDisconnect(c: Conn, ghost s: State)
      requires Inv(s) && Matches(s) && Enabled(s, EndDisconnect(q)) && s.inDisconnect[q] == c
      modifies this`releasing, queue
      ensures Matches(Step(s, EndDisconnect(q)))
      ensures !Has(c) && queue.packets == old(queue.packets) + [DisconnectAck(c)]
    {
      releasing := None;
      queue.SendPacket(DisconnectAck(c));
    }

    /** A use of a base connection by the logic thread, from a callback of its disconnection too. */
    method Use(c: Conn, shut: bool, ghost s: State)
      requires Matches(s) && Has(c)
      modifies queue, Get(c)
      ensures Matches(Step(s, if shut then BaseShutdown(c) else BaseSend(c)))
    {
      if shut {
        Get(c).RequestShutdown();
      } else {
        Get(c).SendData();
      }
    }
  }
}
