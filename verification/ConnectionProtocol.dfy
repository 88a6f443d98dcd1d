/** The lifetime of a socket connection shared by two threads. The net thread owns the core connection;
    a logic thread reaches it through raw pointers, both from its own base connection and through
    packets queued to the net thread. Every queue operation, and every handling of one packet or
    notification, is one step; each logic queue is FIFO and dispatched by one thread at a time. */
module ConnectionProtocol {

  type Conn = nat
  type Queue = nat

  /** What the net thread posts to the logic queue that owns the connection. */
  datatype Note = Connected(c: Conn) | Disconnected(c: Conn)

  /** What is queued to the net thread. ConnectAck and SendDirect carry a raw pointer, the others an id. */
  datatype Packet =
    | ConnectAck(c: Conn, success: bool)
    | SendDirect(c: Conn)
    | DisconnectAck(id: Conn)
    | SendById(id: Conn)
    | Shutdown(id: Conn)
    | Other

  predicate Points(p: Packet, c: Conn) {
    p == SendDirect(c) || (p.ConnectAck? && p.c == c)
  }

  /** `live` are the core connections not yet destroyed; `connectPosted` and `disconnectPosted` record
      what the network layer has reported of each; `base` are the base connections that exist;
      `inDisconnect` is the connection whose disconnect notification a queue is in the middle of
      dispatching; `batch` is what the net thread took in one go and has not handled yet. */
  datatype State = State(
    created: map<Conn, Queue>, live: set<Conn>,
    connectPosted: set<Conn>, disconnectPosted: set<Conn>,
    notes: map<Queue, seq<Note>>, inDisconnect: map<Queue, Conn>,
    base: set<Conn>, closing: set<Conn>,
    incoming: seq<Packet>, batch: seq<Packet>)
  {
    function Notes(q: Queue): seq<Note> { if q in notes then notes[q] else [] }

    function Post(q: Queue, n: Note): State { this.(notes := notes[q := Notes(q) + [n]]) }

    function TakeNote(q: Queue): State
      requires Notes(q) != []
    {
      this.(notes := notes[q := Notes(q)[1..]])
    }

    function Send(p: Packet): State { this.(incoming := incoming + [p]) }

    /** Everything the net thread has still to handle, oldest first. */
    function Packets(): seq<Packet> { batch + incoming }
  }

  const INITIAL := State(map[], {}, {}, {}, map[], map[], {}, {}, [], [])

  datatype Action =
    // the net thread
    | Create(c: Conn, q: Queue)
    | PostConnect(c: Conn)
    | PostDisconnect(c: Conn)
    | Receive
    | Handle
    // a logic thread, for the queue it is dispatching
    | DispatchConnect(q: Queue, accepted: bool)
    | BeginDisconnect(q: Queue)
    | EndDisconnect(q: Queue)
    | BaseSend(c: Conn)
    | BaseShutdown(c: Conn)
    // any thread
    | AnySend(id: Conn)
    | AnyOther

  /** The network layer reports a connect at most once and a disconnect at most once, and no connect after a
      disconnect; a connection may go without ever having been reported connected, as a websocket does whose
      handshake fails. Nothing here says that the connection is still alive when it reports. */
  predicate Enabled(s: State, a: Action) {
    match a
    case Create(c, q) => c !in s.created
    case PostConnect(c) => c in s.created && c !in s.connectPosted && c !in s.disconnectPosted
    case PostDisconnect(c) => c in s.created && c !in s.disconnectPosted
    case Receive => s.batch == []
    case Handle => s.batch != []
    case DispatchConnect(q, _) => q !in s.inDisconnect && s.Notes(q) != [] && s.Notes(q)[0].Connected?
    case BeginDisconnect(q) => q !in s.inDisconnect && s.Notes(q) != [] && s.Notes(q)[0].Disconnected?
    case EndDisconnect(q) => q in s.inDisconnect
    case BaseSend(c) => c in s.base
    case BaseShutdown(c) => c in s.base
    case AnySend(_) => true
    case AnyOther => true
  }

  /** The net thread handles the first packet of its batch. A send by an unknown id makes it return from
      the whole batch, so the packets behind it are dropped. */
  function HandleFirst(s: State): State
    requires s.batch != []
  {
    var rest := s.(batch := s.batch[1..]);
    match s.batch[0]
    case DisconnectAck(id) => rest.(live := s.live - {id})
    case SendById(id) => if id in s.live then rest else s.(batch := [])
    case _ => rest
  }

  function Step(s: State, a: Action): State
    requires Enabled(s, a)
  {
    match a
    case Create(c, q) => s.(created := s.created[c := q], live := s.live + {c})
    case PostConnect(c) =>
      s.(connectPosted := s.connectPosted + {c}).Post(s.created[c], Connected(c))
    case PostDisconnect(c) =>
      s.(disconnectPosted := s.disconnectPosted + {c}).Post(s.created[c], Disconnected(c))
    case Receive => s.(batch := s.incoming, incoming := [])
    case Handle => HandleFirst(s)
    case DispatchConnect(q, accepted) =>
      var c := s.Notes(q)[0].c;
      var s1 := s.TakeNote(q);
      if accepted then s1.(base := s.base + {c}).Send(ConnectAck(c, true))
      else s1.Send(ConnectAck(c, false))
    case BeginDisconnect(q) => s.TakeNote(q).(inDisconnect := s.inDisconnect[q := s.Notes(q)[0].c])
    case EndDisconnect(q) =>
      var c := s.inDisconnect[q];
      s.(inDisconnect := s.inDisconnect - {q}, base := s.base - {c}).Send(DisconnectAck(c))
    case BaseSend(c) => s.Send(SendDirect(c))
    case BaseShutdown(c) => if c in s.closing then s else s.(closing := s.closing + {c}).Send(Shutdown(c))
    case AnySend(id) => s.Send(SendById(id))
    case AnyOther => s.Send(Other)
  }

  /** The core connections a step reaches through a raw pointer. */
  function Touched(s: State, a: Action): set<Conn>
    requires Enabled(s, a)
  {
    match a
    case PostConnect(c) => {c}
    case PostDisconnect(c) => {c}
    case Handle => if s.batch[0].ConnectAck? || s.batch[0].SendDirect? then {s.batch[0].c} else {}
    case DispatchConnect(q, _) => {s.Notes(q)[0].c}
    case EndDisconnect(q) => s.base * {s.inDisconnect[q]}
    case BaseSend(c) => {c}
    case BaseShutdown(c) => {c}
    case _ => {}
  }

  predicate Runs(s: State, actions: seq<Action>)
    decreases |actions|
  {
    actions == [] || (Enabled(s, actions[0]) && Runs(Step(s, actions[0]), actions[1..]))
  }

  function After(s: State, actions: seq<Action>): State
    requires Runs(s, actions)
    decreases |actions|
  {
    if actions == [] then s else After(Step(s, actions[0]), actions[1..])
  }

  // ----- the inductive invariant, one connection at a time

  /** Nothing with a pointer to the connection stands behind its disconnect-ack. */
  ghost predicate AckIsLast(packets: seq<Packet>, c: Conn) {
    forall i, j | 0 <= i < j < |packets| :: packets[i] == DisconnectAck(c) ==> !Points(packets[j], c)
  }

  ghost predicate AnyPoints(packets: seq<Packet>, c: Conn) {
    exists i :: 0 <= i < |packets| && Points(packets[i], c)
  }

  ghost predicate InDisconnect(s: State, c: Conn) {
    exists q :: q in s.inDisconnect && s.inDisconnect[q] == c
  }

  ghost predicate HasNote(s: State, c: Conn) {
    exists q :: Mentions(s.Notes(q), c)
  }

  ghost predicate Mentions(notes: seq<Note>, c: Conn) {
    exists i :: 0 <= i < |notes| && notes[i].c == c
  }

  /** Only the owner's queue speaks of the connection, and its disconnect notification comes last. */
  ghost predicate NotesOk(s: State, q: Queue, c: Conn) {
    && (Mentions(s.Notes(q), c) ==> c in s.created && s.created[c] == q)
    && DisconnectIsLast(s.Notes(q), c)
  }

  ghost predicate DisconnectIsLast(notes: seq<Note>, c: Conn) {
    forall i, j | 0 <= i < j < |notes| && notes[j].c == c :: notes[i] != Disconnected(c)
  }

  /** A logic thread, or the network layer, may still reach the connection. */
  ghost predicate Reachable(s: State, c: Conn) {
    c in s.base || HasNote(s, c) || InDisconnect(s, c) || c !in s.disconnectPosted
  }

  ghost predicate Ok(s: State, c: Conn) {
    && (forall q :: NotesOk(s, q, c))
    && (c !in s.created ==> c !in s.connectPosted && c !in s.disconnectPosted && c !in s.live && !HasNote(s, c))
    && (c !in s.connectPosted ==>
          c !in s.base && !AnyPoints(s.Packets(), c) && forall q :: Connected(c) !in s.Notes(q))
    && (c !in s.disconnectPosted ==>
          !InDisconnect(s, c) && forall q :: Disconnected(c) !in s.Notes(q))
    && (InDisconnect(s, c) ==> !HasNote(s, c))
    && (c in s.created && c !in s.live ==> !Reachable(s, c) && !AnyPoints(s.Packets(), c))
    && (DisconnectAck(c) in s.Packets() ==> c in s.created && !Reachable(s, c))
    && AckIsLast(s.Packets(), c)
  }

  ghost predicate Inv(s: State) {
    && (forall c :: Ok(s, c))
    && (forall q :: q in s.inDisconnect ==>
          s.inDisconnect[q] in s.created && s.created[s.inDisconnect[q]] == q && s.inDisconnect[q] in s.disconnectPosted)
  }

  // ----- packets only move forward

  lemma AddedPacket(packets: seq<Packet>, p: Packet, c: Conn)
    requires AckIsLast(packets, c) && (Points(p, c) ==> DisconnectAck(c) !in packets)
    ensures AckIsLast(packets + [p], c)
    ensures AnyPoints(packets + [p], c) <==> AnyPoints(packets, c) || Points(p, c)
  {
    if Points(p, c) {
      assert Points((packets + [p])[|packets|], c);
    }
    if AnyPoints(packets, c) {
      var i :| 0 <= i < |packets| && Points(packets[i], c);
      assert Points((packets + [p])[i], c);
    }
  }

  lemma SendKeeps(s: State, p: Packet)
    requires Inv(s)
    requires forall c | Points(p, c) :: c in s.live && c in s.connectPosted && DisconnectAck(c) !in s.Packets()
    requires p.DisconnectAck? ==> p.id in s.created && !Reachable(s, p.id)
    ensures Inv(s.Send(p))
  {
    var s' := s.Send(p);
    assert s'.Packets() == s.Packets() + [p];
    forall c ensures Ok(s', c) {
      assert Ok(s, c);
      AddedPacket(s.Packets(), p, c);
      assert forall q :: s'.Notes(q) == s.Notes(q);
      assert forall q :: NotesOk(s, q, c) ==> NotesOk(s', q, c);
      assert HasNote(s', c) == HasNote(s, c);
      assert InDisconnect(s', c) == InDisconnect(s, c);
    }
  }

  /** Removing packets, and destroying a connection whose ack was due, keeps a connection in order. */
  lemma FewerPackets(s: State, s': State, c: Conn)
    requires Ok(s, c)
    requires s' == s.(live := s'.live, closing := s'.closing, incoming := s'.incoming, batch := s'.batch)
    requires AckIsLast(s'.Packets(), c)
    requires AnyPoints(s'.Packets(), c) ==> AnyPoints(s.Packets(), c)
    requires DisconnectAck(c) in s'.Packets() ==> DisconnectAck(c) in s.Packets()
    requires c in s'.live ==> c in s.live
    requires c in s.live && c !in s'.live ==> DisconnectAck(c) in s.Packets() && !AnyPoints(s'.Packets(), c)
    ensures Ok(s', c)
  {
    assert forall q :: s'.Notes(q) == s.Notes(q);
    assert forall q :: NotesOk(s, q, c) ==> NotesOk(s', q, c);
    assert HasNote(s', c) == HasNote(s, c);
    assert InDisconnect(s', c) == InDisconnect(s, c);
  }

  /** How many packets one handling removes: one, or the rest of the batch. */
  function Removed(s: State): nat
    requires s.batch != []
  {
    if s.batch[0].SendById? && s.batch[0].id !in s.live then |s.batch| else 1
  }

  lemma HandlePackets(s: State)
    requires s.batch != []
    ensures s.Packets()[0] == s.batch[0]
    ensures Removed(s) <= |s.Packets()| && HandleFirst(s).Packets() == s.Packets()[Removed(s)..]
  {
  }

  lemma HandleAt(s: State, c: Conn)
    requires Ok(s, c) && s.batch != []
    ensures Ok(HandleFirst(s), c)
  {
    HandlePackets(s);
    FewerPackets(s, HandleFirst(s), c);
  }

  lemma HandleKeeps(s: State)
    requires Inv(s) && s.batch != []
    ensures Inv(HandleFirst(s))
  {
    forall c ensures Ok(HandleFirst(s), c) {
      assert Ok(s, c);
      HandleAt(s, c);
    }
  }

  // ----- notifications

  lemma AddedNote(notes: seq<Note>, n: Note, c: Conn)
    requires DisconnectIsLast(notes, c) && (n.c == c ==> Disconnected(c) !in notes)
    ensures DisconnectIsLast(notes + [n], c)
    ensures Mentions(notes + [n], c) <==> Mentions(notes, c) || n.c == c
  {
    if n.c == c {
      assert (notes + [n])[|notes|].c == c;
    }
    if Mentions(notes, c) {
      var i :| 0 <= i < |notes| && notes[i].c == c;
      assert (notes + [n])[i].c == c;
    }
  }

  lemma TakenNote(notes: seq<Note>, c: Conn)
    requires notes != [] && DisconnectIsLast(notes, c)
    ensures DisconnectIsLast(notes[1..], c)
    ensures Mentions(notes[1..], c) ==> Mentions(notes, c)
    ensures notes[0] == Disconnected(c) ==> !Mentions(notes[1..], c)
  {
    if Mentions(notes[1..], c) {
      var i :| 0 <= i < |notes[1..]| && notes[1..][i].c == c;
      assert notes[i + 1].c == c;
    }
  }

  lemma CreateKeeps(s: State, c0: Conn, q0: Queue)
    requires Inv(s) && c0 !in s.created
    ensures Inv(Step(s, Create(c0, q0)))
  {
    var s' := Step(s, Create(c0, q0));
    assert s'.Packets() == s.Packets();
    forall c ensures Ok(s', c) {
      assert Ok(s, c);
      assert forall q :: s'.Notes(q) == s.Notes(q);
      assert forall q :: NotesOk(s, q, c) ==> NotesOk(s', q, c);
      assert HasNote(s', c) == HasNote(s, c);
      assert InDisconnect(s', c) == InDisconnect(s, c);
    }
  }

  predicate CanPost(s: State, n: Note) {
    match n
    case Connected(c) => Enabled(s, PostConnect(c))
    case Disconnected(c) => Enabled(s, PostDisconnect(c))
  }

  function Posted(s: State, n: Note): State
    requires CanPost(s, n)
  {
    match n
    case Connected(c) => Step(s, PostConnect(c))
    case Disconnected(c) => Step(s, PostDisconnect(c))
  }

  lemma PostedNotes(s: State, n: Note, c: Conn)
    requires CanPost(s, n) && (forall q :: NotesOk(s, q, c)) && (n.c == c ==> forall q :: Disconnected(c) !in s.Notes(q))
    ensures var s' := Posted(s, n);
            && (forall q :: NotesOk(s', q, c))
            && (HasNote(s', c) <==> HasNote(s, c) || c == n.c)
            && (forall q :: s'.Notes(q) == if q == s.created[n.c] then s.Notes(q) + [n] else s.Notes(q))
  {
    var s', owner := Posted(s, n), s.created[n.c];
    assert NotesOk(s, owner, c);
    AddedNote(s.Notes(owner), n, c);
    assert forall q :: s'.Notes(q) == if q == owner then s.Notes(owner) + [n] else s.Notes(q);
    assert forall q :: NotesOk(s, q, c) ==> NotesOk(s', q, c);
    assert HasNote(s, c) ==> HasNote(s', c);
    assert HasNote(s', c) ==> HasNote(s, c) || c == n.c;
    assert c == n.c ==> Mentions(s'.Notes(owner), c);
  }

  lemma PostAt(s: State, n: Note, c: Conn)
    requires Inv(s) && CanPost(s, n)
    ensures Ok(Posted(s, n), c)
  {
    var s' := Posted(s, n);
    assert Ok(s, c);
    assert s'.Packets() == s.Packets();
    PostedNotes(s, n, c);
    assert InDisconnect(s', c) == InDisconnect(s, c);
  }

  lemma PostKeeps(s: State, n: Note)
    requires Inv(s) && CanPost(s, n)
    ensures Inv(Posted(s, n))
  {
    forall c ensures Ok(Posted(s, n), c) {
      PostAt(s, n, c);
    }
  }

  /** Taking a notification, having noted what its dispatch starts with. */
  lemma TakeNoteKeeps(s: State, q0: Queue)
    requires Inv(s) && q0 !in s.inDisconnect && s.Notes(q0) != []
    ensures var c0 := s.Notes(q0)[0].c;
            && Inv(s.TakeNote(q0))
            && c0 in s.live && (s.Notes(q0)[0].Connected? ==> c0 in s.connectPosted) && DisconnectAck(c0) !in s.Packets()
  {
    var n := s.Notes(q0)[0];
    assert Ok(s, n.c) && NotesOk(s, q0, n.c);
    assert Mentions(s.Notes(q0), n.c) && n in s.Notes(q0);
    assert HasNote(s, n.c);
    var s' := s.TakeNote(q0);
    assert s'.Packets() == s.Packets();
    forall c ensures Ok(s', c) {
      TakeNoteAt(s, q0, c);
    }
  }

  lemma TakeNoteAt(s: State, q0: Queue, c: Conn)
    requires Ok(s, c) && s.Notes(q0) != []
    ensures Ok(s.TakeNote(q0), c)
  {
    var s' := s.TakeNote(q0);
    assert s'.Packets() == s.Packets();
    assert NotesOk(s, q0, c);
    TakenNote(s.Notes(q0), c);
    assert forall q :: q != q0 ==> s'.Notes(q) == s.Notes(q);
    assert s'.Notes(q0) == s.Notes(q0)[1..];
    assert forall q :: NotesOk(s, q, c) ==> NotesOk(s', q, c);
    assert HasNote(s', c) ==> HasNote(s, c);
    assert InDisconnect(s', c) == InDisconnect(s, c);
  }

  lemma DispatchConnectKeeps(s: State, q0: Queue, accepted: bool)
    requires Inv(s) && Enabled(s, DispatchConnect(q0, accepted))
    ensures Inv(Step(s, DispatchConnect(q0, accepted)))
  {
    TakeNoteKeeps(s, q0);
    var c0 := s.Notes(q0)[0].c;
    var s1 := s.TakeNote(q0);
    assert s1.Packets() == s.Packets();
    var s2 := if accepted then s1.(base := s1.base + {c0}) else s1;
    assert s2.Packets() == s.Packets();
    forall c ensures Ok(s2, c) {
      assert Ok(s1, c);
      assert forall q :: s2.Notes(q) == s1.Notes(q);
      assert forall q :: NotesOk(s1, q, c) ==> NotesOk(s2, q, c);
      assert HasNote(s2, c) == HasNote(s1, c);
      assert InDisconnect(s2, c) == InDisconnect(s1, c);
    }
    SendKeeps(s2, ConnectAck(c0, accepted));
  }

  lemma BeginDisconnectKeeps(s: State, q0: Queue)
    requires Inv(s) && Enabled(s, BeginDisconnect(q0))
    ensures Inv(Step(s, BeginDisconnect(q0)))
  {
    TakeNoteKeeps(s, q0);
    var c0 := s.Notes(q0)[0].c;
    assert s.Notes(q0)[0] == Disconnected(c0);
    var s1 := s.TakeNote(q0);
    assert s1.Packets() == s.Packets();
    assert Ok(s, c0) && NotesOk(s, q0, c0) && Mentions(s.Notes(q0), c0);
    assert Disconnected(c0) in s.Notes(q0);
    TakenNote(s.Notes(q0), c0);
    assert s1.Notes(q0) == s.Notes(q0)[1..];
    forall q ensures !Mentions(s1.Notes(q), c0) {
      assert Ok(s1, c0) && NotesOk(s1, q, c0);
    }
    assert !HasNote(s1, c0);
    var s' := Step(s, BeginDisconnect(q0));
    assert s'.Packets() == s.Packets();
    forall c ensures Ok(s', c) {
      assert Ok(s1, c);
      assert forall q :: s'.Notes(q) == s1.Notes(q);
      assert forall q :: NotesOk(s1, q, c) ==> NotesOk(s', q, c);
      assert HasNote(s', c) == HasNote(s1, c);
      assert InDisconnect(s', c) ==> InDisconnect(s1, c) || c == c0;
      assert InDisconnect(s1, c) ==> InDisconnect(s', c) by {
        if InDisconnect(s1, c) {
          var q :| q in s1.inDisconnect && s1.inDisconnect[q] == c;
          assert q in s'.inDisconnect && s'.inDisconnect[q] == c;
        }
      }
    }
  }

  lemma EndDisconnectKeeps(s: State, q0: Queue)
    requires Inv(s) && Enabled(s, EndDisconnect(q0))
    ensures Inv(Step(s, EndDisconnect(q0)))
  {
    var c0 := s.inDisconnect[q0];
    var s1 := s.(inDisconnect := s.inDisconnect - {q0}, base := s.base - {c0});
    assert s1.Packets() == s.Packets();
    assert Ok(s, c0) && InDisconnect(s, c0);
    assert !InDisconnect(s1, c0);
    forall c ensures Ok(s1, c) {
      assert Ok(s, c);
      assert forall q :: s1.Notes(q) == s.Notes(q);
      assert forall q :: NotesOk(s, q, c) ==> NotesOk(s1, q, c);
      assert HasNote(s1, c) == HasNote(s, c);
      assert InDisconnect(s1, c) ==> InDisconnect(s, c);
    }
    assert forall q :: s1.Notes(q) == s.Notes(q);
    assert !HasNote(s1, c0);
    SendKeeps(s1, DisconnectAck(c0));
  }

  lemma UnrelatedKeeps(s: State, s': State)
    requires Inv(s)
    requires s' == s.(closing := s'.closing, incoming := s'.incoming, batch := s'.batch)
    requires s'.Packets() == s.Packets()
    ensures Inv(s')
  {
    forall c ensures Ok(s', c) {
      assert Ok(s, c);
      FewerPackets(s, s', c);
    }
  }
}
