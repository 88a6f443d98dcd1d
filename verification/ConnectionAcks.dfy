/** What becomes of every notification and every acknowledgement, counted over a run of the connection protocol. */
module ConnectionAcks {
  import opened ConnectionProtocol
  import opened ConnectionLifetime

  /** How often a run queues the packet. */
  function Queued(s: State, actions: seq<Action>, p: Packet): nat
    requires Runs(s, actions)
    decreases |actions|
  {
    if actions == [] then 0
    else (if Step(s, actions[0]).incoming == s.incoming + [p] then 1 else 0) + Queued(Step(s, actions[0]), actions[1..], p)
  }

  /** How often a run answers a connect notification of c in this way. */
  function Answers(s: State, actions: seq<Action>, c: Conn, accepted: bool): nat
    requires Runs(s, actions)
    decreases |actions|
  {
    if actions == [] then 0
    else (if Answered(s, actions[0], c, accepted) then 1 else 0) + Answers(Step(s, actions[0]), actions[1..], c, accepted)
  }

  predicate Answered(s: State, a: Action, c: Conn, accepted: bool)
    requires Enabled(s, a)
  {
    a.DispatchConnect? && a.accepted == accepted && s.Notes(a.q)[0].c == c
  }

  /** How often a run ends the dispatch of a disconnect notification of c. */
  function Dispatches(s: State, actions: seq<Action>, c: Conn): nat
    requires Runs(s, actions)
    decreases |actions|
  {
    if actions == [] then 0
    else (if Dispatched(s, actions[0], c) then 1 else 0) + Dispatches(Step(s, actions[0]), actions[1..], c)
  }

  predicate Dispatched(s: State, a: Action, c: Conn)
    requires Enabled(s, a)
  {
    a.EndDisconnect? && s.inDisconnect[a.q] == c
  }

  /** What a handling drops unhandled: the rest of a batch that is given up. */
  function Dropped(s: State): seq<Packet>
    requires s.batch != []
  {
    if s.batch[0].SendById? && s.batch[0].id !in s.live then s.batch[1..] else []
  }

  /** How often a run drops the packet with a batch that is given up. */
  function Abandoned(s: State, actions: seq<Action>, p: Packet): nat
    requires Runs(s, actions)
    decreases |actions|
  {
    if actions == [] then 0
    else (if actions[0] == Handle then multiset(Dropped(s))[p] else 0) + Abandoned(Step(s, actions[0]), actions[1..], p)
  }

  /** How often a run handles the packet. */
  function Handled(s: State, actions: seq<Action>, p: Packet): nat
    requires Runs(s, actions)
    decreases |actions|
  {
    if actions == [] then 0
    else (if actions[0] == Handle && s.batch[0] == p then 1 else 0) + Handled(Step(s, actions[0]), actions[1..], p)
  }

  // ----- each dispatch queues its acknowledgement

  lemma {:induction false} OneAckEach(s: State, actions: seq<Action>, c: Conn)
    requires Runs(s, actions)
    ensures Queued(s, actions, DisconnectAck(c)) == Dispatches(s, actions, c)
    ensures forall accepted :: Queued(s, actions, ConnectAck(c, accepted)) == Answers(s, actions, c, accepted)
    decreases |actions|
  {
    if actions != [] {
      OneAckEach(Step(s, actions[0]), actions[1..], c);
      StepQueues(s, actions[0]);
    }
  }

  /** The packets a step queues: none or one. */
  lemma StepQueues(s: State, a: Action)
    requires Enabled(s, a)
    ensures forall c :: Step(s, a).incoming == s.incoming + [DisconnectAck(c)] <==> Dispatched(s, a, c)
    ensures forall c, accepted ::
              Step(s, a).incoming == s.incoming + [ConnectAck(c, accepted)] <==> Answered(s, a, c, accepted)
  {
    var n, s' := |s.incoming|, Step(s, a);
    forall p: Packet ensures s'.incoming == s.incoming + [p] ==> |s'.incoming| == n + 1 && s'.incoming[n] == p {
    }
  }

  // ----- no packet is lost, repeated or overtaken

  /** The packets that the two threads, and any other, ask a step to queue. */
  function Sent(s: State, a: Action): seq<Packet>
    requires Enabled(s, a)
  {
    match a
    case DispatchConnect(q, accepted) => [ConnectAck(s.Notes(q)[0].c, accepted)]
    case EndDisconnect(q) => [DisconnectAck(s.inDisconnect[q])]
    case BaseSend(c) => [SendDirect(c)]
    case BaseShutdown(c) => if c in s.closing then [] else [Shutdown(c)]
    case AnySend(id) => [SendById(id)]
    case AnyOther => [Other]
    case _ => []
  }

  function AllSent(s: State, actions: seq<Action>): seq<Packet>
    requires Runs(s, actions)
    decreases |actions|
  {
    if actions == [] then [] else Sent(s, actions[0]) + AllSent(Step(s, actions[0]), actions[1..])
  }

  /** The packets that a handling is done with: the one handled, and those dropped behind it. */
  function Done(s: State, a: Action): seq<Packet>
    requires Enabled(s, a)
  {
    if a == Handle then [s.batch[0]] + Dropped(s) else []
  }

  function AllDone(s: State, actions: seq<Action>): seq<Packet>
    requires Runs(s, actions)
    decreases |actions|
  {
    if actions == [] then [] else Done(s, actions[0]) + AllDone(Step(s, actions[0]), actions[1..])
  }

  /** What a step does to the two halves of the packets. */
  lemma StepPackets(s: State, a: Action)
    requires Enabled(s, a)
    ensures var s' := Step(s, a);
            if a == Receive then s'.batch == s.incoming && s'.incoming == [] && Sent(s, a) == []
            else if a == Handle then s.batch == Done(s, a) + s'.batch && s'.incoming == s.incoming && Sent(s, a) == []
            else s'.batch == s.batch && s'.incoming == s.incoming + Sent(s, a)
  {
  }

  lemma StepInOrder(s: State, a: Action)
    requires Enabled(s, a)
    ensures s.Packets() + Sent(s, a) == Done(s, a) + Step(s, a).Packets()
  {
    StepPackets(s, a);
    var s' := Step(s, a);
    Rejoin(Done(s, a), s'.batch, s'.incoming);
    Rejoin(s.batch, s.incoming, Sent(s, a));
  }

  lemma Rejoin(x: seq<Packet>, y: seq<Packet>, z: seq<Packet>)
    ensures x + (y + z) == (x + y) + z
    ensures [] + x == x == x + []
  {
  }

  /** What the net thread has handled or dropped, and what it has still to handle, are together all that was sent,
      in the order it was sent. */
  lemma {:induction false} PacketsInOrder(s: State, actions: seq<Action>)
    requires Runs(s, actions)
    ensures s.Packets() + AllSent(s, actions) == AllDone(s, actions) + After(s, actions).Packets()
    decreases |actions|
  {
    if actions != [] {
      var a, s' := actions[0], Step(s, actions[0]);
      StepInOrder(s, a);
      PacketsInOrder(s', actions[1..]);
      Chain(s.Packets(), Sent(s, a), AllSent(s', actions[1..]), Done(s, a), s'.Packets(), AllDone(s', actions[1..]),
            After(s', actions[1..]).Packets());
    }
  }

  /** Two stretches of a run, joined. */
  lemma Chain(before: seq<Packet>, sent: seq<Packet>, more: seq<Packet>, done: seq<Packet>, between: seq<Packet>,
              rest: seq<Packet>, after: seq<Packet>)
    requires before + sent == done + between && between + more == rest + after
    ensures before + (sent + more) == (done + rest) + after
  {
    calc {
      before + (sent + more);
      (before + sent) + more;
      (done + between) + more;
      done + (between + more);
      done + (rest + after);
      (done + rest) + after;
    }
  }

  /** And counted: every packet of a kind that was queued is handled, dropped, or still there. */
  lemma {:induction false} PacketFate(s: State, actions: seq<Action>, p: Packet)
    requires Runs(s, actions)
    ensures multiset(s.Packets())[p] + Queued(s, actions, p)
            == multiset(After(s, actions).Packets())[p] + Handled(s, actions, p) + Abandoned(s, actions, p)
    decreases |actions|
  {
    if actions != [] {
      StepFate(s, actions[0], p);
      PacketFate(Step(s, actions[0]), actions[1..], p);
    }
  }

  lemma StepFate(s: State, a: Action, p: Packet)
    requires Enabled(s, a)
    ensures multiset(s.Packets())[p] + (if Step(s, a).incoming == s.incoming + [p] then 1 else 0)
            == multiset(Step(s, a).Packets())[p]
               + (if a == Handle && s.batch[0] == p then 1 else 0) + if a == Handle then multiset(Dropped(s))[p] else 0
  {
    StepInOrder(s, a);
    SentIsQueued(s, a, p);
    Counts(s.Packets(), Sent(s, a), Done(s, a), Step(s, a).Packets(), p);
    DoneCounts(s, a, p);
  }

  lemma Counts(x: seq<Packet>, y: seq<Packet>, z: seq<Packet>, w: seq<Packet>, p: Packet)
    requires x + y == z + w
    ensures multiset(x)[p] + multiset(y)[p] == multiset(z)[p] + multiset(w)[p]
  {
    assert (multiset(x) + multiset(y))[p] == multiset(x + y)[p] == multiset(z + w)[p] == (multiset(z) + multiset(w))[p];
  }

  lemma DoneCounts(s: State, a: Action, p: Packet)
    requires Enabled(s, a)
    ensures multiset(Done(s, a))[p]
            == (if a == Handle && s.batch[0] == p then 1 else 0) + if a == Handle then multiset(Dropped(s))[p] else 0
  {
    if a == Handle {
      assert multiset([s.batch[0]] + Dropped(s)) == multiset([s.batch[0]]) + multiset(Dropped(s));
    }
  }

  lemma SentIsQueued(s: State, a: Action, p: Packet)
    requires Enabled(s, a)
    ensures multiset(Sent(s, a))[p] == if Step(s, a).incoming == s.incoming + [p] then 1 else 0
  {
    StepPackets(s, a);
    if Sent(s, a) == [] {
      assert |Step(s, a).incoming| <= |s.incoming| < |s.incoming + [p]|;
    } else {
      var sent := Sent(s, a)[0];
      assert Sent(s, a) == [sent];
      assert Step(s, a).incoming == s.incoming + [sent];
      assert (s.incoming + [sent])[|s.incoming|] == sent && (s.incoming + [p])[|s.incoming|] == p;
    }
  }

  // ----- every notification is dispatched once

  /** Notifications of c not yet dispatched to the end. */
  function Undispatched(s: State, c: Conn): nat {
    if c !in s.created then 0
    else
      var q := s.created[c];
      multiset(s.Notes(q))[Disconnected(c)] + if q in s.inDisconnect && s.inDisconnect[q] == c then 1 else 0
  }

  function Unanswered(s: State, c: Conn): nat {
    if c !in s.created then 0 else multiset(s.Notes(s.created[c]))[Connected(c)]
  }

  /** Disconnect notifications of c to come, and those not yet dispatched to the end. */
  function ToDispatch(s: State, c: Conn): nat {
    Undispatched(s, c) + if c in s.disconnectPosted then 0 else 1
  }

  function ToAnswer(s: State, c: Conn): nat {
    Unanswered(s, c) + if c in s.connectPosted then 0 else 1
  }

  lemma {:induction false} AllDispatched(s: State, actions: seq<Action>, c: Conn)
    requires Inv(s) && Runs(s, actions)
    ensures ToDispatch(s, c) == ToDispatch(After(s, actions), c) + Dispatches(s, actions, c)
    decreases |actions|
  {
    if actions != [] {
      StepKeepsInv(s, actions[0]);
      StepDispatches(s, actions[0], c);
      AllDispatched(Step(s, actions[0]), actions[1..], c);
    }
  }

  lemma {:induction false} AllAnswered(s: State, actions: seq<Action>, c: Conn)
    requires Inv(s) && Runs(s, actions)
    ensures ToAnswer(s, c)
            == ToAnswer(After(s, actions), c) + Answers(s, actions, c, true) + Answers(s, actions, c, false)
    decreases |actions|
  {
    if actions != [] {
      StepKeepsInv(s, actions[0]);
      StepAnswers(s, actions[0], c);
      AllAnswered(Step(s, actions[0]), actions[1..], c);
    }
  }

  /** Only its own service's queue has to do with c. */
  lemma Owner(s: State, c: Conn, q: Queue)
    requires Inv(s)
    ensures Mentions(s.Notes(q), c) || (q in s.inDisconnect && s.inDisconnect[q] == c) ==> c in s.created && s.created[c] == q
    ensures forall n | n in s.Notes(q) && n.c == c :: Mentions(s.Notes(q), c)
  {
    assert Ok(s, c) && NotesOk(s, q, c);
  }

  lemma StepDispatches(s: State, a: Action, c: Conn)
    requires Inv(s) && Enabled(s, a)
    ensures ToDispatch(s, c) == ToDispatch(Step(s, a), c) + if Dispatched(s, a, c) then 1 else 0
  {
    match a
    case Create(d, q) => CreateWeighs(s, d, q, c);
    case PostConnect(d) => PostWeighs(s, Connected(d), c);
    case PostDisconnect(d) => PostWeighs(s, Disconnected(d), c);
    case DispatchConnect(q, accepted) => DispatchWeighs(s, q, accepted, c);
    case BeginDisconnect(q) => BeginWeighs(s, q, c);
    case EndDisconnect(q) => EndWeighs(s, q, c);
    case _ => SameWeight(s, Step(s, a), c);
  }

  lemma StepAnswers(s: State, a: Action, c: Conn)
    requires Inv(s) && Enabled(s, a)
    ensures ToAnswer(s, c) == ToAnswer(Step(s, a), c)
              + (if Answered(s, a, c, true) then 1 else 0) + if Answered(s, a, c, false) then 1 else 0
  {
    match a
    case Create(d, q) => CreateWeighs(s, d, q, c);
    case PostConnect(d) => PostWeighs(s, Connected(d), c);
    case PostDisconnect(d) => PostWeighs(s, Disconnected(d), c);
    case DispatchConnect(q, accepted) => DispatchWeighs(s, q, accepted, c);
    case BeginDisconnect(q) => BeginWeighs(s, q, c);
    case EndDisconnect(q) => EndWeighs(s, q, c);
    case _ => SameWeight(s, Step(s, a), c);
  }

  lemma SameWeight(s: State, s': State, c: Conn)
    requires s' == s.(live := s'.live, closing := s'.closing, incoming := s'.incoming, batch := s'.batch)
    ensures ToDispatch(s', c) == ToDispatch(s, c) && ToAnswer(s', c) == ToAnswer(s, c)
  {
  }

  lemma CreateWeighs(s: State, d: Conn, q: Queue, c: Conn)
    requires Inv(s) && d !in s.created
    ensures var s' := Step(s, Create(d, q)); ToDispatch(s', c) == ToDispatch(s, c) && ToAnswer(s', c) == ToAnswer(s, c)
  {
    if d == c {
      Unmentioned(s, c, q);
    }
  }

  lemma DispatchWeighs(s: State, q: Queue, accepted: bool, c: Conn)
    requires Inv(s) && Enabled(s, DispatchConnect(q, accepted))
    ensures var s' := Step(s, DispatchConnect(q, accepted));
            && ToDispatch(s', c) == ToDispatch(s, c)
            && ToAnswer(s', c) + (if s.Notes(q)[0].c == c then 1 else 0) == ToAnswer(s, c)
  {
    Taken(s, Step(s, DispatchConnect(q, accepted)), q, c);
  }

  lemma BeginWeighs(s: State, q: Queue, c: Conn)
    requires Inv(s) && Enabled(s, BeginDisconnect(q))
    ensures var s' := Step(s, BeginDisconnect(q)); ToDispatch(s', c) == ToDispatch(s, c) && ToAnswer(s', c) == ToAnswer(s, c)
  {
    Taken(s, Step(s, BeginDisconnect(q)), q, c);
  }

  lemma EndWeighs(s: State, q: Queue, c: Conn)
    requires Inv(s) && Enabled(s, EndDisconnect(q))
    ensures var s' := Step(s, EndDisconnect(q));
            && ToDispatch(s', c) + (if s.inDisconnect[q] == c then 1 else 0) == ToDispatch(s, c)
            && ToAnswer(s', c) == ToAnswer(s, c)
  {
    Owner(s, c, q);
  }

  /** A connection not created yet has no notifications. */
  lemma Unmentioned(s: State, c: Conn, q: Queue)
    requires Inv(s) && c !in s.created
    ensures multiset(s.Notes(q))[Connected(c)] == 0 && multiset(s.Notes(q))[Disconnected(c)] == 0
    ensures q in s.inDisconnect ==> s.inDisconnect[q] != c
    ensures c !in s.connectPosted && c !in s.disconnectPosted
  {
    Owner(s, c, q);
    assert Ok(s, c);
    assert Connected(c) !in s.Notes(q) && Disconnected(c) !in s.Notes(q);
  }

  lemma PostedCounts(s: State, n: Note, k: Queue, m: Note)
    requires CanPost(s, n)
    ensures multiset(Posted(s, n).Notes(k))[m] == multiset(s.Notes(k))[m] + if k == s.created[n.c] && m == n then 1 else 0
  {
    assert Posted(s, n).Notes(k) == if k == s.created[n.c] then s.Notes(k) + [n] else s.Notes(k);
    assert multiset(s.Notes(k) + [n]) == multiset(s.Notes(k)) + multiset([n]);
  }

  lemma PostWeighs(s: State, n: Note, c: Conn)
    requires CanPost(s, n)
    ensures ToDispatch(Posted(s, n), c) == ToDispatch(s, c) && ToAnswer(Posted(s, n), c) == ToAnswer(s, c)
  {
    if c in s.created {
      PostedCounts(s, n, s.created[c], Connected(c));
      PostedCounts(s, n, s.created[c], Disconnected(c));
    }
  }

  /** A step that takes the first note of a queue, and does nothing else to the notes. */
  lemma Taken(s: State, s': State, q: Queue, c: Conn)
    requires Inv(s) && s.Notes(q) != [] && s'.notes == s.TakeNote(q).notes
    ensures s.Notes(q)[0].c == c ==> c in s.created && s.created[c] == q
    ensures c in s.created ==>
              var k := s.created[c];
              forall n: Note :: multiset(s.Notes(k))[n] == multiset(s'.Notes(k))[n] + if k == q && s.Notes(q)[0] == n then 1 else 0
  {
    Owner(s, c, q);
    assert s.Notes(q)[0] in s.Notes(q);
    var first, rest := s.Notes(q)[0], s.Notes(q)[1..];
    assert s.Notes(q) == [first] + rest;
    assert multiset(s.Notes(q)) == multiset([first]) + multiset(rest);
    assert s'.Notes(q) == rest;
  }

  // ----- the fate of a connection's notifications

  lemma {:induction false} BaseIs(s: State, actions: seq<Action>, c: Conn)
    requires Inv(s) && Runs(s, actions) && ToDispatch(s, c) == 1
    ensures c in After(s, actions).base
            <==> Dispatches(s, actions, c) == 0 && (c in s.base || Answers(s, actions, c, true) > 0)
    decreases |actions|
  {
    if actions != [] {
      var a, s' := actions[0], Step(s, actions[0]);
      StepKeepsInv(s, a);
      StepDispatches(s, a, c);
      if Dispatched(s, a, c) {
        assert s'.Packets()[|s.Packets()|] == DisconnectAck(c);
        assert Ok(s', c);
        StaysUnreachable(s', actions[1..], c);
      } else {
        BaseIs(s', actions[1..], c);
      }
    }
  }

  lemma {:induction false} StaysUnreachable(s: State, actions: seq<Action>, c: Conn)
    requires Inv(s) && Runs(s, actions) && !Reachable(s, c)
    ensures !Reachable(After(s, actions), c)
    decreases |actions|
  {
    if actions != [] {
      StepKeepsInv(s, actions[0]);
      StepUnreachable(s, actions[0], c);
      StaysUnreachable(Step(s, actions[0]), actions[1..], c);
    }
  }

  lemma StepUnreachable(s: State, a: Action, c: Conn)
    requires Inv(s) && Enabled(s, a) && !Reachable(s, c)
    ensures !Reachable(Step(s, a), c)
  {
    var s' := Step(s, a);
    assert Ok(s, c);
    forall q ensures !Mentions(s'.Notes(q), c) {
      assert !Mentions(s.Notes(q), c);
      NotesGrow(s, a, q, c);
    }
    forall q | q in s'.inDisconnect ensures s'.inDisconnect[q] != c {
      assert q in s.inDisconnect ==> s.inDisconnect[q] != c;
      if a == BeginDisconnect(q) {
        assert Mentions(s.Notes(q), s.Notes(q)[0].c);
      }
    }
    if a.DispatchConnect? {
      assert Mentions(s.Notes(a.q), s.Notes(a.q)[0].c);
    }
  }

  /** A queue speaks of c after a step only if it did before, or the network layer has just reported of c. */
  lemma NotesGrow(s: State, a: Action, q: Queue, c: Conn)
    requires Enabled(s, a) && a != PostConnect(c) && a != PostDisconnect(c) && !Mentions(s.Notes(q), c)
    ensures !Mentions(Step(s, a).Notes(q), c)
  {
    var was, notes := s.Notes(q), Step(s, a).Notes(q);
    assert notes == was || (was != [] && notes == was[1..]) || (notes != [] && notes == was + [notes[|was|]] && notes[|was|].c != c);
  }

  predicate Destroyed(s: State, c: Conn) { c in s.created && c !in s.live }

  /** Destroyed is what has had its disconnect-ack handled. */
  lemma {:induction false} DestroyedIs(s: State, actions: seq<Action>, c: Conn)
    requires Inv(s) && Runs(s, actions)
    ensures Destroyed(After(s, actions), c) <==> Destroyed(s, c) || Handled(s, actions, DisconnectAck(c)) > 0
    decreases |actions|
  {
    if actions != [] {
      var a, s' := actions[0], Step(s, actions[0]);
      StepKeepsInv(s, a);
      DestroyedIs(s', actions[1..], c);
      if a == Handle {
        assert s.Packets()[0] == s.batch[0] && Ok(s, c);
      }
    }
  }

  /** Exactly one of three. */
  predicate OneOf(a: bool, b: bool, c: bool) { (a && !b && !c) || (!a && b && !c) || (!a && !b && c) }

  /** In every run: the dispatch of a connection's disconnect notification comes to an end at most once, and not
      before all that was posted is dispatched; each time it queues one acknowledgement; and then the connection is
      destroyed, or its acknowledgement is on its way, or a batch that held it was given up. */
  lemma DisconnectFate(actions: seq<Action>, c: Conn)
    requires Runs(INITIAL, actions)
    ensures var s, ack := After(INITIAL, actions), DisconnectAck(c);
            var ends := Dispatches(INITIAL, actions, c);
            && ends + Undispatched(s, c) == (if c in s.disconnectPosted then 1 else 0)
            && Queued(INITIAL, actions, ack) == ends
            && (ends == 0 ==> !Destroyed(s, c) && ack !in s.Packets() && Abandoned(INITIAL, actions, ack) == 0)
            && (ends == 1 ==> OneOf(Destroyed(s, c), ack in s.Packets(), Abandoned(INITIAL, actions, ack) == 1))
  {
    var s := After(INITIAL, actions);
    InitialInv();
    AllDispatched(INITIAL, actions, c);
    OneAckEach(INITIAL, actions, c);
    PacketFate(INITIAL, actions, DisconnectAck(c));
    DestroyedIs(INITIAL, actions, c);
    assert INITIAL.Packets() == [];
  }

  /** And a connect notification is answered at most once, once all that was posted is dispatched, with one
      acknowledgement of the outcome; the base connection exists exactly from the accepted connect to the end of the
      disconnect. */
  lemma ConnectFate(actions: seq<Action>, c: Conn)
    requires Runs(INITIAL, actions)
    ensures var s := After(INITIAL, actions);
            var accepts, refusals := Answers(INITIAL, actions, c, true), Answers(INITIAL, actions, c, false);
            && accepts + refusals + Unanswered(s, c) == (if c in s.connectPosted then 1 else 0)
            && Queued(INITIAL, actions, ConnectAck(c, true)) == accepts
            && Queued(INITIAL, actions, ConnectAck(c, false)) == refusals
            && (c in s.base <==> accepts == 1 && Dispatches(INITIAL, actions, c) == 0)
  {
    InitialInv();
    AllAnswered(INITIAL, actions, c);
    OneAckEach(INITIAL, actions, c);
    BaseIs(INITIAL, actions, c);
  }
}
