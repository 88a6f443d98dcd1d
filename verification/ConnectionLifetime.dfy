/** What holds in every run of the connection protocol. */
module ConnectionLifetime {
  import opened ConnectionProtocol

  lemma StepKeepsInv(s: State, a: Action)
    requires Inv(s) && Enabled(s, a)
    ensures Inv(Step(s, a))
  {
    match a
    case Create(c, q) => CreateKeeps(s, c, q);
    case PostConnect(c) => PostKeeps(s, Connected(c));
    case PostDisconnect(c) => PostKeeps(s, Disconnected(c));
    case Receive => UnrelatedKeeps(s, Step(s, a));
    case Handle => HandleKeeps(s);
    case DispatchConnect(q, accepted) => DispatchConnectKeeps(s, q, accepted);
    case BeginDisconnect(q) => BeginDisconnectKeeps(s, q);
    case EndDisconnect(q) => EndDisconnectKeeps(s, q);
    case BaseSend(c) =>
      assert Ok(s, c);
      SendKeeps(s, SendDirect(c));
    case BaseShutdown(c) =>
      if c !in s.closing {
        UnrelatedKeeps(s, s.(closing := s.closing + {c}));
        SendKeeps(s.(closing := s.closing + {c}), Shutdown(c));
      }
    case AnySend(id) => SendKeeps(s, SendById(id));
    case AnyOther => SendKeeps(s, Other);
  }

  lemma {:induction false} RunKeepsInv(s: State, actions: seq<Action>)
    requires Inv(s) && Runs(s, actions)
    ensures Inv(After(s, actions))
    decreases |actions|
  {
    if actions != [] {
      StepKeepsInv(s, actions[0]);
      RunKeepsInv(Step(s, actions[0]), actions[1..]);
    }
  }

  lemma InitialInv()
    ensures Inv(INITIAL)
  {
    forall c ensures Ok(INITIAL, c) {
      assert forall q :: INITIAL.Notes(q) == [];
    }
  }

  /** In every run, every connection a step reaches through a raw pointer, on either thread, is still
      alive; this does not depend on the net thread handling every packet it received. */
  lemma PointersAlive(actions: seq<Action>, a: Action)
    requires Runs(INITIAL, actions) && Enabled(After(INITIAL, actions), a)
    ensures Touched(After(INITIAL, actions), a) <= After(INITIAL, actions).live
  {
    var s := After(INITIAL, actions);
    InitialInv();
    RunKeepsInv(INITIAL, actions);
    forall c | c in Touched(s, a) ensures c in s.live {
      assert Ok(s, c);
      match a
      case Handle =>
        assert s.Packets()[0] == s.batch[0];
        assert AnyPoints(s.Packets(), c);
      case DispatchConnect(q, _) =>
        assert Mentions(s.Notes(q), c);
        assert NotesOk(s, q, c);
        assert HasNote(s, c);
      case EndDisconnect(q) => assert InDisconnect(s, c);
      case _ =>
    }
  }

  /** A core connection is destroyed only once its base connection is gone, its disconnect notification
      has been fully dispatched, and no packet with a pointer to it is left anywhere. */
  lemma DestroyedLast(actions: seq<Action>, c: Conn)
    requires Runs(INITIAL, actions)
    requires c in After(INITIAL, actions).created && c !in After(INITIAL, actions).live
    ensures var s := After(INITIAL, actions);
            && c !in s.base && c in s.disconnectPosted
            && (forall q :: q in s.inDisconnect ==> s.inDisconnect[q] != c)
            && (forall i | 0 <= i < |s.incoming| :: !Points(s.incoming[i], c))
            && (forall i | 0 <= i < |s.batch| :: !Points(s.batch[i], c))
  {
    var s := After(INITIAL, actions);
    InitialInv();
    RunKeepsInv(INITIAL, actions);
    assert Ok(s, c);
    forall i | 0 <= i < |s.batch| ensures !Points(s.batch[i], c) {
      assert s.Packets()[i] == s.batch[i];
    }
    forall i | 0 <= i < |s.incoming| ensures !Points(s.incoming[i], c) {
      assert s.Packets()[|s.batch| + i] == s.incoming[i];
    }
  }

  // ----- shutdown is asked for once

  /** How many shutdown packets the run queues for the connection. */
  function Shutdowns(s: State, actions: seq<Action>, c: Conn): nat
    requires Runs(s, actions)
    decreases |actions|
  {
    if actions == [] then 0
    else (if Step(s, actions[0]).incoming == s.incoming + [Shutdown(c)] then 1 else 0)
         + Shutdowns(Step(s, actions[0]), actions[1..], c)
  }

  lemma {:induction false} ShutdownOnce(s: State, actions: seq<Action>, c: Conn)
    requires Runs(s, actions)
    ensures Shutdowns(s, actions, c) <= if c in s.closing then 0 else 1
    decreases |actions|
  {
    if actions != [] {
      var s' := Step(s, actions[0]);
      ShutdownOnce(s', actions[1..], c);
      if s'.incoming == s.incoming + [Shutdown(c)] {
        assert s'.incoming[|s.incoming|] == Shutdown(c);
      }
    }
  }

  /** And exactly one if a base connection asks for it at all. */
  lemma {:induction false} ShutdownIffAsked(s: State, actions: seq<Action>, c: Conn)
    requires Runs(s, actions)
    ensures Shutdowns(s, actions, c) == if c !in s.closing && BaseShutdown(c) in actions then 1 else 0
    decreases |actions|
  {
    if actions != [] {
      var a, s' := actions[0], Step(s, actions[0]);
      ShutdownIffAsked(s', actions[1..], c);
      assert actions == [a] + actions[1..];
      if s'.incoming == s.incoming + [Shutdown(c)] {
        assert s'.incoming[|s.incoming|] == Shutdown(c);
      }
    }
  }
}
