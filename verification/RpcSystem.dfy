/** Requests, real responses, timeouts and holders in any interleaving over one service's registry. The
    service's logic thread takes responses from its queue one at a time; the environment may queue any
    response whatsoever. */
module RpcSystem {
  import opened Basics
  import opened PendingResponses

  /** How the timeout tickers are set up: the interval passed at registration, and whether the ticker
      manager was given a callback of its own. */
  datatype Tickers = Tickers(interval: nat, managerCallback: bool)

  /** As the service sets them up. */
  const SERVICE := Tickers(0, true)

  /** What a registered ticker is attached to. */
  datatype TickerNode = TickerNode(context: nat, interval: nat)

  /** Asking a ticker for its context: 0 when it is attached to nothing. */
  function GetContext(node: Option<TickerNode>): nat { if node.Some? then node.value.context else 0 }

  /** Before its callback runs, a one-shot ticker is detached from its node. */
  function BeforeCallback(node: TickerNode): Option<TickerNode> { if node.interval == 0 then None else Some(node) }

  /** The context that the timeout handler of a ticker receives: the manager's own callback asks the ticker, a
      plain one is handed the node's. */
  function DeliveredContext(t: Tickers, context: nat): nat {
    var node := TickerNode(context, t.interval);
    if t.managerCallback then GetContext(BeforeCallback(node)) else node.context
  }

  datatype Response = Response(session: SessionId, timeout: bool, wellFormed: bool)

  datatype Completion = Completion(session: SessionId, holder: HolderId, timeout: bool)

  datatype State = State(
    registry: Registry, armed: set<SessionId>, queue: seq<Response>,
    holders: set<HolderId>, nextHolder: HolderId, log: seq<Completion>)

  const INITIAL := State(EMPTY, {}, [], {}, 1, [])

  datatype Action =
    | Invoke(toService: nat, holder: HolderId, healthy: bool, sent: bool)
    | Arrive(session: SessionId, wellFormed: bool)
    | TickerFires(session: SessionId)
    | Dispatch
    | NewHolder
    | DestroyHolder(holder: HolderId)
    | ReassignHolder(holder: HolderId)

  predicate Enabled(s: State, a: Action) {
    match a
    case Invoke(_, h, _, _) => h == 0 || h in s.holders
    case Arrive(_, _) => true
    case TickerFires(id) => id in s.armed
    case Dispatch => s.queue != []
    case NewHolder => true
    case DestroyHolder(h) => h in s.holders
    case ReassignHolder(h) => h in s.holders
  }

  /** Nothing happens when the health check refuses the service; a session id is drawn even when sending then
      fails; the duplicate check drops the request. */
  function DoInvoke(s: State, toService: nat, h: HolderId, healthy: bool, sent: bool): State {
    var id := NextSession(s.registry.lastSession);
    var r := s.registry.(lastSession := id);
    if !healthy then s
    else if !sent then s.(registry := r)
    else match Add(r, toService, id, h)
         case None => s.(registry := r)
         case Some(r') => s.(registry := r', armed := s.armed + {id})
  }

  /** The ticker fires once if its interval is 0; a timeout of a pending session queues a response. */
  function DoFire(t: Tickers, s: State, id: SessionId): State {
    var s' := if t.interval == 0 then s.(armed := s.armed - {id}) else s;
    var context := DeliveredContext(t, id);
    if context in s.registry.pending then s'.(queue := s.queue + [Response(context, true, true)]) else s'
  }

  /** A response without a session id, or one that cannot be read, is dropped before the registry is
      asked; otherwise the entry is taken, its callback runs, and its ticker goes with it. */
  function DoDispatch(s: State): State
    requires s.queue != []
  {
    var m := s.queue[0];
    var s' := s.(queue := s.queue[1..]);
    if m.session == 0 || !m.wellFormed || m.session !in s.registry.pending then s'
    else s'.(registry := Take(s.registry, m.session), armed := s.armed - {m.session},
             log := s.log + [Completion(m.session, s.registry.pending[m.session].holder, m.timeout)])
  }

  function DoCancel(s: State, h: HolderId): State {
    var r := Cancel(s.registry, h);
    s.(registry := r, armed := s.armed - (s.registry.pending.Keys - r.pending.Keys), holders := s.holders - {h})
  }

  function DoNewHolder(s: State): State {
    s.(holders := s.holders + {s.nextHolder}, nextHolder := s.nextHolder + 1)
  }

  function Step(t: Tickers, s: State, a: Action): State
    requires Enabled(s, a)
  {
    match a
    case Invoke(toService, h, healthy, sent) => DoInvoke(s, toService, h, healthy, sent)
    case Arrive(id, wellFormed) => s.(queue := s.queue + [Response(id, false, wellFormed)])
    case TickerFires(id) => DoFire(t, s, id)
    case Dispatch => DoDispatch(s)
    case NewHolder => DoNewHolder(s)
    case DestroyHolder(h) => DoCancel(s, h)
    case ReassignHolder(h) => DoNewHolder(DoCancel(s, h))
  }

  predicate Runs(t: Tickers, s: State, actions: seq<Action>)
    decreases |actions|
  {
    actions == [] || (Enabled(s, actions[0]) && Runs(t, Step(t, s, actions[0]), actions[1..]))
  }

  function After(t: Tickers, s: State, actions: seq<Action>): State
    requires Runs(t, s, actions)
    decreases |actions|
  {
    if actions == [] then s else After(t, Step(t, s, actions[0]), actions[1..])
  }

  /** The request gets as far as drawing a session id. */
  predicate Draws(a: Action) { a.Invoke? && a.healthy }

  /** How many session ids a run draws. */
  function Requests(actions: seq<Action>): nat {
    if actions == [] then 0 else (if Draws(actions[0]) then 1 else 0) + Requests(actions[1..])
  }

  /** One service: its registry, the armed tickers, its queue of responses, and the holders in use. Each
      method is one step as the logic thread carries it out. */
  class Service {
    const tickers: Tickers
    const core: CoreService
    /** The nodes that the timeout tickers of pending sessions are attached to. */
    var nodes: map<SessionId, TickerNode>
    var queue: seq<Response>
    var holders: set<HolderId>
    var nextHolder: HolderId
    var log: seq<Completion>

    function View(): State
      reads this, core
    {
      State(core.View(), nodes.Keys, queue, holders, nextHolder, log)
    }

    ghost predicate Valid()
      reads this, core
    {
      && core.View().Valid() && core.lastSession < UINT64_COUNT
      && forall id | id in nodes :: nodes[id] == TickerNode(id, tickers.interval)
    }

    constructor (t: Tickers)
      ensures Valid() && View() == INITIAL && tickers == t && fresh(core)
    {
      tickers := t;
      core := new CoreService();
      nodes, queue, holders, nextHolder, log := map[], [], {}, 1, [];
    }

    /** `healthy` is whether the health check, if there is one, passes, and `transport` whether the transporter
        takes the message. */
    method Invoke(toService: nat, h: HolderId, healthy: bool, transport: bool) returns (ok: bool)
      requires Valid()
      modifies this`nodes, core
      ensures Valid() && View() == DoInvoke(old(View()), toService, h, healthy, transport)
      ensures ok <==> healthy && transport && core.lastSession !in old(core.pending)
    {
      if !healthy {
        return false;
      }
      ghost var was := core.View();
      var id := core.GenSessionId();
      assert core.View().Valid() by {
        assert forall k :: core.View().List(k) == was.List(k);
        assert forall k, n :: core.View().Owned(k, n) <==> was.Owned(k, n);
      }
      if !transport {
        return false;
      }
      var added := core.AddPendingResponseInfo(toService, id, h);
      ok := added.Some?;
      if ok {
        nodes := nodes[id := TickerNode(id, tickers.interval)];
      }
    }

    method FireTicker(id: SessionId)
      requires Valid() && id in nodes
      modifies this`nodes, this`queue
      ensures Valid() && View() == DoFire(tickers, old(View()), id)
    {
      var node := nodes[id];
      if node.interval == 0 {
        nodes := nodes - {id};
      }
      var context := if !tickers.managerCallback then node.context else if id in nodes then nodes[id].context else 0;
      OnRequestMessageTimeout(context);
    }

    method OnRequestMessageTimeout(context: nat)
      modifies this`queue
      ensures queue == old(queue) + if context in core.pending then [Response(context, true, true)] else []
    {
      if context in core.pending {
        queue := queue + [Response(context, true, true)];
      }
    }

    method DispatchResponse()
      requires Valid() && queue != []
      modifies this, core
      ensures Valid() && View() == DoDispatch(old(View()))
      ensures var m := old(queue[0]);
              var runs := m.wellFormed && m.session != 0 && m.session in old(core.pending);
              log == old(log) + if runs then [Completion(m.session, old(core.pending)[m.session].holder, m.timeout)] else []
    {
      var m := queue[0];
      queue := queue[1..];
      if m.session == 0 || !m.wellFormed {
        return;
      }
      var taken := core.GetPendingResponseInfo(m.session);
      if taken.Some? {
        log := log + [Completion(m.session, taken.value.holder, m.timeout)];
        nodes := nodes - {m.session};
      }
    }

    method ConstructHolder() returns (h: HolderId)
      requires Valid()
      modifies this`holders, this`nextHolder
      ensures Valid() && View() == DoNewHolder(old(View())) && h == old(nextHolder)
    {
      h := nextHolder;
      nextHolder := nextHolder + 1;
      holders := holders + {h};
    }

    /** The destructor of a holder. */
    method DestructHolder(h: HolderId)
      requires Valid()
      modifies this`nodes, this`holders, core
      ensures Valid() && View() == DoCancel(old(View()), h)
    {
      var before := core.pending.Keys;
      core.DelPendingResponseInfo(h);
      nodes := nodes - (before - core.pending.Keys);
      holders := holders - {h};
    }

    /** Assigning one holder object to another: nothing for itself, else the target gets a new id. */
    method AssignHolder(target: HolderId, source: HolderId) returns (h: HolderId)
      requires Valid()
      modifies this`nodes, this`holders, this`nextHolder, core
      ensures Valid()
      ensures target == source ==> View() == old(View()) && h == target
      ensures target != source ==> View() == DoNewHolder(DoCancel(old(View()), target)) && h == old(nextHolder)
    {
      if target == source {
        return target;
      }
      DestructHolder(target);
      h := ConstructHolder();
    }
  }

  // ----- the inductive invariant

  ghost predicate Fresh(s: State) {
    && s.registry.lastSession < UINT64_COUNT
    && (forall id | id in s.registry.pending :: 0 < id <= s.registry.lastSession)
    && (forall c <- s.log :: 0 < c.session <= s.registry.lastSession && c.session !in s.registry.pending)
    && (forall i, j | 0 <= i < j < |s.log| :: s.log[i].session != s.log[j].session)
  }

  ghost predicate HoldersInv(s: State) {
    && (forall h <- s.holders :: 0 < h < s.nextHolder)
    && (forall id | id in s.registry.pending ::
          s.registry.pending[id].holder == 0 || s.registry.pending[id].holder in s.holders)
  }

  ghost predicate Inv(s: State) {
    && s.registry.Valid()
    && Fresh(s)
    && HoldersInv(s)
    && s.armed <= s.registry.pending.Keys
    && s.nextHolder > 0
  }

  lemma InvokeKeeps(s: State, toService: nat, h: HolderId, healthy: bool, sent: bool)
    requires Inv(s) && (h == 0 || h in s.holders) && (healthy ==> s.registry.lastSession + 1 < UINT64_COUNT)
    ensures Inv(DoInvoke(s, toService, h, healthy, sent))
    ensures healthy ==> NextSession(s.registry.lastSession) !in s.registry.pending
    ensures DoInvoke(s, toService, h, healthy, sent).registry.lastSession == s.registry.lastSession + if healthy then 1 else 0
  {
    if healthy {
      var id := NextSession(s.registry.lastSession);
      var r := s.registry.(lastSession := id);
      assert r.Valid() by {
        assert forall k :: r.List(k) == s.registry.List(k);
        assert forall k, n :: r.Owned(k, n) <==> s.registry.Owned(k, n);
      }
      AddKeepsValid(r, toService, id, h);
    }
  }

  lemma DispatchKeeps(s: State)
    requires Inv(s) && s.queue != []
    ensures Inv(DoDispatch(s))
  {
    var m := s.queue[0];
    if m.session != 0 && m.wellFormed && m.session in s.registry.pending {
      TakeKeepsValid(s.registry, m.session);
    }
  }

  lemma CancelKeeps(s: State, h: HolderId)
    requires Inv(s)
    ensures Inv(DoCancel(s, h))
  {
    CancelExact(s.registry, h);
    CancelKeepsValid(s.registry, h);
  }

  lemma StepKeepsInv(t: Tickers, s: State, a: Action)
    requires Inv(s) && Enabled(s, a) && (Draws(a) ==> s.registry.lastSession + 1 < UINT64_COUNT)
    ensures Inv(Step(t, s, a))
    ensures Step(t, s, a).registry.lastSession == s.registry.lastSession + if Draws(a) then 1 else 0
  {
    match a
    case Invoke(toService, h, healthy, sent) => InvokeKeeps(s, toService, h, healthy, sent);
    case Dispatch => DispatchKeeps(s);
    case DestroyHolder(h) => CancelKeeps(s, h);
    case ReassignHolder(h) => CancelKeeps(s, h);
    case _ =>
  }

  lemma {:induction false} RunKeepsInv(t: Tickers, s: State, actions: seq<Action>)
    requires Inv(s) && Runs(t, s, actions) && s.registry.lastSession + Requests(actions) < UINT64_COUNT
    ensures Inv(After(t, s, actions))
    ensures After(t, s, actions).registry.lastSession == s.registry.lastSession + Requests(actions)
    decreases |actions|
  {
    if actions != [] {
      StepKeepsInv(t, s, actions[0]);
      RunKeepsInv(t, Step(t, s, actions[0]), actions[1..]);
    }
  }

  lemma InitialInv()
    ensures Inv(INITIAL)
  {
    EmptyValid();
  }

  // ----- at most once

  /** Whatever responses arrive, however they race the timeouts: over fewer than 2^64 requests, each
      session completes at most once, and only nonzero sessions do. */
  lemma AtMostOnce(t: Tickers, actions: seq<Action>)
    requires Runs(t, INITIAL, actions) && Requests(actions) < UINT64_COUNT
    ensures var log := After(t, INITIAL, actions).log;
            && (forall c <- log :: c.session != 0)
            && (forall i, j | 0 <= i < j < |log| :: log[i].session != log[j].session)
  {
    InitialInv();
    RunKeepsInv(t, INITIAL, actions);
  }

  /** The id drawn for the next request is nonzero and was never drawn before, so the duplicate check of
      the registry never drops a request. */
  lemma FreshSession(t: Tickers, actions: seq<Action>)
    requires Runs(t, INITIAL, actions) && Requests(actions) + 1 < UINT64_COUNT
    ensures var s := After(t, INITIAL, actions);
            var id := NextSession(s.registry.lastSession);
            && id != 0 && id !in s.registry.pending && (forall c <- s.log :: c.session != id)
            && forall toService, h :: Add(s.registry.(lastSession := id), toService, id, h).Some?
  {
    InitialInv();
    RunKeepsInv(t, INITIAL, actions);
  }

  // ----- no callback once its holder is gone

  lemma {:induction false} GoneStays(t: Tickers, s: State, actions: seq<Action>, h: HolderId)
    requires Inv(s) && Runs(t, s, actions) && s.registry.lastSession + Requests(actions) < UINT64_COUNT
    requires 0 < h < s.nextHolder && h !in s.holders
    ensures var log := After(t, s, actions).log;
            s.log <= log && forall i | |s.log| <= i < |log| :: log[i].holder != h
    decreases |actions|
  {
    if actions != [] {
      StepKeepsInv(t, s, actions[0]);
      GoneStays(t, Step(t, s, actions[0]), actions[1..], h);
    }
  }

  /** Once a holder is destroyed or reassigned, no callback registered under its old id ever runs, even
      with its responses and timeouts already queued; requests of other holders stay as they were. */
  lemma NoCallbackOnceHolderGone(t: Tickers, before: seq<Action>, end: Action, more: seq<Action>)
    requires end.DestroyHolder? || end.ReassignHolder?
    requires Runs(t, INITIAL, before) && Enabled(After(t, INITIAL, before), end)
    requires Runs(t, Step(t, After(t, INITIAL, before), end), more)
    requires Requests(before) + Requests(more) < UINT64_COUNT
    ensures var s0 := After(t, INITIAL, before);
            var s1 := Step(t, s0, end);
            var log := After(t, s1, more).log;
            && s1.log == s0.log && s0.log <= log
            && (forall i | |s0.log| <= i < |log| :: log[i].holder != end.holder)
            && (forall id | id in s0.registry.pending && s0.registry.pending[id].holder != end.holder ::
                  id in s1.registry.pending && s1.registry.pending[id] == s0.registry.pending[id]
                  && (id in s0.armed <==> id in s1.armed))
  {
    InitialInv();
    RunKeepsInv(t, INITIAL, before);
    var s0 := After(t, INITIAL, before);
    StepKeepsInv(t, s0, end);
    CancelExact(s0.registry, end.holder);
    GoneStays(t, Step(t, s0, end), more, end.holder);
  }

  // ----- no request waits for ever

  /** The request will still be looked at: its ticker can fire, or a readable response for it is queued. */
  ghost predicate Answerable(s: State, id: SessionId) { id in s.armed || ResponseQueued(s, id) }

  ghost predicate ResponseQueued(s: State, id: SessionId) {
    exists i :: 0 <= i < |s.queue| && s.queue[i].session == id && s.queue[i].wellFormed
  }

  ghost predicate AllAnswerable(s: State) {
    forall id | id in s.registry.pending :: Answerable(s, id)
  }

  /** The guard of the branch that loses the context. */
  predicate KeepsContext(t: Tickers) {
    !(t.managerCallback && t.interval == 0)
  }

  lemma StillQueued(s: State, s': State, id: SessionId)
    requires Answerable(s, id) && (id in s.armed ==> id in s'.armed) && s.queue <= s'.queue
    ensures Answerable(s', id)
  {
    if id !in s.armed {
      var i :| 0 <= i < |s.queue| && s.queue[i].session == id && s.queue[i].wellFormed;
      assert s'.queue[i] == s.queue[i];
    }
  }

  lemma FireAnswers(t: Tickers, s: State, fired: SessionId)
    requires Inv(s) && AllAnswerable(s) && KeepsContext(t) && fired in s.armed
    ensures AllAnswerable(DoFire(t, s, fired))
  {
    var s' := DoFire(t, s, fired);
    forall id | id in s'.registry.pending ensures Answerable(s', id) {
      if id == fired {
        assert s'.queue[|s.queue|] == Response(fired, true, true);
      } else {
        StillQueued(s, s', id);
      }
    }
  }

  lemma DispatchAnswers(s: State)
    requires Inv(s) && AllAnswerable(s) && s.queue != []
    ensures AllAnswerable(DoDispatch(s))
  {
    var s' := DoDispatch(s);
    forall id | id in s'.registry.pending ensures Answerable(s', id) {
      assert Answerable(s, id);
      if id !in s.armed {
        var i :| 0 <= i < |s.queue| && s.queue[i].session == id && s.queue[i].wellFormed;
        assert i != 0;
        assert s'.queue[i - 1] == s.queue[i];
      }
    }
  }

  lemma OtherStepAnswers(t: Tickers, s: State, a: Action)
    requires Inv(s) && AllAnswerable(s) && Enabled(s, a) && !a.TickerFires?
    requires Draws(a) ==> s.registry.lastSession + 1 < UINT64_COUNT
    ensures AllAnswerable(Step(t, s, a))
  {
    var s' := Step(t, s, a);
    if a.DestroyHolder? || a.ReassignHolder? {
      CancelExact(s.registry, a.holder);
    }
    if a.Dispatch? {
      DispatchAnswers(s);
    } else {
      forall id | id in s'.registry.pending ensures Answerable(s', id) {
        if id in s.registry.pending {
          StillQueued(s, s', id);
        }
      }
    }
  }

  lemma StepAnswers(t: Tickers, s: State, a: Action)
    requires Inv(s) && AllAnswerable(s) && KeepsContext(t) && Enabled(s, a)
    requires Draws(a) ==> s.registry.lastSession + 1 < UINT64_COUNT
    ensures AllAnswerable(Step(t, s, a))
  {
    if a.TickerFires? {
      FireAnswers(t, s, a.session);
    } else {
      OtherStepAnswers(t, s, a);
    }
  }

  lemma {:induction false} RunAnswers(t: Tickers, s: State, actions: seq<Action>)
    requires Inv(s) && AllAnswerable(s) && KeepsContext(t) && Runs(t, s, actions)
    requires s.registry.lastSession + Requests(actions) < UINT64_COUNT
    ensures AllAnswerable(After(t, s, actions))
    decreases |actions|
  {
    if actions != [] {
      StepKeepsInv(t, s, actions[0]);
      StepAnswers(t, s, actions[0]);
      RunAnswers(t, Step(t, s, actions[0]), actions[1..]);
    }
  }

  /** Every state that the run passes through, its ends included, leaves no pending request without an answer to
      come. */
  ghost predicate AnswerableThroughout(t: Tickers, s: State, actions: seq<Action>)
    requires Runs(t, s, actions)
    decreases |actions|
  {
    AllAnswerable(s) && (actions == [] || AnswerableThroughout(t, Step(t, s, actions[0]), actions[1..]))
  }

  /** Whenever a timeout ticker fires, a readable response of its session is already queued. */
  ghost predicate FiresAnswered(t: Tickers, s: State, actions: seq<Action>)
    requires Runs(t, s, actions)
    decreases |actions|
  {
    actions == [] ||
    ((actions[0].TickerFires? ==> ResponseQueued(s, actions[0].session))
     && FiresAnswered(t, Step(t, s, actions[0]), actions[1..]))
  }

  /** The service's tickers never queue anything when they fire: they hand on the context 0. */
  lemma ServiceFireAnswers(s: State, fired: SessionId)
    requires Inv(s) && AllAnswerable(s) && fired in s.armed
    ensures AllAnswerable(DoFire(SERVICE, s, fired)) <==> ResponseQueued(s, fired)
  {
    var s' := DoFire(SERVICE, s, fired);
    assert s' == s.(armed := s.armed - {fired});
    assert fired in s'.registry.pending && (Answerable(s', fired) <==> ResponseQueued(s, fired));
    forall id | id in s'.registry.pending && id != fired ensures Answerable(s', id) {
      StillQueued(s, s', id);
    }
  }

  lemma {:induction false} ServiceRunAnswers(s: State, actions: seq<Action>)
    requires Inv(s) && AllAnswerable(s) && Runs(SERVICE, s, actions)
    requires s.registry.lastSession + Requests(actions) < UINT64_COUNT
    ensures AnswerableThroughout(SERVICE, s, actions) <==> FiresAnswered(SERVICE, s, actions)
    decreases |actions|
  {
    if actions != [] {
      var a, s' := actions[0], Step(SERVICE, s, actions[0]);
      StepKeepsInv(SERVICE, s, a);
      if a.TickerFires? {
        ServiceFireAnswers(s, a.session);
      } else {
        OtherStepAnswers(SERVICE, s, a);
      }
      if AllAnswerable(s') {
        ServiceRunAnswers(s', actions[1..]);
      }
    }
  }

  /** Which runs of the service as it is keep every pending request answerable, its ticker armed or a response
      queued: those in which no timeout ticker fires before a readable response of its session is queued. */
  lemma ServiceAnswerableIff(actions: seq<Action>)
    requires Runs(SERVICE, INITIAL, actions) && Requests(actions) < UINT64_COUNT
    ensures AnswerableThroughout(SERVICE, INITIAL, actions) <==> FiresAnswered(SERVICE, INITIAL, actions)
  {
    InitialInv();
    ServiceRunAnswers(INITIAL, actions);
  }

  /** A readable response of the session arrives, or its holder goes. */
  predicate Releases(a: Action, id: SessionId, h: HolderId) {
    a == Arrive(id, true) || ((a.DestroyHolder? || a.ReassignHolder?) && a.holder == h)
  }

  /** A request that has lost its timeout stays as it is, whatever else happens, until a readable response of it
      arrives or its holder goes. */
  lemma {:induction false} LostStays(s: State, actions: seq<Action>, id: SessionId)
    requires Inv(s) && Runs(SERVICE, s, actions) && s.registry.lastSession + Requests(actions) < UINT64_COUNT
    requires id in s.registry.pending && !Answerable(s, id)
    requires forall i | 0 <= i < |actions| :: !Releases(actions[i], id, s.registry.pending[id].holder)
    ensures var s' := After(SERVICE, s, actions);
            && id in s'.registry.pending && s'.registry.pending[id] == s.registry.pending[id] && !Answerable(s', id)
    decreases |actions|
  {
    if actions != [] {
      LostStaysStep(s, actions[0], id);
      StepKeepsInv(SERVICE, s, actions[0]);
      LostStays(Step(SERVICE, s, actions[0]), actions[1..], id);
    }
  }

  lemma LostStaysStep(s: State, a: Action, id: SessionId)
    requires Inv(s) && Enabled(s, a) && (Draws(a) ==> s.registry.lastSession + 1 < UINT64_COUNT)
    requires id in s.registry.pending && !Answerable(s, id) && !Releases(a, id, s.registry.pending[id].holder)
    ensures var s' := Step(SERVICE, s, a);
            && id in s'.registry.pending && s'.registry.pending[id] == s.registry.pending[id] && !Answerable(s', id)
  {
    var s' := Step(SERVICE, s, a);
    match a
    case DestroyHolder(h) => CancelExact(s.registry, h);
    case ReassignHolder(h) => CancelExact(s.registry, h);
    case Dispatch =>
      forall i | 0 <= i < |s'.queue| ensures !(s'.queue[i].session == id && s'.queue[i].wellFormed) {
        assert s'.queue[i] == s.queue[i + 1];
      }
    case _ =>
  }

  /** One request, then its timeout, with tickers that lose the context: the request stays pending with
      no ticker and nothing queued. */
  lemma LostTimeout(t: Tickers)
    requires !KeepsContext(t)
    ensures var lost := [Invoke(7, 0, true, true), TickerFires(1)];
            && Runs(t, INITIAL, lost) && Requests(lost) == 1
            && 1 in After(t, INITIAL, lost).registry.pending
            && !Answerable(After(t, INITIAL, lost), 1)
  {
    var lost := [Invoke(7, 0, true, true), TickerFires(1)];
    var s := Step(t, INITIAL, lost[0]);
    assert lost[1..] == [TickerFires(1)];
    assert s.armed == {1} && 1 in s.registry.pending && 0 !in s.registry.pending;
    assert Requests(lost[1..]) == 0;
    var s' := Step(t, s, TickerFires(1));
    assert s'.queue == [] && s'.armed == {};
    assert After(t, s, [TickerFires(1)]) == s';
  }

  /** In every reachable state every pending request has its ticker armed or a response queued, if and only
      if a firing ticker passes on the context it was registered with. */
  lemma AnswerableIffContextKept(t: Tickers)
    ensures (forall actions | Runs(t, INITIAL, actions) && Requests(actions) < UINT64_COUNT ::
               AllAnswerable(After(t, INITIAL, actions)))
            <==> KeepsContext(t)
  {
    if KeepsContext(t) {
      InitialInv();
      forall actions | Runs(t, INITIAL, actions) && Requests(actions) < UINT64_COUNT
        ensures AllAnswerable(After(t, INITIAL, actions))
      {
        RunAnswers(t, INITIAL, actions);
      }
    } else {
      LostTimeout(t);
    }
  }

  lemma {:induction false} NoTimeouts(s: State, actions: seq<Action>)
    requires Inv(s) && Runs(SERVICE, s, actions) && s.registry.lastSession + Requests(actions) < UINT64_COUNT
    requires (forall m <- s.queue :: !m.timeout) && (forall c <- s.log :: !c.timeout)
    ensures forall c <- After(SERVICE, s, actions).log :: !c.timeout
    decreases |actions|
  {
    if actions != [] {
      StepKeepsInv(SERVICE, s, actions[0]);
      NoTimeouts(Step(SERVICE, s, actions[0]), actions[1..]);
    }
  }

  /** As the service sets its tickers up, the context is lost: no request is ever completed by a timeout. */
  lemma ServiceNeverTimesOut(actions: seq<Action>)
    requires Runs(SERVICE, INITIAL, actions) && Requests(actions) < UINT64_COUNT
    ensures !KeepsContext(SERVICE)
    ensures forall c <- After(SERVICE, INITIAL, actions).log :: !c.timeout
  {
    InitialInv();
    NoTimeouts(INITIAL, actions);
  }
}
