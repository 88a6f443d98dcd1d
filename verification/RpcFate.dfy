/** What becomes of every request and every response, counted over a run of the service. */
module RpcFate {
  import opened Basics
  import opened PendingResponses
  import opened RpcSystem

  /** The step registers session id for this service and holder: the transporter has taken its request. */
  predicate Registers(s: State, a: Action, id: SessionId, toService: nat, h: HolderId) {
    a == Invoke(toService, h, true, true) && NextSession(s.registry.lastSession) == id
  }

  function Registrations(t: Tickers, s: State, actions: seq<Action>, id: SessionId, toService: nat, h: HolderId): nat
    requires Runs(t, s, actions)
    decreases |actions|
  {
    if actions == [] then 0
    else (if Registers(s, actions[0], id, toService, h) then 1 else 0)
         + Registrations(t, Step(t, s, actions[0]), actions[1..], id, toService, h)
  }

  /** Session id is pending for this service and holder. */
  predicate Awaits(s: State, id: SessionId, toService: nat, h: HolderId) {
    id in s.registry.pending && s.registry.pending[id].toService == toService && s.registry.pending[id].holder == h
  }

  /** The step ends the holder of a pending session. */
  predicate Cancels(s: State, a: Action, id: SessionId, toService: nat, h: HolderId) {
    (a == DestroyHolder(h) || a == ReassignHolder(h)) && Awaits(s, id, toService, h)
  }

  function Cancellations(t: Tickers, s: State, actions: seq<Action>, id: SessionId, toService: nat, h: HolderId): nat
    requires Runs(t, s, actions)
    decreases |actions|
  {
    if actions == [] then 0
    else (if Cancels(s, actions[0], id, toService, h) then 1 else 0)
         + Cancellations(t, Step(t, s, actions[0]), actions[1..], id, toService, h)
  }

  /** A readable response taken from the queue finds its session pending. */
  predicate Answers(s: State, a: Action, id: SessionId) {
    a == Dispatch && s.queue != [] && s.queue[0].session == id && s.queue[0].wellFormed && id in s.registry.pending
  }

  function Answered(t: Tickers, s: State, actions: seq<Action>, id: SessionId, toService: nat, h: HolderId): nat
    requires Runs(t, s, actions)
    decreases |actions|
  {
    if actions == [] then 0
    else (if Answers(s, actions[0], id) && Awaits(s, id, toService, h) then 1 else 0)
         + Answered(t, Step(t, s, actions[0]), actions[1..], id, toService, h)
  }

  // ----- a registered session is pending, answered or cancelled

  lemma StepBalances(t: Tickers, s: State, a: Action, id: SessionId, toService: nat, h: HolderId)
    requires Inv(s) && Enabled(s, a) && (Draws(a) ==> s.registry.lastSession + 1 < UINT64_COUNT)
    ensures (if Awaits(s, id, toService, h) then 1 else 0) + (if Registers(s, a, id, toService, h) then 1 else 0)
            == (if Awaits(Step(t, s, a), id, toService, h) then 1 else 0)
               + (if Cancels(s, a, id, toService, h) then 1 else 0)
               + if Answers(s, a, id) && Awaits(s, id, toService, h) then 1 else 0
  {
    match a
    case DestroyHolder(k) => CancelExact(s.registry, k);
    case ReassignHolder(k) => CancelExact(s.registry, k);
    case _ =>
  }

  lemma {:induction false} RunBalances(t: Tickers, s: State, actions: seq<Action>, id: SessionId, toService: nat, h: HolderId)
    requires Inv(s) && Runs(t, s, actions) && s.registry.lastSession + Requests(actions) < UINT64_COUNT
    ensures (if Awaits(s, id, toService, h) then 1 else 0) + Registrations(t, s, actions, id, toService, h)
            == (if Awaits(After(t, s, actions), id, toService, h) then 1 else 0)
               + Cancellations(t, s, actions, id, toService, h) + Answered(t, s, actions, id, toService, h)
    decreases |actions|
  {
    if actions != [] {
      StepKeepsInv(t, s, actions[0]);
      StepBalances(t, s, actions[0], id, toService, h);
      RunBalances(t, Step(t, s, actions[0]), actions[1..], id, toService, h);
    }
  }

  // ----- what is answered is what the log says

  /** How often the log says that session id was completed, and how often under holder h. */
  function Entries(log: seq<Completion>, id: SessionId): nat {
    if log == [] then 0 else Entries(log[..|log| - 1], id) + if log[|log| - 1].session == id then 1 else 0
  }

  function EntriesOf(log: seq<Completion>, id: SessionId, h: HolderId): nat {
    if log == [] then 0
    else EntriesOf(log[..|log| - 1], id, h) + if log[|log| - 1].session == id && log[|log| - 1].holder == h then 1 else 0
  }

  lemma LogGrows(log: seq<Completion>, c: Completion, id: SessionId, h: HolderId)
    ensures Entries(log + [c], id) == Entries(log, id) + if c.session == id then 1 else 0
    ensures EntriesOf(log + [c], id, h) == EntriesOf(log, id, h) + if c.session == id && c.holder == h then 1 else 0
  {
    assert (log + [c])[..|log|] == log;
  }

  /** How often a run registers session id, for whatever service and holder. */
  function AllRegistrations(t: Tickers, s: State, actions: seq<Action>, id: SessionId): nat
    requires Runs(t, s, actions)
    decreases |actions|
  {
    if actions == [] then 0
    else (if RegistersAny(s, actions[0], id) then 1 else 0) + AllRegistrations(t, Step(t, s, actions[0]), actions[1..], id)
  }

  predicate RegistersAny(s: State, a: Action, id: SessionId) {
    a.Invoke? && a.healthy && a.sent && NextSession(s.registry.lastSession) == id
  }

  /** A session is registered at most once. */
  lemma {:induction false} RegisteredOnce(t: Tickers, s: State, actions: seq<Action>, id: SessionId, toService: nat, h: HolderId)
    requires Inv(s) && Runs(t, s, actions) && s.registry.lastSession + Requests(actions) < UINT64_COUNT
    ensures Registrations(t, s, actions, id, toService, h) <= AllRegistrations(t, s, actions, id)
            <= if id <= s.registry.lastSession then 0 else 1
    decreases |actions|
  {
    if actions != [] {
      StepKeepsInv(t, s, actions[0]);
      RegisteredOnce(t, Step(t, s, actions[0]), actions[1..], id, toService, h);
    }
  }

  lemma StepLogs(t: Tickers, s: State, a: Action, id: SessionId, toService: nat, h: HolderId)
    requires Inv(s) && Enabled(s, a) && (id in s.registry.pending ==> Awaits(s, id, toService, h))
    ensures var answered := if Answers(s, a, id) then 1 else 0;
            && Entries(Step(t, s, a).log, id) == Entries(s.log, id) + answered
            && EntriesOf(Step(t, s, a).log, id, h) == EntriesOf(s.log, id, h) + answered
  {
    if a == Dispatch {
      var m := s.queue[0];
      if m.session in s.registry.pending {
        LogGrows(s.log, Completion(m.session, s.registry.pending[m.session].holder, m.timeout), id, h);
      }
    }
  }

  lemma {:induction false} RunLogs(t: Tickers, s: State, actions: seq<Action>, id: SessionId, toService: nat, h: HolderId)
    requires Inv(s) && Runs(t, s, actions) && s.registry.lastSession + Requests(actions) < UINT64_COUNT
    requires id in s.registry.pending ==> Awaits(s, id, toService, h)
    requires AllRegistrations(t, s, actions, id) == Registrations(t, s, actions, id, toService, h)
    ensures var log := After(t, s, actions).log;
            var answered := Answered(t, s, actions, id, toService, h);
            && Entries(log, id) == Entries(s.log, id) + answered && EntriesOf(log, id, h) == EntriesOf(s.log, id, h) + answered
    decreases |actions|
  {
    if actions != [] {
      var a, s' := actions[0], Step(t, s, actions[0]);
      StepKeepsInv(t, s, a);
      StepLogs(t, s, a, id, toService, h);
      OnlyFor(t, s, actions, id, toService, h);
      RunLogs(t, s', actions[1..], id, toService, h);
    }
  }

  /** Where all registrations of id are for one service and holder, so is its pending entry. */
  lemma OnlyFor(t: Tickers, s: State, actions: seq<Action>, id: SessionId, toService: nat, h: HolderId)
    requires Inv(s) && Runs(t, s, actions) && s.registry.lastSession + Requests(actions) < UINT64_COUNT && actions != []
    requires id in s.registry.pending ==> Awaits(s, id, toService, h)
    requires AllRegistrations(t, s, actions, id) == Registrations(t, s, actions, id, toService, h)
    ensures var s' := Step(t, s, actions[0]);
            && (id in s'.registry.pending ==> Awaits(s', id, toService, h))
            && AllRegistrations(t, s', actions[1..], id) == Registrations(t, s', actions[1..], id, toService, h)
  {
    var a, s' := actions[0], Step(t, s, actions[0]);
    StepKeepsInv(t, s, a);
    RegisteredOnce(t, s', actions[1..], id, toService, h);
    assert RegistersAny(s, a, id) ==> Registers(s, a, id, toService, h);
    match a
    case DestroyHolder(k) => CancelExact(s.registry, k);
    case ReassignHolder(k) => CancelExact(s.registry, k);
    case _ =>
  }

  // ----- the two laws

  /** Exactly one of three. */
  predicate OneOf(a: bool, b: bool, c: bool) { (a && !b && !c) || (!a && b && !c) || (!a && !b && c) }

  /** Over fewer than 2^64 requests and whatever the interleaving: a session is registered at most once, and a
      registered one is still pending, as it was registered, or has been completed, once and under its holder, or was
      cancelled by the end of its holder: exactly one of these. A session that was never registered is never completed. */
  lemma RequestFate(t: Tickers, actions: seq<Action>, id: SessionId, toService: nat, h: HolderId)
    requires Runs(t, INITIAL, actions) && Requests(actions) < UINT64_COUNT
    ensures AllRegistrations(t, INITIAL, actions, id) <= 1
    ensures var s := After(t, INITIAL, actions);
            && (AllRegistrations(t, INITIAL, actions, id) == 0 ==> id !in s.registry.pending && Entries(s.log, id) == 0)
            && (Registrations(t, INITIAL, actions, id, toService, h) == 1 ==>
                  && OneOf(id in s.registry.pending, Entries(s.log, id) == 1,
                           Cancellations(t, INITIAL, actions, id, toService, h) == 1)
                  && (id in s.registry.pending ==> Awaits(s, id, toService, h))
                  && EntriesOf(s.log, id, h) == Entries(s.log, id) <= 1)
    ensures h == 0 ==> Cancellations(t, INITIAL, actions, id, toService, h) == 0
  {
    InitialInv();
    RegisteredOnce(t, INITIAL, actions, id, toService, h);
    RunBalances(t, INITIAL, actions, id, toService, h);
    RunKeepsInv(t, INITIAL, actions);
    NoHolderNeverEnds(t, INITIAL, actions, id, toService);
    if AllRegistrations(t, INITIAL, actions, id) == Registrations(t, INITIAL, actions, id, toService, h) {
      RunLogs(t, INITIAL, actions, id, toService, h);
      PendingIs(t, INITIAL, actions, id, toService, h);
    }
  }

  lemma {:induction false} PendingIs(t: Tickers, s: State, actions: seq<Action>, id: SessionId, toService: nat, h: HolderId)
    requires Inv(s) && Runs(t, s, actions) && s.registry.lastSession + Requests(actions) < UINT64_COUNT
    requires id in s.registry.pending ==> Awaits(s, id, toService, h)
    requires AllRegistrations(t, s, actions, id) == Registrations(t, s, actions, id, toService, h)
    ensures id in After(t, s, actions).registry.pending ==> Awaits(After(t, s, actions), id, toService, h)
    decreases |actions|
  {
    if actions != [] {
      StepKeepsInv(t, s, actions[0]);
      OnlyFor(t, s, actions, id, toService, h);
      PendingIs(t, Step(t, s, actions[0]), actions[1..], id, toService, h);
    }
  }

  lemma {:induction false} NoHolderNeverEnds(t: Tickers, s: State, actions: seq<Action>, id: SessionId, toService: nat)
    requires Inv(s) && Runs(t, s, actions) && s.registry.lastSession + Requests(actions) < UINT64_COUNT
    ensures Cancellations(t, s, actions, id, toService, 0) == 0
    decreases |actions|
  {
    if actions != [] {
      StepKeepsInv(t, s, actions[0]);
      NoHolderNeverEnds(t, Step(t, s, actions[0]), actions[1..], id, toService);
    }
  }

  /** The responses that a step puts into the queue. */
  function Arrivals(t: Tickers, s: State, a: Action): seq<Response>
    requires Enabled(s, a)
  {
    match a
    case Arrive(id, wellFormed) => [Response(id, false, wellFormed)]
    case TickerFires(id) =>
      var context := DeliveredContext(t, id);
      if context in s.registry.pending then [Response(context, true, true)] else []
    case _ => []
  }

  function AllArrivals(t: Tickers, s: State, actions: seq<Action>): seq<Response>
    requires Runs(t, s, actions)
    decreases |actions|
  {
    if actions == [] then [] else Arrivals(t, s, actions[0]) + AllArrivals(t, Step(t, s, actions[0]), actions[1..])
  }

  /** The responses that a run takes from the queue. */
  function Dispatched(t: Tickers, s: State, actions: seq<Action>): seq<Response>
    requires Runs(t, s, actions)
    decreases |actions|
  {
    if actions == [] then []
    else (if actions[0] == Dispatch then [s.queue[0]] else []) + Dispatched(t, Step(t, s, actions[0]), actions[1..])
  }

  /** Those of them that find their session pending and can be read. */
  function Effective(t: Tickers, s: State, actions: seq<Action>): seq<Response>
    requires Runs(t, s, actions)
    decreases |actions|
  {
    if actions == [] then []
    else (if actions[0] == Dispatch && Answers(s, Dispatch, s.queue[0].session) then [s.queue[0]] else [])
         + Effective(t, Step(t, s, actions[0]), actions[1..])
  }

  /** Responses are taken in the order in which they came, and none is lost. */
  lemma {:induction false} ResponsesInOrder(t: Tickers, s: State, actions: seq<Action>)
    requires Runs(t, s, actions)
    ensures s.queue + AllArrivals(t, s, actions) == Dispatched(t, s, actions) + After(t, s, actions).queue
    decreases |actions|
  {
    if actions != [] {
      var a, s' := actions[0], Step(t, s, actions[0]);
      ResponsesInOrder(t, s', actions[1..]);
      StepInOrder(t, s, a);
      var taken := if a == Dispatch then [s.queue[0]] else [];
      Regroup(s.queue, Arrivals(t, s, a), AllArrivals(t, s', actions[1..]), []);
      Regroup(taken, s'.queue, AllArrivals(t, s', actions[1..]), []);
      Regroup(taken, Dispatched(t, s', actions[1..]), After(t, s', actions[1..]).queue, []);
    }
  }

  lemma StepInOrder(t: Tickers, s: State, a: Action)
    requires Enabled(s, a)
    ensures s.queue + Arrivals(t, s, a) == (if a == Dispatch then [s.queue[0]] else []) + Step(t, s, a).queue
  {
  }

  /** Every one of the effective responses completes its session, in that order and with its own timeout flag, and
      nothing else does. */
  lemma {:induction false} LogIsEffective(t: Tickers, s: State, actions: seq<Action>)
    requires Inv(s) && Runs(t, s, actions) && s.registry.lastSession + Requests(actions) < UINT64_COUNT
    ensures var log, taken := After(t, s, actions).log, Effective(t, s, actions);
            && |log| == |s.log| + |taken| && s.log <= log
            && forall i | 0 <= i < |taken| ::
                 log[|s.log| + i].session == taken[i].session && log[|s.log| + i].timeout == taken[i].timeout
    decreases |actions|
  {
    if actions != [] {
      StepKeepsInv(t, s, actions[0]);
      LogIsEffective(t, Step(t, s, actions[0]), actions[1..]);
    }
  }
}
