/** The pause / resume / quit handshake between a worker thread and the one thread that controls it.
    Every atomic load or store of the state word, every mutex operation and every entry to or return
    from a callback is one step; the two threads interleave freely. The condition variable has no
    spurious wakeups. */
module ThreadBase {

  datatype ThreadState = None | Normal | Pause1 | Pause2 | Quit

  /** The worker's next step. */
  datatype Worker =
    | StoreNormal          // first store of the thread function
    | CallInit             // onInit runs; it may fail
    | CheckQuit            // top of the loop: is the state Quit?
    | NotifyQuit           // wake a waiting pause, leave the loop
    | CheckPause1
    | TakeMutex
    | RecheckPause1
    | StorePause2
    | NotifyPaused
    | ReleaseMutex
    | CheckPause2
    | StartProcess         // about to call onProcess
    | InProcess            // inside onProcess; it may ask to stop
    | CallDestroy
    | StoreNone
    | Done

  /** The controller's next step. */
  datatype Controller =
    | Idle
    | PauseTakeMutex
    | PauseLoad            // holds the mutex
    | PauseStore           // holds the mutex
    | PauseWait            // holds the mutex; releases it and sleeps in one step
    | PauseAsleep          // needs a notification
    | PauseWoken           // needs the mutex back
    | PauseReturn          // holds the mutex after the wait
    | PauseRefused         // holds the mutex; the state was not Normal
    | QuitLoad
    | QuitStore
    | ResumeLoad
    | ResumeStore

  datatype State = State(state: ThreadState, worker: Worker, controller: Controller)

  const INITIAL := State(None, StoreNormal, Idle)

  predicate WorkerHasMutex(s: State) {
    s.worker in {RecheckPause1, StorePause2, NotifyPaused, ReleaseMutex}
  }

  predicate ControllerHasMutex(s: State) {
    s.controller in {PauseLoad, PauseStore, PauseWait, PauseReturn, PauseRefused}
  }

  /** `choice` is what a callback returned. */
  datatype Action =
    | WorkerStep(choice: bool)
    | CallPause
    | CallQuit
    | CallResume
    | ControllerStep

  predicate Enabled(s: State, a: Action) {
    match a
    case WorkerStep(_) => s.worker != Done && (s.worker == TakeMutex ==> !ControllerHasMutex(s))
    case CallPause => s.controller == Idle
    case CallQuit => s.controller == Idle
    case CallResume => s.controller == Idle
    case ControllerStep =>
      && s.controller !in {Idle, PauseAsleep}
      && (s.controller in {PauseTakeMutex, PauseWoken} ==> !WorkerHasMutex(s))
  }

  /** notify_one reaches a pause only if it sleeps on the condition at that moment. */
  function Notify(c: Controller): Controller {
    if c == PauseAsleep then PauseWoken else c
  }

  function WorkerNext(s: State, choice: bool): State {
    match s.worker
    case StoreNormal => s.(state := Normal, worker := CallInit)
    case CallInit => s.(worker := if choice then CheckQuit else CallDestroy)
    case CheckQuit => s.(worker := if s.state == Quit then NotifyQuit else CheckPause1)
    case NotifyQuit => s.(worker := CallDestroy, controller := Notify(s.controller))
    case CheckPause1 => s.(worker := if s.state == Pause1 then TakeMutex else CheckPause2)
    case TakeMutex => s.(worker := RecheckPause1)
    case RecheckPause1 => s.(worker := if s.state == Pause1 then StorePause2 else NotifyPaused)
    case StorePause2 => s.(state := Pause2, worker := NotifyPaused)
    case NotifyPaused => s.(worker := ReleaseMutex, controller := Notify(s.controller))
    case ReleaseMutex => s.(worker := CheckQuit)
    case CheckPause2 => s.(worker := if s.state == Pause2 then CheckQuit else StartProcess)
    case StartProcess => s.(worker := InProcess)
    case InProcess => s.(worker := if choice then CheckQuit else CallDestroy)
    case CallDestroy => s.(worker := StoreNone)
    case StoreNone => s.(state := None, worker := Done)
    case Done => s
  }

  function ControllerNext(s: State): State {
    match s.controller
    case Idle => s
    case PauseTakeMutex => s.(controller := PauseLoad)
    case PauseLoad => s.(controller := if s.state == Normal then PauseStore else PauseRefused)
    case PauseStore => s.(state := Pause1, controller := PauseWait)
    case PauseWait => s.(controller := PauseAsleep)
    case PauseAsleep => s
    case PauseWoken => s.(controller := PauseReturn)
    case PauseReturn => s.(controller := Idle)
    case PauseRefused => s.(controller := Idle)
    case QuitLoad => s.(controller := if s.state == None then Idle else QuitStore)
    case QuitStore => s.(state := Quit, controller := Idle)
    case ResumeLoad => s.(controller := if s.state == Pause2 then ResumeStore else Idle)
    case ResumeStore => s.(state := Normal, controller := Idle)
  }

  function Step(s: State, a: Action): State
    requires Enabled(s, a)
  {
    match a
    case WorkerStep(choice) => WorkerNext(s, choice)
    case CallPause => s.(controller := PauseTakeMutex)
    case CallQuit => s.(controller := QuitLoad)
    case CallResume => s.(controller := ResumeLoad)
    case ControllerStep => ControllerNext(s)
  }

  predicate Runs(s: State, actions: seq<Action>)
    decreases |actions|
  {
    actions == [] || (Enabled(s, actions[0]) && Runs(Step(s, actions[0]), actions[1..]))
  }

  function After(s: State, actions: seq<Action>): State
    requires Runs(s, actions)
    decreases |actions|
  {
    if actions == [] then s else After(Step(s, actions[0]), actions[1..])
  }

  // ----- the inductive invariant

  predicate Pausing(s: State) {
    s.controller in {PauseWait, PauseAsleep, PauseWoken, PauseReturn}
  }

  /** The worker's last look at the state saw a pause it has not yet answered. */
  predicate Answering(s: State) {
    s.worker in {TakeMutex, RecheckPause1, StorePause2}
  }

  /** The worker has left its loop, or never entered it. */
  predicate Leaving(s: State) {
    s.worker in {NotifyQuit, CallDestroy, StoreNone, Done}
  }

  predicate MutexInv(s: State) {
    !(WorkerHasMutex(s) && ControllerHasMutex(s))
  }

  predicate StateInv(s: State) {
    && (s.worker == StoreNormal ==> s.state == None)
    && (s.state == None ==> s.worker in {StoreNormal, Done})
    && (s.worker == NotifyQuit ==> s.state == Quit)
    && (s.controller == PauseStore ==> s.state in {Normal, None})
    && (s.controller in {QuitStore, ResumeStore, PauseStore} || Pausing(s) ==> s.worker != StoreNormal)
    && (s.controller == ResumeStore ==> s.state == Pause2)
    && (Pausing(s) ==> s.state != Quit)
  }

  /** While Pause1 is set the controller waits, and only the worker can answer it. */
  predicate PauseInv(s: State) {
    && (s.state == Pause1 ==> s.controller in {PauseWait, PauseAsleep})
    && (Answering(s) ==> s.state == Pause1)
    && (s.worker == NotifyPaused ==> s.state == Pause2 && s.controller == PauseAsleep)
    && (s.worker == ReleaseMutex ==> s.state == Pause2 && s.controller == PauseWoken)
    && (s.controller == PauseAsleep ==> s.state == Pause1 || s.worker in {NotifyPaused, Done})
    && (s.controller == PauseWait ==> s.state in {Pause1, None})
    && (s.controller in {PauseWoken, PauseReturn} ==> s.state == Pause2 && s.worker != NotifyPaused)
    && (s.state == Pause2 ==> s.worker in {NotifyPaused, ReleaseMutex, CheckQuit, CheckPause1, CheckPause2})
  }

  predicate Inv(s: State) {
    MutexInv(s) && StateInv(s) && PauseInv(s)
  }

  lemma StepKeepsInv(s: State, a: Action)
    requires Inv(s) && Enabled(s, a)
    ensures Inv(Step(s, a))
  {
    match a
    case WorkerStep(choice) => WorkerKeepsInv(s, choice);
    case ControllerStep => ControllerKeepsInv(s);
    case _ =>
  }

  lemma WorkerKeepsInv(s: State, choice: bool)
    requires Inv(s) && Enabled(s, WorkerStep(choice))
    ensures Inv(WorkerNext(s, choice))
  {
  }

  lemma ControllerKeepsInv(s: State)
    requires Inv(s) && Enabled(s, ControllerStep)
    ensures Inv(ControllerNext(s))
  {
  }

  lemma {:induction false} RunKeepsInv(s: State, actions: seq<Action>)
    requires Inv(s) && Runs(s, actions)
    ensures Inv(After(s, actions))
    decreases |actions|
  {
    if actions != [] {
      StepKeepsInv(s, actions[0]);
      RunKeepsInv(Step(s, actions[0]), actions[1..]);
    }
  }

  // ----- pause

  /** The controller's store in resume or in quit, the two that end a pause. */
  predicate EndsPause(s: State, a: Action) {
    a == ControllerStep && s.controller in {QuitStore, ResumeStore}
  }

  predicate PauseKept(s: State, actions: seq<Action>)
    requires Runs(s, actions)
    decreases |actions|
  {
    actions == [] || (!EndsPause(s, actions[0]) && PauseKept(Step(s, actions[0]), actions[1..]))
  }

  lemma {:induction false} ParkedStays(s: State, actions: seq<Action>)
    requires Inv(s) && s.state == Pause2 && Runs(s, actions) && PauseKept(s, actions)
    ensures Inv(After(s, actions)) && After(s, actions).state == Pause2
    decreases |actions|
  {
    if actions != [] {
      StepKeepsInv(s, actions[0]);
      ParkedStays(Step(s, actions[0]), actions[1..]);
    }
  }

  /** Once a pause that moved Normal to Pause1 returns, the worker is outside onProcess and stays
      outside, whatever both threads do, until resume or quit stores. */
  lemma PauseHolds(before: seq<Action>, more: seq<Action>)
    requires Runs(INITIAL, before) && After(INITIAL, before).controller == PauseReturn
    requires var returned := Step(After(INITIAL, before), ControllerStep);
             Runs(returned, more) && PauseKept(returned, more)
    ensures var returned := Step(After(INITIAL, before), ControllerStep);
            After(returned, more).worker !in {StartProcess, InProcess, CallDestroy}
  {
    RunKeepsInv(INITIAL, before);
    var s := After(INITIAL, before);
    StepKeepsInv(s, ControllerStep);
    ParkedStays(Step(s, ControllerStep), more);
  }

  /** Worker steps that still separate it from notifying a sleeping pause. */
  function Distance(w: Worker): nat {
    match w
    case NotifyPaused => 1
    case StorePause2 => 2
    case RecheckPause1 => 3
    case TakeMutex => 4
    case CheckPause1 => 5
    case CheckQuit => 6
    case InProcess => 7
    case CallInit => 7
    case StartProcess => 8
    case CheckPause2 => 9
    case _ => 0
  }

  function WorkerAlone(n: nat): seq<Action> { seq(n, _ => WorkerStep(true)) }

  lemma {:induction false} WorkerAnswers(s: State)
    requires Inv(s) && s.controller == PauseAsleep && !Leaving(s)
    ensures var own := WorkerAlone(Distance(s.worker));
            Runs(s, own) && After(s, own).controller == PauseWoken
    decreases Distance(s.worker)
  {
    var own := WorkerAlone(Distance(s.worker));
    var s' := Step(s, WorkerStep(true));
    StepKeepsInv(s, WorkerStep(true));
    if Distance(s.worker) == 1 {
      assert own[1..] == [];
    } else {
      assert Distance(s'.worker) == Distance(s.worker) - 1;
      WorkerAnswers(s');
      assert own[1..] == WorkerAlone(Distance(s'.worker));
    }
  }

  lemma {:induction false} LeavingNeverAnswers(s: State, actions: seq<Action>)
    requires Inv(s) && s.controller == PauseAsleep && Leaving(s) && Runs(s, actions)
    ensures After(s, actions).controller == PauseAsleep
    decreases |actions|
  {
    if actions != [] {
      StepKeepsInv(s, actions[0]);
      LeavingNeverAnswers(Step(s, actions[0]), actions[1..]);
    }
  }

  /** A sleeping pause can still be woken if and only if the worker has not left its loop: at most nine
      of the worker's own steps then wake it, and otherwise nothing ever will. */
  lemma PauseWokenIffWorkerStays(before: seq<Action>)
    requires Runs(INITIAL, before) && After(INITIAL, before).controller == PauseAsleep
    ensures var s := After(INITIAL, before);
            (exists more :: |more| <= 9 && Runs(s, more) && After(s, more).controller == PauseWoken)
            <==> !Leaving(s)
    ensures var s := After(INITIAL, before);
            Leaving(s) ==> forall more | Runs(s, more) :: After(s, more).controller == PauseAsleep
  {
    RunKeepsInv(INITIAL, before);
    var s := After(INITIAL, before);
    if Leaving(s) {
      forall more | Runs(s, more) ensures After(s, more).controller == PauseAsleep {
        LeavingNeverAnswers(s, more);
      }
    } else {
      WorkerAnswers(s);
      assert |WorkerAlone(Distance(s.worker))| <= 9;
    }
  }

  /** The run wakes the sleeping pause. */
  predicate Wakes(s: State, actions: seq<Action>)
    requires Runs(s, actions)
    decreases |actions|
  {
    s.controller == PauseWoken || (actions != [] && Wakes(Step(s, actions[0]), actions[1..]))
  }

  /** The callback that the worker is in, or is bound to call before it looks at the state again, does not ask it
      to stop. */
  predicate CallbackStays(w: Worker, actions: seq<Action>) {
    match w
    case CallInit => actions != [] && actions[0] == WorkerStep(true)
    case InProcess => actions != [] && actions[0] == WorkerStep(true)
    case StartProcess => |actions| > 1 && actions[1] == WorkerStep(true)
    case CheckPause2 => |actions| > 2 && actions[2] == WorkerStep(true)
    case _ => true
  }

  /** The worker is still in its loop, it has the steps it needs, and its callback lets it go on. */
  predicate WillAnswer(w: Worker, actions: seq<Action>) {
    0 < Distance(w) <= |actions| && CallbackStays(w, actions)
  }

  lemma {:induction false} WakesIff(s: State, actions: seq<Action>)
    requires Inv(s) && s.controller == PauseAsleep && Runs(s, actions)
    ensures Wakes(s, actions) <==> WillAnswer(s.worker, actions)
    decreases |actions|
  {
    if actions != [] {
      var s', rest := Step(s, actions[0]), actions[1..];
      StepKeepsInv(s, actions[0]);
      if s.worker != NotifyPaused {
        WakesIff(s', rest);
      }
    }
  }

  lemma {:induction false} WakesInPrefix(s: State, actions: seq<Action>, k: nat)
    requires Runs(s, actions) && k <= |actions|
    ensures Runs(s, actions[..k])
    ensures Wakes(s, actions[..k]) ==> Wakes(s, actions)
    decreases k
  {
    if k > 0 {
      assert actions[..k][1..] == actions[1..][..k - 1];
      WakesInPrefix(Step(s, actions[0]), actions[1..], k - 1);
    }
  }

  /** Which runs wake a sleeping pause, for every reachable state and every run from it: those in which the
      worker is still in its loop and takes the at most nine steps to its notification, and the callback it is in
      or about to call does not ask it to stop. */
  lemma PauseReturnsIff(before: seq<Action>, actions: seq<Action>)
    requires Runs(INITIAL, before) && After(INITIAL, before).controller == PauseAsleep
    requires Runs(After(INITIAL, before), actions)
    ensures var s := After(INITIAL, before);
            Wakes(s, actions) <==> WillAnswer(s.worker, actions)
    ensures var s := After(INITIAL, before);
            WillAnswer(s.worker, actions) ==> Runs(s, actions[..Distance(s.worker)]) && Wakes(s, actions[..Distance(s.worker)])
  {
    RunKeepsInv(INITIAL, before);
    var s := After(INITIAL, before);
    WakesIff(s, actions);
    if WillAnswer(s.worker, actions) {
      WakesInPrefix(s, actions, Distance(s.worker));
      WakesIff(s, actions[..Distance(s.worker)]);
    }
  }

  /** Once the callback has asked to stop, the pause sleeps for ever. */
  lemma StopMeansForever(before: seq<Action>, actions: seq<Action>)
    requires Runs(INITIAL, before) && After(INITIAL, before).controller == PauseAsleep
    requires Runs(After(INITIAL, before), actions)
    requires var w := After(INITIAL, before).worker; Distance(w) <= |actions| && !CallbackStays(w, actions)
    ensures var s := After(INITIAL, before);
            forall more | Runs(s, actions + more) :: !Wakes(s, actions + more)
  {
    var s := After(INITIAL, before);
    forall more | Runs(s, actions + more) ensures !Wakes(s, actions + more) {
      PauseReturnsIff(before, actions + more);
    }
  }

  /** A woken pause is not kept from returning: at most the one step in which the worker releases the mutex
      stands before it, and while the pause has not returned the worker does not take the mutex again. */
  lemma WokenReturns(before: seq<Action>)
    requires Runs(INITIAL, before) && After(INITIAL, before).controller == PauseWoken
    ensures var s := After(INITIAL, before);
            if Enabled(s, ControllerStep) then
              && Step(s, ControllerStep).controller == PauseReturn
              && forall choice | Enabled(s, WorkerStep(choice)) :: Enabled(Step(s, WorkerStep(choice)), ControllerStep)
            else
              && Enabled(s, WorkerStep(true))
              && Enabled(Step(s, WorkerStep(true)), ControllerStep)
  {
    RunKeepsInv(INITIAL, before);
  }

  lemma RunsFirst(s: State, a: Action, rest: seq<Action>)
    requires Enabled(s, a) && Runs(Step(s, a), rest)
    ensures Runs(s, [a] + rest) && After(s, [a] + rest) == After(Step(s, a), rest)
  {
    assert ([a] + rest)[1..] == rest;
  }

  /** The worker's first six steps take it into onProcess. */
  lemma ReachesProcess()
    ensures Runs(INITIAL, WorkerAlone(6)) && After(INITIAL, WorkerAlone(6)) == State(Normal, InProcess, Idle)
  {
    var s := [INITIAL, State(Normal, CallInit, Idle), State(Normal, CheckQuit, Idle), State(Normal, CheckPause1, Idle),
              State(Normal, CheckPause2, Idle), State(Normal, StartProcess, Idle), State(Normal, InProcess, Idle)];
    for i := 6 downto 0
      invariant Runs(s[i], WorkerAlone(6 - i)) && After(s[i], WorkerAlone(6 - i)) == s[6]
    {
      RunsFirst(s[i], WorkerStep(true), WorkerAlone(5 - i));
      assert WorkerAlone(6 - i) == [WorkerStep(true)] + WorkerAlone(5 - i);
    }
  }

  lemma PauseFallsAsleep()
    ensures Runs(State(Normal, InProcess, Idle), PAUSE)
    ensures After(State(Normal, InProcess, Idle), PAUSE) == State(Pause1, InProcess, PauseAsleep)
  {
  }

  const PAUSE := [CallPause, ControllerStep, ControllerStep, ControllerStep, ControllerStep]
  const STOP := [WorkerStep(false), WorkerStep(true), WorkerStep(true)]

  /** The failing run: onProcess asks to stop while a pause is being requested, so the worker exits
      without notifying and the pause sleeps for ever. */
  lemma PauseCanHang()
    ensures exists before :: Runs(INITIAL, before) && After(INITIAL, before) == State(None, Done, PauseAsleep)
    ensures forall more | Runs(State(None, Done, PauseAsleep), more) ::
              After(State(None, Done, PauseAsleep), more).controller == PauseAsleep
  {
    ReachesProcess();
    PauseFallsAsleep();
    StopsAsleep();
    RunsThen(INITIAL, WorkerAlone(6), PAUSE);
    RunsThen(INITIAL, WorkerAlone(6) + PAUSE, STOP);
    forall more | Runs(State(None, Done, PauseAsleep), more)
      ensures After(State(None, Done, PauseAsleep), more).controller == PauseAsleep
    {
      LeavingNeverAnswers(State(None, Done, PauseAsleep), more);
    }
  }

  lemma StopsAsleep()
    ensures Runs(State(Pause1, InProcess, PauseAsleep), STOP)
    ensures After(State(Pause1, InProcess, PauseAsleep), STOP) == State(None, Done, PauseAsleep)
  {
  }

  lemma {:induction false} RunsThen(s: State, first: seq<Action>, rest: seq<Action>)
    requires Runs(s, first) && Runs(After(s, first), rest)
    ensures Runs(s, first + rest) && After(s, first + rest) == After(After(s, first), rest)
    decreases |first|
  {
    if first == [] {
      assert first + rest == rest;
    } else {
      RunsThen(Step(s, first[0]), first[1..], rest);
      assert (first + rest)[1..] == first[1..] + rest;
    }
  }

  // ----- quit and destruction

  /** How many of the actions start onProcess. */
  function Starts(s: State, actions: seq<Action>): nat
    requires Runs(s, actions)
    decreases |actions|
  {
    if actions == [] then 0
    else (if actions[0].WorkerStep? && s.worker == StartProcess then 1 else 0)
         + Starts(Step(s, actions[0]), actions[1..])
  }

  function Destroys(s: State, actions: seq<Action>): nat
    requires Runs(s, actions)
    decreases |actions|
  {
    if actions == [] then 0
    else (if actions[0].WorkerStep? && s.worker == CallDestroy then 1 else 0)
         + Destroys(Step(s, actions[0]), actions[1..])
  }

  predicate Quitting(s: State) {
    s.state == Quit || s.worker == Done
  }

  lemma {:induction false} QuittingStarts(s: State, actions: seq<Action>)
    requires Inv(s) && Quitting(s) && Runs(s, actions)
    ensures Starts(s, actions) <= if s.worker in {CallInit, CheckPause1, CheckPause2, StartProcess} then 1 else 0
    decreases |actions|
  {
    if actions != [] {
      StepKeepsInv(s, actions[0]);
      QuittingStarts(Step(s, actions[0]), actions[1..]);
    }
  }

  /** After quit has stored, at most one more onProcess starts, in every interleaving. */
  lemma AtMostOneStartAfterQuit(before: seq<Action>, more: seq<Action>)
    requires Runs(INITIAL, before) && After(INITIAL, before).controller == QuitStore
    requires Runs(Step(After(INITIAL, before), ControllerStep), more)
    ensures Starts(Step(After(INITIAL, before), ControllerStep), more) <= 1
  {
    RunKeepsInv(INITIAL, before);
    var s := After(INITIAL, before);
    StepKeepsInv(s, ControllerStep);
    QuittingStarts(Step(s, ControllerStep), more);
  }

  lemma {:induction false} DestroysFrom(s: State, actions: seq<Action>)
    requires Runs(s, actions)
    ensures Destroys(s, actions) + (if s.worker in {StoreNone, Done} then 1 else 0)
            == if After(s, actions).worker in {StoreNone, Done} then 1 else 0
    decreases |actions|
  {
    if actions != [] {
      DestroysFrom(Step(s, actions[0]), actions[1..]);
    }
  }

  /** In every run onDestroy is called at most once, and exactly once by the time the thread is over. */
  lemma DestroyedOnce(actions: seq<Action>)
    requires Runs(INITIAL, actions)
    ensures Destroys(INITIAL, actions) <= 1
    ensures After(INITIAL, actions).worker == Done ==> Destroys(INITIAL, actions) == 1
  {
    DestroysFrom(INITIAL, actions);
  }
}
