/** What resume and quit bring about, and what a callback's answer does. */
module ThreadControl {
  import opened ThreadBase

  /** The calls as the controller carries them out, step by step. */
  const RESUME := [CallResume, ControllerStep, ControllerStep]
  const QUIT := [CallQuit, ControllerStep, ControllerStep]

  /** The controller's part of a run. */
  function Calls(actions: seq<Action>): seq<Action> {
    if actions == [] then []
    else (if actions[0].WorkerStep? then [] else [actions[0]]) + Calls(actions[1..])
  }

  /** The worker's part of a run: what the callbacks would answer at each of its steps. */
  function Choices(actions: seq<Action>): seq<bool> {
    if actions == [] then []
    else (if actions[0].WorkerStep? then [actions[0].choice] else []) + Choices(actions[1..])
  }

  // ----- resume

  /** The run has the worker in onProcess. */
  predicate Processes(s: State, actions: seq<Action>)
    requires Runs(s, actions)
    decreases |actions|
  {
    s.worker == InProcess || (actions != [] && Processes(Step(s, actions[0]), actions[1..]))
  }

  /** The worker's steps into onProcess from where a pause can leave it. */
  function ToProcess(w: Worker): nat {
    match w
    case CheckQuit => 4
    case CheckPause1 => 3
    case CheckPause2 => 2
    case StartProcess => 1
    case _ => 0
  }

  /** With `left` of the controller's steps to come before resume has stored, the worker has after them the steps
      that it needs. */
  predicate Resumes(s: State, actions: seq<Action>, left: nat)
    requires Runs(s, actions)
    decreases |actions|
  {
    if left == 0 then ToProcess(s.worker) <= |Choices(actions)|
    else actions != [] && Resumes(Step(s, actions[0]), actions[1..], if actions[0].WorkerStep? then left else left - 1)
  }

  lemma {:induction false} NormalProcesses(s: State, actions: seq<Action>)
    requires Runs(s, actions) && Calls(actions) == [] && s.state == Normal
    requires s.worker in {CheckQuit, CheckPause1, CheckPause2, StartProcess, InProcess}
    ensures Processes(s, actions) <==> ToProcess(s.worker) <= |Choices(actions)|
    decreases |actions|
  {
    if actions != [] && s.worker != InProcess {
      NormalProcesses(Step(s, actions[0]), actions[1..]);
    }
  }

  /** The controller, with these of its steps to come in a resume that will take effect. */
  predicate Resuming(s: State, calls: seq<Action>) {
    && s.state == Pause2 && s.worker in {CheckQuit, CheckPause1, CheckPause2}
    && ((calls == RESUME && s.controller == Idle) || (calls == [ControllerStep, ControllerStep] && s.controller == ResumeLoad)
        || (calls == [ControllerStep] && s.controller == ResumeStore))
  }

  /** A step of the controller is the first of those to come. */
  lemma NextCall(actions: seq<Action>, calls: seq<Action>)
    requires actions != [] && !actions[0].WorkerStep? && Calls(actions) <= calls
    ensures calls != [] && actions[0] == calls[0] && Calls(actions[1..]) <= calls[1..]
    ensures Calls(actions) == calls ==> Calls(actions[1..]) == calls[1..]
  {
    assert Calls(actions) == [actions[0]] + Calls(actions[1..]);
    assert Calls(actions)[1..] == Calls(actions[1..]);
  }

  lemma ResumingStep(s: State, a: Action, calls: seq<Action>)
    requires Resuming(s, calls) && Enabled(s, a)
    ensures a.WorkerStep? ==> Resuming(Step(s, a), calls)
    ensures a == calls[0] && |calls| > 1 ==> Resuming(Step(s, a), calls[1..])
    ensures a == calls[0] && |calls| == 1 ==> Step(s, a) == s.(state := Normal, controller := Idle)
  {
  }

  lemma {:induction false} ResumingProcesses(s: State, actions: seq<Action>, calls: seq<Action>)
    requires Runs(s, actions) && Resuming(s, calls) && Calls(actions) <= calls
    ensures Processes(s, actions) <==> Resumes(s, actions, |calls|)
    decreases |actions|
  {
    if actions != [] {
      var a, s', rest := actions[0], Step(s, actions[0]), actions[1..];
      ResumingStep(s, a, calls);
      if a.WorkerStep? {
        ResumingProcesses(s', rest, calls);
      } else {
        NextCall(actions, calls);
        if |calls| == 1 {
          NormalProcesses(s', rest);
        } else {
          ResumingProcesses(s', rest, calls[1..]);
        }
      }
    }
  }

  /** Which runs take a paused worker back into onProcess, for every reachable state between calls in which the
      worker is parked and every run of it with one resume: those in which resume comes to its end and leaves the
      worker, wherever in its waiting loop it then is, the at most four steps it needs. */
  lemma ResumeIff(before: seq<Action>, actions: seq<Action>)
    requires Runs(INITIAL, before) && After(INITIAL, before).controller == Idle && After(INITIAL, before).state == Pause2
    requires Runs(After(INITIAL, before), actions) && Calls(actions) <= RESUME
    ensures var s := After(INITIAL, before);
            Processes(s, actions) <==> Resumes(s, actions, 3)
  {
    RunKeepsInv(INITIAL, before);
    ResumingProcesses(After(INITIAL, before), actions, RESUME);
  }

  /** When a resume has come to its end, the worker's own steps take it into onProcess, and they are at most four. */
  lemma ResumeReaches(before: seq<Action>, first: seq<Action>)
    requires Runs(INITIAL, before) && After(INITIAL, before).controller == Idle && After(INITIAL, before).state == Pause2
    requires Runs(After(INITIAL, before), first) && Calls(first) == RESUME && !first[|first| - 1].WorkerStep?
    ensures var s := After(After(INITIAL, before), first);
            var own := WorkerAlone(ToProcess(s.worker));
            |own| <= 4 && Runs(s, own) && After(s, own).worker == InProcess
  {
    RunKeepsInv(INITIAL, before);
    StoreLeavesNormal(After(INITIAL, before), first, RESUME);
    WorkerProcesses(After(After(INITIAL, before), first));
  }

  lemma {:induction false} StoreLeavesNormal(s: State, first: seq<Action>, calls: seq<Action>)
    requires Runs(s, first) && Resuming(s, calls) && Calls(first) == calls && !first[|first| - 1].WorkerStep?
    ensures After(s, first).state == Normal && After(s, first).worker in {CheckQuit, CheckPause1, CheckPause2}
    decreases |first|
  {
    var s', rest := Step(s, first[0]), first[1..];
    assert rest != [] ==> rest[|rest| - 1] == first[|first| - 1];
    ResumingStep(s, first[0], calls);
    if first[0].WorkerStep? {
      StoreLeavesNormal(s', rest, calls);
    } else {
      NextCall(first, calls);
      if |calls| == 1 {
        NoMoreCalls(rest);
      } else {
        StoreLeavesNormal(s', rest, calls[1..]);
      }
    }
  }

  /** A stretch without calls that does not end with a worker's step is empty. */
  lemma {:induction false} NoMoreCalls(actions: seq<Action>)
    requires Calls(actions) == [] && (actions != [] ==> !actions[|actions| - 1].WorkerStep?)
    ensures actions == []
  {
    if actions != [] {
      NoMoreCalls(actions[1..]);
    }
  }

  lemma {:induction false} WorkerProcesses(s: State)
    requires s.state == Normal && s.worker in {CheckQuit, CheckPause1, CheckPause2, StartProcess, InProcess}
    ensures var own := WorkerAlone(ToProcess(s.worker));
            Runs(s, own) && After(s, own).worker == InProcess
    decreases ToProcess(s.worker)
  {
    if s.worker != InProcess {
      var s' := Step(s, WorkerStep(true));
      WorkerProcesses(s');
      assert WorkerAlone(ToProcess(s.worker))[1..] == WorkerAlone(ToProcess(s'.worker));
    }
  }

  // ----- quit

  /** The worker's steps to its end once quit has stored; they depend on what the callback answers that the worker
      is in or bound to call before it looks again. */
  function ToDone(w: Worker, choices: seq<bool>): nat {
    match w
    case Done => 0
    case StoreNone => 1
    case CallDestroy => 2
    case NotifyQuit => 3
    case CheckQuit => 4
    case InProcess => if choices != [] && !choices[0] then 3 else 5
    case CallInit => if choices != [] && !choices[0] then 3 else 5
    case StartProcess => if |choices| > 1 && !choices[1] then 4 else 6
    case CheckPause2 => if |choices| > 2 && !choices[2] then 5 else 7
    case CheckPause1 => if |choices| > 3 && !choices[3] then 6 else 8
    case _ => 9
  }

  /** With `left` of the controller's steps to come before quit has stored, the worker has after them the steps
      that it needs, or it is over anyway. */
  predicate Ends(s: State, actions: seq<Action>, left: nat)
    requires Runs(s, actions)
    decreases |actions|
  {
    if left == 0 then ToDone(s.worker, Choices(actions)) <= |Choices(actions)|
    else if actions == [] then s.worker == Done
    else Ends(Step(s, actions[0]), actions[1..], if actions[0].WorkerStep? then left else left - 1)
  }

  /** One of the worker's steps once quit has stored. */
  lemma QuitStep(s: State, choice: bool, rest: seq<bool>)
    requires Inv(s) && Quitting(s) && s.controller == Idle && s.worker != Done
    ensures Enabled(s, WorkerStep(choice))
    ensures var s' := Step(s, WorkerStep(choice));
            && Inv(s') && Quitting(s') && s'.controller == Idle
            && ToDone(s'.worker, rest) + 1 == ToDone(s.worker, [choice] + rest)
  {
    StepKeepsInv(s, WorkerStep(choice));
  }

  lemma {:induction false} QuitEnds(s: State, actions: seq<Action>)
    requires Runs(s, actions) && Calls(actions) == [] && Inv(s) && Quitting(s) && s.controller == Idle
    ensures After(s, actions).worker == Done <==> ToDone(s.worker, Choices(actions)) <= |Choices(actions)|
    decreases |actions|
  {
    if actions != [] {
      QuitStep(s, actions[0].choice, Choices(actions[1..]));
      QuitEnds(Step(s, actions[0]), actions[1..]);
    }
  }

  /** The controller, with these of its steps to come in a quit. */
  predicate InQuit(s: State, calls: seq<Action>) {
    && (s.state == None ==> s.worker == Done)
    && ((calls == QUIT && s.controller == Idle) || (calls == [ControllerStep, ControllerStep] && s.controller == QuitLoad)
        || (calls == [ControllerStep] && (s.controller == QuitStore || (s.controller == Idle && s.worker == Done))))
  }

  lemma InQuitStep(s: State, a: Action, calls: seq<Action>)
    requires Inv(s) && InQuit(s, calls) && Enabled(s, a)
    ensures Inv(Step(s, a))
    ensures a.WorkerStep? ==> InQuit(Step(s, a), calls)
    ensures a == calls[0] && |calls| > 1 ==> InQuit(Step(s, a), calls[1..])
    ensures a == calls[0] && |calls| == 1 ==> Quitting(Step(s, a)) && Step(s, a).controller == Idle
  {
    StepKeepsInv(s, a);
  }

  lemma {:induction false} InQuitEnds(s: State, actions: seq<Action>, calls: seq<Action>)
    requires Runs(s, actions) && Inv(s) && InQuit(s, calls) && Calls(actions) <= calls
    ensures After(s, actions).worker == Done <==> Ends(s, actions, |calls|)
    decreases |actions|
  {
    if actions != [] {
      var a, s', rest := actions[0], Step(s, actions[0]), actions[1..];
      InQuitStep(s, a, calls);
      if a.WorkerStep? {
        InQuitEnds(s', rest, calls);
      } else {
        NextCall(actions, calls);
        if |calls| == 1 {
          QuitEnds(s', rest);
        } else {
          InQuitEnds(s', rest, calls[1..]);
        }
      }
    }
  }

  /** Which runs end the thread, for every reachable state between calls in which it has begun and every run of it
      with one quit: those in which quit comes to its end and leaves the worker the at most eight steps it needs, and
      those in which the worker is over without it. onDestroy has then been called once. */
  lemma QuitIff(before: seq<Action>, actions: seq<Action>)
    requires Runs(INITIAL, before) && After(INITIAL, before).controller == Idle
    requires After(INITIAL, before).worker != StoreNormal
    requires Runs(After(INITIAL, before), actions) && Calls(actions) <= QUIT
    ensures var s := After(INITIAL, before);
            && (After(s, actions).worker == Done <==> Ends(s, actions, 3))
            && (After(s, actions).worker == Done ==> Destroys(INITIAL, before) + Destroys(s, actions) == 1)
  {
    RunKeepsInv(INITIAL, before);
    InQuitEnds(After(INITIAL, before), actions, QUIT);
    DestroysFrom(INITIAL, before);
    DestroysFrom(After(INITIAL, before), actions);
  }

  /** A worker that has seen quit is never blocked, and its own steps end it; they are at most eight. */
  lemma QuitReaches(before: seq<Action>)
    requires Runs(INITIAL, before) && After(INITIAL, before).controller == QuitStore
    ensures var s := Step(After(INITIAL, before), ControllerStep);
            var own := WorkerAlone(ToDone(s.worker, []));
            |own| <= 8 && Runs(s, own) && After(s, own).worker == Done
  {
    RunKeepsInv(INITIAL, before);
    var s := After(INITIAL, before);
    StepKeepsInv(s, ControllerStep);
    WorkerEnds(Step(s, ControllerStep));
  }

  lemma {:induction false} WorkerEnds(s: State)
    requires Inv(s) && Quitting(s) && s.controller == Idle
    ensures var own := WorkerAlone(ToDone(s.worker, []));
            Runs(s, own) && After(s, own).worker == Done
    decreases ToDone(s.worker, [])
  {
    if s.worker != Done {
      var s' := Step(s, WorkerStep(true));
      QuitStep(s, true, []);
      WorkerEnds(s');
      assert ToDone(s.worker, [true]) == ToDone(s.worker, []);
      assert WorkerAlone(ToDone(s.worker, []))[1..] == WorkerAlone(ToDone(s'.worker, []));
    }
  }

  /** A quit is lost on a thread that will run all the same exactly when it looks at the state before the thread has
      made its first store. */
  lemma QuitLostIff(before: seq<Action>)
    requires Runs(INITIAL, before) && After(INITIAL, before).controller == QuitLoad
    ensures var s := After(INITIAL, before);
            Step(s, ControllerStep) == s.(controller := Idle) && s.worker != Done <==> s.worker == StoreNormal
  {
    RunKeepsInv(INITIAL, before);
  }

  /** The failing run. */
  lemma EarlyQuitIsLost()
    ensures Runs(INITIAL, [CallQuit, ControllerStep]) && After(INITIAL, [CallQuit, ControllerStep]) == INITIAL
  {
    assert Step(Step(INITIAL, CallQuit), ControllerStep) == INITIAL;
  }

  // ----- the callbacks

  lemma {:induction false} LeavingStarts(s: State, actions: seq<Action>)
    requires Leaving(s) && Runs(s, actions)
    ensures Starts(s, actions) == 0
    decreases |actions|
  {
    if actions != [] {
      LeavingStarts(Step(s, actions[0]), actions[1..]);
    }
  }

  /** When onInit fails, or onProcess asks to stop, no onProcess starts any more, and onDestroy runs in the worker's
      next step; when not, the worker looks for a quit next. */
  lemma CallbackDecides(s: State, choice: bool, more: seq<Action>)
    requires s.worker in {CallInit, InProcess} && Runs(Step(s, WorkerStep(choice)), more)
    ensures Step(s, WorkerStep(choice)).worker == if choice then CheckQuit else CallDestroy
    ensures !choice ==> Starts(Step(s, WorkerStep(choice)), more) == 0
  {
    if !choice {
      LeavingStarts(Step(s, WorkerStep(choice)), more);
    }
  }
}
