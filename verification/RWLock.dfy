/** The writer-preferring read/write lock. Every section that runs under the lock's mutex is one
    atomic step; a condition variable is the set of calls blocked in `wait`, split into those
    still asleep and those already notified that have not yet re-taken the mutex. */
module RWLock {
  import opened Basics

  /** One call of lock, and what it holds until the call of unlock that ends it. The lock does not know threads:
      a thread that locks again while it holds the lock or waits makes another call. */
  type Call = nat

  datatype CondVar = CondVar(asleep: set<Call>, notified: set<Call>) {
    function Waiters(): set<Call> { asleep + notified }

    function Block(t: Call): CondVar { CondVar(asleep + {t}, notified - {t}) }

    function Leave(t: Call): CondVar { CondVar(asleep - {t}, notified - {t}) }

    function NotifyAll(): CondVar { CondVar({}, asleep + notified) }

    /** Notifying one wakes a sleeper of the scheduler's choice, or nobody when nobody sleeps. */
    function NotifyOne(pick: Option<Call>): CondVar {
      match pick
      case None => this
      case Some(t) => CondVar(asleep - {t}, notified + {t})
    }

    predicate CanPick(pick: Option<Call>) {
      match pick
      case None => asleep == {}
      case Some(t) => t in asleep
    }
  }

  /** The lock's own fields, and who is inside. */
  datatype State = State(
    readCount: nat, writeCount: nat, writing: bool,
    condRead: CondVar, condWrite: CondVar,
    readers: set<Call>, writers: set<Call>)
  {
    predicate CanRead() { writeCount == 0 }

    predicate CanWrite() { readCount == 0 && !writing }

    function Waiting(): set<Call> { condRead.Waiters() + condWrite.Waiters() }

    function Involved(): set<Call> { Waiting() + readers + writers }
  }

  const INITIAL := State(0, 0, false, CondVar({}, {}), CondVar({}, {}), {}, {})

  datatype Action =
    | LockRead(t: Call)
    | WakeRead(t: Call)
    | LockWrite(t: Call)
    | WakeWrite(t: Call)
    | UnlockRead(t: Call, pick: Option<Call>)
    | UnlockWrite(t: Call, pick: Option<Call>)
    | SpuriousRead(t: Call)
    | SpuriousWrite(t: Call)

  /** Whether unlocking for reading notifies a writer. */
  predicate LastReaderNotifies(s: State)
    requires s.readCount > 0
  {
    s.readCount - 1 == 0 && s.writeCount > 0
  }

  predicate Enabled(s: State, a: Action) {
    match a
    case LockRead(t) => t !in s.Involved()
    case WakeRead(t) => t in s.condRead.notified
    case LockWrite(t) => t !in s.Involved()
    case WakeWrite(t) => t in s.condWrite.notified
    case UnlockRead(t, pick) =>
      t in s.readers && s.readCount > 0 &&
      if LastReaderNotifies(s) then s.condWrite.CanPick(pick) else pick == None
    case UnlockWrite(t, pick) =>
      t in s.writers && s.writeCount > 0 &&
      if s.writeCount == 1 then pick == None else s.condWrite.CanPick(pick)
    case SpuriousRead(t) => t in s.condRead.asleep
    case SpuriousWrite(t) => t in s.condWrite.asleep
  }

  /** The end of lock(read): the predicate is checked, then the thread enters or blocks. */
  function TryRead(s: State, t: Call): State {
    if s.CanRead()
    then s.(readCount := s.readCount + 1, condRead := s.condRead.Leave(t), readers := s.readers + {t})
    else s.(condRead := s.condRead.Block(t))
  }

  function TryWrite(s: State, t: Call): State {
    if s.CanWrite()
    then s.(writing := true, condWrite := s.condWrite.Leave(t), writers := s.writers + {t})
    else s.(condWrite := s.condWrite.Block(t))
  }

  function Step(s: State, a: Action): State
    requires Enabled(s, a)
  {
    match a
    case LockRead(t) => TryRead(s, t)
    case WakeRead(t) => TryRead(s, t)
    case LockWrite(t) => TryWrite(s.(writeCount := s.writeCount + 1), t)
    case WakeWrite(t) => TryWrite(s, t)
    case UnlockRead(t, pick) =>
      s.(readCount := s.readCount - 1, readers := s.readers - {t},
         condWrite := s.condWrite.NotifyOne(pick))
    case UnlockWrite(t, pick) =>
      s.(writeCount := s.writeCount - 1, writing := false, writers := s.writers - {t},
         condRead := if s.writeCount == 1 then s.condRead.NotifyAll() else s.condRead,
         condWrite := s.condWrite.NotifyOne(pick))
    case SpuriousRead(t) => s.(condRead := s.condRead.NotifyOne(Some(t)))
    case SpuriousWrite(t) => s.(condWrite := s.condWrite.NotifyOne(Some(t)))
  }

  /** A run: every action is enabled where it happens. */
  predicate Runs(s: State, actions: seq<Action>)
    decreases |actions|
  {
    actions == [] || (Enabled(s, actions[0]) && Runs(Step(s, actions[0]), actions[1..]))
  }

  function After(s: State, actions: seq<Action>): State
    requires Runs(s, actions)
    decreases |actions|
  {
    if actions == [] then s else After(Step(s, actions[0]), actions[1..])
  }

  // ----- what holds in every reachable state

  predicate Exclusive(s: State) {
    && |s.writers| <= 1
    && (s.writers != {} ==> s.readers == {})
  }

  predicate Counted(s: State) {
    && s.readCount == |s.readers|
    && s.writeCount == |s.condWrite.Waiters()| + |s.writers|
    && (s.writing <==> s.writers != {})
  }

  /** Nobody waits for what it already holds. */
  predicate Apart(s: State) {
    && s.condRead.Waiters() !! s.readers
    && s.condWrite.Waiters() !! s.writers
  }

  /** No lost wakeup: a reader sleeps only while a writer is counted, and whenever the lock is free
      with writers waiting, one of them has been notified. */
  predicate Woken(s: State) {
    && (s.writeCount == 0 ==> s.condRead.asleep == {})
    && (s.readers == {} && s.writers == {} && s.writeCount > 0 ==> s.condWrite.notified != {})
  }

  predicate Inv(s: State) {
    Exclusive(s) && Counted(s) && Apart(s) && Woken(s)
  }

  lemma CardinalityFacts(a: set<Call>, t: Call)
    ensures t !in a ==> |a + {t}| == |a| + 1
    ensures t in a ==> |a - {t}| == |a| - 1
    ensures |a| == 0 <==> a == {}
  {
  }

  lemma SingleWriter(s: State, t: Call)
    requires Inv(s) && t in s.writers
    ensures s.writers == {t} && s.readers == {}
  {
    CardinalityFacts(s.writers, t);
    CardinalityFacts(s.writers - {t}, t);
  }

  lemma NotifyOneKeepsWaiters(c: CondVar, pick: Option<Call>)
    requires c.CanPick(pick) || pick == None
    ensures c.NotifyOne(pick).Waiters() == c.Waiters()
    ensures c.CanPick(pick) && c.Waiters() != {} ==> c.NotifyOne(pick).notified != {}
  {
    match pick
    case None =>
    case Some(t) => assert t in c.NotifyOne(pick).notified;
  }

  lemma TryReadKeeps(s: State, t: Call)
    requires Inv(s) && t !in s.readers
    ensures Inv(TryRead(s, t))
  {
  }

  /** Called with the writer already counted. */
  lemma TryWriteKeeps(s: State, t: Call)
    requires Exclusive(s) && Apart(s) && t !in s.writers
    requires s.readCount == |s.readers| && (s.writing <==> s.writers != {})
    requires s.writeCount == |s.condWrite.Waiters() + {t}| + |s.writers|
    ensures Inv(TryWrite(s, t))
  {
    var s' := TryWrite(s, t);
    var waiters := s.condWrite.Waiters() + {t};
    CardinalityFacts(waiters, t);
    CardinalityFacts(s.readers, t);
    if s.CanWrite() {
      assert s.writers == {} && s'.writers == {t};
      assert s'.condWrite.Waiters() == waiters - {t};
    } else {
      assert s'.condWrite.Waiters() == waiters;
    }
  }

  lemma UnlockReadKeeps(s: State, t: Call, pick: Option<Call>)
    requires Inv(s) && Enabled(s, UnlockRead(t, pick))
    ensures Inv(Step(s, UnlockRead(t, pick)))
  {
    CardinalityFacts(s.readers, t);
    CardinalityFacts(s.readers - {t}, t);
    NotifyOneKeepsWaiters(s.condWrite, pick);
    assert s.writers == {};
    CardinalityFacts(s.condWrite.Waiters(), t);
  }

  lemma UnlockWriteKeeps(s: State, t: Call, pick: Option<Call>)
    requires Inv(s) && Enabled(s, UnlockWrite(t, pick))
    ensures Inv(Step(s, UnlockWrite(t, pick)))
  {
    SingleWriter(s, t);
    NotifyOneKeepsWaiters(s.condWrite, pick);
    CardinalityFacts(s.condWrite.Waiters(), t);
    var s' := Step(s, UnlockWrite(t, pick));
    assert s'.writers == {};
    assert s'.condRead.Waiters() == s.condRead.Waiters();
  }

  lemma StepKeepsInv(s: State, a: Action)
    requires Inv(s) && Enabled(s, a)
    ensures Inv(Step(s, a))
  {
    match a
    case LockRead(t) => TryReadKeeps(s, t);
    case WakeRead(t) => TryReadKeeps(s, t);
    case LockWrite(t) =>
      CardinalityFacts(s.condWrite.Waiters(), t);
      TryWriteKeeps(s.(writeCount := s.writeCount + 1), t);
    case WakeWrite(t) =>
      assert s.condWrite.Waiters() + {t} == s.condWrite.Waiters();
      TryWriteKeeps(s, t);
    case UnlockRead(t, pick) => UnlockReadKeeps(s, t, pick);
    case UnlockWrite(t, pick) => UnlockWriteKeeps(s, t, pick);
    case SpuriousRead(t) => NotifyOneKeepsWaiters(s.condRead, Some(t));
    case SpuriousWrite(t) => NotifyOneKeepsWaiters(s.condWrite, Some(t));
  }

  lemma {:induction false} RunKeepsInv(s: State, actions: seq<Action>)
    requires Inv(s) && Runs(s, actions)
    ensures Inv(After(s, actions))
    decreases |actions|
  {
    if actions != [] {
      StepKeepsInv(s, actions[0]);
      RunKeepsInv(Step(s, actions[0]), actions[1..]);
    }
  }

  /** Safety over whole runs: readers and a writer never hold the lock together, there is at most one
      writer, and the write counter is the waiting writers plus the active one. */
  lemma MutualExclusion(actions: seq<Action>)
    requires Runs(INITIAL, actions)
    ensures var s := After(INITIAL, actions);
            && Exclusive(s)
            && s.readCount == |s.readers|
            && s.writeCount == |s.condWrite.Waiters()| + |s.writers|
  {
    RunKeepsInv(INITIAL, actions);
  }

  /** Writer preference: in no run does a reader get in while any writer is counted. */
  lemma WriterPreference(actions: seq<Action>, a: Action, t: Call)
    requires Runs(INITIAL, actions) && Enabled(After(INITIAL, actions), a)
    ensures var s := After(INITIAL, actions);
            t in Step(s, a).readers && t !in s.readers
            ==> s.writeCount == 0 && s.writers == {} && s.condWrite.Waiters() == {}
  {
    RunKeepsInv(INITIAL, actions);
    var s := After(INITIAL, actions);
    CardinalityFacts(s.writers, t);
    CardinalityFacts(s.condWrite.Waiters(), t);
  }

  /** Never stuck: when nobody holds the lock and somebody waits, a waiter that has already been
      notified finds its predicate true, and its next step takes the lock. */
  lemma NeverStuck(actions: seq<Action>)
    requires Runs(INITIAL, actions)
    requires var s := After(INITIAL, actions);
             s.readers == {} && s.writers == {} && s.Waiting() != {}
    ensures var s := After(INITIAL, actions);
            || (exists t :: t in s.condRead.notified && s.CanRead() && t in Step(s, WakeRead(t)).readers)
            || (exists t :: t in s.condWrite.notified && s.CanWrite() && t in Step(s, WakeWrite(t)).writers)
  {
    RunKeepsInv(INITIAL, actions);
    var s := After(INITIAL, actions);
    if s.writeCount == 0 {
      CardinalityFacts(s.condWrite.Waiters(), 0);
      var t :| t in s.condRead.notified;
      assert t in Step(s, WakeRead(t)).readers;
    } else {
      var t :| t in s.condWrite.notified;
      assert t in Step(s, WakeWrite(t)).writers;
    }
  }

  /** The lock object. Each method is one mutex-protected section of lock or unlock; a call that blocks
      is continued by the matching Wake method once the thread is notified. */
  class CRWLock {
    var readCount: nat
    var writeCount: nat
    var writing: bool
    var condRead: CondVar
    var condWrite: CondVar
    ghost var readers: set<Call>
    ghost var writers: set<Call>

    ghost function View(): State
      reads this
    {
      State(readCount, writeCount, writing, condRead, condWrite, readers, writers)
    }

    constructor ()
      ensures View() == INITIAL
    {
      readCount, writeCount, writing := 0, 0, false;
      condRead, condWrite := CondVar({}, {}), CondVar({}, {});
      readers, writers := {}, {};
    }

    method BeginLockRead(t: Call) returns (entered: bool)
      requires Enabled(View(), LockRead(t))
      modifies this
      ensures View() == Step(old(View()), LockRead(t))
      ensures entered <==> t in readers
    {
      entered := AwaitRead(t);
    }

    method AwaitRead(t: Call) returns (entered: bool)
      requires t !in readers
      modifies this
      ensures View() == TryRead(old(View()), t)
      ensures entered <==> t in readers
    {
      entered := writeCount == 0;
      if entered {
        condRead := condRead.Leave(t);
        readCount := readCount + 1;
        readers := readers + {t};
      } else {
        condRead := condRead.Block(t);
      }
    }

    method BeginLockWrite(t: Call) returns (entered: bool)
      requires Enabled(View(), LockWrite(t))
      modifies this
      ensures View() == Step(old(View()), LockWrite(t))
      ensures entered <==> t in writers
    {
      writeCount := writeCount + 1;
      entered := AwaitWrite(t);
    }

    method AwaitWrite(t: Call) returns (entered: bool)
      requires t !in writers
      modifies this
      ensures View() == TryWrite(old(View()), t)
      ensures entered <==> t in writers
    {
      entered := readCount == 0 && !writing;
      if entered {
        condWrite := condWrite.Leave(t);
        writing := true;
        writers := writers + {t};
      } else {
        condWrite := condWrite.Block(t);
      }
    }

    method UnlockForWrite(t: Call) returns (pick: Option<Call>)
      requires t in writers && writeCount > 0
      modifies this
      ensures old(Enabled(View(), UnlockWrite(t, pick)))
      ensures View() == Step(old(View()), UnlockWrite(t, pick))
    {
      pick := None;
      writeCount := writeCount - 1;
      if writeCount == 0 {
        condRead := condRead.NotifyAll();
      } else {
        pick := NotifyOneWriter();
      }
      writing := false;
      writers := writers - {t};
    }

    method UnlockForRead(t: Call) returns (pick: Option<Call>)
      requires t in readers && readCount > 0
      modifies this
      ensures old(Enabled(View(), UnlockRead(t, pick)))
      ensures View() == Step(old(View()), UnlockRead(t, pick))
    {
      pick := None;
      readCount := readCount - 1;
      if readCount == 0 && writeCount > 0 {
        pick := NotifyOneWriter();
      }
      readers := readers - {t};
    }

    method NotifyOneWriter() returns (pick: Option<Call>)
      modifies this`condWrite
      ensures old(condWrite).CanPick(pick) && condWrite == old(condWrite).NotifyOne(pick)
    {
      pick := None;
      if condWrite.asleep != {} {
        var t :| t in condWrite.asleep;
        pick := Some(t);
      }
      condWrite := condWrite.NotifyOne(pick);
    }
  }
}
