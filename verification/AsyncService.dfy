/** AsyncService: `run`, `start` and `stop` called by any number of threads, as a machine whose
    steps are the accesses to the shared fields and to the two mutexes. */
module AsyncService {

  datatype Option<T> = None | Some(value: T)

  /** Where a thread is. */
  datatype Place =
    | Idle                 // a client between calls
    | Exited               // a worker whose `run` has returned or thrown
    // run
    | RunEnter             // line 55: about to lock waitMutex_
    | RunCheck             // line 56: holds waitMutex_
    | RunBusy              // line 57: already running, about to release and return
    | RunSet               // line 59: isRunning_ = true
    | RunNotify            // lines 60-62: waiterWasNotified_ = true, notify
    | RunRelease           // line 63
    | Running              // lines 64-76: inside the executor
    // start
    | StartEnter           // line 93: about to lock startMutex_
    | StartCheck           // line 94: holds startMutex_
    | StartOld             // line 97: is there an old thread?
    | StartJoin            // line 99
    | StartLock            // line 107: about to lock waitMutex_
    | StartSpawn           // line 108: holds both
    | StartClear           // line 115: waiterWasNotified_ = false
    | StartTest            // line 116: tests the predicate of the wait, holding both
    | StartBlocked         // line 116: asleep, waitMutex_ released
    | StartWoken           // line 116: woken, about to lock waitMutex_ again
    | StartReturn          // line 117: releases both
    // stop
    | StopEnter            // line 121
    | StopJoin             // lines 128-131: holds startMutex_
    | StopReturn           // line 132

  datatype Thread = Thread(at: Place, worker: bool)

  datatype Service = Service(
    threads: map<nat, Thread>,
    isRunning: bool,
    notified: bool,              // waiterWasNotified_
    startMutex: Option<nat>,     // who holds it
    waitMutex: Option<nat>,
    worker: Option<nat>)         // thread_

  datatype Call = Run | Start | Stop

  /** `Invoke`: an idle client makes a call. `Go`: a thread makes its next step; `spawned` is the
      id of the thread it creates, if it creates one. `Spurious`: a sleeper wakes by itself. */
  datatype Event = Invoke(t: nat, call: Call) | Go(t: nat, spawned: nat) | Spurious(t: nat)

  function Init(clients: set<nat>): Service {
    Service(map t | t in clients :: Thread(Idle, false), false, false, None, None, None)
  }

  function Move(s: Service, t: nat, p: Place): Service
    requires t in s.threads
  {
    s.(threads := s.threads[t := s.threads[t].(at := p)])
  }

  /** A thread back from `run`: a worker is over, a client goes on. */
  function Home(s: Service, t: nat): Place
    requires t in s.threads
  {
    if s.threads[t].worker then Exited else Idle
  }

  predicate JoinDone(s: Service) {
    s.worker.Some? ==> s.worker.value in s.threads && s.threads[s.worker.value].at.Exited?
  }

  /** `notify_one`: a sleeper is woken. Only a `start` sleeps, and it holds startMutex_. */
  function Notify(s: Service): Service {
    if s.startMutex.Some? && s.startMutex.value in s.threads && s.threads[s.startMutex.value].at.StartBlocked? then
      Move(s, s.startMutex.value, StartWoken)
    else s
  }

  /** Locking `waitMutex_` succeeds when it is free. */
  function LockWait(s: Service, t: nat, p: Place): Service
    requires t in s.threads
  {
    if s.waitMutex.None? then Move(s, t, p).(waitMutex := Some(t)) else s
  }

  function LockStart(s: Service, t: nat, p: Place): Service
    requires t in s.threads
  {
    if s.startMutex.None? then Move(s, t, p).(startMutex := Some(t)) else s
  }

  /** The next step of thread `t`, or nothing if it has to wait. */
  function Advance(s: Service, t: nat, spawned: nat): Service
    requires t in s.threads
  {
    match s.threads[t].at
    case Idle => s
    case Exited => s
    case RunEnter => LockWait(s, t, RunCheck)
    case RunCheck => Move(s, t, if s.isRunning then RunBusy else RunSet)
    case RunBusy => Move(s, t, Home(s, t)).(waitMutex := None)
    case RunSet => Move(s, t, RunNotify).(isRunning := true)
    case RunNotify => Notify(Move(s, t, RunRelease).(notified := true))
    case RunRelease => Move(s, t, Running).(waitMutex := None)
    case Running => Move(s, t, Home(s, t)).(isRunning := false)
    case StartEnter => LockStart(s, t, StartCheck)
    case StartCheck => if s.isRunning then Move(s, t, Idle).(startMutex := None) else Move(s, t, StartOld)
    case StartOld => Move(s, t, if s.worker.Some? then StartJoin else StartLock)
    case StartJoin => if JoinDone(s) then Move(s, t, StartLock).(worker := None) else s
    case StartLock => LockWait(s, t, StartSpawn)
    case StartSpawn =>
      if spawned in s.threads then s
      else var s1 := Move(s, t, StartClear);
           s1.(threads := s1.threads[spawned := Thread(RunEnter, true)], worker := Some(spawned))
    case StartClear => Move(s, t, StartTest).(notified := false)
    case StartTest => if s.notified then Move(s, t, StartReturn) else Move(s, t, StartBlocked).(waitMutex := None)
    case StartBlocked => s
    case StartWoken => LockWait(s, t, StartTest)
    case StartReturn => Move(s, t, Idle).(waitMutex := None, startMutex := None)
    case StopEnter => LockStart(s, t, StopJoin)
    case StopJoin => if JoinDone(s) then Move(s, t, StopReturn) else s
    case StopReturn => Move(s, t, Idle).(startMutex := None, worker := None)
  }

  function Step(s: Service, e: Event): Service {
    match e
    case Invoke(t, call) =>
      if t in s.threads && s.threads[t].at.Idle? then
        Move(s, t, match call case Run => RunEnter case Start => StartEnter case Stop => StopEnter)
      else s
    case Go(t, spawned) => if t in s.threads then Advance(s, t, spawned) else s
    case Spurious(t) =>
      if t in s.threads && s.threads[t].at.StartBlocked? then Move(s, t, StartWoken) else s
  }

  function Exec(s: Service, es: seq<Event>): Service
    decreases |es|
  {
    if es == [] then s else Exec(Step(s, es[0]), es[1..])
  }

  // ----- one runner -----

  /** Between setting and clearing `isRunning_`. */
  predicate Runs(p: Place) {
    p.RunNotify? || p.RunRelease? || p.Running?
  }

  predicate HoldsWait(p: Place) {
    p.RunCheck? || p.RunBusy? || p.RunSet? || p.RunNotify? || p.RunRelease?
    || p.StartSpawn? || p.StartClear? || p.StartTest? || p.StartReturn?
  }

  predicate HoldsStart(p: Place) {
    p.StartCheck? || p.StartOld? || p.StartJoin? || p.StartLock? || p.StartSpawn? || p.StartClear?
    || p.StartTest? || p.StartBlocked? || p.StartWoken? || p.StartReturn? || p.StopJoin? || p.StopReturn?
  }

  /** Each mutex is held by the thread that is where it holds it. */
  predicate Locks(threads: map<nat, Thread>, waitMutex: Option<nat>, startMutex: Option<nat>) {
    && (forall t :: t in threads ==> (HoldsWait(threads[t].at) <==> waitMutex == Some(t)))
    && (forall t :: t in threads ==> (HoldsStart(threads[t].at) <==> startMutex == Some(t)))
    && (waitMutex.Some? ==> waitMutex.value in threads)
    && (startMutex.Some? ==> startMutex.value in threads)
  }

  /** At most one thread is between setting and clearing `isRunning_`, which is set exactly when
      there is one; and a thread about to set it will find it clear. */
  predicate OneRunner(threads: map<nat, Thread>, isRunning: bool) {
    && (forall t, u :: t in threads && u in threads && Runs(threads[t].at) && Runs(threads[u].at) ==> t == u)
    && (isRunning <==> exists t :: t in threads && Runs(threads[t].at))
    && (forall t :: t in threads && threads[t].at.RunSet? ==> !isRunning)
  }

  ghost predicate Safe(s: Service) {
    Locks(s.threads, s.waitMutex, s.startMutex) && OneRunner(s.threads, s.isRunning)
  }

  /** A thread moves, and what it holds changes with it. */
  lemma MoveLocks(ts: map<nat, Thread>, w: Option<nat>, m: Option<nat>, t: nat, p: Place, w': Option<nat>, m': Option<nat>)
    requires Locks(ts, w, m) && t in ts
    requires w' == w || ((w == None || w == Some(t)) && (w' == None || w' == Some(t)))
    requires m' == m || ((m == None || m == Some(t)) && (m' == None || m' == Some(t)))
    requires (HoldsWait(p) <==> w' == Some(t)) && (HoldsStart(p) <==> m' == Some(t))
    ensures Locks(ts[t := ts[t].(at := p)], w', m')
  {
  }

  /** A move that neither sets nor clears `isRunning_`. */
  lemma MoveRunner(ts: map<nat, Thread>, running: bool, t: nat, p: Place)
    requires OneRunner(ts, running) && t in ts
    requires (Runs(p) <==> Runs(ts[t].at)) && (p.RunSet? ==> !running)
    ensures OneRunner(ts[t := ts[t].(at := p)], running)
  {
    var ts' := ts[t := ts[t].(at := p)];
    assert forall u :: u in ts ==> (Runs(ts'[u].at) <==> Runs(ts[u].at));
    if running {
      var r :| r in ts && Runs(ts[r].at);
      assert r in ts' && Runs(ts'[r].at);
    }
  }

  /** The steps that set and clear it. Nobody else is about to set it: setting is done under
      waitMutex_. */
  lemma SetRunner(ts: map<nat, Thread>, w: Option<nat>, m: Option<nat>, t: nat)
    requires Locks(ts, w, m) && OneRunner(ts, false) && t in ts && ts[t].at.RunSet?
    ensures OneRunner(ts[t := ts[t].(at := RunNotify)], true)
  {
    var ts' := ts[t := ts[t].(at := RunNotify)];
    assert t in ts' && Runs(ts'[t].at);
    assert forall u :: u in ts && u != t ==> ts'[u] == ts[u] && !Runs(ts[u].at);
    assert forall u :: u in ts && ts[u].at.RunSet? ==> w == Some(u);
  }

  lemma ClearRunner(ts: map<nat, Thread>, t: nat, p: Place)
    requires OneRunner(ts, true) && t in ts && Runs(ts[t].at) && !Runs(p) && !p.RunSet?
    ensures OneRunner(ts[t := ts[t].(at := p)], false)
  {
    var ts' := ts[t := ts[t].(at := p)];
    forall u | u in ts' ensures !Runs(ts'[u].at) {
      assert u != t ==> ts'[u] == ts[u];
    }
  }

  lemma SpawnSafe(s: Service, u: nat)
    requires Safe(s) && u !in s.threads
    ensures Locks(s.threads[u := Thread(RunEnter, true)], s.waitMutex, s.startMutex)
    ensures OneRunner(s.threads[u := Thread(RunEnter, true)], s.isRunning)
  {
    var ts' := s.threads[u := Thread(RunEnter, true)];
    if s.isRunning {
      var r :| r in s.threads && Runs(s.threads[r].at);
      assert r in ts' && Runs(ts'[r].at);
    }
  }

  lemma Holding(s: Service, t: nat)
    requires Safe(s) && t in s.threads
    ensures HoldsWait(s.threads[t].at) <==> s.waitMutex == Some(t)
    ensures HoldsStart(s.threads[t].at) <==> s.startMutex == Some(t)
    ensures s.threads[t].at.RunSet? ==> !s.isRunning
    ensures Runs(s.threads[t].at) ==> s.isRunning
  {
  }

  /** A move that changes only what its thread holds. */
  lemma MoveSafe(s: Service, t: nat, p: Place, w: Option<nat>, m: Option<nat>)
    requires Safe(s) && t in s.threads
    requires w == s.waitMutex || ((s.waitMutex == None || s.waitMutex == Some(t)) && (w == None || w == Some(t)))
    requires m == s.startMutex || ((s.startMutex == None || s.startMutex == Some(t)) && (m == None || m == Some(t)))
    requires (HoldsWait(p) <==> w == Some(t)) && (HoldsStart(p) <==> m == Some(t))
    requires (Runs(p) <==> Runs(s.threads[t].at)) && (p.RunSet? ==> !s.isRunning)
    ensures Safe(Move(s, t, p).(waitMutex := w, startMutex := m))
  {
    MoveLocks(s.threads, s.waitMutex, s.startMutex, t, p, w, m);
    MoveRunner(s.threads, s.isRunning, t, p);
  }

  lemma RunStepSafe(s: Service, t: nat, spawned: nat)
    requires Safe(s) && t in s.threads && InRun(s.threads[t].at)
    ensures Safe(Advance(s, t, spawned))
  {
    var w, m := s.waitMutex, s.startMutex;
    Holding(s, t);
    match s.threads[t].at
    case RunSet | Running => GuardSafe(s, t, spawned);
    case RunNotify => NotifyStepSafe(s, t, spawned);
    case RunEnter => hide Safe; if w.None? { MoveSafe(s, t, RunCheck, Some(t), m); }
    case RunCheck => hide Safe; MoveSafe(s, t, if s.isRunning then RunBusy else RunSet, w, m);
    case RunBusy => hide Safe; MoveSafe(s, t, Home(s, t), None, m);
    case RunRelease => hide Safe; MoveSafe(s, t, Running, None, m);
  }

  lemma NotifyStepSafe(s: Service, t: nat, spawned: nat)
    requires Safe(s) && t in s.threads && s.threads[t].at.RunNotify?
    ensures Safe(Advance(s, t, spawned))
  {
    Holding(s, t);
    hide Safe;
    MoveSafe(s, t, RunRelease, s.waitMutex, s.startMutex);
    NotifiedFree(Move(s, t, RunRelease), true);
    NotifySafe(Move(s, t, RunRelease).(notified := true));
  }

  /** Setting and clearing `isRunning_`. */
  lemma GuardSafe(s: Service, t: nat, spawned: nat)
    requires Safe(s) && t in s.threads && (s.threads[t].at.RunSet? || s.threads[t].at.Running?)
    ensures Safe(Advance(s, t, spawned))
  {
    Holding(s, t);
    var w, m := s.waitMutex, s.startMutex;
    hide Locks;
    hide OneRunner;
    if s.threads[t].at.RunSet? {
      MoveLocks(s.threads, w, m, t, RunNotify, w, m);
      SetRunner(s.threads, w, m, t);
    } else {
      MoveLocks(s.threads, w, m, t, Home(s, t), w, m);
      ClearRunner(s.threads, t, Home(s, t));
    }
  }

  lemma NotifySafe(s: Service)
    requires Safe(s)
    ensures Safe(Notify(s))
  {
    if Notify(s) != s {
      var t := s.startMutex.value;
      Holding(s, t);
      MoveSafe(s, t, StartWoken, s.waitMutex, s.startMutex);
    }
  }

  predicate InRun(p: Place) {
    p.RunEnter? || p.RunCheck? || p.RunBusy? || p.RunSet? || p.RunNotify? || p.RunRelease? || p.Running?
  }

  /** `start` up to the join of the old worker. */
  predicate Opening(p: Place) {
    p.StartEnter? || p.StartCheck? || p.StartOld? || p.StartJoin? || p.StartLock?
  }

  lemma OpeningSafe(s: Service, t: nat, spawned: nat)
    requires Safe(s) && t in s.threads && Opening(s.threads[t].at)
    ensures Safe(Advance(s, t, spawned))
  {
    Holding(s, t);
    hide Safe;
    var w, m := s.waitMutex, s.startMutex;
    match s.threads[t].at
    case StartEnter => if m.None? { MoveSafe(s, t, StartCheck, w, Some(t)); }
    case StartCheck =>
      if s.isRunning { MoveSafe(s, t, Idle, w, None); } else { MoveSafe(s, t, StartOld, w, m); }
    case StartOld => MoveSafe(s, t, if s.worker.Some? then StartJoin else StartLock, w, m);
    case StartJoin => MoveSafe(s, t, StartLock, w, m); WorkerFree(Move(s, t, StartLock), None);
    case StartLock => if w.None? { MoveSafe(s, t, StartSpawn, Some(t), m); }
  }

  /** `thread_` and the notification are nothing to the locks and the guard. */
  lemma WorkerFree(s: Service, worker: Option<nat>)
    requires Safe(s)
    ensures Safe(s.(worker := worker))
  {
  }

  lemma NotifiedFree(s: Service, notified: bool)
    requires Safe(s)
    ensures Safe(s.(notified := notified))
  {
  }

  lemma WaitingSafe(s: Service, t: nat, spawned: nat)
    requires Safe(s) && t in s.threads
    requires var p := s.threads[t].at; p.StartClear? || p.StartTest? || p.StartBlocked? || p.StartWoken? || p.StartReturn?
    ensures Safe(Advance(s, t, spawned))
  {
    Holding(s, t);
    hide Safe;
    var w, m := s.waitMutex, s.startMutex;
    match s.threads[t].at
    case StartClear => MoveSafe(s, t, StartTest, w, m); NotifiedFree(Move(s, t, StartTest), false);
    case StartTest =>
      if s.notified { MoveSafe(s, t, StartReturn, w, m); } else { MoveSafe(s, t, StartBlocked, None, m); }
    case StartBlocked =>
    case StartWoken => if w.None? { MoveSafe(s, t, StartTest, Some(t), m); }
    case StartReturn => MoveSafe(s, t, Idle, None, None);
  }

  lemma SpawnStepSafe(s: Service, t: nat, spawned: nat)
    requires Safe(s) && t in s.threads && s.threads[t].at.StartSpawn?
    ensures Safe(Advance(s, t, spawned))
  {
    Holding(s, t);
    MoveSafe(s, t, StartClear, s.waitMutex, s.startMutex);
    if spawned !in s.threads {
      SpawnSafe(Move(s, t, StartClear), spawned);
    }
    hide Locks;
    hide OneRunner;
  }

  lemma StopStepSafe(s: Service, t: nat, spawned: nat)
    requires Safe(s) && t in s.threads && InStop(s.threads[t].at)
    ensures Safe(Advance(s, t, spawned))
  {
    Holding(s, t);
    hide Safe;
    var w, m := s.waitMutex, s.startMutex;
    match s.threads[t].at
    case StopEnter => if m.None? { MoveSafe(s, t, StopJoin, w, Some(t)); }
    case StopJoin => MoveSafe(s, t, StopReturn, w, m);
    case StopReturn => MoveSafe(s, t, Idle, w, None); WorkerFree(Move(s, t, Idle).(startMutex := None), None);
  }

  lemma AdvanceSafe(s: Service, t: nat, spawned: nat)
    requires Safe(s) && t in s.threads
    ensures Safe(Advance(s, t, spawned))
  {
    hide Safe;
    match s.threads[t].at
    case Idle | Exited =>
    case RunEnter | RunCheck | RunBusy | RunSet | RunNotify | RunRelease | Running => RunStepSafe(s, t, spawned);
    case StartEnter | StartCheck | StartOld | StartJoin | StartLock => OpeningSafe(s, t, spawned);
    case StartSpawn => SpawnStepSafe(s, t, spawned);
    case StopEnter | StopJoin | StopReturn => StopStepSafe(s, t, spawned);
    case _ => WaitingSafe(s, t, spawned);
  }

  lemma StepSafe(s: Service, e: Event)
    requires Safe(s)
    ensures Safe(Step(s, e))
  {
    match e
    case Invoke(t, call) =>
      if t in s.threads && s.threads[t].at.Idle? {
        Holding(s, t);
        MoveSafe(s, t, Step(s, e).threads[t].at, s.waitMutex, s.startMutex);
      }
    case Go(t, spawned) =>
      if t in s.threads {
        AdvanceSafe(s, t, spawned);
      }
    case Spurious(t) =>
      if t in s.threads && s.threads[t].at.StartBlocked? {
        Holding(s, t);
        MoveSafe(s, t, StartWoken, s.waitMutex, s.startMutex);
      }
  }

  lemma {:induction false} RunSafe(s: Service, es: seq<Event>)
    requires Safe(s)
    ensures Safe(Exec(s, es))
    decreases |es|
  {
    if es != [] {
      StepSafe(s, es[0]);
      hide Step;
      RunSafe(Step(s, es[0]), es[1..]);
    }
  }

  /** For any number of threads calling `run`, `start` and `stop` in any interleaving: at most one
      thread is running the executor, and `isRunning_` is set exactly when there is one. */
  lemma SingleRunner(clients: set<nat>, es: seq<Event>)
    ensures var s := Exec(Init(clients), es);
            && (forall t, u :: t in s.threads && u in s.threads && Runs(s.threads[t].at) && Runs(s.threads[u].at) ==> t == u)
            && (s.isRunning <==> exists t :: t in s.threads && Runs(s.threads[t].at))
  {
    RunSafe(Init(clients), es);
  }

  // ----- the object -----

  /** The object with its fields, together with where each of its threads is. Every method is one
      access of thread `t` to the shared fields, made when it is that thread's turn. */
  class AsyncService {
    var isRunning: bool
    var waiterWasNotified: bool
    var thread: Option<nat>
    var startMutex: Option<nat>
    var waitMutex: Option<nat>
    var threads: map<nat, Thread>

    function View(): Service
      reads this
    {
      Service(threads, isRunning, waiterWasNotified, startMutex, waitMutex, thread)
    }

    ghost predicate Valid()
      reads this
    {
      Safe(View())
    }

    constructor (clients: set<nat>)
      ensures Valid() && View() == Init(clients)
    {
      isRunning, waiterWasNotified, thread := false, false, None;
      startMutex, waitMutex := None, None;
      threads := map t | t in clients :: Thread(Idle, false);
    }

    method MoveTo(t: nat, p: Place)
      requires t in threads
      modifies `threads
      ensures View() == Move(old(View()), t, p)
    {
      threads := threads[t := threads[t].(at := p)];
    }

    /** A client calls `run`, `start` or `stop`. */
    method Begin(t: nat, call: Call)
      requires Valid() && t in threads && threads[t].at.Idle?
      modifies this
      ensures Valid() && View() == Step(old(View()), Invoke(t, call))
    {
      ghost var was := View();
      match call {
        case Run => MoveTo(t, RunEnter);
        case Start => MoveTo(t, StartEnter);
        case Stop => MoveTo(t, StopEnter);
      }
      StepSafe(was, Invoke(t, call));
    }

    method LockWaitMutex(t: nat, p: Place)
      requires t in threads
      modifies this
      ensures View() == LockWait(old(View()), t, p)
    {
      if waitMutex.None? {
        waitMutex := Some(t);
        MoveTo(t, p);
      }
    }

    method LockStartMutex(t: nat, p: Place)
      requires t in threads
      modifies this
      ensures View() == LockStart(old(View()), t, p)
    {
      if startMutex.None? {
        startMutex := Some(t);
        MoveTo(t, p);
      }
    }

    /** Back from `run`, by return or by exception. */
    method Leave(t: nat)
      requires t in threads
      modifies `threads
      ensures View() == Move(old(View()), t, Home(old(View()), t))
    {
      MoveTo(t, if threads[t].worker then Exited else Idle);
    }

    /** `waitStart_.notify_one()` */
    method NotifyOne()
      modifies `threads
      ensures View() == Notify(old(View()))
    {
      if startMutex.Some? && startMutex.value in threads && threads[startMutex.value].at.StartBlocked? {
        MoveTo(startMutex.value, StartWoken);
      }
    }

    /** `run`: the guard, the notification, the executor and the end of it. */
    method RunStep(t: nat, spawned: nat)
      requires Valid() && t in threads && InRun(threads[t].at)
      modifies this
      ensures Valid() && View() == Step(old(View()), Go(t, spawned))
    {
      ghost var was := View();
      match threads[t].at {
        case RunEnter => LockWaitMutex(t, RunCheck);
        case RunCheck => MoveTo(t, if isRunning then RunBusy else RunSet);
        case RunBusy => waitMutex := None; Leave(t);
        case RunSet => isRunning := true; MoveTo(t, RunNotify);
        case RunNotify => waiterWasNotified := true; MoveTo(t, RunRelease); NotifyOne();
        case RunRelease => waitMutex := None; MoveTo(t, Running);
        case Running => isRunning := false; Leave(t);
      }
      assert View() == Advance(was, t, spawned);
      hide Advance;
      StepSafe(was, Go(t, spawned));
      hide Safe;
    }

    /** `start`: the guard, the join of the old worker, the new one, and the wait for it. */
    method StartStep(t: nat, spawned: nat)
      requires Valid() && t in threads && InStart(threads[t].at)
      modifies this
      ensures Valid() && View() == Step(old(View()), Go(t, spawned))
    {
      ghost var was := View();
      match threads[t].at {
        case StartEnter => LockStartMutex(t, StartCheck);
        case StartCheck =>
          if isRunning {
            startMutex := None;
            MoveTo(t, Idle);
          } else {
            MoveTo(t, StartOld);
          }
        case StartOld => MoveTo(t, if thread.Some? then StartJoin else StartLock);
        case StartJoin =>
          if thread.Some? ==> thread.value in threads && threads[thread.value].at.Exited? {
            thread := None;
            MoveTo(t, StartLock);
          }
        case StartLock => LockWaitMutex(t, StartSpawn);
        case StartSpawn =>
          if spawned !in threads {
            MoveTo(t, StartClear);
            threads := threads[spawned := Thread(RunEnter, true)];
            thread := Some(spawned);
          }
        case StartClear => waiterWasNotified := false; MoveTo(t, StartTest);
        case StartTest =>
          if waiterWasNotified {
            MoveTo(t, StartReturn);
          } else {
            waitMutex := None;
            MoveTo(t, StartBlocked);
          }
        case StartBlocked =>
        case StartWoken => LockWaitMutex(t, StartTest);
        case StartReturn => waitMutex, startMutex := None, None; MoveTo(t, Idle);
      }
      assert View() == Advance(was, t, spawned);
      hide Advance;
      StepSafe(was, Go(t, spawned));
      hide Safe;
    }

    /** `stop`: the worker is joined, then forgotten. */
    method StopStep(t: nat, spawned: nat)
      requires Valid() && t in threads && InStop(threads[t].at)
      modifies this
      ensures Valid() && View() == Step(old(View()), Go(t, spawned))
    {
      ghost var was := View();
      match threads[t].at {
        case StopEnter => LockStartMutex(t, StopJoin);
        case StopJoin =>
          if thread.Some? ==> thread.value in threads && threads[thread.value].at.Exited? {
            MoveTo(t, StopReturn);
          }
        case StopReturn => thread, startMutex := None, None; MoveTo(t, Idle);
      }
      assert View() == Advance(was, t, spawned);
      hide Advance;
      StepSafe(was, Go(t, spawned));
      hide Safe;
    }

    /** A sleeper wakes by itself, as condition variables allow. */
    method WakeSpuriously(t: nat)
      requires Valid() && t in threads && threads[t].at.StartBlocked?
      modifies this
      ensures Valid() && View() == Step(old(View()), Spurious(t))
    {
      ghost var was := View();
      MoveTo(t, StartWoken);
      StepSafe(was, Spurious(t));
    }
  }

  predicate InStart(p: Place) {
    !InRun(p) && !InStop(p) && !p.Idle? && !p.Exited?
  }

  predicate InStop(p: Place) {
    p.StopEnter? || p.StopJoin? || p.StopReturn?
  }
}
