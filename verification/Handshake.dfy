/** The start handshake of AsyncService: a `start` that sleeps is woken. */
module Handshake {
  import opened AsyncService

  /** A worker that has yet to notify. */
  predicate Ahead(p: Place) {
    p.RunEnter? || p.RunCheck? || p.RunSet? || p.RunNotify?
  }

  /** Only workers are in `run`; all but the current one are over; none finds it running. */
  predicate Workers(ts: map<nat, Thread>, worker: Option<nat>) {
    && (forall t :: t in ts ==> (ts[t].worker <==> InRun(ts[t].at) || ts[t].at.Exited?))
    && (forall t :: t in ts && InRun(ts[t].at) ==> worker == Some(t) && !ts[t].at.RunBusy?)
    && (worker.Some? ==> worker.value in ts && ts[worker.value].worker)
  }

  /** What the `start` that holds startMutex_ relies on. */
  predicate Waits(s: Service) {
    s.startMutex.Some? && s.startMutex.value in s.threads ==>
      var p := s.threads[s.startMutex.value].at;
      && (p.StartLock? || p.StartSpawn? ==> s.worker.None?)
      && (p.StartClear? ==> s.worker.Some? && s.worker.value in s.threads && s.threads[s.worker.value].at.RunEnter?)
      && (p.StopReturn? ==> JoinDone(s))
      && (p.StartBlocked? ==> !s.notified)
      && ((p.StartTest? || p.StartBlocked? || p.StartWoken?) && !s.notified ==>
            s.worker.Some? && s.worker.value in s.threads && Ahead(s.threads[s.worker.value].at))
  }

  ghost predicate Ready(s: Service) {
    Safe(s) && Workers(s.threads, s.worker) && Waits(s)
  }

  /** The worker alone is in `run`, so nothing runs unless it does. */
  lemma RunningIsWorker(s: Service, t: nat)
    requires Ready(s) && t in s.threads && InRun(s.threads[t].at)
    ensures s.worker == Some(t) && s.threads[t].worker && (s.isRunning <==> Runs(s.threads[t].at))
  {
    assert forall r :: r in s.threads && Runs(s.threads[r].at) ==> InRun(s.threads[r].at) && r == t;
  }

  lemma WorkerStep(s: Service, t: nat, spawned: nat)
    requires Ready(s) && t in s.threads && InRun(s.threads[t].at)
    ensures var s' := Advance(s, t, spawned); Workers(s'.threads, s'.worker)
  {
    Holding(s, t);
    RunningIsWorker(s, t);
    hide Safe;
    hide Waits;
  }

  lemma WorkerWaits(s: Service, t: nat, spawned: nat)
    requires Ready(s) && t in s.threads && InRun(s.threads[t].at)
    ensures Waits(Advance(s, t, spawned))
  {
    Holding(s, t);
    RunningIsWorker(s, t);
    if s.startMutex.Some? {
      Holding(s, s.startMutex.value);
    }
    hide Safe;
    hide Workers;
  }

  predicate Client(p: Place) {
    !InRun(p) && !p.Exited?
  }

  /** Moves outside `run` leave the workers as they are. */
  lemma ClientMove(ts: map<nat, Thread>, worker: Option<nat>, t: nat, p: Place)
    requires Workers(ts, worker) && t in ts && Client(ts[t].at) && Client(p)
    ensures Workers(ts[t := ts[t].(at := p)], worker) && !ts[t].worker
  {
  }

  lemma EnterStep(s: Service, t: nat, spawned: nat)
    requires Ready(s) && t in s.threads
    requires var p := s.threads[t].at; p.Idle? || p.Exited? || p.StartEnter? || p.StopEnter?
    ensures var s' := Advance(s, t, spawned); Workers(s'.threads, s'.worker) && Waits(s')
  {
    Holding(s, t);
    if s.startMutex.Some? {
      Holding(s, s.startMutex.value);
    }
    if Client(s.threads[t].at) {
      ClientMove(s.threads, s.worker, t, Advance(s, t, spawned).threads[t].at);
    }
    hide Workers;
    hide Safe;
  }

  lemma CheckStep(s: Service, t: nat, spawned: nat)
    requires Ready(s) && t in s.threads
    requires var p := s.threads[t].at; p.StartCheck? || p.StartOld?
    ensures var s' := Advance(s, t, spawned); Workers(s'.threads, s'.worker) && Waits(s')
  {
    Holding(s, t);
    ClientMove(s.threads, s.worker, t, Advance(s, t, spawned).threads[t].at);
    hide Workers;
    hide Safe;
    hide JoinDone;
    if s.threads[t].at.StartOld? {
      OldWaits(s, t, spawned);
    }
    hide Waits;
  }

  lemma OldWaits(s: Service, t: nat, spawned: nat)
    requires t in s.threads && s.threads[t].at.StartOld? && s.startMutex == Some(t)
    ensures Waits(Advance(s, t, spawned))
  {
  }

  lemma JoinStep(s: Service, t: nat, spawned: nat)
    requires Ready(s) && t in s.threads
    requires var p := s.threads[t].at; p.StartJoin? || p.StopJoin? || p.StopReturn?
    ensures var s' := Advance(s, t, spawned); Workers(s'.threads, s'.worker) && Waits(s')
  {
    Holding(s, t);
    if s.startMutex.Some? {
      Holding(s, s.startMutex.value);
    }
    if Client(s.threads[t].at) {
      ClientMove(s.threads, s.worker, t, Advance(s, t, spawned).threads[t].at);
    }
    hide Safe;
  }

  lemma SpawnStep(s: Service, t: nat, spawned: nat)
    requires Ready(s) && t in s.threads
    requires var p := s.threads[t].at; p.StartLock? || p.StartSpawn? || p.StartClear?
    ensures var s' := Advance(s, t, spawned); Workers(s'.threads, s'.worker) && Waits(s')
  {
    Holding(s, t);
    if s.startMutex.Some? {
      Holding(s, s.startMutex.value);
    }
    if Client(s.threads[t].at) {
      ClientMove(s.threads, s.worker, t, Advance(s, t, spawned).threads[t].at);
    }
    hide Safe;
  }

  lemma SleepStep(s: Service, t: nat, spawned: nat)
    requires Ready(s) && t in s.threads
    requires var p := s.threads[t].at; p.StartTest? || p.StartBlocked? || p.StartWoken? || p.StartReturn?
    ensures var s' := Advance(s, t, spawned); Workers(s'.threads, s'.worker) && Waits(s')
  {
    Holding(s, t);
    if s.startMutex.Some? {
      Holding(s, s.startMutex.value);
    }
    if Client(s.threads[t].at) {
      ClientMove(s.threads, s.worker, t, Advance(s, t, spawned).threads[t].at);
    }
    hide Workers;
    hide Safe;
  }

  lemma AdvanceReady(s: Service, t: nat, spawned: nat)
    requires Ready(s) && t in s.threads
    ensures var s' := Advance(s, t, spawned); Workers(s'.threads, s'.worker) && Waits(s')
  {
    hide Advance;
    hide Workers;
    hide Waits;
    match s.threads[t].at
    case Idle | Exited | StartEnter | StopEnter => EnterStep(s, t, spawned);
    case StartCheck | StartOld => CheckStep(s, t, spawned);
    case StartJoin | StopJoin | StopReturn => JoinStep(s, t, spawned);
    case StartLock | StartSpawn | StartClear => SpawnStep(s, t, spawned);
    case StartTest | StartBlocked | StartWoken | StartReturn => SleepStep(s, t, spawned);
    case _ => WorkerStep(s, t, spawned); WorkerWaits(s, t, spawned);
  }

  /** Clients call only `start` and `stop`: `run` is left to the workers. */
  predicate NoDirectRun(es: seq<Event>) {
    forall i :: 0 <= i < |es| ==> !(es[i].Invoke? && es[i].call.Run?)
  }

  lemma InvokeReady(s: Service, t: nat, p: Place)
    requires Ready(s) && t in s.threads && s.threads[t].at.Idle? && (p.StartEnter? || p.StopEnter?)
    ensures Workers(Move(s, t, p).threads, s.worker) && Waits(Move(s, t, p))
  {
    Holding(s, t);
    ClientMove(s.threads, s.worker, t, p);
    hide Workers;
    hide Safe;
  }

  lemma SpuriousReady(s: Service, t: nat)
    requires Ready(s) && t in s.threads && s.threads[t].at.StartBlocked?
    ensures Workers(Move(s, t, StartWoken).threads, s.worker) && Waits(Move(s, t, StartWoken))
  {
    Holding(s, t);
    ClientMove(s.threads, s.worker, t, StartWoken);
    hide Workers;
    hide Safe;
  }

  lemma StepReady(s: Service, e: Event)
    requires Ready(s) && !(e.Invoke? && e.call.Run?)
    ensures Ready(Step(s, e))
  {
    StepSafe(s, e);
    hide Advance;
    hide Workers;
    hide Waits;
    hide Safe;
    match e
    case Go(t, spawned) => if t in s.threads { AdvanceReady(s, t, spawned); }
    case Invoke(t, call) =>
      if t in s.threads && s.threads[t].at.Idle? {
        InvokeReady(s, t, if call.Start? then StartEnter else StopEnter);
      }
    case Spurious(t) => if t in s.threads && s.threads[t].at.StartBlocked? { SpuriousReady(s, t); }
  }

  lemma {:induction false} RunReady(s: Service, es: seq<Event>)
    requires Ready(s) && NoDirectRun(es)
    ensures Ready(Exec(s, es))
    decreases |es|
  {
    if es != [] {
      StepReady(s, es[0]);
      hide Step;
      hide Ready;
      RunReady(Step(s, es[0]), es[1..]);
    }
  }

  // ----- main results -----

  /** With `run` left to the workers, at most one worker is alive, and `start` sleeps only while
      its worker has yet to notify, and can. */
  lemma StartIsNotified(clients: set<nat>, es: seq<Event>)
    requires NoDirectRun(es)
    ensures var s := Exec(Init(clients), es);
            && (forall t, u :: t in s.threads && u in s.threads && InRun(s.threads[t].at) && InRun(s.threads[u].at) ==> t == u)
            && (forall t :: t in s.threads && s.threads[t].at.StartBlocked? ==>
                  && s.worker.Some? && s.worker.value in s.threads && Ahead(s.threads[s.worker.value].at)
                  && (s.waitMutex.None? || s.waitMutex == s.worker))
  {
    RunReady(Init(clients), es);
    var s := Exec(Init(clients), es);
    forall t | t in s.threads && s.threads[t].at.StartBlocked?
      ensures s.worker.Some? && s.worker.value in s.threads && Ahead(s.threads[s.worker.value].at)
      ensures s.waitMutex.None? || s.waitMutex == s.worker
    {
      Holding(s, t);
      if s.waitMutex.Some? {
        Holding(s, s.waitMutex.value);
      }
    }
  }

  /** How many steps the worker still makes before it has notified. */
  function Left(p: Place): nat {
    match p
    case RunEnter => 4
    case RunCheck => 3
    case RunSet => 2
    case RunNotify => 1
    case _ => 0
  }

  /** While a `start` sleeps, each step of its worker brings the notification nearer, and the
      last one wakes it. */
  lemma WorkerProgress(s: Service, t: nat)
    requires Ready(s) && t in s.threads && s.threads[t].at.StartBlocked?
    ensures s.worker.Some? && s.worker.value in s.threads && Left(s.threads[s.worker.value].at) > 0
    ensures var w := s.worker.value;
            var s' := Step(s, Go(w, 0));
            && Ready(s') && t in s'.threads && s'.worker == s.worker && w in s'.threads
            && (if Left(s.threads[w].at) == 1 then s'.threads[t].at.StartWoken?
                else s'.threads[t].at.StartBlocked? && Left(s'.threads[w].at) == Left(s.threads[w].at) - 1)
  {
    Holding(s, t);
    var w := s.worker.value;
    RunningIsWorker(s, w);
    Holding(s, w);
    if s.waitMutex.Some? {
      Holding(s, s.waitMutex.value);
    }
    StepReady(s, Go(w, 0));
    hide Ready;
    hide Safe;
  }

  function Steps(w: nat, n: nat): seq<Event> {
    if n == 0 then [] else [Go(w, 0)] + Steps(w, n - 1)
  }

  lemma {:induction false} WakesWithin(s: Service, t: nat)
    requires Ready(s) && t in s.threads && s.threads[t].at.StartBlocked?
    requires s.worker.Some? && s.worker.value in s.threads
    ensures var s' := Exec(s, Steps(s.worker.value, Left(s.threads[s.worker.value].at)));
            t in s'.threads && s'.threads[t].at.StartWoken?
    decreases Left(s.threads[s.worker.value].at)
  {
    WorkerProgress(s, t);
    var w := s.worker.value;
    var n := Left(s.threads[w].at);
    var s' := Step(s, Go(w, 0));
    assert Steps(w, n)[1..] == Steps(w, n - 1);
    hide Step;
    hide Ready;
    if n > 1 {
      WakesWithin(s', t);
    } else {
      assert Exec(s', []) == s';
    }
  }

  /** No lost wakeup: in every reachable state in which a `start` sleeps, its worker wakes it by
      steps of its own, at most four. */
  lemma StartIsWoken(clients: set<nat>, es: seq<Event>, t: nat)
    requires NoDirectRun(es)
    requires t in Exec(Init(clients), es).threads && Exec(Init(clients), es).threads[t].at.StartBlocked?
    ensures var s := Exec(Init(clients), es);
            exists n :: 0 < n <= 4 && s.worker.Some?
              && t in Exec(s, Steps(s.worker.value, n)).threads
              && Exec(s, Steps(s.worker.value, n)).threads[t].at.StartWoken?
  {
    RunReady(Init(clients), es);
    var s := Exec(Init(clients), es);
    WorkerProgress(s, t);
    WakesWithin(s, t);
    var n := Left(s.threads[s.worker.value].at);
    assert 0 < n <= 4;
    assert Exec(s, Steps(s.worker.value, n)).threads[t].at.StartWoken?;
  }
}
