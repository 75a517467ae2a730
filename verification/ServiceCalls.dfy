/** Whole calls of `run`, `start` and `stop`: what each comes to, and when one has to wait. */
module ServiceCalls {
  import opened AsyncService
  import opened Handshake
  import opened LostWakeup

  function Locked(s: Service, t: nat, p: Place, start: Option<nat>): Service
    requires t in s.threads
  {
    Move(s, t, p).(startMutex := start)
  }

  /** Thread `t` makes `n` steps. */
  lemma TwoGo(s: Service, t: nat)
    ensures Exec(s, Steps(t, 2)) == Step(Step(s, Go(t, 0)), Go(t, 0))
  {
    var g := Go(t, 0);
    assert Steps(t, 2)[1..] == Steps(t, 1) && Steps(t, 1)[1..] == [];
    hide Step;
    assert Exec(Step(s, g), Steps(t, 1)) == Exec(Step(Step(s, g), g), []);
  }

  lemma ThreeGo(s: Service, t: nat)
    ensures var g := Go(t, 0); Exec(s, Steps(t, 3)) == Step(Step(Step(s, g), g), g)
  {
    hide Step;
    assert Steps(t, 3)[1..] == Steps(t, 2);
    TwoGo(Step(s, Go(t, 0)), t);
  }

  lemma CallFirst(s: Service, t: nat, call: Call, es: seq<Event>)
    requires t in s.threads && s.threads[t].at.Idle?
    ensures Exec(s, [Invoke(t, call)] + es)
         == Exec(Move(s, t, if call.Run? then RunEnter else if call.Start? then StartEnter else StopEnter), es)
  {
    assert ([Invoke(t, call)] + es)[1..] == es;
    hide Move;
  }

  // ----- `start` on a running service -----

  /** `start` on a running service returns at once: nothing else is changed. */
  lemma StartWhenRunning(s: Service, t: nat)
    requires t in s.threads && s.threads[t].at.StartEnter? && s.isRunning && s.startMutex.None?
    ensures Exec(s, Steps(t, 2)) == s.(threads := s.threads[t := s.threads[t].(at := Idle)])
  {
    assert Step(s, Go(t, 0)) == Locked(s, t, StartCheck, Some(t));
    TwoGo(s, t);
  }

  /** Past the test of line 94, and about to join the old worker or to make another. */
  predicate Hiring(p: Place) {
    p.StartOld? || p.StartJoin? || p.StartLock? || p.StartSpawn?
  }

  predicate NobodyHires(s: Service) {
    forall t :: t in s.threads ==> !Hiring(s.threads[t].at)
  }

  predicate RunsThroughout(s: Service, es: seq<Event>)
    decreases |es|
  {
    s.isRunning && (es == [] || RunsThroughout(Step(s, es[0]), es[1..]))
  }

  lemma StepHires(s: Service, e: Event)
    requires s.isRunning && NobodyHires(s)
    ensures NobodyHires(Step(s, e)) && Step(s, e).threads.Keys == s.threads.Keys
    ensures Step(s, e).worker == s.worker || Step(s, e).worker == None
  {
    match e
    case Go(t, spawned) =>
      if t in s.threads {
        assert !Hiring(s.threads[t].at);
        if s.threads[t].at.RunNotify? {
          MoveHires(s, t, RunRelease);
          NotifyHires(Move(s, t, RunRelease).(notified := true));
        } else {
          if InRun(s.threads[t].at) { RunMoves(s, t, spawned); }
          else if InStop(s.threads[t].at) { StopMoves(s, t, spawned); }
          else { CallMoves(s, t, spawned); }
          MoveHires(s, t, Advance(s, t, spawned).threads[t].at);
        }
        hide Advance; hide NobodyHires;
      }
    case Invoke(t, call) => if t in s.threads { MoveHires(s, t, Step(s, e).threads[t].at); }
    case Spurious(t) => if t in s.threads { MoveHires(s, t, StartWoken); }
  }

  lemma MoveHires(s: Service, t: nat, p: Place)
    requires NobodyHires(s) && t in s.threads && !Hiring(p)
    ensures NobodyHires(Move(s, t, p)) && Move(s, t, p).threads.Keys == s.threads.Keys
  {
  }

  lemma NotifyHires(s: Service)
    requires NobodyHires(s)
    ensures NobodyHires(Notify(s)) && Notify(s).threads.Keys == s.threads.Keys
  {
    if Notify(s) != s {
      MoveHires(s, s.startMutex.value, StartWoken);
    }
    hide NobodyHires;
  }

  lemma RunMoves(s: Service, t: nat, spawned: nat)
    requires t in s.threads && InRun(s.threads[t].at) && !s.threads[t].at.RunNotify?
    ensures var s' := Advance(s, t, spawned);
            && t in s'.threads && !Hiring(s'.threads[t].at) && s'.threads == Move(s, t, s'.threads[t].at).threads
            && s'.worker == s.worker
  {
    assert s.threads == s.threads[t := s.threads[t].(at := s.threads[t].at)];
  }

  lemma StopMoves(s: Service, t: nat, spawned: nat)
    requires t in s.threads && InStop(s.threads[t].at)
    ensures var s' := Advance(s, t, spawned);
            && t in s'.threads && !Hiring(s'.threads[t].at) && s'.threads == Move(s, t, s'.threads[t].at).threads
            && (s'.worker == s.worker || s'.worker == None)
  {
    assert s.threads == s.threads[t := s.threads[t].(at := s.threads[t].at)];
    hide JoinDone;
  }

  lemma CallMoves(s: Service, t: nat, spawned: nat)
    requires t in s.threads && !InRun(s.threads[t].at) && !InStop(s.threads[t].at) && s.isRunning
    requires !Hiring(s.threads[t].at)
    ensures var s' := Advance(s, t, spawned);
            && t in s'.threads && !Hiring(s'.threads[t].at) && s'.threads == Move(s, t, s'.threads[t].at).threads
            && (s'.worker == s.worker || s'.worker == None)
  {
    assert s.threads == s.threads[t := s.threads[t].(at := s.threads[t].at)];
  }

  /** As long as the service runs, whatever is called: no thread is made, no `start` joins one, and
      `thread_` is only ever forgotten. */
  lemma {:induction false} NobodyIsHired(s: Service, es: seq<Event>)
    requires NobodyHires(s) && RunsThroughout(s, es)
    ensures var s' := Exec(s, es);
            NobodyHires(s') && s'.threads.Keys == s.threads.Keys && (s'.worker == s.worker || s'.worker == None)
    decreases |es|
  {
    if es != [] {
      StepHires(s, es[0]);
      hide Step; hide NobodyHires;
      NobodyIsHired(Step(s, es[0]), es[1..]);
    }
  }

  // ----- `run` -----

  /** `run` with nobody in it sets the flag, tells a waiting `start`, and is in the executor with both
      mutexes as they were; when the executor is done it is back where it came from. */
  lemma RunAlone(s: Service, t: nat)
    requires t in s.threads && s.threads[t].at.RunEnter? && s.waitMutex.None? && !s.isRunning
    requires s.startMutex != Some(t)
    ensures var s' := Exec(s, Steps(t, 5));
            && t in s'.threads && s' == Notify(Move(s, t, Running).(isRunning := true, notified := true))
            && Step(s', Go(t, 0)) == Notify(Move(s, t, Home(s, t)).(notified := true))
  {
    var g := Go(t, 0);
    TwoSteps(s, t);
    FlagSet(s, t);
    hide At;
    FourSteps(s, t);
    FiveSteps(s, t);
    Told(s, t);
    Ran(s, t);
    hide Exec; hide Step; hide Notify;
  }

  lemma FlagSet(s: Service, t: nat)
    requires t in s.threads
    ensures Step(At(s, t, RunSet, Some(t)), Go(t, 0)) == At(s, t, RunNotify, Some(t)).(isRunning := true)
  {
  }

  lemma FiveSteps(s: Service, t: nat)
    ensures Exec(s, Steps(t, 5)) == Step(Exec(s, Steps(t, 4)), Go(t, 0))
  {
    hide Step;
    var g := Go(t, 0);
    var s1 := Step(s, g);
    assert Steps(t, 5)[1..] == Steps(t, 4);
    FourSteps(s, t);
    FourSteps(s1, t);
  }

  /** The last steps of `run`, with the sleeper, if any, woken. */
  lemma Told(s: Service, t: nat)
    requires t in s.threads && s.startMutex != Some(t) && s.waitMutex.None?
    ensures var s3 := At(s, t, RunNotify, Some(t)).(isRunning := true);
            Step(Step(s3, Go(t, 0)), Go(t, 0)) == Notify(Move(s, t, Running).(isRunning := true, notified := true))
  {
    var s3 := At(s, t, RunNotify, Some(t)).(isRunning := true);
    var s4 := Step(s3, Go(t, 0));
    assert s4 == Notify(Move(s3, t, RunRelease).(notified := true));
    assert s4.threads[t] == s.threads[t].(at := RunRelease);
    assert Step(s4, Go(t, 0)) == Move(s4, t, Running).(waitMutex := None);
    hide Step;
  }

  lemma Ran(s: Service, t: nat)
    requires t in s.threads && s.startMutex != Some(t) && !s.isRunning
    ensures var s5 := Notify(Move(s, t, Running).(isRunning := true, notified := true));
            Step(s5, Go(t, 0)) == Notify(Move(s, t, Home(s, t)).(notified := true))
  {
    var s5 := Notify(Move(s, t, Running).(isRunning := true, notified := true));
    assert s5.threads[t] == s.threads[t].(at := Running);
    assert Step(s5, Go(t, 0)) == Move(s5, t, Home(s5, t)).(isRunning := false);
    hide Step;
  }

  /** `run` beside another changes nothing. */
  lemma RunWhenRunning(s: Service, t: nat)
    requires t in s.threads && s.threads[t].at.RunEnter? && s.waitMutex.None? && s.isRunning
    ensures Exec(s, Steps(t, 3)) == Move(s, t, Home(s, t))
  {
    TwoSteps(s, t);
    ThreeGo(s, t);
  }

  // ----- `stop` -----

  /** `stop` with no live worker returns: `thread_` is forgotten, nothing else is changed. */
  lemma StopReturns(s: Service, t: nat)
    requires t in s.threads && s.threads[t].at.StopEnter? && s.startMutex.None? && JoinDone(s)
    ensures Exec(s, Steps(t, 3)) == Move(s, t, Idle).(worker := None)
  {
    assert Step(s, Go(t, 0)) == Locked(s, t, StopJoin, Some(t));
    StopSteps(Locked(s, t, StopJoin, Some(t)), t);
    ThreeGo(s, t);
    hide Step; hide Exec;
  }

  lemma StopSteps(s: Service, t: nat)
    requires t in s.threads && s.threads[t].at.StopJoin? && JoinDone(s)
    ensures Step(Step(s, Go(t, 0)), Go(t, 0)) == Locked(s, t, Idle, None).(worker := None)
  {
    assert Step(s, Go(t, 0)) == Move(s, t, StopReturn);
  }

  // ----- waiting for the worker to be over -----

  predicate Joining(p: Place) {
    p.StartJoin? || p.StopJoin?
  }

  /** Workers are in `run` or over, and `thread_` is one of them. */
  predicate Employed(s: Service) {
    && (forall t :: t in s.threads && s.threads[t].worker ==> InRun(s.threads[t].at) || s.threads[t].at.Exited?)
    && (s.worker.Some? ==> s.worker.value in s.threads && s.threads[s.worker.value].worker)
  }

  lemma MoveEmployed(s: Service, t: nat, p: Place)
    requires Employed(s) && t in s.threads && (s.threads[t].worker ==> InRun(p) || p.Exited?)
    ensures Employed(Move(s, t, p))
  {
  }

  lemma NotifyEmployed(s: Service)
    requires Employed(s)
    ensures Employed(Notify(s))
  {
    if Notify(s) != s {
      MoveEmployed(s, s.startMutex.value, StartWoken);
    }
  }

  lemma RunEmployed(s: Service, t: nat, spawned: nat)
    requires Employed(s) && t in s.threads && InRun(s.threads[t].at)
    ensures Employed(Advance(s, t, spawned))
  {
    if s.threads[t].at.RunNotify? {
      MoveEmployed(s, t, RunRelease);
      NotifyEmployed(Move(s, t, RunRelease).(notified := true));
    } else {
      RunMoves(s, t, spawned);
      if s.threads[t].worker { WorkerPlace(s, t, spawned); }
      MoveEmployed(s, t, Advance(s, t, spawned).threads[t].at);
    }
    hide Advance;
  }

  lemma WorkerPlace(s: Service, t: nat, spawned: nat)
    requires t in s.threads && InRun(s.threads[t].at) && !s.threads[t].at.RunNotify? && s.threads[t].worker
    ensures t in Advance(s, t, spawned).threads
    ensures var p := Advance(s, t, spawned).threads[t].at; InRun(p) || p.Exited?
  {
  }

  lemma OpeningEmployed(s: Service, t: nat, spawned: nat)
    requires Employed(s) && t in s.threads && Opening(s.threads[t].at)
    ensures Employed(Advance(s, t, spawned))
  {
  }

  lemma StopEmployed(s: Service, t: nat, spawned: nat)
    requires Employed(s) && t in s.threads && InStop(s.threads[t].at)
    ensures Employed(Advance(s, t, spawned))
  {
    hide JoinDone;
  }

  lemma CallEmployed(s: Service, t: nat, spawned: nat)
    requires Employed(s) && t in s.threads
    requires !InRun(s.threads[t].at) && !Opening(s.threads[t].at) && !InStop(s.threads[t].at)
    ensures Employed(Advance(s, t, spawned))
  {
  }

  lemma StepEmployed(s: Service, e: Event)
    requires Employed(s)
    ensures Employed(Step(s, e))
  {
    match e
    case Go(t, spawned) =>
      if t in s.threads {
        if InRun(s.threads[t].at) { RunEmployed(s, t, spawned); }
        else if Opening(s.threads[t].at) { OpeningEmployed(s, t, spawned); }
        else if InStop(s.threads[t].at) { StopEmployed(s, t, spawned); }
        else { CallEmployed(s, t, spawned); }
      }
      hide Advance; hide Employed;
    case Invoke(t, call) => hide Advance;
    case Spurious(t) => hide Advance;
  }

  lemma {:induction false} AllEmployed(s: Service, es: seq<Event>)
    requires Employed(s)
    ensures Employed(Exec(s, es))
    decreases |es|
  {
    if es != [] {
      StepEmployed(s, es[0]);
      hide Step; hide Employed;
      AllEmployed(Step(s, es[0]), es[1..]);
    }
  }

  /** How far a worker is from the end of `run`. */
  function ToGo(s: Service, w: nat): nat
    requires w in s.threads
  {
    match s.threads[w].at
    case RunEnter =>
      20 + (if s.waitMutex.Some? && s.waitMutex.value in s.threads then Hold(s.threads[s.waitMutex.value].at) else 0)
    case RunCheck => 7
    case RunSet => 6
    case RunNotify => 5
    case RunRelease => 4
    case Running => 3
    case RunBusy => 2
    case _ => 0
  }

  /** Thread `t` waits for the worker `w`, which is still in `run`. */
  ghost predicate Awaits(s: Service, t: nat, w: nat) {
    && Safe(s) && t in s.threads && Joining(s.threads[t].at)
    && w in s.threads && s.worker == Some(w) && s.threads[w].worker && InRun(s.threads[w].at)
  }

  /** Only threads in `run` hold waitMutex_ then, so the worker gets on, or its holder does. */
  lemma WorkerNearer(s: Service, t: nat, w: nat) returns (u: nat)
    requires Awaits(s, t, w)
    ensures var s' := Step(s, Go(u, 0));
            && Safe(s') && t in s'.threads && s'.threads[t] == s.threads[t] && s'.worker == s.worker && w in s'.threads
            && s'.threads[w].worker && (InRun(s'.threads[w].at) || s'.threads[w].at.Exited?)
            && ToGo(s', w) < ToGo(s, w)
  {
    Holding(s, t);
    Holding(s, w);
    u := w;
    if s.threads[w].at.RunEnter? && s.waitMutex.Some? {
      u := s.waitMutex.value;
      Holding(s, u);
      StepSafe(s, Go(u, 0));
      hide Safe;
      HolderGoes(s, t, w, u);
    } else {
      StepSafe(s, Go(u, 0));
      hide Safe;
      WorkerGoes(s, t, w);
    }
    hide Step; hide ToGo;
  }

  lemma HolderGoes(s: Service, t: nat, w: nat, u: nat)
    requires t in s.threads && Joining(s.threads[t].at) && s.startMutex == Some(t)
    requires w in s.threads && s.threads[w].at.RunEnter? && s.waitMutex == Some(u) && u in s.threads
    requires InRun(s.threads[u].at) && !s.threads[u].at.RunEnter? && !s.threads[u].at.Running?
    ensures var s' := Step(s, Go(u, 0));
            && t in s'.threads && s'.threads[t] == s.threads[t] && s'.worker == s.worker
            && w in s'.threads && s'.threads[w] == s.threads[w] && ToGo(s', w) < ToGo(s, w)
  {
  }

  lemma WorkerGoes(s: Service, t: nat, w: nat)
    requires t in s.threads && Joining(s.threads[t].at) && s.startMutex == Some(t)
    requires w in s.threads && InRun(s.threads[w].at) && s.threads[w].worker
    requires s.threads[w].at.RunEnter? ==> s.waitMutex.None?
    ensures var s' := Step(s, Go(w, 0));
            && t in s'.threads && s'.threads[t] == s.threads[t] && s'.worker == s.worker
            && w in s'.threads && s'.threads[w].worker && (InRun(s'.threads[w].at) || s'.threads[w].at.Exited?)
            && ToGo(s', w) < ToGo(s, w)
  {
  }

  predicate WorkerAlive(s: Service) {
    s.worker.Some? && s.worker.value in s.threads && InRun(s.threads[s.worker.value].at)
  }

  predicate OnlySteps(es: seq<Event>) {
    forall i :: 0 <= i < |es| ==> es[i].Go?
  }

  lemma {:induction false} WorkerLeaves(s: Service, t: nat, w: nat) returns (es: seq<Event>)
    requires Awaits(s, t, w)
    ensures OnlySteps(es)
    ensures var s' := Exec(s, es);
            t in s'.threads && s'.threads[t] == s.threads[t] && JoinDone(s') && s'.worker == Some(w)
    decreases ToGo(s, w)
  {
    var u := WorkerNearer(s, t, w);
    var s' := Step(s, Go(u, 0));
    hide Safe; hide ToGo; hide Step;
    if s'.threads[w].at.Exited? {
      es := [Go(u, 0)];
      assert es[1..] == [] && Exec(s', []) == s';
    } else {
      var rest := WorkerLeaves(s', t, w);
      es := [Go(u, 0)] + rest;
      assert es[1..] == rest;
    }
  }

  lemma JoinWaits(s: Service, t: nat)
    requires Employed(s) && t in s.threads && Joining(s.threads[t].at)
    ensures Step(s, Go(t, 0)) == s <==> WorkerAlive(s)
    ensures !WorkerAlive(s) ==> JoinDone(s)
  {
    assert Move(s, t, StartLock).threads[t].at == StartLock && Move(s, t, StopReturn).threads[t].at == StopReturn;
  }

  /** Whoever joins the worker, in `stop` or in `start`, waits exactly as long as the worker is not over;
      and in every reached state steps of the threads that are there end it, direct calls of `run`
      included. */
  lemma JoinEnds(clients: set<nat>, es: seq<Event>, t: nat)
    requires var s := Exec(Init(clients), es); t in s.threads && Joining(s.threads[t].at)
    ensures var s := Exec(Init(clients), es);
            && (Step(s, Go(t, 0)) == s <==> WorkerAlive(s))
            && exists more :: OnlySteps(more) && JoinDone(Exec(s, more))
                 && t in Exec(s, more).threads && Exec(s, more).threads[t] == s.threads[t]
  {
    RunSafe(Init(clients), es);
    AllEmployed(Init(clients), es);
    var s := Exec(Init(clients), es);
    hide Init;
    JoinWaits(s, t);
    hide Step;
    var more := [];
    if WorkerAlive(s) {
      more := WorkerLeaves(s, t, s.worker.value);
    }
    hide Safe;
    assert JoinDone(Exec(s, more)) && OnlySteps(more);
  }

  /** So a `stop` that waits can return: `thread_` is then forgotten and startMutex_ free. */
  lemma StopEnds(clients: set<nat>, es: seq<Event>, t: nat)
    requires var s := Exec(Init(clients), es); t in s.threads && s.threads[t].at.StopJoin?
    ensures exists more :: OnlySteps(more) && Stopped(Exec(Exec(Init(clients), es), more), t)
  {
    JoinEnds(clients, es, t);
    var s := Exec(Init(clients), es);
    hide Init;
    var more :| OnlySteps(more) && JoinDone(Exec(s, more))
                 && t in Exec(s, more).threads && Exec(s, more).threads[t] == s.threads[t];
    hide Exec; hide JoinDone;
    StopsAfter(s, more, t);
  }

  lemma StopsAfter(s: Service, more: seq<Event>, t: nat)
    requires OnlySteps(more) && JoinDone(Exec(s, more))
    requires t in Exec(s, more).threads && Exec(s, more).threads[t].at.StopJoin?
    ensures OnlySteps(more + Steps(t, 2)) && Stopped(Exec(s, more + Steps(t, 2)), t)
  {
    var s' := Exec(s, more);
    StopSteps(s', t);
    ExecConcat(s, more, Steps(t, 2));
    TwoGo(s', t);
    assert Steps(t, 2) == [Go(t, 0), Go(t, 0)] by { assert Steps(t, 1) == [Go(t, 0)] + Steps(t, 0); }
    hide Exec; hide Step; hide JoinDone; hide Steps;
  }

  predicate Stopped(s: Service, t: nat) {
    t in s.threads && s.threads[t].at.Idle? && s.worker.None? && s.startMutex.None?
  }

  // ----- `start` -----

  /** The steps of `start` as far as line 107, with the join of a worker that is over. */
  function Opens(t: nat, joins: bool): seq<Event> {
    Steps(t, if joins then 4 else 3)
  }

  lemma Opened(s: Service, t: nat)
    requires t in s.threads && s.threads[t].at.StartEnter? && s.startMutex.None? && !s.isRunning
    requires JoinDone(s)
    ensures Exec(s, Opens(t, s.worker.Some?)) == Locked(s, t, StartLock, Some(t)).(worker := None)
  {
    var g := Go(t, 0);
    assert Step(s, g) == Locked(s, t, StartCheck, Some(t));
    assert Step(Locked(s, t, StartCheck, Some(t)), g) == Locked(s, t, StartOld, Some(t));
    OldJoined(s, t);
    hide Exec; hide Step; hide Locked;
    if s.worker.Some? {
      FourSteps(s, t);
    } else {
      ThreeGo(s, t);
    }
  }

  lemma OldJoined(s: Service, t: nat)
    requires t in s.threads && s.threads[t].at.StartEnter? && JoinDone(s)
    ensures var g, s2 := Go(t, 0), Locked(s, t, StartOld, Some(t));
            (if s.worker.Some? then Step(Step(s2, g), g) else Step(s2, g)) == Locked(s, t, StartLock, Some(t)).(worker := None)
  {
    var s2 := Locked(s, t, StartOld, Some(t));
    if s.worker.Some? {
      assert Step(s2, Go(t, 0)) == Locked(s, t, StartJoin, Some(t));
    }
  }

  /** Makes the thread `w`, clears the notification and goes to sleep. */
  function Spawns(t: nat, w: nat): seq<Event> {
    [Go(t, 0), Go(t, w), Go(t, 0), Go(t, 0)]
  }

  function Hired(s: Service, t: nat, w: nat, p: Place): Service
    requires t in s.threads
  {
    Move(s, t, p).(threads := s.threads[t := s.threads[t].(at := p)][w := Thread(RunEnter, true)], worker := Some(w))
  }

  lemma Spawned(s: Service, t: nat, w: nat)
    requires t in s.threads && s.threads[t].at.StartLock? && s.waitMutex.None? && w !in s.threads
    ensures Exec(s, Spawns(t, w)) == Hired(s, t, w, StartBlocked).(notified := false)
  {
    var s1 := At(s, t, StartSpawn, Some(t));
    assert Step(s, Go(t, 0)) == s1;
    var s2 := Hired(s, t, w, StartClear).(waitMutex := Some(t));
    ThreadMade(s1, t, w);
    assert Hired(s1, t, w, StartClear) == s2;
    SleepSteps(s2, t);
    var s3 := Step(s2, Go(t, 0));
    var s4 := Step(s3, Go(t, 0));
    assert Move(s2, t, StartBlocked).(notified := false, waitMutex := None)
        == Hired(s, t, w, StartBlocked).(notified := false);
    hide Step; hide Hired; hide At; hide Move;
    ExecIs(s, Spawns(t, w), [s, s1, s2, s3, s4]);
  }

  lemma ThreadMade(s: Service, t: nat, w: nat)
    requires t in s.threads && s.threads[t].at.StartSpawn? && w !in s.threads
    ensures Step(s, Go(t, w)) == Hired(s, t, w, StartClear)
  {
  }

  lemma SleepSteps(s: Service, t: nat)
    requires t in s.threads && s.threads[t].at.StartClear?
    ensures Step(Step(s, Go(t, 0)), Go(t, 0)) == Move(s, t, StartBlocked).(notified := false, waitMutex := None)
  {
    assert Step(s, Go(t, 0)) == Move(s, t, StartTest).(notified := false);
  }

  /** Woken, `start` takes the mutex again and returns. */
  lemma Rejoined(s: Service, t: nat)
    requires t in s.threads && s.threads[t].at.StartWoken? && s.waitMutex.None? && s.notified && s.startMutex == Some(t)
    ensures Exec(s, Steps(t, 3)) == Locked(s, t, Idle, None)
  {
    assert Step(s, Go(t, 0)) == At(s, t, StartTest, Some(t));
    assert Step(At(s, t, StartTest, Some(t)), Go(t, 0)) == At(s, t, StartReturn, Some(t));
    ThreeGo(s, t);
  }

  lemma Awoken(s: Service, t: nat, w: nat)
    requires t in s.threads && w !in s.threads
    ensures var s2 := Hired(Locked(s, t, StartLock, Some(t)).(worker := None), t, w, StartBlocked).(notified := false);
            Notify(Move(s2, w, Running).(isRunning := true, notified := true))
              == s.(threads := s.threads[t := s.threads[t].(at := StartWoken)][w := Thread(Running, true)],
                    isRunning := true, notified := true, worker := Some(w), startMutex := Some(t))
  {
  }

  /** A whole call of `start` and the first steps of its worker. */
  function Starts(t: nat, w: nat, joins: bool): seq<Event> {
    Opens(t, joins) + Spawns(t, w) + Steps(w, 5) + Steps(t, 3)
  }

  /** `start` on a service that does not run, with no worker or one that is over: it returns, both
      mutexes are free, and a new worker is in the executor. */
  lemma StartStarts(s: Service, t: nat, w: nat)
    requires t in s.threads && s.threads[t].at.StartEnter? && s.startMutex.None? && s.waitMutex.None?
    requires !s.isRunning && JoinDone(s) && w !in s.threads
    ensures Exec(s, Starts(t, w, s.worker.Some?))
         == s.(threads := s.threads[t := s.threads[t].(at := Idle)][w := Thread(Running, true)],
               isRunning := true, notified := true, worker := Some(w))
  {
    var o := Opens(t, s.worker.Some?);
    Opened(s, t);
    var s1 := Locked(s, t, StartLock, Some(t)).(worker := None);
    Spawned(s1, t, w);
    var s2 := Hired(s1, t, w, StartBlocked).(notified := false);
    RunAlone(s2, w);
    var s3 := Notify(Move(s2, w, Running).(isRunning := true, notified := true));
    Awoken(s, t, w);
    Rejoined(s3, t);
    hide Notify; hide Hired;
    hide Exec; hide Opens; hide Spawns; hide Steps; hide Step;
    ExecConcat(s, o, Spawns(t, w));
    ExecConcat(s, o + Spawns(t, w), Steps(w, 5));
    ExecConcat(s, o + Spawns(t, w) + Steps(w, 5), Steps(t, 3));
  }

  // ----- whole calls of a client -----

  /** On a running service `start` and `run` return and nothing is changed; a `stop` with no live worker
      returns, and only `thread_` is forgotten. */
  lemma CallsReturn(s: Service, t: nat)
    requires t in s.threads && s.threads[t] == Thread(Idle, false)
    ensures s.isRunning && s.startMutex.None? ==> Exec(s, [Invoke(t, Start)] + Steps(t, 2)) == s
    ensures s.isRunning && s.waitMutex.None? ==> Exec(s, [Invoke(t, Run)] + Steps(t, 3)) == s
    ensures s.startMutex.None? && JoinDone(s) ==> Exec(s, [Invoke(t, Stop)] + Steps(t, 3)) == s.(worker := None)
  {
    CallFirst(s, t, Start, Steps(t, 2));
    CallFirst(s, t, Run, Steps(t, 3));
    CallFirst(s, t, Stop, Steps(t, 3));
    hide Exec; hide Steps; hide Move; hide JoinDone;
    if s.isRunning && s.startMutex.None? {
      Called(s, t, StartEnter);
      StartWhenRunning(Move(s, t, StartEnter), t);
    }
    if s.isRunning && s.waitMutex.None? {
      Called(s, t, RunEnter);
      RunWhenRunning(Move(s, t, RunEnter), t);
    }
    if s.startMutex.None? && JoinDone(s) {
      Called(s, t, StopEnter);
      StopReturns(Move(s, t, StopEnter), t);
    }
  }

  /** A client in a call, and back from it. */
  lemma Called(s: Service, t: nat, p: Place)
    requires t in s.threads && s.threads[t] == Thread(Idle, false)
    ensures var s1 := Move(s, t, p);
            && t in s1.threads && s1.threads[t] == Thread(p, false) && Home(s1, t) == Idle && Move(s1, t, Idle) == s
            && s1.(threads := s1.threads[t := s1.threads[t].(at := Idle)]) == s
            && s1.isRunning == s.isRunning && s1.startMutex == s.startMutex && s1.waitMutex == s.waitMutex
            && (JoinDone(s) ==> JoinDone(s1))
  {
    assert s.threads[t := Thread(Idle, false)] == s.threads;
  }

  /** On a service that does not run, with no worker or one that is over, `start` returns with a new worker
      in the executor; and a client that calls `run` is in the executor itself. */
  lemma CallsRun(s: Service, t: nat, w: nat)
    requires t in s.threads && s.threads[t] == Thread(Idle, false) && !s.isRunning
    requires s.startMutex.None? && s.waitMutex.None? && w !in s.threads
    ensures JoinDone(s) ==>
              Exec(s, [Invoke(t, Start)] + Starts(t, w, s.worker.Some?))
                == s.(threads := s.threads[w := Thread(Running, true)], isRunning := true, notified := true,
                      worker := Some(w))
    ensures Exec(s, [Invoke(t, Run)] + Steps(t, 5)) == Move(s, t, Running).(isRunning := true, notified := true)
  {
    CallFirst(s, t, Start, Starts(t, w, s.worker.Some?));
    CallFirst(s, t, Run, Steps(t, 5));
    hide Exec; hide Steps; hide Starts; hide Step; hide Move; hide JoinDone;
    Called(s, t, RunEnter);
    RunAlone(Move(s, t, RunEnter), t);
    NobodyWaits(s, t);
    if JoinDone(s) {
      Called(s, t, StartEnter);
      StartStarts(Move(s, t, StartEnter), t, w);
    }
  }

  lemma NobodyWaits(s: Service, t: nat)
    requires t in s.threads && s.startMutex.None?
    ensures Notify(Move(Move(s, t, RunEnter), t, Running).(isRunning := true, notified := true))
         == Move(s, t, Running).(isRunning := true, notified := true)
  {
  }
}
