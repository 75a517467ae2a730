/** When a sleeping `start` can still return, and what a client that calls `run` itself can do to it. */
module LostWakeup {
  import opened AsyncService
  import opened Handshake

  /** Inside the wait of line 116. */
  predicate Sleeps(p: Place) {
    p.StartBlocked? || p.StartWoken? || p.StartTest?
  }

  ghost predicate Sleeping(s: Service, t: nat) {
    Safe(s) && t in s.threads && Sleeps(s.threads[t].at)
  }

  /** Somebody is in `run` and has not passed the notification. */
  predicate SomeoneAhead(s: Service) {
    exists u :: u in s.threads && Ahead(s.threads[u].at)
  }

  predicate Returns(s: Service, t: nat) {
    t in s.threads && s.threads[t].at.StartReturn?
  }

  // ----- nobody ahead: it sleeps for ever -----

  ghost predicate Stuck(s: Service, t: nat) {
    Sleeping(s, t) && !s.notified && !SomeoneAhead(s)
  }

  /** While `start` sleeps it holds startMutex_, so no worker is made. */
  lemma StepStuck(s: Service, t: nat, e: Event)
    requires Stuck(s, t) && !(e.Invoke? && e.call.Run?)
    ensures Stuck(Step(s, e), t)
  {
    StepSafe(s, e);
    Holding(s, t);
    if e.Go? && e.t in s.threads {
      Holding(s, e.t);
      hide Safe;
      if e.t == t {
        OwnStuck(s, t, e.spawned);
      } else {
        OtherStuck(s, t, e.t, e.spawned);
      }
      hide Advance;
    } else if !e.Go? {
      hide Safe;
      hide Advance;
      CallStuck(s, t, e);
    }
  }

  /** A call, or a spurious wake. */
  lemma CallStuck(s: Service, t: nat, e: Event)
    requires t in s.threads && Sleeps(s.threads[t].at) && !s.notified && !SomeoneAhead(s)
    requires !e.Go? && !(e.Invoke? && e.call.Run?)
    ensures var s' := Step(s, e);
            t in s'.threads && Sleeps(s'.threads[t].at) && !s'.notified && !SomeoneAhead(s')
  {
    var s' := Step(s, e);
    forall v | v in s'.threads ensures !Ahead(s'.threads[v].at) {
      assert v in s.threads && !Ahead(s.threads[v].at);
    }
  }

  /** Its own step. */
  lemma OwnStuck(s: Service, t: nat, spawned: nat)
    requires t in s.threads && Sleeps(s.threads[t].at) && !s.notified && !SomeoneAhead(s)
    ensures var s' := Advance(s, t, spawned);
            t in s'.threads && Sleeps(s'.threads[t].at) && !s'.notified && !SomeoneAhead(s')
  {
    var s' := Advance(s, t, spawned);
    forall v | v in s'.threads ensures !Ahead(s'.threads[v].at) {
      assert v in s.threads && !Ahead(s.threads[v].at);
    }
  }

  /** A step of another thread. */
  lemma OtherStuck(s: Service, t: nat, u: nat, spawned: nat)
    requires t in s.threads && u in s.threads && u != t && Sleeps(s.threads[t].at) && !s.notified && !SomeoneAhead(s)
    requires s.startMutex == Some(t) && !HoldsStart(s.threads[u].at)
    ensures var s' := Advance(s, u, spawned);
            t in s'.threads && Sleeps(s'.threads[t].at) && !s'.notified && !SomeoneAhead(s')
  {
    assert !Ahead(s.threads[u].at);
    var s' := Advance(s, u, spawned);
    forall v | v in s'.threads ensures !Ahead(s'.threads[v].at) {
      assert v in s.threads;
    }
  }

  lemma {:induction false} StuckForEver(s: Service, t: nat, es: seq<Event>)
    requires Stuck(s, t) && NoDirectRun(es)
    ensures Stuck(Exec(s, es), t)
    decreases |es|
  {
    if es != [] {
      StepStuck(s, t, es[0]);
      hide Stuck;
      hide Step;
      StuckForEver(Step(s, es[0]), t, es[1..]);
    }
  }

  // ----- somebody ahead: it can return -----

  /** How far a thread that holds waitMutex_ in `run` is from releasing it. */
  function Hold(p: Place): nat {
    match p
    case RunCheck => 5
    case RunSet => 4
    case RunNotify => 3
    case RunRelease => 2
    case RunBusy => 2
    case _ => 1
  }

  /** How far the executor is from having notified. */
  function Distance(s: Service): nat {
    if s.waitMutex.Some? && s.waitMutex.value in s.threads then
      match s.threads[s.waitMutex.value].at
      case RunNotify => 1
      case RunSet => 2
      case RunCheck => if s.isRunning then 4 else 3
      case StartTest => 20
      case _ => 7
    else if s.isRunning then 6 else 5
  }

  /** How far `start` is from returning. */
  function Remaining(s: Service, t: nat): nat
    requires t in s.threads
  {
    if !s.notified then 30 + Distance(s)
    else if s.threads[t].at.StartTest? then 1
    else if s.threads[t].at.StartBlocked? then 20
    else 2 + (if s.waitMutex.Some? && s.waitMutex.value in s.threads then Hold(s.threads[s.waitMutex.value].at) else 0)
  }

  ghost predicate CanStill(s: Service, t: nat) {
    Sleeping(s, t) && (s.notified || SomeoneAhead(s))
  }

  /** Progress has been made: `start` returns, or is nearer to it. */
  ghost predicate Nearer(s: Service, t: nat, s': Service)
    requires t in s.threads
  {
    || (Safe(s') && Returns(s', t))
    || (CanStill(s', t) && Remaining(s', t) < Remaining(s, t))
  }

  /** Once notified, `start` wakes, takes the mutex when its holder is done, and returns. */
  lemma NotifiedStep(s: Service, t: nat) returns (e: Event)
    requires CanStill(s, t) && s.notified
    ensures !e.Invoke? && Nearer(s, t, Step(s, e))
  {
    Holding(s, t);
    if s.threads[t].at.StartBlocked? {
      e := Spurious(t);
      if s.waitMutex.Some? {
        Holding(s, s.waitMutex.value);
      }
    } else if s.threads[t].at.StartTest? || s.waitMutex.None? {
      e := Go(t, 0);
    } else {
      var h := s.waitMutex.value;
      Holding(s, h);
      e := Go(h, 0);
      HolderStep(s, t, h);
    }
    StepSafe(s, e);
    hide Safe;
    hide SomeoneAhead;
  }

  /** Whoever holds waitMutex_ beside a sleeper is in `run`, and comes nearer to releasing it. */
  lemma HolderStep(s: Service, t: nat, h: nat)
    requires Sleeping(s, t) && s.notified && s.threads[t].at.StartWoken? && s.waitMutex == Some(h)
    ensures var s' := Step(s, Go(h, 0));
            && t in s'.threads && s'.threads[t].at.StartWoken? && s'.notified
            && Remaining(s', t) < Remaining(s, t)
  {
    Holding(s, t);
    Holding(s, h);
    hide Safe;
  }

  /** Before that: the holder of waitMutex_ goes on, or the executor stops, or a thread about to
      lock the mutex does. */
  lemma UnnotifiedStep(s: Service, t: nat) returns (e: Event)
    requires CanStill(s, t) && !s.notified
    ensures !e.Invoke? && Nearer(s, t, Step(s, e))
  {
    Holding(s, t);
    if s.waitMutex.Some? {
      var h := s.waitMutex.value;
      Holding(s, h);
      if s.threads[h].at.RunCheck? && s.isRunning {
        e := StopRunner(s, t);
      } else {
        e := Go(h, 0);
        HolderNearer(s, t, h);
      }
    } else if s.isRunning {
      e := StopRunner(s, t);
    } else {
      var u :| u in s.threads && Ahead(s.threads[u].at);
      Holding(s, u);
      e := Go(u, 0);
      EnterNearer(s, t, u);
    }
    StepSafe(s, e);
    hide Safe;
  }

  lemma StopRunner(s: Service, t: nat) returns (e: Event)
    requires CanStill(s, t) && !s.notified && s.isRunning
    requires s.waitMutex.Some? ==> s.waitMutex.value in s.threads && s.threads[s.waitMutex.value].at.RunCheck?
    ensures !e.Invoke?
    ensures var s' := Step(s, e);
            t in s'.threads && Sleeps(s'.threads[t].at) && !s'.notified && SomeoneAhead(s') && Distance(s') < Distance(s)
  {
    var r :| r in s.threads && Runs(s.threads[r].at);
    Holding(s, r);
    assert s.threads[r].at.Running?;
    e := Go(r, 0);
    var u :| u in s.threads && Ahead(s.threads[u].at);
    var s' := Step(s, e);
    assert u in s'.threads && s'.threads[u] == s.threads[u];
    hide Safe;
  }

  lemma HolderNearer(s: Service, t: nat, h: nat)
    requires CanStill(s, t) && !s.notified && s.waitMutex == Some(h) && h in s.threads
    requires !(s.threads[h].at.RunCheck? && s.isRunning)
    ensures var s' := Step(s, Go(h, 0));
            && t in s'.threads && Sleeps(s'.threads[t].at) && (s'.notified || SomeoneAhead(s'))
            && Remaining(s', t) < Remaining(s, t)
  {
    Holding(s, t);
    Holding(s, h);
    var u :| u in s.threads && Ahead(s.threads[u].at);
    Holding(s, u);
    hide Safe;
    if s.threads[h].at.RunNotify? {
      NotifyNearer(s, t, h);
    } else if Ahead(s.threads[h].at) {
      AheadNearer(s, t, h);
    } else {
      ReleaseNearer(s, t, h, u);
    }
    hide Remaining;
    hide Advance;
  }

  lemma NotifyNearer(s: Service, t: nat, h: nat)
    requires t in s.threads && Sleeps(s.threads[t].at) && h in s.threads && h != t && s.threads[h].at.RunNotify?
    requires !s.notified && s.waitMutex == Some(h) && s.startMutex == Some(t)
    ensures var s' := Step(s, Go(h, 0));
            t in s'.threads && Sleeps(s'.threads[t].at) && s'.notified && Remaining(s', t) < Remaining(s, t)
  {
  }

  lemma AheadNearer(s: Service, t: nat, h: nat)
    requires t in s.threads && Sleeps(s.threads[t].at) && h in s.threads && h != t
    requires s.threads[h].at.RunSet? || (s.threads[h].at.RunCheck? && !s.isRunning)
    requires !s.notified && s.waitMutex == Some(h)
    ensures var s' := Step(s, Go(h, 0));
            t in s'.threads && Sleeps(s'.threads[t].at) && SomeoneAhead(s') && Remaining(s', t) < Remaining(s, t)
  {
    var s' := Step(s, Go(h, 0));
    assert h in s'.threads && Ahead(s'.threads[h].at);
  }

  lemma ReleaseNearer(s: Service, t: nat, h: nat, u: nat)
    requires t in s.threads && Sleeps(s.threads[t].at) && h in s.threads && u in s.threads && u != h
    requires Ahead(s.threads[u].at)
    requires (s.threads[h].at.RunBusy? || s.threads[h].at.RunRelease? || s.threads[h].at.StartTest?)
    requires h == t || !s.threads[h].at.StartTest?
    requires h != t || s.threads[h].at.StartTest?
    requires !s.notified && s.waitMutex == Some(h)
    ensures var s' := Step(s, Go(h, 0));
            t in s'.threads && Sleeps(s'.threads[t].at) && SomeoneAhead(s') && Remaining(s', t) < Remaining(s, t)
  {
    var s' := Step(s, Go(h, 0));
    assert u in s'.threads && s'.threads[u] == s.threads[u];
  }

  lemma EnterNearer(s: Service, t: nat, u: nat)
    requires CanStill(s, t) && !s.notified && s.waitMutex.None? && !s.isRunning
    requires u in s.threads && s.threads[u].at.RunEnter?
    ensures var s' := Step(s, Go(u, 0));
            && t in s'.threads && Sleeps(s'.threads[t].at) && !s'.notified && SomeoneAhead(s')
            && Distance(s') < Distance(s)
  {
    var s' := Step(s, Go(u, 0));
    assert u in s'.threads && Ahead(s'.threads[u].at);
    hide Safe;
  }

  lemma {:induction false} CanReturn(s: Service, t: nat) returns (es: seq<Event>)
    requires CanStill(s, t)
    ensures NoDirectRun(es) && Returns(Exec(s, es), t)
    decreases Remaining(s, t)
  {
    var e: Event;
    if s.notified {
      e := NotifiedStep(s, t);
    } else {
      e := UnnotifiedStep(s, t);
    }
    var s' := Step(s, e);
    if Returns(s', t) {
      es := [e];
      assert es[1..] == [] && Exec(s', []) == s';
    } else {
      hide CanStill;
      hide Remaining;
      hide Step;
      var rest := CanReturn(s', t);
      es := [e] + rest;
      assert es[1..] == rest;
    }
  }

  // ----- main results -----

  /** Without further calls of `run` by clients, a sleeping `start` can return exactly when it has
      been notified or somebody is on the way to the notification. */
  lemma ReturnsIff(s: Service, t: nat)
    requires Sleeping(s, t)
    ensures (exists es :: NoDirectRun(es) && Returns(Exec(s, es), t)) <==> s.notified || SomeoneAhead(s)
  {
    if s.notified || SomeoneAhead(s) {
      var es := CanReturn(s, t);
    } else {
      forall es | NoDirectRun(es) ensures !Returns(Exec(s, es), t) {
        StuckForEver(s, t, es);
      }
    }
  }

  // ----- when clients call `run` themselves -----

  function At(s: Service, w: nat, p: Place, mutex: Option<nat>): Service
    requires w in s.threads
  {
    Move(s, w, p).(waitMutex := mutex)
  }

  lemma TwoSteps(s: Service, w: nat)
    requires w in s.threads && s.threads[w].at.RunEnter? && s.waitMutex.None?
    ensures Step(Step(s, Go(w, 0)), Go(w, 0)) == At(s, w, if s.isRunning then RunBusy else RunSet, Some(w))
  {
    assert Step(s, Go(w, 0)) == At(s, w, RunCheck, Some(w));
  }

  /** A worker about to lock waitMutex_ while `t` sleeps: four steps of the worker wake `t` exactly
      when the executor is not running. If somebody else runs it, the worker leaves and `t`
      sleeps on. */
  lemma WokenIff(s: Service, t: nat, w: nat)
    requires t in s.threads && s.threads[t].at.StartBlocked? && s.startMutex == Some(t)
    requires w in s.threads && s.threads[w] == Thread(RunEnter, true) && s.waitMutex.None?
    ensures var s' := Exec(s, Steps(w, 4));
            && t in s'.threads && w in s'.threads
            && (s'.threads[t].at.StartWoken? <==> !s.isRunning)
            && (s.isRunning ==> s' == Move(s, w, Exited))
  {
    var g := Go(w, 0);
    TwoSteps(s, w);
    var s2 := Step(Step(s, g), g);
    var s3 := Step(s2, g);
    if s.isRunning {
      assert s3 == At(s, w, Exited, None);
    } else {
      assert s3 == At(s, w, RunNotify, Some(w)).(isRunning := true);
    }
    var s4 := Step(s3, g);
    FourSteps(s, w);
  }

  lemma FourSteps(s: Service, w: nat)
    ensures var g := Go(w, 0); Exec(s, Steps(w, 4)) == Step(Step(Step(Step(s, g), g), g), g)
  {
    hide Step;
    var g := Go(w, 0);
    assert Steps(w, 4)[1..] == Steps(w, 3) && Steps(w, 3)[1..] == Steps(w, 2)
        && Steps(w, 2)[1..] == Steps(w, 1) && Steps(w, 1)[1..] == [];
    var s1 := Step(s, g);
    var s2 := Step(s1, g);
    var s3 := Step(s2, g);
    assert Exec(s3, Steps(w, 1)) == Exec(Step(s3, g), []);
    assert Exec(s2, Steps(w, 2)) == Exec(s3, Steps(w, 1));
    assert Exec(s1, Steps(w, 3)) == Exec(s2, Steps(w, 2));
  }

  lemma {:induction false} ExecConcat(s: Service, a: seq<Event>, b: seq<Event>)
    ensures Exec(s, a + b) == Exec(Exec(s, a), b)
    decreases |a|
  {
    hide Step;
    if a == [] {
      assert a + b == b;
    } else {
      assert (a + b)[1..] == a[1..] + b;
      ExecConcat(Step(s, a[0]), a[1..], b);
    }
  }

  /** Two clients, the first about to lock waitMutex_ in `start`; the second has called `run` and
      is in the executor; the first has gone to sleep and its worker is about to begin. */
  function Case(first: Place, second: Place, worker: bool, running: bool, notified: bool): Service {
    var ts := map[0 := Thread(first, false), 1 := Thread(second, false)];
    Service(if worker then ts[2 := Thread(RunEnter, true)] else ts, running, notified, Some(0), None,
            if worker then Some(2) else None)
  }

  const Begins: seq<Event> := [Invoke(0, Start), Go(0, 0), Go(0, 0), Go(0, 0)]
  const RunsItself: seq<Event> := [Invoke(1, Run), Go(1, 0), Go(1, 0), Go(1, 0), Go(1, 0), Go(1, 0)]
  const Sleeps4: seq<Event> := [Go(0, 0), Go(0, 2), Go(0, 0), Go(0, 0)]

  lemma Begun()
    ensures Exec(Init({0, 1}), Begins) == Case(StartLock, Idle, false, false, false)
  {
    var s0 := Init({0, 1});
    assert s0.threads == map[0 := Thread(Idle, false), 1 := Thread(Idle, false)];
    var s1 := Step(s0, Begins[0]);
    var s2 := Step(s1, Begins[1]);
    var s3 := Step(s2, Begins[2]);
    var s4 := Step(s3, Begins[3]);
    assert s4 == Case(StartLock, Idle, false, false, false);
    ExecIs(s0, Begins, [s0, s1, s2, s3, s4]);
  }

  /** A run written out state by state. */
  lemma {:induction false} ExecIs(s: Service, es: seq<Event>, states: seq<Service>)
    requires |states| == |es| + 1 && states[0] == s
    requires forall i :: 0 <= i < |es| ==> states[i + 1] == Step(states[i], es[i])
    ensures Exec(s, es) == states[|es|]
    decreases |es|
  {
    hide Step;
    if es != [] {
      ExecIs(states[1], es[1..], states[1..]);
    }
  }

  lemma RanItself()
    ensures Exec(Case(StartLock, Idle, false, false, false), RunsItself) == Case(StartLock, Running, false, true, true)
  {
    var s0 := Case(StartLock, Idle, false, false, false);
    var s1 := Case(StartLock, RunEnter, false, false, false);
    var s2 := Case(StartLock, RunCheck, false, false, false).(waitMutex := Some(1));
    var s3 := Case(StartLock, RunSet, false, false, false).(waitMutex := Some(1));
    var s4 := Case(StartLock, RunNotify, false, true, false).(waitMutex := Some(1));
    var s5 := Case(StartLock, RunRelease, false, true, true).(waitMutex := Some(1));
    var s6 := Case(StartLock, Running, false, true, true);
    assert Step(s0, RunsItself[0]) == s1;
    assert Step(s1, RunsItself[1]) == s2;
    assert Step(s2, RunsItself[2]) == s3;
    assert Step(s3, RunsItself[3]) == s4;
    assert Step(s4, RunsItself[4]) == s5;
    assert Step(s5, RunsItself[5]) == s6;
    hide Step;
    hide Case;
    ExecIs(s0, RunsItself, [s0, s1, s2, s3, s4, s5, s6]);
  }

  lemma SpawnedAndCleared()
    ensures Step(Case(StartLock, Running, false, true, true), Go(0, 0))
         == Case(StartSpawn, Running, false, true, true).(waitMutex := Some(0))
    ensures Step(Case(StartSpawn, Running, false, true, true).(waitMutex := Some(0)), Go(0, 2))
         == Case(StartClear, Running, true, true, true).(waitMutex := Some(0))
  {
  }

  lemma Slept()
    ensures Exec(Case(StartLock, Running, false, true, true), Sleeps4) == Case(StartBlocked, Running, true, true, false)
  {
    var s0 := Case(StartLock, Running, false, true, true);
    var s1 := Case(StartSpawn, Running, false, true, true).(waitMutex := Some(0));
    var s2 := Case(StartClear, Running, true, true, true).(waitMutex := Some(0));
    var s3 := Case(StartTest, Running, true, true, false).(waitMutex := Some(0));
    var s4 := Case(StartBlocked, Running, true, true, false);
    SpawnedAndCleared();
    assert Step(s2, Sleeps4[2]) == s3;
    assert Step(s3, Sleeps4[3]) == s4;
    hide Step;
    hide Case;
    ExecIs(s0, Sleeps4, [s0, s1, s2, s3, s4]);
  }

  /** The condition on `run` is needed: if a client calls it between the test of line 94 and the
      lock of line 107, `start` goes to sleep after the notification, and its worker leaves
      without another. From then on `start` sleeps, and nobody else gets startMutex_, for as long as
      no client calls `run` again. */
  lemma DirectRunLosesWakeup(es: seq<Event>)
    requires NoDirectRun(es)
    ensures var s := Exec(Init({0, 1}), Begins + RunsItself + Sleeps4 + Steps(2, 4));
            && Sleeping(s, 0) && s.threads[0].at.StartBlocked?
            && Sleeping(Exec(s, es), 0) && Exec(s, es).startMutex == Some(0)
  {
    var s := Exec(Init({0, 1}), Begins + RunsItself + Sleeps4 + Steps(2, 4));
    Lost();
    RunSafe(Init({0, 1}), Begins + RunsItself + Sleeps4 + Steps(2, 4));
    LostIsStuck();
    hide Exec; hide Case; hide Init; hide Move; hide Safe;
    StuckForEver(s, 0, es);
    Holding(Exec(s, es), 0);
  }

  lemma LostIsStuck()
    ensures var s := Move(Case(StartBlocked, Running, true, true, false), 2, Exited);
            s.threads[0].at.StartBlocked? && (Safe(s) ==> Stuck(s, 0))
  {
    hide Safe;
  }

  lemma Lost()
    ensures var s := Exec(Init({0, 1}), Begins + RunsItself + Sleeps4 + Steps(2, 4));
            s == Move(Case(StartBlocked, Running, true, true, false), 2, Exited)
  {
    hide Step;
    Begun();
    RanItself();
    Slept();
    ExecConcat(Init({0, 1}), Begins, RunsItself);
    ExecConcat(Init({0, 1}), Begins + RunsItself, Sleeps4);
    ExecConcat(Init({0, 1}), Begins + RunsItself + Sleeps4, Steps(2, 4));
    WokenIff(Case(StartBlocked, Running, true, true, false), 0, 2);
  }
}
