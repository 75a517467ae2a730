/** Whole blocking calls: a call returns, and with what. */
module BlockingCalls {
  import opened Bytes
  import opened Fates
  import M = ReaderModel
  import opened ReaderSystem
  import opened ReaderInvariant
  import opened ReaderRuns
  import opened Blocking
  import E = Effects

  // ----- a client that can return -----

  /** In at most `n` events, none of them a call, the client returns `bytes`. */
  ghost predicate ReturnsIn(b: Blocked, n: nat, bytes: seq<byte>)
    requires |b.s.taken| == |b.s.fate|
  {
    exists es :: |es| <= n && NoCall(es) && HasReturned(b, BExec(b, es), bytes)
  }

  predicate NoCall(es: seq<BEvent>) {
    forall i :: 0 <= i < |es| ==> !es[i].Call?
  }

  predicate HasReturned(b: Blocked, b': Blocked, bytes: seq<byte>) {
    b'.at.Outside? && b'.returned == b.returned + [bytes]
  }

  /** One event more. */
  lemma EventFirst(b: Blocked, e: BEvent, n: nat, bytes: seq<byte>)
    requires |b.s.taken| == |b.s.fate| && |BStep(b, e).s.taken| == |BStep(b, e).s.fate|
    requires !e.Call? && BStep(b, e).returned == b.returned && ReturnsIn(BStep(b, e), n, bytes)
    ensures ReturnsIn(b, n + 1, bytes)
  {
    hide BStep;
    var b1 := BStep(b, e);
    var es :| |es| <= n && NoCall(es) && HasReturned(b1, BExec(b1, es), bytes);
    assert ([e] + es)[1..] == es;
    assert NoCall([e] + es) && HasReturned(b, BExec(b, [e] + es), bytes);
  }

  lemma TestReturns(b: Blocked)
    requires |b.s.taken| == |b.s.fate| && b.at.Testing? && b.s.r.notified
    ensures ReturnsIn(b, 1, b.s.r.held)
  {
    assert [Test][1..] == [];
    assert BExec(b, [Test]) == BExec(BStep(b, Test), []);
    assert NoCall([Test]) && HasReturned(b, BExec(b, [Test]), b.s.r.held);
  }

  lemma NotifiedReturns(b: Blocked)
    requires |b.s.taken| == |b.s.fate| && b.at.Asleep? && b.s.r.notified
    ensures ReturnsIn(b, 2, b.s.r.held)
  {
    TestReturns(BStep(b, Wake));
    hide ReturnsIn;
    EventFirst(b, Wake, 1, b.s.r.held);
  }

  lemma CallbackRuns(b: Blocked, key: nat)
    requires Inv(b.s) && OnlyReadCallbacks(b.s.r) && b.at.Asleep? && IsCallback(b.s.r, key)
    ensures var b' := BStep(b, Executor(Execute(key)));
            && |b'.s.taken| == |b'.s.fate| && b'.at.Asleep? && b'.returned == b.returned
            && b'.s.r.notified && b'.s.r.held == b.s.r.held
  {
    hide Lose; hide Concat;
  }

  /** A client that sleeps although its read is over: it is told, wakes and returns. */
  lemma OverReturns(b: Blocked)
    requires Awake(b) && b.at.Asleep? && b.s.r.id == 0
    ensures ReturnsIn(b, 3, b.s.r.held)
  {
    if b.s.r.notified {
      NotifiedReturns(b);
    } else {
      var key :| IsCallback(b.s.r, key);
      CallbackRuns(b, key);
      hide BStep; hide Inv;
      NotifiedReturns(BStep(b, Executor(Execute(key))));
      hide ReturnsIn;
      EventFirst(b, Executor(Execute(key)), 2, b.s.r.held);
    }
  }

  /** In every run: a client that sleeps while its read is over returns in at most three events, of which
      the last two are its own. It returns what is counted at the destination; if every call was
      settled, that is the last report. */
  lemma SleeperReturns(es: seq<BEvent>)
    requires |BExec(Quiet, es).s.accepted| < M.ID_RANGE
    requires BExec(Quiet, es).at.Asleep? && BExec(Quiet, es).s.r.id == 0
    ensures var b := BExec(Quiet, es);
            && ReturnsIn(b, 3, b.s.r.held)
            && (AllSettled(Quiet, es) ==> b.s.posts != [] && b.s.r.held == b.s.posts[|b.s.posts| - 1].bytes)
  {
    StartInv();
    BRunAwake(Quiet, es);
    OverReturns(BExec(Quiet, es));
    if AllSettled(Quiet, es) {
      QuietInv();
      BRunKeeps(Quiet, es);
    }
    hide BExec; hide AllSettled; hide ReturnsIn;
  }

  // ----- a live read -----

  lemma AsleepRuns(b: Blocked, key: nat)
    requires |b.s.taken| == |b.s.fate| && b.at.Asleep? && key in b.s.r.pending
    ensures BStep(b, Executor(Execute(key))) == b.(s := Step(b.s, Execute(key)))
  {
    hide Step;
  }

  lemma ContinueOver(b: Blocked, key: nat)
    requires Awake(b) && b.at.Asleep? && b.s.r.id != 0 && Waiting(b.s.r, key) && b.s.r.pending[key].Done?
    ensures b.s.accepted != []
    ensures var q, h := b.s.accepted[|b.s.accepted| - 1], b.s.r.pending[key];
            var bytes := E.Added(b.s.r.held, q.kind, h.chunk);
            E.Over(q, bytes, h.chunk, h.err) ==> ReturnsIn(b, 4, bytes)
  {
    var e := Executor(Execute(key));
    var b1 := BStep(b, e);
    E.ContinueEffect(b.s, key);
    AsleepRuns(b, key);
    BStepAwake(b, e);
    var q, h := b.s.accepted[|b.s.accepted| - 1], b.s.r.pending[key];
    var bytes := E.Added(b.s.r.held, q.kind, h.chunk);
    hide BStep; hide Step; hide ReturnsIn; hide Inv;
    if E.Over(q, bytes, h.chunk, h.err) {
      OverReturns(b1);
      hide Awake;
      EventFirst(b, e, 3, bytes);
    }
  }

  lemma Completed(b: Blocked, key: nat, chunk: seq<byte>, err: bool)
    requires Awake(b) && b.at.Asleep? && b.s.r.id != 0 && Waiting(b.s.r, key)
    requires b.s.r.pending[key].Op? && |chunk| <= b.s.r.pending[key].count
    ensures var b1 := BStep(b, Executor(Complete(key, chunk, err)));
            && Awake(b1) && b1.at.Asleep? && b1.returned == b.returned && b1.s.accepted == b.s.accepted
            && b1.s.r.held == b.s.r.held && b1.s.r.id == b.s.r.id && Waiting(b1.s.r, key)
            && b1.s.r.pending[key].Done? && b1.s.r.pending[key].chunk == chunk && b1.s.r.pending[key].err == err
  {
    var e := Executor(Complete(key, chunk, err));
    E.CompleteEffect(b.s, key, chunk, err);
    BStepAwake(b, e);
    hide Awake; hide Step;
    assert BStep(b, e) == b.(s := Step(b.s, Complete(key, chunk, err)));
  }

  /** A client that sleeps while its read waits on the transport: once the operation is completed with
      what ends the read, it returns the bytes, in at most four events more. */
  lemma CompletionReturns(b: Blocked, key: nat, chunk: seq<byte>, err: bool)
    requires Awake(b) && b.at.Asleep? && b.s.r.id != 0 && Waiting(b.s.r, key)
    requires b.s.r.pending[key].Op? && |chunk| <= b.s.r.pending[key].count
    ensures b.s.accepted != []
    ensures var q := b.s.accepted[|b.s.accepted| - 1];
            var bytes := E.Added(b.s.r.held, q.kind, chunk);
            && E.Over(q, bytes, chunk, err) ==> ReturnsIn(b, 5, bytes)
  {
    var e := Executor(Complete(key, chunk, err));
    var b1 := BStep(b, e);
    Completed(b, key, chunk, err);
    hide BStep; hide ReturnsIn;
    ContinueOver(b1, key);
    hide Awake;
    var q := b.s.accepted[|b.s.accepted| - 1];
    var bytes := E.Added(b.s.r.held, q.kind, chunk);
    if E.Over(q, bytes, chunk, err) {
      EventFirst(b, e, 4, bytes);
    }
  }

  // ----- a whole call -----

  /** A call accepted by an idle reader clears the notification and, not notified, goes to sleep. */
  lemma CallSleeps(b: Blocked, kind: M.Kind, size: nat, timed: bool)
    requires |b.s.taken| == |b.s.fate| && b.at.Outside? && b.s.r.id == 0
    ensures var s1 := Step(b.s, Accept(kind, size, M.ReadCallback, timed));
            var b1 := BStep(b, Call(kind, size, timed));
            && |b1.s.taken| == |b1.s.fate| && |BStep(b1, Clear).s.taken| == |BStep(b1, Clear).s.fate|
            && BStep(BStep(b1, Clear), Test) == Blocked(ClearNotified(s1), Asleep, b.returned)
            && BStep(b1, Clear).returned == b1.returned == b.returned
  {
    BStepGrows(b, Call(kind, size, timed));
    hide Step;
  }

  lemma SleeperAwake(b: Blocked, kind: M.Kind, size: nat, timed: bool)
    requires Awake(b) && b.at.Outside? && b.s.r.id == 0 && |b.s.accepted| + 1 < M.ID_RANGE
    ensures Awake(BStep(BStep(BStep(b, Call(kind, size, timed)), Clear), Test))
  {
    CallAwake(b, kind, size, timed);
    CallSleeps(b, kind, size, timed);
    var b1 := BStep(b, Call(kind, size, timed));
    var b2 := BStep(b1, Clear);
    assert b1.at.Clearing? && b2.at.Testing? && b2.s.accepted == b1.s.accepted;
    Accepted(b, kind, size, timed);
    hide Awake; hide Step;
    ClearAwake(b1);
    assert BStep(b2, Test).s.accepted == b1.s.accepted;
    BStepAwake(b2, Test);
  }

  lemma Accepted(b: Blocked, kind: M.Kind, size: nat, timed: bool)
    requires |b.s.taken| == |b.s.fate| && b.at.Outside? && b.s.r.id == 0
    ensures |BStep(b, Call(kind, size, timed)).s.accepted| == |b.s.accepted| + 1
  {
    hide Lose; hide Concat; hide M.AsyncRead;
  }

  /** In at most `n` events, and some more for what the transport has to do, the client returns: what the
      residue gives it, if that is enough; otherwise the residue and `chunk`, as far as the delimiter, if
      `chunk` is what the transport brings and it ends the read. */
  ghost predicate ReturnsFor(b: Blocked, q: Request, residue: seq<byte>, chunk: seq<byte>, err: bool, n: nat)
    requires |b.s.taken| == |b.s.fate|
  {
    var stop := if q.kind.Until? then M.FirstStop(residue, q.kind.delim, q.size, 0) else 0;
    var bytes := E.Added(residue, q.kind, chunk);
    if stop > 0 then ReturnsIn(b, n, residue[..stop])
    else if q.kind.Until? || residue == [] then
      |chunk| <= q.size && E.Over(q, bytes, chunk, err) ==> ReturnsIn(b, n + 2, bytes)
    else if q.kind.Partial? || |residue| >= q.size then
      ReturnsIn(b, n + 1, residue[..Min(q.size, |residue|)])
    else
      |residue| + |chunk| <= q.size && E.Over(q, bytes, chunk, err) ==> ReturnsIn(b, n + 3, bytes)
  }

  /** What a request of the client looks like once it sleeps. */
  ghost predicate Asked(b: Blocked, q: Request, h: M.Handler, held: seq<byte>) {
    && Awake(b) && b.at.Asleep? && b.s.r.id != 0 && b.s.accepted != [] && b.s.accepted[|b.s.accepted| - 1] == q
    && b.s.r.held == held && (h.Op? || h.Done?) && h.id == b.s.r.id && E.Outstanding(b.s.r, h)
  }

  lemma TransportServes(b: Blocked, q: Request, h: M.Handler, held: seq<byte>, chunk: seq<byte>, err: bool)
    requires Asked(b, q, h, held) && h.Op? && |chunk| <= h.count
    ensures var bytes := E.Added(held, q.kind, chunk); E.Over(q, bytes, chunk, err) ==> ReturnsIn(b, 5, bytes)
  {
    var key :| key in b.s.r.pending && b.s.r.pending[key] == h;
    CompletionReturns(b, key, chunk, err);
    hide Awake; hide ReturnsIn;
  }

  /** The residue is handed over; a plain read that is not over with it asks for the rest. */
  lemma ResidueServes(b: Blocked, q: Request, h: M.Handler, chunk: seq<byte>, err: bool)
    requires Asked(b, q, h, []) && h.Done? && !h.err && !q.kind.Until?
    ensures if q.kind.Partial? || |h.chunk| >= q.size then ReturnsIn(b, 4, h.chunk)
            else |h.chunk| + |chunk| <= q.size && E.Over(q, h.chunk + chunk, chunk, err) ==>
                   ReturnsIn(b, 6, h.chunk + chunk)
  {
    var key :| key in b.s.r.pending && b.s.r.pending[key] == h;
    PlainAdds([], q.kind, h.chunk);
    assert [] + h.chunk == h.chunk;
    if q.kind.Partial? || |h.chunk| >= q.size {
      ContinueOver(b, key);
    } else if |h.chunk| + |chunk| <= q.size && E.Over(q, h.chunk + chunk, chunk, err) {
      AsksOn(b, q, key);
      PlainAdds(h.chunk, q.kind, chunk);
      hide BStep; hide ReturnsIn; hide Awake; hide E.Added; hide E.Over;
      var b1 := BStep(b, Executor(Execute(key)));
      TransportServes(b1, q, M.Op(b.s.r.id, q.kind, q.size - |h.chunk|, b.s.r.dumpOn), h.chunk, chunk, err);
      hide Asked;
      EventFirst(b, Executor(Execute(key)), 5, h.chunk + chunk);
    }
  }

  lemma AsksOn(b: Blocked, q: Request, key: nat)
    requires Awake(b) && b.at.Asleep? && b.s.r.id != 0 && Waiting(b.s.r, key) && b.s.r.pending[key].Done?
    requires b.s.accepted != [] && q == b.s.accepted[|b.s.accepted| - 1] && b.s.r.held == []
    requires var h := b.s.r.pending[key]; q.kind.Exact? && !h.err && |h.chunk| < q.size
    ensures var h, b1 := b.s.r.pending[key], BStep(b, Executor(Execute(key)));
            && b1.returned == b.returned
            && Asked(b1, q, M.Op(b.s.r.id, q.kind, q.size - |h.chunk|, b.s.r.dumpOn), h.chunk)
  {
    AwakeFacts(b);
    hide Step; hide Inv; hide E.Outstanding; hide BStep; hide Awake;
    AsleepRuns(b, key);
    PlainOn(b.s, q, key);
    RunsAwake(b, key, Step(b.s, Execute(key)));
  }

  lemma RunsAwake(b: Blocked, key: nat, s': Sys)
    requires Awake(b) && BStep(b, Executor(Execute(key))) == b.(s := s') && s'.accepted == b.s.accepted
    ensures Awake(b.(s := s'))
  {
    AwakeFacts(b);
    hide Awake; hide BStep; hide Inv;
    BStepAwake(b, Executor(Execute(key)));
  }

  lemma AwakeFacts(b: Blocked)
    requires Awake(b)
    ensures Inv(b.s) && |b.s.accepted| < M.ID_RANGE && |b.s.taken| == |b.s.fate|
  {
    hide LiveAt; hide Accounts;
  }

  lemma PlainOn(s: Sys, q: Request, key: nat)
    requires Inv(s) && s.r.id != 0 && Waiting(s.r, key) && s.r.pending[key].Done?
    requires s.accepted != [] && q == s.accepted[|s.accepted| - 1] && s.r.held == []
    requires var h := s.r.pending[key]; q.kind.Exact? && !h.err && |h.chunk| < q.size
    ensures |s.taken| == |s.fate|
    ensures var h, s' := s.r.pending[key], Step(s, Execute(key));
            && s'.r.id == s.r.id && s'.accepted == s.accepted && s'.r.held == h.chunk
            && E.Outstanding(s'.r, M.Op(s.r.id, q.kind, q.size - |h.chunk|, s.r.dumpOn))
  {
    E.ContinueEffect(s, key);
    PlainAdds([], q.kind, s.r.pending[key].chunk);
    assert [] + s.r.pending[key].chunk == s.r.pending[key].chunk;
    assert |s.taken| == |s.fate|;
    hide Step; hide E.Added; hide Inv; hide E.Outstanding;
  }

  lemma SleeperServed(b: Blocked, kind: M.Kind, size: nat, timed: bool, chunk: seq<byte>, err: bool)
    requires Awake(b) && b.at.Outside? && b.s.r.id == 0 && |b.s.accepted| + 1 < M.ID_RANGE
    ensures var b3 := BStep(BStep(BStep(b, Call(kind, size, timed)), Clear), Test);
            var q := Request(kind, size, M.ReadCallback, timed, |b.s.r.residue|);
            ReturnsFor(b3, q, b.s.r.residue, chunk, err, 3)
  {
    var b3 := BStep(BStep(BStep(b, Call(kind, size, timed)), Clear), Test);
    var r, q := b.s.r, Request(kind, size, M.ReadCallback, timed, |b.s.r.residue|);
    SleeperAsked(b, kind, size, timed);
    hide BStep; hide ReturnsIn; hide Awake; hide Asked; hide E.Added; hide E.Over;
    var n := |b.s.accepted| + 1;
    if kind.Until? && M.FirstStop(r.residue, kind.delim, size, 0) > 0 {
      OverReturns(b3);
    } else if kind.Until? || r.residue == [] {
      if |chunk| <= size {
        TransportServes(b3, q, M.Op(n, kind, size, r.dumpOn), r.residue, chunk, err);
      }
    } else {
      var h := M.Done(n, kind, r.residue[..Min(size, |r.residue|)], false, false);
      ResidueServes(b3, q, h, chunk, err);
      assert |r.residue| < size ==> h.chunk == r.residue;
      PlainAdds(r.residue, kind, chunk);
    }
  }

  lemma PlainAdds(held: seq<byte>, kind: M.Kind, chunk: seq<byte>)
    requires !kind.Until?
    ensures E.Added(held, kind, chunk) == held + chunk
  {
  }

  lemma SleeperAsked(b: Blocked, kind: M.Kind, size: nat, timed: bool)
    requires Awake(b) && b.at.Outside? && b.s.r.id == 0 && |b.s.accepted| + 1 < M.ID_RANGE
    ensures var b3 := BStep(BStep(BStep(b, Call(kind, size, timed)), Clear), Test);
            var r, q := b.s.r, Request(kind, size, M.ReadCallback, timed, |b.s.r.residue|);
            && Awake(b3) && b3.at.Asleep?
            && (if kind.Until? && M.FirstStop(r.residue, kind.delim, size, 0) > 0 then
                  b3.s.r.id == 0 && b3.s.r.held == r.residue[..M.FirstStop(r.residue, kind.delim, size, 0)]
                else if kind.Until? || r.residue == [] then
                  Asked(b3, q, M.Op(|b.s.accepted| + 1, kind, size, r.dumpOn), r.residue)
                else
                  Asked(b3, q, M.Done(|b.s.accepted| + 1, kind, r.residue[..Min(size, |r.residue|)], false, false), []))
  {
    var b3 := BStep(BStep(BStep(b, Call(kind, size, timed)), Clear), Test);
    var r := b.s.r;
    E.AcceptEffect(b.s, kind, size, M.ReadCallback, timed);
    CallSleeps(b, kind, size, timed);
    SleeperAwake(b, kind, size, timed);
    hide BStep; hide Step; hide Awake; hide M.FirstStop; hide E.Outstanding;
    assert b3.s.r == Step(b.s, Accept(kind, size, M.ReadCallback, timed)).r.(notified := false);
    StillOutstanding(b3.s.r, Step(b.s, Accept(kind, size, M.ReadCallback, timed)).r);
  }

  lemma StillOutstanding(r': M.Reader, r: M.Reader)
    requires r'.pending == r.pending
    ensures forall h :: E.Outstanding(r, h) ==> E.Outstanding(r', h)
  {
  }

  lemma CallAnswered(b: Blocked, kind: M.Kind, size: nat, timed: bool, chunk: seq<byte>, err: bool)
    requires Awake(b) && b.at.Outside? && b.s.r.id == 0 && |b.s.accepted| + 1 < M.ID_RANGE
    ensures var b1 := BStep(b, Call(kind, size, timed));
            && |b1.s.taken| == |b1.s.fate|
            && ReturnsFor(b1, Request(kind, size, M.ReadCallback, timed, |b.s.r.residue|), b.s.r.residue, chunk, err, 5)
  {
    SleeperServed(b, kind, size, timed, chunk, err);
    CallSleeps(b, kind, size, timed);
    hide BStep; hide ReturnsIn; hide Awake; hide Step; hide E.Over; hide E.Added;
    BackToCall(b, kind, size, timed);
  }

  lemma BackToCall(b: Blocked, kind: M.Kind, size: nat, timed: bool)
    requires |b.s.taken| == |b.s.fate| && b.at.Outside? && b.s.r.id == 0
    ensures var b1 := BStep(b, Call(kind, size, timed));
            && |b1.s.taken| == |b1.s.fate| && |BStep(b1, Clear).s.taken| == |BStep(b1, Clear).s.fate|
            && var b3 := BStep(BStep(b1, Clear), Test);
            && |b3.s.taken| == |b3.s.fate|
            && forall n: nat, bytes :: ReturnsIn(b3, n, bytes) ==> ReturnsIn(b1, n + 2, bytes)
  {
    CallSleeps(b, kind, size, timed);
    var b1 := BStep(b, Call(kind, size, timed));
    var b2 := BStep(b1, Clear);
    BStepGrows(b2, Test);
    hide BStep; hide Step; hide ReturnsIn;
    forall n: nat, bytes | ReturnsIn(BStep(b2, Test), n, bytes) ensures ReturnsIn(b1, n + 2, bytes) {
      EventFirst(b2, Test, n, bytes);
      EventFirst(b1, Clear, n + 1, bytes);
    }
  }

  /** A call made in any run, whether or not callbacks of earlier calls are queued, can return what it
      asked for: five events of the client, or a callback in place of one, and those of its read. */
  lemma CallReturns(es: seq<BEvent>, kind: M.Kind, size: nat, timed: bool, chunk: seq<byte>, err: bool)
    requires var b := BExec(Quiet, es); b.at.Outside? && b.s.r.id == 0 && |b.s.accepted| + 1 < M.ID_RANGE
    ensures var b := BExec(Quiet, es);
            var b1 := BStep(b, Call(kind, size, timed));
            && |b1.s.taken| == |b1.s.fate|
            && ReturnsFor(b1, Request(kind, size, M.ReadCallback, timed, |b.s.r.residue|), b.s.r.residue, chunk, err, 5)
  {
    StartInv();
    BRunAwake(Quiet, es);
    hide BExec; hide ReturnsFor; hide BStep;
    CallAnswered(BExec(Quiet, es), kind, size, timed, chunk, err);
  }

  /** A call made while the read of an earlier call is in progress returns 0 at once and leaves that read
      and the client as they are. */
  lemma BusyCallReturns(b: Blocked, kind: M.Kind, size: nat, timed: bool)
    requires |b.s.taken| == |b.s.fate| && b.at.Outside? && b.s.r.id != 0
    ensures var b' := BStep(b, Call(kind, size, timed)); HasReturned(b, b', []) && b'.s == b.s
    ensures !M.AsyncRead(b.s.r, kind, size, M.ReadCallback, timed).1
  {
  }
}
