/** What holds of StreamReader over whole runs: any mix of the three reads, with and without
    timeouts, any chunks, errors, and handlers run in any order. */
module ReaderRuns {
  import opened Bytes
  import opened Fates
  import opened ReaderModel
  import opened ReaderSystem
  import opened ReaderInvariant

  /** Bytes the live read has received, whether or not its continuation has run. */
  ghost function LiveBytes(r: Reader): seq<byte> {
    if r.id == 0 then [] else r.held + InFlight(r)
  }

  /** Some read was ended by its timer. */
  predicate AnyTimedOut(posts: seq<Report>) {
    exists i :: 0 <= i < |posts| && posts[i].timedOut
  }

  /** How many accepted reads asked for less than the residue they found. */
  function Shorts(accepted: seq<Request>): nat {
    if accepted == [] then 0
    else Shorts(accepted[..|accepted| - 1]) + (if Short(accepted[|accepted| - 1]) then 1 else 0)
  }

  // ----- histories only grow -----

  lemma {:induction false} HistoryGrows(s: Sys, es: seq<Event>)
    requires |s.taken| == |s.fate|
    ensures var s' := Exec(s, es);
            s.accepted <= s'.accepted && s.posts <= s'.posts && s.taken <= s'.taken
    decreases |es|
  {
    hide Lose; hide Concat; hide Run; hide AsyncRead;
    if es != [] {
      HistoryGrows(Step(s, es[0]), es[1..]);
    }
  }

  lemma {:induction false} ExecSnoc(s: Sys, es: seq<Event>, e: Event)
    requires |s.taken| == |s.fate|
    ensures Exec(s, es + [e]) == Step(Exec(s, es), e)
    decreases |es|
  {
    hide Step;
    if es == [] {
      assert [e][1..] == [];
      assert es + [e] == [e];
    } else {
      assert (es + [e])[1..] == es[1..] + [e];
      StepSized(s, es[0]);
      ExecSnoc(Step(s, es[0]), es[1..], e);
    }
  }

  lemma StepSized(s: Sys, e: Event)
    requires |s.taken| == |s.fate|
    ensures |Step(s, e).taken| == |Step(s, e).fate|
  {
  }

  /** The invariant holds at the end of every run with fewer than 2^32 accepted reads. */
  lemma {:induction false} RunKeeps(s: Sys, es: seq<Event>)
    requires Inv(s) && |Exec(s, es).accepted| < ID_RANGE
    ensures Inv(Exec(s, es))
    decreases |es|
  {
    if es != [] {
      HistoryGrows(Step(s, es[0]), es[1..]);
      StepKeeps(s, es[0]);
      RunKeeps(Step(s, es[0]), es[1..]);
    }
  }

  lemma StartInv()
    ensures Inv(Start)
  {
    assert Texts([]) == [];
  }

  // ----- accounting for lost bytes -----

  /** The bytes that event `e` brings too late: those of an operation whose read is over, and
      those a timeout finds completed for the read it ends. */
  ghost function LateIn(s: Sys, e: Event): nat {
    if !Enabled(s, e) then 0
    else
      match e
      case Complete(k, chunk, _) => if Waiting(s.r, k) then 0 else |chunk|
      case Execute(k) => if s.r.pending[k] == Timer(s.r.id) then |InFlight(s.r)| else 0
      case _ => 0
  }

  ghost function LateBytes(s: Sys, es: seq<Event>): nat
    requires |s.taken| == |s.fate|
    decreases |es|
  {
    if es == [] then 0 else LateIn(s, es[0]) + LateBytes(Step(s, es[0]), es[1..])
  }

  /** Each short read loses one byte; otherwise only `late` bytes are lost, none of them without
      any timeout reached. */
  predicate LossesExplained(s: Sys, late: nat) {
    && Count(s.fate, LookAhead) == Shorts(s.accepted)
    && Count(s.fate, Late) == late
    && (late > 0 ==> AnyTimedOut(s.posts))
  }

  lemma AcceptCounts(s: Sys, q: Request)
    requires Inv(s) && s.r.id == 0 && q.had == |s.r.residue|
    ensures var fate := AcceptStep(s, q).fate;
            && Count(fate, LookAhead) == Count(s.fate, LookAhead) + (if Short(q) then 1 else 0)
            && Count(fate, Late) == Count(s.fate, Late)
  {
    hide Lose; hide Count; hide KeptBytes; hide Handlers; hide Concat;
    KeptCount(s.taken, s.fate);
    if Short(q) {
      var at := |Delivered(s.posts)| + q.size;
      CountLose(s.fate, at, at + 1, LookAhead, LookAhead);
      CountLose(s.fate, at, at + 1, LookAhead, Late);
    }
  }

  lemma TimedOutStays(posts: seq<Report>, posts': seq<Report>)
    requires posts <= posts'
    ensures AnyTimedOut(posts) ==> AnyTimedOut(posts')
  {
    if AnyTimedOut(posts) {
      var i :| 0 <= i < |posts| && posts[i].timedOut;
      assert posts'[i].timedOut;
    }
  }

  lemma AcceptLosses(s: Sys, q: Request, late: nat)
    requires Inv(s) && s.r.id == 0 && LossesExplained(s, late) && q.had == |s.r.residue|
    ensures LossesExplained(AcceptStep(s, q), late)
  {
    AcceptCounts(s, q);
    var all := s.accepted + [q];
    assert all[..|s.accepted|] == s.accepted;
    TimedOutStays(s.posts, AcceptStep(s, q).posts);
    hide Inv; hide AsyncRead; hide Posted; hide AnyTimedOut; hide Count; hide Lose; hide Concat;
  }

  lemma CompleteLosses(s: Sys, key: nat, chunk: seq<byte>, err: bool, late: nat)
    requires Inv(s) && LossesExplained(s, late) && Enabled(s, Complete(key, chunk, err))
    ensures LossesExplained(CompleteStep(s, key, chunk, err), late + LateIn(s, Complete(key, chunk, err)))
  {
    var f := if Waiting(s.r, key) then Kept else Late;
    CountAppend(s.fate, f, |chunk|, LookAhead);
    CountAppend(s.fate, f, |chunk|, Late);
    if !Waiting(s.r, key) {
      assert s.posts[s.r.pending[key].id - 1].timedOut;
    }
  }

  lemma TimeoutCounts(s: Sys, f: Fate)
    requires Inv(s) && s.r.id != 0 && !f.Kept?
    ensures var at := |Delivered(s.posts)| + |s.r.held|;
            Count(Lose(s.fate, at, at + |InFlight(s.r)|, Late), f)
              == Count(s.fate, f) + (if f.Late? then |InFlight(s.r)| else 0)
  {
    hide KeptBytes; hide Lose; hide Count; hide Concat;
    var live :| LiveAt(s, live);
    assert InFlight(s.r) == Chunk(s.r.pending[live]);
    KeptCount(s.taken, s.fate);
    var at := |Delivered(s.posts)| + |s.r.held|;
    CountLose(s.fate, at, at + |InFlight(s.r)|, Late, f);
  }

  /** A timer of the live read makes a report of a timeout. */
  lemma TimeoutReports(s: Sys, key: nat)
    requires |s.taken| == |s.fate| && s.r.id != 0 && key in s.r.pending && s.r.pending[key] == Timer(s.r.id)
    ensures ExecuteStep(s, key).posts == s.posts + [Report(s.r.cb, false, s.r.held, true)]
    ensures AnyTimedOut(ExecuteStep(s, key).posts)
  {
    hide Lose; hide Concat;
    assert s.r.held[..|s.r.held|] == s.r.held;
    assert ExecuteStep(s, key).posts[|s.posts|].timedOut;
  }

  lemma ExecuteLosses(s: Sys, key: nat, late: nat)
    requires Inv(s) && LossesExplained(s, late) && Enabled(s, Execute(key))
    ensures LossesExplained(ExecuteStep(s, key), late + LateIn(s, Execute(key)))
  {
    hide Lose; hide Concat; hide Seen;
    TimedOutStays(s.posts, ExecuteStep(s, key).posts);
    if s.r.pending[key] == Timer(s.r.id) {
      TimeoutCounts(s, LookAhead);
      TimeoutCounts(s, Late);
      TimeoutReports(s, key);
    }
    hide Run; hide Posted;
  }

  lemma StepLosses(s: Sys, e: Event, late: nat)
    requires Inv(s) && LossesExplained(s, late)
    ensures LossesExplained(Step(s, e), late + LateIn(s, e))
  {
    if Enabled(s, e) {
      match e
      case Accept(kind, size, cb, timed) => AcceptLosses(s, Request(kind, size, cb, timed, |s.r.residue|), late);
      case Complete(k, chunk, err) => CompleteLosses(s, k, chunk, err, late);
      case Execute(k) => ExecuteLosses(s, k, late);
      case SetDump(_) =>
    }
  }

  lemma {:induction false} RunLosses(s: Sys, es: seq<Event>, late: nat)
    requires Inv(s) && LossesExplained(s, late) && |Exec(s, es).accepted| < ID_RANGE
    ensures LossesExplained(Exec(s, es), late + LateBytes(s, es))
    decreases |es|
  {
    hide LossesExplained; hide LateIn; hide Step;
    assert |s.taken| == |s.fate|;
    hide Inv;
    if es != [] {
      StepSized(s, es[0]);
      HistoryGrows(Step(s, es[0]), es[1..]);
      StepKeeps(s, es[0]);
      StepLosses(s, es[0], late);
      RunLosses(Step(s, es[0]), es[1..], late + LateIn(s, es[0]));
    }
  }

  // ----- main results -----

  /** A run from a new reader, with fewer than 2^32 accepted reads. */
  ghost predicate Reached(s: Sys, es: seq<Event>) {
    s == Exec(Start, es) && |s.accepted| < ID_RANGE
  }

  /** Conservation. The bytes taken from the transport, less the lost ones, are the delivered
      bytes, then those of the live read, then the residue, in stream order. Lost are one byte
      for every plain read shorter than the residue it found, the bytes that complete an
      operation after its read was over, and those a timeout finds in flight; none comes late
      unless some read timed out. */
  lemma Conservation(s: Sys, es: seq<Event>)
    requires Reached(s, es)
    ensures |s.taken| == |s.fate|
    ensures KeptBytes(s.taken, s.fate) == Delivered(s.posts) + LiveBytes(s.r) + s.r.residue
    ensures |s.taken| == |KeptBytes(s.taken, s.fate)| + Count(s.fate, Late) + Count(s.fate, LookAhead)
    ensures Count(s.fate, LookAhead) == Shorts(s.accepted)
    ensures Count(s.fate, Late) == LateBytes(Start, es)
    ensures LateBytes(Start, es) > 0 ==> AnyTimedOut(s.posts)
  {
    hide Exec; hide LateBytes; hide KeptBytes; hide Concat;
    StartInv();
    RunKeeps(Start, es);
    RunLosses(Start, es, 0);
    KeptCount(s.taken, s.fate);
    CountAll(s.fate);
    BalanceHolds(s);
    hide Inv; hide Handlers;
  }

  /** The balance of the invariant, with the bytes of the live read in one piece. */
  lemma BalanceHolds(s: Sys)
    requires Inv(s)
    ensures KeptBytes(s.taken, s.fate) == Delivered(s.posts) + LiveBytes(s.r) + s.r.residue
  {
    hide KeptBytes; hide Concat;
    if s.r.id != 0 {
      var live :| LiveAt(s, live);
      assert InFlight(s.r) == Chunk(s.r.pending[live]);
      Group4(Delivered(s.posts), s.r.held, InFlight(s.r), []);
    }
  }

  lemma {:induction false} CountAll(fate: seq<Fate>)
    ensures |fate| == Count(fate, Kept) + Count(fate, Late) + Count(fate, LookAhead)
  {
    if fate != [] {
      CountAll(fate[..|fate| - 1]);
    }
  }

  /** The stream is whole exactly when no byte was late and no read was short. */
  lemma WholeStream(s: Sys, es: seq<Event>)
    requires Reached(s, es)
    ensures s.taken == Delivered(s.posts) + LiveBytes(s.r) + s.r.residue
       <==> LateBytes(Start, es) == 0 && Shorts(s.accepted) == 0
  {
    Conservation(s, es);
    if LateBytes(Start, es) == 0 && Shorts(s.accepted) == 0 {
      AllKept(s.taken, s.fate);
    }
  }

  /** Never stranded: a read in progress has exactly one completion outstanding, and while
      that one waits on the transport, or is one of a read-until, the residue is empty, so that the
      tail which a read-until saves always goes into an empty one; an idle reader has none. */
  lemma NeverStranded(s: Sys, es: seq<Event>)
    requires Reached(s, es)
    ensures s.r.id != 0 <==> exists k :: Waiting(s.r, k)
    ensures forall k, j :: Waiting(s.r, k) && Waiting(s.r, j) ==> k == j
    ensures forall k :: Waiting(s.r, k) && (s.r.pending[k].Op? || s.r.pending[k].kind.Until?) ==> s.r.residue == []
  {
    StartInv();
    RunKeeps(Start, es);
    if s.r.id != 0 {
      var live :| LiveAt(s, live);
    }
  }

  /** What is written for the live read lies behind what it holds and inside its destination:
      up to the size it asked for, and for a read-until up to the residue more. */
  lemma WritesInside(s: Sys, es: seq<Event>, key: nat)
    requires Reached(s, es) && Waiting(s.r, key)
    ensures s.accepted != []
    ensures var q := s.accepted[|s.accepted| - 1];
            var h := s.r.pending[key];
            var written := |s.r.held| + (if h.Op? then h.count else |h.chunk|);
            && h.kind == q.kind && s.r.requested == q.size
            && written <= q.size + (if q.kind.Until? then q.had else 0)
            && (h.Op? && (!q.kind.Until? || q.had == 0) ==> written == q.size)
  {
    StartInv();
    RunKeeps(Start, es);
    WritesBound(s, key);
  }

  lemma WritesBound(s: Sys, key: nat)
    requires Inv(s) && Waiting(s.r, key)
    ensures s.accepted != []
    ensures var q := s.accepted[|s.accepted| - 1];
            var h := s.r.pending[key];
            var written := |s.r.held| + (if h.Op? then h.count else |h.chunk|);
            && h.kind == q.kind && s.r.requested == q.size
            && written <= q.size + (if q.kind.Until? then q.had else 0)
            && (h.Op? && (!q.kind.Until? || q.had == 0) ==> written == q.size)
  {
    hide KeptBytes; hide Concat;
    if s.r.id != 0 {
      var live :| LiveAt(s, live);
    }
  }

  /** Every accepted read but the live one has had its callback posted, once, in the order of
      acceptance, with what its primitive promises. */
  lemma CallbackAccounting(s: Sys, es: seq<Event>)
    requires Reached(s, es)
    ensures |s.posts| + (if s.r.id != 0 then 1 else 0) == |s.accepted|
    ensures forall i :: 0 <= i < |s.posts| ==> Answers(s.accepted[i], s.posts[i])
  {
    StartInv();
    RunKeeps(Start, es);
  }

  /** Unless its timer or an error ended it, `async_read` reports exactly what was asked. */
  lemma ReadExactness(s: Sys, es: seq<Event>, i: nat)
    requires Reached(s, es) && i < |s.posts| && i < |s.accepted|
    requires s.accepted[i].kind.Exact?
    ensures |s.posts[i].bytes| == s.accepted[i].size || CutShort(s.posts[i])
    ensures s.posts[i].timedOut ==> s.accepted[i].timed
  {
    CallbackAccounting(s, es);
  }

  /** No read outlives its id: once a read is over its id is never live again. */
  lemma {:induction false} IdsStayRetired(s: Sys, es: seq<Event>, id: nat)
    requires Inv(s) && |Exec(s, es).accepted| < ID_RANGE
    requires 1 <= id <= s.r.counter && id != s.r.id
    ensures Exec(s, es).r.id != id && id <= Exec(s, es).r.counter
    decreases |es|
  {
    if es != [] {
      HistoryGrows(Step(s, es[0]), es[1..]);
      StepKeeps(s, es[0]);
      StepId(s, es[0]);
      IdsStayRetired(Step(s, es[0]), es[1..], id);
    }
  }

  lemma ContinueId(r: Reader, id: nat, kind: Kind, chunk: seq<byte>, err: bool)
    ensures var r' := Continue(r, id, kind, chunk, err);
            r'.counter == r.counter && (r'.id == r.id || r'.id == 0) && (r.id == 0 ==> Posted(r, r', false) == [])
  {
    hide AfterDrain;
    var r1 := Absorb(r, kind, chunk);
    assert r1.counter == r.counter && r1.id == r.id && r1.next == r.next;
    PostedAsk(r, r1, kind, if |r1.held| <= r1.requested then r1.requested - |r1.held| else 0);
    PostedNothing(r, r1);
    assert !Ends(r, kind, chunk, err) ==> |r1.held| <= r1.requested;
    hide Absorb;
    hide Posted;
    hide Ends;
  }

  lemma PostedNothing(r: Reader, r1: Reader)
    requires r1.next == r.next
    ensures Posted(r, r1, false) == []
  {
  }

  /** Running a handler leaves the id or retires it, and only a live read gets a callback. */
  lemma RunId(r: Reader, key: nat)
    requires key in r.pending && !r.pending[key].Op?
    ensures var r' := Run(r, key);
            r'.counter == r.counter && (r'.id == r.id || r'.id == 0) && (r.id == 0 ==> Posted(r, r', false) == [])
  {
    hide Absorb;
    hide Ends;
    var h := r.pending[key];
    if h.Done? {
      ContinueId(DumpCallback(Pop(r, key), h.chunk, h.err, h.dumping), h.id, h.kind, h.chunk, h.err);
    }
  }

  /** A step leaves the id, retires it, or gives out the next one. */
  lemma StepId(s: Sys, e: Event)
    requires Inv(s) && |Step(s, e).accepted| < ID_RANGE
    ensures var s' := Step(s, e);
            || (s'.r.counter == s.r.counter && (s'.r.id == s.r.id || s'.r.id == 0))
            || (s'.r.counter == s.r.counter + 1 && (s'.r.id == s'.r.counter || s'.r.id == 0))
  {
    StepKeeps(s, e);
    if Enabled(s, e) && e.Execute? {
      RunId(s.r, e.key);
    }
  }

  /** A timer or continuation of a retired read never acts again: whenever it is run, however
      long after, it only leaves the queue (and a dumped chunk is recorded). */
  lemma StaleHandlersInert(s: Sys, es: seq<Event>, id: nat, key: nat)
    requires Inv(s) && |Exec(s, es).accepted| < ID_RANGE
    requires 1 <= id <= s.r.counter && id != s.r.id
    requires var s' := Exec(s, es);
             key in s'.r.pending && (s'.r.pending[key].Timer? || s'.r.pending[key].Done?) && s'.r.pending[key].id == id
    ensures var s' := Exec(s, es);
            var s'' := Step(s', Execute(key));
            s'' == s'.(r := s'.r.(pending := s'.r.pending - {key}, dump := s''.r.dump))
  {
    hide Lose; hide Concat; hide Seen;
    IdsStayRetired(s, es, id);
    RunKeeps(s, es);
    var s' := Exec(s, es);
    assert s'.r.pending[key] != Timer(s'.r.id);
    assert Posted(s'.r, Run(s'.r, key), false) == [];
  }

  // ----- what a handler puts in the queue -----

  lemma QueueGrows(r: Reader, h: Handler)
    requires !h.Op? && forall k :: k in r.pending ==> k < r.next
    ensures var r' := Act(r, h);
            && r'.next >= r.next && (forall k :: k in r'.pending ==> k < r'.next)
            && forall k :: k in r.pending ==> k in r'.pending && r'.pending[k] == r.pending[k]
  {
    hide Ends;
    if h.Done? {
      AbsorbKeepsQueue(DumpCallback(r, h.chunk, h.err, h.dumping), h.kind, h.chunk);
    }
    hide Absorb;
  }

  /** A handler puts at most one operation in the queue, as the newest. */
  predicate AsksNewest(r: Reader, r': Reader) {
    && r'.next >= r.next
    && forall k :: k in r'.pending && r'.pending[k].Op? ==>
         (k in r.pending && r.pending[k].Op?) || (k == r'.next - 1 && r'.next > r.next)
  }

  lemma ContinueAsks(r: Reader, id: nat, kind: Kind, chunk: seq<byte>, err: bool)
    ensures AsksNewest(r, Continue(r, id, kind, chunk, err))
  {
    AbsorbKeepsQueue(r, kind, chunk);
    hide Absorb;
    hide Ends;
    hide AfterDrain;
  }

  lemma AcceptAsks(r: Reader, kind: Kind, size: nat, cb: Callback, timed: bool)
    requires r.id == 0
    ensures AsksNewest(r, AsyncRead(r, kind, size, cb, timed).0)
  {
    hide FirstStop;
    hide AfterDrain;
  }

  // ----- what an accepted read puts in the queue -----

  /** Handlers of the read in progress, and callbacks, are added. */
  predicate Adds(r: Reader, r': Reader, id: nat) {
    && r'.counter == r.counter && r'.cb == r.cb && (r'.id == r.id || r'.id == 0)
    && r'.next >= r.next && (forall k :: k in r'.pending ==> k < r'.next)
    && (forall k :: k in r.pending ==> k in r'.pending && r'.pending[k] == r.pending[k])
    && (forall k :: k in r'.pending && k !in r.pending && !r'.pending[k].User? ==> r'.pending[k].id == id)
  }

  lemma ClaimMoves(r: Reader, size: nat, cb: Callback, timed: bool)
    requires forall k :: k in r.pending ==> k < r.next
    ensures var r1 := NewRead(r, size, cb, timed);
            var id := (r.counter + 1) % ID_RANGE;
            && r1.counter == id && r1.id == id && r1.cb == cb && Adds(r.(counter := id, id := id, cb := cb), r1, id)
  {
  }

  lemma AskMoves(r: Reader, kind: Kind, count: nat)
    requires forall k :: k in r.pending ==> k < r.next
    ensures Adds(r, DoReadSome(r, r.id, kind, count), r.id)
  {
    hide AfterDrain;
  }

  lemma UntilMoves(r: Reader, d: byte)
    requires forall k :: k in r.pending ==> k < r.next
    ensures Adds(r, StartUntil(r, d), r.id)
  {
    if FirstStop(r.residue, d, r.requested, 0) == 0 {
      AskMoves(r.(held := r.residue, residue := []), Until(d), r.requested);
      hide DoReadSome;
    }
    hide FirstStop;
  }

  lemma AcceptMoves(r: Reader, kind: Kind, size: nat, cb: Callback, timed: bool)
    requires r.id == 0 && forall k :: k in r.pending ==> k < r.next
    ensures var r' := AsyncRead(r, kind, size, cb, timed).0;
            var id := (r.counter + 1) % ID_RANGE;
            && r'.counter == id && (r'.id == id || r'.id == 0) && r'.cb == cb
            && r'.next >= r.next && (forall k :: k in r'.pending ==> k < r'.next)
            && (forall k :: k in r.pending ==> k in r'.pending && r'.pending[k] == r.pending[k])
            && (forall k :: k in r'.pending && k !in r.pending && !r'.pending[k].User? ==> r'.pending[k].id == id)
  {
    var r1 := NewRead(r, size, cb, timed);
    ClaimMoves(r, size, cb, timed);
    if kind.Until? {
      UntilMoves(r1, kind.delim);
    } else {
      AskMoves(r1, kind, size);
    }
    hide NewRead;
    hide StartUntil;
    hide DoReadSome;
  }

  // ----- an idle reader -----

  predicate NoAccept(es: seq<Event>) {
    forall i :: 0 <= i < |es| ==> !es[i].Accept?
  }

  lemma {:induction false} IdleNeverPosts(s: Sys, es: seq<Event>)
    requires |s.taken| == |s.fate| && s.r.id == 0 && NoAccept(es)
    ensures Exec(s, es).posts == s.posts && Exec(s, es).r.id == 0
    decreases |es|
  {
    if es != [] {
      IdleStep(s, es[0]);
      IdleNeverPosts(Step(s, es[0]), es[1..]);
    }
  }

  lemma IdleStep(s: Sys, e: Event)
    requires |s.taken| == |s.fate| && s.r.id == 0 && !e.Accept?
    ensures Step(s, e).posts == s.posts && Step(s, e).r.id == 0
  {
    if Enabled(s, e) && e.Execute? {
      RunId(s.r, e.key);
      hide Run;
    }
  }
}
