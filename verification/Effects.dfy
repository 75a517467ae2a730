/** What each event does to a reader, in terms of requests, reports and what is outstanding. */
module Effects {
  import opened Bytes
  import opened Fates
  import opened ReaderModel
  import opened ReaderSystem
  import opened ReaderInvariant
  import opened ReaderRuns

  // ----- accepting -----

  /** Operation or queued completion `h` is outstanding for the live read. */
  predicate Outstanding(r: Reader, h: Handler) {
    exists k :: k in r.pending && r.pending[k] == h
  }

  /** A request is recorded as it was made, its timer armed if it has a timeout. A read-until that the
      residue satisfies is over with that; otherwise a plain read is given from the residue, posted, and
      without a residue the transport is asked for the full size, for a read-until behind what the
      residue gave. */
  lemma AcceptEffect(s: Sys, kind: Kind, size: nat, cb: Callback, timed: bool)
    requires Inv(s) && s.r.id == 0 && |s.accepted| + 1 < ID_RANGE
    ensures var s' := Step(s, Accept(kind, size, cb, timed));
            var n, stop := |s.accepted| + 1, if kind.Until? then FirstStop(s.r.residue, kind.delim, size, 0) else 0;
            && s'.accepted == s.accepted + [Request(kind, size, cb, timed, |s.r.residue|)] && s'.taken == s.taken
            && (timed <==> Outstanding(s'.r, Timer(n)))
            && (if stop > 0 then
                  && s'.r.id == 0 && s'.posts == s.posts + [Report(cb, false, s.r.residue[..stop], false)]
                  && s'.r.held == s.r.residue[..stop] && s'.r.residue == s.r.residue[stop..]
                else
                  && s'.r.id == n && s'.posts == s.posts
                  && (if kind.Until? || s.r.residue == [] then
                        && Outstanding(s'.r, Op(n, kind, size, s.r.dumpOn))
                        && s'.r.held == s.r.residue && s'.r.residue == []
                      else
                        && Outstanding(s'.r, Done(n, kind, s.r.residue[..Min(size, |s.r.residue|)], false, false))
                        && s'.r.held == []))
  {
    hide Lose; hide Concat; hide KeptBytes;
    NewIds(s);
    var r1 := NewRead(s.r, size, cb, timed);
    ClaimTimer(s.r, |s.accepted| + 1, size, cb, timed);
    hide Inv; hide NewRead;
    if kind.Until? {
      UntilEffect(r1, s.r, kind.delim);
      hide StartUntil;
    } else {
      AskEffect(r1, s.r, kind, size);
      hide DoReadSome;
    }
    hide Posted; hide Outstanding;
    assert s.posts + [] == s.posts;
  }

  lemma NewIds(s: Sys)
    requires Inv(s)
    ensures s.r.counter == |s.accepted| && (forall k :: k in s.r.pending ==> k < s.r.next)
    ensures !Outstanding(s.r, Timer(|s.accepted| + 1))
  {
  }

  lemma ClaimTimer(r: Reader, n: nat, size: nat, cb: Callback, timed: bool)
    requires r.counter + 1 == n < ID_RANGE && (forall k :: k in r.pending ==> k < r.next) && !Outstanding(r, Timer(n))
    ensures var r1 := NewRead(r, size, cb, timed);
            && r1.id == n && r1.held == [] && r1.cb == cb && r1.requested == size && r1.residue == r.residue
            && r1.dumpOn == r.dumpOn && r1.next >= r.next && (forall k :: k in r1.pending ==> k < r1.next)
            && (timed <==> Outstanding(r1, Timer(n)))
  {
    var r1 := NewRead(r, size, cb, timed);
    if timed {
      assert r1.pending[r.next] == Timer(n);
    }
  }

  lemma PostEffect(r: Reader, h: Handler)
    requires forall k :: k in r.pending ==> k < r.next
    ensures Outstanding(Post(r, h), h)
    ensures forall g :: Outstanding(r, g) ==> Outstanding(Post(r, h), g)
    ensures forall g :: Outstanding(Post(r, h), g) && g != h ==> Outstanding(r, g)
  {
    var r' := Post(r, h);
    assert r'.pending[r.next] == h;
    forall g | Outstanding(r, g) ensures Outstanding(r', g) {
      var k :| k in r.pending && r.pending[k] == g;
      assert k in r'.pending && r'.pending[k] == g;
    }
  }

  lemma AskEffect(r: Reader, before: Reader, kind: Kind, count: nat)
    requires (forall k :: k in r.pending ==> k < r.next) && before.next <= r.next && r.id != 0
    ensures var r' := DoReadSome(r, r.id, kind, count);
            && r'.id == r.id && r'.held == r.held && Posted(before, r', false) == []
            && (if r.residue == [] then Outstanding(r', Op(r.id, kind, count, r.dumpOn)) && r'.residue == []
                else Outstanding(r', Done(r.id, kind, r.residue[..Min(count, |r.residue|)], false, false)))
            && forall n :: Outstanding(r', Timer(n)) <==> Outstanding(r, Timer(n))
  {
    if r.residue == [] {
      PostEffect(r, Op(r.id, kind, count, r.dumpOn));
    } else {
      var h := Done(r.id, kind, r.residue[..Min(count, |r.residue|)], false, false);
      PostEffect(r.(residue := AfterDrain(r.residue, count)), h);
    }
    hide AfterDrain;
  }

  lemma UntilEffect(r: Reader, before: Reader, d: byte)
    requires (forall k :: k in r.pending ==> k < r.next) && before.next <= r.next && r.id != 0 && r.held == []
    ensures var r', stop := StartUntil(r, d), FirstStop(r.residue, d, r.requested, 0);
            && (if stop > 0 then
                  && r'.id == 0 && r'.held == r.residue[..stop] && r'.residue == r.residue[stop..]
                  && Posted(before, r', false) == [Report(r.cb, false, r.residue[..stop], false)]
                else
                  && r'.id == r.id && r'.held == r.residue && r'.residue == [] && Posted(before, r', false) == []
                  && Outstanding(r', Op(r.id, Until(d), r.requested, r.dumpOn)))
            && forall n :: Outstanding(r', Timer(n)) <==> Outstanding(r, Timer(n))
  {
    var stop := FirstStop(r.residue, d, r.requested, 0);
    if stop > 0 {
      var r1 := r.(held := r.residue[..stop], residue := r.residue[stop..]);
      assert r1.held[..stop] == r1.held;
      PostEffect(r1.(id := 0), User(r.cb, false, stop));
    } else {
      AskEffect(r.(held := r.residue, residue := []), before, Until(d), r.requested);
      hide DoReadSome; hide Posted;
    }
    hide FirstStop;
  }

  /** A busy reader accepts nothing. */
  lemma BusyEffect(s: Sys, kind: Kind, size: nat, cb: Callback, timed: bool)
    requires |s.taken| == |s.fate| && s.r.id != 0
    ensures Step(s, Accept(kind, size, cb, timed)) == s && !AsyncRead(s.r, kind, size, cb, timed).1
  {
  }

  // ----- a continuation -----

  /** What the live read holds once `chunk` has been added: up to the delimiter, for a read-until that
      sees one in it. */
  function Added(held: seq<byte>, kind: Kind, chunk: seq<byte>): seq<byte> {
    if kind.Until? then held + chunk[..Min(Seen(chunk, kind.delim) + 1, |chunk|)] else held + chunk
  }

  /** The read is over: it takes what one completion brings, or there was an error, or it is full, or
      the delimiter is there. */
  predicate Over(q: Request, bytes: seq<byte>, chunk: seq<byte>, err: bool) {
    || q.kind.Partial? || err || |bytes| >= q.size
    || (q.kind.Until? && exists i :: 0 <= i < |chunk| && SeesDelimiter(chunk[i], q.kind.delim))
  }

  /** The continuation of the live read adds its chunk; if that is all the read is reported, with the
      error of its completion, and otherwise the transport is asked for exactly what is missing. */
  lemma ContinueEffect(s: Sys, key: nat)
    requires Inv(s) && s.r.id != 0 && Waiting(s.r, key) && s.r.pending[key].Done?
    ensures s.accepted != []
    ensures var q, h, s' := s.accepted[|s.accepted| - 1], s.r.pending[key], Step(s, Execute(key));
            var bytes := Added(s.r.held, q.kind, h.chunk);
            && s'.accepted == s.accepted && key !in s'.r.pending && s'.r.held == bytes
            && (if Over(q, bytes, h.chunk, h.err) then
                  s'.r.id == 0 && s'.posts == s.posts + [Report(q.cb, h.err, bytes, false)]
                else
                  && s'.r.id == s.r.id && s'.posts == s.posts
                  && Outstanding(s'.r, Op(s.r.id, q.kind, q.size - |bytes|, s.r.dumpOn)))
  {
    hide KeptBytes; hide Concat; hide Lose;
    var live :| LiveAt(s, live);
    assert live == key;
    var q, h := s.accepted[|s.accepted| - 1], s.r.pending[key];
    var r1 := DumpCallback(Pop(s.r, key), h.chunk, h.err, h.dumping);
    ExecuteLive(s, key);
    AddedIs(r1, q, h);
    AbsorbKeepsQueue(r1, h.kind, h.chunk);
    AbsorbKeepsRest(r1, h.kind, h.chunk);
    ResidueSpent(s, q, key);
    hide ExecuteStep; hide Absorb; hide Added; hide Over;
    var r2 := Absorb(r1, h.kind, h.chunk);
    if !Ends(r1, h.kind, h.chunk, h.err) {
      AskEffect(r2, r2, h.kind, r2.requested - |r2.held|);
    }
    hide DoReadSome; hide Ends; hide Outstanding; hide Inv;
  }

  lemma AbsorbKeepsRest(r: Reader, kind: Kind, chunk: seq<byte>)
    ensures var r' := Absorb(r, kind, chunk); r'.cb == r.cb && r'.dumpOn == r.dumpOn
    ensures !Ends(r, kind, chunk, false) ==> Absorb(r, kind, chunk).residue == r.residue
  {
  }

  lemma ResidueSpent(s: Sys, q: Request, key: nat)
    requires |s.accepted| > 0 && q == s.accepted[|s.accepted| - 1] && |s.taken| == |s.fate|
    requires LiveAt(s, key) && s.r.pending[key].Done?
    ensures var h := s.r.pending[key]; s.r.residue != [] ==> Ends(s.r, h.kind, h.chunk, h.err)
    ensures q.kind.Partial? ==> s.r.held == []
    ensures s.r.requested == q.size && s.r.cb == q.cb && s.r.pending[key].kind == q.kind
  {
  }

  lemma AddedIs(r: Reader, q: Request, h: Handler)
    requires h.Done? && h.kind == q.kind && r.requested == q.size && (q.kind.Partial? ==> r.held == [])
    ensures Absorb(r, h.kind, h.chunk).held == Added(r.held, q.kind, h.chunk)
    ensures Ends(r, h.kind, h.chunk, h.err) <==> Over(q, Added(r.held, q.kind, h.chunk), h.chunk, h.err)
    ensures !Ends(r, h.kind, h.chunk, h.err) ==> |Added(r.held, q.kind, h.chunk)| < q.size
  {
    if h.kind.Until? {
      var n := Seen(h.chunk, h.kind.delim);
      if n < |h.chunk| {
        assert SeesDelimiter(h.chunk[n], h.kind.delim);
      } else {
        assert h.chunk[..|h.chunk|] == h.chunk;
      }
    } else if h.kind.Partial? {
      assert [] + h.chunk == h.chunk;
    }
    hide Seen;
  }

  // ----- a completion -----

  /** The transport completes an operation: the completion is queued with the bytes and the error it
      came with, and nothing else changes but what has been taken. */
  lemma CompleteEffect(s: Sys, key: nat, chunk: seq<byte>, err: bool)
    requires |s.taken| == |s.fate| && key in s.r.pending && s.r.pending[key].Op? && |chunk| <= s.r.pending[key].count
    ensures var s' := Step(s, Complete(key, chunk, err));
            && s'.taken == s.taken + chunk && s'.accepted == s.accepted && s'.posts == s.posts
            && key in s'.r.pending && s'.r.pending[key].Done?
            && s'.r.pending[key].chunk == chunk && s'.r.pending[key].err == err
            && s'.r.pending[key].id == s.r.pending[key].id && s'.r.pending[key].kind == s.r.pending[key].kind
            && (forall k :: k != key ==> (k in s'.r.pending <==> k in s.r.pending))
            && (forall k :: k in s.r.pending && k != key ==> s'.r.pending[k] == s.r.pending[k])
            && s'.r.held == s.r.held && s'.r.residue == s.r.residue && s'.r.id == s.r.id
  {
  }

  // ----- timers -----

  /** The timer of a live read with a timeout is queued until it runs. */
  ghost predicate Armed(s: Sys) {
    s.r.id != 0 && s.accepted != [] && s.accepted[|s.accepted| - 1].timed ==> Outstanding(s.r, Timer(s.r.id))
  }

  lemma AcceptArmed(s: Sys, e: Event)
    requires Inv(s) && e.Accept? && |Step(s, e).accepted| < ID_RANGE && Armed(s)
    ensures Armed(Step(s, e))
  {
    if Enabled(s, e) {
      StepKeeps(s, e);
      assert |Step(s, e).accepted| == |s.accepted| + 1;
      AcceptEffect(s, e.kind, e.size, e.cb, e.timed);
      hide Step; hide Inv; hide Outstanding; hide FirstStop;
    }
  }

  /** Handlers stay queued but for the one that runs. */
  lemma ExecuteArmed(s: Sys, key: nat)
    requires Inv(s) && Enabled(s, Execute(key)) && Armed(s)
    ensures Armed(Step(s, Execute(key)))
  {
    hide Lose; hide Concat; hide KeptBytes; hide LiveAt;
    var s', h := Step(s, Execute(key)), s.r.pending[key];
    QueueGrows(Pop(s.r, key), h);
    RunId(s.r, key);
    if s'.r.id != 0 && s.accepted != [] && s.accepted[|s.accepted| - 1].timed {
      if h == Timer(s.r.id) {
        TimerStops(s.r, key);
      }
      var k :| k in s.r.pending && s.r.pending[k] == Timer(s.r.id);
      assert k != key;
      assert k in s'.r.pending && s'.r.pending[k] == Timer(s'.r.id);
    }
    hide Act;
  }

  lemma TimerStops(r: Reader, key: nat)
    requires key in r.pending && r.pending[key] == Timer(r.id)
    ensures Run(r, key).id == 0
  {
  }

  lemma StepArmed(s: Sys, e: Event)
    requires Inv(s) && |Step(s, e).accepted| < ID_RANGE && Armed(s)
    ensures Armed(Step(s, e))
  {
    if Enabled(s, e) {
      match e
      case Accept(_, _, _, _) => AcceptArmed(s, e);
      case Execute(k) => ExecuteArmed(s, k); hide Armed;
      case Complete(k, _, _) =>
        hide Inv; hide Lose;
        if k' :| k' in s.r.pending && s.r.pending[k'] == Timer(s.r.id) {
          assert k' in Step(s, e).r.pending && Step(s, e).r.pending[k'] == Timer(s.r.id);
        }
      case SetDump(_) => hide Inv;
    }
  }

  lemma {:induction false} RunArmed(s: Sys, es: seq<Event>)
    requires Inv(s) && Armed(s) && |Exec(s, es).accepted| < ID_RANGE
    ensures Armed(Exec(s, es))
    decreases |es|
  {
    if es != [] {
      HistoryGrows(Step(s, es[0]), es[1..]);
      StepKeeps(s, es[0]);
      StepArmed(s, es[0]);
      hide Inv; hide Armed; hide Step;
      RunArmed(Step(s, es[0]), es[1..]);
    }
  }

  /** A live read has its timer queued exactly when it was asked for with a timeout; the timer, whenever
      it runs, ends it with what it holds and no error, and wakes whoever waits for it. */
  lemma TimerEnds(s: Sys, es: seq<Event>)
    requires Reached(s, es) && s.r.id != 0
    ensures s.accepted != []
    ensures var q := s.accepted[|s.accepted| - 1];
            && (q.timed <==> Outstanding(s.r, Timer(s.r.id)))
            && forall key :: key in s.r.pending && s.r.pending[key] == Timer(s.r.id) ==>
                 var s' := Step(s, Execute(key));
                 && s'.posts == s.posts + [Report(q.cb, false, s.r.held, true)]
                 && s'.r.id == 0 && s'.r.notified && s'.r.residue == s.r.residue && key !in s'.r.pending
  {
    ReachedArmed(s, es);
    LiveTimed(s);
    hide Reached; hide Step; hide Inv; hide Outstanding;
    forall key | key in s.r.pending && s.r.pending[key] == Timer(s.r.id)
      ensures var s', q := Step(s, Execute(key)), s.accepted[|s.accepted| - 1];
              && s'.posts == s.posts + [Report(q.cb, false, s.r.held, true)]
              && s'.r.id == 0 && s'.r.notified && s'.r.residue == s.r.residue && key !in s'.r.pending
    {
      TimerFires(s, key);
    }
  }

  lemma ReachedArmed(s: Sys, es: seq<Event>)
    requires Reached(s, es)
    ensures Inv(s) && Armed(s) && |s.taken| == |s.fate|
  {
    StartInv();
    RunArmed(Start, es);
    RunKeeps(Start, es);
    hide Exec; hide LiveAt;
  }

  /** A timer of the live read is queued only if it has a timeout. */
  lemma LiveTimed(s: Sys)
    requires Inv(s) && s.r.id != 0
    ensures s.accepted != []
    ensures Outstanding(s.r, Timer(s.r.id)) ==> s.accepted[|s.accepted| - 1].timed
  {
    hide KeptBytes; hide Concat; hide LiveAt;
  }

  lemma TimerFires(s: Sys, key: nat)
    requires Inv(s) && s.r.id != 0 && key in s.r.pending && s.r.pending[key] == Timer(s.r.id)
    ensures |s.taken| == |s.fate| && s.accepted != []
    ensures var s', q := Step(s, Execute(key)), s.accepted[|s.accepted| - 1];
            && s'.posts == s.posts + [Report(q.cb, false, s.r.held, true)]
            && s'.r.id == 0 && s'.r.notified && s'.r.residue == s.r.residue && key !in s'.r.pending
  {
    hide KeptBytes; hide Concat; hide Lose;
    var live :| LiveAt(s, live);
    assert s.r.cb == s.accepted[|s.accepted| - 1].cb;
    TimeoutReports(s, key);
    TimerRuns(s.r, key);
    hide Run; hide Inv; hide Posted;
  }

  lemma TimerRuns(r: Reader, key: nat)
    requires r.id != 0 && key in r.pending && r.pending[key] == Timer(r.id) && forall k :: k in r.pending ==> k < r.next
    ensures var r' := Run(r, key); r'.id == 0 && r'.notified && r'.residue == r.residue && key !in r'.pending
  {
  }

  // ----- user callbacks -----

  predicate NewCallback(r: Reader, r': Reader, key: nat) {
    key !in r.pending && key in r'.pending && r'.pending[key].User?
  }

  predicate Is(h: Handler, p: Report) {
    h == User(p.cb, p.err, |p.bytes|)
  }

  /** A report is the callback that the step has queued, with its error and its count; a step queues one
      callback or none. */
  lemma ReportIsQueued(s: Sys, e: Event)
    requires Inv(s) && |Step(s, e).accepted| < ID_RANGE
    ensures var s' := Step(s, e);
            && (s'.posts == s.posts ==> forall k :: !NewCallback(s.r, s'.r, k))
            && (s'.posts != s.posts ==>
                 && |s'.posts| == |s.posts| + 1 && s'.posts[..|s.posts|] == s.posts
                 && exists k :: NewCallback(s.r, s'.r, k) && Is(s'.r.pending[k], s'.posts[|s.posts|])
                      && forall j :: NewCallback(s.r, s'.r, j) ==> j == k)
  {
    hide Lose; hide Concat; hide KeptBytes; hide Act; hide AsyncRead;
    if Enabled(s, e) && (e.Accept? || e.Execute?) {
      assert forall k :: k in s.r.pending ==> k < s.r.next;
      hide Inv;
      if e.Accept? { AcceptCountsHeld(s.r, e.kind, e.size, e.cb, e.timed); }
      else { ActCountsHeld(Pop(s.r, e.key), s.r.pending[e.key]); }
      var r' := Step(s, e).r;
      assert CountsHeld(s.r, r');
      if s.r.next < r'.next && r'.next - 1 in r'.pending && r'.pending[r'.next - 1].User? {
        assert r'.held[..|r'.held|] == r'.held;
        assert NewCallback(s.r, r', r'.next - 1);
      } else {
        assert s.posts + [] == s.posts;
      }
    }
  }

  /** A callback posted on the way from `r` counts what is at the destination. */
  predicate CountsHeld(r: Reader, r': Reader) {
    && (forall k :: k in r'.pending && k >= r.next && r'.pending[k].User? ==>
         k == r'.next - 1 && r'.pending[k].count == |r'.held|)
    && forall k :: k in r'.pending && k < r.next ==> k in r.pending
  }

  lemma ActCountsHeld(r: Reader, h: Handler)
    requires !h.Op? && forall k :: k in r.pending ==> k < r.next
    ensures CountsHeld(r, Act(r, h))
  {
    if h.Done? && h.id == r.id {
      var r1 := DumpCallback(r, h.chunk, h.err, h.dumping);
      AbsorbKeepsQueue(r1, h.kind, h.chunk);
      var r2 := Absorb(r1, h.kind, h.chunk);
      assert NoneCalled(r, r2);
      if !Ends(r1, h.kind, h.chunk, h.err) {
        AskCountsHeld(r, r2, h.kind, r2.requested - |r2.held|);
      }
    }
    hide Absorb; hide Ends; hide DoReadSome;
  }

  lemma AcceptCountsHeld(r: Reader, kind: Kind, size: nat, cb: Callback, timed: bool)
    requires r.id == 0 && forall k :: k in r.pending ==> k < r.next
    ensures CountsHeld(r, AsyncRead(r, kind, size, cb, timed).0)
  {
    var r1 := NewRead(r, size, cb, timed);
    assert NoneCalled(r, r1);
    hide NewRead;
    if !kind.Until? {
      AskCountsHeld(r, r1, kind, size);
    } else if FirstStop(r1.residue, kind.delim, r1.requested, 0) == 0 {
      AskCountsHeld(r, r1.(held := r1.residue, residue := []), kind, r1.requested);
    }
    hide FirstStop; hide DoReadSome;
  }

  /** On the way from `r` to `r1` no callback has been posted. */
  predicate NoneCalled(r: Reader, r1: Reader) {
    && r1.next >= r.next && (forall k :: k in r1.pending ==> k < r1.next)
    && (forall k :: k in r1.pending && k >= r.next ==> !r1.pending[k].User?)
    && (forall k :: k in r1.pending && k < r.next ==> k in r.pending)
  }

  lemma AskCountsHeld(r: Reader, r1: Reader, kind: Kind, count: nat)
    requires NoneCalled(r, r1)
    ensures CountsHeld(r, DoReadSome(r1, r1.id, kind, count))
  {
    hide AfterDrain;
  }

  /** Running a user callback removes it, and wakes the waiter if it is the `read_callback` of a blocking
      read. */
  lemma UserRuns(s: Sys, key: nat)
    requires |s.taken| == |s.fate| && key in s.r.pending && s.r.pending[key].User?
    ensures Step(s, Execute(key)) == s.(r := s.r.(pending := s.r.pending - {key},
                                                  notified := s.r.notified || s.r.pending[key].cb.ReadCallback?))
  {
    hide Lose; hide Concat;
    assert s.posts + [] == s.posts;
  }
}
