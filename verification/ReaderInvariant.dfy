/** Every step of the reader keeps the invariant. */
module ReaderInvariant {
  import opened Bytes
  import opened Fates
  import opened ReaderModel
  import opened ReaderSystem

  // ----- concatenation -----

  lemma Group4(a: seq<byte>, b: seq<byte>, c: seq<byte>, e: seq<byte>)
    ensures a + b + c + e == a + (b + c + e) == a + b + (c + e)
  {
  }

  lemma NoFlight(a: seq<byte>, b: seq<byte>, c: seq<byte>)
    ensures a + b + [] + c == a + b + c == a + (b + c)
  {
  }

  lemma CutByte(d: seq<byte>, buf: seq<byte>, count: nat)
    requires |buf| > count
    ensures Cut(d + buf, |d| + count, |d| + count + 1) == d + buf[..count] + buf[count + 1..]
  {
  }

  lemma CutFlight(d: seq<byte>, flight: seq<byte>, residue: seq<byte>)
    ensures Cut(d + flight + residue, |d|, |d| + |flight|) == d + residue
  {
  }

  lemma DeliveredSnoc(posts: seq<Report>, p: Report)
    ensures Delivered(posts + [p]) == Delivered(posts) + p.bytes
  {
    assert Texts(posts + [p]) == Texts(posts) + [p.bytes];
    ConcatSnoc(Texts(posts), p.bytes);
  }

  // ----- ending a handler: finish, or ask for more -----

  /** The moments inside a handler when the live read `q` has no completion outstanding. */
  ghost predicate Between(s: Sys, q: Request) {
    && |s.taken| == |s.fate|
    && s.r.id != 0 && Handlers(s.r, s.accepted, s.posts) && Accounts(s)
    && q == s.accepted[|s.accepted| - 1]
    && s.r.requested == q.size && s.r.cb == q.cb
    && Balanced(s, s.r.held, [])
  }

  ghost predicate NoneWaiting(r: Reader) {
    forall k :: !Waiting(r, k)
  }

  /** Finishing posts one callback and leaves the reader idle. */
  function Finished(s: Sys, err: bool, timedOut: bool): Sys {
    s.(r := FinishRead(s.r, err), posts := s.posts + [Report(s.r.cb, err, s.r.held, timedOut)])
  }

  lemma FinishHandlers(r: Reader, accepted: seq<Request>, posts: seq<Report>, err: bool, timedOut: bool)
    requires Handlers(r, accepted, posts) && r.id != 0 && |posts| + 1 == |accepted|
    requires NoneWaiting(r) || timedOut
    ensures Handlers(FinishRead(r, err), accepted, posts + [Report(r.cb, err, r.held, timedOut)])
    ensures Posted(r, FinishRead(r, err), timedOut) == [Report(r.cb, err, r.held, timedOut)]
  {
    var r', posts' := FinishRead(r, err), posts + [Report(r.cb, err, r.held, timedOut)];
    assert r.held[..|r.held|] == r.held;
    forall k | k in r'.pending && (r'.pending[k].Op? || r'.pending[k].Done?)
      ensures k in r.pending && r'.pending[k].id <= |posts'| && posts'[r'.pending[k].id - 1].timedOut
    {
      assert !Waiting(r, k) || timedOut;
    }
  }

  lemma FinishKeeps(s: Sys, q: Request, err: bool, timedOut: bool)
    requires Between(s, q) && (NoneWaiting(s.r) || timedOut)
    requires Answers(q, Report(q.cb, err, s.r.held, timedOut))
    ensures Inv(Finished(s, err, timedOut))
    ensures Posted(s.r, FinishRead(s.r, err), timedOut) == [Report(s.r.cb, err, s.r.held, timedOut)]
  {
    hide KeptBytes; hide Concat;
    FinishHandlers(s.r, s.accepted, s.posts, err, timedOut);
    DeliveredSnoc(s.posts, Report(s.r.cb, err, s.r.held, timedOut));
    NoFlight(Delivered(s.posts), s.r.held, s.r.residue);
    NoFlight(Delivered(s.posts) + s.r.held, [], s.r.residue);
  }

  /** Asking `do_read_some` for `count` more bytes. */
  function Asked(s: Sys, kind: Kind, count: nat): Sys
    requires |s.taken| == |s.fate|
  {
    var at := |Delivered(s.posts)| + |s.r.held| + count;
    s.(r := DoReadSome(s.r, s.r.id, kind, count),
       fate := if |s.r.residue| > count then Lose(s.fate, at, at + 1, LookAhead) else s.fate)
  }

  lemma AskHandlers(r: Reader, accepted: seq<Request>, posts: seq<Report>, kind: Kind, count: nat)
    requires Handlers(r, accepted, posts) && r.id != 0 && NoneWaiting(r)
    ensures var r' := DoReadSome(r, r.id, kind, count);
            Handlers(r', accepted, posts) && Waiting(r', r.next) && Posted(r, r', false) == []
  {
    hide AfterDrain;
    var r' := DoReadSome(r, r.id, kind, count);
    forall k | Waiting(r', k) ensures k == r.next {
      assert !Waiting(r, k);
    }
  }

  lemma AskBalance(s: Sys, kind: Kind, count: nat)
    requires |s.taken| == |s.fate| && Balanced(s, s.r.held, [])
    ensures var s' := Asked(s, kind, count);
            Balanced(s', s.r.held, Chunk(s'.r.pending[s.r.next]))
  {
    hide KeptBytes; hide Lose; hide Concat;
    var d, buf := Delivered(s.posts) + s.r.held, s.r.residue;
    NoFlight(Delivered(s.posts), s.r.held, buf);
    if |buf| > count {
      KeptLose(s.taken, s.fate, |d| + count, |d| + count + 1, LookAhead);
      CutByte(d, buf, count);
    } else {
      assert buf[..|buf|] == buf;
      NoFlight(d, buf, []);
    }
  }

  lemma AskKeeps(s: Sys, q: Request, count: nat)
    requires Between(s, q) && NoneWaiting(s.r) && Serves(s.r, q)
    requires s.r.residue != [] ==> !q.kind.Until? && s.r.held == [] && count == q.size
    requires s.r.residue == [] ==>
               |s.r.held| + count == q.size || (q.kind.Until? && |s.r.held| == q.had && count == q.size)
    ensures Inv(Asked(s, q.kind, count))
    ensures Posted(s.r, Asked(s, q.kind, count).r, false) == []
  {
    hide KeptBytes; hide Concat; hide Lose;
    AskHandlers(s.r, s.accepted, s.posts, q.kind, count);
    AskBalance(s, q.kind, count);
    assert LiveAt(Asked(s, q.kind, count), s.r.next);
  }

  /** Moving bytes between what is held and the residue changes no account. */
  lemma MoveBytes(s: Sys, q: Request, held: seq<byte>, residue: seq<byte>)
    requires Between(s, q) && held + residue == s.r.held + s.r.residue
    ensures var s' := s.(r := s.r.(held := held, residue := residue));
            Between(s', q) && (NoneWaiting(s.r) ==> NoneWaiting(s'.r))
  {
    hide KeptBytes; hide Concat;
    var s' := s.(r := s.r.(held := held, residue := residue));
    assert forall k :: Waiting(s'.r, k) <==> Waiting(s.r, k);
    NoFlight(Delivered(s.posts), held, residue);
    NoFlight(Delivered(s.posts), s.r.held, s.r.residue);
  }

  // ----- accepting a read -----

  /** A reader just claimed for `q`. */
  function Claimed(s: Sys, q: Request): Sys {
    s.(r := NewRead(s.r, q.size, q.cb, q.timed), accepted := s.accepted + [q])
  }

  lemma ClaimHandlers(r: Reader, accepted: seq<Request>, posts: seq<Report>, q: Request)
    requires Handlers(r, accepted, posts) && r.id == 0 && |accepted| + 1 < ID_RANGE
    ensures var r' := NewRead(r, q.size, q.cb, q.timed);
            Handlers(r', accepted + [q], posts) && NoneWaiting(r') && r'.id == |accepted| + 1
  {
    var r', all := NewRead(r, q.size, q.cb, q.timed), accepted + [q];
    assert forall i :: 0 <= i < |accepted| ==> all[i] == accepted[i];
    forall k ensures !Waiting(r', k) {
      assert k in r.pending && !r.pending[k].User? ==> r.pending[k].id <= |accepted|;
    }
  }

  lemma ClaimBetween(s: Sys, q: Request)
    requires Inv(s) && s.r.id == 0 && |s.accepted| + 1 < ID_RANGE
    ensures Between(Claimed(s, q), q) && NoneWaiting(Claimed(s, q).r)
  {
    hide KeptBytes; hide Concat; hide Lose;
    ClaimHandlers(s.r, s.accepted, s.posts, q);
    assert forall i :: 0 <= i < |s.accepted| ==> (s.accepted + [q])[i] == s.accepted[i];
  }

  lemma StopAnswers(residue: seq<byte>, q: Request)
    requires q.kind.Until? && q.had == |residue|
    ensures var n := FirstStop(residue, q.kind.delim, q.size, 0);
            if n > 0 then Answers(q, Report(q.cb, false, residue[..n], false)) else q.kind.delim !in residue
  {
    var n := FirstStop(residue, q.kind.delim, q.size, 0);
    FirstStopSpec(residue, q.kind.delim, q.size, 0);
    if n > 0 {
      assert residue[..n][..n - 1] == residue[..n - 1];
    }
  }

  /** `async_read_until` on a reader just claimed for `q`. */
  lemma UntilKeeps(s: Sys, q: Request)
    requires Between(s, q) && NoneWaiting(s.r)
    requires q.kind.Until? && s.r.held == [] && q.had == |s.r.residue|
    ensures var r' := StartUntil(s.r, q.kind.delim);
            Inv(s.(r := r', posts := s.posts + Posted(s.r, r', false)))
  {
    hide KeptBytes; hide Concat; hide Lose;
    var r := s.r;
    var n := FirstStop(r.residue, q.kind.delim, q.size, 0);
    StopAnswers(r.residue, q);
    if n > 0 {
      assert r.residue[..n] + r.residue[n..] == r.held + r.residue;
      MoveBytes(s, q, r.residue[..n], r.residue[n..]);
      FinishKeeps(s.(r := r.(held := r.residue[..n], residue := r.residue[n..])), q, false, false);
    } else {
      assert r.residue + [] == r.held + r.residue;
      MoveBytes(s, q, r.residue, []);
      var s1 := s.(r := r.(held := r.residue, residue := []));
      AskKeeps(s1, q, q.size);
      assert s.posts + [] == s.posts;
      assert s.(r := StartUntil(r, q.kind.delim)) == Asked(s1, q.kind, q.size);
    }
    hide Inv;
  }

  /** Accepting is claiming the reader and then starting the primitive. */
  lemma AcceptIs(s: Sys, q: Request)
    requires |s.taken| == |s.fate| && s.r.id == 0 && q.had == |s.r.residue|
    ensures var s1, s' := Claimed(s, q), AcceptStep(s, q);
            if q.kind.Until? then
              var r' := StartUntil(s1.r, q.kind.delim);
              Posted(s1.r, r', false) == Posted(s.r, r', false) ==> s' == s1.(r := r', posts := s1.posts + Posted(s1.r, r', false))
            else
              s' == Asked(s1, q.kind, q.size)
  {
    if !q.kind.Until? {
      assert Posted(s.r, AcceptStep(s, q).r, false) == [];
    }
  }

  lemma UntilPosts(r: Reader, q: Request)
    requires r.id == 0 && q.kind.Until? && r.counter + 1 < ID_RANGE
    ensures var r1 := NewRead(r, q.size, q.cb, q.timed);
            var r' := StartUntil(r1, q.kind.delim);
            Posted(r1, r', false) == Posted(r, r', false)
  {
  }

  lemma AcceptKeeps(s: Sys, q: Request)
    requires Inv(s) && s.r.id == 0 && |s.accepted| + 1 < ID_RANGE && q.had == |s.r.residue|
    ensures Inv(AcceptStep(s, q))
  {
    ClaimBetween(s, q);
    AcceptIs(s, q);
    if q.kind.Until? {
      UntilPosts(s.r, q);
      UntilKeeps(Claimed(s, q), q);
    } else {
      AskKeeps(Claimed(s, q), q, q.size);
    }
  }

  // ----- completing an operation -----

  lemma CompleteHandlers(r: Reader, accepted: seq<Request>, posts: seq<Report>, key: nat, chunk: seq<byte>, err: bool)
    requires Handlers(r, accepted, posts) && key in r.pending && r.pending[key].Op?
    ensures Handlers(Fill(r, key, chunk, err), accepted, posts)
    ensures forall k :: Waiting(Fill(r, key, chunk, err), k) <==> Waiting(r, k)
  {
    var r' := Fill(r, key, chunk, err);
    assert forall k :: Waiting(r', k) <==> Waiting(r, k);
  }

  lemma CompleteBalance(s: Sys, live: nat, key: nat, chunk: seq<byte>, err: bool)
    requires |s.taken| == |s.fate| && |s.accepted| > 0 && LiveAt(s, live)
    requires key in s.r.pending && s.r.pending[key].Op? && (Waiting(s.r, key) ==> key == live)
    ensures Balanced(CompleteStep(s, key, chunk, err), s.r.held, Chunk(CompleteStep(s, key, chunk, err).r.pending[live]))
  {
    KeptAppend(s.taken, s.fate, chunk, if Waiting(s.r, key) then Kept else Late);
    if key == live {
      NoFlight(Delivered(s.posts), s.r.held, []);
      NoFlight(Delivered(s.posts) + s.r.held, chunk, []);
    }
  }

  lemma CompleteKeeps(s: Sys, key: nat, chunk: seq<byte>, err: bool)
    requires Inv(s) && Enabled(s, Complete(key, chunk, err))
    ensures Inv(CompleteStep(s, key, chunk, err))
  {
    hide KeptBytes; hide Concat;
    var s' := CompleteStep(s, key, chunk, err);
    CompleteHandlers(s.r, s.accepted, s.posts, key, chunk, err);
    if s.r.id != 0 {
      var live :| LiveAt(s, live);
      CompleteBalance(s, live, key, chunk, err);
      assert LiveAt(s', live);
    } else {
      KeptAppend(s.taken, s.fate, chunk, Late);
    }
  }

  // ----- running a handler -----

  function Pop(r: Reader, key: nat): Reader {
    r.(pending := r.pending - {key})
  }

  lemma PopHandlers(r: Reader, accepted: seq<Request>, posts: seq<Report>, key: nat)
    requires Handlers(r, accepted, posts)
    ensures Handlers(Pop(r, key), accepted, posts)
    ensures forall k :: Waiting(Pop(r, key), k) <==> Waiting(r, k) && k != key
  {
    assert forall k :: Waiting(Pop(r, key), k) <==> Waiting(r, k) && k != key;
  }

  lemma StaleKeeps(s: Sys, key: nat, dump: seq<byte>, notified: bool)
    requires Inv(s) && !Waiting(s.r, key)
    ensures Inv(s.(r := Pop(s.r, key).(dump := dump, notified := notified)))
  {
    hide KeptBytes; hide Concat;
    var r' := Pop(s.r, key).(dump := dump, notified := notified);
    PopHandlers(s.r, s.accepted, s.posts, key);
    assert forall k :: Waiting(r', k) <==> Waiting(Pop(s.r, key), k);
    if s.r.id != 0 {
      var live :| LiveAt(s, live);
      assert LiveAt(s.(r := r'), live);
    }
  }

  lemma TimeoutBalance(s: Sys, live: nat)
    requires |s.taken| == |s.fate| && |s.accepted| > 0 && LiveAt(s, live)
    ensures var at := |Delivered(s.posts)| + |s.r.held|;
            Balanced(s.(fate := Lose(s.fate, at, at + |Chunk(s.r.pending[live])|, Late)), s.r.held, [])
  {
    hide KeptBytes; hide Lose; hide Concat;
    var d, flight := Delivered(s.posts) + s.r.held, Chunk(s.r.pending[live]);
    KeptLose(s.taken, s.fate, |d|, |d| + |flight|, Late);
    CutFlight(d, flight, s.r.residue);
    NoFlight(Delivered(s.posts), s.r.held, s.r.residue);
  }

  lemma TimeoutBetween(s: Sys, key: nat, live: nat, fate: seq<Fate>)
    requires Inv(s) && s.r.id != 0 && LiveAt(s, live) && |fate| == |s.fate|
    requires Balanced(s.(fate := fate), s.r.held, [])
    ensures Between(s.(r := Pop(s.r, key).(notified := true), fate := fate), s.accepted[|s.accepted| - 1])
  {
    PopHandlers(s.r, s.accepted, s.posts, key);
    var r1 := Pop(s.r, key).(notified := true);
    assert forall k :: Waiting(r1, k) <==> Waiting(Pop(s.r, key), k);
  }

  lemma TimeoutKeeps(s: Sys, key: nat)
    requires Inv(s) && s.r.id != 0 && key in s.r.pending && s.r.pending[key] == Timer(s.r.id)
    ensures Inv(ExecuteStep(s, key))
  {
    hide Lose; hide KeptBytes; hide Concat; hide ExecuteStep;
    var live :| LiveAt(s, live);
    assert InFlight(s.r) == Chunk(s.r.pending[live]);
    TimeoutBalance(s, live);
    assert Handlers(s.r, s.accepted, s.posts) && |s.taken| == |s.fate|;
    hide Handlers; hide Accounts; hide Serves; hide Shape;
    var at := |Delivered(s.posts)| + |s.r.held|;
    var fate := Lose(s.fate, at, at + |InFlight(s.r)|, Late);
    TimeoutBetween(s, key, live, fate);
    hide Between;
    TimeoutFinish(s, key, live, s.(r := Pop(s.r, key).(notified := true), fate := fate));
    hide Inv;
  }

  lemma TimeoutFinish(s: Sys, key: nat, live: nat, s1: Sys)
    requires Handlers(s.r, s.accepted, s.posts) && s.r.id != 0 && |s.taken| == |s.fate| && LiveAt(s, live)
    requires key in s.r.pending && s.r.pending[key] == Timer(s.r.id)
    requires var at := |Delivered(s.posts)| + |s.r.held|;
             s1 == s.(r := Pop(s.r, key).(notified := true), fate := Lose(s.fate, at, at + |InFlight(s.r)|, Late))
    requires Between(s1, s.accepted[|s.accepted| - 1])
    ensures Inv(ExecuteStep(s, key))
  {
    hide Lose; hide Count; hide KeptBytes; hide Concat;
    var q := s.accepted[|s.accepted| - 1];
    assert q == s.accepted[s.r.pending[key].id - 1];
    FinishKeeps(s1, q, false, true);
    assert ExecuteStep(s, key) == Finished(s1, false, true);
  }

  /** The continuation of the live read after it has added the chunk. */
  lemma AbsorbBetween(s: Sys, q: Request, key: nat, dump: seq<byte>)
    requires Inv(s) && s.r.id != 0 && LiveAt(s, key) && s.r.pending[key].Done?
    requires q == s.accepted[|s.accepted| - 1]
    ensures var h := s.r.pending[key];
            var s' := s.(r := Absorb(Pop(s.r, key).(dump := dump), h.kind, h.chunk));
            Between(s', q) && NoneWaiting(s'.r)
  {
    hide KeptBytes; hide Concat;
    var h := s.r.pending[key];
    var r1 := Pop(s.r, key).(dump := dump, held := s.r.held + h.chunk);
    PopHandlers(s.r, s.accepted, s.posts, key);
    assert forall k :: Waiting(r1, k) <==> Waiting(Pop(s.r, key), k);
    assert Between(s.(r := r1), q) by {
      hide Absorb;
      Group4(Delivered(s.posts), s.r.held, h.chunk, s.r.residue);
      NoFlight(Delivered(s.posts), s.r.held + h.chunk, s.r.residue);
      Group4(Delivered(s.posts), s.r.held, h.chunk, []);
    }
    if h.kind.Until? && Seen(h.chunk, h.kind.delim) < |h.chunk| {
      SplitChunk(s.r.held, h.chunk, Seen(h.chunk, h.kind.delim) + 1);
      MoveBytes(s.(r := r1), q, Absorb(s.r, h.kind, h.chunk).held, Absorb(s.r, h.kind, h.chunk).residue);
    } else if h.kind.Partial? {
      assert s.r.held + h.chunk == h.chunk;
    }
  }

  lemma AbsorbKeepsQueue(r: Reader, kind: Kind, chunk: seq<byte>)
    ensures var r' := Absorb(r, kind, chunk);
            r'.pending == r.pending && r'.next == r.next && r'.id == r.id && r'.requested == r.requested
  {
  }

  lemma SplitChunk(held: seq<byte>, chunk: seq<byte>, n: nat)
    requires n <= |chunk|
    ensures (held + chunk[..n]) + ([] + chunk[n..]) == (held + chunk) + []
  {
  }

  /** What a read-until holds after a chunk, by whether the delimiter was in it. */
  lemma SearchChunk(held: seq<byte>, chunk: seq<byte>, d: byte)
    requires d < 128 && d !in held
    ensures var n := Seen(chunk, d);
            if n < |chunk| then Framed(held + chunk[..n + 1], d) else d !in held + chunk
  {
    var n := Seen(chunk, d);
    if n < |chunk| {
      var f := held + chunk[..n + 1];
      assert f[..|f| - 1] == held + chunk[..n];
    } else {
      assert forall i :: 0 <= i < |chunk| ==> chunk[i] != d;
    }
  }

  /** When the continuation ends the read it has an answer; otherwise the read still lacks bytes. */
  lemma AbsorbAnswers(r: Reader, q: Request, h: Handler, held': seq<byte>)
    requires h.Done? && Shape(r, q, h) && Serves(r, q)
    requires held' == Absorb(r, h.kind, h.chunk).held
    ensures Ends(r, h.kind, h.chunk, h.err) ==> Answers(q, Report(q.cb, h.err, held', false))
    ensures !Ends(r, h.kind, h.chunk, h.err) ==> Serves(r.(held := held'), q) && |held'| < q.size
  {
    if h.kind.Until? {
      if h.kind.delim < 128 {
        SearchChunk(r.held, h.chunk, h.kind.delim);
      }
      UntilAnswers(r, q, h, held');
      hide Absorb; hide Ends; hide Answers;
    }
    hide Seen;
  }

  lemma UntilAnswers(r: Reader, q: Request, h: Handler, held': seq<byte>)
    requires h.Done? && h.kind.Until? && Shape(r, q, h) && Serves(r, q)
    requires held' == Absorb(r, h.kind, h.chunk).held
    requires var n, d := Seen(h.chunk, h.kind.delim), h.kind.delim;
             d < 128 ==> if n < |h.chunk| then Framed(r.held + h.chunk[..n + 1], d) else d !in r.held + h.chunk
    ensures Ends(r, h.kind, h.chunk, h.err) ==> Answers(q, Report(q.cb, h.err, held', false))
    ensures !Ends(r, h.kind, h.chunk, h.err) ==> Serves(r.(held := held'), q) && |held'| < q.size
  {
    hide Framed;
  }

  /** Running the live completion: absorb the chunk, then finish or ask for the rest. */
  lemma ExecuteLive(s: Sys, key: nat)
    requires |s.taken| == |s.fate| && Waiting(s.r, key) && s.r.pending[key].Done? && s.r.id != 0
    ensures var h := s.r.pending[key];
            var r1 := DumpCallback(Pop(s.r, key), h.chunk, h.err, h.dumping);
            var s2 := s.(r := Absorb(r1, h.kind, h.chunk));
            if Ends(r1, h.kind, h.chunk, h.err) then
              ExecuteStep(s, key) == Finished(s2, h.err, false)
            else
              |s2.r.residue| <= s2.r.requested - |s2.r.held| ==>
                ExecuteStep(s, key) == Asked(s2, h.kind, s2.r.requested - |s2.r.held|)
  {
    hide KeptBytes; hide Concat; hide Lose; hide Seen; hide InFlight;
    var h := s.r.pending[key];
    var r1 := DumpCallback(Pop(s.r, key), h.chunk, h.err, h.dumping);
    var s2 := s.(r := Absorb(r1, h.kind, h.chunk));
    AbsorbKeepsQueue(r1, h.kind, h.chunk);
    if Ends(r1, h.kind, h.chunk, h.err) {
      PostedFinish(s.r, s2.r, h.err);
    } else {
      PostedAsk(s.r, s2.r, h.kind, s2.r.requested - |s2.r.held|);
      assert s.posts + [] == s.posts;
    }
    hide Absorb; hide Ends; hide Posted; hide FinishRead; hide DoReadSome;
  }

  lemma PostedFinish(r: Reader, r2: Reader, err: bool)
    requires r2.next == r.next && r2.id != 0
    ensures Posted(r, FinishRead(r2, err), false) == [Report(r2.cb, err, r2.held, false)]
  {
    assert r2.held[..|r2.held|] == r2.held;
  }

  lemma PostedAsk(r: Reader, r2: Reader, kind: Kind, count: nat)
    requires r2.next == r.next
    ensures Posted(r, DoReadSome(r2, r2.id, kind, count), false) == []
  {
  }

  lemma ContinueKeeps(s: Sys, key: nat)
    requires Inv(s) && s.r.id != 0 && LiveAt(s, key) && s.r.pending[key].Done?
    ensures Inv(ExecuteStep(s, key))
  {
    hide KeptBytes; hide Concat; hide Lose; hide Posted; hide DoReadSome;
    var q := s.accepted[|s.accepted| - 1];
    var h := s.r.pending[key];
    var r1 := DumpCallback(Pop(s.r, key), h.chunk, h.err, h.dumping);
    var s2 := s.(r := Absorb(r1, h.kind, h.chunk));
    AbsorbBetween(s, q, key, r1.dump);
    AbsorbAnswers(s.r, q, h, s2.r.held);
    ExecuteLive(s, key);
    AbsorbKeepsQueue(r1, h.kind, h.chunk);
    assert !Ends(r1, h.kind, h.chunk, h.err) ==> s2.r.residue == [];
    hide Absorb; hide ExecuteStep; hide Between; hide Answers; hide Inv; hide NoneWaiting;
    if Ends(r1, h.kind, h.chunk, h.err) {
      FinishKeeps(s2, q, h.err, false);
    } else {
      AskKeeps(s2, q, q.size - |s2.r.held|);
    }
  }

  lemma ExecuteKeeps(s: Sys, key: nat)
    requires Inv(s) && Enabled(s, Execute(key))
    ensures Inv(ExecuteStep(s, key))
  {
    hide KeptBytes; hide Concat; hide Lose; hide Seen;
    var h := s.r.pending[key];
    if s.r.id != 0 && Waiting(s.r, key) {
      var live :| LiveAt(s, live);
      ContinueKeeps(s, key);
      hide ExecuteStep; hide Inv;
    } else if h == Timer(s.r.id) {
      TimeoutKeeps(s, key);
    } else {
      var r' := Run(s.r, key);
      StaleKeeps(s, key, r'.dump, r'.notified);
      assert ExecuteStep(s, key) == s.(r := Pop(s.r, key).(dump := r'.dump, notified := r'.notified));
    }
  }

  lemma SetDumpKeeps(s: Sys, on: bool)
    requires Inv(s)
    ensures Inv(s.(r := s.r.(dumpOn := on)))
  {
    hide KeptBytes; hide Concat;
    var r' := s.r.(dumpOn := on);
    assert forall k :: Waiting(r', k) <==> Waiting(s.r, k);
    if s.r.id != 0 {
      var live :| LiveAt(s, live);
      assert LiveAt(s.(r := r'), live);
    }
  }

  /** Every step keeps the invariant, as long as the id counter has not wrapped. */
  lemma StepKeeps(s: Sys, e: Event)
    requires Inv(s) && |Step(s, e).accepted| < ID_RANGE
    ensures Inv(Step(s, e))
  {
    if Enabled(s, e) {
      match e
      case Accept(kind, size, cb, timed) => AcceptKeeps(s, Request(kind, size, cb, timed, |s.r.residue|));
      case Complete(k, chunk, err) => CompleteKeeps(s, k, chunk, err);
      case Execute(k) => ExecuteKeeps(s, k);
      case SetDump(on) => SetDumpKeeps(s, on);
    }
  }

  /** The same with the bound before the step. */
  lemma StepKeepsBefore(s: Sys, e: Event)
    requires Inv(s) && (e.Accept? ==> |s.accepted| + 1 < ID_RANGE)
    ensures Inv(Step(s, e))
  {
    StepKeeps(s, e);
  }
}
