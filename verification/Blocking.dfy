/** The blocking reads: one client thread that calls `read` and `read_until` beside the executor.
    The client holds mutex_ from the start of a call until it waits; `read_callback` needs that
    mutex, a timeout does not. */
module Blocking {
  import opened Bytes
  import opened Fates
  import M = ReaderModel
  import opened ReaderSystem
  import opened ReaderInvariant
  import opened ReaderRuns

  /** Where the client is. `Clearing`: the read is started, `waiterNotified_` not yet cleared.
      `Testing`: about to test it, mutex held. `Asleep`: waiting, mutex released. */
  datatype Client = Outside | Clearing | Testing | Asleep

  /** `returned` is what each call has returned: the bytes counted by `processed_`. */
  datatype Blocked = Blocked(s: Sys, at: Client, returned: seq<seq<byte>>)

  datatype BEvent =
    | Call(kind: M.Kind, size: nat, timed: bool)
    | Clear                                  // waiterNotified_ = false
    | Test                                   // returns, or goes to sleep
    | Wake                                   // notified or not, takes the mutex again
    | Executor(e: Event)                     // a completion, or a queued handler

  predicate IsCallback(r: M.Reader, key: nat) {
    key in r.pending && r.pending[key].User?
  }

  /** The client holds mutex_, so `read_callback` has to wait. */
  predicate MutexHeld(at: Client) {
    at.Clearing? || at.Testing?
  }

  predicate Possible(b: Blocked, e: BEvent) {
    match e
    case Call(_, _, _) => b.at.Outside?
    case Clear => b.at.Clearing?
    case Test => b.at.Testing?
    case Wake => b.at.Asleep?
    case Executor(x) =>
      && (x.Complete? || x.Execute?)
      && (x.Execute? && IsCallback(b.s.r, x.key) ==> !MutexHeld(b.at))
  }

  function ClearNotified(s: Sys): Sys {
    s.(r := s.r.(notified := false))
  }

  ghost function BStep(b: Blocked, e: BEvent): Blocked
    requires |b.s.taken| == |b.s.fate|
  {
    if !Possible(b, e) then b
    else
      match e
      case Call(kind, size, timed) =>
        if b.s.r.id != 0 then b.(returned := b.returned + [[]])    // busy: returns 0 without waiting
        else b.(s := Step(b.s, Accept(kind, size, M.ReadCallback, timed)), at := Clearing)
      case Clear => b.(s := ClearNotified(b.s), at := Testing)
      case Test => if b.s.r.notified then b.(at := Outside, returned := b.returned + [b.s.r.held]) else b.(at := Asleep)
      case Wake => b.(at := Testing)
      case Executor(x) => b.(s := Step(b.s, x))
  }

  ghost function BExec(b: Blocked, es: seq<BEvent>): (b': Blocked)
    requires |b.s.taken| == |b.s.fate|
    ensures |b'.s.taken| == |b'.s.fate|
    decreases |es|
  {
    if es == [] then b else BExec(BStep(b, es[0]), es[1..])
  }

  const Quiet: Blocked := Blocked(Start, Outside, [])

  // ----- the invariant -----

  ghost predicate NoCallback(r: M.Reader) {
    forall k :: !IsCallback(r, k)
  }

  ghost predicate AtMostOne(r: M.Reader) {
    forall k, j :: IsCallback(r, k) && IsCallback(r, j) ==> k == j
  }

  /** A live read has no callback queued; a finished one whose client has not been told has. */
  ghost predicate Told(r: M.Reader, at: Client) {
    && (at.Outside? ==> r.id == 0)
    && (r.id != 0 ==> NoCallback(r))
    && (at.Clearing? && r.id == 0 ==> exists k :: IsCallback(r, k))
    && (at.Testing? || at.Asleep? ==>
         && (r.notified ==> r.id == 0)
         && (!r.notified && r.id == 0 ==> exists k :: IsCallback(r, k)))
  }

  /** The last report is about the bytes at the destination. */
  predicate LastReport(s: Sys) {
    s.r.id == 0 && s.posts != [] ==> s.posts[|s.posts| - 1].bytes == s.r.held
  }

  predicate Returned(b: Blocked) {
    if b.at.Outside? then b.returned == Texts(b.s.posts)
    else |b.s.accepted| > 0 && |b.returned| == |b.s.accepted| - 1 <= |b.s.posts|
         && b.returned == Texts(b.s.posts)[..|b.returned|]
  }

  /** Every queued callback is `read_callback`. */
  predicate OnlyReadCallbacks(r: M.Reader) {
    && r.cb.ReadCallback?
    && forall k :: k in r.pending && r.pending[k].User? ==> r.pending[k].cb.ReadCallback?
  }

  ghost predicate BInv(b: Blocked) {
    Inv(b.s) && Told(b.s.r, b.at) && LastReport(b.s) && Returned(b) && OnlyReadCallbacks(b.s.r)
  }

  // ----- callbacks come and go -----

  /** `r'` is `r` after a handler that is no longer queued: either no callback was posted, or the
      live read was finished and its callback, counting what is at the destination, is the
      newest handler. */
  ghost predicate PostsOnlyToFinish(r: M.Reader, r': M.Reader) {
    if r'.id == r.id then
      (forall k :: IsCallback(r', k) <==> IsCallback(r, k))
      && (r'.next > r.next ==> r'.next - 1 in r'.pending && !r'.pending[r'.next - 1].User?)
      && (r.id == 0 ==> r'.held == r.held)
    else
      && r.id != 0 && r'.id == 0 && r'.next > r.next
      && IsCallback(r', r'.next - 1)
      && r'.pending[r'.next - 1].count == |r'.held|
      && (forall k :: IsCallback(r', k) ==> k == r'.next - 1 || IsCallback(r, k))
  }

  lemma FinishPosts(r: M.Reader, err: bool)
    requires r.id != 0
    ensures PostsOnlyToFinish(r, M.FinishRead(r, err))
  {
  }

  lemma AskPosts(r: M.Reader, id: nat, kind: M.Kind, count: nat)
    requires r.id != 0 && r.next !in r.pending
    ensures PostsOnlyToFinish(r, M.DoReadSome(r, id, kind, count))
  {
  }

  lemma ContinuePosts(r: M.Reader, kind: M.Kind, chunk: seq<byte>, err: bool)
    requires r.id != 0 && r.next !in r.pending
    ensures PostsOnlyToFinish(r, M.Continue(r, r.id, kind, chunk, err))
  {
    var r1 := M.Absorb(r, kind, chunk);
    AbsorbKeepsQueue(r, kind, chunk);
    assert !M.Ends(r, kind, chunk, err) ==> |r1.held| <= r1.requested;
    hide M.Absorb;
    hide M.DoReadSome;
    hide M.FinishRead;
    hide PostsOnlyToFinish;
    if M.Ends(r, kind, chunk, err) {
      FinishPosts(r1, err);
    } else {
      AskPosts(r1, r.id, kind, r1.requested - |r1.held|);
    }
    hide M.Ends;
    PostsSame(r, r1, M.Continue(r, r.id, kind, chunk, err));
  }

  lemma PostsSame(r: M.Reader, r1: M.Reader, r': M.Reader)
    requires r1.pending == r.pending && r1.next == r.next && r1.id == r.id != 0 && PostsOnlyToFinish(r1, r')
    ensures PostsOnlyToFinish(r, r')
  {
    assert forall k :: IsCallback(r1, k) <==> IsCallback(r, k);
  }

  lemma ActPosts(r: M.Reader, h: M.Handler)
    requires !h.Op? && r.next !in r.pending && (h.Done? || h.Timer? ==> h.id != 0)
    ensures PostsOnlyToFinish(r, M.Act(r, h))
  {
    hide M.Continue;
    if h.Done? {
      var r1 := M.DumpCallback(r, h.chunk, h.err, h.dumping);
      assert forall k :: IsCallback(r1, k) <==> IsCallback(r, k);
      if h.id == r.id {
        ContinuePosts(r1, h.kind, h.chunk, h.err);
      } else {
        StaleContinue(r1, h);
      }
    } else if h.Timer? && h.id == r.id {
      var r1 := r.(notified := true);
      assert forall k :: IsCallback(r1, k) <==> IsCallback(r, k);
      FinishPosts(r1, false);
    }
  }

  lemma StaleContinue(r: M.Reader, h: M.Handler)
    requires h.Done? && h.id != r.id
    ensures M.Continue(r, h.id, h.kind, h.chunk, h.err) == r
  {
  }

  /** `s'` has the report, if any, that was posted on the way from `s`. */
  predicate PostedBy(s: Sys, s': Sys) {
    s'.posts == s.posts + Posted(s.r, s'.r, false) || s'.posts == s.posts + Posted(s.r, s'.r, true)
  }

  /** What a step of the reader makes of the last report. */
  lemma ReportKept(s: Sys, s': Sys, before: M.Reader)
    requires LastReport(s) && before.next == s.r.next && before.id == s.r.id && before.held == s.r.held
    requires PostsOnlyToFinish(before, s'.r) && PostedBy(s, s')
    ensures LastReport(s')
    ensures s'.r.id == s.r.id ==> s'.posts == s.posts
    ensures s'.r.id != s.r.id ==> |s'.posts| == |s.posts| + 1 && s'.posts[|s.posts|].bytes == s'.r.held
  {
    assert s'.r.held[..|s'.r.held|] == s'.r.held;
  }

  lemma ExecuteFacts(s: Sys, key: nat)
    requires Inv(s) && LastReport(s) && key in s.r.pending && !s.r.pending[key].Op?
    ensures var s' := ExecuteStep(s, key);
            && LastReport(s') && PostsOnlyToFinish(Pop(s.r, key), s'.r)
            && (s'.r.id == s.r.id ==> s'.posts == s.posts)
            && s.posts <= s'.posts
  {
    hide KeptBytes;
    hide Concat;
    hide Lose;
    hide M.Act;
    ActPosts(Pop(s.r, key), s.r.pending[key]);
    ReportKept(s, ExecuteStep(s, key), Pop(s.r, key));
  }

  /** Only callbacks and timeouts notify; a timeout also ends the read. */
  lemma Notifies(s: Sys, key: nat)
    requires key in s.r.pending && !s.r.pending[key].Op?
    ensures var r', h := M.Run(s.r, key), s.r.pending[key];
            && (h.User? && h.cb.ReadCallback? ==> r'.notified)
            && (r'.notified != s.r.notified ==> h.User? || r'.id == 0)
            && (s.r.notified ==> r'.notified)
  {
    hide M.Seen;
  }


  lemma ContinueOnlyRead(r: M.Reader, id: nat, kind: M.Kind, chunk: seq<byte>, err: bool)
    requires OnlyReadCallbacks(r)
    ensures OnlyReadCallbacks(M.Continue(r, id, kind, chunk, err))
  {
    AbsorbKeepsQueue(r, kind, chunk);
    AbsorbKeepsCallback(r, kind, chunk);
    hide M.Ends;
    hide M.Absorb;
    hide M.AfterDrain;
  }

  lemma ActOnlyRead(r: M.Reader, h: M.Handler)
    requires OnlyReadCallbacks(r) && !h.Op?
    ensures OnlyReadCallbacks(M.Act(r, h))
  {
    if h.Done? {
      ContinueOnlyRead(M.DumpCallback(r, h.chunk, h.err, h.dumping), h.id, h.kind, h.chunk, h.err);
    }
    hide M.Continue;
  }

  lemma AbsorbKeepsCallback(r: M.Reader, kind: M.Kind, chunk: seq<byte>)
    ensures M.Absorb(r, kind, chunk).cb == r.cb
  {
  }

  // ----- the steps -----

  lemma StartAsks(r: M.Reader, kind: M.Kind, size: nat)
    requires r.id != 0 && NoCallback(r)
    ensures var r' := M.DoReadSome(r, r.id, kind, size);
            NoCallback(r') && r'.id == r.id && r'.next > 0 && r'.next - 1 in r'.pending && !r'.pending[r'.next - 1].User?
  {
    var r' := M.DoReadSome(r, r.id, kind, size);
    forall k ensures !IsCallback(r', k) {
      assert !IsCallback(r, k);
    }
  }

  /** `async_read_until` on a claimed reader: it asks, or is over at once. */
  lemma UntilAsksOrEnds(r: M.Reader, d: byte)
    requires r.id != 0 && NoCallback(r)
    ensures var r' := M.StartUntil(r, d);
            && r'.next > 0 && r'.next - 1 in r'.pending
            && (r'.id != 0 ==> NoCallback(r') && !r'.pending[r'.next - 1].User?)
            && (r'.id == 0 ==> IsCallback(r', r'.next - 1) && r'.pending[r'.next - 1].count == |r'.held|)
            && AtMostOne(r')
  {
    if M.FirstStop(r.residue, d, r.requested, 0) == 0 {
      var r1 := r.(held := r.residue, residue := []);
      assert forall k :: IsCallback(r1, k) ==> IsCallback(r, k);
      StartAsks(r1, M.Until(d), r.requested);
    } else {
      var r' := M.StartUntil(r, d);
      forall k | IsCallback(r', k) ensures k == r'.next - 1 {
        assert !IsCallback(r, k);
      }
    }
  }

  lemma ClaimQuiet(r: M.Reader, size: nat, timed: bool)
    requires NoCallback(r)
    ensures var r1 := M.NewRead(r, size, M.ReadCallback, timed); NoCallback(r1) && r1.next >= r.next
  {
    var r1 := M.NewRead(r, size, M.ReadCallback, timed);
    forall k ensures !IsCallback(r1, k) {
      assert !IsCallback(r, k);
    }
  }

  lemma StartsAfter(r: M.Reader, kind: M.Kind, size: nat, timed: bool)
    requires r.id == 0 && r.counter + 1 < M.ID_RANGE
    ensures M.AsyncRead(r, kind, size, M.ReadCallback, timed).0.next > r.next
  {
  }

  /** A read that starts: it is live and no callback is queued, or it was over at once and its
      callback is. */
  lemma StartPosts(r: M.Reader, kind: M.Kind, size: nat, timed: bool)
    requires r.id == 0 && NoCallback(r) && r.counter + 1 < M.ID_RANGE
    ensures var r' := M.AsyncRead(r, kind, size, M.ReadCallback, timed).0;
            && (r'.id != 0 ==> NoCallback(r') && Posted(r, r', false) == [])
            && (r'.id == 0 ==>
                 (exists k :: IsCallback(r', k)) && |Posted(r, r', false)| == 1 && Posted(r, r', false)[0].bytes == r'.held)
            && AtMostOne(r')
  {
    var r1 := M.NewRead(r, size, M.ReadCallback, timed);
    var r' := M.AsyncRead(r, kind, size, M.ReadCallback, timed).0;
    ClaimQuiet(r, size, timed);
    StartsAfter(r, kind, size, timed);
    if kind.Until? {
      UntilAsksOrEnds(r1, kind.delim);
      assert r'.held[..|r'.held|] == r'.held;
    } else {
      StartAsks(r1, kind, size);
    }
    hide M.StartUntil;
    hide M.DoReadSome;
  }

  lemma OverAtOnce(r: M.Reader, kind: M.Kind, size: nat, timed: bool)
    requires r.id == 0 && AtOnce(r, kind, size) && r.counter + 1 < M.ID_RANGE
    ensures var r' := M.AsyncRead(r, kind, size, M.ReadCallback, timed).0;
            r'.id == 0 && (exists k :: IsCallback(r', k)) && |Posted(r, r', false)| == 1 && Posted(r, r', false)[0].bytes == r'.held
  {
    var r' := M.AsyncRead(r, kind, size, M.ReadCallback, timed).0;
    assert IsCallback(r', r'.next - 1);
    assert r'.held[..|r'.held|] == r'.held;
  }

  lemma StartOnlyRead(r: M.Reader, kind: M.Kind, size: nat, timed: bool)
    requires r.id == 0 && OnlyReadCallbacks(r)
    ensures OnlyReadCallbacks(M.AsyncRead(r, kind, size, M.ReadCallback, timed).0)
  {
  }

  // ----- each step keeps the invariant -----

  lemma TextsSnoc(posts: seq<Report>, p: Report)
    ensures Texts(posts + [p]) == Texts(posts) + [p.bytes]
  {
  }

  lemma CallBooks(b: Blocked, s': Sys, q: Request, added: seq<Report>)
    requires Returned(b) && b.at.Outside? && LastReport(b.s) && |b.s.posts| == |b.s.accepted|
    requires s'.accepted == b.s.accepted + [q] && s'.posts == b.s.posts + added
    requires s'.r.id != 0 ==> added == []
    requires s'.r.id == 0 ==> |added| == 1 && added[0].bytes == s'.r.held
    ensures Returned(b.(s := s', at := Clearing)) && LastReport(s')
  {
    if s'.r.id == 0 {
      assert added == [added[0]];
      TextsSnoc(b.s.posts, added[0]);
    }
    assert Texts(s'.posts)[..|b.s.posts|] == Texts(b.s.posts);
  }

  lemma CallKeeps(b: Blocked, kind: M.Kind, size: nat, timed: bool)
    requires BInv(b) && b.at.Outside? && |b.s.accepted| + 1 < M.ID_RANGE
    requires NoCallback(b.s.r) || AtOnce(b.s.r, kind, size)
    ensures BInv(BStep(b, Call(kind, size, timed)))
  {
    hide KeptBytes;
    hide Concat;
    hide Lose;
    hide M.AsyncRead;
    hide Posted;
    var q := Request(kind, size, M.ReadCallback, timed, |b.s.r.residue|);
    var s' := AcceptStep(b.s, q);
    AcceptKeeps(b.s, q);
    if AtOnce(b.s.r, kind, size) {
      OverAtOnce(b.s.r, kind, size, timed);
    } else {
      StartPosts(b.s.r, kind, size, timed);
    }
    StartOnlyRead(b.s.r, kind, size, timed);
    CallBooks(b, s', q, Posted(b.s.r, s'.r, false));
    hide Inv;
    hide Returned;
    hide LastReport;
    hide OnlyReadCallbacks;
  }

  lemma ClearKeeps(b: Blocked)
    requires BInv(b) && b.at.Clearing?
    ensures BInv(BStep(b, Clear))
  {
    hide KeptBytes;
    hide Concat;
    var s' := ClearNotified(b.s);
    NotifiedFree(b.s, false);
    assert forall k :: IsCallback(s'.r, k) <==> IsCallback(b.s.r, k);
    hide Inv;
  }

  lemma NotifiedFree(s: Sys, notified: bool)
    requires Inv(s)
    ensures Inv(s.(r := s.r.(notified := notified)))
  {
    hide KeptBytes;
    hide Concat;
    var r' := s.r.(notified := notified);
    assert forall k :: Waiting(r', k) <==> Waiting(s.r, k);
    if s.r.id != 0 {
      var live :| LiveAt(s, live);
      assert LiveAt(s.(r := r'), live);
    }
  }

  /** The client returns only when its own read is over, and returns what was reported for it. */
  lemma TestKeeps(b: Blocked)
    requires BInv(b) && b.at.Testing?
    ensures BInv(BStep(b, Test))
    ensures b.s.r.notified ==> b.s.r.id == 0 && b.s.posts != [] && b.s.r.held == b.s.posts[|b.s.posts| - 1].bytes
  {
    hide KeptBytes;
    hide Concat;
    if b.s.r.notified {
      var n := |b.s.posts| - 1;
      assert |b.s.posts| == |b.s.accepted|;
      assert Texts(b.s.posts) == Texts(b.s.posts)[..n] + [b.s.posts[n].bytes];
    }
  }

  lemma CompleteQuiet(b: Blocked, key: nat, chunk: seq<byte>, err: bool)
    requires BInv(b) && Enabled(b.s, Complete(key, chunk, err))
    ensures BInv(BStep(b, Executor(Complete(key, chunk, err))))
  {
    var s' := CompleteStep(b.s, key, chunk, err);
    CompleteKeeps(b.s, key, chunk, err);
    hide Inv; hide KeptBytes; hide Concat;
    CallbacksStay(b.s.r, key, chunk, err);
    hide M.Fill; hide IsCallback;
    ToldSame(b.s.r, s'.r, b.at);
    hide Told;
  }

  lemma CallbacksStay(r: M.Reader, key: nat, chunk: seq<byte>, err: bool)
    requires key in r.pending && r.pending[key].Op?
    ensures var r' := M.Fill(r, key, chunk, err);
            && (forall k :: IsCallback(r', k) <==> IsCallback(r, k))
            && r'.id == r.id && r'.notified == r.notified && r'.held == r.held
            && (OnlyReadCallbacks(r) ==> OnlyReadCallbacks(r'))
  {
  }

  lemma ToldSame(r: M.Reader, r': M.Reader, at: Client)
    requires Told(r, at) && r'.id == r.id && r'.notified == r.notified
    requires forall k :: IsCallback(r', k) <==> IsCallback(r, k)
    ensures Told(r', at)
  {
    hide IsCallback;
  }

  lemma RunKeepsTold(r: M.Reader, key: nat, r': M.Reader, at: Client)
    requires key in r.pending && !r.pending[key].Op? && Told(r, at) && OnlyReadCallbacks(r)
    requires IsCallback(r, key) ==> !MutexHeld(at)
    requires PostsOnlyToFinish(Pop(r, key), r')
    requires r.pending[key].User? ==> r'.notified && r'.id == r.id
    requires (r'.notified != r.notified ==> r.pending[key].User? || r'.id == 0) && (r.notified ==> r'.notified)
    ensures Told(r', at)
  {
    assert forall k :: IsCallback(Pop(r, key), k) <==> IsCallback(r, k) && k != key;
    assert r.pending[key].User? ==> IsCallback(r, key) && r.id == 0;
    if r'.id == 0 && r.id != 0 {
      assert IsCallback(r', r'.next - 1);
    } else if exists k :: IsCallback(r, k) {
      var k :| IsCallback(r, k);
      assert k != key ==> IsCallback(r', k);
    }
  }

  lemma ExecuteQuiet(b: Blocked, key: nat)
    requires BInv(b) && Enabled(b.s, Execute(key)) && (IsCallback(b.s.r, key) ==> !MutexHeld(b.at))
    ensures BInv(BStep(b, Executor(Execute(key))))
  {
    hide KeptBytes;
    hide Concat;
    hide Lose;
    var s' := ExecuteStep(b.s, key);
    ExecuteKeeps(b.s, key);
    ExecuteFacts(b.s, key);
    Notifies(b.s, key);
    if b.s.r.pending[key].User? { UserKeepsId(b.s.r, key); }
    ActOnlyRead(Pop(b.s.r, key), b.s.r.pending[key]);
    hide M.Act;
    RunKeepsTold(b.s.r, key, s'.r, b.at);
    ReturnedKept(b, s');
  }

  lemma UserKeepsId(r: M.Reader, key: nat)
    requires key in r.pending && r.pending[key].User?
    ensures M.Run(r, key).id == r.id
  {
  }

  lemma ReturnedKept(b: Blocked, s': Sys)
    requires Returned(b) && s'.accepted == b.s.accepted && b.s.posts <= s'.posts
    requires b.at.Outside? ==> s'.posts == b.s.posts
    ensures Returned(b.(s := s'))
  {
    if !b.at.Outside? {
      assert Texts(s'.posts)[..|b.returned|] == Texts(b.s.posts)[..|b.returned|];
    }
  }

  /** The residue satisfies the call at once. */
  predicate AtOnce(r: M.Reader, kind: M.Kind, size: nat) {
    kind.Until? && M.FirstStop(r.residue, kind.delim, size, 0) > 0
  }

  /** A call made while no callback of an earlier one is queued, or satisfied at once. */
  ghost predicate Settled(b: Blocked, e: BEvent) {
    e.Call? && b.at.Outside? ==> NoCallback(b.s.r) || AtOnce(b.s.r, e.kind, e.size)
  }

  lemma BStepKeeps(b: Blocked, e: BEvent)
    requires BInv(b) && Settled(b, e) && |BStep(b, e).s.accepted| < M.ID_RANGE
    ensures BInv(BStep(b, e))
  {
    if Possible(b, e) {
      match e
      case Call(kind, size, timed) => CallKeeps(b, kind, size, timed);
      case Clear => ClearKeeps(b);
      case Test => TestKeeps(b);
      case Wake =>
      case Executor(x) =>
        if Enabled(b.s, x) {
          if x.Complete? { CompleteQuiet(b, x.key, x.chunk, x.err); } else { ExecuteQuiet(b, x.key); }
        }
    }
  }

  /** Every call of the run is settled. */
  ghost predicate AllSettled(b: Blocked, es: seq<BEvent>)
    requires |b.s.taken| == |b.s.fate|
    decreases |es|
  {
    es == [] || (Settled(b, es[0]) && AllSettled(BStep(b, es[0]), es[1..]))
  }

  lemma {:induction false} BHistoryGrows(b: Blocked, es: seq<BEvent>)
    requires |b.s.taken| == |b.s.fate|
    ensures var b' := BExec(b, es);
            |b.s.accepted| <= |b'.s.accepted| && b.s.posts <= b'.s.posts && b.returned <= b'.returned
    decreases |es|
  {
    if es != [] {
      BStepGrows(b, es[0]);
      hide BStep;
      BHistoryGrows(BStep(b, es[0]), es[1..]);
    }
  }

  lemma BStepGrows(b: Blocked, e: BEvent)
    requires |b.s.taken| == |b.s.fate|
    ensures var b' := BStep(b, e);
            && |b'.s.taken| == |b'.s.fate|
            && |b.s.accepted| <= |b'.s.accepted| && b.s.posts <= b'.s.posts && b.returned <= b'.returned
  {
    hide Lose;
    hide Concat;
    hide Posted;
    hide M.Run;
    hide M.AsyncRead;
  }

  lemma {:induction false} BRunKeeps(b: Blocked, es: seq<BEvent>)
    requires BInv(b) && AllSettled(b, es) && |BExec(b, es).s.accepted| < M.ID_RANGE
    ensures BInv(BExec(b, es))
    decreases |es|
  {
    if es != [] {
      BHistoryGrows(BStep(b, es[0]), es[1..]);
      BStepKeeps(b, es[0]);
      hide BStep;
      hide BInv;
      BRunKeeps(BStep(b, es[0]), es[1..]);
    }
  }

  lemma QuietInv()
    ensures BInv(Quiet)
  {
    StartInv();
  }

  // ----- unless a read times out every call is settled -----

  /** Outside a call, and once the client is notified, its callback has run. */
  ghost predicate Calm(b: Blocked) {
    && AtMostOne(b.s.r)
    && (b.at.Outside? ==> NoCallback(b.s.r))
    && ((b.at.Testing? || b.at.Asleep?) && b.s.r.notified ==> NoCallback(b.s.r))
  }

  /** A timer that does not end a read notifies nobody. */
  lemma RunNotified(s: Sys, key: nat)
    requires Inv(s) && Enabled(s, Execute(key)) && !s.r.pending[key].User? && !AnyTimedOut(ExecuteStep(s, key).posts)
    ensures M.Run(s.r, key).notified == s.r.notified
  {
    hide ExecuteStep;
    hide AnyTimedOut;
    if s.r.pending[key] == M.Timer(s.r.id) {
      LiveTimer(s, key);
      TimeoutReports(s, key);
    }
    hide Inv;
    QuietHandlers(s.r, key);
    hide M.Run;
  }

  lemma QuietHandlers(r: M.Reader, key: nat)
    requires key in r.pending && (r.pending[key].Done? || (r.pending[key].Timer? && r.pending[key].id != r.id))
    ensures M.Run(r, key).notified == r.notified
  {
    hide M.Seen;
  }

  lemma LiveTimer(s: Sys, key: nat)
    requires Inv(s) && key in s.r.pending && s.r.pending[key] == M.Timer(s.r.id)
    ensures s.r.id != 0
  {
  }

  lemma ExecuteCalm(b: Blocked, key: nat)
    requires BInv(b) && Calm(b) && Enabled(b.s, Execute(key)) && (IsCallback(b.s.r, key) ==> !MutexHeld(b.at))
    requires !AnyTimedOut(ExecuteStep(b.s, key).posts)
    ensures Calm(BStep(b, Executor(Execute(key))))
  {
    hide KeptBytes;
    hide Concat;
    hide Lose;
    var r, r' := b.s.r, ExecuteStep(b.s, key).r;
    ExecuteFacts(b.s, key);
    assert forall k :: IsCallback(Pop(r, key), k) <==> IsCallback(r, k) && k != key;
    if r.pending[key].User? {
      UserKeepsId(r, key);
      assert IsCallback(r, key);
    } else {
      RunNotified(b.s, key);
    }
    hide M.Run;
    hide Inv;
  }

  lemma CallCalm(b: Blocked, kind: M.Kind, size: nat, timed: bool)
    requires BInv(b) && Calm(b) && b.at.Outside? && |b.s.accepted| + 1 < M.ID_RANGE
    ensures Calm(BStep(b, Call(kind, size, timed)))
  {
    hide KeptBytes;
    hide Concat;
    hide Lose;
    hide M.AsyncRead;
    StartPosts(b.s.r, kind, size, timed);
    hide Inv;
  }

  lemma BStepCalm(b: Blocked, e: BEvent)
    requires BInv(b) && Calm(b) && |BStep(b, e).s.accepted| < M.ID_RANGE && !AnyTimedOut(BStep(b, e).s.posts)
    ensures Calm(BStep(b, e)) && Settled(b, e)
  {
    if Possible(b, e) {
      match e
      case Call(kind, size, timed) => CallCalm(b, kind, size, timed);
      case Clear => assert forall k :: IsCallback(ClearNotified(b.s).r, k) <==> IsCallback(b.s.r, k);
      case Test =>
      case Wake =>
      case Executor(x) =>
        if Enabled(b.s, x) {
          if x.Complete? {
            assert forall k :: IsCallback(CompleteStep(b.s, x.key, x.chunk, x.err).r, k) <==> IsCallback(b.s.r, k);
          } else {
            ExecuteCalm(b, x.key);
          }
        }
    }
  }

  lemma {:induction false} CalmSettles(b: Blocked, es: seq<BEvent>)
    requires BInv(b) && Calm(b) && |BExec(b, es).s.accepted| < M.ID_RANGE && !AnyTimedOut(BExec(b, es).s.posts)
    ensures AllSettled(b, es)
    decreases |es|
  {
    if es != [] {
      BHistoryGrows(BStep(b, es[0]), es[1..]);
      TimedOutStays(BStep(b, es[0]).s.posts, BExec(b, es).s.posts);
      BStepCalm(b, es[0]);
      BStepKeeps(b, es[0]);
      hide BStep;
      hide BInv;
      hide Calm;
      CalmSettles(BStep(b, es[0]), es[1..]);
    }
  }

  /** A client that only makes blocking calls is always settled, unless one of them times out. */
  lemma AllSettledUnlessTimedOut(es: seq<BEvent>)
    requires |BExec(Quiet, es).s.accepted| < M.ID_RANGE && !AnyTimedOut(BExec(Quiet, es).s.posts)
    ensures AllSettled(Quiet, es)
  {
    QuietInv();
    CalmSettles(Quiet, es);
  }

  // ----- main results -----

  /** With or without timeouts, as long as each call begins after the callbacks of earlier ones
      have run: the calls return what was reported for their own reads, in order. */
  lemma BlockingReturns(es: seq<BEvent>)
    requires AllSettled(Quiet, es) && |BExec(Quiet, es).s.accepted| < M.ID_RANGE
    ensures var b := BExec(Quiet, es);
            && b.returned <= Texts(b.s.posts)
            && (b.at.Outside? ==> b.returned == Texts(b.s.posts) && |b.s.posts| == |b.s.accepted|)
            && (!b.at.Outside? ==> |b.returned| == |b.s.accepted| - 1)
  {
    QuietInv();
    BRunKeeps(Quiet, es);
  }

  // ----- no lost wakeup, whatever was called before -----

  /** Something will still notify the client: its read is live, or a callback is queued. */
  ghost predicate ToCome(r: M.Reader) {
    r.id != 0 || exists k :: IsCallback(r, k)
  }

  ghost predicate Awake(b: Blocked) {
    && Inv(b.s) && OnlyReadCallbacks(b.s.r)
    && (b.at.Clearing? ==> ToCome(b.s.r))
    && (b.at.Testing? || b.at.Asleep? ==> b.s.r.notified || ToCome(b.s.r))
  }

  lemma CallAwake(b: Blocked, kind: M.Kind, size: nat, timed: bool)
    requires Awake(b) && b.at.Outside? && b.s.r.id == 0 && |b.s.accepted| + 1 < M.ID_RANGE
    ensures Awake(BStep(b, Call(kind, size, timed)))
  {
    hide KeptBytes; hide Concat; hide Lose; hide Posted;
    AcceptKeeps(b.s, Request(kind, size, M.ReadCallback, timed, |b.s.r.residue|));
    StartOnlyRead(b.s.r, kind, size, timed);
    if AtOnce(b.s.r, kind, size) {
      OverAtOnce(b.s.r, kind, size, timed);
    } else {
      Unanswered(b.s.r, kind, size, timed);
    }
    hide M.AsyncRead; hide Inv; hide OnlyReadCallbacks;
  }

  lemma Unanswered(r: M.Reader, kind: M.Kind, size: nat, timed: bool)
    requires r.id == 0 && !AtOnce(r, kind, size) && r.counter + 1 < M.ID_RANGE
    ensures M.AsyncRead(r, kind, size, M.ReadCallback, timed).0.id != 0
  {
  }

  lemma ClearAwake(b: Blocked)
    requires Awake(b) && b.at.Clearing?
    ensures Awake(BStep(b, Clear))
  {
    NotifiedFree(b.s, false);
    hide Inv;
    if b.s.r.id == 0 {
      var k :| IsCallback(b.s.r, k);
      assert IsCallback(ClearNotified(b.s).r, k);
    }
  }

  lemma CompleteAwake(b: Blocked, key: nat, chunk: seq<byte>, err: bool)
    requires Awake(b) && Enabled(b.s, Complete(key, chunk, err))
    ensures Awake(BStep(b, Executor(Complete(key, chunk, err))))
  {
    CompleteKeeps(b.s, key, chunk, err);
    hide Inv; hide KeptBytes; hide Concat;
    var r' := CompleteStep(b.s, key, chunk, err).r;
    if k :| IsCallback(b.s.r, k) {
      assert IsCallback(r', k);
    }
  }

  lemma ExecuteAwake(b: Blocked, key: nat)
    requires Awake(b) && Enabled(b.s, Execute(key)) && (IsCallback(b.s.r, key) ==> !MutexHeld(b.at))
    ensures Awake(BStep(b, Executor(Execute(key))))
  {
    hide KeptBytes; hide Concat; hide Lose; hide M.Act;
    var r0, h := Pop(b.s.r, key), b.s.r.pending[key];
    ExecuteKeeps(b.s, key);
    ActPosts(r0, h);
    Notifies(b.s, key);
    ActOnlyRead(r0, h);
    StillToCome(b.s.r, key, ExecuteStep(b.s, key).r);
    hide Inv; hide OnlyReadCallbacks; hide PostsOnlyToFinish; hide ToCome; hide Posted;
  }

  /** Only running a callback can leave nothing to come, and it notifies. */
  lemma StillToCome(r: M.Reader, key: nat, r': M.Reader)
    requires key in r.pending && PostsOnlyToFinish(Pop(r, key), r')
    ensures ToCome(r) ==> r.pending[key].User? || ToCome(r')
  {
    if ToCome(r) && !r.pending[key].User? {
      if r'.id == 0 && r.id != 0 {
        assert IsCallback(r', r'.next - 1);
      } else if r.id == 0 {
        var k :| IsCallback(r, k);
        assert IsCallback(Pop(r, key), k);
      }
    }
  }

  lemma BStepAwake(b: Blocked, e: BEvent)
    requires Awake(b) && |BStep(b, e).s.accepted| < M.ID_RANGE
    ensures Awake(BStep(b, e))
  {
    if Possible(b, e) {
      match e
      case Call(kind, size, timed) => if b.s.r.id == 0 { CallAwake(b, kind, size, timed); }
      case Clear => ClearAwake(b);
      case Test => hide Inv; hide ToCome;
      case Wake => hide Inv; hide ToCome;
      case Executor(x) =>
        if Enabled(b.s, x) {
          if x.Complete? { CompleteAwake(b, x.key, x.chunk, x.err); } else { ExecuteAwake(b, x.key); }
        }
    }
  }

  lemma {:induction false} BRunAwake(b: Blocked, es: seq<BEvent>)
    requires Awake(b) && |BExec(b, es).s.accepted| < M.ID_RANGE
    ensures Awake(BExec(b, es))
    decreases |es|
  {
    if es != [] {
      BStepGrows(b, es[0]);
      BHistoryGrows(BStep(b, es[0]), es[1..]);
      BStepAwake(b, es[0]);
      hide BStep; hide Awake;
      BRunAwake(BStep(b, es[0]), es[1..]);
    }
  }

  /** No lost wakeup, in every run: a client that sleeps has been notified, or its read is live with
      one completion outstanding, or a callback that will notify it is queued and free to run. If
      every call was settled it has been notified only of its own read. */
  lemma NoLostWakeup(es: seq<BEvent>)
    requires |BExec(Quiet, es).s.accepted| < M.ID_RANGE && BExec(Quiet, es).at.Asleep?
    ensures var b := BExec(Quiet, es);
            || b.s.r.notified
            || (b.s.r.id != 0 && exists k :: Waiting(b.s.r, k))
            || (exists k :: IsCallback(b.s.r, k) && BStep(b, Executor(Execute(k))).s.r.notified)
    ensures AllSettled(Quiet, es) && BExec(Quiet, es).s.r.notified ==> BExec(Quiet, es).s.r.id == 0
  {
    StartInv();
    BRunAwake(Quiet, es);
    if AllSettled(Quiet, es) {
      QuietInv();
      BRunKeeps(Quiet, es);
    }
    var b := BExec(Quiet, es);
    hide BExec;
    if b.s.r.id != 0 {
      var live :| LiveAt(b.s, live);
    } else if !b.s.r.notified {
      var k :| IsCallback(b.s.r, k);
      Notifies(b.s, k);
      assert Possible(b, Executor(Execute(k))) && Enabled(b.s, Execute(k));
    }
  }

  // ----- exactly when a call returns its own report -----

  /** The call `e`, made in state `b`, has not returned yet, or has returned what was reported for
      its own read. */
  predicate Own(b: Blocked, b': Blocked) {
    var n := |b.returned|;
    |b'.returned| > n ==> |b'.s.posts| > n && b'.returned[n] == b'.s.posts[n].bytes
  }

  ghost predicate ReturnsOwn(b: Blocked, e: BEvent)
    requires |b.s.taken| == |b.s.fate|
  {
    forall es :: |BExec(BStep(b, e), es).s.accepted| < M.ID_RANGE ==> Own(b, BExec(BStep(b, e), es))
  }

  /** A call returns its own report in every continuation, further calls included, exactly when no
      callback of an earlier call is queued, or its residue satisfies it at once. */
  lemma ReturnsOwnIff(b: Blocked, kind: M.Kind, size: nat, timed: bool)
    requires BInv(b) && b.at.Outside? && |b.s.accepted| + 1 < M.ID_RANGE
    ensures ReturnsOwn(b, Call(kind, size, timed)) <==> NoCallback(b.s.r) || AtOnce(b.s.r, kind, size)
  {
    var e := Call(kind, size, timed);
    var b1 := BStep(b, e);
    if NoCallback(b.s.r) || AtOnce(b.s.r, kind, size) {
      CallKeeps(b, kind, size, timed);
      CallPending(b, kind, size, timed);
      hide BStep;
      forall es | |BExec(b1, es).s.accepted| < M.ID_RANGE ensures Own(b, BExec(b1, es)) {
        UntilReturned(b, b1, es);
      }
    } else {
      var key :| IsCallback(b.s.r, key);
      UnsettledReturnsEarly(b, key, kind, size, timed);
    }
  }

  lemma CallPending(b: Blocked, kind: M.Kind, size: nat, timed: bool)
    requires BInv(b) && b.at.Outside?
    ensures var b1 := BStep(b, Call(kind, size, timed)); !b1.at.Outside? && b1.returned == b.returned
  {
  }

  /** Until it returns the client makes no other call, so the invariant holds. */
  lemma {:induction false} UntilReturned(b: Blocked, b1: Blocked, es: seq<BEvent>)
    requires BInv(b1) && !b1.at.Outside? && |b1.returned| == |b.returned| && |BExec(b1, es).s.accepted| < M.ID_RANGE
    ensures Own(b, BExec(b1, es))
    decreases |es|
  {
    if es != [] {
      var b2 := BStep(b1, es[0]);
      BStepGrows(b1, es[0]);
      BHistoryGrows(b2, es[1..]);
      BStepKeeps(b1, es[0]);
      OneStep(b1, es[0]);
      hide BStep;
      hide BInv;
      if b2.at.Outside? {
        var n, b' := |b.returned|, BExec(b2, es[1..]);
        assert b'.returned[n] == b2.returned[n] && b'.s.posts[n] == b2.s.posts[n];
      } else {
        UntilReturned(b, b2, es[1..]);
      }
    }
  }

  lemma OneStep(b: Blocked, e: BEvent)
    requires BInv(b) && !b.at.Outside? && BInv(BStep(b, e))
    ensures var b' := BStep(b, e);
            if b'.at.Outside? then
              |b'.returned| == |b.returned| + 1 <= |b'.s.posts| && b'.returned[|b.returned|] == b'.s.posts[|b.returned|].bytes
            else b'.returned == b.returned
  {
    var b' := BStep(b, e);
    if b'.at.Outside? {
      assert b'.returned == Texts(b'.s.posts);
    }
    hide Inv;
  }

  /** Otherwise the callback of an earlier call can run while the client sleeps, and the client
      returns with its own read still in progress. */
  lemma UnsettledReturnsEarly(b: Blocked, key: nat, kind: M.Kind, size: nat, timed: bool)
    requires BInv(b) && b.at.Outside? && |b.s.accepted| + 1 < M.ID_RANGE
    requires IsCallback(b.s.r, key) && !AtOnce(b.s.r, kind, size)
    ensures var b' := BExec(BStep(b, Call(kind, size, timed)), Early(key));
            && b'.at.Outside? && b'.s.r.id != 0 && |b'.returned| == |b.returned| + 1
            && |b'.s.accepted| < M.ID_RANGE && !Own(b, b')
  {
    hide KeptBytes;
    hide Concat;
    hide Lose;
    var b1 := BStep(b, Call(kind, size, timed));
    StillLive(b.s.r, key, kind, size, timed);
    assert |b.returned| == |b.s.posts|;
    assert b1.s.posts + [] == b1.s.posts;
    hide M.AsyncRead;
    hide Inv;
    RestReturnsEarly(b1, key);
    hide BExec;
  }

  /** Clears, tests, and goes to sleep; the callback `key` runs; wakes and returns. */
  function Early(key: nat): seq<BEvent> {
    [Clear, Test, Executor(Execute(key)), Wake, Test]
  }

  lemma StillLive(r: M.Reader, key: nat, kind: M.Kind, size: nat, timed: bool)
    requires r.id == 0 && OnlyReadCallbacks(r) && IsCallback(r, key) && !AtOnce(r, kind, size)
    requires r.counter + 1 < M.ID_RANGE && forall k :: k in r.pending ==> k < r.next
    ensures var r' := M.AsyncRead(r, kind, size, M.ReadCallback, timed).0;
            && r'.id != 0 && IsCallback(r', key) && r'.pending[key].cb.ReadCallback?
            && Posted(r, r', false) == []
  {
  }

  lemma RestReturnsEarly(b: Blocked, key: nat)
    requires |b.s.taken| == |b.s.fate| && b.at.Clearing? && b.s.r.id != 0
    requires IsCallback(b.s.r, key) && b.s.r.pending[key].cb.ReadCallback?
    ensures var b' := BExec(b, Early(key));
            && b'.at.Outside? && b'.s.r.id != 0 && |b'.returned| == |b.returned| + 1
            && b'.s.posts == b.s.posts && b'.s.accepted == b.s.accepted
  {
    hide Lose;
    hide Concat;
    var es := Early(key);
    var b1 := BStep(b, Clear);
    var b2 := BStep(b1, Test);
    var b3 := BStep(b2, Executor(Execute(key)));
    var b4 := BStep(b3, Wake);
    var b5 := BStep(b4, Test);
    assert b2.at.Asleep? && b2.returned == b.returned && b2.s.posts == b.s.posts;
    assert b3.s.r.notified && b3.s.r.id == b.s.r.id && b3.s.posts == b2.s.posts + [] == b.s.posts;
    hide BStep;
    assert es[1..] == [Test, Executor(Execute(key)), Wake, Test]
        && es[1..][1..] == [Executor(Execute(key)), Wake, Test];
    assert BExec(b4, [Test]) == BExec(b5, []);
    assert BExec(b3, [Wake, Test]) == BExec(b4, [Test]);
    assert BExec(b2, [Executor(Execute(key)), Wake, Test]) == BExec(b3, [Wake, Test]);
    assert BExec(b1, es[1..]) == BExec(b2, es[1..][1..]);
  }

  /** A call that times out leaves such a callback: its timer notifies the client, which returns
      before the callback has run. */
  const TimesOut: seq<BEvent> := [Call(M.Exact, 1, true), Clear, Executor(Execute(0)), Test]

  lemma TimeoutLeavesCallback()
    ensures var b := BExec(Quiet, TimesOut);
            BInv(b) && b.at.Outside? && |b.s.accepted| == 1 && IsCallback(b.s.r, 2) && b.s.r.residue == []
  {
    QuietInv();
    TimesOutStates();
    hide BStep;
    var es := TimesOut;
    var b1 := BStep(Quiet, es[0]);
    var b2 := BStep(b1, es[1]);
    var b3 := BStep(b2, es[2]);
    assert NoCallback(Quiet.s.r);
    hide BInv;
    BStepKeeps(Quiet, es[0]);
    BStepKeeps(b1, es[1]);
    BStepKeeps(b2, es[2]);
    BStepKeeps(b3, es[3]);
    FourSteps(Quiet, es[0], es[1], es[2], es[3]);
  }

  lemma FourSteps(b: Blocked, e1: BEvent, e2: BEvent, e3: BEvent, e4: BEvent)
    requires |b.s.taken| == |b.s.fate| && |BStep(b, e1).s.taken| == |BStep(b, e1).s.fate|
    requires var b2 := BStep(BStep(b, e1), e2);
             |b2.s.taken| == |b2.s.fate| && |BStep(b2, e3).s.taken| == |BStep(b2, e3).s.fate|
    ensures BExec(b, [e1, e2, e3, e4]) == BStep(BStep(BStep(BStep(b, e1), e2), e3), e4)
  {
    var b1 := BStep(b, e1);
    var b2 := BStep(b1, e2);
    var b3 := BStep(b2, e3);
    BStepGrows(b3, e4);
    hide BStep;
    assert [e1, e2, e3, e4][1..] == [e2, e3, e4] && [e2, e3, e4][1..] == [e3, e4] && [e3, e4][1..] == [e4]
        && [e4][1..] == [];
    assert BExec(b3, [e4]) == BExec(BStep(b3, e4), []);
    assert BExec(b2, [e3, e4]) == BExec(b3, [e4]);
    assert BExec(b1, [e2, e3, e4]) == BExec(b2, [e3, e4]);
  }

  lemma TimesOutStates()
    ensures var b1 := BStep(Quiet, Call(M.Exact, 1, true));
            && |b1.s.taken| == |b1.s.fate| && |b1.s.accepted| == 1
            && var b2 := BStep(b1, Clear);
            && |b2.s.taken| == |b2.s.fate| && b2.at.Testing? && |b2.s.accepted| == 1
            && var b3 := BStep(b2, Executor(Execute(0)));
            && |b3.s.taken| == |b3.s.fate| && |b3.s.accepted| == 1 && b3.at.Testing?
            && var b4 := BStep(b3, Test);
            b4.at.Outside? && |b4.s.accepted| == 1 && IsCallback(b4.s.r, 2) && b4.s.r.residue == []
  {
    hide Lose;
    hide Concat;
    var b1 := BStep(Quiet, Call(M.Exact, 1, true));
    assert b1.s.r.pending == map[0 := M.Timer(1), 1 := M.Op(1, M.Exact, 1, false)] && b1.s.r.id == 1
        && b1.s.r.next == 2;
    var b2 := BStep(b1, Clear);
    var b3 := BStep(b2, Executor(Execute(0)));
    assert b3.s.r.notified && b3.s.r.id == 0 && b3.s.r.residue == [] && IsCallback(b3.s.r, 2);
  }

  /** From a new reader: a first call times out, and a second returns with its own read still in
      progress. */
  lemma SecondCallReturnsEarly(size: nat)
    ensures var b := BExec(Quiet, TimesOut);
            var b' := BExec(BStep(b, Call(M.Exact, size, false)), Early(2));
            b'.at.Outside? && b'.s.r.id != 0 && |b'.returned| == 2
  {
    TimeoutLeavesCallback();
    var b := BExec(Quiet, TimesOut);
    assert |b.returned| == |b.s.posts| == 1;
    hide BExec;
    hide BStep;
    UnsettledReturnsEarly(b, 2, M.Exact, size, false);
  }
}
