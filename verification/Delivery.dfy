/** What was written can always be delivered: from every reached state the two sides of a StringStream
    have a continuation in which all messages arrive. */
module Delivery {
  import opened Bytes
  import opened Fates
  import M = ReaderModel
  import opened ReaderSystem
  import opened ReaderInvariant
  import opened ReaderRuns
  import opened Framing
  import F = Effects
  import E = Errors
  import U = UntilCall
  import W = WriterModel
  import WR = WriterRuns
  import SS = StringStream
  import opened Loopback

  // ----- every operation is answered at once, without an error -----

  predicate Clean(r: M.Reader) {
    forall k :: k in r.pending ==> !r.pending[k].Op? && (r.pending[k].Done? ==> !r.pending[k].err)
  }

  /** But for the newest operation. */
  predicate Nearly(r: M.Reader) {
    forall k :: k in r.pending ==>
      && (r.pending[k].Op? ==> k == r.next - 1)
      && (r.pending[k].Done? ==> !r.pending[k].err)
  }

  /** The newest handler is an operation. */
  predicate Asking(r: M.Reader) {
    r.next > 0 && r.next - 1 in r.pending && r.pending[r.next - 1].Op?
  }

  lemma ExecuteNearly(s: Sys, key: nat)
    requires Inv(s) && Clean(s.r)
    ensures Nearly(Step(s, Execute(key)).r)
  {
    if Enabled(s, Execute(key)) {
      hide Lose; hide Concat; hide M.Act;
      var h := s.r.pending[key];
      E.ActTells(Pop(s.r, key), h);
      ActAsks(Pop(s.r, key), h);
      hide Inv; hide Posted;
    }
  }

  lemma ActAsks(r: M.Reader, h: M.Handler)
    requires !h.Op?
    ensures AsksNewest(r, M.Act(r, h))
  {
    if h.Done? {
      ContinueAsks(M.DumpCallback(r, h.chunk, h.err, h.dumping), h.id, h.kind, h.chunk, h.err);
    }
    hide M.Continue;
  }

  lemma AcceptNearly(s: Sys, kind: M.Kind, size: nat, cb: M.Callback, timed: bool)
    requires Inv(s) && Clean(s.r)
    ensures Nearly(Step(s, Accept(kind, size, cb, timed)).r)
  {
    if s.r.id == 0 {
      hide Lose; hide Concat; hide M.AsyncRead;
      E.AcceptTells(s.r, kind, size, cb, timed);
      AcceptAsks(s.r, kind, size, cb, timed);
      hide Inv; hide Posted;
    }
  }

  /** The newest operation is completed without an error. */
  lemma CompleteClean(s: Sys, chunk: seq<byte>)
    requires |s.taken| == |s.fate| && Nearly(s.r) && Asking(s.r) && |chunk| <= s.r.pending[s.r.next - 1].count
    ensures Clean(Step(s, Complete(s.r.next - 1, chunk, false)).r)
  {
  }

  lemma GetClean(l: Loop)
    requires Sized(l) && Nearly(l.rs.r)
    ensures Clean(Get(l).rs.r)
  {
    if Asking(l.rs.r) {
      CompleteClean(l.rs, l.ring[..SS.TakeCount(l.ring, l.rs.r.pending[l.rs.r.next - 1].count)]);
      hide Step;
    }
  }

  lemma PutClean(l: Loop)
    requires Sized(l) && W.WInv(l.ws) && Nearly(l.ws.books.r)
    ensures Clean(Put(l).ws.books.r)
  {
    var w := l.ws.w;
    if Asking(l.ws.books.r) {
      var n := SS.PutCount(l.ring, l.capacity, |w.offer[w.next - 1]|);
      WR.StepMirrors(l.ws, W.Take(w.next - 1, n, false));
      CompleteClean(l.ws.books, w.offer[w.next - 1][..n]);
      hide Step; hide W.Moved; hide Inv;
    }
  }

  ghost predicate BothClean(l: Loop) {
    Clean(l.ws.books.r) && Clean(l.rs.r)
  }

  /** What `Fifo` says of the two sides. */
  lemma Sides(l: Loop)
    requires Fifo(l) && Bounded(l)
    ensures W.WInv(l.ws) && Inv(l.rs) && WR.WReached(l.ws, l.wrote) && Reached(l.rs, l.read)
    ensures Reached(l.ws.books, WR.Mirrored(W.WStart, l.wrote))
  {
    WR.StartWInv();
    WR.WRunKeeps(W.WStart, l.wrote);
    WR.WriterRefinesReader(W.WStart, l.wrote);
    StartInv();
    RunKeeps(Start, l.read);
  }

  lemma WriterNearly(l: Loop, e: W.WEvent)
    requires Sized(l) && W.WInv(l.ws) && Clean(l.ws.books.r) && !e.Take?
    ensures Nearly(WriterDoes(l, e).ws.books.r)
  {
    if W.Possible(l.ws, e) {
      WR.StepMirrors(l.ws, e);
      match e
      case Write(whole, data, cb, timed) => AcceptNearly(l.ws.books, W.KindOf(whole), |data|, cb, timed);
      case Execute(k) => ExecuteNearly(l.ws.books, k);
      case SetDump(_) =>
    }
    hide Step; hide W.Moved; hide Inv;
  }

  lemma LStepClean(l: Loop, e: LEvent)
    requires Fifo(l) && Bounded(LStep(l, e)) && BothClean(l)
    ensures BothClean(LStep(l, e))
  {
    LStepGrows(l, e);
    Sides(l);
    LStepKeeps(l, e);
    hide Fifo; hide Get; hide Put;
    hide Clean; hide Nearly; hide Inv; hide Step; hide W.WStep;
    match e
    case Write(whole, data, cb, timed) =>
      var x := W.Write(whole, data, cb, timed);
      WriterNearly(l, x);
      WriterSide(l, x);
      PutClean(WriterDoes(l, x));
    case RunWriter(key) =>
      WriterNearly(l, W.Execute(key));
      WriterSide(l, W.Execute(key));
      PutClean(WriterDoes(l, W.Execute(key)));
    case Read(kind, size, cb, timed) =>
      AcceptNearly(l.rs, kind, size, cb, timed);
      GetClean(ReaderDoes(l, Accept(kind, size, cb, timed)));
    case RunReader(key) =>
      ExecuteNearly(l.rs, key);
      GetClean(ReaderDoes(l, Execute(key)));
  }

  lemma WriterSide(l: Loop, e: W.WEvent)
    requires Fifo(l) && !e.Take? && |Put(WriterDoes(l, e)).ws.messages| < M.ID_RANGE && |l.rs.accepted| < M.ID_RANGE
    ensures W.WInv(WriterDoes(l, e).ws)
  {
    WriterDoesKeeps(l, e);
    var l1 := WriterDoes(l, e);
    PutMessages(l1);
    Sides(l1);
    hide W.WStep;
  }

  lemma PutMessages(l: Loop)
    requires Sized(l)
    ensures Put(l).ws.messages == l.ws.messages && Put(l).rs == l.rs
  {
  }

  lemma {:induction false} LRunClean(l: Loop, es: seq<LEvent>)
    requires Fifo(l) && Bounded(LExec(l, es)) && BothClean(l)
    ensures BothClean(LExec(l, es))
    decreases |es|
  {
    if es != [] {
      LExecGrows(LStep(l, es[0]), es[1..]);
      LStepKeeps(l, es[0]);
      LStepClean(l, es[0]);
      hide LStep; hide BothClean; hide Fifo;
      LRunClean(LStep(l, es[0]), es[1..]);
    }
  }

  // ----- one turn of a side -----

  lemma FlightIs(s: Sys, key: nat)
    requires Inv(s) && Waiting(s.r, key)
    ensures InFlight(s.r) == Chunk(s.r.pending[key])
  {
  }

  /** A live side waits for a continuation, of a completion without an error. */
  lemma LiveDone(s: Sys) returns (k: nat)
    requires Inv(s) && s.r.id != 0 && Clean(s.r)
    ensures Waiting(s.r, k) && s.r.pending[k].Done? && !s.r.pending[k].err && InFlight(s.r) == s.r.pending[k].chunk
  {
    hide KeptBytes; hide Concat;
    k :| LiveAt(s, k);
    FlightIs(s, k);
  }

  /** What a continuation leaves when every completion but the newest has come. */
  lemma ContinueTurn(s: Sys, k: nat)
    requires Inv(s) && Clean(s.r) && s.r.id != 0 && Waiting(s.r, k) && s.r.pending[k].Done?
    ensures s.accepted != []
    ensures var q, chunk, s' := s.accepted[|s.accepted| - 1], s.r.pending[k].chunk, Step(s, Execute(k));
            var bytes := F.Added(s.r.held, q.kind, chunk);
            && Inv(s') && Nearly(s'.r) && s'.accepted == s.accepted && s'.taken == s.taken && |s'.taken| == |s'.fate|
            && (if F.Over(q, bytes, chunk, false) then
                  s'.r.id == 0 && s'.posts == s.posts + [Report(q.cb, false, bytes, false)] && !Asking(s'.r)
                else
                  && s'.r.id == s.r.id && s'.posts == s.posts && s'.r.held == bytes && Asking(s'.r)
                  && s'.r.pending[s'.r.next - 1] == M.Op(s.r.id, q.kind, q.size - |bytes|, s.r.dumpOn))
  {
    var s' := Step(s, Execute(k));
    StepKeepsBefore(s, Execute(k));
    ExecuteNearly(s, k);
    PostedNewest(s, k);
    StepSized(s, Execute(k));
    F.ContinueEffect(s, k);
    ExecuteTakesNothing(s, k);
    hide Inv; hide Step; hide F.Over; hide F.Added; hide Nearly; hide Clean; hide F.Outstanding; hide Asking;
    var q, bytes := s.accepted[|s.accepted| - 1], F.Added(s.r.held, s.accepted[|s.accepted| - 1].kind, s.r.pending[k].chunk);
    NewestIs(s'.r, s.r.id, q.kind, if |bytes| <= q.size then q.size - |bytes| else 0, s.r.dumpOn);
  }

  lemma ExecuteTakesNothing(s: Sys, k: nat)
    requires |s.taken| == |s.fate|
    ensures Step(s, Execute(k)).taken == s.taken
  {
  }

  /** If a callback was posted it is the newest handler. */
  lemma PostedNewest(s: Sys, k: nat)
    requires |s.taken| == |s.fate| && Enabled(s, Execute(k))
    ensures |Step(s, Execute(k)).posts| > |s.posts| ==> !Asking(Step(s, Execute(k)).r)
  {
    hide Lose; hide Concat; hide M.Run;
  }

  lemma AcceptNewest(s: Sys, e: Event)
    requires |s.taken| == |s.fate| && Enabled(s, e) && e.Accept?
    ensures |Step(s, e).posts| > |s.posts| ==> !Asking(Step(s, e).r)
  {
    hide Lose; hide Concat; hide M.AsyncRead;
  }

  /** The stream answers the newest operation with what it has, up to what was asked. */
  lemma GetTurn(l: Loop)
    requires Fifo(l) && Inv(l.rs) && Nearly(l.rs.r)
    ensures var l' := Get(l);
            && l'.ws == l.ws && l'.capacity == l.capacity && l'.rs.posts == l.rs.posts && l'.rs.accepted == l.rs.accepted
            && l'.rs.r.id == l.rs.r.id && l'.rs.r.held == l.rs.r.held && Inv(l'.rs) && |l'.rs.taken| == |l'.rs.fate|
            && l'.rs.r.requested == l.rs.r.requested
            && (if Asking(l.rs.r) then
                  var n := Min(l.rs.r.pending[l.rs.r.next - 1].count, |l.ring|);
                  && l'.ring == l.ring[n..] && l'.rs.taken == l.rs.taken + l.ring[..n]
                  && (Waiting(l.rs.r, l.rs.r.next - 1) ==> InFlight(l'.rs.r) == l.ring[..n])
                else l' == l)
  {
    if Asking(l.rs.r) {
      var k := l.rs.r.next - 1;
      var n := SS.TakeCount(l.ring, l.rs.r.pending[k].count);
      F.CompleteEffect(l.rs, k, l.ring[..n], false);
      StepKeepsBefore(l.rs, Complete(k, l.ring[..n], false));
      var s' := Step(l.rs, Complete(k, l.ring[..n], false));
      if Waiting(l.rs.r, k) {
        assert Waiting(s'.r, k);
        FlightIs(s', k);
      }
      RequestedStays(l.rs, k, l.ring[..n]);
      hide Step; hide Inv; hide InFlight;
    }
  }

  /** The same, with what the stream keeps. */
  lemma GetAnswers(l: Loop)
    requires Fifo(l) && Inv(l.rs) && Nearly(l.rs.r) && Clean(l.ws.books.r)
    ensures var l' := Get(l);
            && Fifo(l') && BothClean(l') && l'.ws == l.ws && l'.capacity == l.capacity
            && l'.rs.posts == l.rs.posts && l'.rs.accepted == l.rs.accepted
            && l'.rs.r.id == l.rs.r.id && l'.rs.r.held == l.rs.r.held
            && (if !Asking(l.rs.r) then l'.ring == l.ring && l'.rs.taken == l.rs.taken
                else
                  var n := Min(l.rs.r.pending[l.rs.r.next - 1].count, |l.ring|);
                  && l'.ring == l.ring[n..] && l'.rs.taken == l.rs.taken + l.ring[..n]
                  && (Waiting(l.rs.r, l.rs.r.next - 1) ==> InFlight(l'.rs.r) == l.ring[..n]))
  {
    GetTurn(l);
    GetKeeps(l);
    GetClean(l);
    hide Get; hide Fifo; hide Inv; hide InFlight; hide Nearly; hide Clean;
  }

  lemma RequestedStays(s: Sys, k: nat, chunk: seq<byte>)
    requires |s.taken| == |s.fate| && Enabled(s, Complete(k, chunk, false))
    ensures Step(s, Complete(k, chunk, false)).r.requested == s.r.requested
  {
  }

  /** A turn of the reader: its continuation ends the read, or takes from the stream as much as there
      is of what it lacks. */
  lemma ReaderTurn(l: Loop, k: nat)
    requires Fifo(l) && Bounded(l) && BothClean(l)
    requires l.rs.r.id != 0 && Waiting(l.rs.r, k) && l.rs.r.pending[k].Done?
    ensures l.rs.accepted != []
    ensures var q, chunk, l' := l.rs.accepted[|l.rs.accepted| - 1], l.rs.r.pending[k].chunk, LStep(l, RunReader(k));
            var bytes := F.Added(l.rs.r.held, q.kind, chunk);
            && Fifo(l') && BothClean(l') && l'.ws == l.ws && l'.rs.accepted == l.rs.accepted && l'.capacity == l.capacity
            && (if F.Over(q, bytes, chunk, false) then
                  && l'.rs.r.id == 0 && l'.rs.posts == l.rs.posts + [Report(q.cb, false, bytes, false)]
                  && l'.ring == l.ring && l'.rs.taken == l.rs.taken
                else
                  && l'.rs.r.id == l.rs.r.id && l'.rs.posts == l.rs.posts && l'.rs.r.held == bytes && |bytes| < q.size
                  && var n := Min(q.size - |bytes|, |l.ring|);
                     && InFlight(l'.rs.r) == l.ring[..n] && l'.ring == l.ring[n..]
                     && l'.rs.taken == l.rs.taken + l.ring[..n])
  {
    ReaderRan(l, k);
    var l1 := ReaderDoes(l, Execute(k));
    GetAnswers(l1);
    assert LStep(l, RunReader(k)) == Get(l1);
    hide LStep; hide ReaderDoes; hide Get; hide Fifo; hide Bounded; hide Inv; hide F.Over; hide F.Added; hide InFlight;
    hide Nearly; hide Clean; hide BothClean;
  }

  lemma ReaderDoesOnly(l: Loop, e: Event)
    requires Sized(l)
    ensures var l1 := ReaderDoes(l, e);
            l1.rs == Step(l.rs, e) && l1.ws == l.ws && l1.ring == l.ring && l1.capacity == l.capacity
  {
  }

  /** The continuation, before the stream answers. */
  ghost predicate ReaderGone(l: Loop, l1: Loop, k: nat)
    requires l.rs.accepted != [] && k in l.rs.r.pending && l.rs.r.pending[k].Done?
  {
    var q, chunk, r1 := l.rs.accepted[|l.rs.accepted| - 1], l.rs.r.pending[k].chunk, l1.rs.r;
    var bytes := F.Added(l.rs.r.held, q.kind, chunk);
    && Fifo(l1) && Inv(l1.rs) && Nearly(r1) && Clean(l1.ws.books.r) && l1.ws == l.ws && l1.ring == l.ring
    && l1.capacity == l.capacity && l1.rs.accepted == l.rs.accepted && l1.rs.taken == l.rs.taken
    && (if F.Over(q, bytes, chunk, false) then
          r1.id == 0 && l1.rs.posts == l.rs.posts + [Report(q.cb, false, bytes, false)] && !Asking(r1)
        else
          && r1.id == l.rs.r.id != 0 && l1.rs.posts == l.rs.posts && r1.held == bytes && Asking(r1)
          && |bytes| < q.size && Waiting(r1, r1.next - 1) && r1.pending[r1.next - 1].count == q.size - |bytes|)
  }

  lemma ReaderSide(l: Loop, e: Event)
    requires Fifo(l) && Bounded(l) && BothClean(l) && !e.Complete?
    ensures var l1 := ReaderDoes(l, e);
            && Fifo(l1) && Inv(l.rs) && Clean(l.rs.r) && Clean(l1.ws.books.r) && l1.rs == Step(l.rs, e)
            && l1.ws == l.ws && l1.ring == l.ring && l1.capacity == l.capacity
  {
    Sides(l);
    ReaderDoesKeeps(l, e);
    ReaderDoesOnly(l, e);
    hide Inv; hide Step; hide Fifo; hide Clean; hide ReaderDoes; hide W.WInv;
  }

  lemma ReaderRan(l: Loop, k: nat)
    requires Fifo(l) && Bounded(l) && BothClean(l)
    requires l.rs.r.id != 0 && Waiting(l.rs.r, k) && l.rs.r.pending[k].Done?
    ensures l.rs.accepted != [] && ReaderGone(l, ReaderDoes(l, Execute(k)), k)
  {
    ReaderSide(l, Execute(k));
    hide Inv; hide Step; hide F.Over; hide F.Added; hide Fifo; hide Nearly; hide Clean; hide ReaderDoes;
    hide BothClean; hide Bounded;
    ContinueTurn(l.rs, k);
    var q, chunk := l.rs.accepted[|l.rs.accepted| - 1], l.rs.r.pending[k].chunk;
    OverOrLess(q, F.Added(l.rs.r.held, q.kind, chunk), chunk);
  }

  lemma OverOrLess(q: Request, bytes: seq<byte>, chunk: seq<byte>)
    ensures !F.Over(q, bytes, chunk, false) ==> |bytes| < q.size
  {
  }

  /** A turn of the reader when it is idle: a read-until is answered from the residue, or takes from the
      stream as much as there is of what it asks for. */
  lemma AskTurn(l: Loop, d: byte, max: nat, cb: M.Callback)
    requires Fifo(l) && Bounded(l) && BothClean(l) && l.rs.r.id == 0 && |l.rs.accepted| + 1 < M.ID_RANGE
    ensures var l', stop := LStep(l, Read(M.Until(d), max, cb, false)), M.FirstStop(l.rs.r.residue, d, max, 0);
            && Fifo(l') && BothClean(l') && l'.ws == l.ws && l'.capacity == l.capacity
            && l'.rs.accepted == l.rs.accepted + [Request(M.Until(d), max, cb, false, |l.rs.r.residue|)]
            && (if stop > 0 then
                  && l'.rs.r.id == 0 && l'.rs.posts == l.rs.posts + [Report(cb, false, l.rs.r.residue[..stop], false)]
                  && l'.ring == l.ring && l'.rs.taken == l.rs.taken
                else
                  && l'.rs.r.id != 0 && l'.rs.posts == l.rs.posts && l'.rs.r.held == l.rs.r.residue
                  && var n := Min(max, |l.ring|);
                     && InFlight(l'.rs.r) == l.ring[..n] && l'.ring == l.ring[n..]
                     && l'.rs.taken == l.rs.taken + l.ring[..n])
  {
    AskRan(l, d, max, cb);
    var l1 := ReaderDoes(l, Accept(M.Until(d), max, cb, false));
    GetAnswers(l1);
    assert LStep(l, Read(M.Until(d), max, cb, false)) == Get(l1);
    hide LStep; hide ReaderDoes; hide Get; hide Fifo; hide Bounded; hide Inv; hide InFlight; hide M.FirstStop;
    hide Nearly; hide Clean; hide BothClean;
  }

  /** The request, before the stream answers. */
  lemma AskRan(l: Loop, d: byte, max: nat, cb: M.Callback)
    requires Fifo(l) && Bounded(l) && BothClean(l) && l.rs.r.id == 0 && |l.rs.accepted| + 1 < M.ID_RANGE
    ensures var l1 := ReaderDoes(l, Accept(M.Until(d), max, cb, false));
            var stop := M.FirstStop(l.rs.r.residue, d, max, 0);
            && Fifo(l1) && Inv(l1.rs) && Nearly(l1.rs.r) && Clean(l1.ws.books.r) && l1.ws == l.ws && l1.ring == l.ring
            && l1.capacity == l.capacity && l1.rs.taken == l.rs.taken
            && l1.rs.accepted == l.rs.accepted + [Request(M.Until(d), max, cb, false, |l.rs.r.residue|)]
            && (if stop > 0 then
                  && l1.rs.r.id == 0 && !Asking(l1.rs.r)
                  && l1.rs.posts == l.rs.posts + [Report(cb, false, l.rs.r.residue[..stop], false)]
                else
                  && l1.rs.r.id != 0 && l1.rs.posts == l.rs.posts && l1.rs.r.held == l.rs.r.residue && Asking(l1.rs.r)
                  && Waiting(l1.rs.r, l1.rs.r.next - 1) && l1.rs.r.pending[l1.rs.r.next - 1].count == max)
  {
    var e := Accept(M.Until(d), max, cb, false);
    ReaderSide(l, e);
    hide Inv; hide Step; hide M.FirstStop; hide F.Outstanding; hide Fifo; hide Nearly; hide Clean; hide ReaderDoes;
    hide BothClean; hide Bounded; hide Asking;
    F.AcceptEffect(l.rs, M.Until(d), max, cb, false);
    StepKeepsBefore(l.rs, e);
    AcceptNearly(l.rs, M.Until(d), max, cb, false);
    AcceptNewest(l.rs, e);
    NewestIs(ReaderDoes(l, e).rs.r, |l.rs.accepted| + 1, M.Until(d), max, l.rs.r.dumpOn);
  }

  lemma NewestIs(r: M.Reader, id: nat, kind: M.Kind, count: nat, dumping: bool)
    requires Nearly(r)
    ensures F.Outstanding(r, M.Op(id, kind, count, dumping)) ==>
              Asking(r) && r.pending[r.next - 1] == M.Op(id, kind, count, dumping)
  {
  }

  /** The stream takes what there is room for of what the writer has just offered. */
  lemma PutTurn(l: Loop)
    requires Fifo(l) && Bounded(l) && W.WInv(l.ws) && Nearly(l.ws.books.r)
    ensures var l' := Put(l);
            && l'.rs == l.rs && l'.capacity == l.capacity && l'.ws.messages == l.ws.messages
            && l'.ws.books.posts == l.ws.books.posts && l'.ws.books.accepted == l.ws.books.accepted
            && l'.ws.w.id == l.ws.w.id
            && (if Asking(l.ws.books.r) then
                  var n := Min(l.ws.books.r.pending[l.ws.books.r.next - 1].count, l.capacity - |l.ring|);
                  |l'.ring| == |l.ring| + n && |l'.ws.books.taken| == |l.ws.books.taken| + n
                else l' == l)
  {
    var w := l.ws.w;
    if Asking(l.ws.books.r) {
      var k := w.next - 1;
      assert k in w.offer && |w.offer[k]| == w.pending[k].count && |l.ring| <= l.capacity;
      var n := SS.PutCount(l.ring, l.capacity, |w.offer[k]|);
      TakeEffect(l.ws, k, n);
      hide W.WStep; hide W.WInv; hide Fifo; hide Bounded; hide Nearly;
    }
  }

  lemma TakeEffect(s: W.WSys, k: nat, n: nat)
    requires W.WInv(s) && k in s.w.pending && s.w.pending[k].Op? && k in s.w.offer && n <= |s.w.offer[k]|
    ensures |s.books.taken| == |s.books.fate|
    ensures var s' := W.WStep(s, W.Take(k, n, false));
            && s'.messages == s.messages && s'.books.posts == s.books.posts && s'.books.accepted == s.books.accepted
            && s'.w.id == s.w.id && |s'.books.taken| == |s.books.taken| + n
  {
    WR.StepMirrors(s, W.Take(k, n, false));
    assert |s.w.offer[k]| == s.w.pending[k].count && s.books.r.pending == s.w.pending;
    F.CompleteEffect(s.books, k, s.w.offer[k][..n], false);
    hide Step; hide Inv;
  }

  /** A turn of the writer: its continuation ends the write, or the stream takes as much as it has room
      for of what the write still lacks. */
  lemma WriterTurn(l: Loop, k: nat)
    requires Fifo(l) && Bounded(l) && BothClean(l)
    requires l.ws.w.id != 0 && Waiting(l.ws.books.r, k) && l.ws.books.r.pending[k].Done?
    ensures l.ws.books.accepted != []
    ensures var q, chunk := l.ws.books.accepted[|l.ws.books.accepted| - 1], l.ws.books.r.pending[k].chunk;
            var l' := LStep(l, RunWriter(k));
            var bytes := F.Added(l.ws.books.r.held, q.kind, chunk);
            && Fifo(l') && BothClean(l') && l'.rs == l.rs && l'.capacity == l.capacity
            && l'.ws.messages == l.ws.messages && l'.ws.books.accepted == l.ws.books.accepted
            && (if F.Over(q, bytes, chunk, false) then
                  && l'.ws.w.id == 0 && l'.ws.books.posts == l.ws.books.posts + [Report(q.cb, false, bytes, false)]
                  && l'.ring == l.ring && l'.ws.books.taken == l.ws.books.taken
                else
                  && l'.ws.w.id == l.ws.w.id && l'.ws.books.posts == l.ws.books.posts && |bytes| < q.size
                  && var n := Min(q.size - |bytes|, l.capacity - |l.ring|);
                     |l'.ring| == |l.ring| + n && |l'.ws.books.taken| == |l.ws.books.taken| + n)
  {
    WriterRan(l, k);
    var l1 := WriterDoes(l, W.Execute(k));
    PutTurn(l1);
    PutKeeps(l1);
    PutClean(l1);
    assert LStep(l, RunWriter(k)) == Put(l1);
    hide LStep; hide WriterDoes; hide Put; hide Fifo; hide Bounded; hide F.Over; hide F.Added; hide Nearly; hide Clean;
    hide W.WInv;
  }

  /** The continuation, before the stream answers. */
  ghost predicate WriterGone(l: Loop, l1: Loop, k: nat)
    requires l.ws.books.accepted != [] && k in l.ws.books.r.pending && l.ws.books.r.pending[k].Done?
  {
    var books, books1 := l.ws.books, l1.ws.books;
    var q, chunk := books.accepted[|books.accepted| - 1], books.r.pending[k].chunk;
    var bytes := F.Added(books.r.held, q.kind, chunk);
    && Fifo(l1) && Bounded(l1) && W.WInv(l1.ws) && Nearly(books1.r) && Clean(l1.rs.r) && l1.rs == l.rs
    && l1.ring == l.ring && l1.capacity == l.capacity && l1.ws.messages == l.ws.messages
    && books1.accepted == books.accepted && books1.taken == books.taken
    && (if F.Over(q, bytes, chunk, false) then
          l1.ws.w.id == 0 && books1.posts == books.posts + [Report(q.cb, false, bytes, false)] && !Asking(books1.r)
        else
          && l1.ws.w.id == l.ws.w.id && books1.posts == books.posts && Asking(books1.r) && |bytes| < q.size
          && books1.r.pending[books1.r.next - 1].count == q.size - |bytes|)
  }

  lemma WriterKept(l: Loop, k: nat)
    requires Fifo(l) && Bounded(l) && BothClean(l) && Waiting(l.ws.books.r, k) && l.ws.books.r.pending[k].Done?
    ensures var l1 := WriterDoes(l, W.Execute(k));
            && Fifo(l1) && Bounded(l1) && W.WInv(l1.ws) && Inv(l.ws.books) && Clean(l.ws.books.r) && Clean(l1.rs.r)
            && l.ws.w.id == l.ws.books.r.id && l1.ws.w.id == l1.ws.books.r.id
            && l1.ws.books == Step(l.ws.books, Execute(k)) && l1.ws.messages == l.ws.messages && l1.rs == l.rs
            && l1.ring == l.ring && l1.capacity == l.capacity
  {
    Sides(l);
    WriterExecutes(l, k);
    WR.WStepKeepsBefore(l.ws, W.Execute(k));
    WriterDoesKeeps(l, W.Execute(k));
    hide W.WStep; hide Inv; hide Step; hide Fifo; hide Clean; hide WriterDoes; hide W.Offers; hide W.Matches;
  }

  lemma WriterRan(l: Loop, k: nat)
    requires Fifo(l) && Bounded(l) && BothClean(l)
    requires l.ws.w.id != 0 && Waiting(l.ws.books.r, k) && l.ws.books.r.pending[k].Done?
    ensures l.ws.books.accepted != [] && WriterGone(l, WriterDoes(l, W.Execute(k)), k)
  {
    WriterKept(l, k);
    hide W.WInv; hide Inv; hide Step; hide F.Over; hide F.Added; hide Fifo; hide Nearly; hide Clean;
    hide WriterDoes; hide BothClean;
    ContinueTurn(l.ws.books, k);
    var q, chunk := l.ws.books.accepted[|l.ws.books.accepted| - 1], l.ws.books.r.pending[k].chunk;
    OverOrLess(q, F.Added(l.ws.books.r.held, q.kind, chunk), chunk);
  }

  lemma WriterExecutes(l: Loop, k: nat)
    requires Sized(l) && W.WInv(l.ws) && k in l.ws.w.pending && !l.ws.w.pending[k].Op?
    ensures var l1 := WriterDoes(l, W.Execute(k));
            && l1.ws.books == Step(l.ws.books, Execute(k)) && l1.ws.messages == l.ws.messages && l1.rs == l.rs
            && l1.ring == l.ring && l1.capacity == l.capacity && W.Possible(l.ws, W.Execute(k))
            && l1.ws.w.id == l1.ws.books.r.id
  {
    WR.StepMirrors(l.ws, W.Execute(k));
    hide Step; hide Inv; hide W.Moved;
  }

  // ----- a read-until always lacks something -----

  predicate Lacks(r: M.Reader, max: nat) {
    r.id != 0 ==> |r.held| < max
  }

  predicate SizedUntil(accepted: seq<Request>, d: byte, max: nat) {
    forall i :: 0 <= i < |accepted| ==> accepted[i].kind == M.Until(d) && accepted[i].size == max
  }

  lemma AcceptLacks(s: Sys, d: byte, max: nat, cb: M.Callback, timed: bool)
    requires Inv(s) && s.r.id == 0 && |s.accepted| + 1 < M.ID_RANGE && max > 0
    ensures Lacks(Step(s, Accept(M.Until(d), max, cb, timed)).r, max)
  {
    F.AcceptEffect(s, M.Until(d), max, cb, timed);
    NoStopShort(s.r.residue, d, max);
    hide Step; hide Inv; hide M.FirstStop; hide F.Outstanding;
  }

  lemma NoStopShort(s: seq<byte>, d: byte, max: nat)
    requires max > 0
    ensures M.FirstStop(s, d, max, 0) == 0 ==> |s| < max
  {
    M.FirstStopSpec(s, d, max, 0);
    if M.FirstStop(s, d, max, 0) == 0 && s != [] {
      assert s[|s| - 1] != d && |s| - 1 + 1 < max;
    }
  }

  lemma StepLacks(s: Sys, e: Event, d: byte, max: nat)
    requires Inv(s) && Lacks(s.r, max) && max > 0 && SizedUntil(s.accepted, d, max)
    requires |Step(s, e).accepted| < M.ID_RANGE && (Enabled(s, e) && e.Accept? ==> e.kind == M.Until(d) && e.size == max)
    ensures Lacks(Step(s, e).r, max)
  {
    if Enabled(s, e) {
      if e.Accept? {
        AcceptGrows(s, e);
        AcceptLacks(s, d, max, e.cb, e.timed);
      } else if s.r.id != 0 {
        U.Progress(s, e);
        RequestedIs(s);
      } else {
        IdleStep(s, e);
      }
    }
    hide Step; hide Inv;
  }

  lemma AcceptGrows(s: Sys, e: Event)
    requires |s.taken| == |s.fate| && e.Accept? && Enabled(s, e)
    ensures |Step(s, e).accepted| == |s.accepted| + 1
  {
  }

  lemma RequestedIs(s: Sys)
    requires Inv(s) && s.r.id != 0
    ensures s.accepted != [] && s.r.requested == s.accepted[|s.accepted| - 1].size
  {
    hide KeptBytes; hide Concat;
    var live :| LiveAt(s, live);
  }

  lemma {:induction false} RunLacks(s: Sys, es: seq<Event>, d: byte, max: nat)
    requires Inv(s) && Lacks(s.r, max) && max > 0
    requires |Exec(s, es).accepted| < M.ID_RANGE && SizedUntil(Exec(s, es).accepted, d, max)
    ensures Lacks(Exec(s, es).r, max)
    decreases |es|
  {
    if es != [] {
      HistoryGrows(Step(s, es[0]), es[1..]);
      StepKeeps(s, es[0]);
      StepSizedUntil(s, es[0], Exec(s, es).accepted, d, max);
      hide Step; hide Inv; hide SizedUntil;
      StepLacks(s, es[0], d, max);
      RunLacks(Step(s, es[0]), es[1..], d, max);
    }
  }

  lemma StepSizedUntil(s: Sys, e: Event, accepted: seq<Request>, d: byte, max: nat)
    requires |s.taken| == |s.fate| && Step(s, e).accepted <= accepted && SizedUntil(accepted, d, max)
    ensures SizedUntil(s.accepted, d, max)
    ensures Enabled(s, e) && e.Accept? ==> e.kind == M.Until(d) && e.size == max
  {
    hide Lose; hide Concat; hide M.Run; hide M.AsyncRead;
    var s1 := Step(s, e);
    assert s.accepted <= s1.accepted;
    assert forall i :: 0 <= i < |s1.accepted| ==> s1.accepted[i] == accepted[i];
    if Enabled(s, e) && e.Accept? {
      assert s1.accepted[|s.accepted|] == Request(e.kind, e.size, e.cb, e.timed, |s.r.residue|);
    }
  }

  // ----- nearer with every turn -----

  /** A reached state in which whole writes and read-untils have been made, and none was cut short. */
  ghost predicate Going(l: Loop, d: byte, max: nat) {
    && Fifo(l) && Bounded(l) && BothClean(l) && l.capacity > 0 && max > 0 && d < 128
    && WR.OnlyWhole(l.ws) && OnlyUntil(l.rs, d, max) && Lacks(l.rs.r, max)
  }

  ghost function Flight(l: Loop): nat {
    if l.rs.r.id == 0 then 0 else |InFlight(l.rs.r)|
  }

  /** How far each byte still has to go: to be written, taken, handled and delivered. */
  ghost function Distance(l: Loop): int {
    4 * (|Concat(l.ws.messages)| - |l.ws.books.taken|) + 3 * |l.ring| + Flight(l)
    + |l.rs.taken| - |Delivered(l.rs.posts)|
    + (if l.rs.r.id == 0 then 1 else 0) + (if l.ws.w.id != 0 then 1 else 0)
  }

  lemma DistanceBound(l: Loop, d: byte, max: nat)
    requires Going(l, d, max)
    ensures 0 <= Distance(l) <= 4 * |Concat(l.ws.messages)| + 2
  {
    Sides(l);
    hide Inv; hide Exec; hide W.WExec; hide Concat;
    UntilWhole(l.rs, l.read, d, max);
    WR.WriterOrder(l.ws, l.wrote);
  }

  predicate Finished(l: Loop, flight: nat) {
    l.ws.w.id == 0 && l.ring == [] && l.rs.r.id != 0 && flight == 0
  }

  ghost predicate Nearer(l: Loop, l': Loop, d: byte, max: nat) {
    && Going(l', d, max) && l'.ws.messages == l.ws.messages && Distance(l') < Distance(l)
    && |l'.rs.accepted| + Distance(l') <= |l.rs.accepted| + Distance(l)
  }

  lemma UntilSnoc(s: Sys, s': Sys, d: byte, max: nat, p: Report)
    requires OnlyUntil(s, d, max) && s'.accepted == s.accepted && !CutShort(p)
    requires s'.posts == s.posts || s'.posts == s.posts + [p]
    ensures OnlyUntil(s', d, max)
  {
  }

  /** The reader has something to handle, or to take. */
  lemma ReaderNearer(l: Loop, d: byte, max: nat) returns (e: LEvent)
    requires Going(l, d, max) && l.rs.r.id != 0 && (InFlight(l.rs.r) != [] || l.ring != [])
    ensures e.RunReader? && Nearer(l, LStep(l, e), d, max)
  {
    Sides(l);
    var k := LiveDone(l.rs);
    e := RunReader(k);
    ReaderGoing(l, k, d, max);
    ReaderDistance(l, k, d, max);
    hide LStep; hide Going; hide Distance;
  }

  lemma ReaderGoing(l: Loop, k: nat, d: byte, max: nat)
    requires Going(l, d, max) && l.rs.r.id != 0 && Waiting(l.rs.r, k) && l.rs.r.pending[k].Done?
    ensures Going(LStep(l, RunReader(k)), d, max)
    ensures var l' := LStep(l, RunReader(k)); l'.ws == l.ws && l'.rs.accepted == l.rs.accepted
  {
    ReaderTurn(l, k);
    var q, chunk, l' := l.rs.accepted[|l.rs.accepted| - 1], l.rs.r.pending[k].chunk, LStep(l, RunReader(k));
    var p := Report(q.cb, false, F.Added(l.rs.r.held, q.kind, chunk), false);
    UntilSnoc(l.rs, l'.rs, d, max, p);
    assert q.size == max;
    hide LStep; hide F.Added; hide F.Over; hide BothClean; hide Fifo; hide InFlight; hide Concat; hide OnlyUntil;
    hide WR.OnlyWhole;
  }

  lemma ReaderDistance(l: Loop, k: nat, d: byte, max: nat)
    requires Going(l, d, max) && l.rs.r.id != 0 && Waiting(l.rs.r, k) && l.rs.r.pending[k].Done?
    requires InFlight(l.rs.r) == l.rs.r.pending[k].chunk && (InFlight(l.rs.r) != [] || l.ring != [])
    ensures Distance(LStep(l, RunReader(k))) < Distance(l)
  {
    ReaderTurn(l, k);
    var q, chunk, l' := l.rs.accepted[|l.rs.accepted| - 1], l.rs.r.pending[k].chunk, LStep(l, RunReader(k));
    var bytes := F.Added(l.rs.r.held, q.kind, chunk);
    AddedSize(l.rs.r.held, q, chunk);
    assert q.size == max && q.kind.Until? && |l.rs.r.held| < max;
    hide Going; hide LStep; hide F.Added; hide BothClean; hide Fifo; hide InFlight; hide Concat; hide OnlyUntil;
    if F.Over(q, bytes, chunk, false) {
      DeliveredSnoc(l.rs.posts, Report(q.cb, false, bytes, false));
    }
    hide F.Over; hide Delivered;
  }

  lemma AddedSize(held: seq<byte>, q: Request, chunk: seq<byte>)
    ensures |held| <= |F.Added(held, q.kind, chunk)| && (chunk != [] ==> |F.Added(held, q.kind, chunk)| > |held|)
    ensures q.kind.Until? && chunk == [] && |held| < q.size ==> !F.Over(q, F.Added(held, q.kind, chunk), chunk, false)
  {
  }

  /** The reader is idle: it asks. */
  lemma AskNearer(l: Loop, d: byte, max: nat) returns (e: LEvent)
    requires Going(l, d, max) && l.rs.r.id == 0 && |l.rs.accepted| + 1 < M.ID_RANGE
    ensures e == Read(M.Until(d), max, M.ReadCallback, false) && Nearer(l, LStep(l, e), d, max)
  {
    e := Read(M.Until(d), max, M.ReadCallback, false);
    AskGoing(l, d, max);
    AskDistance(l, d, max);
    hide LStep; hide Going; hide Distance;
  }

  lemma AskGoing(l: Loop, d: byte, max: nat)
    requires Going(l, d, max) && l.rs.r.id == 0 && |l.rs.accepted| + 1 < M.ID_RANGE
    ensures var l' := LStep(l, Read(M.Until(d), max, M.ReadCallback, false));
            Going(l', d, max) && l'.ws == l.ws && |l'.rs.accepted| == |l.rs.accepted| + 1
  {
    AskTurn(l, d, max, M.ReadCallback);
    NoStopShort(l.rs.r.residue, d, max);
    var stop, l' := M.FirstStop(l.rs.r.residue, d, max, 0), LStep(l, Read(M.Until(d), max, M.ReadCallback, false));
    var p := Report(M.ReadCallback, false, l.rs.r.residue[..stop], false);
    UntilSnoc(l.rs, l.rs.(posts := l'.rs.posts), d, max, p);
    var q := Request(M.Until(d), max, M.ReadCallback, false, |l.rs.r.residue|);
    AskedUntil(l.rs.(posts := l'.rs.posts), l'.rs, d, max, q);
    hide LStep; hide BothClean; hide Fifo; hide InFlight; hide Concat; hide M.FirstStop; hide OnlyUntil;
    hide WR.OnlyWhole;
  }

  lemma AskedUntil(s: Sys, s': Sys, d: byte, max: nat, q: Request)
    requires OnlyUntil(s, d, max) && s'.posts == s.posts && s'.accepted == s.accepted + [q]
    requires q.kind == M.Until(d) && q.size == max
    ensures OnlyUntil(s', d, max)
  {
  }

  lemma AskDistance(l: Loop, d: byte, max: nat)
    requires Going(l, d, max) && l.rs.r.id == 0 && |l.rs.accepted| + 1 < M.ID_RANGE
    ensures Distance(LStep(l, Read(M.Until(d), max, M.ReadCallback, false))) < Distance(l)
  {
    AskTurn(l, d, max, M.ReadCallback);
    var stop := M.FirstStop(l.rs.r.residue, d, max, 0);
    hide Going; hide LStep; hide BothClean; hide Fifo; hide InFlight; hide Concat; hide M.FirstStop;
    if stop > 0 {
      DeliveredSnoc(l.rs.posts, Report(M.ReadCallback, false, l.rs.r.residue[..stop], false));
    }
    hide Delivered;
  }

  /** All that was taken is handled, and the writer is not done. */
  lemma WriterNearer(l: Loop, d: byte, max: nat) returns (e: LEvent)
    requires Going(l, d, max) && l.ws.w.id != 0 && l.ring == []
    ensures e.RunWriter? && Nearer(l, LStep(l, e), d, max)
  {
    Sides(l);
    var k := LiveDone(l.ws.books);
    e := RunWriter(k);
    WriterGoing(l, k, d, max);
    hide LStep; hide Going; hide Distance;
  }

  lemma WriterGoing(l: Loop, k: nat, d: byte, max: nat)
    requires Going(l, d, max) && l.ws.w.id != 0 && l.ring == []
    requires Waiting(l.ws.books.r, k) && l.ws.books.r.pending[k].Done?
    ensures var l' := LStep(l, RunWriter(k));
            && Going(l', d, max) && l'.ws.messages == l.ws.messages && l'.rs == l.rs && Distance(l') < Distance(l)
  {
    WriterTurn(l, k);
    var q, chunk := l.ws.books.accepted[|l.ws.books.accepted| - 1], l.ws.books.r.pending[k].chunk;
    var l' := LStep(l, RunWriter(k));
    var p := Report(q.cb, false, F.Added(l.ws.books.r.held, q.kind, chunk), false);
    hide LStep; hide F.Added; hide F.Over; hide BothClean; hide Fifo; hide InFlight; hide Concat; hide Delivered;
    hide OnlyUntil;
    WholeSnoc(l.ws, l'.ws, p);
    hide WR.OnlyWhole;
  }

  lemma WholeSnoc(s: W.WSys, s': W.WSys, p: Report)
    requires WR.OnlyWhole(s) && s'.books.accepted == s.books.accepted && !CutShort(p)
    requires s'.books.posts == s.books.posts || s'.books.posts == s.books.posts + [p]
    ensures WR.OnlyWhole(s')
  {
  }

  lemma {:induction false} Deliver(l: Loop, d: byte, max: nat) returns (es: seq<LEvent>)
    requires Going(l, d, max) && |l.rs.accepted| + Distance(l) < M.ID_RANGE
    ensures var l' := LExec(l, es);
            Going(l', d, max) && l'.ws.messages == l.ws.messages && Finished(l', Flight(l'))
    ensures forall i :: 0 <= i < |es| ==>
              es[i].RunReader? || es[i].RunWriter? || es[i] == Read(M.Until(d), max, M.ReadCallback, false)
    decreases Distance(l)
  {
    DistanceBound(l, d, max);
    if Finished(l, Flight(l)) {
      es := [];
    } else {
      var e: LEvent;
      if l.rs.r.id == 0 {
        IdleDistance(l, d, max);
        e := AskNearer(l, d, max);
      } else if InFlight(l.rs.r) != [] || l.ring != [] {
        e := ReaderNearer(l, d, max);
      } else {
        e := WriterNearer(l, d, max);
      }
      assert Sized(l);
      hide LStep; hide Going; hide Distance; hide Fifo;
      var rest := Deliver(LStep(l, e), d, max);
      es := [e] + rest;
      assert es[1..] == rest;
    }
  }

  lemma IdleDistance(l: Loop, d: byte, max: nat)
    requires Going(l, d, max) && l.rs.r.id == 0
    ensures Distance(l) >= 1
  {
    Sides(l);
    hide Inv; hide Exec; hide W.WExec; hide Concat;
    UntilWhole(l.rs, l.read, d, max);
    WR.WriterOrder(l.ws, l.wrote);
  }

  // ----- main results -----

  lemma ReachedGoing(l: Loop, capacity: nat, es: seq<LEvent>, d: byte, max: nat)
    requires LReached(l, capacity, es) && capacity > 0 && max > 0 && d < 128
    requires WR.OnlyWhole(l.ws) && OnlyUntil(l.rs, d, max)
    ensures Going(l, d, max)
  {
    assert Fifo(Begin(capacity)) by {
      assert W.WExec(W.WStart, []) == W.WStart;
    }
    LRunKeeps(Begin(capacity), es);
    LRunClean(Begin(capacity), es);
    CapacityStays(Begin(capacity), es);
    FirstInFirstOut(l, capacity, es);
    hide LExec; hide Exec;
    StartInv();
    RunLacks(Start, l.read, d, max);
  }

  lemma {:induction false} CapacityStays(l: Loop, es: seq<LEvent>)
    requires Sized(l)
    ensures LExec(l, es).capacity == l.capacity
    decreases |es|
  {
    if es != [] {
      CapacityStep(l, es[0]);
      hide LStep;
      CapacityStays(LStep(l, es[0]), es[1..]);
    }
  }

  lemma CapacityStep(l: Loop, e: LEvent)
    requires Sized(l)
    ensures LStep(l, e).capacity == l.capacity
  {
  }

  /** From every reached state in which delimited messages are written whole and read by read-untils, and
      none was cut short, there is a continuation, of handlers and read-untils only, after which every
      message written has arrived, in order. */
  lemma CanDeliver(l: Loop, capacity: nat, es: seq<LEvent>, d: byte, max: nat)
    requires LReached(l, capacity, es) && capacity > 0 && max > 0 && d < 128
    requires WR.OnlyWhole(l.ws) && OnlyUntil(l.rs, d, max) && AllFramed(l.ws.messages, d, max)
    requires |l.rs.accepted| + 4 * |Concat(l.ws.messages)| + 2 < M.ID_RANGE
    ensures exists more: seq<LEvent> ::
              && (forall i :: 0 <= i < |more| ==>
                   more[i].RunReader? || more[i].RunWriter? || more[i] == Read(M.Until(d), max, M.ReadCallback, false))
              && LExec(l, more).ws.messages == l.ws.messages
              && Texts(LExec(l, more).rs.posts) == l.ws.messages
  {
    ReachedGoing(l, capacity, es, d, max);
    DistanceBound(l, d, max);
    var more := Deliver(l, d, max);
    var l' := LExec(l, more);
    Sides(l');
    hide LExec; hide Inv; hide W.WInv;
    ArrivedAt(l', d, max);
  }

  /** Any read of the whole size or up to a delimiter that waits for more, on a stream with bytes: its
      continuation takes all of them, or all it lacks. */
  lemma WaitingReadTakes(l: Loop, capacity: nat, es: seq<LEvent>, k: nat)
    requires LReached(l, capacity, es) && l.rs.r.id != 0 && Waiting(l.rs.r, k)
    requires l.rs.r.pending[k].Done? && l.rs.r.pending[k].chunk == []
    requires l.rs.accepted != [] && |l.rs.r.held| < l.rs.accepted[|l.rs.accepted| - 1].size
    requires !l.rs.accepted[|l.rs.accepted| - 1].kind.Partial?
    ensures var l', missing := LStep(l, RunReader(k)), l.rs.accepted[|l.rs.accepted| - 1].size - |l.rs.r.held|;
            && |l'.rs.taken| == |l.rs.taken| + Min(missing, |l.ring|) && l'.rs.taken <= l.rs.taken + l.ring
            && l'.ring == l.ring[Min(missing, |l.ring|)..] && l'.rs.r.id == l.rs.r.id
  {
    assert Fifo(Begin(capacity)) by {
      assert W.WExec(W.WStart, []) == W.WStart;
    }
    LRunKeeps(Begin(capacity), es);
    LRunClean(Begin(capacity), es);
    hide LExec;
    ReaderTurn(l, k);
    NothingAdded(l.rs.r.held, l.rs.accepted[|l.rs.accepted| - 1]);
    hide LStep; hide F.Over; hide F.Added; hide Fifo; hide BothClean;
    Regrouped(l.rs.taken, l.ring, Min(l.rs.accepted[|l.rs.accepted| - 1].size - |l.rs.r.held|, |l.ring|));
  }

  lemma Regrouped(a: seq<byte>, b: seq<byte>, n: nat)
    requires n <= |b|
    ensures a + b[..n] <= a + b
  {
    assert b == b[..n] + b[n..];
    assert a + b == a + b[..n] + b[n..];
  }

  lemma NothingAdded(held: seq<byte>, q: Request)
    requires !q.kind.Partial? && |held| < q.size
    ensures F.Added(held, q.kind, []) == held && !F.Over(q, held, [], false)
  {
    assert held + [] == held;
  }
}
