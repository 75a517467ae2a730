/** What each event does to a writer, in terms of messages, reports and what is offered, and what the
    writer records. */
module WriterEffects {
  import opened Bytes
  import M = ReaderModel
  import opened ReaderSystem
  import opened ReaderInvariant
  import F = Effects
  import D = Dump
  import opened WriterModel
  import opened WriterRuns

  /** The live write has an operation outstanding that offers what is left of `message` once `sent` bytes
      of it are sent. */
  predicate Offering(w: Writer, kind: M.Kind, message: seq<byte>, sent: nat, dumping: bool) {
    && sent <= |message|
    && exists k :: k in w.pending && w.pending[k] == M.Op(w.id, kind, |message| - sent, dumping)
         && k in w.offer && w.offer[k] == message[sent..]
  }

  lemma LiveOffers(s: WSys, kind: M.Kind, dumping: bool)
    requires Offers(s.w) && s.w.id != 0 && s.w.sent <= |s.w.src|
    requires F.Outstanding(AsReader(s.w), M.Op(s.w.id, kind, |s.w.src| - s.w.sent, dumping))
    ensures Offering(s.w, kind, s.w.src, s.w.sent, dumping)
  {
    var h := M.Op(s.w.id, kind, |s.w.src| - s.w.sent, dumping);
    var k :| k in s.w.pending && s.w.pending[k] == h;
    assert k in s.w.offer && s.w.offer[k] == s.w.src[s.w.sent..];
  }

  /** A write is recorded as it was made, its timer armed if it has a timeout, and the whole message is
      offered to the transport. */
  lemma WriteEffect(s: WSys, whole: bool, data: seq<byte>, cb: M.Callback, timed: bool)
    requires WInv(s) && s.w.id == 0 && |s.messages| + 1 < M.ID_RANGE
    ensures |s.books.taken| == |s.books.fate|
    ensures var s', kind := WStep(s, Write(whole, data, cb, timed)), if whole then M.Exact else M.Partial;
            && s'.messages == s.messages + [data] && s'.books.posts == s.books.posts && s'.books.taken == s.books.taken
            && s'.books.accepted == s.books.accepted + [Request(kind, |data|, cb, timed, 0)]
            && s'.w.id == |s.messages| + 1 && s'.w.sent == 0 && Offering(s'.w, kind, data, 0, s.w.dumpOn)
            && (timed <==> F.Outstanding(s'.books.r, M.Timer(|s.messages| + 1)))
  {
    var s' := WStep(s, Write(whole, data, cb, timed));
    Written(s, whole, data, cb, timed);
    WFacts(s);
    WFacts(s');
    F.AcceptEffect(s.books, KindOf(whole), |data|, cb, timed);
    hide WInv; hide WStep; hide Step; hide F.Outstanding; hide Inv; hide Offers;
    assert data[..0] == [];
    LiveOffers(s', KindOf(whole), s.w.dumpOn);
    hide Offering;
  }

  lemma WFacts(s: WSys)
    requires WInv(s)
    ensures Offers(s.w) && s.w.sent <= |s.w.src| && s.books.r == AsReader(s.w) && Inv(s.books)
    ensures |s.messages| == |s.books.accepted| && |s.books.taken| == |s.books.fate|
    ensures s.w.id != 0 ==> s.messages != [] && s.w.src == s.messages[|s.messages| - 1]
  {
    hide Handlers; hide Accounts; hide LiveAt; hide Offers;
  }

  lemma Ran(s: WSys, key: nat)
    requires WInv(s) && key in s.books.r.pending && !s.books.r.pending[key].Op?
    ensures var s' := WStep(s, WEvent.Execute(key));
            && WInv(s') && s'.books == Step(s.books, Event.Execute(key))
            && s'.messages == s.messages && s'.w.src == s.w.src
  {
    var e := WEvent.Execute(key);
    assert s.books.r.pending == s.w.pending;
    WStepKeepsBefore(s, e);
    MovedSource(s, e);
    hide WInv; hide Moved; hide Step;
  }

  lemma Written(s: WSys, whole: bool, data: seq<byte>, cb: M.Callback, timed: bool)
    requires WInv(s) && s.w.id == 0 && |s.messages| + 1 < M.ID_RANGE
    ensures var s' := WStep(s, Write(whole, data, cb, timed));
            && WInv(s') && s'.books == Step(s.books, Accept(KindOf(whole), |data|, cb, timed))
            && s'.messages == s.messages + [data] && s'.w.sent == 0 && s'.w.src == data
  {
    var e := Write(whole, data, cb, timed);
    WStepKeepsBefore(s, e);
    WriteFields(s, e);
    hide WInv; hide Moved; hide Step;
  }

  lemma WriteFields(s: WSys, e: WEvent)
    requires e.Write? && Possible(s, e)
    ensures var w' := Moved(s, e); w'.sent == 0 && w'.src == e.data
  {
  }

  /** The continuation of the live write counts the bytes taken; when that is all of the message, or the
      write is partial, or there was an error, it is reported with them and the error, and otherwise the
      rest of the message is offered. */
  lemma SendEffect(s: WSys, key: nat)
    requires WInv(s) && s.w.id != 0 && Waiting(s.books.r, key) && s.books.r.pending[key].Done?
    ensures s.messages != [] && |s.messages| == |s.books.accepted| && |s.books.taken| == |s.books.fate|
    ensures var s', h := WStep(s, WEvent.Execute(key)), s.books.r.pending[key];
            var message, q := s.messages[|s.messages| - 1], s.books.accepted[|s.messages| - 1];
            var sent := s.w.sent + |h.chunk|;
            && sent <= |message| && s'.messages == s.messages
            && (if q.kind.Partial? || h.err || sent >= |message| then
                  && s'.w.id == 0
                  && s'.books.posts == s.books.posts + [Report(q.cb, h.err, message[..sent], false)]
                else
                  && s'.w.id == s.w.id && s'.books.posts == s.books.posts && s'.w.sent == sent
                  && Offering(s'.w, q.kind, message, sent, s.w.dumpOn))
  {
    var s' := WStep(s, WEvent.Execute(key));
    Ran(s, key);
    WFacts(s);
    WFacts(s');
    F.ContinueEffect(s.books, key);
    Sent(s, key);
    hide WInv; hide WStep; hide Step; hide Inv; hide F.Outstanding; hide F.Added; hide F.Over; hide Offers;
    Continued(s, s', key);
    hide Offering;
  }

  /** The books of the step, read as the writer's state. */
  lemma Continued(s: WSys, s': WSys, key: nat)
    requires s.messages != [] && |s.messages| == |s.books.accepted|
    requires key in s.books.r.pending && s.books.r.pending[key].Done?
    requires s'.w.sent <= |s'.w.src| && s'.books.r == AsReader(s'.w) && Offers(s'.w) && s'.w.src == s.w.src
    requires s.w.src == s.messages[|s.messages| - 1] && s.w.sent + |s.books.r.pending[key].chunk| <= |s.w.src|
    requires s.books.r.dumpOn == s.w.dumpOn && s.w.id != 0
    requires s'.books.r.held == s.w.src[..s.w.sent + |s.books.r.pending[key].chunk|]
    ensures var h, sent := s.books.r.pending[key], s.w.sent + |s.books.r.pending[key].chunk|;
            s'.w.sent == sent && s'.books.r.id == s'.w.id
    ensures var q, sent := s.books.accepted[|s.messages| - 1], s.w.sent + |s.books.r.pending[key].chunk|;
            s'.w.id == s.w.id && F.Outstanding(s'.books.r, M.Op(s.w.id, q.kind, |s.w.src| - sent, s.w.dumpOn)) ==>
              Offering(s'.w, q.kind, s.w.src, sent, s.w.dumpOn)
  {
    hide F.Outstanding; hide Offers; hide Offering;
    var q, sent := s.books.accepted[|s.messages| - 1], s.w.sent + |s.books.r.pending[key].chunk|;
    assert |s'.books.r.held| == sent;
    if s'.w.id == s.w.id && F.Outstanding(s'.books.r, M.Op(s.w.id, q.kind, |s.w.src| - sent, s.w.dumpOn)) {
      LiveOffers(s', q.kind, s.w.dumpOn);
    }
  }

  /** What the live write has sent once the chunk is counted. */
  lemma Sent(s: WSys, key: nat)
    requires WInv(s) && s.w.id != 0 && Waiting(s.books.r, key) && s.books.r.pending[key].Done?
    ensures s.messages != [] && |s.messages| == |s.books.accepted|
    ensures var h, message := s.books.r.pending[key], s.messages[|s.messages| - 1];
            var q := s.books.accepted[|s.messages| - 1];
            var sent := s.w.sent + |h.chunk|;
            && sent <= |message| && F.Added(s.books.r.held, q.kind, h.chunk) == message[..sent] && q.size == |message|
            && (F.Over(q, message[..sent], h.chunk, h.err) <==> q.kind.Partial? || h.err || sent >= |message|)
  {
    hide Inv;
    var h, message := s.books.r.pending[key], s.messages[|s.messages| - 1];
    assert s.w.pending[key] == h;
    assert h.chunk <= message[s.w.sent..];
    Longer(message, s.w.sent, h.chunk);
    hide Offers;
  }

  lemma Longer(message: seq<byte>, sent: nat, chunk: seq<byte>)
    requires sent <= |message| && chunk <= message[sent..]
    ensures message[..sent] + chunk == message[..sent + |chunk|]
  {
  }

  // ----- the record -----

  /** With recording switched on and off at any time, timeouts included: the record of a writer is what the
      transport took without an error for the operations made and handled while it was on, each once, in
      the order in which they were handled. */
  lemma WriteDumpInOrder(s: WSys, es: seq<WEvent>)
    requires WReached(s, es)
    ensures var l := D.NoteAll(Start, D.Blank, Mirrored(WStart, es)); s.w.dump == D.InOrder(l.chunks, l.handled)
  {
    StartWInv();
    WriterRefinesReader(WStart, es);
    D.DumpInOrder(Mirrored(WStart, es));
  }
}
