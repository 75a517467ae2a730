/** What the transport took, write by write. */
module WriterLedger {
  import opened Bytes
  import opened Fates
  import M = ReaderModel
  import opened ReaderSystem
  import I = ReaderInvariant
  import Runs = ReaderRuns
  import opened WriterModel
  import opened WriterRuns

  /** For each accepted write: the bytes taken by its operations, and those of them that came
      too late for its report. */
  datatype Ledger = Ledger(took: seq<seq<byte>>, late: seq<seq<byte>>)

  const Blank: Ledger := Ledger([], [])

  function Add(parts: seq<seq<byte>>, i: int, bytes: seq<byte>): seq<seq<byte>> {
    if 0 <= i < |parts| then parts[i := parts[i] + bytes] else parts
  }

  /** A take is entered for the write its operation belongs to. It is late if that write is over,
      and so is what its timer finds in flight. */
  ghost function Enter(s: WSys, l: Ledger, e: WEvent): Ledger {
    if !Possible(s, e) then l
    else
      match e
      case Write(_, _, _, _) => Ledger(l.took + [[]], l.late + [[]])
      case Take(k, n, _) =>
        var i, bytes := s.w.pending[k].id - 1, s.w.offer[k][..n];
        Ledger(Add(l.took, i, bytes), if s.w.pending[k].id == s.w.id then l.late else Add(l.late, i, bytes))
      case Execute(k) =>
        if s.w.pending[k] == M.Timer(s.w.id) then l.(late := Add(l.late, s.w.id - 1, InFlight(s.books.r))) else l
      case SetDump(_) => l
  }

  ghost function EnterAll(s: WSys, l: Ledger, es: seq<WEvent>): Ledger
    requires |s.books.taken| == |s.books.fate|
    decreases |es|
  {
    if es == [] then l else EnterAll(WStep(s, es[0]), Enter(s, l, es[0]), es[1..])
  }

  // ----- the invariant -----

  predicate Asks(h: M.Handler) {
    h.Op? || h.Done?
  }

  /** A write has one operation at a time, and that of a write given up still offers all that was
      not taken of its message. */
  predicate Outstanding(w: Writer, messages: seq<seq<byte>>, took: seq<seq<byte>>) {
    && (forall k, j ::
          (k in w.pending && j in w.pending && Asks(w.pending[k]) && Asks(w.pending[j]) && w.pending[k].id == w.pending[j].id)
          ==> k == j)
    && (forall k :: k in w.pending && w.pending[k].Op? && w.pending[k].id != w.id ==>
          var i := w.pending[k].id - 1;
          0 <= i < |messages| && i < |took| && k in w.offer && took[i] + w.offer[k] == messages[i])
  }

  /** A report, with what came too late for it, is all that was taken for its write. */
  predicate Entered(posts: seq<Report>, messages: seq<seq<byte>>, l: Ledger) {
    && |l.took| == |l.late| == |messages| && |posts| <= |messages|
    && forall i :: 0 <= i < |posts| ==>
         && l.took[i] == posts[i].bytes + l.late[i]
         && l.took[i] <= messages[i]
         && (!posts[i].timedOut ==> l.late[i] == [])
  }

  ghost predicate LInv(s: WSys, l: Ledger) {
    && WInv(s)
    && Entered(s.books.posts, s.messages, l)
    && Outstanding(s.w, s.messages, l.took)
    && (s.w.id != 0 ==>
         |s.messages| > 0 && l.took[|s.messages| - 1] == Runs.LiveBytes(s.books.r) && l.late[|s.messages| - 1] == [])
  }

  // ----- bytes of the live read, step by step -----

  lemma Cancel(a: seq<byte>, b: seq<byte>, c: seq<byte>)
    requires a + b == a + c
    ensures b == c
  {
    assert b == (a + b)[|a|..] == (a + c)[|a|..] == c;
  }

  /** A handler that is not the timer of the live read: the bytes of the live read stay, or are
      reported. */
  lemma ExecuteBytes(s: Sys, key: nat)
    requires Inv(s) && Enabled(s, ReaderSystem.Execute(key)) && s.r.pending[key] != M.Timer(s.r.id) && s.r.residue == []
    requires Inv(ExecuteStep(s, key)) && ExecuteStep(s, key).r.residue == []
    ensures var s' := ExecuteStep(s, key);
            if s'.posts == s.posts then Runs.LiveBytes(s'.r) == Runs.LiveBytes(s.r)
            else |s'.posts| == |s.posts| + 1 && s.posts <= s'.posts
                 && s'.posts[|s.posts|].bytes == Runs.LiveBytes(s.r) && !s'.posts[|s.posts|].timedOut
  {
    hide KeptBytes; hide Concat; hide Lose;
    var s' := ExecuteStep(s, key);
    Runs.BalanceHolds(s);
    Runs.BalanceHolds(s');
    var d := Delivered(s.posts);
    assert d + Runs.LiveBytes(s.r) + [] == d + Runs.LiveBytes(s.r);
    Runs.RunId(s.r, key);
    hide M.Run; hide Handlers; hide LiveAt; hide Runs.LiveBytes;
    if s'.posts == s.posts {
      assert d + Runs.LiveBytes(s'.r) + [] == d + Runs.LiveBytes(s'.r);
      Cancel(d, Runs.LiveBytes(s'.r), Runs.LiveBytes(s.r));
    } else {
      var p := s'.posts[|s.posts|];
      assert s'.posts == s.posts + [p];
      I.DeliveredSnoc(s.posts, p);
      Idle(s');
      assert d + p.bytes + [] + [] == d + p.bytes;
      Cancel(d, p.bytes, Runs.LiveBytes(s.r));
    }
  }

  lemma Idle(s: Sys)
    ensures s.r.id == 0 ==> Runs.LiveBytes(s.r) == []
  {
  }

  /** A completion adds its bytes to those of the live read, if it is its own. */
  lemma CompleteBytes(s: Sys, key: nat, chunk: seq<byte>, err: bool)
    requires Inv(s) && Enabled(s, Complete(key, chunk, err)) && s.r.residue == [] && s.r.id != 0
    requires Inv(CompleteStep(s, key, chunk, err))
    ensures Runs.LiveBytes(CompleteStep(s, key, chunk, err).r)
         == Runs.LiveBytes(s.r) + (if Waiting(s.r, key) then chunk else [])
  {
    hide KeptBytes; hide Concat;
    var s' := CompleteStep(s, key, chunk, err);
    var f := if Waiting(s.r, key) then Kept else Late;
    Runs.BalanceHolds(s);
    Runs.BalanceHolds(s');
    KeptAppend(s.taken, s.fate, chunk, f);
    hide Inv; hide Runs.LiveBytes;
    var d, b, b' := Delivered(s.posts), Runs.LiveBytes(s.r), Runs.LiveBytes(s'.r);
    var added := if Waiting(s.r, key) then chunk else [];
    assert d + b + [] + added == d + (b + added);
    assert d + b' + [] == d + b';
    Cancel(d, b', b + added);
  }

  // ----- the queue, step by step -----

  /** A handler leaves the queue; it may put in one for the live write, or a callback. */
  predicate Queued(w: Writer, w': Writer, key: nat) {
    && (w'.id == w.id || w'.id == 0)
    && (forall k :: k in w'.pending && Asks(w'.pending[k]) ==>
         if k in w.pending && k != key then w'.pending[k] == w.pending[k]
         else k == w.next && w.id != 0 && w'.id == w.id && w'.pending[k].id == w.id
              && key in w.pending && Asks(w.pending[key]) && w.pending[key].id == w.id)
    && forall k :: k in w.offer && k < w.next ==> k in w'.offer && w'.offer[k] == w.offer[k]
  }

  lemma ContinueQueued(w: Writer, kind: M.Kind, count: nat, err: bool, key: nat, h: M.Handler)
    requires key !in w.pending && (forall k :: k in w.pending ==> k < w.next) && w.id != 0
    requires Asks(h) && h.id == w.id
    ensures Queued(w.(pending := w.pending[key := h]), Continue(w, w.id, kind, count, err), key)
  {
  }

  lemma RunQueued(w: Writer, key: nat)
    requires key in w.pending && !w.pending[key].Op? && (forall k :: k in w.pending ==> k < w.next)
    requires w.pending[key].Done? && w.pending[key].id == w.id ==> w.id != 0
    ensures Queued(w, Run(w, key), key)
  {
    var h := w.pending[key];
    var w1 := w.(pending := w.pending - {key});
    if h.Done? && h.id == w.id {
      var w2 := DumpCallback(w1, h.chunk, h.err, h.dumping);
      ContinueQueued(w2, h.kind, |h.chunk|, h.err, key, h);
      assert w2.pending[key := h] == w.pending;
    }
    hide Continue;
  }

  /** The operation of the live write, if it is outstanding, offers what it still lacks. */
  predicate LiveOffers(w: Writer, messages: seq<seq<byte>>, took: seq<seq<byte>>) {
    forall k :: k in w.pending && w.pending[k].Op? && w.pending[k].id == w.id ==>
      && 0 < w.id <= |messages| && w.id <= |took| && k in w.offer
      && took[w.id - 1] + w.offer[k] == messages[w.id - 1]
  }

  lemma QueuedOutstanding(w: Writer, w': Writer, key: nat, messages: seq<seq<byte>>, took: seq<seq<byte>>)
    requires Queued(w, w', key) && Outstanding(w, messages, took) && LiveOffers(w, messages, took)
    requires forall k :: k in w.pending ==> k < w.next
    ensures Outstanding(w', messages, took)
  {
    forall k | k in w'.pending && w'.pending[k].Op? && w'.pending[k].id != w'.id
      ensures var i := w'.pending[k].id - 1;
              0 <= i < |messages| && i < |took| && k in w'.offer && took[i] + w'.offer[k] == messages[i]
    {
      assert k in w.pending && w'.pending[k] == w.pending[k];
    }
  }

  /** The live operation offers what the live write still lacks. */
  lemma LiveOffer(s: WSys, k: nat)
    requires WInv(s) && k in s.w.pending && s.w.pending[k].Op? && s.w.pending[k].id == s.w.id
    ensures s.w.id == |s.messages| && k in s.w.offer
    ensures Runs.LiveBytes(s.books.r) + s.w.offer[k] == s.messages[|s.messages| - 1]
  {
    hide KeptBytes; hide Concat;
    assert Waiting(s.books.r, k);
    var live :| LiveAt(s.books, live);
    assert InFlight(s.books.r) == [];
    assert s.w.src[..s.w.sent] + [] + s.w.src[s.w.sent..] == s.w.src;
  }

  lemma AllLiveOffers(s: WSys, l: Ledger)
    requires LInv(s, l)
    ensures LiveOffers(s.w, s.messages, l.took)
  {
    forall k | k in s.w.pending && s.w.pending[k].Op? && s.w.pending[k].id == s.w.id
      ensures 0 < s.w.id <= |s.messages| && s.w.id <= |l.took| && k in s.w.offer
      ensures l.took[s.w.id - 1] + s.w.offer[k] == s.messages[s.w.id - 1]
    {
      LiveOffer(s, k);
    }
  }

  // ----- each step -----

  /** `w'` is `w` with a write begun: its operation is the newest handler, the others stay. */
  predicate Begun(w: Writer, w': Writer) {
    && w'.next > 0 && w'.next - 1 in w'.pending && w'.pending[w'.next - 1].Op? && w'.pending[w'.next - 1].id == w'.id
    && (forall k :: k in w'.pending && Asks(w'.pending[k]) && k != w'.next - 1 ==>
         k in w.pending && w'.pending[k] == w.pending[k])
    && (forall k :: k in w.offer && k < w.next ==> k in w'.offer && w'.offer[k] == w.offer[k])
  }

  /** The ids of the operations of `w` are those of its `n` writes. */
  predicate Known(w: Writer, n: nat) {
    forall k :: k in w.pending && Asks(w.pending[k]) ==> k < w.next && 1 <= w.pending[k].id <= n
  }

  lemma WriteOutstanding(w: Writer, w': Writer, messages: seq<seq<byte>>, took: seq<seq<byte>>, m: seq<byte>)
    requires Outstanding(w, messages, took) && w.id == 0 && |took| == |messages| && w'.id == |messages| + 1
    requires Known(w, |messages|) && Begun(w, w')
    ensures Outstanding(w', messages + [m], took + [[]])
  {
    var all, had := messages + [m], took + [[]];
    forall k, j | k in w'.pending && j in w'.pending && Asks(w'.pending[k]) && Asks(w'.pending[j]) && w'.pending[k].id == w'.pending[j].id
      ensures k == j
    {
    }
    forall k | k in w'.pending && w'.pending[k].Op? && w'.pending[k].id != w'.id
      ensures var i := w'.pending[k].id - 1;
              0 <= i < |messages| && k in w'.offer && had[i] + w'.offer[k] == all[i]
    {
      var i := w'.pending[k].id - 1;
      assert k in w.pending && w'.pending[k] == w.pending[k];
      assert had[i] == took[i] && all[i] == messages[i];
    }
  }

  lemma WriteEntered(posts: seq<Report>, messages: seq<seq<byte>>, l: Ledger, m: seq<byte>)
    requires Entered(posts, messages, l)
    ensures Entered(posts, messages + [m], Ledger(l.took + [[]], l.late + [[]]))
  {
  }

  lemma WriteEnters(s: WSys, l: Ledger, e: WEvent)
    requires LInv(s, l) && e.Write? && Possible(s, e) && WInv(WStep(s, e))
    ensures LInv(WStep(s, e), Enter(s, l, e))
  {
    assert |s.books.taken| == |s.books.fate|;
    TookLength(s, l);
    WriteBooks(s, e);
    NewWriteAsks(s.w, KindOf(e.whole), e.data, e.cb, e.timed);
    hide WInv; hide Runs.LiveBytes; hide AsyncWrite; hide Step;
    hide WStep; hide Outstanding; hide Entered; hide Begun; hide Known;
    var s' := WStep(s, e);
    WriteOutstanding(s.w, s'.w, s.messages, l.took, e.data);
    WriteEntered(s.books.posts, s.messages, l, e.data);
  }

  lemma WriteBooks(s: WSys, e: WEvent)
    requires WInv(s) && e.Write? && Possible(s, e) && WInv(WStep(s, e))
    ensures WStep(s, e).books.posts == s.books.posts && Runs.LiveBytes(WStep(s, e).books.r) == []
    ensures Known(s.w, |s.messages|)
    ensures WStep(s, e).w.id == |s.messages| + 1 && WStep(s, e).messages == s.messages + [e.data]
    ensures WStep(s, e).w == AsyncWrite(s.w, KindOf(e.whole), e.data, e.cb, e.timed).0
  {
    NothingPosted(s.w, KindOf(e.whole), e.data, e.cb, e.timed);
    WriteFacts(s);
    var q := Request(KindOf(e.whole), |e.data|, e.cb, e.timed, 0);
    assert WStep(s, e).books == AcceptStep(s.books, q);
    assert WStep(s, e).books.r.residue == [] && Inv(WStep(s, e).books);
    AcceptBytes(s.books, q);
    hide WInv; hide AsyncWrite; hide Step; hide AcceptStep; hide Runs.LiveBytes; hide Inv;
  }

  lemma WriteFacts(s: WSys)
    requires WInv(s) && s.w.id == 0
    ensures Inv(s.books) && s.books.r == AsReader(s.w) && s.w.sent <= |s.w.src| && s.w.counter == |s.messages|
    ensures Known(s.w, |s.messages|)
    ensures |s.messages| == |s.books.accepted|
  {
  }

  /** A read that starts without a residue has no bytes yet. */
  lemma AcceptBytes(s: Sys, q: Request)
    requires Inv(s) && s.r.id == 0 && s.r.residue == [] && !q.kind.Until? && q.had == 0
    requires Inv(AcceptStep(s, q)) && AcceptStep(s, q).r.residue == []
    requires Posted(s.r, AcceptStep(s, q).r, false) == []
    ensures AcceptStep(s, q).posts == s.posts && Runs.LiveBytes(AcceptStep(s, q).r) == []
  {
    hide KeptBytes; hide Concat; hide Lose; hide M.AsyncRead;
    var s' := AcceptStep(s, q);
    Runs.BalanceHolds(s);
    Runs.BalanceHolds(s');
    Idle(s);
    hide Inv; hide Runs.LiveBytes;
    assert s'.posts == s.posts;
    var d, b := Delivered(s.posts), Runs.LiveBytes(s'.r);
    assert d + b + [] == d + b && d + [] + [] == d + [];
    Cancel(d, b, []);
  }

  lemma NewWriteAsks(w: Writer, kind: M.Kind, data: seq<byte>, cb: M.Callback, timed: bool)
    requires w.id == 0
    ensures Begun(w, AsyncWrite(w, kind, data, cb, timed).0)
  {
  }

  lemma NothingPosted(w: Writer, kind: M.Kind, data: seq<byte>, cb: M.Callback, timed: bool)
    requires w.id == 0 && w.sent <= |w.src| && !kind.Until?
    ensures Posted(AsReader(w), M.AsyncRead(AsReader(w), kind, |data|, cb, timed).0, false) == []
  {
  }

  /** What a completion for write `i` puts on the ledger. */
  lemma AddEntered(posts: seq<Report>, messages: seq<seq<byte>>, l: Ledger, i: nat, bytes: seq<byte>, late: bool)
    requires Entered(posts, messages, l) && i < |messages| && l.took[i] + bytes <= messages[i]
    requires if late then i < |posts| && posts[i].timedOut else i >= |posts|
    ensures Entered(posts, messages, Ledger(Add(l.took, i, bytes), if late then Add(l.late, i, bytes) else l.late))
  {
    if late {
      assert posts[i].bytes + l.late[i] + bytes == posts[i].bytes + (l.late[i] + bytes);
    }
  }

  /** A stale operation offers what its write lacks; the live one too. */
  lemma TakeFits(s: WSys, l: Ledger, key: nat, n: nat)
    requires LInv(s, l) && Possible(s, Take(key, n, false))
    ensures var i := s.w.pending[key].id - 1;
            && 0 <= i < |s.messages| == |l.took| && l.took[i] + s.w.offer[key] == s.messages[i]
            && l.took[i] + s.w.offer[key][..n] <= s.messages[i]
            && (if s.w.pending[key].id == s.w.id then i == |s.books.posts| == |s.messages| - 1
                else i < |s.books.posts| && s.books.posts[i].timedOut)
  {
    hide KeptBytes; hide Concat;
    AllLiveOffers(s, l);
    var i := s.w.pending[key].id - 1;
    Beginning(l.took[i], s.w.offer[key], n);
  }

  lemma Beginning(a: seq<byte>, b: seq<byte>, n: nat)
    requires n <= |b|
    ensures a + b[..n] <= a + b
  {
    assert a + b == a + b[..n] + b[n..];
  }

  lemma TakeOutstanding(w: Writer, key: nat, n: nat, err: bool, messages: seq<seq<byte>>, took: seq<seq<byte>>)
    requires Outstanding(w, messages, took) && key in w.pending && w.pending[key].Op?
    requires key in w.offer && n <= |w.offer[key]|
    ensures Outstanding(Fill(w, key, n, err), messages, Add(took, w.pending[key].id - 1, w.offer[key][..n]))
  {
    var w' := Fill(w, key, n, err);
    var took' := Add(took, w.pending[key].id - 1, w.offer[key][..n]);
    forall k | k in w'.pending && w'.pending[k].Op? && w'.pending[k].id != w'.id
      ensures var i := w'.pending[k].id - 1;
              0 <= i < |messages| && i < |took'| && k in w'.offer && took'[i] + w'.offer[k] == messages[i]
    {
      assert k != key && w'.pending[k] == w.pending[k] && w.pending[k].id != w.pending[key].id;
    }
  }

  /** What a take does to the books. */
  lemma TakeBooks(s: WSys, key: nat, n: nat, err: bool)
    requires WInv(s) && Possible(s, Take(key, n, err)) && WInv(WStep(s, Take(key, n, err)))
    ensures var s' := WStep(s, Take(key, n, err));
            && s'.books.posts == s.books.posts && s'.messages == s.messages && s'.w == Fill(s.w, key, n, err)
            && s'.w.id == s.w.id
            && (s.w.id != 0 ==>
                 && |s.books.posts| == |s.messages| - 1
                 && Runs.LiveBytes(s'.books.r)
                   == Runs.LiveBytes(s.books.r) + (if s.w.pending[key].id == s.w.id then s.w.offer[key][..n] else []))
  {
    hide KeptBytes; hide Concat;
    StepMirrors(s, Take(key, n, err));
    if s.w.id != 0 {
      CompleteBytes(s.books, key, s.w.offer[key][..n], err);
    }
    hide Inv; hide Matches; hide Offers; hide Runs.LiveBytes;
  }

  lemma TakeEnters(s: WSys, l: Ledger, key: nat, n: nat, err: bool)
    requires LInv(s, l) && Possible(s, Take(key, n, err)) && WInv(WStep(s, Take(key, n, err)))
    ensures LInv(WStep(s, Take(key, n, err)), Enter(s, l, Take(key, n, err)))
  {
    hide WInv; hide Outstanding; hide WStep; hide Runs.LiveBytes; hide Fill;
    var i, bytes := s.w.pending[key].id - 1, s.w.offer[key][..n];
    TakeFits(s, l, key, n);
    AddEntered(s.books.posts, s.messages, l, i, bytes, s.w.pending[key].id != s.w.id);
    TakeOutstanding(s.w, key, n, err, s.messages, l.took);
    TakeBooks(s, key, n, err);
  }

  // ----- a handler runs -----

  /** One more report: of what the live write holds, and, unless the timer made it, has in
      flight. */
  ghost predicate Reported(s: WSys, key: nat, posts: seq<Report>)
    requires key in s.w.pending
  {
    && |posts| == |s.books.posts| + 1 && s.books.posts <= posts
    && var p := posts[|s.books.posts|];
    && p.timedOut == (s.w.pending[key] == M.Timer(s.w.id))
    && p.bytes + (if p.timedOut then InFlight(s.books.r) else []) == Runs.LiveBytes(s.books.r)
  }

  /** What a handler does to the books: nothing, or the report of the live write. */
  lemma ExecuteBooks(s: WSys, key: nat)
    requires WInv(s) && Possible(s, WEvent.Execute(key)) && WInv(WStep(s, WEvent.Execute(key)))
    ensures var s' := WStep(s, WEvent.Execute(key));
            && s'.messages == s.messages && s'.w == Run(s.w, key)
            && (if s'.books.posts == s.books.posts then
                  && s.w.pending[key] != M.Timer(s.w.id)
                  && (s'.w.id != 0 <==> s.w.id != 0) && Runs.LiveBytes(s'.books.r) == Runs.LiveBytes(s.books.r)
                else
                  && s.w.id != 0 && s'.w.id == 0 && |s.books.posts| == |s.messages| - 1
                  && Reported(s, key, s'.books.posts))
  {
    hide KeptBytes; hide Concat; hide Lose; hide M.Run; hide Run;
    StepMirrors(s, WEvent.Execute(key));
    var s' := WStep(s, WEvent.Execute(key));
    assert s'.books == ExecuteStep(s.books, key);
    if s.w.pending[key] == M.Timer(s.w.id) {
      TimerLives(s, key);
      Runs.TimeoutReports(s.books, key);
      assert s'.books.posts == s.books.posts + [Report(s.books.r.cb, false, s.books.r.held, true)];
      assert |s'.books.posts| != |s.books.posts|;
    } else {
      ExecuteBytes(s.books, key);
      assert Runs.LiveBytes(s.books.r) + [] == Runs.LiveBytes(s.books.r);
    }
    hide ExecuteStep; hide LiveAt; hide Handlers; hide Matches; hide Offers;
  }

  lemma TimerLives(s: WSys, key: nat)
    requires WInv(s) && key in s.w.pending && s.w.pending[key] == M.Timer(s.w.id)
    ensures s.w.id != 0
  {
  }

  /** A report is entered with what the timer found in flight. */
  lemma ReportEntered(posts: seq<Report>, messages: seq<seq<byte>>, l: Ledger, p: Report, flight: seq<byte>)
    requires Entered(posts, messages, l) && |posts| == |messages| - 1
    requires l.took[|posts|] == p.bytes + flight && l.took[|posts|] <= messages[|posts|] && l.late[|posts|] == []
    requires !p.timedOut ==> flight == []
    ensures Entered(posts + [p], messages, l.(late := Add(l.late, |posts|, flight)))
  {
    assert [] + flight == flight;
  }

  /** The ledger after a report, or after none. */
  lemma ExecuteEntered(s: WSys, s': WSys, l: Ledger, key: nat)
    requires LInv(s, l) && Possible(s, WEvent.Execute(key)) && s'.messages == s.messages
    requires if s'.books.posts == s.books.posts then
               s.w.pending[key] != M.Timer(s.w.id)
             else
               s.w.id != 0 && Reported(s, key, s'.books.posts)
    ensures Entered(s'.books.posts, s'.messages, Enter(s, l, WEvent.Execute(key)))
  {
    LedgerFacts(s, l);
    hide LInv; hide Entered; hide Runs.LiveBytes; hide InFlight; hide Add;
    if s'.books.posts != s.books.posts {
      var p := s'.books.posts[|s.books.posts|];
      assert s'.books.posts == s.books.posts + [p];
      ReportEntered(s.books.posts, s.messages, l, p, if p.timedOut then InFlight(s.books.r) else []);
      AddNothing(l.late, |s.books.posts|);
    }
  }

  lemma LedgerFacts(s: WSys, l: Ledger)
    requires LInv(s, l)
    ensures |s.books.taken| == |s.books.fate| && Entered(s.books.posts, s.messages, l)
    ensures |l.took| == |l.late| == |s.messages|
    ensures s.w.id != 0 ==>
              && s.w.id == |s.messages| && |s.books.posts| == |s.messages| - 1
              && l.took[|s.books.posts|] == Runs.LiveBytes(s.books.r) <= s.messages[|s.books.posts|]
              && l.late[|s.books.posts|] == []
  {
    if s.w.id != 0 {
      LiveBeginning(s);
      LiveLast(s);
    }
    hide WInv; hide Outstanding; hide Runs.LiveBytes;
  }

  lemma AddNothing(parts: seq<seq<byte>>, i: nat)
    ensures Add(parts, i, []) == parts
  {
    if i < |parts| {
      assert parts[i] + [] == parts[i];
    }
  }

  lemma ExecuteEnters(s: WSys, l: Ledger, key: nat)
    requires LInv(s, l) && Possible(s, WEvent.Execute(key)) && WInv(WStep(s, WEvent.Execute(key)))
    ensures LInv(WStep(s, WEvent.Execute(key)), Enter(s, l, WEvent.Execute(key)))
  {
    assert |s.books.taken| == |s.books.fate|;
    var e := WEvent.Execute(key);
    var s' := WStep(s, e);
    TookLength(s, l);
    AllLiveOffers(s, l);
    KeysBelow(s);
    hide WInv; hide Outstanding; hide Entered; hide WStep; hide Runs.LiveBytes; hide Run; hide Queued; hide LiveOffers;
    ExecuteBooks(s, key);
    ExecuteEntered(s, s', l, key);
    RunQueued(s.w, key);
    QueuedOutstanding(s.w, s'.w, key, s.messages, l.took);
    hide InFlight;
  }

  /** What `ExecuteEnters` needs of the invariant. */
  lemma KeysBelow(s: WSys)
    requires WInv(s)
    ensures forall k :: k in s.w.pending ==> k < s.w.next
    ensures forall k :: k in s.w.pending && s.w.pending[k].Done? && s.w.pending[k].id == s.w.id ==> s.w.id != 0
  {
  }

  lemma TookLength(s: WSys, l: Ledger)
    requires LInv(s, l)
    ensures |l.took| == |l.late| == |s.messages|
  {
  }

  lemma LiveLast(s: WSys)
    requires WInv(s) && s.w.id != 0
    ensures s.w.id == |s.messages| && |s.books.posts| == |s.messages| - 1 && s.w.src == s.messages[|s.messages| - 1]
  {
  }

  lemma EnterKeeps(s: WSys, l: Ledger, e: WEvent)
    requires LInv(s, l) && |WStep(s, e).messages| < M.ID_RANGE
    ensures LInv(WStep(s, e), Enter(s, l, e))
  {
    WStepKeeps(s, e);
    if Possible(s, e) {
      match e {
        case Write(_, _, _, _) => WriteEnters(s, l, e);
        case Take(k, n, err) => TakeEnters(s, l, k, n, err);
        case Execute(k) => ExecuteEnters(s, l, k);
        case SetDump(on) => SetDumpEnters(s, l, on);
      }
    }
    hide LInv; hide WStep; hide Enter;
  }

  lemma SetDumpBooks(s: WSys, on: bool)
    requires WInv(s) && WInv(WStep(s, WEvent.SetDump(on)))
    ensures var s' := WStep(s, WEvent.SetDump(on));
            && s'.w == s.w.(dumpOn := on) && s'.messages == s.messages && s'.books.posts == s.books.posts
            && Runs.LiveBytes(s'.books.r) == Runs.LiveBytes(s.books.r)
  {
    hide KeptBytes; hide Concat; hide Matches; hide Offers;
    var s' := WStep(s, WEvent.SetDump(on));
    Runs.BalanceHolds(s.books);
    Runs.BalanceHolds(s'.books);
    hide Inv; hide Runs.LiveBytes;
    var d := Delivered(s.books.posts);
    assert d + Runs.LiveBytes(s.books.r) + [] == d + Runs.LiveBytes(s.books.r);
    assert d + Runs.LiveBytes(s'.books.r) + [] == d + Runs.LiveBytes(s'.books.r);
    Cancel(d, Runs.LiveBytes(s'.books.r), Runs.LiveBytes(s.books.r));
  }

  lemma SetDumpEnters(s: WSys, l: Ledger, on: bool)
    requires LInv(s, l) && WInv(WStep(s, WEvent.SetDump(on)))
    ensures LInv(WStep(s, WEvent.SetDump(on)), l)
  {
    hide WInv; hide Entered; hide WStep; hide Runs.LiveBytes;
    SetDumpBooks(s, on);
  }

  lemma {:induction false} EnterRun(s: WSys, l: Ledger, es: seq<WEvent>)
    requires LInv(s, l) && |WExec(s, es).messages| < M.ID_RANGE
    ensures LInv(WExec(s, es), EnterAll(s, l, es))
    decreases |es|
  {
    if es != [] {
      MessagesGrow(WStep(s, es[0]), es[1..]);
      EnterKeeps(s, l, es[0]);
      hide LInv; hide WStep; hide Enter;
      EnterRun(WStep(s, es[0]), Enter(s, l, es[0]), es[1..]);
    }
  }

  /** Write by write. What was taken for a write is the beginning of its own message: what was
      reported for it, followed by what came too late. Nothing comes late unless its timer ended
      the write; and what was taken for the live write is what it holds and has in flight. */
  lemma TakenPerWrite(s: WSys, es: seq<WEvent>)
    requires WReached(s, es)
    ensures var l := EnterAll(WStart, Blank, es);
            && |l.took| == |l.late| == |s.messages| && |s.books.posts| <= |s.messages|
            && (forall i :: 0 <= i < |s.books.posts| ==>
                 && l.took[i] == s.books.posts[i].bytes + l.late[i]
                 && l.took[i] <= s.messages[i]
                 && (!s.books.posts[i].timedOut ==> l.late[i] == []))
            && (s.w.id != 0 ==>
                 |s.messages| > 0 && l.took[|s.messages| - 1] == Runs.LiveBytes(s.books.r) <= s.messages[|s.messages| - 1])
  {
    StartWInv();
    EnterRun(WStart, Blank, es);
    if s.w.id != 0 {
      LiveBeginning(s);
      LiveLast(s);
    }
    hide WInv;
  }
}
