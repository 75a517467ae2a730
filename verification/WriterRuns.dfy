/** The writer makes the steps of the reader machine, and what it sends are its messages. */
module WriterRuns {
  import opened Bytes
  import opened Fates
  import M = ReaderModel
  import opened ReaderSystem
  import I = ReaderInvariant
  import Runs = ReaderRuns
  import opened WriterModel

  // ----- each function of the writer is the reader's -----

  lemma WriteMirrors(w: Writer, kind: M.Kind, data: seq<byte>, cb: M.Callback, timed: bool)
    requires w.sent <= |w.src| && w.id == 0 && !kind.Until?
    ensures var w' := AsyncWrite(w, kind, data, cb, timed).0;
            w'.sent <= |w'.src| && AsReader(w') == M.AsyncRead(AsReader(w), kind, |data|, cb, timed).0
  {
    assert data[..0] == [];
  }

  lemma ContinueMirrors(w: Writer, id: nat, kind: M.Kind, chunk: seq<byte>, err: bool)
    requires w.sent <= |w.src| && !kind.Until?
    requires id == w.id ==> w.requested == |w.src| && chunk <= w.src[w.sent..] && (kind.Partial? ==> w.sent == 0)
    ensures var w' := Continue(w, id, kind, |chunk|, err);
            w'.sent <= |w'.src| && w'.src == w.src
            && AsReader(w') == M.Continue(AsReader(w), id, kind, chunk, err)
  {
    if id == w.id {
      var w1 := w.(sent := if kind.Exact? then w.sent + |chunk| else |chunk|);
      assert chunk == w.src[w.sent..w.sent + |chunk|];
      assert w.src[..w.sent + |chunk|] == w.src[..w.sent] + chunk;
      assert kind.Partial? ==> w.src[..|chunk|] == chunk;
      assert AsReader(w1) == M.Absorb(AsReader(w), kind, chunk);
      hide M.Absorb;
    }
  }

  lemma ActMirrors(w: Writer, h: M.Handler)
    requires w.sent <= |w.src|
    requires h.Done? ==> !h.kind.Until?
    requires h.Done? && h.id == w.id ==>
               w.requested == |w.src| && h.chunk <= w.src[w.sent..] && (h.kind.Partial? ==> w.sent == 0)
    ensures var w' := Act(w, h);
            w'.sent <= |w'.src| && w'.src == w.src && AsReader(w') == M.Act(AsReader(w), h)
  {
    if h.Done? {
      ContinueMirrors(DumpCallback(w, h.chunk, h.err, h.dumping), h.id, h.kind, h.chunk, h.err);
    }
    hide M.Continue;
    hide Continue;
  }

  /** A live partial write has sent nothing yet. */
  lemma LiveFacts(s: WSys, key: nat)
    requires WInv(s) && Waiting(s.books.r, key)
    ensures s.w.id != 0 && (s.w.pending[key].kind.Partial? ==> s.w.sent == 0)
  {
    hide KeptBytes;
    hide Concat;
    if s.w.id != 0 {
      var live :| LiveAt(s.books, live);
    }
  }

  /** Every step of the writer is a step of the reader machine on its books. */
  lemma StepMirrors(s: WSys, e: WEvent)
    requires WInv(s) && Possible(s, e)
    ensures Enabled(s.books, Mirror(s, e))
    ensures var w' := Moved(s, e);
            w'.sent <= |w'.src| && AsReader(w') == Step(s.books, Mirror(s, e)).r
  {
    hide KeptBytes;
    hide Concat;
    hide Lose;
    match e {
      case Write(whole, data, cb, timed) => WriteMirrors(s.w, KindOf(whole), data, cb, timed);
      case Take(k, n, err) =>
      case Execute(k) =>
        var h := s.w.pending[k];
        var w1 := s.w.(pending := s.w.pending - {k});
        if h.Done? && h.id == s.w.id {
          LiveFacts(s, k);
        }
        assert s.w.id == 0 ==> !(h.Done? && h.id == s.w.id);
        ActMirrors(w1, h);
        hide M.Act;
        hide Act;
      case SetDump(on) =>
    }
  }

  // ----- what is offered -----

  lemma AskOffers(w: Writer, kind: M.Kind)
    requires Offers(w) && !kind.Until? && w.sent <= |w.src| && w.requested == |w.src|
    requires forall k :: k in w.pending ==> k < w.next
    ensures Offers(DoWriteSome(w, w.id, kind, w.requested - w.sent, w.src[w.sent..]))
  {
  }

  lemma WriteOffers(s: WSys, whole: bool, data: seq<byte>, cb: M.Callback, timed: bool)
    requires WInv(s) && s.w.id == 0 && |s.books.accepted| + 1 < M.ID_RANGE
    ensures Offers(AsyncWrite(s.w, KindOf(whole), data, cb, timed).0)
  {
    var w1 := NewWrite(s.w, data, cb, timed);
    assert Offers(w1) by {
      assert w1.id == |s.books.accepted| + 1;
      forall k | k in w1.pending && (w1.pending[k].Op? || w1.pending[k].Done?) ensures w1.pending[k].id != w1.id {
        assert k in s.w.pending && s.w.pending[k].id <= |s.books.accepted|;
      }
    }
    assert data[0..] == data;
    AskOffers(w1, KindOf(whole));
  }

  predicate NoneLive(w: Writer) {
    forall k :: k in w.pending && (w.pending[k].Op? || w.pending[k].Done?) ==> w.pending[k].id != w.id
  }

  lemma ContinueOffers(w: Writer, kind: M.Kind, count: nat, err: bool)
    requires Offers(w) && NoneLive(w) && !kind.Until? && (forall k :: k in w.pending ==> k < w.next)
    requires w.requested == |w.src| && w.sent + count <= |w.src|
    ensures Offers(Continue(w, w.id, kind, count, err))
  {
    var w1 := w.(sent := if kind.Exact? then w.sent + count else count);
    assert Offers(w1);
    if kind.Exact? && !err && w1.sent < w1.requested {
      AskOffers(w1, kind);
    }
  }

  lemma ActOffers(w: Writer, h: M.Handler)
    requires Offers(w) && !h.Op? && w.sent <= |w.src| && (forall k :: k in w.pending ==> k < w.next)
    requires h.Done? && h.id == w.id ==>
               NoneLive(w) && !h.kind.Until? && w.requested == |w.src| && w.sent + |h.chunk| <= |w.src|
    ensures Offers(Act(w, h))
  {
    if h.Done? && h.id == w.id {
      ContinueOffers(DumpCallback(w, h.chunk, h.err, h.dumping), h.kind, |h.chunk|, h.err);
    }
  }

  lemma ExecuteOffers(s: WSys, key: nat)
    requires WInv(s) && key in s.w.pending && !s.w.pending[key].Op?
    ensures Offers(Run(s.w, key))
  {
    hide KeptBytes;
    hide Concat;
    var w, h := s.w, s.w.pending[key];
    var w1 := w.(pending := w.pending - {key});
    if h.Done? && h.id == w.id {
      LiveFacts(s, key);
      forall k | k in w1.pending && (w1.pending[k].Op? || w1.pending[k].Done?) ensures w1.pending[k].id != w.id {
        assert Waiting(s.books.r, key);
        assert w1.pending[k].id == w.id ==> Waiting(s.books.r, k);
      }
    }
    ActOffers(w1, h);
    hide Act;
  }

  lemma StepOffers(s: WSys, e: WEvent)
    requires WInv(s) && Possible(s, e) && (e.Write? ==> |s.books.accepted| + 1 < M.ID_RANGE)
    ensures Offers(Moved(s, e))
  {
    hide KeptBytes;
    hide Concat;
    match e {
      case Write(whole, data, cb, timed) => WriteOffers(s, whole, data, cb, timed);
      case Take(k, n, err) =>
        assert s.w.offer[k][..n] <= s.w.offer[k];
      case Execute(k) => ExecuteOffers(s, k);
      case SetDump(on) =>
    }
  }

  // ----- what is reported -----

  /** A callback posted by a step reports the beginning of the message it was for. */
  lemma PostedPrefix(s: WSys, e: WEvent)
    requires WInv(s) && Possible(s, e) && (e.Write? ==> |s.books.accepted| + 1 < M.ID_RANGE)
    ensures var s' := WStep(s, e);
            s'.books.posts == s.books.posts
            || (s.w.id != 0 && |s'.books.posts| == |s.books.posts| + 1 && s.books.posts <= s'.books.posts
                && s'.books.posts[|s.books.posts|].bytes <= s.w.src)
  {
    hide KeptBytes;
    hide Concat;
    hide Lose;
    StepMirrors(s, e);
    var w' := Moved(s, e);
    if e.Execute? {
      Runs.RunId(s.books.r, e.key);
      hide M.Run;
      KeepsSource(s.w, e.key);
      hide Run;
    }
  }

  lemma KeepsSource(w: Writer, key: nat)
    requires key in w.pending && !w.pending[key].Op?
    ensures Run(w, key).src == w.src
  {
  }

  lemma MovedSource(s: WSys, e: WEvent)
    requires WInv(s) && Possible(s, e) && !e.Write?
    ensures var w' := Moved(s, e);
            w'.src == s.w.src && w'.requested == s.w.requested && (w'.id == s.w.id || w'.id == 0)
  {
    if e.Execute? {
      KeepsSource(s.w, e.key);
    }
  }

  /** A message is recorded with the request that carries it. */
  lemma BooksGrow(s: WSys, e: WEvent)
    requires WInv(s) && Possible(s, e)
    ensures var accepted := WStep(s, e).books.accepted;
            if e.Write? then
              |accepted| == |s.books.accepted| + 1 && s.books.accepted <= accepted
              && accepted[|s.books.accepted|].size == |e.data|
              && accepted[|s.books.accepted|].kind == KindOf(e.whole)
              && accepted[|s.books.accepted|].had == 0
            else accepted == s.books.accepted
    ensures e.Write? ==> Moved(s, e).src == e.data && Moved(s, e).requested == |e.data|
  {
    hide Lose;
    StepMirrors(s, e);
    hide AsReader;
    hide M.AsyncRead;
    hide Run;
    hide M.Run;
    hide Inv;
  }

  /** Messages, requests and reports stay aligned when a message is added or a report is made
      for the last one. */
  lemma MatchesGrow(s: WSys, s': WSys, added: seq<seq<byte>>)
    requires Matches(s) && |added| <= 1 && s'.messages == s.messages + added
    requires |s'.books.accepted| == |s'.messages| && s.books.accepted <= s'.books.accepted
    requires added != [] ==>
               && s'.books.accepted[|s.messages|].size == |added[0]|
               && !s'.books.accepted[|s.messages|].kind.Until? && s'.books.accepted[|s.messages|].had == 0
               && s'.books.posts == s.books.posts && s'.w.src == added[0] && s'.w.requested == |added[0]|
    requires added == [] ==> s'.w.src == s.w.src && s'.w.requested == s.w.requested && (s'.w.id != 0 ==> s.w.id != 0)
    requires s'.books.posts == s.books.posts
          || (s.w.id != 0 && added == [] && |s.books.posts| == |s.messages| - 1
              && |s'.books.posts| == |s.books.posts| + 1 && s.books.posts <= s'.books.posts
              && s'.books.posts[|s.books.posts|].bytes <= s.w.src)
    ensures Matches(s')
  {
    assert forall i :: 0 <= i < |s.messages| ==> s'.messages[i] == s.messages[i] && s'.books.accepted[i] == s.books.accepted[i];
    forall i | 0 <= i < |s'.books.posts|
      ensures s'.books.posts[i].bytes <= s'.messages[i]
    {
      if i < |s.books.posts| {
        assert s'.books.posts[i] == s.books.posts[i];
      }
    }
  }

  lemma StepMatches(s: WSys, e: WEvent)
    requires WInv(s) && Possible(s, e) && (e.Write? ==> |s.books.accepted| + 1 < M.ID_RANGE)
    ensures Matches(WStep(s, e))
  {
    PostedPrefix(s, e);
    BooksGrow(s, e);
    if !e.Write? {
      MovedSource(s, e);
    }
    assert s.w.id != 0 ==> |s.books.posts| == |s.messages| - 1;
    hide Inv;
    hide Offers;
    hide Moved;
    hide Step;
    hide Matches;
    MatchesGrow(s, WStep(s, e), if e.Write? then [e.data] else []);
  }

  lemma WStepKeeps(s: WSys, e: WEvent)
    requires WInv(s) && |WStep(s, e).messages| < M.ID_RANGE
    ensures WInv(WStep(s, e))
  {
    if Possible(s, e) {
      StepMirrors(s, e);
      StepOffers(s, e);
      StepMatches(s, e);
      I.StepKeepsBefore(s.books, Mirror(s, e));
      hide Moved;
      hide Step;
      hide Offers;
      hide Matches;
    }
  }

  lemma WStepKeepsBefore(s: WSys, e: WEvent)
    requires WInv(s) && Possible(s, e) && (e.Write? ==> |s.messages| + 1 < M.ID_RANGE)
    ensures WInv(WStep(s, e)) && WStep(s, e).w == Moved(s, e)
  {
    WStepKeeps(s, e);
  }

  // ----- whole runs -----

  lemma {:induction false} MessagesGrow(s: WSys, es: seq<WEvent>)
    requires |s.books.taken| == |s.books.fate|
    ensures s.messages <= WExec(s, es).messages
    decreases |es|
  {
    if es != [] {
      MessagesGrow(WStep(s, es[0]), es[1..]);
    }
  }

  lemma {:induction false} WRunKeeps(s: WSys, es: seq<WEvent>)
    requires WInv(s) && |WExec(s, es).messages| < M.ID_RANGE
    ensures WInv(WExec(s, es))
    decreases |es|
  {
    if es != [] {
      MessagesGrow(WStep(s, es[0]), es[1..]);
      WStepKeeps(s, es[0]);
      WRunKeeps(WStep(s, es[0]), es[1..]);
    }
  }

  /** The steps of the reader machine that a run of the writer makes. */
  ghost function Mirrored(s: WSys, es: seq<WEvent>): seq<Event>
    requires |s.books.taken| == |s.books.fate|
    decreases |es|
  {
    if es == [] then []
    else (if Possible(s, es[0]) then [Mirror(s, es[0])] else []) + Mirrored(WStep(s, es[0]), es[1..])
  }

  /** A run of the writer is a run of the reader machine: whatever is proved of the reader's
      runs holds of the writer's. */
  lemma {:induction false} WriterRefinesReader(s: WSys, es: seq<WEvent>)
    requires WInv(s) && |WExec(s, es).messages| < M.ID_RANGE
    ensures WExec(s, es).books == Exec(s.books, Mirrored(s, es))
    ensures WInv(WExec(s, es)) && WExec(s, es).books.r == AsReader(WExec(s, es).w)
    decreases |es|
  {
    WRunKeeps(s, es);
    assert |s.books.taken| == |s.books.fate|;
    if es != [] {
      MessagesGrow(WStep(s, es[0]), es[1..]);
      WStepKeeps(s, es[0]);
      hide WInv; hide Moved; hide Step;
      WriterRefinesReader(WStep(s, es[0]), es[1..]);
      var rest := Mirrored(WStep(s, es[0]), es[1..]);
      if Possible(s, es[0]) {
        assert ([Mirror(s, es[0])] + rest)[1..] == rest;
      } else {
        assert [] + rest == rest;
      }
    }
  }

  lemma StartWInv()
    ensures WInv(WStart)
  {
    Runs.StartInv();
  }

  // ----- what is sent -----

  ghost predicate WReached(s: WSys, es: seq<WEvent>) {
    s == WExec(WStart, es) && |s.messages| < M.ID_RANGE
  }

  /** Every report is about its own message, and counts a beginning of it; a whole write that
      neither its timer nor an error ended counts all of it. The bytes taken for the live message are a beginning
      of it too. */
  lemma ReportsMessages(s: WSys, es: seq<WEvent>)
    requires WReached(s, es)
    ensures |s.books.posts| + (if s.w.id != 0 then 1 else 0) == |s.messages| == |s.books.accepted|
    ensures forall i :: 0 <= i < |s.books.posts| ==> s.books.posts[i].bytes <= s.messages[i]
    ensures forall i :: 0 <= i < |s.books.posts| ==>
              s.books.accepted[i].kind.Exact? && !CutShort(s.books.posts[i])
              ==> s.books.posts[i].bytes == s.messages[i]
    ensures s.w.id != 0 ==> Runs.LiveBytes(s.books.r) <= s.messages[|s.messages| - 1]
  {
    StartWInv();
    WRunKeeps(WStart, es);
    hide KeptBytes;
    hide Concat;
    forall i | 0 <= i < |s.books.posts| && s.books.accepted[i].kind.Exact?
      ensures !CutShort(s.books.posts[i]) ==> s.books.posts[i].bytes == s.messages[i]
    {
      assert Answers(s.books.accepted[i], s.books.posts[i]);
    }
    if s.w.id != 0 {
      LiveBeginning(s);
    }
  }

  lemma LiveBeginning(s: WSys)
    requires WInv(s) && s.w.id != 0
    ensures Runs.LiveBytes(s.books.r) <= s.w.src
  {
    hide KeptBytes;
    hide Concat;
    var live :| LiveAt(s.books, live);
    var h := s.w.pending[live];
    assert InFlight(s.books.r) == Chunk(h);
    assert Chunk(h) <= s.w.src[s.w.sent..];
    assert s.w.src == s.w.src[..s.w.sent] + s.w.src[s.w.sent..];
  }

  /** Accounting. What the transport took, less what it took for writes already given up, is
      the reported bytes followed by those of the live message. Late bytes exist only if some
      write timed out. */
  lemma WriterAccounting(s: WSys, es: seq<WEvent>)
    requires WReached(s, es)
    ensures |s.books.taken| == |s.books.fate|
    ensures KeptBytes(s.books.taken, s.books.fate) == Delivered(s.books.posts) + Runs.LiveBytes(s.books.r)
    ensures |s.books.taken| == |KeptBytes(s.books.taken, s.books.fate)| + Count(s.books.fate, Late)
    ensures Count(s.books.fate, LookAhead) == 0
    ensures Count(s.books.fate, Late) == Runs.LateBytes(Start, Mirrored(WStart, es))
    ensures Count(s.books.fate, Late) > 0 ==> Runs.AnyTimedOut(s.books.posts)
  {
    StartWInv();
    WRunKeeps(WStart, es);
    WriterRefinesReader(WStart, es);
    Runs.Conservation(s.books, Mirrored(WStart, es));
    NoneShort(s.books.accepted);
  }

  lemma {:induction false} NoneShort(accepted: seq<Request>)
    requires forall i :: 0 <= i < |accepted| ==> accepted[i].had == 0
    ensures Runs.Shorts(accepted) == 0
  {
    if accepted != [] {
      NoneShort(accepted[..|accepted| - 1]);
    }
  }

  /** Every accepted write is whole, and no timer or error has cut one short. */
  predicate OnlyWhole(s: WSys) {
    && (forall i :: 0 <= i < |s.books.accepted| ==> s.books.accepted[i].kind.Exact?)
    && (forall i :: 0 <= i < |s.books.posts| ==> !CutShort(s.books.posts[i]))
  }

  /** When none was cut short the transport has been given the finished messages, whole and
      in order, and a beginning of the live one. */
  lemma WriterOrder(s: WSys, es: seq<WEvent>)
    requires WReached(s, es) && OnlyWhole(s)
    ensures |s.books.posts| <= |s.messages|
    ensures s.books.taken == Concat(s.messages[..|s.books.posts|]) + Runs.LiveBytes(s.books.r)
    ensures s.books.taken <= Concat(s.messages)
  {
    hide KeptBytes;
    hide Concat;
    hide WExec;
    WriterAccounting(s, es);
    ReportsMessages(s, es);
    AllKept(s.books.taken, s.books.fate);
    var n := |s.books.posts|;
    assert Texts(s.books.posts) == s.messages[..n];
    if s.w.id != 0 {
      assert s.messages == s.messages[..n] + [s.messages[n]];
      ConcatSnoc(s.messages[..n], s.messages[n]);
    } else {
      StartWInv();
      WRunKeeps(WStart, es);
      assert s.messages[..n] == s.messages;
      assert Concat(s.messages) + [] == Concat(s.messages);
    }
  }
}
