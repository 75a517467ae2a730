/** The record of received bytes (`enable_dump`): the chunks received without an error, in the order
    in which they are handled; unless a read timed out, that is the order in which they came. Bytes
    replayed from the residue are not recorded again. */
module Dump {
  import opened Bytes
  import opened Fates
  import opened ReaderModel
  import opened ReaderSystem
  import opened ReaderInvariant
  import opened ReaderRuns

  /** Recording stays on. */
  predicate DumpKept(es: seq<Event>) {
    forall i :: 0 <= i < |es| ==> !es[i].SetDump?
  }

  /** The chunk of an error-free completion. */
  ghost function FreeChunk(s: Sys, e: Event): seq<byte> {
    if e.Complete? && Enabled(s, e) && !e.err then e.chunk else []
  }

  /** The chunks received without an error, in the order of completion. */
  ghost function ErrorFree(s: Sys, es: seq<Event>): seq<byte>
    requires |s.taken| == |s.fate|
    decreases |es|
  {
    if es == [] then [] else FreeChunk(s, es[0]) + ErrorFree(Step(s, es[0]), es[1..])
  }

  /** Completed for the live read and still to be recorded. */
  function Unrecorded(h: Handler): seq<byte> {
    if h.Done? && h.dumping && !h.err then h.chunk else []
  }

  /** `free` has been received without an error, and is recorded but for the live completion. */
  ghost predicate Recording(s: Sys, free: seq<byte>) {
    && Inv(s) && !AnyTimedOut(s.posts) && s.r.dumpOn
    && (forall k :: k in s.r.pending && s.r.pending[k].Op? ==> s.r.pending[k].dumping)
    && (s.r.id == 0 ==> free == s.r.dump)
    && (forall k :: Waiting(s.r, k) ==> free == s.r.dump + Unrecorded(s.r.pending[k]))
  }

  predicate Asks(h: Handler) {
    h.Op? || h.Done?
  }

  /** Unless a read timed out every completion is that of the live read. */
  lemma AllLive(s: Sys, key: nat)
    requires Inv(s) && !AnyTimedOut(s.posts) && key in s.r.pending && Asks(s.r.pending[key])
    ensures s.r.id != 0 && Waiting(s.r, key) && forall k :: Waiting(s.r, k) ==> k == key
  {
    LingersTimedOut(s, key);
    assert Waiting(s.r, key);
  }

  lemma LingersTimedOut(s: Sys, key: nat)
    requires Inv(s) && key in s.r.pending && Asks(s.r.pending[key])
    ensures s.r.pending[key].id != s.r.id || s.r.id == 0 ==> AnyTimedOut(s.posts)
  {
    if s.r.pending[key].id != s.r.id {
      assert s.posts[s.r.pending[key].id - 1].timedOut;
    }
  }

  lemma IdleAsksNothing(s: Sys, key: nat)
    requires Inv(s) && !AnyTimedOut(s.posts) && key in s.r.pending && s.r.id == 0
    ensures !Asks(s.r.pending[key])
  {
    if Asks(s.r.pending[key]) {
      LingersTimedOut(s, key);
    }
  }

  // ----- handlers posted by the reader itself -----

  /** The handlers a reader has after posting one with nothing to record. */
  predicate RecordsNothing(r: Reader, r': Reader) {
    && r'.dumpOn == r.dumpOn && r'.dump == r.dump
    && forall k :: k in r'.pending && !(k in r.pending && r.pending[k] == r'.pending[k]) ==>
         && k >= r.next
         && (r'.pending[k].Op? ==> r'.pending[k].dumping == r.dumpOn)
         && (r'.pending[k].Done? ==> !r'.pending[k].err && !r'.pending[k].dumping)
  }

  lemma AskRecords(r: Reader, id: nat, kind: Kind, count: nat)
    ensures RecordsNothing(r, DoReadSome(r, id, kind, count))
  {
  }

  lemma StartRecords(r: Reader, kind: Kind, size: nat, cb: Callback, timed: bool)
    requires r.id == 0
    ensures RecordsNothing(r, AsyncRead(r, kind, size, cb, timed).0)
  {
    var r1 := NewRead(r, size, cb, timed);
    if !kind.Until? {
      AskRecords(r1, r1.id, kind, size);
    } else if FirstStop(r.residue, kind.delim, size, 0) == 0 {
      AskRecords(r1.(held := r1.residue, residue := []), r1.id, kind, size);
    }
    hide DoReadSome;
  }

  lemma ContinueRecords(r: Reader, id: nat, kind: Kind, chunk: seq<byte>, err: bool)
    ensures RecordsNothing(r, Continue(r, id, kind, chunk, err))
  {
    var r1 := Absorb(r, kind, chunk);
    AbsorbKeepsQueue(r, kind, chunk);
    AbsorbKeepsDump(r, kind, chunk);
    assert !Ends(r, kind, chunk, err) ==> |r1.held| < r1.requested;
    hide Absorb;
    if !Ends(r, kind, chunk, err) {
      AskRecords(r1, id, kind, r1.requested - |r1.held|);
    }
    hide DoReadSome;
    hide Ends;
  }

  lemma AbsorbKeepsDump(r: Reader, kind: Kind, chunk: seq<byte>)
    ensures Absorb(r, kind, chunk).dump == r.dump && Absorb(r, kind, chunk).dumpOn == r.dumpOn
  {
  }

  /** A handler records what it has to record, and nothing else. */
  lemma ActRecords(r: Reader, h: Handler)
    requires !h.Op?
    ensures RecordsNothing(r.(dump := if r.dumpOn then r.dump + Unrecorded(h) else r.dump), Act(r, h))
  {
    assert r.dump + [] == r.dump;
    if h.Done? {
      ContinueRecords(DumpCallback(r, h.chunk, h.err, h.dumping), h.id, h.kind, h.chunk, h.err);
    }
    hide Continue;
  }

  // ----- in the order of completion -----

  /** After a step that leaves nothing to record. */
  lemma RecordedAll(s': Sys, r: Reader)
    requires Inv(s') && !AnyTimedOut(s'.posts) && r.dumpOn
    requires forall k :: k in r.pending ==> !Asks(r.pending[k])
    requires RecordsNothing(r, s'.r)
    ensures Recording(s', r.dump)
  {
    hide Inv;
    assert r.dump + [] == r.dump;
  }

  lemma AcceptRecording(s: Sys, q: Request, free: seq<byte>)
    requires Recording(s, free) && s.r.id == 0 && |s.accepted| + 1 < ID_RANGE && q.had == |s.r.residue|
    requires !AnyTimedOut(AcceptStep(s, q).posts)
    ensures Recording(AcceptStep(s, q), free)
  {
    AcceptKeeps(s, q);
    forall k | k in s.r.pending ensures !Asks(s.r.pending[k]) {
      IdleAsksNothing(s, k);
    }
    StartRecords(s.r, q.kind, q.size, q.cb, q.timed);
    hide AsyncRead;
    RecordedAll(AcceptStep(s, q), s.r);
  }

  lemma CompleteRecording(s: Sys, key: nat, chunk: seq<byte>, err: bool, free: seq<byte>)
    requires Recording(s, free) && Enabled(s, Complete(key, chunk, err))
    ensures Recording(CompleteStep(s, key, chunk, err), free + (if err then [] else chunk))
  {
    hide KeptBytes;
    hide Concat;
    AllLive(s, key);
    CompleteKeeps(s, key, chunk, err);
    var s' := CompleteStep(s, key, chunk, err);
    forall k | Waiting(s'.r, k) ensures k == key {
      assert Waiting(s.r, k);
    }
    assert free + [] == free == s.r.dump + [] == s.r.dump;
    hide Inv;
  }

  lemma ExecuteRecording(s: Sys, key: nat, free: seq<byte>)
    requires Recording(s, free) && Enabled(s, Execute(key)) && !AnyTimedOut(ExecuteStep(s, key).posts)
    ensures Recording(ExecuteStep(s, key), free)
  {
    hide KeptBytes;
    hide Concat;
    hide Lose;
    ExecuteKeeps(s, key);
    var s', h := ExecuteStep(s, key), s.r.pending[key];
    var r1 := Pop(s.r, key).(dump := s.r.dump + Unrecorded(h));
    ActRecords(Pop(s.r, key), h);
    if h.Done? {
      AllLive(s, key);
      forall k | k in r1.pending ensures !Asks(r1.pending[k]) {
        OtherAsksNothing(s, key, k);
      }
      hide Act;
      RecordedAll(s', r1);
    } else {
      assert s.r.dump + [] == s.r.dump;
      OtherRecording(s, key, free);
    }
  }

  lemma OtherAsksNothing(s: Sys, key: nat, k: nat)
    requires Inv(s) && !AnyTimedOut(s.posts) && k in s.r.pending && k != key && Waiting(s.r, key)
    ensures !Asks(s.r.pending[k])
  {
    if Asks(s.r.pending[k]) {
      AllLive(s, k);
    }
  }

  /** A callback, or the timer of a read that is over. */
  lemma OtherRecording(s: Sys, key: nat, free: seq<byte>)
    requires Recording(s, free) && Enabled(s, Execute(key)) && !s.r.pending[key].Done?
    requires Inv(ExecuteStep(s, key)) && !AnyTimedOut(ExecuteStep(s, key).posts)
    ensures Recording(ExecuteStep(s, key), free)
  {
    hide KeptBytes;
    hide Concat;
    hide Lose;
    var s' := ExecuteStep(s, key);
    if s.r.pending[key] == Timer(s.r.id) {
      LiveTimer(s, key);
      TimeoutReports(s, key);
    } else {
      assert forall k :: Waiting(s'.r, k) ==> Waiting(s.r, k) && s'.r.pending[k] == s.r.pending[k];
    }
    hide Inv;
  }

  lemma LiveTimer(s: Sys, key: nat)
    requires Inv(s) && key in s.r.pending && s.r.pending[key] == Timer(s.r.id)
    ensures s.r.id != 0
  {
  }

  lemma StepRecording(s: Sys, e: Event, free: seq<byte>)
    requires Recording(s, free) && !e.SetDump? && |Step(s, e).accepted| < ID_RANGE && !AnyTimedOut(Step(s, e).posts)
    ensures Recording(Step(s, e), free + FreeChunk(s, e))
  {
    assert free + [] == free;
    if Enabled(s, e) {
      match e
      case Accept(kind, size, cb, timed) => AcceptRecording(s, Request(kind, size, cb, timed, |s.r.residue|), free);
      case Complete(k, chunk, err) => CompleteRecording(s, k, chunk, err, free);
      case Execute(k) => ExecuteRecording(s, k, free);
    }
    hide Recording;
  }

  lemma {:induction false} RunRecording(s: Sys, es: seq<Event>, free: seq<byte>)
    requires Recording(s, free) && |Exec(s, es).accepted| < ID_RANGE
    requires DumpKept(es) && !AnyTimedOut(Exec(s, es).posts)
    ensures Recording(Exec(s, es), free + ErrorFree(s, es))
    decreases |es|
  {
    assert |s.taken| == |s.fate|;
    hide Recording;
    hide Step;
    hide FreeChunk;
    hide AnyTimedOut;
    if es == [] {
      assert free + [] == free;
    } else {
      var s1 := Step(s, es[0]);
      StepSized(s, es[0]);
      HistoryGrows(s1, es[1..]);
      TimedOutStays(s1.posts, Exec(s, es).posts);
      StepRecording(s, es[0], free);
      RunRecording(s1, es[1..], free + FreeChunk(s, es[0]));
      NoFlight(free, FreeChunk(s, es[0]), ErrorFree(s1, es[1..]));
    }
  }

  /** With recording on from the start, errors included, and unless a read timed out: the record,
      followed by what is completed for the live read and waits for its continuation, is what was
      received without an error, in the order of completion. */
  lemma DumpFidelity(es: seq<Event>)
    requires DumpKept(es) && |Exec(Step(Start, SetDump(true)), es).accepted| < ID_RANGE
    requires !AnyTimedOut(Exec(Step(Start, SetDump(true)), es).posts)
    ensures var s0 := Step(Start, SetDump(true));
            var s := Exec(s0, es);
            && (s.r.id == 0 ==> s.r.dump == ErrorFree(s0, es))
            && (forall k :: Waiting(s.r, k) ==> s.r.dump + Unrecorded(s.r.pending[k]) == ErrorFree(s0, es))
  {
    StartInv();
    SetDumpKeeps(Start, true);
    RunRecording(Step(Start, SetDump(true)), es, []);
    var s := Exec(Step(Start, SetDump(true)), es);
    assert [] + ErrorFree(Step(Start, SetDump(true)), es) == ErrorFree(Step(Start, SetDump(true)), es);
  }

  // ----- in the order of the continuations -----

  /** `asked`: what was asked for while recording was on. `chunks`: what came for it without an error,
      by operation, unless it was handled while recording was off. `handled`: those handled while it
      was on, in that order. */
  datatype Log = Log(asked: set<nat>, chunks: map<nat, seq<byte>>, handled: seq<nat>)

  const Blank: Log := Log({}, map[], [])

  ghost function Note(s: Sys, l: Log, e: Event): Log
    requires |s.taken| == |s.fate|
  {
    if !Enabled(s, e) then l
    else if e.Complete? then
      if e.err || e.key !in l.asked then l else l.(chunks := l.chunks[e.key := e.chunk])
    else
      var l1 := if s.r.dumpOn then l.(asked := l.asked + set k | k in Step(s, e).r.pending && k >= s.r.next) else l;
      if !(e.Execute? && s.r.pending[e.key].Done?) then l1
      else if s.r.dumpOn then l1.(handled := l1.handled + [e.key])
      else l1.(chunks := l1.chunks - {e.key})
  }

  ghost function NoteAll(s: Sys, l: Log, es: seq<Event>): Log
    requires |s.taken| == |s.fate|
    decreases |es|
  {
    if es == [] then l else NoteAll(Step(s, es[0]), Note(s, l, es[0]), es[1..])
  }

  /** The chunks of the operations `handled`, in that order. */
  function InOrder(chunks: map<nat, seq<byte>>, handled: seq<nat>): seq<byte>
    decreases |handled|
  {
    if handled == [] then []
    else
      var n := |handled| - 1;
      InOrder(chunks, handled[..n]) + (if handled[n] in chunks then chunks[handled[n]] else [])
  }

  ghost predicate Noted(r: Reader, l: Log) {
    && r.dump == InOrder(l.chunks, l.handled)
    && (forall i, j :: 0 <= i < j < |l.handled| ==> l.handled[i] != l.handled[j])
    && (forall k :: k in l.chunks ==> k < r.next && (k in l.handled || k in r.pending))
    && (forall k :: k in l.handled ==> k < r.next && k !in r.pending)
    && (forall k :: k in r.pending || k in l.asked ==> k < r.next)
    && (forall k :: k in r.pending && r.pending[k].Op? ==> (r.pending[k].dumping <==> k in l.asked) && k !in l.chunks)
    && (forall k :: k in r.pending && r.pending[k].Done? ==>
          if r.pending[k].dumping && !r.pending[k].err then k in l.chunks && l.chunks[k] == r.pending[k].chunk
          else k !in l.chunks)
    && (forall k :: k in r.pending && !Asks(r.pending[k]) ==> k !in l.chunks)
  }

  /** What came for other operations is nothing to the order. */
  lemma {:induction false} InOrderSame(chunks: map<nat, seq<byte>>, chunks': map<nat, seq<byte>>, handled: seq<nat>)
    requires forall k :: k in handled ==> (k in chunks <==> k in chunks') && (k in chunks ==> chunks[k] == chunks'[k])
    ensures InOrder(chunks, handled) == InOrder(chunks', handled)
    decreases |handled|
  {
    if handled != [] {
      InOrderSame(chunks, chunks', handled[..|handled| - 1]);
      assert handled[|handled| - 1] in handled;
    }
  }

  lemma InOrderHandled(l: Log, key: nat)
    ensures InOrder(l.chunks, l.handled + [key])
         == InOrder(l.chunks, l.handled) + (if key in l.chunks then l.chunks[key] else [])
  {
    var h := l.handled + [key];
    assert h[..|h| - 1] == l.handled;
  }

  /** New handlers: what they ask for is asked while recording is on, or while it is off. */
  lemma PostedNoted(r: Reader, r': Reader, l: Log)
    requires Noted(r, l) && RecordsNothing(r, r') && r'.next >= r.next
    requires forall k :: k in r'.pending ==> k < r'.next
    requires forall k :: k in r.pending ==> k in r'.pending && r'.pending[k] == r.pending[k]
    ensures Noted(r', AskedNow(r, r', l))
  {
    forall k | k in r'.pending && k !in r.pending ensures k !in l.chunks && k !in l.handled && k >= r.next {
    }
    hide InOrder;
  }

  ghost function AskedNow(r: Reader, r': Reader, l: Log): Log {
    if r.dumpOn then l.(asked := l.asked + set k | k in r'.pending && k >= r.next) else l
  }

  function HandledNow(r: Reader, key: nat, l: Log): Log
    requires key in r.pending
  {
    if !r.pending[key].Done? then l
    else if r.dumpOn then l.(handled := l.handled + [key])
    else l.(chunks := l.chunks - {key})
  }

  lemma PopNoted(r: Reader, key: nat, l: Log)
    requires Noted(r, l) && key in r.pending && !r.pending[key].Op?
    ensures var r0, h := Pop(r, key), r.pending[key];
            Noted(r0.(dump := if r0.dumpOn then r0.dump + Unrecorded(h) else r0.dump), HandledNow(r, key, l))
  {
    assert r.dump + [] == r.dump;
    hide InOrder;
    if r.pending[key].Done? && r.dumpOn {
      PopRecorded(r, key, l);
    } else if r.pending[key].Done? {
      PopUnrecorded(r, key, l);
    }
    hide Unrecorded;
  }

  lemma PopRecorded(r: Reader, key: nat, l: Log)
    requires Noted(r, l) && key in r.pending && r.pending[key].Done?
    ensures Noted(Pop(r, key).(dump := r.dump + Unrecorded(r.pending[key])), l.(handled := l.handled + [key]))
  {
    assert r.dump + [] == r.dump;
    InOrderHandled(l, key);
    hide InOrder;
  }

  lemma PopUnrecorded(r: Reader, key: nat, l: Log)
    requires Noted(r, l) && key in r.pending && r.pending[key].Done?
    ensures Noted(Pop(r, key), l.(chunks := l.chunks - {key}))
  {
    assert key !in l.handled;
    InOrderSame(l.chunks, l.chunks - {key}, l.handled);
    hide InOrder;
  }

  lemma ExecuteNoted(r: Reader, key: nat, l: Log)
    requires Noted(r, l) && key in r.pending && !r.pending[key].Op?
    ensures Noted(Run(r, key), AskedNow(r, Run(r, key), HandledNow(r, key, l)))
  {
    var h, r0 := r.pending[key], Pop(r, key);
    PopNoted(r, key, l);
    ActRecords(r0, h);
    assert forall k :: k in r0.pending ==> k < r0.next;
    QueueGrows(r0, h);
    hide Act; hide Noted; hide Unrecorded; hide HandledNow;
    PostedNoted(r0.(dump := if r0.dumpOn then r0.dump + Unrecorded(h) else r0.dump), Run(r, key), HandledNow(r, key, l));
  }

  lemma StepNoted(s: Sys, l: Log, e: Event)
    requires |s.taken| == |s.fate| && Noted(s.r, l)
    ensures Noted(Step(s, e).r, Note(s, l, e))
  {
    hide Lose; hide Concat; hide Run; hide AsyncRead;
    if Enabled(s, e) {
      match e
      case Accept(kind, size, cb, timed) =>
        StartRecords(s.r, kind, size, cb, timed);
        AcceptMoves(s.r, kind, size, cb, timed);
        hide Noted;
        PostedNoted(s.r, Step(s, e).r, l);
      case Complete(k, chunk, err) =>
        CompleteNoted(s.r, k, chunk, err, l);
        hide Noted;
      case Execute(k) =>
        hide Noted;
        ExecuteNoted(s.r, k, l);
      case SetDump(on) =>
        OnOffNoted(s.r, on, l);
        hide Noted;
    }
  }

  lemma OnOffNoted(r: Reader, on: bool, l: Log)
    requires Noted(r, l)
    ensures Noted(r.(dumpOn := on), AskedNow(r, r.(dumpOn := on), l))
  {
  }

  lemma CompleteNoted(r: Reader, k: nat, chunk: seq<byte>, err: bool, l: Log)
    requires Noted(r, l) && k in r.pending && r.pending[k].Op?
    ensures Noted(Fill(r, k, chunk, err), if err || k !in l.asked then l else l.(chunks := l.chunks[k := chunk]))
  {
    assert k !in l.handled;
    InOrderSame(l.chunks, l.chunks[k := chunk], l.handled);
    hide InOrder;
  }

  lemma {:induction false} RunNoted(s: Sys, l: Log, es: seq<Event>)
    requires |s.taken| == |s.fate| && Noted(s.r, l)
    ensures Noted(Exec(s, es).r, NoteAll(s, l, es))
    decreases |es|
  {
    if es != [] {
      StepNoted(s, l, es[0]);
      StepSized(s, es[0]);
      hide Noted; hide Step; hide Note;
      RunNoted(Step(s, es[0]), Note(s, l, es[0]), es[1..]);
    }
  }

  /** For every run, timeouts included, with recording switched on and off at any time: the record is what
      the transport supplied without an error for the operations asked for while it was on and handled
      while it was on, each once, in the order in which they were handled; what it supplied for any
      other still waits to be handled. */
  lemma DumpInOrder(es: seq<Event>)
    ensures var s, l := Exec(Start, es), NoteAll(Start, Blank, es);
            && s.r.dump == InOrder(l.chunks, l.handled)
            && (forall i, j :: 0 <= i < j < |l.handled| ==> l.handled[i] != l.handled[j])
            && (forall k :: k in l.chunks && k !in l.handled ==>
                 k in s.r.pending && s.r.pending[k].Done? && s.r.pending[k].chunk == l.chunks[k])
  {
    RunNoted(Start, Blank, es);
  }
}
