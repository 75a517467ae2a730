/** A StreamWriter and a StreamReader over one StringStream: end to end. The stream answers each
    operation at once, from its buffer or into it, and posts the continuation; the executor runs
    the handlers of both sides in any order. */
module Loopback {
  import opened Bytes
  import opened Fates
  import M = ReaderModel
  import opened ReaderSystem
  import opened ReaderInvariant
  import opened ReaderRuns
  import opened Framing
  import W = WriterModel
  import WR = WriterRuns
  import SS = StringStream

  /** `wrote` and `read` are the steps the two sides have made. */
  datatype Loop = Loop(ws: W.WSys, wrote: seq<W.WEvent>, ring: seq<byte>, capacity: nat, rs: Sys, read: seq<Event>)

  datatype LEvent =
    | Write(whole: bool, data: seq<byte>, cb: M.Callback, timed: bool)
    | RunWriter(key: nat)
    | Read(kind: M.Kind, size: nat, cb: M.Callback, timed: bool)
    | RunReader(key: nat)

  function Begin(capacity: nat): Loop {
    Loop(W.WStart, [], [], capacity, Start, [])
  }

  ghost predicate Sized(l: Loop) {
    |l.ws.books.taken| == |l.ws.books.fate| && |l.rs.taken| == |l.rs.fate|
  }

  ghost function WriterDoes(l: Loop, e: W.WEvent): (l': Loop)
    requires Sized(l)
    ensures Sized(l')
  {
    l.(ws := W.WStep(l.ws, e), wrote := l.wrote + [e])
  }

  ghost function ReaderDoes(l: Loop, e: Event): (l': Loop)
    requires Sized(l)
    ensures Sized(l')
  {
    l.(rs := Step(l.rs, e), read := l.read + [e])
  }

  /** `StringStream::async_write_some`, for an operation the writer has just started. */
  ghost function Put(l: Loop): (l': Loop)
    requires Sized(l)
    ensures Sized(l')
  {
    var w := l.ws.w;
    if w.next > 0 && w.next - 1 in w.pending && w.pending[w.next - 1].Op? && w.next - 1 in w.offer then
      var n := SS.PutCount(l.ring, l.capacity, |w.offer[w.next - 1]|);
      WriterDoes(l, W.Take(w.next - 1, n, false)).(ring := l.ring + w.offer[w.next - 1][..n])
    else l
  }

  /** `StringStream::async_read_some`, for an operation the reader has just started. */
  ghost function Get(l: Loop): (l': Loop)
    requires Sized(l)
    ensures Sized(l')
  {
    var r := l.rs.r;
    if r.next > 0 && r.next - 1 in r.pending && r.pending[r.next - 1].Op? then
      var n := SS.TakeCount(l.ring, r.pending[r.next - 1].count);
      ReaderDoes(l, Complete(r.next - 1, l.ring[..n], false)).(ring := l.ring[n..])
    else l
  }

  ghost function LStep(l: Loop, e: LEvent): (l': Loop)
    requires Sized(l)
    ensures Sized(l')
  {
    match e
    case Write(whole, data, cb, timed) => Put(WriterDoes(l, W.Write(whole, data, cb, timed)))
    case RunWriter(key) => Put(WriterDoes(l, W.Execute(key)))
    case Read(kind, size, cb, timed) => Get(ReaderDoes(l, Accept(kind, size, cb, timed)))
    case RunReader(key) => Get(ReaderDoes(l, Execute(key)))
  }

  ghost function LExec(l: Loop, es: seq<LEvent>): (l': Loop)
    requires Sized(l)
    ensures Sized(l')
    decreases |es|
  {
    if es == [] then l else LExec(LStep(l, es[0]), es[1..])
  }

  /** A call, and a handler, is passed on to the side it belongs to, which alone goes on. */
  lemma LStepMakes(l: Loop, e: LEvent)
    requires Sized(l)
    ensures var l' := LStep(l, e);
            match e
            case Write(whole, data, cb, timed) => Writes(l, l', W.Write(whole, data, cb, timed))
            case RunWriter(key) => Writes(l, l', W.Execute(key))
            case Read(kind, size, cb, timed) => Reads(l, l', Accept(kind, size, cb, timed))
            case RunReader(key) => Reads(l, l', Execute(key))
  {
    hide W.WStep; hide Step;
  }

  predicate Writes(l: Loop, l': Loop, x: W.WEvent) {
    l.wrote + [x] <= l'.wrote && l'.read == l.read && l'.rs == l.rs && l'.capacity == l.capacity
  }

  predicate Reads(l: Loop, l': Loop, x: Event) {
    l.read + [x] <= l'.read && l'.wrote == l.wrote && l'.ws == l.ws && l'.capacity == l.capacity
  }

  /** First in, first out: what the stream took from the writer is what the reader took from it,
      followed by what it still holds. */
  ghost predicate Fifo(l: Loop) {
    && Sized(l)
    && l.ws == W.WExec(W.WStart, l.wrote)
    && l.rs == Exec(Start, l.read)
    && l.ws.books.taken == l.rs.taken + l.ring
    && |l.ring| <= l.capacity
  }

  ghost predicate Bounded(l: Loop) {
    |l.ws.messages| < M.ID_RANGE && |l.rs.accepted| < M.ID_RANGE
  }

  // ----- the two halves make runs of their own -----

  lemma {:induction false} WExecSnoc(s: W.WSys, es: seq<W.WEvent>, e: W.WEvent)
    requires |s.books.taken| == |s.books.fate|
    ensures var s' := W.WExec(s, es);
            |s'.books.taken| == |s'.books.fate| && W.WExec(s, es + [e]) == W.WStep(s', e)
    decreases |es|
  {
    hide Step;
    if es == [] {
      assert [e][1..] == [];
      assert es + [e] == [e];
    } else {
      assert (es + [e])[1..] == es[1..] + [e];
      WStepSized(s, es[0]);
      WExecSnoc(W.WStep(s, es[0]), es[1..], e);
    }
  }

  lemma WStepSized(s: W.WSys, e: W.WEvent)
    requires |s.books.taken| == |s.books.fate|
    ensures var s' := W.WStep(s, e); |s'.books.taken| == |s'.books.fate|
  {
    if W.Possible(s, e) {
      StepSized(s.books, W.Mirror(s, e));
    }
  }

  // ----- each step keeps the order -----

  lemma WriterDoesKeeps(l: Loop, e: W.WEvent)
    requires Fifo(l) && !e.Take?
    ensures Fifo(WriterDoes(l, e))
  {
    WExecSnoc(W.WStart, l.wrote, e);
    WStepSized(l.ws, e);
    if W.Possible(l.ws, e) {
      assert Step(l.ws.books, W.Mirror(l.ws, e)).taken == l.ws.books.taken;
    }
  }

  lemma ReaderDoesKeeps(l: Loop, e: Event)
    requires Fifo(l) && !e.Complete?
    ensures Fifo(ReaderDoes(l, e))
  {
    ExecSnoc(Start, l.read, e);
    StepSized(l.rs, e);
  }

  lemma PutKeeps(l: Loop)
    requires Fifo(l) && Bounded(l)
    ensures Fifo(Put(l))
  {
    var w := l.ws.w;
    if w.next > 0 && w.next - 1 in w.pending && w.pending[w.next - 1].Op? && w.next - 1 in w.offer {
      var key := w.next - 1;
      var n := SS.PutCount(l.ring, l.capacity, |w.offer[key]|);
      var e := W.Take(key, n, false);
      WR.StartWInv();
      WR.WRunKeeps(W.WStart, l.wrote);
      WR.StepMirrors(l.ws, e);
      WExecSnoc(W.WStart, l.wrote, e);
      WStepSized(l.ws, e);
      hide W.WInv;
      assert W.WStep(l.ws, e).books.taken == l.ws.books.taken + w.offer[key][..n];
    }
  }

  lemma GetKeeps(l: Loop)
    requires Fifo(l)
    ensures Fifo(Get(l))
  {
    var r := l.rs.r;
    if r.next > 0 && r.next - 1 in r.pending && r.pending[r.next - 1].Op? {
      var n := SS.TakeCount(l.ring, r.pending[r.next - 1].count);
      var e := Complete(r.next - 1, l.ring[..n], false);
      ExecSnoc(Start, l.read, e);
      StepSized(l.rs, e);
      assert Step(l.rs, e).taken == l.rs.taken + l.ring[..n];
      assert l.ring == l.ring[..n] + l.ring[n..];
    }
  }

  lemma LStepGrows(l: Loop, e: LEvent)
    requires Sized(l)
    ensures var l' := LStep(l, e);
            |l.ws.messages| <= |l'.ws.messages| && |l.rs.accepted| <= |l'.rs.accepted|
  {
    hide Lose;
    hide W.Moved;
    hide M.AsyncRead;
    hide M.Run;
  }

  lemma {:induction false} LExecGrows(l: Loop, es: seq<LEvent>)
    requires Sized(l)
    ensures var l' := LExec(l, es);
            |l.ws.messages| <= |l'.ws.messages| && |l.rs.accepted| <= |l'.rs.accepted|
    decreases |es|
  {
    if es != [] {
      LStepGrows(l, es[0]);
      hide LStep;
      LExecGrows(LStep(l, es[0]), es[1..]);
    }
  }

  lemma LStepKeeps(l: Loop, e: LEvent)
    requires Fifo(l) && Bounded(LStep(l, e))
    ensures Fifo(LStep(l, e))
  {
    match e
    case Write(whole, data, cb, timed) =>
      WriterDoesKeeps(l, W.Write(whole, data, cb, timed));
      PutKeeps(WriterDoes(l, W.Write(whole, data, cb, timed)));
    case RunWriter(key) =>
      WriterDoesKeeps(l, W.Execute(key));
      PutKeeps(WriterDoes(l, W.Execute(key)));
    case Read(kind, size, cb, timed) =>
      ReaderDoesKeeps(l, Accept(kind, size, cb, timed));
      GetKeeps(ReaderDoes(l, Accept(kind, size, cb, timed)));
    case RunReader(key) =>
      ReaderDoesKeeps(l, Execute(key));
      GetKeeps(ReaderDoes(l, Execute(key)));
  }

  lemma {:induction false} LRunKeeps(l: Loop, es: seq<LEvent>)
    requires Fifo(l) && Bounded(LExec(l, es))
    ensures Fifo(LExec(l, es))
    decreases |es|
  {
    if es != [] {
      LExecGrows(LStep(l, es[0]), es[1..]);
      LStepKeeps(l, es[0]);
      hide LStep;
      LRunKeeps(LStep(l, es[0]), es[1..]);
    }
  }

  // ----- end to end -----

  ghost predicate LReached(l: Loop, capacity: nat, es: seq<LEvent>) {
    l == LExec(Begin(capacity), es) && Bounded(l)
  }

  /** For every interleaving, with timeouts on either side, the stream is first in, first out. */
  lemma FirstInFirstOut(l: Loop, capacity: nat, es: seq<LEvent>)
    requires LReached(l, capacity, es)
    ensures l.ws.books.taken == l.rs.taken + l.ring && |l.ring| <= l.capacity
    ensures WR.WReached(l.ws, l.wrote) && Reached(l.rs, l.read)
  {
    assert Fifo(Begin(capacity)) by {
      assert W.WExec(W.WStart, []) == W.WStart;
    }
    LRunKeeps(Begin(capacity), es);
  }

  /** No byte came too late for its read, and no read asked for less than the residue it found. */
  ghost predicate NothingLost(l: Loop) {
    LateBytes(Start, l.read) == 0 && Shorts(l.rs.accepted) == 0
  }

  /** End-to-end conservation, whatever is written and however the writes end. When the reader lost
      nothing: what was delivered, what the live read has, the residue and the buffer of the stream are
      together what the stream took from the writer. */
  lemma EndToEnd(l: Loop, capacity: nat, es: seq<LEvent>)
    requires LReached(l, capacity, es) && NothingLost(l)
    ensures Delivered(l.rs.posts) + LiveBytes(l.rs.r) + l.rs.r.residue + l.ring == l.ws.books.taken
  {
    FirstInFirstOut(l, capacity, es);
    hide LExec; hide W.WExec; hide Exec;
    WholeStream(l.rs, l.read);
  }

  /** And when no write was cut short, those are the finished messages and the beginning of the live
      one. */
  lemma WholeMessages(l: Loop, capacity: nat, es: seq<LEvent>)
    requires LReached(l, capacity, es) && NothingLost(l) && WR.OnlyWhole(l.ws)
    ensures |l.ws.books.posts| <= |l.ws.messages|
    ensures Delivered(l.rs.posts) + LiveBytes(l.rs.r) + l.rs.r.residue + l.ring
         == Concat(l.ws.messages[..|l.ws.books.posts|]) + LiveBytes(l.ws.books.r)
    ensures Delivered(l.rs.posts) <= Concat(l.ws.messages)
  {
    EndToEnd(l, capacity, es);
    FirstInFirstOut(l, capacity, es);
    hide LExec; hide W.WExec; hide Exec;
    WR.WriterOrder(l.ws, l.wrote);
    Beginning(Delivered(l.rs.posts), LiveBytes(l.rs.r), l.rs.r.residue, l.ring, Concat(l.ws.messages));
  }

  lemma Beginning(a: seq<byte>, b: seq<byte>, c: seq<byte>, d: seq<byte>, all: seq<byte>)
    requires a + b + c + d <= all
    ensures a <= all
  {
    assert a <= a + b + c + d;
  }

  /** Messages arrive as they were sent. If each message ends with the delimiter, holds it nowhere
      else and has at most `max` bytes, then read-untils report the messages themselves, in
      order, for every interleaving and whatever the capacity of the stream; and once the writer
      is done, the stream is empty and nothing is in flight for the live read, all of them. */
  lemma MessagesArrive(l: Loop, capacity: nat, es: seq<LEvent>, d: byte, max: nat)
    requires LReached(l, capacity, es)
    requires WR.OnlyWhole(l.ws) && OnlyUntil(l.rs, d, max) && d < 128 && max > 0
    requires AllFramed(l.ws.messages, d, max)
    ensures Texts(l.rs.posts) <= l.ws.messages
    ensures l.ws.w.id == 0 && l.ring == [] && l.rs.r.id != 0 && InFlight(l.rs.r) == [] ==>
              Texts(l.rs.posts) == l.ws.messages
  {
    hide LExec;
    FirstInFirstOut(l, capacity, es);
    ArrivedAt(l, d, max);
  }

  predicate AllFramed(messages: seq<seq<byte>>, d: byte, max: nat) {
    forall m :: m in messages ==> Framed(m, d) && |m| <= max
  }

  lemma ArrivedAt(l: Loop, d: byte, max: nat)
    requires l.ws.books.taken == l.rs.taken + l.ring && WR.WReached(l.ws, l.wrote) && Reached(l.rs, l.read)
    requires WR.OnlyWhole(l.ws) && OnlyUntil(l.rs, d, max) && d < 128 && max > 0
    requires AllFramed(l.ws.messages, d, max)
    ensures Texts(l.rs.posts) <= l.ws.messages
    ensures l.ws.w.id == 0 && l.ring == [] && l.rs.r.id != 0 && InFlight(l.rs.r) == [] ==>
              Texts(l.rs.posts) == l.ws.messages
  {
    hide W.WExec;
    hide Exec;
    hide Fits;
    hide Frames;
    var stream := Concat(l.ws.messages);
    WR.WriterOrder(l.ws, l.wrote);
    FramedMessagesFit(l.ws.messages, [], d, max);
    FramedParts(l.ws.messages, [], d);
    NoDelimiterNoFrame([], d);
    assert stream + [] == stream && l.ws.messages + [] == l.ws.messages;
    FramingTheorem(l.rs, l.read, d, max, stream);
    if l.ws.w.id == 0 && l.ring == [] {
      WR.ReportsMessages(l.ws, l.wrote);
      IdleSent(l.ws, l.wrote);
      assert l.ws.messages[..|l.ws.books.posts|] == l.ws.messages;
      assert l.rs.taken + [] == l.rs.taken;
    }
  }

  lemma IdleSent(s: W.WSys, es: seq<W.WEvent>)
    requires WR.WReached(s, es) && s.w.id == 0
    ensures LiveBytes(s.books.r) == []
  {
    WR.StartWInv();
    WR.WRunKeeps(W.WStart, es);
  }

  lemma {:induction false} FramedMessagesFit(parts: seq<seq<byte>>, rest: seq<byte>, d: byte, max: nat)
    requires (forall p :: p in parts ==> Framed(p, d) && |p| <= max)
    requires (rest == [] && max > 0) || Fits(rest, d, max)
    ensures Fits(Concat(parts) + rest, d, max)
  {
    if parts == [] {
      assert Concat(parts) + rest == rest;
    } else {
      var init, p := parts[..|parts| - 1], parts[|parts| - 1];
      assert Concat(parts) + rest == Concat(init) + (p + rest);
      FitsFirst(p, rest, d, max);
      FramedMessagesFit(init, p + rest, d, max);
    }
  }
}
