/** The request machine of StreamWriter, the mirror of the reader's: it offers the bytes of a
    message to the transport, which takes a prefix of what it is offered.
    It shares the executor's handlers with the reader: `Op` offers bytes, `Done` carries those
    that were taken. Seen as a reader without residue, it makes the same steps. */
module WriterModel {
  import opened Bytes
  import M = ReaderModel
  import opened ReaderSystem

  datatype Writer = Writer(
    counter: nat,                 // writeCounter_
    id: nat,                      // writeId_, 0 when idle
    requested: nat,               // requestedSize_
    sent: nat,                    // processed_
    src: seq<byte>,               // src_[..requestedSize_]
    cb: M.Callback,               // callback_
    notified: bool,               // waiterNotified_
    dumpOn: bool,
    dump: seq<byte>,              // txDump_
    pending: map<nat, M.Handler>,
    offer: map<nat, seq<byte>>,   // the bytes each operation points to
    next: nat)

  const Fresh: Writer := Writer(0, 0, 0, 0, [], M.ReadCallback, false, false, [], map[], map[], 0)

  function Post(w: Writer, h: M.Handler): Writer {
    w.(pending := w.pending[w.next := h], next := w.next + 1)
  }

  function NewWrite(w: Writer, data: seq<byte>, cb: M.Callback, timed: bool): Writer {
    var id := (w.counter + 1) % M.ID_RANGE;
    var w1 := w.(counter := id, id := id, requested := |data|, sent := 0, src := data, cb := cb);
    if timed then Post(w1, M.Timer(id)) else w1
  }

  function FinishWrite(w: Writer, err: bool): Writer {
    if w.id == 0 then w else Post(w.(id := 0), M.User(w.cb, err, w.sent))
  }

  function DoWriteSome(w: Writer, id: nat, kind: M.Kind, count: nat, data: seq<byte>): Writer {
    Post(w.(offer := w.offer[w.next := data]), M.Op(id, kind, count, w.dumpOn))
  }

  /** `async_write_some` (`Partial`) and `async_write` (`Exact`). */
  function AsyncWrite(w: Writer, kind: M.Kind, data: seq<byte>, cb: M.Callback, timed: bool): (Writer, bool) {
    if w.id != 0 then (w, false)
    else
      var w1 := NewWrite(w, data, cb, timed);
      (DoWriteSome(w1, w1.id, kind, w1.requested, w1.src), true)
  }

  /** `async_write_some_continue` and `async_write_continue`. */
  function Continue(w: Writer, id: nat, kind: M.Kind, count: nat, err: bool): Writer {
    if id != w.id then w
    else if !kind.Exact? then FinishWrite(w.(sent := count), err)
    else
      var w1 := w.(sent := w.sent + count);
      if !err && w1.sent < w1.requested <= |w1.src| then
        DoWriteSome(w1, id, kind, w1.requested - w1.sent, w1.src[w1.sent..])
      else FinishWrite(w1, err)
  }

  function TimeoutReached(w: Writer, id: nat): Writer {
    if id != w.id then w else FinishWrite(w.(notified := true), false)
  }

  function DumpCallback(w: Writer, chunk: seq<byte>, err: bool, dumping: bool): Writer {
    if dumping && !err && w.dumpOn then w.(dump := w.dump + chunk) else w
  }

  function Act(w: Writer, h: M.Handler): Writer {
    match h
    case Op(_, _, _, _) => w
    case Done(id, kind, chunk, err, dumping) => Continue(DumpCallback(w, chunk, err, dumping), id, kind, |chunk|, err)
    case Timer(id) => TimeoutReached(w, id)
    case User(cb, _, _) => if cb.ReadCallback? then w.(notified := true) else w
  }

  function Run(w: Writer, key: nat): Writer
    requires key in w.pending && !w.pending[key].Op?
  {
    Act(w.(pending := w.pending - {key}), w.pending[key])
  }

  /** The transport takes `n` of the bytes it is offered. */
  function Fill(w: Writer, key: nat, n: nat, err: bool): Writer
    requires key in w.pending && w.pending[key].Op? && key in w.offer && n <= |w.offer[key]|
  {
    var op := w.pending[key];
    w.(pending := w.pending[key := M.Done(op.id, op.kind, w.offer[key][..n], err, op.dumping)])
  }

  // ----- the writer as a reader -----

  /** What has been sent plays the part of what a reader holds. */
  function AsReader(w: Writer): M.Reader
    requires w.sent <= |w.src|
  {
    M.Reader(w.counter, w.id, w.requested, w.src[..w.sent], w.cb, [], w.notified, w.dumpOn, w.dump, w.pending, w.next)
  }

  /** `messages` are the accepted messages; `books` is the history of the writer seen as a
      reader: there `taken` is what the transport took, and `posts` reports what was sent. */
  datatype WSys = WSys(w: Writer, books: Sys, messages: seq<seq<byte>>)

  const WStart: WSys := WSys(Fresh, Start, [])

  datatype WEvent =
    | Write(whole: bool, data: seq<byte>, cb: M.Callback, timed: bool)
    | Take(key: nat, n: nat, err: bool)
    | Execute(key: nat)
    | SetDump(on: bool)

  predicate Possible(s: WSys, e: WEvent) {
    match e
    case Write(_, _, _, _) => s.w.id == 0
    case Take(k, n, _) => k in s.w.pending && s.w.pending[k].Op? && k in s.w.offer && n <= |s.w.offer[k]|
    case Execute(k) => k in s.w.pending && !s.w.pending[k].Op?
    case SetDump(_) => true
  }

  function KindOf(whole: bool): M.Kind {
    if whole then M.Exact else M.Partial
  }

  /** The step of the reader machine that `e` is. */
  function Mirror(s: WSys, e: WEvent): Event
    requires Possible(s, e)
  {
    match e
    case Write(whole, data, cb, timed) => Accept(KindOf(whole), |data|, cb, timed)
    case Take(k, n, err) => Complete(k, s.w.offer[k][..n], err)
    case Execute(k) => ReaderSystem.Execute(k)
    case SetDump(on) => ReaderSystem.SetDump(on)
  }

  function Moved(s: WSys, e: WEvent): Writer
    requires Possible(s, e)
  {
    match e
    case Write(whole, data, cb, timed) => AsyncWrite(s.w, KindOf(whole), data, cb, timed).0
    case Take(k, n, err) => Fill(s.w, k, n, err)
    case Execute(k) => Run(s.w, k)
    case SetDump(on) => s.w.(dumpOn := on)
  }

  ghost function WStep(s: WSys, e: WEvent): WSys
    requires |s.books.taken| == |s.books.fate|
  {
    if !Possible(s, e) then s
    else WSys(Moved(s, e), Step(s.books, Mirror(s, e)), if e.Write? then s.messages + [e.data] else s.messages)
  }

  ghost function WExec(s: WSys, es: seq<WEvent>): WSys
    requires |s.books.taken| == |s.books.fate|
    decreases |es|
  {
    if es == [] then s else WExec(WStep(s, es[0]), es[1..])
  }

  // ----- the invariant -----

  /** Each operation offers as many bytes as it counts; the live one offers what is left of the
      message, and what was taken for it is the beginning of that. */
  predicate Offers(w: Writer) {
    && (forall k :: k in w.pending && w.pending[k].Op? ==> k in w.offer && |w.offer[k]| == w.pending[k].count)
    && (forall k :: k in w.pending && (w.pending[k].Op? || w.pending[k].Done?) ==>
         && !w.pending[k].kind.Until?
         && (w.pending[k].id == w.id != 0 && w.sent <= |w.src| ==>
              && (w.pending[k].Op? ==> k in w.offer && w.offer[k] == w.src[w.sent..])
              && (w.pending[k].Done? ==> w.pending[k].chunk <= w.src[w.sent..])))
  }

  predicate Matches(s: WSys) {
    && |s.messages| == |s.books.accepted|
    && (forall i :: 0 <= i < |s.messages| ==>
          s.books.accepted[i].size == |s.messages[i]| && !s.books.accepted[i].kind.Until? && s.books.accepted[i].had == 0)
    && |s.books.posts| <= |s.messages|
    && (forall i :: 0 <= i < |s.books.posts| ==> s.books.posts[i].bytes <= s.messages[i])
    && (s.w.id != 0 ==> |s.messages| > 0 && s.w.src == s.messages[|s.messages| - 1] && s.w.requested == |s.w.src|)
  }

  ghost predicate WInv(s: WSys) {
    && s.w.sent <= |s.w.src| && s.books.r == AsReader(s.w) && Inv(s.books)
    && Offers(s.w) && Matches(s)
  }
}
