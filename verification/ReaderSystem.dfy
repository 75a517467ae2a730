/** The reader together with its environment, and the bookkeeping the theorems speak of:
    the bytes handed over by the transport, the fate of each, the accepted requests and the
    callbacks posted for them. The environment completes operations with chunks of its own
    choosing and runs queued handlers in any order. */
module ReaderSystem {
  import opened Bytes
  import opened Fates
  import opened ReaderModel

  /** An accepted request; `had` is the residue found when it was accepted. */
  datatype Request = Request(kind: Kind, size: nat, cb: Callback, timed: bool, had: nat)

  /** What a posted callback tells the user: an error flag and the bytes at the destination.
      `timedOut`: it was the timer that ended the read (the user is not told). */
  datatype Report = Report(cb: Callback, err: bool, bytes: seq<byte>, timedOut: bool)

  datatype Sys = Sys(
    r: Reader,
    taken: seq<byte>,        // from the transport, in completion order
    fate: seq<Fate>,         // of each taken byte
    accepted: seq<Request>,
    posts: seq<Report>)

  datatype Event =
    | Accept(kind: Kind, size: nat, cb: Callback, timed: bool)
    | Complete(key: nat, chunk: seq<byte>, err: bool)
    | Execute(key: nat)
    | SetDump(on: bool)

  const Start: Sys := Sys(Fresh, [], [], [], [])

  function Texts(posts: seq<Report>): seq<seq<byte>> {
    seq(|posts|, i requires 0 <= i < |posts| => posts[i].bytes)
  }

  /** Everything reported to the user so far, in the order of the callbacks. */
  function Delivered(posts: seq<Report>): seq<byte> {
    Concat(Texts(posts))
  }

  /** The handler `key` completes the live read. */
  predicate Waiting(r: Reader, key: nat) {
    && key in r.pending
    && (r.pending[key].Op? || r.pending[key].Done?)
    && r.pending[key].id == r.id
  }

  function Chunk(h: Handler): seq<byte> {
    if h.Done? then h.chunk else []
  }

  /** Bytes completed for the live read whose continuation has not run yet. */
  ghost function InFlight(r: Reader): seq<byte> {
    if exists k :: Waiting(r, k) then var k :| Waiting(r, k); Chunk(r.pending[k]) else []
  }

  /** The callback posted by a step, if it posted one. */
  function Posted(before: Reader, after: Reader, timedOut: bool): seq<Report> {
    if before.next < after.next && after.next - 1 in after.pending && after.pending[after.next - 1].User? then
      var u := after.pending[after.next - 1];
      [Report(u.cb, u.err, after.held[..Min(u.count, |after.held|)], timedOut)]
    else []
  }

  /** A plain read that asks for less than the residue meets the look-ahead. */
  predicate Short(q: Request) {
    !q.kind.Until? && q.had > q.size
  }

  ghost predicate Enabled(s: Sys, e: Event) {
    match e
    case Accept(_, _, _, _) => s.r.id == 0
    case Complete(k, chunk, _) => k in s.r.pending && s.r.pending[k].Op? && |chunk| <= s.r.pending[k].count
    case Execute(k) => k in s.r.pending && !s.r.pending[k].Op?
    case SetDump(_) => true
  }

  /** A request is accepted by an idle reader. */
  function AcceptStep(s: Sys, q: Request): Sys
    requires |s.taken| == |s.fate| && s.r.id == 0
  {
    var r' := AsyncRead(s.r, q.kind, q.size, q.cb, q.timed).0;
    var at := |Delivered(s.posts)| + q.size;
    s.(r := r',
       fate := if Short(q) then Lose(s.fate, at, at + 1, LookAhead) else s.fate,
       accepted := s.accepted + [q],
       posts := s.posts + Posted(s.r, r', false))
  }

  /** The transport completes an operation: its bytes are late unless the operation
      belongs to the live read. */
  function CompleteStep(s: Sys, key: nat, chunk: seq<byte>, err: bool): Sys
    requires |s.taken| == |s.fate| && key in s.r.pending && s.r.pending[key].Op?
  {
    s.(r := Fill(s.r, key, chunk, err),
       taken := s.taken + chunk,
       fate := s.fate + Same(if Waiting(s.r, key) then Kept else Late, |chunk|))
  }

  /** The executor runs a handler. A timer of the live read makes late what is in flight. */
  ghost function ExecuteStep(s: Sys, key: nat): Sys
    requires |s.taken| == |s.fate| && key in s.r.pending && !s.r.pending[key].Op?
  {
    var r' := Run(s.r, key);
    var at := |Delivered(s.posts)| + |s.r.held|;
    var timedOut := s.r.pending[key] == Timer(s.r.id);
    s.(r := r',
       fate := if timedOut then Lose(s.fate, at, at + |InFlight(s.r)|, Late) else s.fate,
       posts := s.posts + Posted(s.r, r', timedOut))
  }

  /** One step; an event that is not possible (a busy reader, no such handler) changes nothing. */
  ghost function Step(s: Sys, e: Event): Sys
    requires |s.taken| == |s.fate|
  {
    if !Enabled(s, e) then s
    else
      match e
      case Accept(kind, size, cb, timed) => AcceptStep(s, Request(kind, size, cb, timed, |s.r.residue|))
      case Complete(k, chunk, err) => CompleteStep(s, k, chunk, err)
      case Execute(k) => ExecuteStep(s, k)
      case SetDump(on) => s.(r := s.r.(dumpOn := on))
  }

  ghost function Exec(s: Sys, es: seq<Event>): (s': Sys)
    requires |s.taken| == |s.fate|
    ensures |s'.taken| == |s'.fate|
    decreases |es|
  {
    if es == [] then s else Exec(Step(s, es[0]), es[1..])
  }

  // ----- the invariant -----

  function Bound(q: Request): nat {
    q.size + (if q.kind.Until? then q.had else 0)
  }

  /** A timer or an error cut the read short. */
  predicate CutShort(p: Report) {
    p.timedOut || p.err
  }

  /** The promise of each primitive about what it reports, unless a timer or an error cut it
      short. A delimiter from 128 up ends a read-until only inside the residue. */
  predicate Answers(q: Request, p: Report) {
    && p.cb == q.cb
    && |p.bytes| <= Bound(q)
    && (p.timedOut ==> q.timed && !p.err)
    && match q.kind
       case Partial => true
       case Exact => |p.bytes| == q.size || CutShort(p)
       case Until(d) =>
         if d < 128 then
           Framed(p.bytes, d) || (d !in p.bytes && (|p.bytes| >= q.size || CutShort(p)))
         else
           (Framed(p.bytes, d) && |p.bytes| <= q.had) || |p.bytes| >= q.size || CutShort(p)
  }

  /** Ids count the accepted reads; the live one, if any, is the newest; every handler has an
      id already given out; timers are those of reads with a timeout; and a completion outlives
      its read only if the timer ended it. */
  ghost predicate Handlers(r: Reader, accepted: seq<Request>, posts: seq<Report>) {
    && r.counter == |accepted| < ID_RANGE
    && (r.id == 0 || r.id == r.counter)
    && (forall k :: k in r.pending ==> k < r.next)
    && (forall k :: k in r.pending && !r.pending[k].User? ==>
         && 1 <= r.pending[k].id <= |accepted|
         && (if r.pending[k].Timer? then accepted[r.pending[k].id - 1].timed
             else r.pending[k].id == r.id || (r.pending[k].id <= |posts| && posts[r.pending[k].id - 1].timedOut)))
    && (forall k, j :: Waiting(r, k) && Waiting(r, j) ==> k == j)
  }

  /** One callback for every accepted read but the live one, in order of acceptance. */
  predicate Accounts(s: Sys) {
    && |s.posts| + (if s.r.id != 0 then 1 else 0) == |s.accepted|
    && forall i :: 0 <= i < |s.posts| ==> Answers(s.accepted[i], s.posts[i])
  }

  /** The live request. */
  predicate Serves(r: Reader, q: Request) {
    && r.requested == q.size && r.cb == q.cb
    && (q.kind.Partial? ==> r.held == [])
    && (q.kind.Until? && q.kind.delim < 128 ==> q.kind.delim !in r.held)
  }

  /** What the outstanding completion of the live read `q` looks like. While it waits on the
      transport the residue is empty. */
  predicate Shape(r: Reader, q: Request, h: Handler)
    requires h.Op? || h.Done?
  {
    && h.kind == q.kind
    && (h.Op? ==>
         && r.residue == []
         && (|r.held| + h.count == q.size || (q.kind.Until? && |r.held| == q.had && h.count == q.size)))
    && (h.Done? ==>
         && |r.held| + |h.chunk| <= Bound(q)
         && (r.residue != [] ==> !q.kind.Until? && !h.err && r.held == [] && |h.chunk| == q.size))
  }

  /** Every taken byte that was not lost is, in stream order, delivered, held by the live
      read, completed for it, or in the residue. */
  predicate Balanced(s: Sys, held: seq<byte>, inFlight: seq<byte>)
    requires |s.taken| == |s.fate|
  {
    KeptBytes(s.taken, s.fate) == Delivered(s.posts) + held + inFlight + s.r.residue
  }

  /** Handler `key` is the outstanding completion of the live read. */
  predicate LiveAt(s: Sys, key: nat)
    requires |s.taken| == |s.fate| && |s.accepted| > 0
  {
    var q := s.accepted[|s.accepted| - 1];
    && Waiting(s.r, key)
    && Serves(s.r, q)
    && Shape(s.r, q, s.r.pending[key])
    && Balanced(s, s.r.held, Chunk(s.r.pending[key]))
  }

  ghost predicate Inv(s: Sys) {
    && |s.taken| == |s.fate|
    && Handlers(s.r, s.accepted, s.posts)
    && Accounts(s)
    && (if s.r.id == 0 then Balanced(s, [], []) else exists k :: LiveAt(s, k))
  }
}
