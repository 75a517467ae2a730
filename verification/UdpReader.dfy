/** A StreamReader over a UDPClientStream. The stream calls back inline: an operation asked while
    bytes are buffered is completed and its continuation run before the call returns, which may ask
    again. An operation asked on an empty buffer starts a receive on the socket. */
module UdpReader {
  import opened Bytes
  import opened Fates
  import M = ReaderModel
  import opened ReaderSystem
  import opened ReaderInvariant
  import opened ReaderRuns
  import opened U = UdpClientStream

  /** One inline completion: `bytes` were handed over where `asked` were asked for, out of datagram
      number `datagram`, from position `at` of the buffer. */
  datatype Handed = Handed(asked: nat, bytes: seq<byte>, datagram: int, at: nat)

  /** `made` are the steps the reader has made; `arrived` are the datagrams received, each truncated
      to the buffer; `handed` are the inline completions. */
  datatype Link = Link(buffer: Buffer, rs: Sys, made: seq<Event>, arrived: seq<seq<byte>>, handed: seq<Handed>)

  datatype LinkEvent =
    | Ask(kind: M.Kind, size: nat, cb: M.Callback, timed: bool)
    | Datagram(key: nat, bytes: seq<byte>)          // the receive for operation `key` completes
    | Failure(key: nat)                             // it completes with an error and no bytes
    | RunHandler(key: nat)

  /** Between events, an operation of the reader is a receive outstanding on the socket. */
  predicate Receiving(s: Sys, key: nat) {
    key in s.r.pending && s.r.pending[key].Op?
  }

  /** The newest handler is an operation that was not there before. */
  predicate Asks(before: Sys, after: Sys) {
    after.r.next > before.r.next && Receiving(after, after.r.next - 1)
  }

  /** The reader has come here by the steps `made`. */
  ghost predicate Made(u: Link) {
    Inv(u.rs) && u.rs == Exec(Start, u.made)
  }

  /** `UDPClientStream::async_read_some` with bytes in the buffer: copy, then call back. */
  ghost function Hand(u: Link, key: nat): (u': Link)
    requires InBounds(u.buffer) && |u.rs.taken| == |u.rs.fate| && Receiving(u.rs, key)
    ensures |u'.rs.taken| == |u'.rs.fate|
  {
    var asked := u.rs.r.pending[key].count;
    var bytes := Window(u.buffer)[..Min(asked, |Window(u.buffer)|)];
    Link(Give(u.buffer, asked),
         Step(Step(u.rs, Complete(key, bytes, false)), Execute(key)),
         u.made + [Complete(key, bytes, false), Execute(key)],
         u.arrived,
         u.handed + [Handed(asked, bytes, |u.arrived| - 1, u.buffer.begin)])
  }

  // ----- one inline callback -----

  /** Operation `key` is answered: what is outstanding then was so before, or has just been asked;
      the other operations still are. */
  ghost predicate Leaves(s: Sys, key: nat, s': Sys) {
    && (forall k :: Receiving(s', k) ==> (Receiving(s, k) && k != key) || (k == s'.r.next - 1 && Asks(s, s')))
    && (forall k :: Receiving(s, k) && k != key ==> Receiving(s', k))
  }

  /** The outstanding operation completes and its continuation runs at once. */
  lemma Answered(s: Sys, key: nat, chunk: seq<byte>, err: bool)
    requires Inv(s) && Receiving(s, key) && |chunk| <= s.r.pending[key].count
    ensures var s' := Step(Step(s, Complete(key, chunk, err)), Execute(key));
            && Inv(s') && s'.accepted == s.accepted && s.posts <= s'.posts && s'.taken == s.taken + chunk
            && Leaves(s, key, s')
            && (|chunk| == s.r.pending[key].count || err ==> !Asks(s, s'))
  {
    var s1 := Step(s, Complete(key, chunk, err));
    assert s1 == CompleteStep(s, key, chunk, err);
    Completed(s, key, chunk, err);
    hide Inv; hide Step; hide CompleteStep; hide AsksNewest; hide Asks; hide Leaves;
    Continued(s1, key);
    RunAsks(s1, key);
    LeavesThrough(s, s1, Step(s1, Execute(key)), key);
    if |chunk| == s.r.pending[key].count || err {
      FullChunkEnds(s, s1, key, chunk, err);
    }
  }

  lemma LeavesThrough(s: Sys, s1: Sys, s': Sys, key: nat)
    requires s1.r.next == s.r.next && AsksNewest(s1.r, s'.r) && KeepsAsking(s1, s')
    requires forall k :: Receiving(s1, k) <==> Receiving(s, k) && k != key
    ensures Leaves(s, key, s')
  {
    forall k | Receiving(s, k) && k != key ensures Receiving(s', k) {
      assert Receiving(s1, k);
    }
    forall k | Receiving(s', k) ensures (Receiving(s, k) && k != key) || (k == s'.r.next - 1 && Asks(s, s')) {
      assert Receiving(s1, k) || k == s'.r.next - 1;
    }
  }

  lemma Completed(s: Sys, key: nat, chunk: seq<byte>, err: bool)
    requires Inv(s) && Enabled(s, Complete(key, chunk, err))
    ensures var s1 := CompleteStep(s, key, chunk, err);
            && Inv(s1) && |s1.taken| == |s1.fate| && s1.accepted == s.accepted && s1.posts == s.posts
            && s1.taken == s.taken + chunk && Enabled(s1, Execute(key)) && s1.r.next == s.r.next
            && forall k :: Receiving(s1, k) <==> Receiving(s, k) && k != key
  {
    CompleteKeeps(s, key, chunk, err);
    hide Inv;
  }

  lemma Continued(s: Sys, key: nat)
    requires Inv(s) && Enabled(s, Execute(key))
    ensures var s' := Step(s, Execute(key));
            Inv(s') && s'.accepted == s.accepted && s.posts <= s'.posts && s'.taken == s.taken
  {
    ExecuteKeeps(s, key);
    hide Inv; hide Lose; hide Posted; hide M.Run; hide Concat;
  }

  /** What is outstanding stays so. */
  ghost predicate KeepsAsking(s: Sys, s': Sys) {
    forall k :: Receiving(s, k) ==> Receiving(s', k)
  }

  lemma RunAsks(s: Sys, key: nat)
    requires Inv(s) && Enabled(s, Execute(key))
    ensures AsksNewest(s.r, Step(s, Execute(key)).r) && KeepsAsking(s, Step(s, Execute(key)))
  {
    hide Lose;
    hide Concat;
    var r0, h := Pop(s.r, key), s.r.pending[key];
    QueueGrows(r0, h);
    if h.Done? {
      ContinueAsks(M.DumpCallback(r0, h.chunk, h.err, h.dumping), h.id, h.kind, h.chunk, h.err);
    }
    hide M.Continue;
    hide Inv;
  }

  /** A completion of the live read with an error, or with all that was asked for, ends it; that of
      any other read does nothing. */
  lemma FullChunkEnds(s: Sys, s1: Sys, key: nat, chunk: seq<byte>, err: bool)
    requires Inv(s) && Receiving(s, key) && |chunk| <= s.r.pending[key].count
    requires (|chunk| == s.r.pending[key].count || err)
    requires s1 == CompleteStep(s, key, chunk, err)
    ensures !Asks(s, Step(s1, Execute(key)))
  {
    hide KeptBytes;
    hide Concat;
    hide Lose;
    var h := s1.r.pending[key];
    var r1 := M.DumpCallback(Pop(s1.r, key), h.chunk, h.err, h.dumping);
    if Waiting(s.r, key) && s.r.id != 0 {
      NothingMissing(s, key);
      AbsorbKeepsQueue(r1, h.kind, h.chunk);
      assert M.Ends(r1, h.kind, h.chunk, h.err);
    }
    hide M.Absorb;
    hide Inv;
  }

  lemma NothingMissing(s: Sys, key: nat)
    requires Inv(s) && Waiting(s.r, key) && s.r.pending[key].Op?
    ensures s.r.id != 0 && |s.r.held| + s.r.pending[key].count >= s.r.requested
  {
    hide KeptBytes;
    hide Concat;
    var live :| LiveAt(s, live);
    assert live == key;
  }

  /** `u'` has come from `u` by inline callbacks: no byte is lost. */
  ghost predicate Follows(u: Link, u': Link) {
    && Made(u') && u'.rs.accepted == u.rs.accepted && u.rs.posts <= u'.rs.posts
    && InBounds(u.buffer) && InBounds(u'.buffer) && u'.arrived == u.arrived && |u'.buffer.data| == |u.buffer.data|
    && u'.rs.taken + Window(u'.buffer) == u.rs.taken + Window(u.buffer)
  }

  lemma FollowsSelf(u: Link)
    requires Made(u) && InBounds(u.buffer)
    ensures Follows(u, u)
  {
  }

  lemma FollowsOn(u: Link, u1: Link, u2: Link)
    requires Follows(u, u1) && Follows(u1, u2)
    ensures Follows(u, u2)
  {
    hide Made;
    hide Window;
  }

  lemma HandIs(u: Link, key: nat)
    requires InBounds(u.buffer) && Made(u) && Receiving(u.rs, key)
    ensures var u' := Hand(u, key);
            && Follows(u, u') && Made(u') && InBounds(u'.buffer)
            && Leaves(u.rs, key, u'.rs)
            && (Asks(u.rs, u'.rs) && Window(u.buffer) != [] ==> |Window(u'.buffer)| < |Window(u.buffer)|)
            && (Asks(u.rs, u'.rs) ==> u'.rs.r.next > 0 && Receiving(u'.rs, u'.rs.r.next - 1))
  {
    var asked := u.rs.r.pending[key].count;
    var n := Min(asked, |Window(u.buffer)|);
    GiveWindow(u.buffer, asked);
    HandReader(u, key);
    Regroup(u.rs.taken, Window(u.buffer), n);
    hide Made; hide Step; hide Give; hide Leaves; hide Window; hide Rewound;
  }

  /** The reader's part of it. */
  lemma HandReader(u: Link, key: nat)
    requires InBounds(u.buffer) && Made(u) && Receiving(u.rs, key)
    ensures var u' := Hand(u, key);
            && Made(u') && u'.rs.accepted == u.rs.accepted && u.rs.posts <= u'.rs.posts && Leaves(u.rs, key, u'.rs)
            && u'.rs.taken == u.rs.taken + Window(u.buffer)[..Min(u.rs.r.pending[key].count, |Window(u.buffer)|)]
            && (u.rs.r.pending[key].count <= |Window(u.buffer)| ==> !Asks(u.rs, u'.rs))
  {
    var n := Min(u.rs.r.pending[key].count, |Window(u.buffer)|);
    Answered(u.rs, key, Window(u.buffer)[..n], false);
    MadeTwo(u.rs, u.made, Complete(key, Window(u.buffer)[..n], false), Execute(key));
    hide Step; hide Inv; hide Give; hide Leaves; hide Exec; hide Window; hide Asks;
  }

  lemma Regroup(a: seq<byte>, b: seq<byte>, n: nat)
    requires n <= |b|
    ensures a + b[..n] + b[n..] == a + b
  {
  }

  lemma MadeTwo(s: Sys, made: seq<Event>, e1: Event, e2: Event)
    requires s == Exec(Start, made) && |s.taken| == |s.fate|
    ensures |Step(s, e1).taken| == |Step(s, e1).fate|
    ensures Step(Step(s, e1), e2) == Exec(Start, made + [e1, e2])
  {
    hide Step;
    hide Exec;
    StepSized(s, e1);
    ExecSnoc(Start, made, e1);
    ExecSnoc(Start, made + [e1], e2);
    assert made + [e1] + [e2] == made + [e1, e2];
  }

  // ----- the chain -----

  lemma MadeSized(u: Link)
    requires Made(u)
    ensures |u.rs.taken| == |u.rs.fate|
  {
  }

  /** A continuation that asks again asks for at least one byte. */
  lemma AsksMore(u: Link, key: nat)
    requires InBounds(u.buffer) && |u.rs.taken| == |u.rs.fate| && Receiving(u.rs, key)
    ensures var u' := Hand(u, key);
            Asks(u.rs, u'.rs) ==> u'.rs.r.next > 0 && u'.rs.r.pending[u'.rs.r.next - 1].count > 0
  {
    hide Lose; hide Concat; hide Window; hide InFlight; hide Posted;
    var bytes := Window(u.buffer)[..Min(u.rs.r.pending[key].count, |Window(u.buffer)|)];
    var s1 := Step(u.rs, Complete(key, bytes, false));
    var h := s1.r.pending[key];
    ContinueAsksMore(M.DumpCallback(Pop(s1.r, key), h.chunk, h.err, h.dumping), h.id, h.kind, h.chunk, h.err);
    hide M.Continue;
  }

  lemma ContinueAsksMore(r: M.Reader, id: nat, kind: M.Kind, chunk: seq<byte>, err: bool)
    ensures var r' := M.Continue(r, id, kind, chunk, err);
            r'.next > r.next && r'.next - 1 in r'.pending && r'.pending[r'.next - 1].Op? ==> r'.pending[r'.next - 1].count > 0
  {
    AbsorbKeepsQueue(r, kind, chunk);
    assert !M.Ends(r, kind, chunk, err) ==> |M.Absorb(r, kind, chunk).held| < r.requested;
    hide M.Absorb;
    hide M.Ends;
    hide M.AfterDrain;
  }

  /** What is left of the inline callbacks: the buffered bytes, and a call for no bytes at all. */
  ghost function Burden(u: Link, key: nat): nat
    requires InBounds(u.buffer) && Receiving(u.rs, key)
  {
    2 * |Window(u.buffer)| + (if u.rs.r.pending[key].count == 0 then 1 else 0)
  }

  /** Each callback that asks again consumes bytes of the buffer, or was asked for none and then asks
      for some. */
  lemma HandLightens(u: Link, key: nat)
    requires InBounds(u.buffer) && |u.rs.taken| == |u.rs.fate| && Receiving(u.rs, key) && Window(u.buffer) != []
    ensures var u1 := Hand(u, key);
            && InBounds(u1.buffer)
            && (Asks(u.rs, u1.rs) ==>
                 && u1.rs.r.next > 0 && Receiving(u1.rs, u1.rs.r.next - 1)
                 && Burden(u1, u1.rs.r.next - 1) < Burden(u, key))
  {
    AsksMore(u, key);
    HandGives(u, key);
    GiveWindow(u.buffer, u.rs.r.pending[key].count);
    hide Hand; hide Window; hide Give;
  }

  /** `async_read_some` for operation `key`: with bytes in the buffer its callback is made, and what
      that asks is served in turn; on an empty buffer a receive is started. */
  ghost function Serve(u: Link, key: nat): (u': Link)
    requires InBounds(u.buffer) && |u.rs.taken| == |u.rs.fate| && Receiving(u.rs, key)
    ensures InBounds(u'.buffer) && |u'.rs.taken| == |u'.rs.fate|
    decreases Burden(u, key)
  {
    hide Hand; hide Window; hide Give; hide Asks; hide Burden; hide Receiving; hide InBounds;
    if Window(u.buffer) == [] then u
    else
      HandLightens(u, key);
      var u1 := Hand(u, key);
      if Asks(u.rs, u1.rs) then Serve(u1, u1.rs.r.next - 1) else u1
  }

  /** A link whose operation `key` is about to be served. */
  ghost predicate Serving(u: Link, key: nat) {
    InBounds(u.buffer) && Made(u) && Receiving(u.rs, key)
  }

  lemma HandOn(u: Link, key: nat)
    requires Serving(u, key) && InBounds(u.buffer) && |u.rs.taken| == |u.rs.fate| && Receiving(u.rs, key)
    ensures var u1 := Hand(u, key);
            && InBounds(u1.buffer) && Follows(u, u1)
            && (Asks(u.rs, u1.rs) ==> u1.rs.r.next > 0 && Serving(u1, u1.rs.r.next - 1))
  {
    HandIs(u, key);
    hide Hand; hide Made; hide Follows; hide Window; hide InBounds; hide Leaves;
  }

  lemma ServingSized(u: Link, key: nat)
    requires Serving(u, key)
    ensures InBounds(u.buffer) && |u.rs.taken| == |u.rs.fate| && Receiving(u.rs, key)
    ensures Follows(u, u)
  {
    FollowsSelf(u);
  }

  lemma {:induction false} ServeIs(u: Link, key: nat)
    requires Serving(u, key) && InBounds(u.buffer) && |u.rs.taken| == |u.rs.fate| && Receiving(u.rs, key)
    ensures Follows(u, Serve(u, key))
    decreases Burden(u, key)
  {
    hide Serving; hide Follows; hide Hand; hide Window; hide Asks; hide Burden; hide Receiving; hide InBounds;
    ServingSized(u, key);
    if Window(u.buffer) != [] {
      HandLightens(u, key);
      HandOn(u, key);
      var u1 := Hand(u, key);
      if Asks(u.rs, u1.rs) {
        ServingSized(u1, u1.rs.r.next - 1);
        ServeIs(u1, u1.rs.r.next - 1);
        FollowsOn(u, u1, Serve(u1, u1.rs.r.next - 1));
      }
    }
  }

  lemma HandGives(u: Link, key: nat)
    requires InBounds(u.buffer) && |u.rs.taken| == |u.rs.fate| && Receiving(u.rs, key)
    ensures Hand(u, key).buffer == Give(u.buffer, u.rs.r.pending[key].count)
  {
  }

  /** What an event of the reader asks is served. */
  ghost function Served(before: Sys, u: Link): (u': Link)
    requires InBounds(u.buffer) && |u.rs.taken| == |u.rs.fate|
    ensures InBounds(u'.buffer) && |u'.rs.taken| == |u'.rs.fate|
  {
    if Asks(before, u.rs) then Serve(u, u.rs.r.next - 1) else u
  }

  lemma ServedIs(before: Sys, u: Link)
    requires InBounds(u.buffer) && Made(u) && |u.rs.taken| == |u.rs.fate|
    ensures Follows(u, Served(before, u))
  {
    hide Made; hide Follows; hide Serve; hide InBounds;
    if Asks(before, u.rs) {
      ServeIs(u, u.rs.r.next - 1);
    } else {
      FollowsSelf(u);
    }
  }

  /** Outside its bounds the buffer is not the stream's any more: nothing is said of what follows. */
  ghost predicate Possible(u: Link, e: LinkEvent) {
    && InBounds(u.buffer)
    && match e
       case Ask(_, _, _, _) => u.rs.r.id == 0 && |u.rs.accepted| + 1 < M.ID_RANGE
       case Datagram(key, _) => Receiving(u.rs, key)
       case Failure(key) => Receiving(u.rs, key)
       case RunHandler(key) => key in u.rs.r.pending && !u.rs.r.pending[key].Op?
  }

  /** The reader makes one step. */
  ghost function Moved(u: Link, e: Event): (u': Link)
    requires Made(u) && (e.Accept? ==> |u.rs.accepted| + 1 < M.ID_RANGE)
    ensures Made(u') && u.rs.posts <= u'.rs.posts
  {
    StepKeepsBefore(u.rs, e);
    ExecSnoc(Start, u.made, e);
    PostsGrow(u.rs, e);
    u.(rs := Step(u.rs, e), made := u.made + [e])
  }

  lemma PostsGrow(s: Sys, e: Event)
    requires |s.taken| == |s.fate|
    ensures s.posts <= Step(s, e).posts
  {
    hide Lose;
    hide Concat;
    hide Posted;
  }

  ghost function LinkStep(u: Link, e: LinkEvent): (u': Link)
    requires Made(u)
    ensures Made(u') && u.rs.posts <= u'.rs.posts && |u'.buffer.data| == |u.buffer.data|
  {
    if !Possible(u, e) then u
    else
      match e
      case Ask(kind, size, cb, timed) =>
        var u1 := Moved(u, Accept(kind, size, cb, timed));
        ServedIs(u.rs, u1);
        Served(u.rs, u1)
      case Datagram(key, bytes) =>
        var u1 := u.(buffer := Received(u.buffer, bytes), arrived := u.arrived + [Truncated(u.buffer, bytes)]);
        if InBounds(u1.buffer) then
          ServeIs(u1, key);
          Serve(u1, key)
        else u1
      case Failure(key) =>
        Answered(u.rs, key, [], true);
        MadeTwo(u.rs, u.made, Complete(key, [], true), Execute(key));
        u.(rs := Step(Step(u.rs, Complete(key, [], true)), Execute(key)),
           made := u.made + [Complete(key, [], true), Execute(key)])
      case RunHandler(key) =>
        var u1 := Moved(u, Execute(key));
        ServedIs(u.rs, u1);
        Served(u.rs, u1)
  }

  ghost function LinkExec(u: Link, es: seq<LinkEvent>): (u': Link)
    requires Made(u)
    ensures Made(u') && u.rs.posts <= u'.rs.posts && |u'.buffer.data| == |u.buffer.data|
    decreases |es|
  {
    if es == [] then u else LinkExec(LinkStep(u, es[0]), es[1..])
  }

  ghost function Connected(capacity: nat): (u: Link)
    ensures Made(u) && |u.buffer.data| == capacity
  {
    StartInv();
    Link(Buffer(seq(capacity, i => 0), 0, 0), Start, [], [], [])
  }
}
