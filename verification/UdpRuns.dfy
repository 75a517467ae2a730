/** Runs of a StreamReader over a UDPClientStream: as long as a datagram that is not wholly taken comes
    for the only receive outstanding, the stream is the datagrams end to end; and what happens when it
    does not. */
module UdpRuns {
  import opened Bytes
  import opened Fates
  import M = ReaderModel
  import opened ReaderSystem
  import opened ReaderInvariant
  import opened ReaderRuns
  import F = Effects
  import opened U = UdpClientStream
  import opened UdpReader

  // ----- an undisturbed stream -----

  function Pieces(handed: seq<Handed>): seq<seq<byte>> {
    seq(|handed|, i requires 0 <= i < |handed| => handed[i].bytes)
  }

  /** The completion got what was asked, or what was left, of one datagram. */
  predicate OfOne(h: Handed, arrived: seq<seq<byte>>) {
    && 0 <= h.datagram < |arrived| && h.at <= |arrived[h.datagram]|
    && |h.bytes| == Min(h.asked, |arrived[h.datagram]| - h.at)
    && h.bytes == arrived[h.datagram][h.at..h.at + |h.bytes|]
  }

  /** The buffer holds the last datagram up to the end cursor. */
  predicate HoldsLast(b: Buffer, arrived: seq<seq<byte>>) {
    b.end > 0 ==>
      && arrived != [] && b.end == |arrived[|arrived| - 1]| <= |b.data|
      && b.data[..b.end] == arrived[|arrived| - 1]
  }

  ghost predicate Straight(u: Link) {
    && Made(u) && InBounds(u.buffer) && Rewound(u.buffer)
    && u.rs.taken + Window(u.buffer) == Concat(u.arrived)
    && HoldsLast(u.buffer, u.arrived)
    && Concat(Pieces(u.handed)) == u.rs.taken
    && forall i :: 0 <= i < |u.handed| ==> OfOne(u.handed[i], u.arrived)
  }

  /** Between events: and a receive is outstanding only on a rewound buffer. */
  ghost predicate Tidy(u: Link) {
    Straight(u) && forall k :: Receiving(u.rs, k) ==> u.buffer.end == 0
  }

  /** What is handed over is the next piece of the last datagram. */
  lemma NextPiece(b: Buffer, asked: nat, arrived: seq<seq<byte>>)
    requires InBounds(b) && HoldsLast(b, arrived) && b.begin < b.end
    ensures var bytes := Window(b)[..Min(asked, |Window(b)|)];
            OfOne(Handed(asked, bytes, |arrived| - 1, b.begin), arrived)
    ensures HoldsLast(Give(b, asked), arrived)
  {
    var last := arrived[|arrived| - 1];
    assert Window(b) == last[b.begin..];
  }

  lemma HandStraight(u: Link, key: nat)
    requires Straight(u) && Receiving(u.rs, key) && Window(u.buffer) != []
    ensures Straight(Hand(u, key))
  {
    var asked, u' := u.rs.r.pending[key].count, Hand(u, key);
    var h := u'.handed[|u.handed|];
    HandIs(u, key);
    GiveWindow(u.buffer, asked);
    NextPiece(u.buffer, asked, u.arrived);
    HandTakes(u, key);
    assert u'.handed == u.handed + [h];
    PiecesSnoc(u.handed, h);
    hide Made; hide Hand; hide Concat; hide Window; hide Give; hide OfOne; hide HoldsLast; hide Rewound;
  }

  lemma PiecesSnoc(handed: seq<Handed>, h: Handed)
    ensures Concat(Pieces(handed + [h])) == Concat(Pieces(handed)) + h.bytes
  {
    assert Pieces(handed + [h]) == Pieces(handed) + [h.bytes];
    ConcatSnoc(Pieces(handed), h.bytes);
  }

  lemma HandTakes(u: Link, key: nat)
    requires Made(u) && InBounds(u.buffer) && Receiving(u.rs, key)
    ensures Hand(u, key).rs.taken == u.rs.taken + Hand(u, key).handed[|u.handed|].bytes
  {
    Answered(u.rs, key, Hand(u, key).handed[|u.handed|].bytes, false);
    hide Step; hide Inv;
  }

  lemma StraightTidy(u: Link)
    requires Straight(u)
    ensures Made(u) && InBounds(u.buffer) && |u.rs.taken| == |u.rs.fate|
    ensures Window(u.buffer) == [] || NoReceive(u.rs) ==> Tidy(u)
  {
    MadeSized(u);
    hide Made; hide Concat; hide OfOne;
  }

  /** Only operation `key` is outstanding. */
  ghost predicate OnlyOne(s: Sys, key: nat) {
    Receiving(s, key) && forall k :: Receiving(s, k) ==> k == key
  }

  ghost predicate NoReceive(s: Sys) {
    forall k :: !Receiving(s, k)
  }

  lemma HandOne(u: Link, key: nat)
    requires Straight(u) && Made(u) && InBounds(u.buffer) && OnlyOne(u.rs, key) && Window(u.buffer) != []
    ensures var u1 := Hand(u, key);
            && Straight(u1) && Made(u1) && InBounds(u1.buffer)
            && (if Asks(u.rs, u1.rs) then
                  |Window(u1.buffer)| < |Window(u.buffer)| && u1.rs.r.next > 0 && OnlyOne(u1.rs, u1.rs.r.next - 1)
                else NoReceive(u1.rs))
  {
    HandIs(u, key);
    HandStraight(u, key);
    hide Hand; hide Made; hide Straight; hide Window; hide InBounds;
  }

  lemma {:induction false} ServeTidy(u: Link, key: nat)
    requires Straight(u) && Made(u) && InBounds(u.buffer) && OnlyOne(u.rs, key)
    ensures Tidy(Serve(u, key))
    decreases Burden(u, key)
  {
    hide Hand; hide Made; hide Straight; hide Tidy; hide Follows; hide Window; hide InBounds;
    StraightTidy(u);
    if Window(u.buffer) != [] {
      HandOne(u, key);
      var u1 := Hand(u, key);
      StraightTidy(u1);
      var again := Asks(u.rs, u1.rs);
      hide Asks;
      if again {
        hide OnlyOne;
        ServeTidy(u1, u1.rs.r.next - 1);
      }
    }
  }

  // ----- each event -----

  /** An event of the reader keeps the buffer; it has at most one operation more, the newest. */
  lemma MovedIs(u: Link, e: Event)
    requires Straight(u) && Enabled(u.rs, e) && (e.Accept? || e.Execute?)
    requires e.Accept? ==> |u.rs.accepted| + 1 < M.ID_RANGE
    ensures var u' := Moved(u, e);
            Straight(u') && AsksNewest(u.rs.r, u'.rs.r) && u'.buffer == u.buffer
  {
    hide Lose; hide Concat; hide InBounds; hide Rewound; hide Window;
    hide HoldsLast; hide OfOne; hide Inv; hide Pieces; hide Exec;
    if e.Execute? {
      RunAsks(u.rs, e.key);
      hide M.Run;
    } else {
      AcceptAsks(u.rs.r, e.kind, e.size, e.cb, e.timed);
      hide M.AsyncRead;
    }
    hide AsksNewest;
  }

  lemma OnlyNewest(before: Sys, after: Sys)
    requires AsksNewest(before.r, after.r) && NoReceive(before) && Asks(before, after)
    ensures OnlyOne(after, after.r.next - 1)
  {
    forall k | Receiving(after, k) ensures k == after.r.next - 1 {
      assert !Receiving(before, k);
    }
  }

  lemma StillTidy(before: Sys, u: Link)
    requires Straight(u) && AsksNewest(before.r, u.rs.r) && !Asks(before, u.rs)
    requires NoReceive(before) || u.buffer.end == 0
    ensures Tidy(u)
  {
    hide Straight;
    forall k | Receiving(u.rs, k) ensures u.buffer.end == 0 {
      assert Receiving(before, k) || k == u.rs.r.next - 1;
    }
  }

  /** What the event asks is served. If a receive is outstanding the buffer is empty, and what is asked
      is another receive. */
  lemma MovedTidy(u: Link, x: Event)
    requires Tidy(u) && Enabled(u.rs, x) && (x.Accept? || x.Execute?)
    requires x.Accept? ==> |u.rs.accepted| + 1 < M.ID_RANGE
    ensures InBounds(Moved(u, x).buffer) && |Moved(u, x).rs.taken| == |Moved(u, x).rs.fate|
    ensures Tidy(Served(u.rs, Moved(u, x)))
  {
    var u1 := Moved(u, x);
    TidyFacts(u);
    MovedIs(u, x);
    StraightTidy(u1);
    hide Straight; hide Made; hide Tidy; hide Moved; hide NoReceive; hide AsksNewest; hide Enabled;
    MovedServed(u.rs, u1);
  }

  lemma MovedServed(before: Sys, u: Link)
    requires Straight(u) && Made(u) && InBounds(u.buffer) && |u.rs.taken| == |u.rs.fate|
    requires AsksNewest(before.r, u.rs.r) && (!NoReceive(before) ==> u.buffer.begin == u.buffer.end == 0)
    ensures Tidy(Served(before, u))
  {
    hide Straight; hide Made; hide Tidy; hide NoReceive; hide AsksNewest; hide OnlyOne;
    if !Asks(before, u.rs) {
      StillTidy(before, u);
    } else if NoReceive(before) {
      OnlyNewest(before, u.rs);
      ServeTidy(u, u.rs.r.next - 1);
    } else {
      StraightTidy(u);
      assert Window(u.buffer) == [];
    }
  }

  lemma TidyFacts(u: Link)
    requires Tidy(u)
    ensures Straight(u) && InBounds(u.buffer) && (!NoReceive(u.rs) ==> u.buffer.begin == u.buffer.end == 0)
  {
  }

  /** The buffer when a datagram has come for a receive. */
  lemma ReceivedStraight(u: Link, key: nat, bytes: seq<byte>)
    requires Tidy(u) && Receiving(u.rs, key)
    ensures var d := Truncated(u.buffer, bytes);
            var u1 := u.(buffer := Received(u.buffer, bytes), arrived := u.arrived + [d]);
            Straight(u1) && Window(u1.buffer) == d && u1.buffer.begin == 0 && u1.buffer.end == |d|
  {
    hide Made;
    var d := Truncated(u.buffer, bytes);
    var u1 := u.(buffer := Received(u.buffer, bytes), arrived := u.arrived + [d]);
    ConcatSnoc(u.arrived, d);
    assert u.rs.taken + [] == u.rs.taken;
    forall i | 0 <= i < |u.handed| ensures OfOne(u1.handed[i], u1.arrived) {
      assert OfOne(u.handed[i], u.arrived);
    }
    MadeApart(u, u1);
  }

  lemma MadeApart(u: Link, u': Link)
    requires Made(u) && u'.rs == u.rs && u'.made == u.made
    ensures Made(u')
  {
  }

  /** The datagram is taken whole, or comes for the only receive outstanding. */
  ghost predicate Fine(u: Link, e: LinkEvent) {
    e.Datagram? && Possible(u, e) ==>
      |Truncated(u.buffer, e.bytes)| <= u.rs.r.pending[e.key].count || OnlyOne(u.rs, e.key)
  }

  /** A datagram no longer than what its operation asks for leaves the buffer empty. */
  lemma WholeTidy(u: Link, key: nat)
    requires Straight(u) && Receiving(u.rs, key) && u.buffer.begin == 0 && u.buffer.end <= u.rs.r.pending[key].count
    requires InBounds(u.buffer) && |u.rs.taken| == |u.rs.fate|
    ensures Tidy(Serve(u, key))
  {
    if Window(u.buffer) != [] {
      HandStraight(u, key);
      HandGives(u, key);
      var u1 := Hand(u, key);
      StraightTidy(u1);
      assert u1.buffer.end == 0 && Window(u1.buffer) == [];
      hide Hand; hide Straight;
    } else {
      StraightTidy(u);
    }
  }

  /** A longer one leaves bytes in the buffer, and the other receives outstanding. */
  lemma PartLeft(u: Link, key: nat, other: nat)
    requires Made(u) && InBounds(u.buffer) && |u.rs.taken| == |u.rs.fate| && u.buffer.begin == 0
    requires Receiving(u.rs, key) && Receiving(u.rs, other) && other != key && u.rs.r.pending[key].count < u.buffer.end
    ensures var u' := Serve(u, key);
            u'.buffer.end == u.buffer.end && Receiving(u'.rs, other) && |u'.buffer.data| == |u.buffer.data|
  {
    HandReader(u, key);
    HandGives(u, key);
    assert Window(u.buffer) != [];
    hide Hand; hide Made;
  }

  /** A datagram leaves things tidy exactly when it is taken whole or comes for the only receive. */
  lemma DatagramTidyIff(u: Link, key: nat, bytes: seq<byte>)
    requires Tidy(u) && Possible(u, Datagram(key, bytes))
    ensures Tidy(LinkStep(u, Datagram(key, bytes))) <==> Fine(u, Datagram(key, bytes))
  {
    var d := Truncated(u.buffer, bytes);
    var u1 := u.(buffer := Received(u.buffer, bytes), arrived := u.arrived + [d]);
    ReceivedStraight(u, key, bytes);
    StraightTidy(u1);
    assert LinkStep(u, Datagram(key, bytes)) == Serve(u1, key);
    hide LinkStep; hide Straight; hide Made; hide Serve; hide Window;
    if OnlyOne(u.rs, key) {
      ServeTidy(u1, key);
    } else if |d| <= u.rs.r.pending[key].count {
      WholeTidy(u1, key);
    } else {
      var other :| Receiving(u.rs, other) && other != key;
      PartLeft(u1, key, other);
    }
  }

  lemma FailureTidy(u: Link, key: nat)
    requires Tidy(u) && Possible(u, Failure(key))
    ensures Tidy(LinkStep(u, Failure(key)))
  {
    var u' := LinkStep(u, Failure(key));
    Answered(u.rs, key, [], true);
    hide Step; hide Made; hide Concat;
    assert u.rs.taken + [] == u.rs.taken;
    hide Inv;
  }

  /** Exactly what keeps the stream and its cursors tidy. */
  lemma StepTidyIff(u: Link, e: LinkEvent)
    requires Tidy(u)
    ensures Tidy(LinkStep(u, e)) <==> Fine(u, e)
  {
    hide Tidy; hide Fine; hide Served; hide Moved;
    if Possible(u, e) {
      match e
      case Ask(kind, size, cb, timed) => NotDatagram(u, e); MovedTidy(u, Accept(kind, size, cb, timed));
      case Datagram(key, bytes) => DatagramTidyIff(u, key, bytes);
      case Failure(key) => NotDatagram(u, e); FailureTidy(u, key);
      case RunHandler(key) => NotDatagram(u, e); MovedTidy(u, Execute(key));
    } else {
      NotDatagram(u, e);
    }
  }

  lemma NotDatagram(u: Link, e: LinkEvent)
    ensures !e.Datagram? || !Possible(u, e) ==> Fine(u, e)
  {
  }

  // ----- whole runs -----

  ghost predicate AllFine(u: Link, es: seq<LinkEvent>)
    requires Made(u)
    decreases |es|
  {
    es == [] || (Fine(u, es[0]) && AllFine(LinkStep(u, es[0]), es[1..]))
  }

  lemma {:induction false} RunTidy(u: Link, es: seq<LinkEvent>)
    requires Made(u) && Tidy(u) && AllFine(u, es)
    ensures Tidy(LinkExec(u, es))
    decreases |es|
  {
    hide LinkStep; hide Tidy; hide Made; hide Fine;
    if es != [] {
      StepTidyIff(u, es[0]);
      RunTidy(LinkStep(u, es[0]), es[1..]);
    }
  }

  /** At most one receive is outstanding. */
  ghost predicate OneAtATime(s: Sys) {
    forall k, j :: Receiving(s, k) && Receiving(s, j) ==> k == j
  }

  ghost predicate OneThroughout(u: Link, es: seq<LinkEvent>)
    requires Made(u)
    decreases |es|
  {
    OneAtATime(u.rs) && (es == [] || OneThroughout(LinkStep(u, es[0]), es[1..]))
  }

  /** With one receive at a time every datagram comes for the only one. */
  lemma {:induction false} OneIsFine(u: Link, es: seq<LinkEvent>)
    requires Made(u) && OneThroughout(u, es)
    ensures AllFine(u, es)
    decreases |es|
  {
    hide LinkStep; hide Made;
    if es != [] {
      OneIsFine(LinkStep(u, es[0]), es[1..]);
    }
  }

  /** Unless a read timed out a receive is that of the live read. */
  lemma ReceivingIsLive(s: Sys, key: nat)
    requires Inv(s) && !AnyTimedOut(s.posts) && Receiving(s, key)
    ensures s.r.id != 0 && Waiting(s.r, key)
    ensures forall k :: Receiving(s, k) ==> k == key
  {
    forall k | Receiving(s, k) ensures Waiting(s.r, k) {
      StaleIsTimedOut(s, k);
    }
  }

  lemma StaleIsTimedOut(s: Sys, key: nat)
    requires Inv(s) && Receiving(s, key)
    ensures !Waiting(s.r, key) ==> Overdue(s, key) && AnyTimedOut(s.posts)
  {
  }

  /** A receive outstanding for a read that has timed out. */
  predicate Overdue(s: Sys, key: nat) {
    && Receiving(s, key)
    && 0 < s.r.pending[key].id <= |s.posts| && s.posts[s.r.pending[key].id - 1].timedOut
  }

  /** Unless a read times out there is one receive at a time. */
  lemma {:induction false} UntimedIsOne(u: Link, es: seq<LinkEvent>)
    requires Made(u) && !AnyTimedOut(LinkExec(u, es).rs.posts)
    ensures OneThroughout(u, es)
    decreases |es|
  {
    TimedOutStays(u.rs.posts, LinkExec(u, es).rs.posts);
    forall k, j | Receiving(u.rs, k) && Receiving(u.rs, j) ensures k == j {
      ReceivingIsLive(u.rs, k);
    }
    hide LinkStep; hide Made; hide AnyTimedOut;
    if es != [] {
      UntimedIsOne(LinkStep(u, es[0]), es[1..]);
    }
  }

  lemma ConnectedTidy(capacity: nat)
    ensures Tidy(Connected(capacity))
  {
  }

  // ----- main results -----

  /** For every run in which a datagram that is not taken whole comes for the only receive outstanding:
      the cursors are in order and inside the buffer, and at its start when it is empty or a receive is
      outstanding; and what the reader took, followed by what is buffered, is the concatenation of the
      datagrams. */
  lemma DatagramStream(capacity: nat, es: seq<LinkEvent>)
    requires AllFine(Connected(capacity), es)
    ensures var u := LinkExec(Connected(capacity), es);
            && Reached(u.rs, u.made)
            && u.buffer.begin <= u.buffer.end <= |u.buffer.data| == capacity
            && (u.buffer.begin == u.buffer.end ==> u.buffer.begin == 0)
            && (forall k :: Receiving(u.rs, k) ==> u.buffer.begin == u.buffer.end == 0)
            && u.rs.taken + Window(u.buffer) == Concat(u.arrived)
  {
    ConnectedTidy(capacity);
    RunTidy(Connected(capacity), es);
    hide LinkExec; hide LiveAt; hide Accounts; hide OfOne; hide HoldsLast;
  }

  /** Completion by completion: each got the minimum of what was asked and what was left of one
      datagram, and together they are what the reader took. */
  lemma OneDatagramEach(capacity: nat, es: seq<LinkEvent>)
    requires AllFine(Connected(capacity), es)
    ensures var u := LinkExec(Connected(capacity), es);
            && Concat(Pieces(u.handed)) == u.rs.taken
            && forall i :: 0 <= i < |u.handed| ==> OfOne(u.handed[i], u.arrived)
  {
    ConnectedTidy(capacity);
    RunTidy(Connected(capacity), es);
    hide LinkExec; hide Made; hide OfOne;
  }

  /** Datagrams become a byte stream: if besides nothing came too late for its read and no read was
      shorter than its residue, then what was delivered, what the live read has, the residue and the
      buffer are the datagrams end to end. */
  lemma DatagramsDelivered(capacity: nat, es: seq<LinkEvent>)
    requires AllFine(Connected(capacity), es)
    requires var u := LinkExec(Connected(capacity), es); LateBytes(Start, u.made) == 0 && Shorts(u.rs.accepted) == 0
    ensures var u := LinkExec(Connected(capacity), es);
            InBounds(u.buffer)
            && Delivered(u.rs.posts) + LiveBytes(u.rs.r) + u.rs.r.residue + Window(u.buffer) == Concat(u.arrived)
  {
    DatagramStream(capacity, es);
    hide LinkExec;
    var u := LinkExec(Connected(capacity), es);
    WholeStream(u.rs, u.made);
  }

  /** In particular with one receive at a time. */
  lemma OneAtATimeIsFine(capacity: nat, es: seq<LinkEvent>)
    requires OneThroughout(Connected(capacity), es)
    ensures AllFine(Connected(capacity), es)
  {
    OneIsFine(Connected(capacity), es);
  }

  /** And that is so unless a read timed out; then the receive is that of the live read. */
  lemma OneUnlessTimedOut(capacity: nat, es: seq<LinkEvent>)
    requires !AnyTimedOut(LinkExec(Connected(capacity), es).rs.posts)
    ensures OneThroughout(Connected(capacity), es) && AllFine(Connected(capacity), es)
    ensures forall k :: Receiving(LinkExec(Connected(capacity), es).rs, k) ==> LiveReceive(LinkExec(Connected(capacity), es).rs, k)
  {
    UntimedIsOne(Connected(capacity), es);
    OneIsFine(Connected(capacity), es);
    hide LinkExec; hide OneThroughout; hide AllFine;
    var u := LinkExec(Connected(capacity), es);
    forall k | Receiving(u.rs, k) ensures LiveReceive(u.rs, k) {
      ReceivingIsLive(u.rs, k);
    }
  }

  // ----- what each event makes the reader do -----

  lemma {:induction false} ServeMakes(u: Link, key: nat)
    requires InBounds(u.buffer) && |u.rs.taken| == |u.rs.fate| && Receiving(u.rs, key)
    ensures u.made <= Serve(u, key).made && Serve(u, key).arrived == u.arrived
    ensures Window(u.buffer) != [] ==> Hand(u, key).made <= Serve(u, key).made
    decreases Burden(u, key)
  {
    if Window(u.buffer) != [] {
      HandLightens(u, key);
      var u1 := Hand(u, key);
      assert u.made <= u1.made && u1.arrived == u.arrived;
      hide Hand; hide Window; hide Asks; hide Burden; hide InBounds; hide Receiving;
      if Asks(u.rs, u1.rs) {
        ServeMakes(u1, u1.rs.r.next - 1);
      }
    }
  }

  lemma ServedMakes(before: Sys, u: Link)
    requires InBounds(u.buffer) && |u.rs.taken| == |u.rs.fate|
    ensures u.made <= Served(before, u).made && Served(before, u).arrived == u.arrived
  {
    if Asks(before, u.rs) {
      ServeMakes(u, u.rs.r.next - 1);
    }
  }

  /** A request and a handler of the reader are passed on to it; a failure completes its operation, with
      an error and no bytes; a datagram completes it with the front of what is then buffered, or, if that
      is nothing, leaves it outstanding. */
  lemma EventMakes(u: Link, e: LinkEvent)
    requires Made(u) && InBounds(u.buffer)
    ensures e.Ask? && u.rs.r.id == 0 && |u.rs.accepted| + 1 < M.ID_RANGE ==>
              u.made + [Accept(e.kind, e.size, e.cb, e.timed)] <= LinkStep(u, e).made
    ensures e.RunHandler? && e.key in u.rs.r.pending && !u.rs.r.pending[e.key].Op? ==>
              u.made + [Execute(e.key)] <= LinkStep(u, e).made
    ensures e.Failure? && Receiving(u.rs, e.key) ==>
              && LinkStep(u, e).made == u.made + [Complete(e.key, [], true), Execute(e.key)]
              && LinkStep(u, e).buffer == u.buffer
    ensures e.Datagram? && Receiving(u.rs, e.key) && InBounds(Received(u.buffer, e.bytes)) ==>
              var w := Window(Received(u.buffer, e.bytes));
              var piece := w[..Min(u.rs.r.pending[e.key].count, |w|)];
              && LinkStep(u, e).arrived == u.arrived + [Truncated(u.buffer, e.bytes)]
              && (if w == [] then LinkStep(u, e).made == u.made && Receiving(LinkStep(u, e).rs, e.key)
                  else u.made + [Complete(e.key, piece, false), Execute(e.key)] <= LinkStep(u, e).made)
  {
    MadeSized(u);
    if Possible(u, e) {
      match e
      case Ask(kind, size, cb, timed) => MovedMakes(u, Accept(kind, size, cb, timed));
      case RunHandler(key) => MovedMakes(u, Execute(key));
      case Failure(key) =>
      case Datagram(key, bytes) =>
        var u1 := u.(buffer := Received(u.buffer, bytes), arrived := u.arrived + [Truncated(u.buffer, bytes)]);
        if InBounds(u1.buffer) {
          ServeMakes(u1, key);
        }
    }
    hide Made; hide Served; hide Step;
  }

  lemma MovedMakes(u: Link, x: Event)
    requires Made(u) && InBounds(u.buffer) && (x.Accept? ==> |u.rs.accepted| + 1 < M.ID_RANGE)
    ensures InBounds(Moved(u, x).buffer) && |Moved(u, x).rs.taken| == |Moved(u, x).rs.fate|
    ensures u.made + [x] <= Served(u.rs, Moved(u, x)).made
  {
    var u1 := Moved(u, x);
    MadeSized(u1);
    assert u1.made == u.made + [x];
    hide Made; hide Moved; hide Served;
    ServedMakes(u.rs, u1);
  }

  /** A receive that fails is passed on: it is no longer outstanding and the buffer is as it was. If it
      was the live read's, that read is over, and its callback is told the error and what it holds;
      otherwise nobody is told. */
  lemma FailureTold(u: Link, key: nat)
    requires Made(u) && InBounds(u.buffer) && Receiving(u.rs, key)
    ensures var u' := LinkStep(u, Failure(key));
            && !Receiving(u'.rs, key) && u'.buffer == u.buffer && u'.rs.taken == u.rs.taken
            && (if Waiting(u.rs.r, key) then
                  && u'.rs.r.id == 0
                  && u'.rs.posts == u.rs.posts + [Report(u.rs.r.cb, true, u.rs.r.held, false)]
                else
                  u'.rs.posts == u.rs.posts && u'.rs.r.id == u.rs.r.id)
  {
    var s1 := Step(u.rs, Complete(key, [], true));
    FailedTold(u.rs, key);
    Answered(u.rs, key, [], true);
    assert LinkStep(u, Failure(key)).rs == Step(s1, Execute(key));
    hide LinkStep; hide Made; hide Inv; hide Step;
    assert u.rs.taken + [] == u.rs.taken;
  }

  lemma FailedTold(s: Sys, key: nat)
    requires Inv(s) && Receiving(s, key)
    ensures |Step(s, Complete(key, [], true)).taken| == |Step(s, Complete(key, [], true)).fate|
    ensures var s' := Step(Step(s, Complete(key, [], true)), Execute(key));
            && key !in s'.r.pending
            && (if Waiting(s.r, key) then
                  s'.r.id == 0 && s'.posts == s.posts + [Report(s.r.cb, true, s.r.held, false)]
                else
                  s'.posts == s.posts && s'.r.id == s.r.id)
  {
    var s1 := Step(s, Complete(key, [], true));
    F.CompleteEffect(s, key, [], true);
    StepKeepsBefore(s, Complete(key, [], true));
    if Waiting(s.r, key) {
      LiveCallback(s, key);
    }
    assert Waiting(s1.r, key) <==> Waiting(s.r, key);
    assert s1.r.cb == s.r.cb && s1.accepted == s.accepted;
    hide Step; hide Inv;
    if Waiting(s.r, key) {
      F.ContinueEffect(s1, key);
      assert s.r.held + [] == s.r.held;
    } else {
      StaleTold(s1, key);
    }
  }

  lemma LiveCallback(s: Sys, key: nat)
    requires Inv(s) && Waiting(s.r, key)
    ensures s.r.id != 0 && s.accepted != [] && s.r.cb == s.accepted[|s.accepted| - 1].cb
  {
    hide KeptBytes; hide Concat;
    if s.r.id != 0 {
      var live :| LiveAt(s, live);
    }
  }

  lemma StaleTold(s: Sys, key: nat)
    requires Inv(s) && key in s.r.pending && s.r.pending[key].Done? && !Waiting(s.r, key)
    ensures var s' := Step(s, Execute(key)); key !in s'.r.pending && s'.posts == s.posts && s'.r.id == s.r.id
  {
    hide Lose; hide Concat; hide M.Seen; hide M.Absorb; hide M.Ends;
  }

  // ----- once a read has timed out -----

  /** The live read waits on the socket. */
  predicate LiveReceive(s: Sys, key: nat) {
    Receiving(s, key) && Waiting(s.r, key) && s.r.id != 0
  }

  /** Two receives are outstanding exactly when one is overdue, its read having timed out, and beside
      it the live read, or another overdue one, waits on the socket. */
  lemma TwoReceivesIff(capacity: nat, es: seq<LinkEvent>)
    ensures var s := LinkExec(Connected(capacity), es).rs;
            (exists k, j :: k != j && Receiving(s, k) && Receiving(s, j))
            <==> exists k :: Overdue(s, k) && exists j :: j != k && (LiveReceive(s, j) || Overdue(s, j))
  {
    var s := LinkExec(Connected(capacity), es).rs;
    hide LinkExec;
    if k, j :| k != j && Receiving(s, k) && Receiving(s, j) {
      LiveOrOverdue(s, k);
      LiveOrOverdue(s, j);
      OneLive(s, k, j);
    }
  }

  lemma LiveOrOverdue(s: Sys, key: nat)
    requires Inv(s) && Receiving(s, key)
    ensures LiveReceive(s, key) || Overdue(s, key)
  {
    StaleIsTimedOut(s, key);
  }

  lemma OneLive(s: Sys, k: nat, j: nat)
    requires Inv(s) && k != j
    ensures !LiveReceive(s, k) || !LiveReceive(s, j)
  {
  }

  /** A datagram for each of two receives. */
  ghost function AfterTwo(u: Link, k: nat, j: nat, d1: seq<byte>, d2: seq<byte>): Link
    requires Made(u)
  {
    LinkStep(LinkStep(u, Datagram(k, d1)), Datagram(j, d2))
  }

  /** With two receives outstanding, a datagram for one and then for the other can take the end cursor
      out of the buffer exactly when the first asked for fewer bytes than the buffer holds. */
  lemma OverrunIff(u: Link, k: nat, j: nat)
    requires Made(u) && Tidy(u) && k != j && Receiving(u.rs, k) && Receiving(u.rs, j)
    ensures (exists d1, d2 :: !InBounds(AfterTwo(u, k, j, d1, d2).buffer))
       <==> u.rs.r.pending[k].count < |u.buffer.data|
  {
    hide Tidy; hide Made; hide LinkStep; hide AfterTwo;
    if u.rs.r.pending[k].count < |u.buffer.data| {
      var d := seq(|u.buffer.data|, i => 0);
      Overruns(u, k, j, d);
    } else {
      forall d1, d2 ensures InBounds(AfterTwo(u, k, j, d1, d2).buffer) {
        StaysIn(u, k, j, d1, d2);
      }
    }
  }

  lemma Overruns(u: Link, k: nat, j: nat, d: seq<byte>)
    requires Made(u) && Tidy(u) && k != j && Receiving(u.rs, k) && Receiving(u.rs, j)
    requires u.rs.r.pending[k].count < |u.buffer.data| == |d|
    ensures AfterTwo(u, k, j, d, d).buffer.end == 2 * |d| > |AfterTwo(u, k, j, d, d).buffer.data|
  {
    ReceivedStraight(u, k, d);
    var u1 := u.(buffer := Received(u.buffer, d), arrived := u.arrived + [Truncated(u.buffer, d)]);
    StraightTidy(u1);
    PartLeft(u1, k, j);
    var u2 := LinkStep(u, Datagram(k, d));
    TidyFacts(u);
    assert u2 == Serve(u1, k);
    hide Made; hide Tidy; hide Straight; hide Serve; hide NoReceive;
    assert InBounds(u2.buffer);
    Outside(u2, j, d);
  }

  lemma Outside(u: Link, j: nat, d: seq<byte>)
    requires Made(u) && InBounds(u.buffer) && Receiving(u.rs, j) && 0 < u.buffer.end == |u.buffer.data| == |d|
    ensures LinkStep(u, Datagram(j, d)).buffer.end == 2 * |d| && |LinkStep(u, Datagram(j, d)).buffer.data| == |d|
  {
    hide Made;
  }

  lemma StaysIn(u: Link, k: nat, j: nat, d1: seq<byte>, d2: seq<byte>)
    requires Made(u) && Tidy(u) && Receiving(u.rs, k) && u.rs.r.pending[k].count >= |u.buffer.data|
    ensures InBounds(AfterTwo(u, k, j, d1, d2).buffer)
  {
    StepTidyIff(u, Datagram(k, d1));
    var u1 := LinkStep(u, Datagram(k, d1));
    hide LinkStep;
    TidyFacts(u1);
    OneDatagramFits(u1, j, d2);
  }

  lemma OneDatagramFits(u: Link, j: nat, d: seq<byte>)
    requires Made(u) && Tidy(u)
    ensures InBounds(LinkStep(u, Datagram(j, d)).buffer)
  {
    TidyFacts(u);
    hide Tidy; hide Straight; hide Made; hide Serve;
    if Receiving(u.rs, j) {
      assert !NoReceive(u.rs);
    }
  }

  /** A read times out, its receive stays outstanding, and the next read starts another: two datagrams
      that fill the buffer then take the end cursor to twice its size. */
  function Overrun(capacity: nat, size: nat): seq<LinkEvent> {
    var d := seq(capacity, i => 0);
    [Ask(M.Partial, size, M.UserFunction(0), true), RunHandler(0),
     Ask(M.Partial, size, M.UserFunction(1), false), Datagram(1, d), Datagram(3, d)]
  }

  /** The first three events: two receives are outstanding. */
  ghost function Overdue3(capacity: nat, size: nat): (u: Link)
    ensures Made(u)
  {
    LinkStep(LinkStep(LinkStep(Connected(capacity), Ask(M.Partial, size, M.UserFunction(0), true)), RunHandler(0)),
             Ask(M.Partial, size, M.UserFunction(1), false))
  }

  lemma TwoOutstanding(capacity: nat, size: nat)
    ensures var u := Overdue3(capacity, size);
            && TwoWait(u.rs.r, size) && u.buffer == Buffer(seq(capacity, i => 0), 0, 0)
            && u.arrived == [] && u.rs.taken == [] && |u.rs.posts| == 1
  {
    var u0 := Connected(capacity);
    FirstAsk(u0, size);
    var u1 := LinkStep(u0, Ask(M.Partial, size, M.UserFunction(0), true));
    TimesOut(u1, size);
    var u2 := LinkStep(u1, RunHandler(0));
    SecondAsk(u2, size);
    hide LinkStep; hide Made;
  }

  lemma OverrunReached(capacity: nat, size: nat)
    requires size < capacity
    ensures LinkExec(Connected(capacity), Overrun(capacity, size)).buffer.end == 2 * capacity
  {
    var d := seq(capacity, i => 0);
    TwoOutstanding(capacity, size);
    var u3 := Overdue3(capacity, size);
    FiveEvents(Connected(capacity), Overrun(capacity, size));
    assert LinkExec(Connected(capacity), Overrun(capacity, size)) == LinkStep(LinkStep(u3, Datagram(1, d)), Datagram(3, d));
    hide LinkStep; hide Made; hide LinkExec; hide Overdue3; hide Connected;
    StaleDatagram(u3, size, d);
    SecondDatagram(LinkStep(u3, Datagram(1, d)), d);
  }

  lemma FiveEvents(u: Link, es: seq<LinkEvent>)
    requires Made(u) && |es| == 5
    ensures LinkExec(u, es) == LinkStep(LinkStep(LinkStep(LinkStep(LinkStep(u, es[0]), es[1]), es[2]), es[3]), es[4])
  {
    var u1 := LinkStep(u, es[0]);
    var u2 := LinkStep(u1, es[1]);
    var u3 := LinkStep(u2, es[2]);
    var u4 := LinkStep(u3, es[3]);
    var u5 := LinkStep(u4, es[4]);
    hide LinkStep; hide Made;
    var e1, e2, e3, e4 := es[1..], es[1..][1..], es[1..][1..][1..], es[1..][1..][1..][1..];
    assert e4[1..] == [];
    assert LinkExec(u4, e4) == LinkExec(u5, []);
    assert LinkExec(u3, e3) == LinkExec(u4, e4);
    assert LinkExec(u2, e2) == LinkExec(u3, e3);
    assert LinkExec(u1, e1) == LinkExec(u2, e2);
  }

  lemma FirstAsk(u: Link, size: nat)
    requires Made(u) && u.rs == Start && InBounds(u.buffer) && Window(u.buffer) == []
    ensures var u' := LinkStep(u, Ask(M.Partial, size, M.UserFunction(0), true));
            && u'.buffer == u.buffer && u'.arrived == u.arrived && u'.rs.posts == [] && u'.rs.taken == []
            && u'.rs.r.id == 1 && u'.rs.r.next == 2 && u'.rs.r.residue == [] && |u'.rs.accepted| == 1 && !u'.rs.r.dumpOn
            && u'.rs.r.pending == map[0 := M.Timer(1), 1 := M.Op(1, M.Partial, size, false)]
  {
    hide Made;
  }

  lemma TimesOut(u: Link, size: nat)
    requires Made(u) && u.rs.r.id == 1 && u.rs.r.next == 2 && u.rs.r.residue == [] && InBounds(u.buffer)
    requires u.rs.r.pending == map[0 := M.Timer(1), 1 := M.Op(1, M.Partial, size, false)]
    ensures var u' := LinkStep(u, RunHandler(0));
            && u'.buffer == u.buffer && u'.arrived == u.arrived
            && |u'.rs.posts| == |u.rs.posts| + 1 && u'.rs.taken == u.rs.taken
            && u'.rs.r.id == 0 && u'.rs.r.next == 3 && u'.rs.r.residue == [] && u'.rs.accepted == u.rs.accepted
            && u'.rs.r.dumpOn == u.rs.r.dumpOn
            && 1 in u'.rs.r.pending && u'.rs.r.pending[1] == M.Op(1, M.Partial, size, false)
  {
    hide Made; hide Lose; hide Concat;
  }

  /** Operation 1 of a read that is over, and operation 3 of the live one. */
  predicate TwoWait(r: M.Reader, size: nat) {
    && r.id == 2 && r.next == 4
    && 1 in r.pending && r.pending[1] == M.Op(1, M.Partial, size, false)
    && 3 in r.pending && r.pending[3] == M.Op(2, M.Partial, size, false)
  }

  lemma SecondAsk(u: Link, size: nat)
    requires Made(u) && InBounds(u.buffer) && Window(u.buffer) == [] && u.rs.r.id == 0
    requires u.rs.r.next == 3 && u.rs.r.residue == []
    requires |u.rs.accepted| == 1 && 1 in u.rs.r.pending
    requires u.rs.r.pending[1] == M.Op(1, M.Partial, size, false) && !u.rs.r.dumpOn
    ensures var u' := LinkStep(u, Ask(M.Partial, size, M.UserFunction(1), false));
            && u'.buffer == u.buffer && u'.arrived == u.arrived
            && u'.rs.posts == u.rs.posts && u'.rs.taken == u.rs.taken
            && TwoWait(u'.rs.r, size)
  {
    hide Lose; hide Concat;
  }

  lemma StaleDatagram(u: Link, size: nat, d: seq<byte>)
    requires Made(u) && u.buffer.begin == u.buffer.end == 0 && |d| <= |u.buffer.data|
    requires size < |d| && TwoWait(u.rs.r, size)
    ensures var u' := LinkStep(u, Datagram(1, d));
            && u'.buffer == Buffer(d + u.buffer.data[|d|..], size, |d|) && u'.arrived == u.arrived + [d]
            && u'.rs.posts == u.rs.posts && u'.rs.taken == u.rs.taken + d[..size]
            && u'.rs.r.id == 2 && 3 in u'.rs.r.pending && u'.rs.r.pending[3] == M.Op(2, M.Partial, size, false)
  {
    var u1 := u.(buffer := Received(u.buffer, d), arrived := u.arrived + [Truncated(u.buffer, d)]);
    assert Truncated(u.buffer, d) == d;
    assert Window(u1.buffer) == d;
    MadeApart(u, u1);
    var u2 := Hand(u1, 1);
    StaleHand(u1, size);
    hide Made; hide Hand;
    assert Serve(u1, 1) == u2;
  }

  lemma StaleHand(u: Link, size: nat)
    requires Made(u) && InBounds(u.buffer) && u.buffer.begin == 0 && size < u.buffer.end && TwoWait(u.rs.r, size)
    ensures var u' := Hand(u, 1);
            && u'.buffer == u.buffer.(begin := size) && !Asks(u.rs, u'.rs)
            && u'.rs.posts == u.rs.posts && u'.rs.taken == u.rs.taken + Window(u.buffer)[..size]
            && u'.rs.r.id == 2 && 3 in u'.rs.r.pending && u'.rs.r.pending[3] == u.rs.r.pending[3]
  {
    hide Lose; hide Concat; hide Inv; hide Exec;
    assert u.rs.posts + [] == u.rs.posts;
  }

  lemma SecondDatagram(u: Link, d: seq<byte>)
    requires Made(u) && InBounds(u.buffer) && |d| == |u.buffer.data| && 0 < u.buffer.end == |d|
    requires Receiving(u.rs, 3)
    ensures LinkStep(u, Datagram(3, d)).buffer.end == 2 * |d|
  {
  }

  /** The stream can break inside the bounds too. A buffer of four bytes; a read for one byte times out,
      and another is made. Datagram [5, 6] comes for the first read, which is over, and 5 is late; then
      [7] is written over 5, at the start, while the window moves on: the second read gets 6, what is
      buffered then is a byte that never came, and 7 is lost. */
  function Breaks(): seq<LinkEvent> {
    [Ask(M.Partial, 1, M.UserFunction(0), true), RunHandler(0),
     Ask(M.Partial, 1, M.UserFunction(1), false), Datagram(1, [5, 6]), Datagram(3, [7])]
  }

  lemma StreamBreaks()
    ensures var u := LinkExec(Connected(4), Breaks());
            && InBounds(u.buffer) && u.arrived == [[5, 6], [7]]
            && |u.rs.posts| == 2 && u.rs.posts[1].bytes == [6] && Window(u.buffer) == [0]
            && u.rs.taken + Window(u.buffer) != Concat(u.arrived)
  {
    TwoOutstanding(4, 1);
    FiveEvents(Connected(4), Breaks());
    hide LinkStep; hide Made; hide LinkExec; hide Connected;
    BreaksFrom(Overdue3(4, 1), [5, 6], [7]);
  }

  lemma BreaksFrom(u: Link, d1: seq<byte>, d2: seq<byte>)
    requires Made(u) && TwoWait(u.rs.r, 1) && u.buffer == Buffer(seq(4, i => 0), 0, 0) && d1 == [5, 6] && d2 == [7]
    requires u.arrived == [] && u.rs.taken == [] && |u.rs.posts| == 1
    ensures var u' := LinkStep(LinkStep(u, Datagram(1, d1)), Datagram(3, d2));
            && InBounds(u'.buffer) && u'.arrived == [d1, d2]
            && |u'.rs.posts| == 2 && u'.rs.posts[1].bytes == [6] && Window(u'.buffer) == [0]
            && u'.rs.taken + Window(u'.buffer) != Concat(u'.arrived)
  {
    StaleDatagram(u, 1, d1);
    var u1 := LinkStep(u, Datagram(1, d1));
    hide LinkStep; hide Made; hide TwoWait;
    Contents(u.buffer.data, u1.buffer.data, u.rs.taken, u1.rs.taken);
    LiveDatagram(u1, d2);
    var u2 := LinkStep(u1, Datagram(3, d2));
    Broken(u2.buffer, u2.rs.taken, u2.arrived);
  }

  lemma Contents(data3: seq<byte>, data4: seq<byte>, taken3: seq<byte>, taken4: seq<byte>)
    requires |data3| == 4 && (forall i :: 0 <= i < 4 ==> data3[i] == 0) && taken3 == []
    requires data4 == [5, 6] + data3[2..] && taken4 == taken3 + [5, 6][..1]
    ensures data4 == [5, 6, 0, 0] && taken4 == [5]
  {
  }

  lemma Broken(b: Buffer, taken: seq<byte>, arrived: seq<seq<byte>>)
    requires b == Buffer([7, 6, 0, 0], 2, 3) && taken == [5] + [6] && arrived == [[5, 6], [7]]
    ensures InBounds(b) && Window(b) == [0] && taken + Window(b) != Concat(arrived)
  {
    Joined([5, 6], [7]);
    assert Window(b) == [0];
    assert (taken + Window(b))[2] == 0 && Concat(arrived)[2] == 7;
  }

  lemma Joined(a: seq<byte>, b: seq<byte>)
    ensures Concat([a, b]) == a + b
  {
    assert [a, b][..1] == [a] && [a][..0] == [];
    assert Concat([a]) == [] + a;
  }

  /** [7] comes for the live read while the window is [6], behind what was [5]. */
  lemma LiveDatagram(u: Link, d: seq<byte>)
    requires Made(u) && u.buffer == Buffer([5, 6, 0, 0], 1, 2) && d == [7]
    requires u.rs.r.id == 2 && 3 in u.rs.r.pending && u.rs.r.pending[3] == M.Op(2, M.Partial, 1, false)
    ensures var u' := LinkStep(u, Datagram(3, d));
            && u'.buffer == Buffer([7, 6, 0, 0], 2, 3) && u'.arrived == u.arrived + [d]
            && u'.rs.taken == u.rs.taken + [6]
            && |u'.rs.posts| == |u.rs.posts| + 1 && u'.rs.posts[|u.rs.posts|].bytes == [6]
  {
    var u1 := u.(buffer := Received(u.buffer, d), arrived := u.arrived + [Truncated(u.buffer, d)]);
    assert Truncated(u.buffer, d) == d;
    Overwritten(u.buffer.data, d);
    WindowFront(u1.buffer);
    MadeApart(u, u1);
    LiveHand(u1);
    hide Made; hide Hand;
    assert Serve(u1, 3) == Hand(u1, 3);
  }

  lemma Overwritten(data: seq<byte>, d: seq<byte>)
    requires data == [5, 6, 0, 0] && d == [7]
    ensures d + data[|d|..] == [7, 6, 0, 0]
  {
  }

  lemma WindowFront(b: Buffer)
    requires b == Buffer([7, 6, 0, 0], 1, 3)
    ensures InBounds(b) && |Window(b)| == 2 && Window(b)[..1] == [6]
  {
  }

  lemma LiveHand(u: Link)
    requires Made(u) && InBounds(u.buffer) && |Window(u.buffer)| > 1
    requires u.rs.r.id == 2 && 3 in u.rs.r.pending && u.rs.r.pending[3] == M.Op(2, M.Partial, 1, false)
    ensures var u' := Hand(u, 3);
            && u'.buffer == u.buffer.(begin := u.buffer.begin + 1) && !Asks(u.rs, u'.rs) && u'.arrived == u.arrived
            && u'.rs.taken == u.rs.taken + Window(u.buffer)[..1]
            && |u'.rs.posts| == |u.rs.posts| + 1 && u'.rs.posts[|u.rs.posts|].bytes == Window(u.buffer)[..1]
  {
    hide Lose; hide Concat; hide Inv; hide Exec;
    var bytes := Window(u.buffer)[..1];
    var s1 := Step(u.rs, Complete(3, bytes, false));
    ExecuteLive(s1, 3);
    hide ExecuteStep;
  }
}
