/** The read ids over runs of any length. `readCounter_` wraps: every 2^32nd read is given the idle
    marker as its id. What still holds then, and what does not. */
module IdWrap {
  import opened Bytes
  import opened Fates
  import opened ReaderModel
  import opened ReaderSystem
  import opened ReaderInvariant
  import opened ReaderRuns

  /** For each handler of a read: which of the accepted reads it was made for, counted from 1. */
  type Numbers = map<nat, nat>

  /** A handler put in the queue by an accepted read is that read's; one put in by a handler is of
      the same read as that handler. */
  ghost function NumberStep(s: Sys, o: Numbers, e: Event): Numbers
    requires |s.taken| == |s.fate|
  {
    var made := if e.Accept? then |s.accepted| + 1 else if e.Execute? && e.key in o then o[e.key] else 0;
    map k | k in Step(s, e).r.pending :: if k in s.r.pending && k in o then o[k] else made
  }

  ghost function NumberAll(s: Sys, o: Numbers, es: seq<Event>): Numbers
    requires |s.taken| == |s.fate|
    decreases |es|
  {
    if es == [] then o else NumberAll(Step(s, es[0]), NumberStep(s, o, es[0]), es[1..])
  }

  /** The reads that were given an id of their own. */
  function Numbered(n: nat): nat {
    n - n / ID_RANGE
  }

  /** The accepted read that the `i`th callback is for, when every 2^32nd read has none. */
  function Answered(i: nat): nat {
    i + i / (ID_RANGE - 1)
  }

  /** Ids are the numbers of their reads, modulo 2^32. */
  predicate Congruent(r: Reader, n: nat, o: Numbers) {
    && r.counter == n % ID_RANGE
    && (r.id == 0 || r.id == r.counter)
    && (forall k :: k in r.pending ==> k < r.next)
    && (forall k :: k in r.pending && !r.pending[k].User? ==>
         k in o && 1 <= o[k] <= n && r.pending[k].id == o[k] % ID_RANGE)
  }

  /** Callbacks are posted in the order of acceptance, one for every read with an id of its own. */
  predicate Posts(s: Sys) {
    && |s.posts| + (if s.r.id != 0 then 1 else 0) == Numbered(|s.accepted|)
    && (s.r.id != 0 ==> s.accepted != [] && s.r.cb == s.accepted[|s.accepted| - 1].cb)
    && forall i :: 0 <= i < |s.posts| ==> Answered(i) < |s.accepted| && s.posts[i].cb == s.accepted[Answered(i)].cb
  }

  ghost predicate NumInv(s: Sys, o: Numbers) {
    |s.taken| == |s.fate| && Congruent(s.r, |s.accepted|, o) && Posts(s)
  }

  // ----- counting -----

  lemma NumberedNext(n: nat)
    ensures Numbered(n + 1) == Numbered(n) + (if (n + 1) % ID_RANGE == 0 then 0 else 1)
    ensures (n % ID_RANGE + 1) % ID_RANGE == (n + 1) % ID_RANGE
  {
  }

  /** The callback of a live read is the next one due. */
  lemma NextAnswered(n: nat)
    requires n > 0 && n % ID_RANGE != 0
    ensures Answered(Numbered(n) - 1) == n - 1
  {
    var a, b := (n - 1) / ID_RANGE, (n - 1) % ID_RANGE;
    assert n - 1 == a * ID_RANGE + b && b < ID_RANGE - 1;
    assert n / ID_RANGE == a;
    assert Numbered(n) - 1 == a * (ID_RANGE - 1) + b;
  }

  // ----- what a handler does, whatever its id -----

  /** A handler of a read leaves the reader's counter and callback, and puts at most one more
      handler of its own read in the queue, or the callback that ends the live read. */
  predicate Moves(r: Reader, r': Reader, id: nat) {
    && r'.counter == r.counter && r'.cb == r.cb && (r'.id == r.id || r'.id == 0) && r'.next >= r.next
    && (forall k :: k in r'.pending ==> k < r'.next)
    && (forall k :: k in r'.pending && k in r.pending ==> r'.pending[k] == r.pending[k])
    && (forall k :: k in r'.pending && k !in r.pending && !r'.pending[k].User? ==> r'.pending[k].id == id)
  }

  lemma ContinueMoves(r: Reader, id: nat, kind: Kind, chunk: seq<byte>, err: bool)
    requires forall k :: k in r.pending ==> k < r.next
    ensures Moves(r, Continue(r, id, kind, chunk, err), id)
  {
    AbsorbKeepsQueue(r, kind, chunk);
    assert Absorb(r, kind, chunk).counter == r.counter && Absorb(r, kind, chunk).cb == r.cb;
    hide Absorb;
    hide Ends;
    hide AfterDrain;
  }

  lemma ActMoves(r: Reader, h: Handler)
    requires !h.Op? && forall k :: k in r.pending ==> k < r.next
    ensures Moves(r, Act(r, h), if h.User? then 0 else h.id)
    ensures h.User? ==> Act(r, h).pending == r.pending
  {
    if h.Done? {
      ContinueMoves(DumpCallback(r, h.chunk, h.err, h.dumping), h.id, h.kind, h.chunk, h.err);
    }
    hide Continue;
  }

  /** Ending a read posts its callback; nothing else posts one. */
  lemma ContinueReports(r: Reader, id: nat, kind: Kind, chunk: seq<byte>, err: bool, timedOut: bool)
    ensures var r' := Continue(r, id, kind, chunk, err);
            if r'.id == r.id then Posted(r, r', timedOut) == []
            else |Posted(r, r', timedOut)| == 1 && Posted(r, r', timedOut)[0].cb == r.cb
  {
    AbsorbKeepsQueue(r, kind, chunk);
    assert Absorb(r, kind, chunk).cb == r.cb;
    hide Absorb;
    hide Ends;
    hide AfterDrain;
  }

  lemma ActReports(r: Reader, h: Handler, r0: Reader, timedOut: bool)
    requires !h.Op? && r0.next == r.next
    ensures var r' := Act(r, h);
            if r'.id == r.id then Posted(r0, r', timedOut) == []
            else |Posted(r0, r', timedOut)| == 1 && Posted(r0, r', timedOut)[0].cb == r.cb
  {
    if h.Done? {
      var r1 := DumpCallback(r, h.chunk, h.err, h.dumping);
      ContinueReports(r1, h.id, h.kind, h.chunk, h.err, timedOut);
      assert forall r' :: Posted(r0, r', timedOut) == Posted(r1, r', timedOut);
    }
    hide Continue;
  }

  /** An accepted read is live, or over with its callback posted at once, or was given no id. */
  lemma AcceptReports(r: Reader, kind: Kind, size: nat, cb: Callback, timed: bool)
    requires r.id == 0
    ensures var r' := AsyncRead(r, kind, size, cb, timed).0;
            var id := (r.counter + 1) % ID_RANGE;
            if r'.id != 0 || id == 0 then Posted(r, r', false) == []
            else |Posted(r, r', false)| == 1 && Posted(r, r', false)[0].cb == cb
  {
    hide FirstStop;
    hide AfterDrain;
  }

  // ----- every run -----

  /** A callback is posted for the last accepted read. */
  lemma PostOne(s: Sys, s': Sys, p: Report)
    requires Posts(s) && s'.posts == s.posts + [p] && s'.r.id == 0 && s.accepted <= s'.accepted
    requires |s.posts| + 1 == Numbered(|s'.accepted|) && |s'.accepted| % ID_RANGE != 0 && s'.accepted != []
    requires p.cb == s'.accepted[|s'.accepted| - 1].cb
    ensures Posts(s')
  {
    NextAnswered(|s'.accepted|);
    forall i | 0 <= i < |s'.posts| ensures Answered(i) < |s'.accepted| && s'.posts[i].cb == s'.accepted[Answered(i)].cb {
      if i < |s.posts| {
        assert s'.posts[i] == s.posts[i] && s'.accepted[Answered(i)] == s.accepted[Answered(i)];
      }
    }
    hide Numbered;
  }

  lemma PostNone(s: Sys, s': Sys)
    requires Posts(s) && s'.posts == s.posts && s.accepted <= s'.accepted
    requires |s.posts| + (if s'.r.id != 0 then 1 else 0) == Numbered(|s'.accepted|)
    requires s'.r.id != 0 ==> s'.accepted != [] && s'.r.cb == s'.accepted[|s'.accepted| - 1].cb
    ensures Posts(s')
  {
    forall i | 0 <= i < |s'.posts| ensures Answered(i) < |s'.accepted| && s'.posts[i].cb == s'.accepted[Answered(i)].cb {
      assert s'.accepted[Answered(i)] == s.accepted[Answered(i)];
    }
  }

  lemma AcceptPosts(s: Sys, s': Sys, q: Request, posted: seq<Report>)
    requires Posts(s) && s.r.id == 0 && s'.accepted == s.accepted + [q]
    requires s'.posts == s.posts + posted && s'.r.cb == q.cb
    requires var id := |s'.accepted| % ID_RANGE;
             && (s'.r.id == id || s'.r.id == 0)
             && if s'.r.id != 0 || id == 0 then posted == [] else |posted| == 1 && posted[0].cb == q.cb
    ensures Posts(s')
  {
    NumberedNext(|s.accepted|);
    hide Numbered;
    assert s'.accepted[|s.accepted|].cb == q.cb;
    if posted == [] {
      assert s.posts + [] == s.posts;
      PostNone(s, s');
    } else {
      assert posted == [posted[0]];
      PostOne(s, s', posted[0]);
    }
    hide Posts;
  }

  lemma AcceptNumbers(s: Sys, o: Numbers, e: Event)
    requires NumInv(s, o) && e.Accept? && Enabled(s, e)
    ensures NumInv(Step(s, e), NumberStep(s, o, e))
  {
    hide Lose;
    hide Concat;
    hide AsyncRead;
    hide Posts;
    hide Posted;
    var s' := Step(s, e);
    NumberedNext(|s.accepted|);
    AcceptMoves(s.r, e.kind, e.size, e.cb, e.timed);
    AcceptReports(s.r, e.kind, e.size, e.cb, e.timed);
    AcceptPosts(s, s', Request(e.kind, e.size, e.cb, e.timed, |s.r.residue|), Posted(s.r, s'.r, false));
  }

  lemma ExecuteNumbers(s: Sys, o: Numbers, key: nat)
    requires NumInv(s, o) && Enabled(s, Execute(key))
    ensures NumInv(Step(s, Execute(key)), NumberStep(s, o, Execute(key)))
  {
    hide Lose;
    hide Concat;
    hide Act;
    hide Posts;
    hide Posted;
    var s', h := Step(s, Execute(key)), s.r.pending[key];
    var timedOut := h == Timer(s.r.id);
    ActMoves(Pop(s.r, key), h);
    ActReports(Pop(s.r, key), h, s.r, timedOut);
    ExecutePosts(s, s', Posted(s.r, s'.r, timedOut));
  }

  lemma ExecutePosts(s: Sys, s': Sys, posted: seq<Report>)
    requires s.r.counter == |s.accepted| % ID_RANGE && (s.r.id == 0 || s.r.id == s.r.counter) && Posts(s)
    requires s'.accepted == s.accepted && s'.posts == s.posts + posted && s'.r.cb == s.r.cb
    requires if s'.r.id == s.r.id then posted == []
             else s'.r.id == 0 && |posted| == 1 && posted[0].cb == s.r.cb
    ensures Posts(s')
  {
    if posted == [] {
      assert s.posts + [] == s.posts;
      PostNone(s, s');
    } else {
      assert posted == [posted[0]];
      PostOne(s, s', posted[0]);
    }
    hide Answered;
  }

  lemma StepNumbers(s: Sys, o: Numbers, e: Event)
    requires NumInv(s, o)
    ensures NumInv(Step(s, e), NumberStep(s, o, e))
  {
    if Enabled(s, e) {
      match e
      case Accept(_, _, _, _) => AcceptNumbers(s, o, e);
      case Execute(k) => ExecuteNumbers(s, o, k);
      case Complete(_, _, _) => hide Posts; QuietNumbers(s, o, e);
      case SetDump(_) => hide Posts; QuietNumbers(s, o, e);
    } else {
      hide Posts;
    }
  }

  lemma QuietNumbers(s: Sys, o: Numbers, e: Event)
    requires NumInv(s, o) && Enabled(s, e) && (e.Complete? || e.SetDump?)
    ensures NumInv(Step(s, e), NumberStep(s, o, e))
  {
    PostNone(s, Step(s, e));
    hide Posts;
  }

  lemma {:induction false} RunNumbers(s: Sys, o: Numbers, es: seq<Event>)
    requires NumInv(s, o)
    ensures NumInv(Exec(s, es), NumberAll(s, o, es))
    decreases |es|
  {
    if es != [] {
      StepNumbers(s, o, es[0]);
      hide NumInv;
      hide Step;
      hide NumberStep;
      StepSized(s, es[0]);
      RunNumbers(Step(s, es[0]), NumberStep(s, o, es[0]), es[1..]);
    }
  }

  /** Accounting for runs of any length. Every 2^32nd accepted read gets no callback, ever; every
      other one gets its own, once, in the order of acceptance. */
  lemma EveryRunAccounting(es: seq<Event>)
    ensures var s := Exec(Start, es);
            && |s.posts| + (if s.r.id != 0 then 1 else 0) == |s.accepted| - |s.accepted| / ID_RANGE
            && forall i :: 0 <= i < |s.posts| ==> Answered(i) < |s.accepted| && s.posts[i].cb == s.accepted[Answered(i)].cb
    ensures forall i: nat :: (Answered(i) + 1) % ID_RANGE != 0
  {
    RunNumbers(Start, map[], es);
  }

  // ----- when a handler acts -----

  /** The handler changes nothing but the queue and the record. */
  ghost predicate Inert(s: Sys, key: nat)
    requires |s.taken| == |s.fate| && key in s.r.pending && !s.r.pending[key].Op?
  {
    var r' := Step(s, Execute(key)).r;
    r' == s.r.(pending := s.r.pending - {key}, dump := r'.dump)
  }

  /** On an idle reader, a handler that would change nothing even if it acted. */
  predicate Void(r: Reader, h: Handler) {
    match h
    case Timer(_) => r.notified
    case Done(_, kind, chunk, err, _) => Ends(r, kind, chunk, err) && Absorb(r, kind, chunk) == r
    case _ => true
  }

  /** The timer or the continuation of the `n`th read, whenever it is run: it acts exactly when the
      number of the live read is `n` modulo 2^32, or the reader is idle and `n` is a multiple of 2^32
      (and it has something to change). */
  lemma StaleActsIff(es: seq<Event>, key: nat)
    requires var s := Exec(Start, es);
             key in s.r.pending && (s.r.pending[key].Timer? || s.r.pending[key].Done?)
    ensures var s, o := Exec(Start, es), NumberAll(Start, map[], es);
            && key in o && 1 <= o[key] <= |s.accepted|
            && (!Inert(s, key) <==>
                 if s.r.id != 0 then (|s.accepted| - o[key]) % ID_RANGE == 0
                 else o[key] % ID_RANGE == 0 && !Void(Pop(s.r, key), s.r.pending[key]))
  {
    RunNumbers(Start, map[], es);
    var s, o := Exec(Start, es), NumberAll(Start, map[], es);
    ActsIff(s, key);
    SameRemainder(|s.accepted|, o[key]);
    hide Inert;
    hide Void;
    hide Posts;
  }

  lemma SameRemainder(n: nat, k: nat)
    requires k <= n
    ensures n % ID_RANGE == k % ID_RANGE <==> (n - k) % ID_RANGE == 0
  {
    var a, b := n / ID_RANGE, k / ID_RANGE;
    assert n == a * ID_RANGE + n % ID_RANGE && k == b * ID_RANGE + k % ID_RANGE;
    assert n - k == (a - b) * ID_RANGE + (n % ID_RANGE - k % ID_RANGE);
  }

  lemma ActsIff(s: Sys, key: nat)
    requires |s.taken| == |s.fate| && key in s.r.pending && (s.r.pending[key].Timer? || s.r.pending[key].Done?)
    requires forall k :: k in s.r.pending ==> k < s.r.next
    ensures !Inert(s, key) <==>
              s.r.pending[key].id == s.r.id && (s.r.id != 0 || !Void(Pop(s.r, key), s.r.pending[key]))
  {
    hide Lose;
    hide Concat;
    hide Seen;
    hide AfterDrain;
    hide Posted;
    var r0, h := Pop(s.r, key), s.r.pending[key];
    if h.Done? {
      var r1 := DumpCallback(r0, h.chunk, h.err, h.dumping);
      ContinueActs(r1, h.id, h.kind, h.chunk, h.err);
      DumpApart(r0, h.kind, h.chunk, h.err, r1.dump);
    }
    hide Continue;
    hide Absorb;
    hide Ends;
  }

  lemma DumpApart(r: Reader, kind: Kind, chunk: seq<byte>, err: bool, dump: seq<byte>)
    ensures Ends(r.(dump := dump), kind, chunk, err) == Ends(r, kind, chunk, err)
    ensures Absorb(r.(dump := dump), kind, chunk) == r.(dump := dump) <==> Absorb(r, kind, chunk) == r
  {
  }

  /** A continuation that passes the id check finishes the live read, or asks again, or at least
      absorbs its chunk. */
  lemma ContinueActs(r: Reader, id: nat, kind: Kind, chunk: seq<byte>, err: bool)
    ensures Continue(r, id, kind, chunk, err) != r <==>
              id == r.id && (r.id != 0 || !(Ends(r, kind, chunk, err) && Absorb(r, kind, chunk) == r))
  {
    AbsorbKeepsQueue(r, kind, chunk);
    hide Absorb;
    if id == r.id {
      var r1 := Absorb(r, kind, chunk);
      if Ends(r, kind, chunk, err) {
        assert FinishRead(r1, err).id == 0;
      } else {
        assert Continue(r, id, kind, chunk, err).next == r.next + 1;
      }
    }
  }

  /** For fewer than 2^32 accepted reads that is: exactly while its own read is live. */
  lemma ActsWhileLive(es: seq<Event>, key: nat)
    requires var s := Exec(Start, es);
             key in s.r.pending && (s.r.pending[key].Timer? || s.r.pending[key].Done?) && |s.accepted| < ID_RANGE
    ensures var s, o := Exec(Start, es), NumberAll(Start, map[], es);
            key in o && (!Inert(s, key) <==> s.r.id != 0 && o[key] == |s.accepted|)
  {
    hide Exec;
    hide NumberAll;
    hide Inert;
    StaleActsIff(es, key);
    RunNumbers(Start, map[], es);
    hide Posts;
    SmallRemainder(|Exec(Start, es).accepted|, NumberAll(Start, map[], es)[key]);
  }

  lemma SmallRemainder(n: nat, k: nat)
    requires 1 <= k <= n < ID_RANGE
    ensures k % ID_RANGE != 0 && ((n - k) % ID_RANGE == 0 <==> n == k)
  {
  }

  // ----- and at 2^32 it is not -----

  /** A new reader that has answered `n` reads. */
  lemma {:induction false} Reach(n: nat) returns (es: seq<Event>)
    requires n < ID_RANGE
    ensures var s := Exec(Start, es); s.r.id == 0 && s.r.residue == [] && |s.accepted| == n && s.r.counter == n
    decreases n
  {
    if n == 0 {
      es := [];
    } else {
      var before := Reach(n - 1);
      var s := Exec(Start, before);
      var k := s.r.next;
      var e1, e2, e3 := Accept(Partial, 0, UserFunction(0), false), Complete(k, [], false), Execute(k);
      OneRead(s);
      es := before + [e1] + [e2] + [e3];
      hide Step;
      ExecSnoc(Start, before, e1);
      ExecSnoc(Start, before + [e1], e2);
      ExecSnoc(Start, before + [e1] + [e2], e3);
    }
  }

  lemma OneRead(s: Sys)
    requires |s.taken| == |s.fate| && s.r.id == 0 && s.r.residue == [] && s.r.counter + 1 < ID_RANGE
    ensures var k := s.r.next;
            var s1 := Step(s, Accept(Partial, 0, UserFunction(0), false));
            && |s1.taken| == |s1.fate|
            && |Step(s1, Complete(k, [], false)).taken| == |Step(s1, Complete(k, [], false)).fate|
            && var s' := Step(Step(s1, Complete(k, [], false)), Execute(k));
            s'.r.id == 0 && s'.r.residue == [] && |s'.accepted| == |s.accepted| + 1 && s'.r.counter == s.r.counter + 1
  {
    hide Lose;
    hide Concat;
    hide InFlight;
    var k := s.r.next;
    var s1 := Step(s, Accept(Partial, 0, UserFunction(0), false));
    assert s1.r.id == s.r.counter + 1 && s1.r.pending[k] == Op(s1.r.id, Partial, 0, s.r.dumpOn) && s1.r.residue == [];
    var s2 := Step(s1, Complete(k, [], false));
    assert s2.r.pending[k] == Done(s1.r.id, Partial, [], false, s.r.dumpOn);
  }

  /** The 2^32nd read, a read-until: the reader stays idle, and when the transport completes it the
      continuation passes the id check of the idle reader and puts the byte behind the delimiter
      into the residue. The read is never answered. */
  lemma WrappedReadActs()
    ensures exists es, key :: var s := Exec(Start, es);
              && |s.accepted| == ID_RANGE && s.r.id == 0 && s.r.residue == []
              && key in s.r.pending && s.r.pending[key].Done?
              && Step(s, Execute(key)).r.residue == [1] && Step(s, Execute(key)).posts == s.posts
  {
    var before := Reach(ID_RANGE - 1);
    var s := Exec(Start, before);
    var k := s.r.next;
    var e1, e2 := Accept(Until(7), 2, UserFunction(0), false), Complete(k, [7, 1], false);
    WrappedRead(s);
    hide Step;
    var es := before + [e1] + [e2];
    ExecSnoc(Start, before, e1);
    ExecSnoc(Start, before + [e1], e2);
    assert k in Exec(Start, es).r.pending;
  }

  lemma WrappedRead(s: Sys)
    requires |s.taken| == |s.fate| && s.r.id == 0 && s.r.residue == [] && s.r.counter == ID_RANGE - 1
    ensures var k := s.r.next;
            var s1 := Step(s, Accept(Until(7), 2, UserFunction(0), false));
            && |s1.taken| == |s1.fate|
            && |Step(s1, Complete(k, [7, 1], false)).taken| == |Step(s1, Complete(k, [7, 1], false)).fate|
            && var s2 := Step(s1, Complete(k, [7, 1], false));
            && |s2.accepted| == |s.accepted| + 1 && s2.r.id == 0 && s2.r.residue == []
            && k in s2.r.pending && s2.r.pending[k].Done?
            && Step(s2, Execute(k)).r.residue == [1] && Step(s2, Execute(k)).posts == s2.posts
  {
    hide Lose;
    hide Concat;
    hide InFlight;
    var k := s.r.next;
    var s1 := Step(s, Accept(Until(7), 2, UserFunction(0), false));
    assert s1.r.id == 0 && s1.r.pending[k] == Op(0, Until(7), 2, s.r.dumpOn) && s1.r.residue == [] && s1.r.held == [];
    var s2 := Step(s1, Complete(k, [7, 1], false));
    assert s2.r.pending[k] == Done(0, Until(7), [7, 1], false, s.r.dumpOn);
    var chunk: seq<byte> := [7, 1];
    assert Seen(chunk, 7) == 0;
    assert [] + chunk[1..] == [1];
  }
}
