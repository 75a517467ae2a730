/** One call of `async_read_until`: exactly when its result and the bytes it writes do not
    depend on how the transport chops the stream, and that the call ends. */
module UntilCall {
  import opened Bytes
  import opened Fates
  import opened ReaderModel
  import opened ReaderSystem
  import opened ReaderInvariant
  import opened ReaderRuns

  /** An idle reader on which the read-until `q` is about to be made. */
  ghost predicate Ready(s: Sys, q: Request) {
    && Inv(s) && s.r.id == 0 && |s.accepted| + 1 < ID_RANGE
    && q.kind.Until? && q.size > 0 && q.had == |s.r.residue|
  }

  /** The run `es` answers the call, neither its timer nor an error cutting it short, taking
      bytes that continue with `t`. */
  ghost predicate Answered(s: Sys, q: Request, es: seq<Event>, t: seq<byte>)
    requires |s.taken| == |s.fate| && s.r.id == 0
  {
    var s' := Exec(AcceptStep(s, q), es);
    && NoAccept(es)
    && |s'.posts| == |s.posts| + 1 && !CutShort(s'.posts[|s.posts|])
    && KeptBytes(s'.taken, s'.fate) <= KeptBytes(s.taken, s.fate) + t
  }

  ghost function Result(s: Sys, q: Request, es: seq<Event>): seq<byte>
    requires |s.taken| == |s.fate| && s.r.id == 0
    requires |Exec(AcceptStep(s, q), es).posts| > |s.posts|
  {
    Exec(AcceptStep(s, q), es).posts[|s.posts|].bytes
  }

  /** What read-until promises: the stream up to and with the delimiter, or `size` bytes. */
  function Promised(s: Sys, q: Request, t: seq<byte>): seq<byte>
    requires q.kind.Until?
  {
    (s.r.residue + t)[..FirstStop(s.r.residue + t, q.kind.delim, q.size, 0)]
  }

  /** The residue alone satisfies the call. */
  predicate FromResidue(s: Sys, q: Request)
    requires q.kind.Until?
  {
    FirstStop(s.r.residue, q.kind.delim, q.size, 0) > 0
  }

  /** The delimiter comes within the first `size` bytes. */
  predicate FrameFits(s: Sys, q: Request, t: seq<byte>)
    requires q.kind.Until?
  {
    IndexOf(s.r.residue + t, q.kind.delim) < Min(q.size, |s.r.residue + t|)
  }

  // ----- first stops -----

  lemma {:induction false} FirstStopIs(s: seq<byte>, d: byte, size: nat, from: nat, n: nat)
    requires from < n <= |s| && NoStop(s, d, size, from, n - 1) && (s[n - 1] == d || n >= size)
    ensures FirstStop(s, d, size, from) == n
    decreases n - from
  {
    if from + 1 < n {
      NoStopLater(s, d, size, from, from + 1, n - 1);
      FirstStopIs(s, d, size, from + 1, n);
    }
  }

  lemma NoStopLater(s: seq<byte>, d: byte, size: nat, from: nat, later: nat, to: nat)
    requires from <= later && to <= |s| && NoStop(s, d, size, from, to)
    ensures NoStop(s, d, size, later, to)
  {
    forall i | later <= i < to ensures s[i] != d && i + 1 < size {
      assert from <= i < to;
    }
  }

  lemma FirstStopGrows(s: seq<byte>, t: seq<byte>, d: byte, size: nat)
    ensures FirstStop(s, d, size, 0) > 0 ==>
              FirstStop(s + t, d, size, 0) == FirstStop(s, d, size, 0)
  {
    var n := FirstStop(s, d, size, 0);
    if n > 0 {
      FirstStopSpec(s, d, size, 0);
      assert forall i :: 0 <= i < |s| ==> (s + t)[i] == s[i];
      FirstStopIs(s + t, d, size, 0, n);
    }
  }

  /** A prefix of the stream that ends at its delimiter within `size`, or is `size` long
      without one, is what was promised. */
  lemma PrefixIsPromised(all: seq<byte>, p: seq<byte>, d: byte, size: nat)
    requires p <= all && 0 < |p| <= size
    requires Framed(p, d) || (d !in p && |p| >= size)
    ensures FirstStop(all, d, size, 0) == |p|
  {
    assert forall i :: 0 <= i < |p| ==> all[i] == p[i];
    if Framed(p, d) {
      assert forall i :: 0 <= i < |p| - 1 ==> p[..|p| - 1][i] == all[i];
    }
    FirstStopIs(all, d, size, 0, |p|);
  }

  // ----- the call over a run -----

  lemma {:induction false} CallRun(s: Sys, es: seq<Event>)
    requires Inv(s) && NoAccept(es)
    ensures var s' := Exec(s, es);
            Inv(s') && s'.accepted == s.accepted && s.posts <= s'.posts
    decreases |es|
  {
    if es != [] {
      CallStep(s, es[0]);
      hide Step;
      hide Inv;
      CallRun(Step(s, es[0]), es[1..]);
    }
  }

  lemma CallStep(s: Sys, e: Event)
    requires Inv(s) && !e.Accept?
    ensures var s' := Step(s, e);
            Inv(s') && |s'.taken| == |s'.fate| && s'.accepted == s.accepted && s.posts <= s'.posts
  {
    StepKeepsBefore(s, e);
    hide Run;
    hide Lose;
    hide Posted;
    hide Concat;
  }

  lemma IdleBooks(s: Sys)
    requires Inv(s) && s.r.id == 0
    ensures KeptBytes(s.taken, s.fate) == Delivered(s.posts) + s.r.residue
  {
    hide KeptBytes;
    hide Concat;
    NoFlight(Delivered(s.posts), [], s.r.residue);
  }

  /** The state in which a call has been answered: idle, with one more report. */
  lemma AnsweredState(s: Sys, q: Request, es: seq<Event>, t: seq<byte>)
    requires Ready(s, q) && Answered(s, q, es, t)
    ensures var s' := Exec(AcceptStep(s, q), es);
            && Inv(s') && s'.r.id == 0
            && s'.posts == s.posts + [s'.posts[|s.posts|]]
            && Answers(q, s'.posts[|s.posts|])
  {
    hide KeptBytes;
    hide Concat;
    var s1 := AcceptStep(s, q);
    var s' := Exec(s1, es);
    AcceptKeeps(s, q);
    assert s1.accepted == s.accepted + [q] && s.posts <= s1.posts;
    CallRun(s1, es);
    hide AcceptStep;
    assert s'.accepted[|s.posts|] == q;
  }

  /** What one answered call reports continues what was delivered before with a prefix of
      residue and stream. */
  lemma ResultIsPrefix(s: Sys, q: Request, es: seq<Event>, t: seq<byte>)
    requires Ready(s, q) && Answered(s, q, es, t)
    ensures Result(s, q, es) <= s.r.residue + t
    ensures Answers(q, Report(q.cb, false, Result(s, q, es), false))
  {
    hide KeptBytes;
    hide Concat;
    AnsweredState(s, q, es, t);
    IdleBooks(s);
    hide Inv;
    var s' := Exec(AcceptStep(s, q), es);
    IdleBooks(s');
    hide AcceptStep;
    var p := s'.posts[|s.posts|].bytes;
    DeliveredSnoc(s.posts, s'.posts[|s.posts|]);
    PrefixAfter(Delivered(s.posts), p, s'.r.residue, s.r.residue, t);
  }

  lemma PrefixAfter(d: seq<byte>, p: seq<byte>, r': seq<byte>, r: seq<byte>, t: seq<byte>)
    requires d + p + r' <= d + r + t
    ensures p <= r + t
  {
    assert forall i :: 0 <= i < |p| ==> p[i] == (d + p + r')[|d| + i] == (d + r + t)[|d| + i] == (r + t)[i];
  }

  /** When the residue satisfies the call the report is posted at once. */
  lemma ResidueResult(s: Sys, q: Request, es: seq<Event>)
    requires Ready(s, q) && FromResidue(s, q)
    ensures var s1 := AcceptStep(s, q);
            |s1.posts| == |s.posts| + 1
            && s1.posts[|s.posts|].bytes == s.r.residue[..FirstStop(s.r.residue, q.kind.delim, q.size, 0)]
  {
    hide Lose;
    hide Concat;
    EndsAtOnce(NewRead(s.r, q.size, q.cb, q.timed), q.kind.delim, s.r);
    hide StartUntil;
    hide Posted;
  }

  lemma EndsAtOnce(r: Reader, d: byte, before: Reader)
    requires r.id != 0 && FirstStop(r.residue, d, r.requested, 0) > 0 && r.next >= before.next
    ensures var posted := Posted(before, StartUntil(r, d), false);
            |posted| == 1 && posted[0].bytes == r.residue[..FirstStop(r.residue, d, r.requested, 0)]
  {
    var n := FirstStop(r.residue, d, r.requested, 0);
    assert r.residue[..n][..n] == r.residue[..n];
    hide FirstStop;
  }

  /** The residue is enough; or the delimiter can be seen in the chunks and there is no residue or
      it comes within `size` bytes; or it cannot, and there is neither a residue nor a delimiter
      before the last of `size` bytes. */
  predicate Sure(s: Sys, q: Request, t: seq<byte>)
    requires q.kind.Until?
  {
    || FromResidue(s, q)
    || (if q.kind.delim < 128 then s.r.residue == [] || FrameFits(s, q, t)
        else s.r.residue == [] && IndexOf(t, q.kind.delim) + 1 >= q.size)
  }

  /** In those cases the result is as promised. */
  lemma PromiseKept(s: Sys, q: Request, es: seq<Event>, t: seq<byte>)
    requires Ready(s, q) && Answered(s, q, es, t)
    requires Sure(s, q, t)
    ensures Result(s, q, es) == Promised(s, q, t)
  {
    if FromResidue(s, q) {
      FromResidueKept(s, q, es, t);
    } else {
      ResultIsPrefix(s, q, es, t);
      if q.kind.delim < 128 {
        LowKept(s.r.residue, t, q, Result(s, q, es));
      } else {
        NeverAtHighDelimiter(s, q, es, t);
        HighKept(t, q.kind.delim, q.size, Result(s, q, es));
        assert s.r.residue + t == t;
      }
      hide Exec; hide AcceptStep;
    }
  }

  lemma FromResidueKept(s: Sys, q: Request, es: seq<Event>, t: seq<byte>)
    requires Ready(s, q) && Answered(s, q, es, t) && FromResidue(s, q)
    ensures Result(s, q, es) == Promised(s, q, t)
  {
    var all, d := s.r.residue + t, q.kind.delim;
    FirstStopGrows(s.r.residue, t, d, q.size);
    FirstStopSpec(s.r.residue, d, q.size, 0);
    ResidueResult(s, q, es);
    HistoryGrows(AcceptStep(s, q), es);
    hide AcceptStep; hide Exec; hide Inv;
    assert all[..FirstStop(s.r.residue, d, q.size, 0)] == s.r.residue[..FirstStop(s.r.residue, d, q.size, 0)];
  }

  lemma LowKept(residue: seq<byte>, t: seq<byte>, q: Request, p: seq<byte>)
    requires q.kind.Until? && q.kind.delim < 128 && q.size > 0 && q.had == |residue| && p <= residue + t
    requires Answers(q, Report(q.cb, false, p, false))
    requires residue == [] || IndexOf(residue + t, q.kind.delim) < Min(q.size, |residue + t|)
    ensures p == (residue + t)[..FirstStop(residue + t, q.kind.delim, q.size, 0)]
  {
    var all, d := residue + t, q.kind.delim;
    if residue != [] {
      WithinSize(all, p, d, q.size);
    }
    PrefixIsPromised(all, p, d, q.size);
    assert all[..|p|] == p;
  }

  lemma HighKept(t: seq<byte>, d: byte, size: nat, p: seq<byte>)
    requires p <= t && |p| == size > 0 && IndexOf(t, d) + 1 >= size
    ensures p == t[..FirstStop(t, d, size, 0)]
  {
    assert forall i :: 0 <= i < size - 1 ==> t[i] != d;
    FirstStopIs(t, d, size, 0, size);
    assert t[..size] == p;
  }

  /** A delimiter from 128 up never ends a call that the residue did not satisfy: it goes on to
      the full size. */
  lemma NeverAtHighDelimiter(s: Sys, q: Request, es: seq<Event>, t: seq<byte>)
    requires Ready(s, q) && Answered(s, q, es, t) && q.kind.delim >= 128 && !FromResidue(s, q)
    ensures |Result(s, q, es)| >= q.size
  {
    var p := Result(s, q, es);
    ResultIsPrefix(s, q, es, t);
    FirstStopSpec(s.r.residue, q.kind.delim, q.size, 0);
    LastInPrefix(p, s.r.residue, t);
  }

  lemma LastInPrefix(p: seq<byte>, a: seq<byte>, b: seq<byte>)
    requires p <= a + b
    ensures 0 < |p| <= |a| ==> p[|p| - 1] == a[|p| - 1]
  {
    if 0 < |p| <= |a| {
      assert p[|p| - 1] == (a + b)[|p| - 1];
    }
  }

  lemma WithinSize(all: seq<byte>, p: seq<byte>, d: byte, size: nat)
    requires p <= all && IndexOf(all, d) < Min(size, |all|)
    requires Framed(p, d) || (d !in p && |p| >= size)
    ensures Framed(p, d) && |p| == IndexOf(all, d) + 1
  {
    var n := IndexOf(all, d);
    if n < |p| {
      assert p[n] == d;
    }
    if Framed(p, d) {
      assert all == p + all[|p|..];
      IndexOfFramed(p, all[|p|..], d);
    }
  }

  // ----- the schedule that breaks it -----

  /** The transport answers the one operation of the call with `chunk`. */
  function OneChunk(s: Sys, q: Request, chunk: seq<byte>): seq<Event>
    requires s.r.id == 0
  {
    [Complete(AskedKey(s, q), chunk, false), Execute(AskedKey(s, q))]
  }

  /** The operation comes after the timer, if there is one. */
  function AskedKey(s: Sys, q: Request): nat {
    s.r.next + (if q.timed then 1 else 0)
  }

  lemma ExecTwo(s: Sys, e1: Event, e2: Event)
    requires |s.taken| == |s.fate|
    ensures Exec(s, [e1, e2]) == Step(Step(s, e1), e2)
  {
    var es := [e1, e2];
    assert es[1..] == [e2] && [e2][1..] == [];
    assert Exec(Step(s, e1), [e2]) == Exec(Step(Step(s, e1), e2), []);
  }

  /** From a residue that is not enough, line 320 asks for `size` bytes on top of it. */
  lemma AfterAccept(s: Sys, q: Request)
    requires Ready(s, q) && !FromResidue(s, q)
    ensures var s1 := AcceptStep(s, q);
            && s1.r.id != 0 && s1.r.requested == q.size && s1.r.held == s.r.residue && s1.r.residue == []
            && var key := AskedKey(s, q);
            && key in s1.r.pending && s1.r.pending[key].Op?
            && s1.r.pending[key].id == s1.r.id && s1.r.pending[key].kind == q.kind
            && s1.r.pending[key].count == q.size
            && s1.posts == s.posts && s1.fate == s.fate && s1.taken == s.taken
  {
  }

  /** What one full chunk leaves at the destination. */
  function OneChunkHeld(s: Sys, q: Request, chunk: seq<byte>): seq<byte>
    requires q.kind.Until?
  {
    var n := Seen(chunk, q.kind.delim);
    s.r.residue + (if n < |chunk| then chunk[..n + 1] else chunk)
  }

  lemma OneChunkAnswers(s: Sys, q: Request, chunk: seq<byte>)
    requires Ready(s, q) && !FromResidue(s, q) && |chunk| == q.size
    ensures Answered(s, q, OneChunk(s, q, chunk), chunk)
    ensures Result(s, q, OneChunk(s, q, chunk)) == OneChunkHeld(s, q, chunk)
  {
    var s1, key := AcceptStep(s, q), AskedKey(s, q);
    AfterAccept(s, q);
    var s2 := Step(s1, Complete(key, chunk, false));
    assert s2 == CompleteStep(s1, key, chunk, false);
    KeptAppend(s1.taken, s1.fate, chunk, Kept);
    OneChunkRuns(s2, key, chunk);
    ExecTwo(s1, Complete(key, chunk, false), Execute(key));
  }

  lemma OneChunkRuns(s: Sys, key: nat, chunk: seq<byte>)
    requires |s.taken| == |s.fate| && s.r.id != 0 && Waiting(s.r, key) && s.r.pending[key].Done?
    requires var h := s.r.pending[key]; h.kind.Until? && h.chunk == chunk && !h.err
    requires |chunk| >= s.r.requested
    ensures var s' := Step(s, Execute(key));
            var n := Seen(chunk, s.r.pending[key].kind.delim);
            && s'.posts == s.posts + [Report(s.r.cb, false, s.r.held + (if n < |chunk| then chunk[..n + 1] else chunk), false)]
            && s'.taken == s.taken && s'.fate == s.fate
  {
    hide KeptBytes;
    hide Concat;
    hide InFlight;
    hide Posted;
    ExecuteLive(s, key);
    hide ExecuteStep;
    hide DoReadSome;
    hide Waiting;
  }

  // ----- main results -----

  /** For every schedule, every chopping of `t` included, an answered call reports what
      read-until promises. */
  ghost predicate ChunkFree(s: Sys, q: Request, t: seq<byte>)
    requires Ready(s, q)
  {
    forall es :: Answered(s, q, es, t) ==> Result(s, q, es) == Promised(s, q, t)
  }

  /** One call of read-until does not depend on the chunks exactly when the residue is enough, or
      the delimiter is below 128 and there is no residue or it comes within `size` bytes, or it is
      not and neither is there a residue nor does it come before the last of them. Otherwise the
      request of line 320 lets the call run past `size`, or line 340 past the delimiter. */
  lemma ChunkFreeIff(s: Sys, q: Request, t: seq<byte>)
    requires Ready(s, q) && |t| >= q.size
    ensures ChunkFree(s, q, t) <==> Sure(s, q, t)
  {
    if Sure(s, q, t) {
      forall es | Answered(s, q, es, t) ensures Result(s, q, es) == Promised(s, q, t) {
        PromiseKept(s, q, es, t);
      }
    } else {
      OneChunkUnsure(s, q, t);
    }
  }

  /** Then one chunk of `size` bytes takes the call past what was promised. */
  lemma OneChunkUnsure(s: Sys, q: Request, t: seq<byte>)
    requires Ready(s, q) && |t| >= q.size && !Sure(s, q, t)
    ensures !ChunkFree(s, q, t)
  {
    var chunk := t[..q.size];
    var es := OneChunk(s, q, chunk);
    OneChunkAnswers(s, q, chunk);
    AnsweredMore(s, q, es, chunk, t);
    NotPromised(s, q, t);
    hide Exec; hide AcceptStep; hide OneChunkHeld; hide Promised;
  }

  lemma NotPromised(s: Sys, q: Request, t: seq<byte>)
    requires q.kind.Until? && |t| >= q.size > 0 && !Sure(s, q, t)
    ensures OneChunkHeld(s, q, t[..q.size]) != Promised(s, q, t)
  {
    var chunk, d, all := t[..q.size], q.kind.delim, s.r.residue + t;
    var n := Seen(chunk, d);
    StopWithin(all, d, q.size, 0);
    if d < 128 {
      if n < |chunk| {
        assert all[|s.r.residue| + n] == d;
      }
      assert |OneChunkHeld(s, q, chunk)| > q.size;
    } else if s.r.residue == [] {
      assert all == t;
      var k := IndexOf(t, d);
      FirstStopIs(t, d, q.size, 0, k + 1);
    }
  }

  /** Delimiter 200 asked for within two bytes: from the chunk [200, 1] the frame is [200], and both
      bytes are reported. */
  lemma MissedDelimiter()
    ensures var q := Request(Until(200), 2, UserFunction(0), false, 0);
            && Ready(Start, q)
            && Answered(Start, q, OneChunk(Start, q, [200, 1]), [200, 1])
            && Result(Start, q, OneChunk(Start, q, [200, 1])) == [200, 1]
            && Promised(Start, q, [200, 1]) == [200]
  {
    var q := Request(Until(200), 2, UserFunction(0), false, 0);
    StartInv();
    var chunk: seq<byte> := [200, 1];
    OneChunkAnswers(Start, q, chunk);
    assert Start.r.residue + chunk == chunk;
    FirstStopIs(chunk, 200, 2, 0, 1);
  }

  lemma AnsweredMore(s: Sys, q: Request, es: seq<Event>, chunk: seq<byte>, t: seq<byte>)
    requires |s.taken| == |s.fate| && s.r.id == 0 && Answered(s, q, es, chunk) && chunk <= t
    ensures Answered(s, q, es, t)
  {
    var k := KeptBytes(s.taken, s.fate);
    assert k + t == k + chunk + t[|chunk|..];
  }

  /** The bytes of the destination that handler `h` of the live read fills or has filled. */
  function Extent(h: Handler): nat {
    if h.Op? then h.count else |Chunk(h)|
  }

  /** For every schedule the call writes inside `room` bytes: what is asked of the transport, what
      it completes, and what is reported. */
  ghost predicate Within(s: Sys, q: Request, room: nat)
    requires Ready(s, q)
  {
    && (forall es, key :: NoAccept(es) && Waiting(Exec(AcceptStep(s, q), es).r, key) ==>
          var r := Exec(AcceptStep(s, q), es).r;
          |r.held| + Extent(r.pending[key]) <= room)
    && (forall es :: NoAccept(es) && |Exec(AcceptStep(s, q), es).posts| > |s.posts| ==> |Result(s, q, es)| <= room)
  }

  /** The call stays inside `size` bytes for every schedule exactly when there is no residue or
      the residue is enough. In general it needs room for the residue on top of `size`. */
  lemma DestinationIff(s: Sys, q: Request)
    requires Ready(s, q)
    ensures Within(s, q, q.size) <==> s.r.residue == [] || FromResidue(s, q)
    ensures Within(s, q, q.size + |s.r.residue|)
  {
    WithinBound(s, q);
    if FromResidue(s, q) {
      WithinFromResidue(s, q);
    } else if s.r.residue != [] {
      AfterAccept(s, q);
      var s1 := AcceptStep(s, q);
      assert NoAccept([]) && Exec(s1, []) == s1 && Waiting(s1.r, AskedKey(s, q));
      assert |s1.r.held| + Extent(s1.r.pending[AskedKey(s, q)]) > q.size;
    }
  }

  lemma WithinBound(s: Sys, q: Request)
    requires Ready(s, q)
    ensures Within(s, q, q.size + |s.r.residue|)
  {
    hide KeptBytes;
    hide Concat;
    var s1 := AcceptStep(s, q);
    AcceptKeeps(s, q);
    AcceptHistory(s, q);
    hide AcceptStep;
    forall es | NoAccept(es)
      ensures forall key :: Waiting(Exec(s1, es).r, key) ==>
                |Exec(s1, es).r.held| + Extent(Exec(s1, es).r.pending[key]) <= q.size + |s.r.residue|
      ensures |Exec(s1, es).posts| > |s.posts| ==> |Exec(s1, es).posts[|s.posts|].bytes| <= q.size + |s.r.residue|
    {
      CallRun(s1, es);
      var s' := Exec(s1, es);
      assert s'.accepted[|s.posts|] == q;
      if |s'.posts| > |s.posts| {
        assert Answers(s'.accepted[|s.posts|], s'.posts[|s.posts|]);
      }
      forall key | Waiting(s'.r, key) ensures |s'.r.held| + Extent(s'.r.pending[key]) <= q.size + |s.r.residue| {
        WritesBound(s', key);
      }
      hide Inv;
    }
  }

  lemma AcceptHistory(s: Sys, q: Request)
    requires Ready(s, q)
    ensures var s1 := AcceptStep(s, q);
            s1.accepted == s.accepted + [q] && s.posts <= s1.posts && |s.posts| == |s.accepted|
  {
  }

  lemma WithinFromResidue(s: Sys, q: Request)
    requires Ready(s, q) && FromResidue(s, q)
    ensures Within(s, q, q.size)
  {
    var s1 := AcceptStep(s, q);
    ResidueResult(s, q, []);
    AcceptKeeps(s, q);
    StopWithin(s.r.residue, q.kind.delim, q.size, 0);
    AcceptHistory(s, q);
    assert s1.r.id == 0;
    hide AcceptStep;
    forall es | NoAccept(es)
      ensures forall key :: !Waiting(Exec(s1, es).r, key)
      ensures Exec(s1, es).posts == s1.posts
    {
      CallRun(s1, es);
      IdleNeverPosts(s1, es);
    }
  }

  lemma {:induction false} StopWithin(s: seq<byte>, d: byte, size: nat, from: nat)
    requires from <= |s| && from < size
    ensures FirstStop(s, d, size, from) <= size
    decreases |s| - from
  {
    if from < |s| && from + 1 < size {
      StopWithin(s, d, size, from + 1);
    }
  }

  // ----- the read ends -----

  /** The event runs a continuation of the live read. */
  predicate Continues(s: Sys, e: Event) {
    e.Execute? && s.r.id != 0 && Waiting(s.r, e.key) && s.r.pending[e.key].Done?
  }

  /** The chunks that the continuations of the live read are run on. */
  ghost function Fed(s: Sys, es: seq<Event>): seq<seq<byte>>
    requires |s.taken| == |s.fate|
    decreases |es|
  {
    if es == [] then []
    else (if Continues(s, es[0]) then [s.r.pending[es[0].key].chunk] else []) + Fed(Step(s, es[0]), es[1..])
  }

  function NonEmpty(chunks: seq<seq<byte>>): nat {
    if chunks == [] then 0 else (if chunks[0] != [] then 1 else 0) + NonEmpty(chunks[1..])
  }

  /** Whatever happens, a read in progress stays as it is, is over, or has its chunk added and still
      lacks bytes. */
  lemma Progress(s: Sys, e: Event)
    requires Inv(s) && s.r.id != 0 && !e.Accept?
    ensures var s' := Step(s, e);
            s'.r.id == 0 ||
              (s'.r.id == s.r.id && s'.r.requested == s.r.requested
               && if Continues(s, e) then s'.r.held == s.r.held + s.r.pending[e.key].chunk && |s'.r.held| < s.r.requested
                  else s'.r.held == s.r.held)
  {
    hide KeptBytes;
    hide Concat;
    hide Lose;
    if Continues(s, e) {
      ExecuteLive(s, e.key);
      OneCompletion(s, e.key);
      hide ExecuteStep;
    } else if Enabled(s, e) && e.Execute? {
      OtherHandler(s.r, e.key);
      hide Run;
    }
  }

  lemma OneCompletion(s: Sys, key: nat)
    requires Inv(s) && s.r.id != 0 && Waiting(s.r, key) && s.r.pending[key].Done?
    ensures var h := s.r.pending[key]; s.r.residue != [] ==> Ends(s.r, h.kind, h.chunk, h.err)
  {
    hide KeptBytes;
    hide Concat;
    var live :| LiveAt(s, live);
    assert live == key;
  }

  /** A handler that is not a completion of the live read. */
  lemma OtherHandler(r: Reader, key: nat)
    requires key in r.pending && !r.pending[key].Op? && r.id != 0 && !Waiting(r, key)
    ensures var r' := Run(r, key);
            r'.id == 0 || (r'.id == r.id && r'.requested == r.requested && r'.held == r.held)
  {
  }

  /** The chunks run through a read that is still in progress are what it has added, and do not
      make it full. */
  lemma {:induction false} FedIsHeld(s: Sys, es: seq<Event>)
    requires Inv(s) && s.r.id != 0 && NoAccept(es) && Exec(s, es).r.id != 0
    ensures var s' := Exec(s, es);
            && s'.r.held == s.r.held + ConcatAll(Fed(s, es))
            && s'.r.requested == s.r.requested
            && (Fed(s, es) != [] ==> |s'.r.held| < s.r.requested)
    decreases |es|
  {
    hide Concat;
    assert |s.taken| == |s.fate|;
    hide Inv;
    hide Step;
    hide Continues;
    if es == [] {
      assert s.r.held + [] == s.r.held;
    } else {
      Progress(s, es[0]);
      CallStep(s, es[0]);
      if Step(s, es[0]).r.id == 0 {
        IdleNeverPosts(Step(s, es[0]), es[1..]);
      } else {
        FedIsHeld(Step(s, es[0]), es[1..]);
        var rest := Fed(Step(s, es[0]), es[1..]);
        if Continues(s, es[0]) {
          HasChunk(s, es[0]);
          FedFirst(s.r.held, s.r.pending[es[0].key].chunk, rest);
        } else {
          assert [] + rest == rest;
        }
      }
    }
  }

  lemma FedFirst(held: seq<byte>, c: seq<byte>, rest: seq<seq<byte>>)
    ensures held + c + ConcatAll(rest) == held + ConcatAll([c] + rest)
  {
    assert ([c] + rest)[1..] == rest;
    assert held + c + ConcatAll(rest) == held + (c + ConcatAll(rest));
  }

  lemma HasChunk(s: Sys, e: Event)
    requires Continues(s, e)
    ensures e.Execute? && e.key in s.r.pending && s.r.pending[e.key].Done?
  {
  }

  function ConcatAll(chunks: seq<seq<byte>>): (r: seq<byte>) {
    if chunks == [] then [] else chunks[0] + ConcatAll(chunks[1..])
  }

  lemma {:induction false} NonEmptyBound(chunks: seq<seq<byte>>)
    ensures NonEmpty(chunks) <= |ConcatAll(chunks)|
  {
    if chunks != [] {
      NonEmptyBound(chunks[1..]);
    }
  }

  /** In any run, with empty completions, stale ones and other handlers in between: a read is over
      once as many of its continuations have run on non-empty chunks as it lacks bytes, and at
      least one has run at all. */
  lemma ReadEnds(s: Sys, es: seq<Event>)
    requires Inv(s) && s.r.id != 0 && NoAccept(es)
    requires Fed(s, es) != [] && |s.r.held| + NonEmpty(Fed(s, es)) >= s.r.requested
    ensures Exec(s, es).r.id == 0
  {
    if Exec(s, es).r.id != 0 {
      FedIsHeld(s, es);
      NonEmptyBound(Fed(s, es));
    }
  }
}
