/** Read-until over whole runs: its reports are the delimiter-split of the stream, whatever the
    chunks; and what they are for a delimiter that line 340 cannot see. */
module Framing {
  import opened Bytes
  import opened Fates
  import opened ReaderModel
  import opened ReaderSystem
  import opened ReaderInvariant
  import opened ReaderRuns

  // ----- splitting a stream -----

  predicate FramedOrLong(p: seq<byte>, d: byte, max: nat) {
    Framed(p, d) || (d !in p && |p| >= max)
  }

  /** Pieces that end at a delimiter or are at least `max` long, put end to end into a stream
      that fits, are all frames. */
  lemma {:induction false} PiecesAreFramed(parts: seq<seq<byte>>, rest: seq<byte>, d: byte, max: nat)
    requires forall p :: p in parts ==> FramedOrLong(p, d, max)
    requires Fits(Concat(parts) + rest, d, max)
    ensures (forall p :: p in parts ==> Framed(p, d)) && Fits(rest, d, max)
  {
    hide Fits;
    hide FramedOrLong;
    hide Framed;
    if parts == [] {
      assert Concat(parts) + rest == rest;
    } else {
      var init, p := parts[..|parts| - 1], parts[|parts| - 1];
      assert parts == init + [p];
      assert Concat(parts) + rest == Concat(init) + (p + rest);
      assert forall q :: q in init ==> q in parts;
      PiecesAreFramed(init, p + rest, d, max);
      assert FramedOrLong(p, d, max);
      LastPieceFramed(p, rest, d, max);
    }
  }

  lemma LastPieceFramed(p: seq<byte>, rest: seq<byte>, d: byte, max: nat)
    requires FramedOrLong(p, d, max) && Fits(p + rest, d, max)
    ensures Framed(p, d) && Fits(rest, d, max)
  {
    if Framed(p, d) {
      FitsFirst(p, rest, d, max);
    } else {
      IndexOfAbsent(p, rest, d);
    }
  }

  lemma NoDelimiterNoFrame(s: seq<byte>, d: byte)
    requires d !in s
    ensures Frames(s, d) == []
  {
    IndexOfAbsent(s, [], d);
    assert s + [] == s;
  }

  // ----- runs of read-until -----

  /** Every accepted read is a read-until for `d` of the same size, and no timer or error has
      cut one short. */
  predicate OnlyUntil(s: Sys, d: byte, max: nat) {
    && (forall i :: 0 <= i < |s.accepted| ==> s.accepted[i].kind == Until(d) && s.accepted[i].size == max)
    && (forall i :: 0 <= i < |s.posts| ==> !CutShort(s.posts[i]))
  }

  lemma {:induction false} NoShorts(accepted: seq<Request>)
    requires forall i :: 0 <= i < |accepted| ==> accepted[i].kind.Until?
    ensures Shorts(accepted) == 0
  {
    if accepted != [] {
      NoShorts(accepted[..|accepted| - 1]);
    }
  }

  lemma UntilWhole(s: Sys, es: seq<Event>, d: byte, max: nat)
    requires Reached(s, es) && OnlyUntil(s, d, max)
    ensures s.taken == Delivered(s.posts) + (LiveBytes(s.r) + s.r.residue)
  {
    NoShorts(s.accepted);
    Conservation(s, es);
    WholeStream(s, es);
    Group4(Delivered(s.posts), LiveBytes(s.r), s.r.residue, []);
  }

  /** Chunk-independent framing. Whatever the chunks and the interleaving, the reports of
      successive read-untils are the first frames of the delimiter-split of the stream, as long
      as its frames fit; and while nothing is in flight for the live read every complete frame
      received so far has been reported. */
  lemma FramingTheorem(s: Sys, es: seq<Event>, d: byte, max: nat, stream: seq<byte>)
    requires Reached(s, es) && OnlyUntil(s, d, max) && d < 128
    requires s.taken <= stream && Fits(stream, d, max)
    ensures Texts(s.posts) <= Frames(s.taken, d) <= Frames(stream, d)
    ensures s.r.id != 0 && InFlight(s.r) == [] ==> Texts(s.posts) == Frames(s.taken, d)
  {
    hide Fits;
    hide Frames;
    hide Concat;
    hide LiveBytes;
    var texts, rest := Texts(s.posts), LiveBytes(s.r) + s.r.residue;
    UntilWhole(s, es, d, max);
    CallbackAccounting(s, es);
    assert stream == s.taken + stream[|s.taken|..];
    FitsPrefix(s.taken, stream[|s.taken|..], d, max);
    FramesExtend(s.taken, stream[|s.taken|..], d);
    forall p | p in texts ensures FramedOrLong(p, d, max) {
      var i :| 0 <= i < |texts| && texts[i] == p;
      assert Answers(s.accepted[i], s.posts[i]);
    }
    PiecesAreFramed(texts, rest, d, max);
    FramedParts(texts, rest, d);
    if s.r.id != 0 && InFlight(s.r) == [] {
      WaitingHoldsNoFrame(s, es, d, max);
    }
  }

  lemma WaitingHoldsNoFrame(s: Sys, es: seq<Event>, d: byte, max: nat)
    requires Reached(s, es) && OnlyUntil(s, d, max) && d < 128
    requires s.r.id != 0 && InFlight(s.r) == []
    ensures Frames(LiveBytes(s.r) + s.r.residue, d) == []
  {
    StartInv();
    RunKeeps(Start, es);
    var live :| LiveAt(s, live);
    assert s.r.residue == [];
    NoDelimiterNoFrame(LiveBytes(s.r) + s.r.residue, d);
  }

  /** Two runs over one stream report the same frames, however each was chopped. */
  lemma ChunkIndependence(s1: Sys, es1: seq<Event>, s2: Sys, es2: seq<Event>,
                          d: byte, max: nat, stream: seq<byte>, i: nat)
    requires Reached(s1, es1) && OnlyUntil(s1, d, max) && s1.taken <= stream
    requires Reached(s2, es2) && OnlyUntil(s2, d, max) && s2.taken <= stream
    requires d < 128 && Fits(stream, d, max) && i < |s1.posts| && i < |s2.posts|
    ensures s1.posts[i].bytes == s2.posts[i].bytes
  {
    FramingTheorem(s1, es1, d, max, stream);
    FramingTheorem(s2, es2, d, max, stream);
    assert Texts(s1.posts)[i] == Frames(stream, d)[i] == Texts(s2.posts)[i];
  }

  // ----- a delimiter from 128 up -----

  predicate AllUntil(accepted: seq<Request>, d: byte) {
    forall i :: 0 <= i < |accepted| ==> accepted[i].kind == Until(d) && accepted[i].had == 0
  }

  lemma ContinueSavesNothing(r: Reader, id: nat, d: byte, chunk: seq<byte>, err: bool)
    requires d >= 128 && r.residue == []
    ensures Continue(r, id, Until(d), chunk, err).residue == []
  {
    assert Seen(chunk, d) == |chunk|;
  }

  lemma StepSavesNothing(s: Sys, e: Event, d: byte)
    requires Inv(s) && d >= 128 && s.r.residue == [] && AllUntil(s.accepted, d) && (e.Accept? ==> e.kind == Until(d))
    ensures Step(s, e).r.residue == [] && AllUntil(Step(s, e).accepted, d)
  {
    hide KeptBytes;
    hide Concat;
    hide Lose;
    if Enabled(s, e) && e.Execute? {
      var h := s.r.pending[e.key];
      if h.Done? && h.id == s.r.id {
        KindOfLive(s, e.key);
        ContinueSavesNothing(DumpCallback(Pop(s.r, e.key), h.chunk, h.err, h.dumping), h.id, d, h.chunk, h.err);
      }
    }
    hide Continue;
  }

  lemma KindOfLive(s: Sys, key: nat)
    requires Inv(s) && Waiting(s.r, key)
    ensures s.accepted != [] && s.r.pending[key].kind == s.accepted[|s.accepted| - 1].kind
  {
    hide KeptBytes;
    hide Concat;
    if s.r.id != 0 {
      var live :| LiveAt(s, live);
      assert live == key;
    }
  }

  lemma {:induction false} RunSavesNothing(s: Sys, es: seq<Event>, d: byte)
    requires Inv(s) && d >= 128 && s.r.residue == [] && AllUntil(s.accepted, d)
    requires |Exec(s, es).accepted| < ID_RANGE
    requires forall i :: 0 <= i < |Exec(s, es).accepted| ==> Exec(s, es).accepted[i].kind == Until(d)
    ensures Exec(s, es).r.residue == [] && AllUntil(Exec(s, es).accepted, d)
    decreases |es|
  {
    if es != [] {
      var s1 := Step(s, es[0]);
      HistoryGrows(s1, es[1..]);
      StepKeeps(s, es[0]);
      if Enabled(s, es[0]) {
        if es[0].Accept? {
          assert s1.accepted[|s.accepted|] == Exec(s, es).accepted[|s.accepted|];
        }
        StepSavesNothing(s, es[0], d);
      }
      hide Inv;
      hide Step;
      hide AllUntil;
      RunSavesNothing(s1, es[1..], d);
    }
  }

  /** Read-untils for a delimiter from 128 up, on a new reader, never see it: every report has
      exactly the size asked, wherever the delimiter is in the stream, and nothing is saved. */
  lemma HighDelimiterBlocks(s: Sys, es: seq<Event>, d: byte, max: nat)
    requires Reached(s, es) && OnlyUntil(s, d, max) && d >= 128
    ensures forall i :: 0 <= i < |s.posts| ==> |s.posts[i].bytes| == max
    ensures s.r.residue == [] && s.taken == Delivered(s.posts) + LiveBytes(s.r)
  {
    StartInv();
    RunSavesNothing(Start, es, d);
    UntilWhole(s, es, d, max);
    CallbackAccounting(s, es);
    assert LiveBytes(s.r) + [] == LiveBytes(s.r);
    forall i | 0 <= i < |s.posts| ensures |s.posts[i].bytes| == max {
      assert Answers(s.accepted[i], s.posts[i]);
    }
  }
}
