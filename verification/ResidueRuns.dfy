/** Runs of a new reader that meet what the code does with a residue: the byte lost to the look-ahead,
    and a read-until that reports more than its size. */
module ResidueRuns {
  import opened Bytes
  import opened Fates
  import opened ReaderModel
  import opened ReaderSystem
  import opened ReaderInvariant
  import opened ReaderRuns

  /** A read-until for delimiter 7 is completed with [7, 1, 2]: it reports [7], and [1, 2] is saved. */
  function Saving(): seq<Event> {
    [Accept(Until(7), 3, UserFunction(0), false), Complete(0, [7, 1, 2], false), Execute(0)]
  }

  predicate Saved(s: Sys) {
    && s.r.id == 0 && s.r.counter == 1 && s.r.next == 2 && s.r.residue == [1, 2] && |s.accepted| == 1 && !s.r.dumpOn
    && s.accepted[0].kind == Until(7)
    && s.taken == [7, 1, 2] && s.fate == [Kept, Kept, Kept]
    && s.posts == [Report(UserFunction(0), false, [7], false)]
  }

  lemma SavingSaves()
    ensures Saved(Exec(Start, Saving()))
  {
    hide Lose; hide Concat; hide InFlight;
    var chunk: seq<byte> := [7, 1, 2];
    var s1 := Step(Start, Accept(Until(7), 3, UserFunction(0), false));
    assert s1.r.pending == map[0 := Op(1, Until(7), 3, false)];
    var s2 := Step(s1, Complete(0, chunk, false));
    assert s2.r.pending[0] == Done(1, Until(7), chunk, false, false) && s2.taken == chunk;
    assert s2.fate == [] + Same(Kept, 3) == [Kept, Kept, Kept];
    assert Seen(chunk, 7) == 0;
    var s3 := Step(s2, Execute(0));
    SavedBy(s2, chunk);
    ThreeSteps(Start, Saving());
  }

  lemma SavedBy(s: Sys, chunk: seq<byte>)
    requires |s.taken| == |s.fate| && s.r.id == 1 && 0 in s.r.pending
    requires s.r.pending[0] == Done(1, Until(7), chunk, false, false)
    requires chunk == [7, 1, 2] && Seen(chunk, 7) == 0 && s.r.held == []
    requires s.r.residue == [] && s.r.cb == UserFunction(0)
    ensures var s' := Step(s, Execute(0));
            && s'.r == s.r.(id := 0, held := [7], residue := [1, 2], next := s.r.next + 1,
                            pending := (s.r.pending - {0})[s.r.next := User(UserFunction(0), false, 1)])
            && s'.posts == s.posts + [Report(UserFunction(0), false, [7], false)]
            && s'.taken == s.taken && s'.fate == s.fate && s'.accepted == s.accepted
  {
    hide Lose; hide Concat; hide InFlight;
    ExecuteLive(s, 0);
    assert [] + chunk[..1] == [7] && [] + chunk[1..] == [1, 2];
    hide ExecuteStep; hide Seen;
  }

  lemma ThreeSteps(s: Sys, es: seq<Event>)
    requires |s.taken| == |s.fate| && |es| == 3
    ensures var s1 := Step(s, es[0]);
            && |s1.taken| == |s1.fate| && |Step(s1, es[1]).taken| == |Step(s1, es[1]).fate|
            && Exec(s, es) == Step(Step(s1, es[1]), es[2])
  {
    StepSized(s, es[0]);
    StepSized(Step(s, es[0]), es[1]);
    StepSized(Step(Step(s, es[0]), es[1]), es[2]);
    hide Step;
    assert es[1..][1..][1..] == [];
    var s3 := Step(Step(Step(s, es[0]), es[1]), es[2]);
    assert Exec(s3, []) == s3;
    assert Exec(Step(Step(s, es[0]), es[1]), es[1..][1..]) == s3;
    assert Exec(Step(s, es[0]), es[1..]) == s3;
  }

  /** A plain read for one byte then gets 1, and 2, fetched ahead, is in nobody's hands. */
  lemma LookAheadLoses()
    ensures var s := Step(Exec(Start, Saving()), Accept(Partial, 1, UserFunction(1), false));
            && Shorts(s.accepted) == 1 && s.taken == [7, 1, 2] && s.fate == [Kept, Kept, LookAhead]
            && Delivered(s.posts) + LiveBytes(s.r) + s.r.residue == [7, 1]
  {
    SavingSaves();
    var s0 := Exec(Start, Saving());
    hide Exec;
    StepKeepsStart();
    ShortRead(s0);
    var s := Step(s0, Accept(Partial, 1, UserFunction(1), false));
    BalanceHolds(s);
    hide Step;
    KeptTwo(s.taken, s.fate);
  }

  lemma StepKeepsStart()
    ensures Inv(Exec(Start, Saving())) && Inv(Step(Exec(Start, Saving()), Accept(Partial, 1, UserFunction(1), false)))
  {
    SavingSaves();
    StartInv();
    RunKeeps(Start, Saving());
    StepKeepsBefore(Exec(Start, Saving()), Accept(Partial, 1, UserFunction(1), false));
    hide Exec; hide Inv; hide Step;
  }

  lemma ShortRead(s: Sys)
    requires |s.taken| == |s.fate| && Saved(s)
    ensures var s' := Step(s, Accept(Partial, 1, UserFunction(1), false));
            && Shorts(s'.accepted) == 1 && s'.taken == [7, 1, 2] && s'.fate == [Kept, Kept, LookAhead]
  {
    hide InFlight;
    var q := Request(Partial, 1, UserFunction(1), false, 2);
    var s' := Step(s, Accept(Partial, 1, UserFunction(1), false));
    assert s' == AcceptStep(s, q) && Short(q);
    DeliveredOne(s.posts[0]);
    LoseThird();
    assert s'.accepted[..1] == s.accepted && s.accepted[..0] == [];
    assert Shorts(s.accepted) == 0;
  }

  lemma DeliveredOne(p: Report)
    ensures Delivered([p]) == p.bytes
  {
    DeliveredSnoc([], p);
    assert Texts([]) == [] && [] + [p] == [p];
  }

  lemma LoseThird()
    ensures Lose([Kept, Kept, Kept], 2, 3, LookAhead) == [Kept, Kept, LookAhead]
  {
    var f := [Kept, Kept, Kept];
    assert f[..2] == [Kept, Kept] && [Kept, Kept][..1] == [Kept] && [Kept][..0] == [];
    assert Lose([Kept], 2, 3, LookAhead) == [Kept];
    assert Count([Kept], Kept) == 1;
    assert Lose([Kept, Kept], 2, 3, LookAhead) == [Kept, Kept];
    assert Count([Kept, Kept], Kept) == 2;
  }

  lemma KeptTwo(taken: seq<byte>, fate: seq<Fate>)
    requires taken == [7, 1, 2] && fate == [Kept, Kept, LookAhead]
    ensures KeptBytes(taken, fate) == [7, 1]
  {
    assert taken[..2][..1][..0] == [] && fate[..2][..1][..0] == [];
    assert KeptBytes(taken[..2][..1], fate[..2][..1]) == [] + [7];
    assert KeptBytes(taken[..2], fate[..2]) == [7] + [1];
  }

  /** A read-until for three bytes then has the residue, asks for three more, and reports five. */
  lemma ReportsPastSize()
    ensures var es := Saving() + [Accept(Until(7), 3, UserFunction(1), false)] + [Complete(2, [3, 4, 5], false)] + [Execute(2)];
            var s := Exec(Start, es);
            |s.posts| == 2 && s.posts[1].bytes == [1, 2, 3, 4, 5] && |s.accepted| == 2 && s.accepted[1].size == 3
  {
    SavingSaves();
    var e1, e2, e3 := Accept(Until(7), 3, UserFunction(1), false), Complete(2, [3, 4, 5], false), Execute(2);
    var s0 := Exec(Start, Saving());
    PastSize(s0);
    hide Step;
    ExecSnoc(Start, Saving(), e1);
    ExecSnoc(Start, Saving() + [e1], e2);
    ExecSnoc(Start, Saving() + [e1] + [e2], e3);
  }

  lemma PastSize(s: Sys)
    requires |s.taken| == |s.fate| && Saved(s)
    ensures var s1 := Step(s, Accept(Until(7), 3, UserFunction(1), false));
            && |s1.taken| == |s1.fate|
            && var s2 := Step(s1, Complete(2, [3, 4, 5], false));
            && |s2.taken| == |s2.fate|
            && var s3 := Step(s2, Execute(2));
            |s3.posts| == 2 && s3.posts[1].bytes == [1, 2, 3, 4, 5] && |s3.accepted| == 2 && s3.accepted[1].size == 3
  {
    hide Lose; hide Concat; hide InFlight;
    var s1 := Step(s, Accept(Until(7), 3, UserFunction(1), false));
    NotEnough();
    assert s1.r.id == 2 && s1.r.held == [1, 2] && s1.r.requested == 3 && s1.r.pending[2] == Op(2, Until(7), 3, false);
    assert s1.posts == s.posts;
    var s2 := Step(s1, Complete(2, [3, 4, 5], false));
    assert s2.r.pending[2] == Done(2, Until(7), [3, 4, 5], false, false);
    ThreeMore(s2, [3, 4, 5]);
  }

  lemma NotEnough()
    ensures FirstStop([1, 2], 7, 3, 0) == 0
  {
    assert FirstStop([1, 2], 7, 3, 2) == 0;
    assert FirstStop([1, 2], 7, 3, 1) == 0;
  }

  lemma ThreeMore(s: Sys, chunk: seq<byte>)
    requires |s.taken| == |s.fate| && s.r.id == 2 && 2 in s.r.pending
    requires s.r.pending[2] == Done(2, Until(7), chunk, false, false)
    requires s.r.held == [1, 2] && s.r.requested == 3 && chunk == [3, 4, 5]
    ensures var s' := Step(s, Execute(2));
            && |s'.posts| == |s.posts| + 1 && s'.posts[|s.posts|].bytes == [1, 2, 3, 4, 5] && s.posts <= s'.posts
            && s'.accepted == s.accepted
  {
    hide Lose; hide Concat; hide InFlight;
    ExecuteLive(s, 2);
    assert Seen(chunk, 7) == 3;
    assert s.r.held + chunk == [1, 2, 3, 4, 5];
    hide ExecuteStep; hide Seen;
  }
}
