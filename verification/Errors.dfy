/** The errors that callbacks are told: those of the completions that end their reads, and no others.
    For runs of any length. */
module Errors {
  import opened Bytes
  import opened Fates
  import opened ReaderModel
  import opened ReaderSystem
  import opened ReaderInvariant
  import opened ReaderRuns
  import F = Effects

  /** `flags`: the error flag of each completion, by operation. `errs`: for each callback posted, the
      flag of the completion whose continuation posted it; false for a callback that no completion
      posted, but the residue or a timer. */
  datatype Told = Told(flags: map<nat, bool>, errs: seq<bool>)

  const Nothing: Told := Told(map[], [])

  ghost function Note(s: Sys, t: Told, e: Event): Told
    requires |s.taken| == |s.fate|
  {
    if !Enabled(s, e) then t
    else if e.Complete? then t.(flags := t.flags[e.key := e.err])
    else if |Step(s, e).posts| == |s.posts| then t
    else t.(errs := t.errs + [e.Execute? && s.r.pending[e.key].Done? && e.key in t.flags && t.flags[e.key]])
  }

  ghost function NoteAll(s: Sys, t: Told, es: seq<Event>): Told
    requires |s.taken| == |s.fate|
    decreases |es|
  {
    if es == [] then t else NoteAll(Step(s, es[0]), Note(s, t, es[0]), es[1..])
  }

  /** A completion waits with the flag it came with; one made from the residue has none. */
  predicate Queued(r: Reader, flags: map<nat, bool>) {
    && (forall k :: k in r.pending ==> k < r.next) && (forall k :: k in flags ==> k < r.next)
    && (forall k :: k in r.pending && r.pending[k].Op? ==> k !in flags)
    && (forall k :: k in r.pending && r.pending[k].Done? ==> r.pending[k].err == (k in flags && flags[k]))
  }

  predicate Reported(posts: seq<Report>, errs: seq<bool>) {
    |posts| == |errs| && forall i :: 0 <= i < |posts| ==> posts[i].err == errs[i]
  }

  ghost predicate Noted(s: Sys, t: Told) {
    |s.taken| == |s.fate| && Queued(s.r, t.flags) && Reported(s.posts, t.errs)
  }

  // ----- what a handler adds -----

  /** Only handlers with no error are added, and a callback tells `err`. */
  predicate Tells(r: Reader, r': Reader, err: bool) {
    && r'.next >= r.next
    && (forall k :: k in r'.pending ==> k < r'.next)
    && (forall k :: k in r'.pending && k < r.next ==> k in r.pending && r'.pending[k] == r.pending[k])
    && (forall k :: k in r'.pending && k >= r.next && r'.pending[k].Done? ==> !r'.pending[k].err)
    && (forall k :: k in r'.pending && k >= r.next && r'.pending[k].User? ==> r'.pending[k].err == err)
  }

  lemma ContinueTells(r: Reader, id: nat, kind: Kind, chunk: seq<byte>, err: bool)
    requires forall k :: k in r.pending ==> k < r.next
    ensures Tells(r, Continue(r, id, kind, chunk, err), err)
  {
    AbsorbKeepsQueue(r, kind, chunk);
    hide Absorb; hide Ends; hide AfterDrain;
  }

  lemma ActTells(r: Reader, h: Handler)
    requires !h.Op? && forall k :: k in r.pending ==> k < r.next
    ensures Tells(r, Act(r, h), h.Done? && h.err)
  {
    if h.Done? {
      ContinueTells(DumpCallback(r, h.chunk, h.err, h.dumping), h.id, h.kind, h.chunk, h.err);
    }
    hide Continue;
  }

  lemma AskTells(r: Reader, kind: Kind, count: nat)
    requires forall k :: k in r.pending ==> k < r.next
    ensures Tells(r, DoReadSome(r, r.id, kind, count), false)
  {
    hide AfterDrain;
  }

  lemma AcceptTells(r: Reader, kind: Kind, size: nat, cb: Callback, timed: bool)
    requires r.id == 0 && forall k :: k in r.pending ==> k < r.next
    ensures Tells(r, AsyncRead(r, kind, size, cb, timed).0, false)
  {
    var r1 := NewRead(r, size, cb, timed);
    if !kind.Until? {
      AskTells(r1, kind, size);
    } else if FirstStop(r1.residue, kind.delim, size, 0) == 0 {
      AskTells(r1.(held := r1.residue, residue := []), kind, size);
    }
    hide DoReadSome; hide FirstStop;
  }

  /** What the queue and the reports become. */
  lemma TellsQueued(r: Reader, r1: Reader, r': Reader, flags: map<nat, bool>, err: bool, timedOut: bool)
    requires Queued(r1, flags) && r1.next == r.next && Tells(r1, r', err)
    ensures Queued(r', flags)
    ensures Posted(r, r', timedOut) == [] || (|Posted(r, r', timedOut)| == 1 && Posted(r, r', timedOut)[0].err == err)
  {
  }

  lemma ReportedSnoc(posts: seq<Report>, errs: seq<bool>, p: Report)
    requires Reported(posts, errs)
    ensures Reported(posts + [p], errs + [p.err])
  {
  }

  lemma AcceptNoted(s: Sys, t: Told, e: Event)
    requires Noted(s, t) && e.Accept? && Enabled(s, e)
    ensures Noted(Step(s, e), Note(s, t, e))
  {
    hide Lose; hide Concat; hide AsyncRead;
    var s' := Step(s, e);
    AcceptTells(s.r, e.kind, e.size, e.cb, e.timed);
    hide Tells;
    TellsQueued(s.r, s.r, s'.r, t.flags, false, false);
    hide Posted; hide Queued;
    PostsNoted(s.posts, s'.posts, Posted(s.r, s'.r, false), t.errs, false);
    hide Reported;
  }

  lemma PostsNoted(posts: seq<Report>, posts': seq<Report>, added: seq<Report>, errs: seq<bool>, err: bool)
    requires Reported(posts, errs) && posts' == posts + added
    requires added == [] || (|added| == 1 && added[0].err == err)
    ensures Reported(posts', if |posts'| == |posts| then errs else errs + [err])
  {
    if added == [] {
      assert posts' == posts;
    } else {
      assert added == [added[0]];
      ReportedSnoc(posts, errs, added[0]);
    }
  }

  lemma ExecuteNoted(s: Sys, t: Told, key: nat)
    requires Noted(s, t) && Enabled(s, Execute(key))
    ensures Noted(Step(s, Execute(key)), Note(s, t, Execute(key)))
  {
    hide Lose; hide Concat; hide Act;
    var s', h := Step(s, Execute(key)), s.r.pending[key];
    var err, timedOut := h.Done? && h.err, h == Timer(s.r.id);
    assert err == (h.Done? && key in t.flags && t.flags[key]);
    ActTells(Pop(s.r, key), h);
    assert Queued(Pop(s.r, key), t.flags);
    hide Tells;
    TellsQueued(s.r, Pop(s.r, key), s'.r, t.flags, err, timedOut);
    hide Posted; hide Queued;
    PostsNoted(s.posts, s'.posts, Posted(s.r, s'.r, timedOut), t.errs, err);
    hide Reported;
  }

  lemma StepNoted(s: Sys, t: Told, e: Event)
    requires Noted(s, t)
    ensures Noted(Step(s, e), Note(s, t, e))
  {
    hide Reported;
    if Enabled(s, e) {
      match e
      case Accept(_, _, _, _) => AcceptNoted(s, t, e); hide Noted;
      case Execute(k) => ExecuteNoted(s, t, k); hide Noted;
      case Complete(_, _, _) =>
      case SetDump(_) =>
    }
  }

  lemma {:induction false} RunNoted(s: Sys, t: Told, es: seq<Event>)
    requires Noted(s, t)
    ensures Noted(Exec(s, es), NoteAll(s, t, es))
    decreases |es|
  {
    if es != [] {
      StepNoted(s, t, es[0]);
      StepSized(s, es[0]);
      hide Noted; hide Step; hide Note;
      RunNoted(Step(s, es[0]), Note(s, t, es[0]), es[1..]);
    }
  }

  // ----- main results -----

  /** A callback is told an error exactly when the completion whose continuation posted it came with
      one. */
  lemma ErrorsTold(es: seq<Event>)
    ensures var s, t := Exec(Start, es), NoteAll(Start, Nothing, es);
            |s.posts| == |t.errs| && forall i :: 0 <= i < |s.posts| ==> s.posts[i].err == t.errs[i]
  {
    RunNoted(Start, Nothing, es);
  }

  predicate NoErrors(es: seq<Event>) {
    forall i :: 0 <= i < |es| && es[i].Complete? ==> !es[i].err
  }

  lemma {:induction false} NoFlags(s: Sys, t: Told, es: seq<Event>)
    requires |s.taken| == |s.fate| && NoErrors(es)
    requires (forall k :: k in t.flags ==> !t.flags[k]) && forall i :: 0 <= i < |t.errs| ==> !t.errs[i]
    ensures forall i :: 0 <= i < |NoteAll(s, t, es).errs| ==> !NoteAll(s, t, es).errs[i]
    decreases |es|
  {
    if es != [] {
      StepSized(s, es[0]);
      hide Step;
      NoFlags(Step(s, es[0]), Note(s, t, es[0]), es[1..]);
    }
  }

  /** With no error from the transport none is reported. */
  lemma NoneOutOfNothing(es: seq<Event>)
    requires NoErrors(es)
    ensures forall i :: 0 <= i < |Exec(Start, es).posts| ==> !Exec(Start, es).posts[i].err
  {
    ErrorsTold(es);
    NoFlags(Start, Nothing, es);
    hide Exec; hide NoteAll;
  }

  /** An error ends the read it comes for: the continuation posts the callback, with the error. */
  lemma ErrorEnds(es: seq<Event>, key: nat)
    requires var s, t := Exec(Start, es), NoteAll(Start, Nothing, es);
             && Reached(s, es) && s.r.id != 0 && Waiting(s.r, key) && s.r.pending[key].Done?
             && key in t.flags && t.flags[key]
    ensures var s := Exec(Start, es);
            var s' := Step(s, Execute(key));
            && s'.r.id == 0 && |s'.posts| == |s.posts| + 1
            && s'.posts[|s.posts|].err && s.accepted != [] && s'.posts[|s.posts|].cb == s.accepted[|s.accepted| - 1].cb
  {
    RunNoted(Start, Nothing, es);
    StartInv();
    RunKeeps(Start, es);
    var s := Exec(Start, es);
    assert s.r.pending[key].err;
    hide Exec; hide NoteAll; hide Noted; hide Inv; hide Step;
    FailedEnds(s, key);
  }

  lemma FailedEnds(s: Sys, key: nat)
    requires Inv(s) && s.r.id != 0 && Waiting(s.r, key) && s.r.pending[key].Done? && s.r.pending[key].err
    ensures |s.taken| == |s.fate|
    ensures var s' := Step(s, Execute(key));
            && s'.r.id == 0 && |s'.posts| == |s.posts| + 1
            && s'.posts[|s.posts|].err && s.accepted != [] && s'.posts[|s.posts|].cb == s.accepted[|s.accepted| - 1].cb
  {
    F.ContinueEffect(s, key);
    assert |s.taken| == |s.fate|;
    hide Step; hide Inv; hide F.Added;
  }
}
