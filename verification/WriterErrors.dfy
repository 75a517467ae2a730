/** The errors that write callbacks are told: what is proved of the reader machine, in terms of the
    writer's own events. */
module WriterErrors {
  import M = ReaderModel
  import opened ReaderSystem
  import opened ReaderInvariant
  import E = Errors
  import opened WriterModel
  import opened WriterRuns

  /** As for reads: a callback is told the flag of the take whose continuation posted it. */
  ghost function Note(s: WSys, t: E.Told, e: WEvent): E.Told
    requires |s.books.taken| == |s.books.fate|
  {
    if !Possible(s, e) then t
    else if e.Take? then t.(flags := t.flags[e.key := e.err])
    else if |WStep(s, e).books.posts| == |s.books.posts| then t
    else t.(errs := t.errs + [e.Execute? && s.w.pending[e.key].Done? && e.key in t.flags && t.flags[e.key]])
  }

  ghost function NoteAll(s: WSys, t: E.Told, es: seq<WEvent>): E.Told
    requires |s.books.taken| == |s.books.fate|
    decreases |es|
  {
    if es == [] then t else NoteAll(WStep(s, es[0]), Note(s, t, es[0]), es[1..])
  }

  lemma NoteMirrors(s: WSys, t: E.Told, e: WEvent)
    requires WInv(s) && Possible(s, e)
    ensures Note(s, t, e) == E.Note(s.books, t, Mirror(s, e))
  {
    StepMirrors(s, e);
    hide Inv; hide Step; hide Moved; hide Matches; hide Offers;
  }

  lemma {:induction false} RunMirrors(s: WSys, t: E.Told, es: seq<WEvent>)
    requires WInv(s) && |WExec(s, es).messages| < M.ID_RANGE
    ensures NoteAll(s, t, es) == E.NoteAll(s.books, t, Mirrored(s, es))
    decreases |es|
  {
    assert |s.books.taken| == |s.books.fate|;
    if es != [] {
      MessagesGrow(WStep(s, es[0]), es[1..]);
      WStepKeeps(s, es[0]);
      var s1, rest := WStep(s, es[0]), Mirrored(WStep(s, es[0]), es[1..]);
      if Possible(s, es[0]) {
        NoteMirrors(s, t, es[0]);
        assert ([Mirror(s, es[0])] + rest)[1..] == rest;
        assert s1.books == Step(s.books, Mirror(s, es[0]));
      } else {
        assert [] + rest == rest;
      }
      hide WInv; hide Moved; hide Step; hide E.Note; hide Mirror; hide Possible;
      RunMirrors(s1, Note(s, t, es[0]), es[1..]);
    }
  }

  /** A write callback is told an error exactly when the take whose continuation posted it came with
      one. */
  lemma WriteErrorsTold(s: WSys, es: seq<WEvent>)
    requires WReached(s, es)
    ensures var t := NoteAll(WStart, E.Nothing, es);
            |s.books.posts| == |t.errs| && forall i :: 0 <= i < |s.books.posts| ==> s.books.posts[i].err == t.errs[i]
  {
    StartWInv();
    WriterRefinesReader(WStart, es);
    RunMirrors(WStart, E.Nothing, es);
    E.ErrorsTold(Mirrored(WStart, es));
  }

  /** An error ends the write it comes for. */
  lemma WriteErrorEnds(s: WSys, es: seq<WEvent>, key: nat)
    requires WReached(s, es) && s.w.id != 0
    requires key in s.w.pending && s.w.pending[key].Done? && s.w.pending[key].id == s.w.id
    requires var t := NoteAll(WStart, E.Nothing, es); key in t.flags && t.flags[key]
    ensures |s.books.taken| == |s.books.fate|
    ensures var s' := WStep(s, WEvent.Execute(key));
            && s'.w.id == 0 && |s'.books.posts| == |s.books.posts| + 1 && s'.books.posts[|s.books.posts|].err
  {
    StartWInv();
    WRunKeeps(WStart, es);
    WriterRefinesReader(WStart, es);
    RunMirrors(WStart, E.Nothing, es);
    StepMirrors(s, WEvent.Execute(key));
    assert Waiting(s.books.r, key);
    hide NoteAll; hide Mirrored; hide WExec; hide Moved; hide Offers; hide Matches; hide Inv;
    E.ErrorEnds(Mirrored(WStart, es), key);
    hide Step;
  }
}
