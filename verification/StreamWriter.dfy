/** The StreamWriter class: each method is a step of the writer machine, and every public
    method moves the books by one `WStep`. */
module StreamWriter {
  import opened Bytes
  import M = ReaderModel
  import W = WriterModel
  import R = WriterRuns

  class StreamWriter {
    var writeCounter: nat
    var writeId: nat
    var requestedSize: nat
    var processed: nat
    var src: seq<byte>
    var callback: M.Callback
    var waiterNotified: bool
    var dumpEnabled: bool
    var txDump: seq<byte>

    // The writer's handlers in the executor and operations in the transport, with the bytes
    // each operation points to.
    var pending: map<nat, M.Handler>
    var offer: map<nat, seq<byte>>
    var next: nat

    ghost var books: W.WSys

    ghost function View(): W.Writer
      reads this
    {
      W.Writer(writeCounter, writeId, requestedSize, processed, src, callback, waiterNotified, dumpEnabled, txDump,
               pending, offer, next)
    }

    ghost predicate Valid()
      reads this
    {
      books.w == View() && W.WInv(books)
    }

    constructor ()
      ensures Valid() && books == W.WStart
    {
      writeCounter, writeId, requestedSize, processed, src := 0, 0, 0, 0, [];
      callback, waiterNotified := M.ReadCallback, false;
      dumpEnabled, txDump := false, [];
      pending, offer, next := map[], map[], 0;
      books := W.WStart;
      new;
      R.StartWInv();
    }

    /** The step `e` has been made: the books follow. */
    ghost method Record(e: W.WEvent)
      requires W.WInv(books) && W.Possible(books, e) && (e.Write? ==> |books.messages| + 1 < M.ID_RANGE)
      requires W.Moved(books, e) == View()
      modifies `books
      ensures books == W.WStep(old(books), e) && Valid()
    {
      hide W.Moved;
      R.WStepKeepsBefore(books, e);
      books := W.WStep(books, e);
    }

    method Post(h: M.Handler)
      modifies `pending, `next
      ensures pending == old(pending)[old(next) := h] && next == old(next) + 1
    {
      pending := pending[next := h];
      next := next + 1;
    }

    method NewWrite(data: seq<byte>, cb: M.Callback, timed: bool) returns (ok: bool)
      modifies this
      ensures books == old(books) && ok == (old(writeId) == 0) && (!ok ==> unchanged(this))
      ensures ok ==> View() == W.NewWrite(old(View()), data, cb, timed)
    {
      if writeId != 0 {
        return false;
      }
      writeCounter := (writeCounter + 1) % M.ID_RANGE;
      writeId := writeCounter;
      requestedSize := |data|;
      processed := 0;
      src := data;
      callback := cb;
      assert View() == W.NewWrite(old(View()), data, cb, false);
      if timed {
        Post(M.Timer(writeId));
      }
      return true;
    }

    method FinishWrite(err: bool)
      modifies this
      ensures books == old(books) && View() == W.FinishWrite(old(View()), err)
    {
      if writeId == 0 {
        return;
      }
      writeId := 0;
      Post(M.User(callback, err, processed));
    }

    method TimeoutReached(id: nat)
      modifies this
      ensures books == old(books) && View() == W.TimeoutReached(old(View()), id)
    {
      if id != writeId {
        return;
      }
      waiterNotified := true;
      FinishWrite(false);
    }

    method DoWriteSome(id: nat, kind: M.Kind, count: nat, data: seq<byte>)
      modifies this
      ensures books == old(books) && View() == W.DoWriteSome(old(View()), id, kind, count, data)
    {
      offer := offer[next := data];
      Post(M.Op(id, kind, count, dumpEnabled));
    }

    method AsyncWriteSome(data: seq<byte>, cb: M.Callback, timed: bool) returns (ok: bool)
      requires Valid() && |books.messages| + 1 < M.ID_RANGE
      modifies this
      ensures Valid() && ok == (old(writeId) == 0) && (!ok ==> unchanged(this))
      ensures books == W.WStep(old(books), W.Write(false, data, cb, timed))
    {
      ok := NewWrite(data, cb, timed);
      if ok {
        DoWriteSome(writeId, M.Partial, requestedSize, src);
        Record(W.Write(false, data, cb, timed));
      }
    }

    method AsyncWrite(data: seq<byte>, cb: M.Callback, timed: bool) returns (ok: bool)
      requires Valid() && |books.messages| + 1 < M.ID_RANGE
      modifies this
      ensures Valid() && ok == (old(writeId) == 0) && (!ok ==> unchanged(this))
      ensures books == W.WStep(old(books), W.Write(true, data, cb, timed))
    {
      ok := NewWrite(data, cb, timed);
      if ok {
        DoWriteSome(writeId, M.Exact, requestedSize, src);
        Record(W.Write(true, data, cb, timed));
      }
    }

    method AsyncWriteSomeContinue(id: nat, err: bool, writtenCount: nat)
      modifies this
      ensures books == old(books) && View() == W.Continue(old(View()), id, M.Partial, writtenCount, err)
    {
      if id != writeId {
        return;
      }
      processed := writtenCount;
      FinishWrite(err);
    }

    method AsyncWriteContinue(id: nat, err: bool, writtenCount: nat)
      requires id == writeId ==> requestedSize == |src|
      modifies this
      ensures books == old(books) && View() == W.Continue(old(View()), id, M.Exact, writtenCount, err)
    {
      if id != writeId {
        return;
      }
      processed := processed + writtenCount;
      if !err && processed < requestedSize {
        DoWriteSome(id, M.Exact, requestedSize - processed, src[processed..]);
      } else {
        FinishWrite(err);
      }
    }

    /** Records, byte by byte, what the transport took. */
    method DumpCallback(chunk: seq<byte>, err: bool, dumping: bool)
      modifies `txDump
      ensures View() == W.DumpCallback(old(View()), chunk, err, dumping)
    {
      if dumping && !err && dumpEnabled {
        for i := 0 to |chunk|
          invariant txDump == old(txDump) + chunk[..i]
        {
          txDump := txDump + [chunk[i]];
        }
      }
    }

    /** The transport takes `n` of the bytes an operation offers. */
    method TransportTake(key: nat, n: nat, err: bool)
      requires Valid() && key in pending && pending[key].Op? && n <= pending[key].count
      modifies this
      ensures Valid() && books == W.WStep(old(books), W.Take(key, n, err))
    {
      var op := pending[key];
      pending := pending[key := M.Done(op.id, op.kind, offer[key][..n], err, op.dumping)];
      Record(W.Take(key, n, err));
    }

    method SetDump(on: bool)
      requires Valid()
      modifies this
      ensures Valid() && books == W.WStep(old(books), W.SetDump(on))
    {
      dumpEnabled := on;
      Record(W.SetDump(on));
    }

    method Dispatch(h: M.Handler)
      requires !h.Op? && (h.Done? ==> !h.kind.Until? && (h.id == writeId ==> requestedSize == |src|))
      modifies this
      ensures books == old(books) && View() == W.Act(old(View()), h)
    {
      match h {
        case Done(id, kind, chunk, err, dumping) =>
          DumpCallback(chunk, err, dumping);
          if kind.Partial? {
            AsyncWriteSomeContinue(id, err, |chunk|);
          } else {
            AsyncWriteContinue(id, err, |chunk|);
          }
        case Timer(id) => TimeoutReached(id);
        case User(cb, _, _) =>
          if cb.ReadCallback? {
            waiterNotified := true;
          }
      }
    }

    /** The executor runs a queued handler. */
    method RunHandler(key: nat)
      requires Valid() && key in pending && !pending[key].Op?
      modifies this
      ensures Valid() && books == W.WStep(old(books), W.Execute(key))
    {
      var h := pending[key];
      assert h.Done? ==> !h.kind.Until? && h.id >= 1;
      pending := pending - {key};
      Dispatch(h);
      Record(W.Execute(key));
    }
  }
}
