/** The StreamReader class: its fields, its methods and its loops, each proved to be a step of
    the request machine. `books` records the history; every public method moves it by one
    `Step`, so all that is proved of runs holds of every sequence of calls. */
module StreamReader {
  import opened Bytes
  import M = ReaderModel
  import S = ReaderSystem
  import I = ReaderInvariant

  class StreamReader {
    var readCounter: nat
    var readId: nat
    var requestedSize: nat
    var processed: nat
    var dst: array<byte>
    var callback: M.Callback
    var waiterNotified: bool
    var readBuffer: seq<byte>
    var dumpEnabled: bool
    var rxDump: seq<byte>

    // The reader's handlers in the executor and operations in the transport.
    var pending: map<nat, M.Handler>
    var next: nat

    ghost var books: S.Sys

    ghost function View(): M.Reader
      reads this, dst
      requires processed <= dst.Length
    {
      M.Reader(readCounter, readId, requestedSize, dst[..processed], callback, readBuffer,
               waiterNotified, dumpEnabled, rxDump, pending, next)
    }

    predicate Live(k: nat)
      reads this
    {
      k in pending && (pending[k].Op? || pending[k].Done?) && pending[k].id == readId
    }

    /** The live operation fits behind what is processed, and its bytes, once it is completed,
        are there. */
    ghost predicate Placed(k: nat)
      reads this, dst
      requires k in pending
    {
      var h := pending[k];
      && (h.Op? ==> processed + h.count <= dst.Length)
      && (h.Done? ==>
           && processed + |h.chunk| <= dst.Length
           && dst[processed..processed + |h.chunk|] == h.chunk)
    }

    ghost predicate Memory()
      reads this, dst
    {
      && processed <= dst.Length
      && (readId != 0 ==> requestedSize <= dst.Length)
      && forall k: nat :: Live(k) ==> Placed(k)
    }

    ghost predicate Valid()
      reads this, dst
    {
      Memory() && books.r == View() && S.Inv(books)
    }

    constructor ()
      ensures Valid() && books == S.Start
    {
      readCounter, readId, requestedSize, processed := 0, 0, 0, 0;
      dst := new byte[0];
      callback, waiterNotified := M.ReadCallback, false;
      readBuffer, dumpEnabled, rxDump := [], false, [];
      pending, next := map[], 0;
      books := S.Start;
      new;
      assert S.Texts([]) == [];
    }

    // ----- requests -----

    method Post(h: M.Handler)
      modifies `pending, `next
      ensures pending == old(pending)[old(next) := h] && next == old(next) + 1
    {
      pending := pending[next := h];
      next := next + 1;
    }

    method NewRead(size: nat, data: array<byte>, cb: M.Callback, timed: bool) returns (ok: bool)
      requires processed <= dst.Length
      modifies this
      ensures books == old(books)
      ensures ok == (old(readId) == 0)
      ensures !ok ==> unchanged(this)
      ensures ok ==> dst == data && processed == 0 && View() == M.NewRead(old(View()), size, cb, timed)
    {
      if readId != 0 {
        return false;
      }
      readCounter := (readCounter + 1) % M.ID_RANGE;
      readId := readCounter;
      requestedSize := size;
      processed := 0;
      dst := data;
      callback := cb;
      assert dst[..processed] == [];
      assert View() == M.NewRead(old(View()), size, cb, false);
      if timed {
        Post(M.Timer(readId));
        assert dst[..processed] == [];
      }
      return true;
    }

    method FinishRead(err: bool)
      requires processed <= dst.Length
      modifies this
      ensures dst == old(dst) && processed == old(processed) && books == old(books)
      ensures requestedSize == old(requestedSize)
      ensures readId == 0 && View() == M.FinishRead(old(View()), err)
    {
      if readId == 0 {
        return;
      }
      readId := 0;
      Post(M.User(callback, err, processed));
    }

    predicate ReadIdOk(id: nat)
      reads this
    {
      id == readId
    }

    method TimeoutReached(id: nat)
      requires processed <= dst.Length
      modifies this
      ensures dst == old(dst) && processed == old(processed) && books == old(books)
      ensures requestedSize == old(requestedSize)
      ensures View() == M.TimeoutReached(old(View()), id)
    {
      if !ReadIdOk(id) {
        return;
      }
      waiterNotified := true;
      FinishRead(false);
    }

    /** The destination is as it was from `n` on. */
    twostate predicate Untouched(n: nat)
      reads this, dst
    {
      dst == old(dst) && forall i :: n <= i < dst.Length ==> dst[i] == old(dst[i])
    }

    // ----- the residue -----

    /** `istream::get` on the residue. */
    method Get() returns (c: byte, eof: bool)
      modifies `readBuffer
      ensures eof == (old(readBuffer) == [])
      ensures eof ==> readBuffer == []
      ensures !eof ==> old(readBuffer) == [c] + readBuffer
    {
      if readBuffer == [] {
        return 0, true;
      }
      c, eof := readBuffer[0], false;
      readBuffer := readBuffer[1..];
    }

    /** The copy loop of `do_read_some`: a byte is fetched before the test on `count`. */
    method Drain(count: nat) returns (readCount: nat)
      requires readBuffer != [] && processed + count <= dst.Length
      modifies `readBuffer, dst
      ensures readCount == Min(count, |old(readBuffer)|)
      ensures readBuffer == M.AfterDrain(old(readBuffer), count)
      ensures dst[processed..processed + readCount] == old(readBuffer)[..readCount]
      ensures dst[..processed] == old(dst[..processed])
      ensures Untouched(processed + readCount)
    {
      ghost var buf := readBuffer;
      var c, eof := Get();
      Uncons(buf, 0, c, readBuffer);
      readCount := 0;
      while !eof && readCount < count
        modifies `readBuffer, dst
        invariant readCount <= Min(count, |buf|)
        invariant eof ==> readCount == |buf| && readBuffer == []
        invariant !eof ==> readCount < |buf| && c == buf[readCount] && readBuffer == buf[readCount + 1..]
        invariant dst[processed..processed + readCount] == buf[..readCount]
        invariant dst[..processed] == old(dst[..processed])
        invariant forall k :: processed + readCount <= k < dst.Length ==> dst[k] == old(dst[k])
        decreases !eof, count - readCount
      {
        dst[processed + readCount] := c;
        assert dst[processed..processed + readCount + 1] == buf[..readCount + 1];
        readCount := readCount + 1;
        c, eof := Get();
        if !eof {
          Uncons(buf, readCount, c, readBuffer);
        }
      }
    }

    lemma Uncons(s: seq<byte>, n: nat, c: byte, rest: seq<byte>)
      requires n <= |s| && s[n..] == [c] + rest
      ensures n < |s| && c == s[n] && rest == s[n + 1..]
    {
      assert s[n..][0] == s[n] && s[n..][1..] == s[n + 1..];
    }

    method DoReadSome(id: nat, kind: M.Kind, count: nat)
      requires processed + count <= dst.Length
      modifies this, dst
      ensures dst == old(dst) && processed == old(processed) && books == old(books)
      ensures requestedSize == old(requestedSize)
      ensures View() == M.DoReadSome(old(View()), id, kind, count)
      ensures readId == old(readId) && next == old(next) + 1
      ensures Untouched(processed + count)
      ensures id == readId ==> Live(old(next)) && Placed(old(next))
    {
      if |readBuffer| > 0 {
        var readCount := Drain(count);
        Post(M.Done(id, kind, dst[processed..processed + readCount], false, false));
      } else {
        Post(M.Op(id, kind, count, dumpEnabled));
      }
    }

    // ----- the books -----

    /** A read in progress has one operation, and it is live. */
    lemma TheLive(s: S.Sys) returns (live: nat)
      requires processed <= dst.Length && S.Inv(s) && s.r == View()
      ensures readId != 0 ==> Live(live) && (pending[live].kind.Partial? ==> processed == 0)
      ensures forall k: nat :: Live(k) ==> k == live && readId != 0
    {
      hide S.Accounts;
      hide S.Balanced;
      assert forall k: nat :: Live(k) <==> S.Waiting(s.r, k);
      if readId != 0 {
        live :| S.LiveAt(s, live);
      } else {
        live := 0;
      }
    }

    /** The step `e` has been made: the books follow. */
    ghost method Record(e: S.Event)
      requires processed <= dst.Length && S.Inv(books) && (e.Accept? ==> |books.accepted| + 1 < M.ID_RANGE)
      requires S.Step(books, e).r == View()
      requires readId != 0 ==> requestedSize <= dst.Length && exists k: nat :: Live(k) && Placed(k)
      modifies `books
      ensures books == S.Step(old(books), e) && Valid()
    {
      hide S.Step;
      hide S.Accounts;
      hide S.Handlers;
      hide S.LiveAt;
      hide S.Balanced;
      I.StepKeepsBefore(books, e);
      var live := TheLive(S.Step(books, e));
      if readId != 0 {
        var k: nat :| Live(k) && Placed(k);
        assert k == live;
      }
      books := S.Step(books, e);
      forall k: nat | Live(k) ensures Placed(k) {
        assert old(Live(k));
      }
    }

    // ----- the three primitives -----

    /** What the destination must have room for. A read-until that its residue does not satisfy is
        given the residue, and `size` bytes more are asked for behind it; a satisfied one stores at
        least one byte, whatever its size. */
    function Room(kind: M.Kind, size: nat): nat
      reads this
    {
      if !kind.Until? then size
      else
        var n := M.FirstStop(readBuffer, kind.delim, size, 0);
        if n == 0 then size + |readBuffer| else if n > size then n else size
    }

    method AsyncReadSome(count: nat, data: array<byte>, cb: M.Callback, timed: bool) returns (ok: bool)
      requires Valid() && |books.accepted| + 1 < M.ID_RANGE && data.Length >= Room(M.Partial, count)
      modifies this, data
      ensures Valid() && ok == (old(readId) == 0) && (!ok ==> unchanged(this) && unchanged(data))
      ensures forall i :: count <= i < data.Length ==> data[i] == old(data[i])
      ensures books == S.Step(old(books), S.Accept(M.Partial, count, cb, timed))
    {
      ok := NewRead(count, data, cb, timed);
      if ok {
        DoReadSome(readId, M.Partial, requestedSize);
        assert Live(next - 1);
        assert View() == M.AsyncRead(old(View()), M.Partial, count, cb, timed).0;
        Record(S.Accept(M.Partial, count, cb, timed));
      }
    }

    method AsyncRead(count: nat, data: array<byte>, cb: M.Callback, timed: bool) returns (ok: bool)
      requires Valid() && |books.accepted| + 1 < M.ID_RANGE && data.Length >= Room(M.Exact, count)
      modifies this, data
      ensures Valid() && ok == (old(readId) == 0) && (!ok ==> unchanged(this) && unchanged(data))
      ensures forall i :: count <= i < data.Length ==> data[i] == old(data[i])
      ensures books == S.Step(old(books), S.Accept(M.Exact, count, cb, timed))
    {
      ok := NewRead(count, data, cb, timed);
      if ok {
        DoReadSome(readId, M.Exact, requestedSize);
        assert Live(next - 1);
        assert View() == M.AsyncRead(old(View()), M.Exact, count, cb, timed).0;
        Record(S.Accept(M.Exact, count, cb, timed));
      }
    }


    /** The loop of `async_read_until` over the residue: stores bytes until one satisfies the
        request, or none is left. */
    method StoreResidue(d: byte) returns (done: bool)
      requires processed == 0 && readBuffer != []
      requires var n := M.FirstStop(readBuffer, d, requestedSize, 0); (if n > 0 then n else |readBuffer|) <= dst.Length
      modifies `readBuffer, `processed, dst
      ensures var buf := old(readBuffer);
              var n := M.FirstStop(buf, d, requestedSize, 0);
              && done == (n > 0)
              && processed == (if n > 0 then n else |buf|)
              && readBuffer == buf[processed..]
      ensures processed <= |old(readBuffer)| && dst[..processed] == old(readBuffer)[..processed]
      ensures Untouched(processed)
    {
      hide M.FirstStop;
      ghost var buf := readBuffer;
      var c, eof := Get();
      Uncons(buf, 0, c, readBuffer);
      while !eof
        modifies `readBuffer, `processed, dst
        invariant processed <= |buf| && processed <= dst.Length
        invariant eof ==> processed == |buf| && readBuffer == []
        invariant !eof ==> processed < |buf| && c == buf[processed] && readBuffer == buf[processed + 1..]
        invariant dst[..processed] == buf[..processed]
        invariant M.FirstStop(buf, d, requestedSize, processed) == M.FirstStop(buf, d, requestedSize, 0)
        invariant forall i :: processed <= i < dst.Length ==> dst[i] == old(dst[i])
        decreases !eof, |readBuffer|
      {
        StopAhead(buf, d, requestedSize, processed);
        dst[processed] := c;
        assert dst[..processed + 1] == buf[..processed + 1];
        processed := processed + 1;
        if c == d || processed >= requestedSize {
          return true;
        }
        c, eof := Get();
        if !eof {
          Uncons(buf, processed, c, readBuffer);
        }
      }
      StopNowhere(buf, d, requestedSize);
      return false;
    }

    lemma StopNowhere(s: seq<byte>, d: byte, size: nat)
      ensures M.FirstStop(s, d, size, |s|) == 0
    {
    }

    lemma StopAhead(s: seq<byte>, d: byte, size: nat, from: nat)
      requires from < |s|
      ensures var n := M.FirstStop(s, d, size, from);
              (n == 0 || from < n)
              && n == (if s[from] == d || from + 1 >= size then from + 1 else M.FirstStop(s, d, size, from + 1))
    {
      M.FirstStopSpec(s, d, size, from);
    }

    method AsyncReadUntil(maxSize: nat, data: array<byte>, d: byte, cb: M.Callback, timed: bool) returns (ok: bool)
      requires Valid() && |books.accepted| + 1 < M.ID_RANGE && data.Length >= Room(M.Until(d), maxSize)
      modifies this, data
      ensures Valid() && ok == (old(readId) == 0) && (!ok ==> unchanged(this) && unchanged(data))
      ensures forall i :: old(Room(M.Until(d), maxSize)) <= i < data.Length ==> data[i] == old(data[i])
      ensures books == S.Step(old(books), S.Accept(M.Until(d), maxSize, cb, timed))
    {
      hide M.FirstStop;
      hide M.StartUntil;
      ok := NewRead(maxSize, data, cb, timed);
      if ok {
        StartUntil(d);
        assert View() == M.AsyncRead(old(View()), M.Until(d), maxSize, cb, timed).0;
        hide M.AsyncRead;
        hide M.NewRead;
        Record(S.Accept(M.Until(d), maxSize, cb, timed));
      }
    }

    /** `async_read_until` once the request is installed. */
    method StartUntil(d: byte)
      requires readId != 0 && processed == 0 && Room(M.Until(d), requestedSize) <= dst.Length
      modifies this, dst
      ensures Untouched(old(Room(M.Until(d), requestedSize)))
      ensures dst == old(dst) && processed <= dst.Length && books == old(books) && requestedSize == old(requestedSize)
      ensures View() == M.StartUntil(old(View()), d)
      ensures readId != 0 ==> exists k: nat :: Live(k) && Placed(k)
    {
      ghost var before := View();
      var done := false;
      if |readBuffer| > 0 {
        done := StoreResidue(d);
      }
      if done {
        FinishRead(false);
      } else {
        assert View() == before.(held := before.residue, residue := []);
        DoReadSome(readId, M.Until(d), requestedSize);
        assert Live(next - 1);
      }
    }

    // ----- continuations -----

    method AsyncReadSomeContinue(id: nat, err: bool, readCount: nat)
      requires processed <= dst.Length
      requires id == readId ==> readId != 0 && processed == 0 && readCount <= dst.Length
      modifies this, dst
      ensures dst == old(dst) && processed <= dst.Length && books == old(books) && requestedSize == old(requestedSize)
      ensures id != old(readId) ==> unchanged(this) && unchanged(dst)
      ensures Untouched(requestedSize)
      ensures id == old(readId) ==>
                readId == 0 && View() == M.Continue(old(View()), id, M.Partial, old(dst[..readCount]), err)
    {
      if !ReadIdOk(id) {
        return;
      }
      processed := readCount;
      FinishRead(err);
    }

    method AsyncReadContinue(id: nat, err: bool, readCount: nat)
      requires processed <= dst.Length
      requires id == readId ==> readId != 0 && processed + readCount <= dst.Length && requestedSize <= dst.Length
      modifies this, dst
      ensures dst == old(dst) && processed <= dst.Length && books == old(books) && requestedSize == old(requestedSize)
      ensures id != old(readId) ==> unchanged(this) && unchanged(dst)
      ensures Untouched(requestedSize)
      ensures id == old(readId) ==>
                && View() == M.Continue(old(View()), id, M.Exact, old(dst[processed..processed + readCount]), err)
                && (readId != 0 ==> exists k: nat :: Live(k) && Placed(k))
    {
      if !ReadIdOk(id) {
        return;
      }
      assert dst[..processed + readCount] == dst[..processed] + dst[processed..processed + readCount];
      processed := processed + readCount;
      if !err && processed < requestedSize {
        DoReadSome(id, M.Exact, requestedSize - processed);
        assert Live(next - 1);
      } else {
        FinishRead(err);
      }
    }

    /** Bytes after the delimiter go to the residue, one by one. */
    method SaveRest(from: nat, to: nat)
      requires from <= to && processed + to <= dst.Length
      modifies `readBuffer
      ensures readBuffer == old(readBuffer) + old(dst[processed + from..processed + to])
    {
      for j := from to to
        invariant readBuffer == old(readBuffer) + dst[processed + from..processed + j]
      {
        readBuffer := readBuffer + [dst[processed + j]];
      }
    }

    method AsyncReadUntilContinue(id: nat, d: byte, err: bool, readCount: nat)
      requires processed <= dst.Length
      requires id == readId ==> readId != 0 && processed + readCount <= dst.Length && requestedSize <= dst.Length
      modifies this, dst
      ensures dst == old(dst) && processed <= dst.Length && books == old(books) && requestedSize == old(requestedSize)
      ensures id != old(readId) ==> unchanged(this) && unchanged(dst)
      ensures Untouched(requestedSize)
      ensures id == old(readId) ==>
                && View() == M.Continue(old(View()), id, M.Until(d), old(dst[processed..processed + readCount]), err)
                && (readId != 0 ==> exists k: nat :: Live(k) && Placed(k))
    {
      if !ReadIdOk(id) {
        return;
      }
      hide M.Seen;
      hide M.Absorb;
      hide M.DoReadSome;
      hide M.FinishRead;
      ghost var was, chunk := View(), dst[processed..processed + readCount];
      var i := Search(d, readCount);
      Take(d, i, readCount);
      assert M.Ends(was, M.Until(d), chunk, err) == (i < readCount || err || processed >= requestedSize);
      hide M.Ends;
      if i < readCount || err || processed >= requestedSize {
        FinishRead(err);
      } else {
        DoReadSome(id, M.Until(d), requestedSize - processed);
      }
      assert View() == M.Continue(was, id, M.Until(d), chunk, err);
      hide M.Continue;
    }

    /** The delimiter is at `i`, or nowhere: keep the bytes up to it, save those behind it. */
    method Take(d: byte, i: nat, readCount: nat)
      requires processed + readCount <= dst.Length && i == M.Seen(dst[processed..processed + readCount], d)
      modifies `processed, `readBuffer
      ensures processed == old(processed) + (if i < readCount then i + 1 else i)
      ensures View() == M.Absorb(old(View()), M.Until(d), old(dst[processed..processed + readCount]))
    {
      hide M.Seen;
      hide M.Absorb;
      ghost var was, chunk := View(), dst[processed..processed + readCount];
      if i < readCount {
        TakeTo(i, readCount);
      } else {
        Behind(dst[..], processed, chunk, i);
        Advance(i);
      }
      Absorbs(was, d, chunk, View().held, readBuffer);
    }

    method TakeTo(i: nat, readCount: nat)
      requires processed + readCount <= dst.Length && i < readCount
      modifies `processed, `readBuffer
      ensures processed == old(processed) + i + 1
      ensures var chunk := old(dst[processed..processed + readCount]);
              View() == old(View()).(held := old(dst[..processed]) + chunk[..i + 1],
                                     residue := old(readBuffer) + chunk[i + 1..])
    {
      ghost var all, p, chunk := dst[..], processed, dst[processed..processed + readCount];
      assert dst[p + i + 1..p + readCount] == chunk[i + 1..] && dst[..p + i + 1] == dst[..p] + chunk[..i + 1] by {
        Behind(all, p, chunk, i + 1);
      }
      SaveRest(i + 1, readCount);
      Advance(i + 1);
    }

    method Advance(count: nat)
      requires processed + count <= dst.Length
      modifies `processed
      ensures processed == old(processed) + count && View() == old(View()).(held := old(dst[..processed + count]))
    {
      processed := processed + count;
      assert dst[..processed] == old(dst[..processed + count]);
    }

    lemma Absorbs(r: M.Reader, d: byte, chunk: seq<byte>, held: seq<byte>, residue: seq<byte>)
      requires var i := M.Seen(chunk, d);
               && held == r.held + chunk[..if i < |chunk| then i + 1 else i]
               && residue == if i < |chunk| then r.residue + chunk[i + 1..] else r.residue
      ensures M.Absorb(r, M.Until(d), chunk) == r.(held := held, residue := residue)
    {
      var i := M.Seen(chunk, d);
      assert i == |chunk| ==> chunk[..i] == chunk;
      hide M.Seen;
    }

    lemma Behind(a: seq<byte>, p: nat, chunk: seq<byte>, i: nat)
      requires p + |chunk| <= |a| && i <= |chunk| && a[p..p + |chunk|] == chunk
      ensures a[..p + i] == a[..p] + chunk[..i]
      ensures a[p + i..p + |chunk|] == chunk[i..]
    {
    }

    /** The loop looking for the delimiter among the bytes just read. */
    method Search(d: byte, readCount: nat) returns (i: nat)
      requires processed + readCount <= dst.Length
      ensures i == M.Seen(dst[processed..processed + readCount], d)
    {
      ghost var chunk := dst[processed..processed + readCount];
      i := 0;
      while i < readCount && !M.SeesDelimiter(dst[processed + i], d)
        invariant i <= M.Seen(chunk, d)
      {
        assert dst[processed + i] == chunk[i];
        i := i + 1;
      }
      assert i < readCount ==> dst[processed + i] == chunk[i];
    }

    // ----- the transport and the executor -----

    method DumpCallback(chunk: seq<byte>, err: bool, dumping: bool)
      modifies `rxDump
      ensures rxDump == if dumping && !err && dumpEnabled then old(rxDump) + chunk else old(rxDump)
    {
      if dumping && !err && dumpEnabled {
        for i := 0 to |chunk|
          invariant rxDump == old(rxDump) + chunk[..i]
        {
          rxDump := rxDump + [chunk[i]];
        }
      }
    }

    method Receive(chunk: seq<byte>)
      requires processed + |chunk| <= dst.Length
      modifies dst
      ensures dst[..processed] == old(dst[..processed]) && Untouched(processed + |chunk|)
      ensures dst[processed..processed + |chunk|] == chunk
    {
      for i := 0 to |chunk|
        invariant dst[..processed] == old(dst[..processed])
        invariant forall k :: processed + i <= k < dst.Length ==> dst[k] == old(dst[k])
        invariant dst[processed..processed + i] == chunk[..i]
      {
        dst[processed + i] := chunk[i];
        assert dst[processed..processed + i + 1] == chunk[..i + 1];
      }
      assert chunk[..|chunk|] == chunk;
    }

    /** The transport completes an operation. The bytes of the live read are written behind
        what it has, and no others are touched; those of a read already given up go where nobody
        looks any more. */
    method TransportComplete(key: nat, chunk: seq<byte>, err: bool)
      requires Valid() && key in pending && pending[key].Op? && |chunk| <= pending[key].count
      modifies this, dst
      ensures Valid() && dst == old(dst) && processed == old(processed) && dst[..processed] == old(dst[..processed])
      ensures Untouched(if old(pending)[key].id == readId then processed + |chunk| else 0)
      ensures books == S.Step(old(books), S.Complete(key, chunk, err))
    {
      hide S.Handlers;
      hide S.Accounts;
      hide S.LiveAt;
      hide S.Balanced;
      var op := pending[key];
      ghost var live := TheLive(books);
      if op.id == readId {
        assert Live(key) && Placed(key);
        Receive(chunk);
      }
      pending := pending[key := M.Done(op.id, op.kind, chunk, err, op.dumping)];
      assert readId != 0 ==> Live(live) && Placed(live);
      Record(S.Complete(key, chunk, err));
    }

    method SetDump(on: bool)
      requires Valid()
      modifies this
      ensures Valid() && books == S.Step(old(books), S.SetDump(on))
    {
      hide S.Handlers;
      hide S.Accounts;
      hide S.LiveAt;
      hide S.Balanced;
      ghost var live := TheLive(books);
      dumpEnabled := on;
      assert readId != 0 ==> Live(live) && Placed(live);
      Record(S.SetDump(on));
    }

    /** A completion: the chunk is dumped, then the continuation bound to it is called. */
    method RunDone(h: M.Handler)
      requires processed <= dst.Length && h.Done? && (readId != 0 ==> requestedSize <= dst.Length)
      requires h.id == readId ==>
                 && readId != 0 && processed + |h.chunk| <= dst.Length
                 && dst[processed..processed + |h.chunk|] == h.chunk
                 && (h.kind.Partial? ==> processed == 0)
      modifies this, dst
      ensures Untouched(requestedSize)
      ensures dst == old(dst) && processed <= dst.Length && books == old(books) && requestedSize == old(requestedSize)
      ensures View() == M.Continue(M.DumpCallback(old(View()), h.chunk, h.err, h.dumping), h.id, h.kind, h.chunk, h.err)
      ensures h.id == old(readId) && readId != 0 ==> exists k: nat :: Live(k) && Placed(k)
      ensures h.id != old(readId) ==>
                && readId == old(readId) && pending == old(pending) && processed == old(processed)
                && dst[..] == old(dst[..])
    {
      hide M.DoReadSome;
      hide M.Absorb;
      hide M.Ends;
      hide M.Seen;
      hide M.FinishRead;
      DumpCallback(h.chunk, h.err, h.dumping);
      assert dst[..] == old(dst[..]);
      assert View() == M.DumpCallback(old(View()), h.chunk, h.err, h.dumping);
      hide M.DumpCallback;
      match h.kind {
        case Partial => AsyncReadSomeContinue(h.id, h.err, |h.chunk|);
        case Exact => AsyncReadContinue(h.id, h.err, |h.chunk|);
        case Until(d) => AsyncReadUntilContinue(h.id, d, h.err, |h.chunk|);
      }
    }

    /** The body of a handler that has left the queue. */
    method Dispatch(h: M.Handler)
      requires processed <= dst.Length && !h.Op? && (readId != 0 ==> requestedSize <= dst.Length)
      requires h.Done? && h.id == readId ==>
                 && readId != 0 && processed + |h.chunk| <= dst.Length
                 && dst[processed..processed + |h.chunk|] == h.chunk
                 && (h.kind.Partial? ==> processed == 0)
      modifies this, dst
      ensures Untouched(requestedSize)
      ensures dst == old(dst) && processed <= dst.Length && books == old(books) && requestedSize == old(requestedSize)
      ensures View() == M.Act(old(View()), h)
      ensures h.Done? && h.id == old(readId) && readId != 0 ==> exists k: nat :: Live(k) && Placed(k)
      ensures !h.Done? || h.id != old(readId) ==>
                && (readId == old(readId) ==> pending == old(pending)) && processed == old(processed)
                && (readId == old(readId) || readId == 0) && dst[..] == old(dst[..])
    {
      hide M.Continue;
      match h {
        case Done(_, _, _, _, _) => RunDone(h);
        case Timer(id) => TimeoutReached(id);
        case User(cb, _, _) =>
          if cb.ReadCallback? {
            waiterNotified := true;
          }
      }
    }

    /** The executor runs a queued handler. */
    method RunHandler(key: nat)
      requires Valid() && key in pending && !pending[key].Op?
      modifies this, dst
      ensures Valid() && dst == old(dst) && Untouched(requestedSize)
      ensures books == S.Step(old(books), S.Execute(key))
    {
      hide S.Handlers;
      hide S.Accounts;
      hide S.LiveAt;
      hide S.Balanced;
      var h := pending[key];
      ghost var was := View();
      ghost var live := TheLive(books);
      assert h.Done? && h.id == readId ==> Live(key) && Placed(key);
      pending := pending - {key};
      Dispatch(h);
      assert View() == M.Run(was, key);
      hide M.Run;
      assert readId != 0 && key != live ==> Live(live) && Placed(live);
      Record(S.Execute(key));
    }
  }
}
