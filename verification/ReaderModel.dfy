/** The request machine of StreamReader as functions on values.
    `Reader` holds what the C++ object holds, together with the handlers it has
    outstanding: operations waiting in the transport, and completions, timers and
    user callbacks queued in the executor. */
module ReaderModel {
  import opened Bytes

  /** `readCounter_` is an `unsigned int`. */
  const ID_RANGE: nat := 0x1_0000_0000

  /** The three read primitives. */
  datatype Kind = Partial | Exact | Until(delim: byte)

  /** A user function, or the `read_callback` of a blocking read. */
  datatype Callback = UserFunction(token: nat) | ReadCallback

  datatype Handler =
    | Op(id: nat, kind: Kind, count: nat, dumping: bool)                     // asked of the transport
    | Done(id: nat, kind: Kind, chunk: seq<byte>, err: bool, dumping: bool)  // completed, continuation queued
    | Timer(id: nat)
    | User(cb: Callback, err: bool, count: nat)                              // posted user callback

  datatype Reader = Reader(
    counter: nat,          // readCounter_
    id: nat,               // readId_, 0 when idle
    requested: nat,        // requestedSize_
    held: seq<byte>,       // dst_[..processed_]
    cb: Callback,          // callback_
    residue: seq<byte>,    // readBuffer_
    notified: bool,        // waiterNotified_
    dumpOn: bool,          // rxDump_.is_open()
    dump: seq<byte>,       // rxDump_
    pending: map<nat, Handler>,
    next: nat)             // first unused handler key

  const Fresh: Reader := Reader(0, 0, 0, [], ReadCallback, [], false, false, [], map[], 0)

  function Post(r: Reader, h: Handler): Reader {
    r.(pending := r.pending[r.next := h], next := r.next + 1)
  }

  function NewRead(r: Reader, size: nat, cb: Callback, timed: bool): Reader {
    var id := (r.counter + 1) % ID_RANGE;
    var r1 := r.(counter := id, id := id, requested := size, held := [], cb := cb);
    if timed then Post(r1, Timer(id)) else r1
  }

  function FinishRead(r: Reader, err: bool): Reader {
    if r.id == 0 then r
    else Post(r.(id := 0), User(r.cb, err, |r.held|))
  }

  /** The copy loop of `do_read_some` fetches one byte ahead: when the residue is longer
      than what is asked, the byte after the copied ones is gone too. */
  function AfterDrain(residue: seq<byte>, count: nat): seq<byte> {
    if |residue| > count then residue[count + 1..] else []
  }

  function DoReadSome(r: Reader, id: nat, kind: Kind, count: nat): Reader {
    if |r.residue| > 0 then
      Post(r.(residue := AfterDrain(r.residue, count)),
           Done(id, kind, r.residue[..Min(count, |r.residue|)], false, false))
    else
      Post(r, Op(id, kind, count, r.dumpOn))
  }

  /** How many residue bytes `async_read_until` stores before it is satisfied by them;
      0 when they do not satisfy it. */
  function FirstStop(s: seq<byte>, d: byte, size: nat, from: nat): (n: nat)
    requires from <= |s|
    ensures n <= |s|
    decreases |s| - from
  {
    if from == |s| then 0
    else if s[from] == d || from + 1 >= size then from + 1
    else FirstStop(s, d, size, from + 1)
  }

  function StartUntil(r: Reader, d: byte): Reader {
    var n := FirstStop(r.residue, d, r.requested, 0);
    if n > 0 then
      FinishRead(r.(held := r.residue[..n], residue := r.residue[n..]), false)
    else
      DoReadSome(r.(held := r.residue, residue := []), r.id, Until(d), r.requested)
  }

  /** `async_read_some`, `async_read` and `async_read_until`: refused when busy. */
  function AsyncRead(r: Reader, kind: Kind, size: nat, cb: Callback, timed: bool): (Reader, bool) {
    if r.id != 0 then (r, false)
    else
      var r1 := NewRead(r, size, cb, timed);
      (if kind.Until? then StartUntil(r1, kind.delim) else DoReadSome(r1, r1.id, kind, size), true)
  }

  /** Line 340 compares a `uint8_t` with a `char`, which is signed: bytes from 128 up never match. */
  predicate SeesDelimiter(b: byte, d: byte) {
    b == d && d < 128
  }

  /** The first position at which the continuation sees the delimiter, or `|s|`. */
  function Seen(s: seq<byte>, d: byte): (n: nat)
    ensures n <= |s| && (n < |s| ==> SeesDelimiter(s[n], d))
    ensures forall i :: 0 <= i < n ==> !SeesDelimiter(s[i], d)
  {
    if s == [] || SeesDelimiter(s[0], d) then 0 else 1 + Seen(s[1..], d)
  }

  /** The reader once the continuation has added `chunk` to what it holds. */
  function Absorb(r: Reader, kind: Kind, chunk: seq<byte>): Reader {
    match kind
    case Partial => r.(held := chunk)
    case Exact => r.(held := r.held + chunk)
    case Until(d) =>
      var n := Seen(chunk, d);
      if n < |chunk| then r.(held := r.held + chunk[..n + 1], residue := r.residue + chunk[n + 1..])
      else r.(held := r.held + chunk)
  }

  /** Does the continuation end the read after absorbing `chunk`? */
  predicate Ends(r: Reader, kind: Kind, chunk: seq<byte>, err: bool) {
    match kind
    case Partial => true
    case Exact => err || |r.held| + |chunk| >= r.requested
    case Until(d) => Seen(chunk, d) < |chunk| || err || |r.held| + |chunk| >= r.requested
  }

  /** `async_read_some_continue`, `async_read_continue`, `async_read_until_continue`. */
  function Continue(r: Reader, id: nat, kind: Kind, chunk: seq<byte>, err: bool): Reader {
    if id != r.id then r
    else
      var r1 := Absorb(r, kind, chunk);
      if Ends(r, kind, chunk, err) then FinishRead(r1, err)
      else DoReadSome(r1, id, kind, r1.requested - |r1.held|)
  }

  function TimeoutReached(r: Reader, id: nat): Reader {
    if id != r.id then r else FinishRead(r.(notified := true), false)
  }

  function DumpCallback(r: Reader, chunk: seq<byte>, err: bool, dumping: bool): Reader {
    if dumping && !err && r.dumpOn then r.(dump := r.dump + chunk) else r
  }

  /** The transport completes the operation `key`. */
  function Fill(r: Reader, key: nat, chunk: seq<byte>, err: bool): Reader
    requires key in r.pending && r.pending[key].Op?
  {
    var op := r.pending[key];
    r.(pending := r.pending[key := Done(op.id, op.kind, chunk, err, op.dumping)])
  }

  /** The body of a handler that has left the queue. */
  function Act(r: Reader, h: Handler): Reader {
    match h
    case Op(_, _, _, _) => r
    case Done(id, kind, chunk, err, dumping) => Continue(DumpCallback(r, chunk, err, dumping), id, kind, chunk, err)
    case Timer(id) => TimeoutReached(r, id)
    case User(cb, _, _) => if cb.ReadCallback? then r.(notified := true) else r
  }

  /** The executor runs the queued handler `key`. */
  function Run(r: Reader, key: nat): Reader
    requires key in r.pending && !r.pending[key].Op?
  {
    Act(r.(pending := r.pending - {key}), r.pending[key])
  }

  /** No byte of `s[from..to]` satisfies a read-until for `size` bytes. */
  predicate NoStop(s: seq<byte>, d: byte, size: nat, from: nat, to: nat)
    requires to <= |s|
  {
    forall i :: from <= i < to ==> s[i] != d && i + 1 < size
  }

  lemma {:induction false} FirstStopSpec(s: seq<byte>, d: byte, size: nat, from: nat)
    requires from <= |s|
    ensures var n := FirstStop(s, d, size, from);
            && (n > 0 ==> from < n && (s[n - 1] == d || n >= size))
            && NoStop(s, d, size, from, if n > 0 then n - 1 else |s|)
    decreases |s| - from
  {
    if from < |s| && s[from] != d && from + 1 < size {
      FirstStopSpec(s, d, size, from + 1);
    }
  }

  /** Draining the residue through `do_read_some` keeps the stream whole exactly when the
      request asks for at least the whole residue; otherwise precisely one byte is missing. */
  lemma DrainContract(r: Reader, id: nat, kind: Kind, count: nat)
    requires |r.residue| > 0
    ensures var r' := DoReadSome(r, id, kind, count);
            && r.next in r'.pending && r'.pending[r.next].Done?
            && var chunk := r'.pending[r.next].chunk;
            && |chunk| == Min(count, |r.residue|)
            && (chunk + r'.residue == r.residue <==> |r.residue| <= count)
            && (|r.residue| > count ==> chunk + [r.residue[count]] + r'.residue == r.residue)
  {
    var r' := DoReadSome(r, id, kind, count);
    var chunk := r'.pending[r.next].chunk;
    if |r.residue| > count {
      assert |chunk + r'.residue| == |r.residue| - 1;
    }
  }
}
