/** UDPClientStream: a datagram buffer with two cursors, read as a byte stream. */
module UdpClientStream {
  import opened Bytes

  /** `buffer_`, `bufferBegin_` and `bufferEnd_`, as positions in it. */
  datatype Buffer = Buffer(data: seq<byte>, begin: nat, end: nat)

  predicate InBounds(b: Buffer) {
    b.begin <= b.end <= |b.data|
  }

  /** The bytes not yet read. */
  function Window(b: Buffer): seq<byte>
    requires InBounds(b)
  {
    b.data[b.begin..b.end]
  }

  /** An empty buffer has both cursors at its start. */
  predicate Rewound(b: Buffer) {
    b.begin == b.end ==> b.begin == 0
  }

  /** The buffer after handing over `count` bytes, or all it has. */
  function Give(b: Buffer, count: nat): Buffer {
    if b.begin + count >= b.end then b.(begin := 0, end := 0) else b.(begin := b.begin + count)
  }

  /** What the socket keeps of a datagram: as much as the buffer holds. */
  function Truncated(b: Buffer, datagram: seq<byte>): seq<byte> {
    datagram[..Min(|datagram|, |b.data|)]
  }

  lemma TruncatedIs(b: Buffer, datagram: seq<byte>)
    ensures Truncated(b, datagram) <= datagram && |Truncated(b, datagram)| <= |b.data|
    ensures Truncated(b, datagram) == datagram || |Truncated(b, datagram)| == |b.data|
  {
    if |datagram| <= |b.data| {
      assert datagram[..|datagram|] == datagram;
    }
  }

  /** A receive completes: the socket writes the datagram at the start of the buffer, and
      `receive_continue` moves the end cursor by its size, from wherever it is. */
  function Received(b: Buffer, datagram: seq<byte>): Buffer {
    var d := Truncated(b, datagram);
    Buffer(d + b.data[|d|..], b.begin, b.end + |d|)
  }

  /** Giving hands over the front of the window. */
  lemma GiveWindow(b: Buffer, count: nat)
    requires InBounds(b)
    ensures var n := Min(count, |Window(b)|);
            && InBounds(Give(b, count)) && (Rewound(b) ==> Rewound(Give(b, count)))
            && Window(Give(b, count)) == Window(b)[n..]
            && Give(b, count).data == b.data
  {
  }

  /** The callback is called at once, or a receive is started on the socket. */
  datatype Outcome = Called(err: bool, count: nat) | Started

  class UdpClientStream {
    var buffer: array<byte>
    var bufferBegin: nat
    var bufferEnd: nat

    ghost function View(): Buffer
      reads this, buffer
    {
      Buffer(buffer[..], bufferBegin, bufferEnd)
    }

    constructor (bufferSize: nat)
      ensures InBounds(View()) && Rewound(View()) && Window(View()) == []
      ensures buffer.Length == bufferSize && fresh(buffer)
    {
      buffer := new byte[bufferSize];
      bufferBegin, bufferEnd := 0, 0;
    }

    method Flush()
      modifies this
      ensures View() == old(View()).(begin := 0, end := 0) && buffer == old(buffer)
      ensures InBounds(View()) && Rewound(View()) && Window(View()) == []
    {
      bufferBegin, bufferEnd := 0, 0;
    }

    method Copy(count: nat, data: array<byte>, at: nat)
      requires data != buffer && at + count <= data.Length && bufferBegin + count <= buffer.Length
      modifies data
      ensures data[at..at + count] == buffer[bufferBegin..bufferBegin + count]
      ensures data[..at] == old(data[..at]) && data[at + count..] == old(data[at + count..])
    {
      for i := 0 to count
        invariant data[at..at + i] == buffer[bufferBegin..bufferBegin + i]
        invariant data[..at] == old(data[..at]) && data[at + i..] == old(data[at + i..])
      {
        data[at + i] := buffer[bufferBegin + i];
      }
    }

    /** Buffered bytes are handed over at once: what was asked for, or all that is left. */
    method AsyncReadSome(bufferSize: nat, data: array<byte>, at: nat) returns (outcome: Outcome)
      requires InBounds(View()) && data != buffer && at + bufferSize <= data.Length
      modifies this, data
      ensures buffer == old(buffer) && InBounds(View()) && (Rewound(old(View())) ==> Rewound(View()))
      ensures outcome.Started? <==> Window(old(View())) == []
      ensures outcome.Started? ==> View() == old(View()) && data[..] == old(data[..])
      ensures outcome.Called? ==>
                && !outcome.err && outcome.count == Min(bufferSize, |Window(old(View()))|)
                && View() == Give(old(View()), bufferSize)
                && data[at..at + outcome.count] == Window(old(View()))[..outcome.count]
                && data[..at] == old(data[..at]) && data[at + outcome.count..] == old(data[at + outcome.count..])
    {
      ghost var was := View();
      var buffered := bufferEnd - bufferBegin;
      if buffered > 0 {
        if bufferSize >= buffered {
          Copy(buffered, data, at);
          bufferBegin, bufferEnd := 0, 0;
          return Called(false, buffered);
        } else {
          Copy(bufferSize, data, at);
          assert Window(was)[..bufferSize] == was.data[bufferBegin..bufferBegin + bufferSize];
          bufferBegin := bufferBegin + bufferSize;
          return Called(false, bufferSize);
        }
      }
      return Started;
    }

    /** The socket puts the datagram at the start of the buffer, truncated to its size. */
    method SocketReceive(datagram: seq<byte>) returns (received: nat)
      modifies buffer
      ensures received == |Truncated(old(View()), datagram)|
      ensures View().(end := bufferEnd + received) == Received(old(View()), datagram)
    {
      received := if |datagram| < buffer.Length then |datagram| else buffer.Length;
      for i := 0 to received
        invariant buffer[..i] == datagram[..i] && buffer[i..] == old(buffer[i..])
      {
        buffer[i] := datagram[i];
      }
      assert buffer[..] == buffer[..received] + buffer[received..];
    }

    /** A receive has completed. The end cursor moves by what was received; nothing checks that it
        stays in the buffer. */
    method ReceiveContinue(bufferSize: nat, data: array<byte>, at: nat, err: bool, received: nat) returns (outcome: Outcome)
      requires bufferBegin <= bufferEnd && bufferEnd + received <= buffer.Length
      requires data != buffer && at + bufferSize <= data.Length
      modifies this, data
      ensures buffer == old(buffer) && InBounds(View()) && (Rewound(old(View())) ==> Rewound(View()))
      ensures var was := old(View()).(end := old(bufferEnd) + received);
              if err then
                outcome == Called(true, 0) && View() == was && data[..] == old(data[..])
              else if Window(was) == [] then
                outcome == Started && View() == was && data[..] == old(data[..])
              else
                && outcome == Called(false, Min(bufferSize, |Window(was)|)) && View() == Give(was, bufferSize)
                && data[at..at + outcome.count] == Window(was)[..outcome.count]
                && data[..at] == old(data[..at]) && data[at + outcome.count..] == old(data[at + outcome.count..])
    {
      bufferEnd := bufferEnd + received;
      if err {
        return Called(true, 0);
      }
      outcome := AsyncReadSome(bufferSize, data, at);
    }
  }
}
