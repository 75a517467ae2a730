/** StringStream: the bounded in-memory FIFO transport. */
module StringStream {
  import opened Bytes

  /** A read takes the oldest bytes; a write appends what there is room for. */
  function TakeCount(buffer: seq<byte>, bufferSize: nat): nat {
    Min(bufferSize, |buffer|)
  }

  function PutCount(buffer: seq<byte>, capacity: nat, count: nat): nat {
    if |buffer| >= capacity then 0 else Min(count, capacity - |buffer|)
  }

  class StringStream {
    const capacity: nat
    var buffer: seq<byte>

    ghost predicate Valid()
      reads this
    {
      |buffer| <= capacity
    }

    constructor (bufferSize: nat)
      ensures Valid() && buffer == [] && capacity == bufferSize
    {
      capacity, buffer := bufferSize, [];
    }

    /** Pops bytes one by one into the destination; the callback is posted with the count. */
    method AsyncReadSome(bufferSize: nat, data: array<byte>, at: nat) returns (readCount: nat)
      requires Valid() && at + bufferSize <= data.Length
      modifies this, data
      ensures Valid()
      ensures readCount == TakeCount(old(buffer), bufferSize)
      ensures readCount <= bufferSize && (readCount == bufferSize || buffer == [])
      ensures data[at..at + readCount] + buffer == old(buffer)
      ensures data[..at] == old(data[..at]) && data[at + readCount..] == old(data[at + readCount..])
    {
      readCount := 0;
      var i := 0;
      while i < bufferSize && |buffer| > 0
        invariant i == readCount <= Min(bufferSize, |old(buffer)|)
        invariant buffer == old(buffer)[readCount..]
        invariant data[at..at + readCount] == old(buffer)[..readCount]
        invariant data[..at] == old(data[..at]) && data[at + readCount..] == old(data[at + readCount..])
        decreases bufferSize - i
      {
        data[at + i] := buffer[0];
        buffer := buffer[1..];
        readCount := readCount + 1;
        i := i + 1;
      }
    }

    /** Pushes bytes one by one while there is room; the callback is posted with the count. */
    method AsyncWriteSome(count: nat, data: seq<byte>) returns (writtenCount: nat)
      requires Valid() && count <= |data|
      modifies this
      ensures Valid()
      ensures writtenCount == PutCount(old(buffer), capacity, count)
      ensures writtenCount <= count && (writtenCount == count || |buffer| == capacity)
      ensures buffer == old(buffer) + data[..writtenCount]
    {
      writtenCount := 0;
      var i := 0;
      while i < count && |buffer| < capacity
        invariant i == writtenCount <= PutCount(old(buffer), capacity, count)
        invariant buffer == old(buffer) + data[..writtenCount] && |buffer| <= capacity
        decreases count - i
      {
        buffer := buffer + [data[i]];
        writtenCount := writtenCount + 1;
        i := i + 1;
      }
    }

    method Flush()
      modifies this
      ensures buffer == [] && Valid()
    {
      buffer := [];
    }
  }
}
