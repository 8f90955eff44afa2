/**
  FifoBuffer: a ring of bytes that is written and read in up to two pieces and can be resized
  while it holds data. It is proved to be a bounded queue.
 */
module FifoBuffers {
  newtype byte = x: int | 0 <= x < 256

  function Min(a: nat, b: nat): nat {
    if a <= b then a else b
  }

  // ---------------------------------------------------------------- the bounded queue

  /** What a FifoBuffer is for its callers: at most capacity bytes in arrival order. */
  datatype Queue = Queue(capacity: nat, data: seq<byte>) {
    predicate Valid() {
      |data| <= capacity
    }
  }

  datatype Op = Write(bytes: seq<byte>) | Read(count: nat) | Resize(size: nat)

  /** Bytes accepted by, and bytes handed out by, one operation. */
  datatype Effect = Effect(accepted: seq<byte>, delivered: seq<byte>)

  function Step(q: Queue, op: Op): (Queue, Effect) {
    match op
    case Write(bytes) =>
      var n := if |q.data| < q.capacity then Min(|bytes|, q.capacity - |q.data|) else 0;
      (q.(data := q.data + bytes[..n]), Effect(bytes[..n], []))
    case Read(count) =>
      var n := Min(count, |q.data|);
      (q.(data := q.data[n..]), Effect([], q.data[..n]))
    case Resize(size) =>
      (if |q.data| <= size then q.(capacity := size) else q, Effect([], []))
  }

  function Run(q: Queue, ops: seq<Op>): (Queue, Effect)
    decreases |ops|
  {
    if ops == [] then (q, Effect([], []))
    else
      var (q1, e1) := Step(q, ops[0]);
      var (q2, e2) := Run(q1, ops[1..]);
      (q2, Effect(e1.accepted + e2.accepted, e1.delivered + e2.delivered))
  }

  lemma StepInOut(q: Queue, op: Op)
    requires q.Valid()
    ensures var (q', e) := Step(q, op);
      q'.Valid() && q.data + e.accepted == e.delivered + q'.data
  {
    assert q.data + [] == q.data == [] + q.data;
  }

  /**
    Operations are greedy: a write leaves bytes behind only when the queue is full, a read returns
    fewer bytes than asked only when it empties the queue, and a resize that fits takes effect.
   */
  lemma StepIsGreedy(q: Queue, op: Op)
    requires q.Valid()
    ensures var (q', e) := Step(q, op);
      match op
      case Write(bytes) =>
        e.accepted <= bytes && e.delivered == [] && q'.capacity == q.capacity
        && (e.accepted == bytes || |q'.data| == q.capacity)
      case Read(count) =>
        e.accepted == [] && |e.delivered| <= count && q'.capacity == q.capacity
        && (|e.delivered| == count || q'.data == [])
      case Resize(size) =>
        e == Effect([], []) && q'.data == q.data && q'.capacity == if |q.data| <= size then size else q.capacity
  {
    match op
    case Write(bytes) =>
      assert bytes[..|bytes|] == bytes;
    case _ =>
  }

  /**
    First in, first out, over any run of writes, reads and resizes: what was held and accepted is
    what was delivered and is still held, byte for byte in order, and the bound is kept.
   */
  lemma {:induction false} FirstInFirstOut(q: Queue, ops: seq<Op>)
    requires q.Valid()
    ensures var (q', e) := Run(q, ops);
      q'.Valid() && q.data + e.accepted == e.delivered + q'.data
    decreases |ops|
  {
    if ops != [] {
      var (q1, e1) := Step(q, ops[0]);
      StepInOut(q, ops[0]);
      FirstInFirstOut(q1, ops[1..]);
      var (q2, e2) := Run(q1, ops[1..]);
      Chain(q.data, e1.accepted, e1.delivered, q1.data, e2.accepted, e2.delivered, q2.data);
    }
  }

  lemma Chain(d0: seq<byte>, a1: seq<byte>, v1: seq<byte>, d1: seq<byte>, a2: seq<byte>, v2: seq<byte>, d2: seq<byte>)
    requires d0 + a1 == v1 + d1 && d1 + a2 == v2 + d2
    ensures d0 + (a1 + a2) == (v1 + v2) + d2
  {
    assert d0 + (a1 + a2) == (d0 + a1) + a2 == v1 + (d1 + a2);
  }

  /** Writes that fit are accepted whole and lie in the queue one behind the other. */
  lemma {:induction false} WritesThatFit(q: Queue, writes: seq<seq<byte>>, total: seq<byte>)
    requires q.Valid() && total == Flatten(writes) && |q.data| + |total| <= q.capacity
    ensures var (q', e) := Run(q, seq(|writes|, i requires 0 <= i < |writes| => Write(writes[i])));
      q' == q.(data := q.data + total) && e == Effect(total, [])
    decreases |writes|
  {
    var ops := seq(|writes|, i requires 0 <= i < |writes| => Write(writes[i]));
    if writes != [] {
      var rest := Flatten(writes[1..]);
      var q1 := q.(data := q.data + writes[0]);
      assert writes[0][..|writes[0]|] == writes[0];
      assert Step(q, ops[0]) == (q1, Effect(writes[0], []));
      assert ops[1..] == seq(|writes[1..]|, i requires 0 <= i < |writes[1..]| => Write(writes[1..][i]));
      WritesThatFit(q1, writes[1..], rest);
      assert q1.data + rest == q.data + total;
    } else {
      assert q.data + total == q.data;
    }
  }

  function Flatten(pieces: seq<seq<byte>>): seq<byte> {
    if pieces == [] then [] else pieces[0] + Flatten(pieces[1..])
  }

  // ---------------------------------------------------------------- the ring

  /** A position that runs past the end of the ring, brought back into it. */
  function Wrap(position: nat, length: nat): nat {
    if position < length then position else position - length
  }

  /** n bytes of the ring from a position on, going round its end at most once. */
  function Window(ring: seq<byte>, position: nat, n: nat): (w: seq<byte>)
    requires n <= |ring| && (position < |ring| || position == n == 0)
    ensures |w| == n
    ensures forall i :: 0 <= i < n ==> w[i] == ring[Wrap(position + i, |ring|)]
  {
    seq(n, i requires 0 <= i < n => ring[Wrap(position + i, |ring|)])
  }

  lemma WrapIsMod(position: nat, length: nat)
    requires position < 2 * length
    ensures position % length == Wrap(position, length)
  {
    if position >= length {
      assert position == length + (position - length);
    }
  }

  lemma SubWindow(ring: seq<byte>, position: nat, n: nat, offset: nat, k: nat)
    requires offset + k <= n <= |ring| && position < |ring| && offset < n
    ensures Window(ring, position, n)[offset..offset + k] == Window(ring, Wrap(position + offset, |ring|), k)
  {
  }

  /** A window read or written in two pieces: tail bytes up to the end of the ring, the rest from 0. */
  ghost predicate InTwoPieces(window: seq<byte>, ring: seq<byte>, position: nat, tail: nat) {
    tail <= |window| && position + tail <= |ring| && |window| - tail <= position + tail &&
    (forall j :: 0 <= j < tail ==> window[j] == ring[position + j]) &&
    forall j :: tail <= j < |window| ==> window[j] == ring[j - tail]
  }

  lemma TwoPieces(window: seq<byte>, ring: seq<byte>, position: nat)
    requires position < |ring| && |window| <= |ring|
    requires InTwoPieces(window, ring, position, Min(|window|, |ring| - position))
    ensures window == Window(ring, position, |window|)
  {
  }

  /** The ring after k bytes were put in behind a window of n. */
  ghost predicate Written(ring: seq<byte>, ring': seq<byte>, position: nat, n: nat, bytes: seq<byte>)
    requires position < |ring| && n + |bytes| <= |ring| && n < |ring|
  {
    |ring'| == |ring| &&
    InTwoPieces(bytes, ring', Wrap(position + n, |ring|), Min(|bytes|, |ring| - Wrap(position + n, |ring|))) &&
    forall k :: 0 <= k < n ==> Window(ring', position, n)[k] == Window(ring, position, n)[k]
  }

  lemma WrittenWindow(ring: seq<byte>, ring': seq<byte>, position: nat, n: nat, bytes: seq<byte>)
    requires position < |ring| && n + |bytes| <= |ring| && n < |ring|
    requires Written(ring, ring', position, n, bytes)
    ensures Window(ring', position, n + |bytes|) == Window(ring, position, n) + bytes
  {
    var w := Window(ring', position, n + |bytes|);
    TwoPieces(bytes, ring', Wrap(position + n, |ring|));
    if bytes != [] {
      SubWindow(ring', position, n + |bytes|, n, |bytes|);
    }
    if n > 0 {
      SubWindow(ring', position, n + |bytes|, 0, n);
    }
    assert w == w[0..n] + w[n..n + |bytes|];
  }

  /** memcpy between two different arrays. */
  method MemCpy(to: array<byte>, toStart: nat, from: array<byte>, fromStart: nat, n: nat)
    requires to != from && toStart + n <= to.Length && fromStart + n <= from.Length
    modifies to
    ensures forall i :: 0 <= i < to.Length ==>
      to[i] == if toStart <= i < toStart + n then from[fromStart + (i - toStart)] else old(to[i])
  {
    forall i | 0 <= i < n {
      to[toStart + i] := from[fromStart + i];
    }
  }

  /** Reads n bytes of a ring in two pieces. */
  method ReadRing(target: array<byte>, ring: array<byte>, position: nat, n: nat)
    requires target != ring && n <= target.Length && n <= ring.Length
    requires position < ring.Length || position == n == 0
    modifies target
    ensures target[..n] == Window(ring[..], position, n) && target[n..] == old(target[n..])
  {
    var tailCopy := Min(n, ring.Length - position);
    MemCpy(target, 0, ring, position, tailCopy);
    MemCpy(target, tailCopy, ring, 0, n - tailCopy);
    if n > 0 {
      TwoPieces(target[..n], ring[..], position);
    }
  }

  /** Writes n bytes into a ring in two pieces, behind a window of k bytes that they leave alone. */
  method WriteRing(ring: array<byte>, source: array<byte>, n: nat, ghost start: nat, ghost k: nat, position: nat)
    requires ring != source && n <= source.Length && start < ring.Length && k < ring.Length && k + n <= ring.Length
    requires position == Wrap(start + k, ring.Length)
    modifies ring
    ensures Window(ring[..], start, k + n) == old(Window(ring[..], start, k)) + source[..n]
  {
    ghost var was := ring[..];
    var tailCopy := Min(n, ring.Length - position);
    MemCpy(ring, position, source, 0, tailCopy);
    MemCpy(ring, 0, source, tailCopy, n - tailCopy);
    assert InTwoPieces(source[..n], ring[..], position, tailCopy);
    WrittenWindow(was, ring[..], start, k, source[..n]);
  }

  class FifoBuffer {
    var buffer: array<byte>
    var bufferLength: nat
    var dataLength: nat
    var readPosition: nat

    ghost predicate Valid()
      reads this
    {
      buffer.Length == bufferLength && dataLength <= bufferLength &&
      (readPosition < bufferLength || readPosition == bufferLength == 0)
    }

    ghost function AsQueue(): Queue
      reads this, buffer
      requires Valid()
    {
      Queue(bufferLength, Window(buffer[..], readPosition, dataLength))
    }

    constructor (length: nat)
      ensures Valid() && fresh(buffer) && AsQueue() == Queue(length, [])
    {
      buffer := new byte[length];
      bufferLength, dataLength, readPosition := length, 0, 0;
    }

    method GetDataLen() returns (length: nat)
      requires Valid()
      ensures length == |AsQueue().data|
    {
      length := dataLength;
    }

    /** Copies up to bytes bytes that start offset bytes into the data; false when there are none. */
    method ReadOffsetLocked(target: array<byte>, bytes: nat, offset: nat) returns (done: bool, copied: nat)
      requires Valid() && target != buffer
      requires offset < dataLength ==> Min(bytes, dataLength - offset) <= target.Length
      modifies target
      ensures done <==> offset < dataLength
      ensures copied == if done then Min(bytes, dataLength - offset) else 0
      ensures copied <= target.Length
      ensures target[..] ==
        if done then AsQueue().data[offset..offset + copied] + old(target[copied..]) else old(target[..])
    {
      if offset >= dataLength {
        return false, 0;
      }
      WrapIsMod(readPosition + offset, bufferLength);
      var available := dataLength - offset;
      var position := (readPosition + offset) % bufferLength;
      copied := Min(bytes, available);
      ReadRing(target, buffer, position, copied);
      done := true;
      SubWindow(buffer[..], readPosition, dataLength, offset, copied);
      assert target[..] == target[..copied] + target[copied..];
    }

    /** Removes and returns up to bytes of the oldest bytes. */
    method Read(target: array<byte>, bytes: nat) returns (copied: nat)
      requires Valid() && target != buffer && Min(bytes, |AsQueue().data|) <= target.Length
      modifies this`readPosition, this`dataLength, target
      ensures Valid() && copied <= target.Length
      ensures var (q, e) := Step(old(AsQueue()), Op.Read(bytes));
        AsQueue() == q && target[..] == e.delivered + old(target[..])[copied..] && copied == |e.delivered|
    {
      ghost var data := AsQueue().data;
      var done;
      done, copied := ReadOffsetLocked(target, bytes, 0);
      assert data[0..copied] == data[..copied];
      if done {
        Advance(copied);
      } else {
        assert data == [] && data[0..] == data;
      }
    }

    /** Drops bytes that were read. */
    method Advance(copied: nat)
      requires Valid() && copied <= dataLength && 0 < dataLength
      modifies this`readPosition, this`dataLength
      ensures Valid() && AsQueue() == old(AsQueue()).(data := old(AsQueue()).data[copied..])
    {
      WrapIsMod(readPosition + copied, bufferLength);
      if copied < dataLength {
        SubWindow(buffer[..], readPosition, dataLength, copied, dataLength - copied);
        assert copied + (dataLength - copied) == |AsQueue().data|;
      }
      readPosition := (readPosition + copied) % bufferLength;
      dataLength := dataLength - copied;
    }

    /** Puts in up to bytes bytes offset bytes behind the data; false when there is no room. */
    method WriteOffsetLocked(source: array<byte>, bytes: nat, offset: nat) returns (done: bool, copied: nat)
      requires Valid() && source != buffer && bytes <= source.Length
      modifies buffer
      ensures Valid() && (done <==> dataLength + offset < bufferLength)
      ensures copied == if done then Min(bytes, bufferLength - dataLength - offset) else 0
      ensures done ==>
        Window(buffer[..], readPosition, dataLength + offset + copied)
        == old(Window(buffer[..], readPosition, dataLength + offset)) + source[..copied]
      ensures !done ==> buffer[..] == old(buffer[..])
    {
      if dataLength + offset >= bufferLength {
        return false, 0;
      }
      WrapIsMod(readPosition + dataLength + offset, bufferLength);
      var available := bufferLength - dataLength - offset;
      var position := (readPosition + dataLength + offset) % bufferLength;
      copied := Min(bytes, available);
      WriteRing(buffer, source, copied, readPosition, dataLength + offset, position);
      done := true;
    }

    /** Appends as many leading bytes of the source as there is room for. */
    method Write(source: array<byte>, bytes: nat) returns (copied: nat)
      requires Valid() && source != buffer && bytes <= source.Length
      modifies this`dataLength, buffer
      ensures Valid()
      ensures var (q, e) := Step(old(AsQueue()), Op.Write(source[..bytes]));
        AsQueue() == q && copied == |e.accepted|
    {
      var done;
      done, copied := WriteOffsetLocked(source, bytes, 0);
      assert source[..bytes][..copied] == source[..copied];
      if done {
        dataLength := dataLength + copied;
      }
    }

    /** Moves the data to a ring of another size, unless it does not fit. */
    method SetCapacity(size: nat) returns (done: bool)
      requires Valid()
      modifies this
      ensures Valid() && (buffer == old(buffer) || fresh(buffer))
      ensures done <==> |old(AsQueue()).data| <= size
      ensures AsQueue() == Step(old(AsQueue()), Resize(size)).0
    {
      if dataLength > size {
        return false;
      }
      if size != bufferLength {
        var ring := new byte[size];
        var copy := dataLength;
        ReadRing(ring, buffer, readPosition, copy);
        assert ring[..][0..copy] == ring[..copy];
        buffer := ring;
        readPosition := 0;
        bufferLength := size;
      }
      return true;
    }
  }
}
