/** The growing ring buffers between a connection and its socket. */
module Sockets {
  import opened Arith

  type Byte = b: int | 0 <= b < 256

  const ERROR: int := -1

  /** What a call to read n bytes returns when some are pending and it is ready to deliver
      d: at least one byte, unless none was asked for or the call fails. With nothing
      pending there is nothing to read or the peer has closed. */
  function Got(d: int, n: int, pending: int): int {
    var most := if n < pending then n else pending;
    if n == 0 then 0
    else if d < 0 then ERROR
    else if d > most then most
    else if d == 0 && most > 0 then 1
    else d
  }

  /** The receiving end of a socket: the bytes that have arrived and were not read yet. */
  class Source {
    var pending: seq<Byte>

    /** How many bytes each call is ready to deliver, negative if it fails, by the number
        of the call; and how many calls there were. */
    const delivers: nat -> int
    var calls: nat

    constructor (delivers: nat -> int)
      ensures pending == [] && calls == 0 && this.delivers == delivers
    {
      pending, calls := [], 0;
      this.delivers := delivers;
    }

    /** One of these calls failed. */
    ghost predicate Failed(from: nat, to: nat) { exists i: nat :: from <= i < to && delivers(i) < 0 }

    /** Every call delivers all it is asked for, of n bytes at most. */
    ghost predicate Eager(n: int) { forall i: nat :: delivers(i) >= n }

    /** More bytes arrive. */
    method Arrive(bytes: seq<Byte>)
      modifies this`pending
      ensures pending == old(pending) + bytes
    {
      pending := pending + bytes;
    }

    /** Reads at most n bytes into the buffer. */
    method Recv(buffer: array<Byte>, at: int, n: int) returns (k: int)
      requires 0 <= at && 0 <= n && at + Most(n) <= buffer.Length
      modifies this, buffer
      ensures calls == old(calls) + 1 && k == Got(delivers(old(calls)), n, |old(pending)|)
      ensures k > 0 ==> pending == old(pending)[k..] && buffer[at..at + k] == old(pending)[..k]
      ensures k <= 0 ==> pending == old(pending) && buffer[..] == old(buffer[..])
      ensures forall i | 0 <= i < buffer.Length && !(at <= i < at + k) :: buffer[i] == old(buffer[i])
    {
      hide Written;
      k := Got(delivers(calls), n, |pending|);
      calls := calls + 1;
      if k > 0 {
        CopyFrom(buffer, at, pending[..k]);
        pending := pending[k..];
      }
    }

    /** The most that reading n bytes can deliver. */
    function Most(n: int): int
      reads this
    {
      if n < |pending| then n else |pending|
    }

    /** FIONREAD: how many bytes are pending. */
    function Available(): int
      reads this
    {
      |pending|
    }
  }

  /** Bytes written over those at a place. */
  function Written(before: seq<Byte>, at: int, bytes: seq<Byte>): seq<Byte>
    requires 0 <= at && at + |bytes| <= |before|
  {
    before[..at] + bytes + before[at + |bytes|..]
  }

  lemma WrittenTwice(before: seq<Byte>, x: seq<Byte>, y: seq<Byte>)
    requires |x| + |y| <= |before|
    ensures Written(before, 0, x)[0..|x|] == x
    ensures Written(Written(before, 0, x), |x|, y)[0..|x| + |y|] == x + y
  {
  }

  /** memcpy of a run of bytes to a place in a buffer. */
  method CopyFrom(buffer: array<Byte>, at: int, bytes: seq<Byte>)
    requires 0 <= at && at + |bytes| <= buffer.Length
    modifies buffer
    ensures buffer[at..at + |bytes|] == bytes && buffer[..] == Written(old(buffer[..]), at, bytes)
    ensures forall i | 0 <= i < buffer.Length && !(at <= i < at + |bytes|) :: buffer[i] == old(buffer[i])
  {
    for k := 0 to |bytes|
      invariant forall i | 0 <= i < k :: buffer[at + i] == bytes[i]
      invariant forall i | 0 <= i < buffer.Length && !(at <= i < at + k) :: buffer[i] == old(buffer[i])
    {
      buffer[at + k] := bytes[k];
    }
    assert forall i | 0 <= i < |bytes| :: buffer[at..at + |bytes|][i] == bytes[i];
  }

  /** The bytes of a ring from head up to tail, around the end of the buffer if need be. */
  function Ring(bytes: seq<Byte>, head: int, tail: int): seq<Byte>
    requires 0 <= head <= |bytes| && 0 <= tail <= |bytes|
  {
    if head <= tail then bytes[head..tail] else bytes[head..] + bytes[..tail]
  }

  function RingLength(size: int, head: int, tail: int): int {
    if head < tail then tail - head else if head > tail then size - head + tail else 0
  }

  lemma RingSize(bytes: seq<Byte>, head: int, tail: int)
    requires 0 <= head <= |bytes| && 0 <= tail <= |bytes|
    ensures |Ring(bytes, head, tail)| == RingLength(|bytes|, head, tail)
  {
  }

  lemma SameRun(before: seq<Byte>, after: seq<Byte>, a: int, b: int)
    requires |before| == |after| && 0 <= a <= b <= |after| && forall i | a <= i < b :: after[i] == before[i]
    ensures after[a..b] == before[a..b]
  {
  }

  /** A ring that does not go around, and one that does, in terms of runs of bytes. */
  lemma RingRuns(bytes: seq<Byte>, head: int, tail: int)
    requires 0 <= head <= |bytes| && 0 <= tail <= |bytes|
    ensures head <= tail ==> Ring(bytes, head, tail) == bytes[head..tail]
    ensures head > tail ==> Ring(bytes, head, tail) == bytes[head..|bytes|] + bytes[0..tail]
  {
    assert bytes[head..|bytes|] == bytes[head..] && bytes[0..tail] == bytes[..tail];
  }

  /** Bytes written after the tail, without going around, extend the ring. */
  lemma RingAppend(before: seq<Byte>, after: seq<Byte>, head: int, tail: int, k: int)
    requires |before| == |after| && 0 <= head < |after| && 0 <= tail && 0 <= k && tail + k <= |after|
    requires head > tail ==> tail + k < head
    requires forall i | 0 <= i < |after| && !(tail <= i < tail + k) :: after[i] == before[i]
    ensures Ring(after, head, tail + k) == Ring(before, head, tail) + after[tail..tail + k]
  {
    hide Ring;
    RingRuns(before, head, tail);
    RingRuns(after, head, tail + k);
    if head <= tail {
      SameRun(before, after, head, tail);
      SliceOn(after, head, tail, tail + k);
    } else {
      SameRun(before, after, head, |after|);
      SameRun(before, after, 0, tail);
      SliceOn(after, 0, tail, tail + k);
      Regroup(before[head..|before|], before[0..tail], after[tail..tail + k]);
    }
  }

  /** A tail at the end of the buffer is the same as one at its start. */
  lemma RingWrap(bytes: seq<Byte>, head: int)
    requires 0 < head < |bytes|
    ensures Ring(bytes, head, |bytes|) == Ring(bytes, head, 0)
  {
    assert bytes[head..] + bytes[..0] == bytes[head..];
  }

  /** A new buffer with the bytes of a ring at its front. */
  method Unrolled(buffer: array<Byte>, head: int, tail: int, size: int) returns (larger: array<Byte>)
    requires 0 <= head < buffer.Length && 0 <= tail < buffer.Length <= size
    ensures fresh(larger) && larger.Length == size
    ensures Ring(larger[..], 0, RingLength(buffer.Length, head, tail)) == Ring(buffer[..], head, tail)
  {
    hide Ring, Written;
    larger := new Byte[size](_ => 0);
    ghost var zeros, bytes := larger[..], buffer[..];
    RingRuns(bytes, head, tail);
    if head < tail {
      WrittenTwice(zeros, bytes[head..tail], []);
      CopyFrom(larger, 0, buffer[head..tail]);
    } else if head > tail {
      var right := buffer.Length - head;
      WrittenTwice(zeros, bytes[head..|bytes|], bytes[0..tail]);
      assert buffer[head..] == bytes[head..|bytes|] && buffer[..tail] == bytes[0..tail];
      CopyFrom(larger, 0, buffer[head..]);
      CopyFrom(larger, right, buffer[..tail]);
    } else {
      assert larger[..][0..0] == bytes[head..tail];
    }
    RingRuns(larger[..], 0, RingLength(buffer.Length, head, tail));
  }

  /** A position moved forward in a ring of n places. */
  function Forward(at: int, k: int, n: int): (h: int)
    requires 0 <= at < n && 0 <= k <= n
    ensures h == if at + k < n then at + k else at + k - n
  {
    ModUnique(at + k, n, if at + k < n then 0 else 1, if at + k < n then at + k else at + k - n);
    (at + k) % n
  }

  lemma SliceOn(s: seq<Byte>, a: int, b: int, c: int)
    requires 0 <= a <= b <= c <= |s|
    ensures s[a..b] + s[b..c] == s[a..c]
  {
  }

  lemma Regroup<T>(a: seq<T>, b: seq<T>, c: seq<T>)
    ensures (a + b) + c == a + (b + c)
  {
  }

  /** A ring from head on is a run of bytes before the end of the buffer and the ring from
      after that run. */
  lemma RingSplit(bytes: seq<Byte>, head: int, head': int, tail: int)
    requires 0 <= head <= head' <= |bytes| && 0 <= tail <= |bytes| && (head <= tail ==> head' <= tail)
    ensures var h := if head > tail && head' == |bytes| then 0 else head';
            Ring(bytes, head, tail) == bytes[head..head'] + Ring(bytes, h, tail)
  {
    var all, run := Ring(bytes, head, tail), bytes[head..head'];
    var rest := Ring(bytes, if head > tail && head' == |bytes| then 0 else head', tail);
    assert |all| == |run| + |rest|;
    forall i | 0 <= i < |all| ensures all[i] == (run + rest)[i] {
      var p := head + i;
      assert all[i] == bytes[if p < |bytes| then p else p - |bytes|];
    }
  }

  /** Bytes sent from the head on are gone from the ring, in order. */
  lemma SentOn(bytes: seq<Byte>, sent: seq<Byte>, sent': seq<Byte>, head: int, head': int, tail: int)
    requires 0 <= head <= head' <= |bytes| && 0 <= tail <= |bytes| && (head <= tail ==> head' <= tail)
    requires sent' == sent + bytes[head..head']
    ensures var h := if head > tail && head' == |bytes| then 0 else head';
            sent' + Ring(bytes, h, tail) == sent + Ring(bytes, head, tail)
  {
    hide Ring;
    RingSplit(bytes, head, head', tail);
    Regroup(sent, bytes[head..head'], Ring(bytes, if head > tail && head' == |bytes| then 0 else head', tail));
  }

  lemma SentAll(bytes: seq<Byte>, tail: int)
    requires 0 <= tail <= |bytes|
    ensures Ring(bytes, tail, tail) == [] == Ring(bytes, 0, 0)
  {
  }

  /** Moving the head forward drops bytes from the front; they lie before the end of the
      buffer and, for the rest, at its start. */
  lemma RingDrop(bytes: seq<Byte>, head: int, tail: int, k: int)
    requires 0 <= head < |bytes| && 0 <= tail < |bytes| && 0 <= k <= RingLength(|bytes|, head, tail)
    ensures |Ring(bytes, head, tail)| == RingLength(|bytes|, head, tail)
    ensures var h := if head + k < |bytes| then head + k else head + k - |bytes|;
            0 <= h < |bytes| && Ring(bytes, h, tail) == Ring(bytes, head, tail)[k..]
    ensures if head + k <= |bytes| then Ring(bytes, head, tail)[..k] == bytes[head..head + k]
            else head > tail && head + k - |bytes| <= tail && Ring(bytes, head, tail)[..k] == bytes[head..] + bytes[..head + k - |bytes|]
  {
    var n := |bytes|;
    if head > tail {
      if head + k < n {
        assert bytes[head + k..] == bytes[head..][k..];
      } else {
        assert Ring(bytes, head, tail)[k..] == bytes[..tail][k - (n - head)..];
      }
    }
  }

  /** n bytes have moved from the front of one queue to the end of another. */
  ghost predicate Moved(queue: seq<Byte>, pending: seq<Byte>, queue': seq<Byte>, pending': seq<Byte>, n: int) {
    0 <= n <= |pending| && queue' == queue + pending[..n] && pending' == pending[n..]
  }

  lemma MovedNone(queue: seq<Byte>, pending: seq<Byte>)
    ensures Moved(queue, pending, queue, pending, 0)
  {
  }

  lemma MovedSize(q0: seq<Byte>, p0: seq<Byte>, q1: seq<Byte>, p1: seq<Byte>, n: int)
    requires Moved(q0, p0, q1, p1, n)
    ensures |p1| == |p0| - n && p1 == p0[n..]
  {
  }

  lemma MovedTwice(q0: seq<Byte>, p0: seq<Byte>, q1: seq<Byte>, p1: seq<Byte>, q2: seq<Byte>, p2: seq<Byte>, n: int, m: int)
    requires Moved(q0, p0, q1, p1, n) && Moved(q1, p1, q2, p2, m)
    ensures Moved(q0, p0, q2, p2, n + m) && |p1| == |p0| - n && |p2| == |p1| - m && p2 == p0[n + m..]
  {
    assert p0[..n + m] == p0[..n] + p0[n..][..m];
  }

  const INPUT_SIZE: int := 16
  const INPUT_SIZE_HALF: int := 8
  const INPUT_MAX_SIZE: int := 1024 * 1024
  const RESET: int := -1000

  /** The number of bytes a result of receiving stands for. */
  function Gain(k: int): int { if k > 0 then k else 0 }

  /** A buffer's size and the positions in it. */
  datatype Shape = Shape(size: int, head: int, tail: int)

  /** How many bytes feeding asks for first. */
  function FirstRead(s: Shape): int {
    if s.head > s.tail then s.head - s.tail - 1 else if s.head == 0 then s.size - s.tail - 1 else s.size - s.tail
  }

  /** With n bytes pending the buffer would have to grow beyond the maximum. A buffer that
      goes around and is full does not grow: reading no bytes ends the feeding. */
  predicate Overflows(s: Shape, n: int) {
    var rest := n - FirstRead(s);
    && rest > 0 && s.size + rest + 1 > INPUT_MAX_SIZE
    && (0 < s.head <= s.tail ==> rest > s.head - 1) && (s.head > s.tail ==> FirstRead(s) > 0)
  }

  /** How many of n pending bytes remain after feeding: with the contents at the front no
      more are read after growing than there was room for before. */
  function Unread(s: Shape, n: int): int {
    if s.head != 0 || n <= 2 * FirstRead(s) then 0 else n - 2 * FirstRead(s)
  }

  /** What feeding did: unless the input was reset, the bytes read are exactly those that
      were appended. A reset loses all bytes, and happens only if the buffer would have
      to grow beyond the maximum, always so if each read delivers all it is asked for.
      With bytes pending the result is 0 exactly when the buffer was full to begin with
      and was not reset. */
  ghost predicate Fed(queue: seq<Byte>, pending: seq<Byte>, s: Shape, eager: bool, queue': seq<Byte>, pending': seq<Byte>, r: int) {
    && |pending'| <= |pending| && pending' == pending[|pending| - |pending'|..]
    && (r != RESET ==> Moved(queue, pending, queue', pending', |pending| - |pending'|))
    && (r == RESET ==> queue' == [] && Overflows(s, |pending|) && |pending| - |pending'| == FirstRead(s))
    && (eager && Overflows(s, |pending|) ==> r == RESET)
    && (eager && !Overflows(s, |pending|) && |queue| < s.size - 1 ==> |pending'| == Unread(s, |pending|))
    && (r > 0 ==> r == |pending| - |pending'|)
    && (ERROR <= r || r == RESET)
    && (pending != [] ==> (r == 0 <==> |queue| == s.size - 1 && (s.head == 0 ==> !Overflows(s, |pending|))))
  }

  class SocketInput {
    var buffer: array<Byte>
    var head: int
    var tail: int

    predicate Valid()
      reads this, buffer
    {
      buffer.Length >= INPUT_SIZE && 0 <= head < buffer.Length && 0 <= tail < buffer.Length
    }

    /** The bytes received and not fetched yet. */
    function Contents(): seq<Byte>
      requires Valid()
      reads this, buffer
    {
      Ring(buffer[..], head, tail)
    }

    constructor ()
      ensures Valid() && fresh(buffer) && Contents() == [] && GetShape() == Shape(INPUT_SIZE, 0, 0)
    {
      head, tail := 0, 0;
      buffer := new Byte[INPUT_SIZE](_ => 0);
    }

    method Init()
      modifies this
      ensures Valid() && fresh(buffer) && buffer.Length == INPUT_SIZE && Contents() == []
    {
      head, tail := 0, 0;
      buffer := new Byte[INPUT_SIZE](_ => 0);
    }

    function Length(): (n: int)
      requires Valid()
      reads this, buffer
      ensures n == |Contents()|
    {
      RingSize(buffer[..], head, tail);
      RingLength(buffer.Length, head, tail)
    }

    function GetShape(): Shape
      reads this
    {
      Shape(buffer.Length, head, tail)
    }

    /** While contents and pending bytes together stay below half of the maximum, the
        input is never reset. */
    lemma HalfFits(n: nat)
      requires Valid() && 2 * (|Contents()| + n) + 2 <= INPUT_MAX_SIZE
      ensures !Overflows(GetShape(), n)
    {
      LengthBound();
    }

    /** Moves the contents to the front of a larger buffer. */
    method Resize(size: int) returns (ok: bool)
      requires Valid()
      modifies this
      ensures Valid() && Contents() == old(Contents()) && ok == (size > 0)
      ensures ok ==> fresh(buffer) && head == 0 && tail == |Contents()| && buffer.Length >= old(buffer.Length) + size
      ensures !ok ==> unchanged(this)
    {
      hide Ring;
      if size <= 0 {
        return false;
      }
      var len := Length();
      var more := if size > INPUT_SIZE_HALF then size else INPUT_SIZE_HALF;
      LengthBound();
      buffer := Unrolled(buffer, head, tail, buffer.Length + more);
      head, tail := 0, len;
      ok := true;
    }

    /** Copies the first `size` bytes out and drops them; does nothing if there are not
        as many. */
    method Fetch(out: array<Byte>, size: int)
      requires Valid() && 0 <= size <= out.Length && out != buffer
      modifies this`head, out
      ensures Valid()
      ensures size > |old(Contents())| ==> unchanged(this) && unchanged(out)
      ensures size <= |old(Contents())| ==> out[..size] == old(Contents())[..size] && Contents() == old(Contents())[size..]
      ensures forall i | size <= i < out.Length :: out[i] == old(out[i])
    {
      hide Forward;
      if size == 0 || size > Length() {
        return;
      }
      RingDrop(buffer[..], head, tail, size);
      CopyOut(out, size);
      head := Forward(head, size, buffer.Length);
    }

    /** The copying part of fetch. */
    method CopyOut(out: array<Byte>, size: int)
      requires Valid() && 0 < size <= out.Length && out != buffer && size <= |Contents()|
      modifies out
      ensures out[..size] == Contents()[..size] && buffer[..] == old(buffer[..])
      ensures forall i | size <= i < out.Length :: out[i] == old(out[i])
    {
      hide Ring, Written;
      ghost var before, bytes := out[..], buffer[..];
      LengthBound();
      RingDrop(bytes, head, tail, size);
      if head < tail {
        WrittenTwice(before, bytes[head..head + size], []);
        CopyFrom(out, 0, buffer[head..head + size]);
      } else {
        var right := buffer.Length - head;
        if size < right {
          WrittenTwice(before, bytes[head..head + size], []);
          CopyFrom(out, 0, buffer[head..head + size]);
        } else {
          WrittenTwice(before, bytes[head..], bytes[..size - right]);
          assert buffer[head..] == bytes[head..] && buffer[..size - right] == bytes[..size - right];
          CopyFrom(out, 0, buffer[head..]);
          CopyFrom(out, right, buffer[..size - right]);
        }
      }
      assert out[..size] == out[..][0..size];
    }

    method Skip(size: int)
      requires Valid() && 0 <= size
      modifies this`head
      ensures Valid() && Contents() == if size > |old(Contents())| then old(Contents()) else old(Contents())[size..]
    {
      hide Forward;
      if size == 0 || size > Length() {
        return;
      }
      RingDrop(buffer[..], head, tail, size);
      head := Forward(head, size, buffer.Length);
    }

    /** n bytes or all that is pending fit after the tail, without going around. */
    ghost predicate FitsAfterTail(source: Source, n: int)
      requires Valid()
      reads this, buffer, source
    {
      if head > tail then tail + source.Most(n) < head
      else tail + source.Most(n) <= buffer.Length && (tail + source.Most(n) == buffer.Length ==> head > 0)
    }

    /** Reads at most n bytes to the tail. */
    method ReceiveAtTail(source: Source, n: int) returns (k: int)
      requires Valid() && 0 <= n && FitsAfterTail(source, n)
      modifies this`tail, buffer, source
      ensures Valid() && ERROR <= k <= n && k <= |old(source.pending)|
      ensures source.calls == old(source.calls) + 1 && k == Got(source.delivers(old(source.calls)), n, |old(source.pending)|)
      ensures Moved(old(Contents()), old(source.pending), Contents(), source.pending, Gain(k))
      ensures k > 0 ==> tail == if old(tail) + k < buffer.Length then old(tail) + k else 0
      ensures k <= 0 ==> tail == old(tail)
    {
      hide Forward, Ring, RingLength;
      ghost var before := buffer[..];
      k := source.Recv(buffer, tail, n);
      if k > 0 {
        RingAppend(before, buffer[..], head, tail, k);
        if tail + k == buffer.Length {
          RingWrap(buffer[..], head);
        }
        tail := Forward(tail, k, buffer.Length);
      } else {
        assert buffer[..] == before;
      }
    }

    /** Makes room for what is still pending, if that is allowed, and reads at most n bytes
        of it. */
    method GrowAndReceive(source: Source, n: int) returns (k: int)
      requires Valid() && 0 <= n && source.pending != []
      modifies this, source
      ensures Valid() && fresh(buffer) && (ERROR <= k <= n || k == RESET) && k <= |old(source.pending)|
      ensures k == RESET <==> old(buffer.Length + |source.pending| + 1 > INPUT_MAX_SIZE)
      ensures k == RESET ==> Contents() == []
      ensures k != RESET ==> Moved(old(Contents()), old(source.pending), Contents(), source.pending, Gain(k))
      ensures k == RESET ==> source.pending == old(source.pending) && source.calls == old(source.calls)
      ensures k != RESET ==> source.calls == old(source.calls) + 1 && k == Got(source.delivers(old(source.calls)), n, |old(source.pending)|)
    {
      hide Ring, RingLength;
      var remain := source.Available();
      if buffer.Length + remain + 1 > INPUT_MAX_SIZE {
        Init();
        return RESET;
      }
      var size := buffer.Length;
      LengthBound();
      var ok := Resize(remain + 1);
      k := ReceiveAtTail(source, n);
    }

    lemma LengthBound()
      requires Valid()
      ensures |Contents()| == RingLength(buffer.Length, head, tail) < buffer.Length
    {
      RingSize(buffer[..], head, tail);
    }

    /** Feeding with the contents at the front of the buffer. */
    method FeedFront(source: Source) returns (r: int)
      requires Valid() && head == 0
      modifies this, buffer, source
      ensures Valid() && (buffer == old(buffer) || fresh(buffer))
      ensures r == ERROR <==> |old(Contents())| < old(buffer.Length) - 1 && source.Failed(old(source.calls), source.calls)
      ensures source.calls >= old(source.calls)
      ensures |old(source.pending)| <= FirstRead(old(GetShape())) ==> buffer == old(buffer) && head == old(head)
      ensures Fed(old(Contents()), old(source.pending), old(GetShape()), source.Eager(|old(source.pending)|), Contents(), source.pending, r)
    {
      hide Ring, Moved;
      LengthBound();
      MovedNone(Contents(), source.pending);
      ghost var q0, p0 := Contents(), source.pending;
      var filled, received := 0, 0;
      var free := buffer.Length - tail - 1;
      if free > 0 {
        received := ReceiveAtTail(source, free);
        MovedSize(q0, p0, Contents(), source.pending, Gain(received));
        if received <= 0 {
          return received;
        }
        filled := filled + received;
      }
      if free <= 0 || free == received {
        var remain := source.Available();
        if remain > 0 {
          ghost var q1, p1 := Contents(), source.pending;
          received := GrowAndReceive(source, free);
          if received != RESET {
            MovedTwice(q0, p0, q1, p1, Contents(), source.pending, filled, Gain(received));
          }
          if received <= 0 {
            return received;
          }
          filled := filled + received;
        }
      }
      r := filled;
    }

    /** Feeding up to the end of the buffer and on from its start. */
    method FeedAround(source: Source) returns (r: int)
      requires Valid() && 0 < head <= tail
      modifies this, buffer, source
      ensures Valid() && (buffer == old(buffer) || fresh(buffer))
      ensures r == ERROR <==> |old(Contents())| < old(buffer.Length) - 1 && source.Failed(old(source.calls), source.calls)
      ensures source.calls >= old(source.calls)
      ensures |old(source.pending)| <= FirstRead(old(GetShape())) ==> buffer == old(buffer) && head == old(head)
      ensures Fed(old(Contents()), old(source.pending), old(GetShape()), source.Eager(|old(source.pending)|), Contents(), source.pending, r)
    {
      hide Ring, Moved;
      LengthBound();
      ghost var q0, p0 := Contents(), source.pending;
      var filled, free := 0, buffer.Length - tail;
      var received := ReceiveAtTail(source, free);
      MovedSize(q0, p0, Contents(), source.pending, Gain(received));
      if received <= 0 {
        return received;
      }
      filled := filled + received;
      if received == free {
        var remain := source.Available();
        if remain <= 0 {
          return filled;
        }
        free := head - 1;
        ghost var q1, p1 := Contents(), source.pending;
        if remain > free {
          received := GrowAndReceive(source, remain);
        } else {
          received := ReceiveAtTail(source, remain);
        }
        if received != RESET {
          MovedTwice(q0, p0, q1, p1, Contents(), source.pending, filled, Gain(received));
        }
        if received <= 0 {
          return received;
        }
        filled := filled + received;
      }
      r := filled;
    }

    /** Feeding between the tail and the head. */
    method FeedBetween(source: Source) returns (r: int)
      requires Valid() && head > tail
      modifies this, buffer, source
      ensures Valid() && (buffer == old(buffer) || fresh(buffer))
      ensures r == ERROR <==> |old(Contents())| < old(buffer.Length) - 1 && source.Failed(old(source.calls), source.calls)
      ensures source.calls >= old(source.calls)
      ensures |old(source.pending)| <= FirstRead(old(GetShape())) ==> buffer == old(buffer) && head == old(head)
      ensures Fed(old(Contents()), old(source.pending), old(GetShape()), source.Eager(|old(source.pending)|), Contents(), source.pending, r)
    {
      hide Ring, Moved;
      LengthBound();
      ghost var q0, p0 := Contents(), source.pending;
      var filled, free := 0, head - tail - 1;
      var received := ReceiveAtTail(source, free);
      MovedSize(q0, p0, Contents(), source.pending, Gain(received));
      if received <= 0 {
        return received;
      }
      filled := filled + received;
      if free == received {
        var remain := source.Available();
        if remain > 0 {
          ghost var q1, p1 := Contents(), source.pending;
          received := GrowAndReceive(source, remain);
          if received != RESET {
            MovedTwice(q0, p0, q1, p1, Contents(), source.pending, filled, Gain(received));
          }
          if received <= 0 {
            return received;
          }
          filled := filled + received;
        }
      }
      r := filled;
    }

    /** Reads what is pending, going around the end of the buffer or growing it if need be. */
    method Feed(source: Source) returns (r: int)
      requires Valid()
      modifies this, buffer, source
      ensures Valid() && (buffer == old(buffer) || fresh(buffer))
      ensures r == ERROR <==> |old(Contents())| < old(buffer.Length) - 1 && source.Failed(old(source.calls), source.calls)
      ensures source.calls >= old(source.calls)
      ensures |old(source.pending)| <= FirstRead(old(GetShape())) ==> buffer == old(buffer) && head == old(head)
      ensures Fed(old(Contents()), old(source.pending), old(GetShape()), source.Eager(|old(source.pending)|), Contents(), source.pending, r)
    {
      hide Ring, Fed;
      if head <= tail {
        if head == 0 {
          r := FeedFront(source);
        } else {
          r := FeedAround(source);
        }
      } else {
        r := FeedBetween(source);
      }
    }
  }

  /** The sending end of a socket: all bytes it has taken. */
  class Sink {
    var sent: seq<Byte>

    /** How many bytes each call is ready to take, negative if it fails, by the number of
        the call; and how many calls there were. */
    const takes: nat -> int
    var calls: nat

    constructor (takes: nat -> int)
      ensures sent == [] && calls == 0 && this.takes == takes
    {
      sent, calls := [], 0;
      this.takes := takes;
    }

    /** One of these calls failed. */
    ghost predicate Failed(from: nat, to: nat) { exists i: nat :: from <= i < to && takes(i) < 0 }

    /** Takes at least one of the bytes, or fails. */
    method Send(bytes: seq<Byte>) returns (k: int)
      requires bytes != []
      modifies this
      ensures calls == old(calls) + 1 && (k == ERROR || 0 < k <= |bytes|)
      ensures k == ERROR <==> takes(old(calls)) < 0
      ensures sent == if k > 0 then old(sent) + bytes[..k] else old(sent)
    {
      k := takes(calls);
      calls := calls + 1;
      if k < 0 {
        return ERROR;
      }
      if k == 0 {
        k := 1;
      }
      if k > |bytes| {
        k := |bytes|;
      }
      sent := sent + bytes[..k];
    }
  }

  const OUTPUT_SIZE: int := 16 * 1024
  const OUTPUT_SIZE_HALF: int := 8 * 1024

  class SocketOutput {
    var buffer: array<Byte>
    var head: int
    var tail: int

    ghost predicate Valid()
      reads this, buffer
    {
      buffer.Length >= OUTPUT_SIZE && 0 <= head < buffer.Length && 0 <= tail < buffer.Length
    }

    /** The bytes written and not sent yet. */
    ghost function Contents(): seq<Byte>
      requires Valid()
      reads this, buffer
    {
      Ring(buffer[..], head, tail)
    }

    constructor ()
      ensures Valid() && fresh(buffer) && Contents() == [] && head == 0
    {
      head, tail := 0, 0;
      buffer := new Byte[OUTPUT_SIZE](_ => 0);
    }

    function Length(): (n: int)
      requires Valid()
      reads this, buffer
      ensures n == |Contents()|
    {
      RingSize(buffer[..], head, tail);
      RingLength(buffer.Length, head, tail)
    }

    /** Moves the contents to the front of a larger buffer. */
    method Resize(size: int) returns (ok: bool)
      requires Valid()
      modifies this
      ensures Valid() && Contents() == old(Contents()) && ok == (size > 0)
      ensures ok ==> fresh(buffer) && head == 0 && tail == |Contents()| && buffer.Length >= old(buffer.Length) + size
      ensures !ok ==> unchanged(this)
    {
      hide Ring;
      if size <= 0 {
        return false;
      }
      var len := Length();
      var more := if size > OUTPUT_SIZE_HALF then size else OUTPUT_SIZE_HALF;
      LengthBound();
      buffer := Unrolled(buffer, head, tail, buffer.Length + more);
      head, tail := 0, len;
      ok := true;
    }

    /** The room the code computes. */
    function FreeBytes(): int
      requires Valid()
      reads this, buffer
    {
      if head <= tail then buffer.Length - tail + head - 1 else head - tail - 1
    }

    /** The write stays within the buffer: it makes the buffer grow, or it need not go
        around the end. */
    predicate InBounds(size: int)
      requires Valid()
      reads this, buffer
    {
      size >= FreeBytes() || tail + size <= buffer.Length
    }

    /** With the contents at the front every write stays within the buffer. */
    lemma FrontInBounds(size: int)
      requires Valid()
      ensures head == 0 || head > tail ==> InBounds(size)
    {
    }

    /** Some write runs past the end of the buffer exactly if the contents have moved at
        least three places from the front and do not go around the end. */
    lemma SomeOverrun()
      requires Valid()
      ensures (exists size: nat :: !InBounds(size)) <==> 3 <= head <= tail
    {
      if 3 <= head <= tail {
        assert !InBounds(buffer.Length - tail + 1);
      }
    }

    /** Appends bytes, growing the buffer if they do not fit. A write that is not within
        bounds copies beyond the end of the buffer; what is left then is undefined. */
    method Write(bytes: seq<Byte>) returns (r: int, overrun: bool)
      requires Valid()
      modifies this, buffer
      ensures overrun <==> !old(InBounds(|bytes|))
      ensures overrun ==> unchanged(this) && unchanged(buffer)
      ensures !overrun ==>
        && Valid() && (buffer == old(buffer) || fresh(buffer))
        && r == |bytes| && Contents() == old(Contents()) + bytes
        && (old(head) == 0 ==> head == 0)
    {
      hide Ring, RingLength, Forward, Written;
      r, overrun := 0, false;
      LengthBound();
      var free := FreeBytes();
      if |bytes| >= free {
        var ok := Resize(|bytes| - free + 1);
        if !ok {
          return;
        }
        LengthBound();
      }
      if tail + |bytes| > buffer.Length {
        return 0, true;
      }
      ghost var before := buffer[..];
      CopyFrom(buffer, tail, bytes);
      RingAppend(before, buffer[..], head, tail, |bytes|);
      if tail + |bytes| == buffer.Length {
        RingWrap(buffer[..], head);
      }
      tail := Forward(tail, |bytes|, buffer.Length);
      r := |bytes|;
    }

    lemma LengthBound()
      requires Valid()
      ensures |Contents()| < buffer.Length && |Contents()| + FreeBytes() == buffer.Length - 1
    {
      RingSize(buffer[..], head, tail);
    }

    /** Sends the bytes from the head up to `end`, until done or a send fails. */
    method SendUpTo(sink: Sink, end: int) returns (k: int, failed: bool)
      requires Valid() && head <= end <= buffer.Length
      modifies this`head, sink
      ensures old(head) <= head <= end && (failed ==> k == ERROR && head < end)
      ensures !failed ==> head == end && k == end - old(head)
      ensures sink.calls >= old(sink.calls) && (failed <==> sink.Failed(old(sink.calls), sink.calls))
      ensures sink.sent == old(sink.sent) + buffer[..][old(head)..head]
    {
      ghost var bytes := buffer[..];
      var left := end - head;
      k := 0;
      while left > 0
        invariant left == end - head && old(head) <= head <= end && k == head - old(head)
        invariant sink.sent == old(sink.sent) + bytes[old(head)..head]
        invariant sink.calls >= old(sink.calls) && !sink.Failed(old(sink.calls), sink.calls)
      {
        assert buffer[head..end] == bytes[head..end];
        ghost var before := sink.sent;
        var n := sink.Send(buffer[head..end]);
        if n < 0 {
          return n, true;
        }
        SliceOn(bytes, old(head), head, head + n);
        assert sink.sent == before + bytes[head..head + n];
        left := left - n;
        head := head + n;
        k := k + n;
      }
      failed := false;
    }

    /** Sends everything, until done or a send fails. Whatever was taken is gone from the
        buffer, in order. */
    method Refresh(sink: Sink) returns (r: int)
      requires Valid()
      modifies this`head, this`tail, sink
      ensures Valid() && sink.sent + Contents() == old(sink.sent) + old(Contents())
      ensures r != ERROR ==> Contents() == [] && head == 0 && r == |old(Contents())|
      ensures r == ERROR <==> sink.Failed(old(sink.calls), sink.calls)
    {
      hide Ring;
      ghost var bytes, sent, start := buffer[..], sink.sent, head;
      RingSize(bytes, head, tail);
      var out, failed := 0, false;
      if head < tail {
        out, failed := SendUpTo(sink, tail);
        SentOn(bytes, sent, sink.sent, start, head, tail);
        if failed {
          return out;
        }
      } else if head > tail {
        out, failed := SendUpTo(sink, buffer.Length);
        SentOn(bytes, sent, sink.sent, start, head, tail);
        if failed {
          return out;
        }
        head := 0;
        ghost var sent1 := sink.sent;
        var more;
        more, failed := SendUpTo(sink, tail);
        SentOn(bytes, sent1, sink.sent, 0, head, tail);
        if failed {
          return more;
        }
        out := out + more;
      }
      SentAll(bytes, tail);
      head, tail := 0, 0;
      r := out;
    }
  }
}
