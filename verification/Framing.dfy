/** Packets on a byte stream: a 4-byte total size, a 2-byte id and the payload. */
module Framing {
  import opened Sockets

  const HEADER_SIZE: int := 6
  const WORD_32: int := 0x1_0000_0000
  const WORD_16: int := 0x1_0000

  datatype Packet = Packet(id: int, payload: seq<Byte>)

  /** The most significant byte first. */
  function BigEndian16(n: int): (bytes: seq<Byte>)
    requires 0 <= n < WORD_16
    ensures |bytes| == 2 && Value16(bytes) == n
  {
    [n / 0x100, n % 0x100]
  }

  function Value16(bytes: seq<Byte>): (n: int)
    requires |bytes| == 2
    ensures 0 <= n < WORD_16
  {
    0x100 * (bytes[0] as int) + bytes[1] as int
  }

  function BigEndian32(n: int): (bytes: seq<Byte>)
    requires 0 <= n < WORD_32
    ensures |bytes| == 4 && Value32(bytes) == n
  {
    var high, low := BigEndian16(n / WORD_16), BigEndian16(n % WORD_16);
    assert (high + low)[..2] == high && (high + low)[2..] == low;
    high + low
  }

  function Value32(bytes: seq<Byte>): (n: int)
    requires |bytes| == 4
    ensures 0 <= n < WORD_32
  {
    WORD_16 * Value16(bytes[..2]) + Value16(bytes[2..])
  }

  /** The total size must fit the int that it is passed as. */
  predicate Sendable(p: Packet) { |p.payload| + HEADER_SIZE < 0x8000_0000 }

  /** The frame says its own size and the id, cut down to 16 bits, before the payload. */
  function Frame(p: Packet): (bytes: seq<Byte>)
    requires Sendable(p)
    ensures |bytes| == HEADER_SIZE + |p.payload| && Value32(bytes[..4]) == |bytes|
    ensures Value16(bytes[4..6]) == p.id % WORD_16 && bytes[HEADER_SIZE..] == p.payload
  {
    var size, id := BigEndian32(|p.payload| + HEADER_SIZE), BigEndian16(p.id % WORD_16);
    assert (size + id + p.payload)[..4] == size && (size + id + p.payload)[4..6] == id;
    size + id + p.payload
  }

  /** The bytes of all packets. */
  function Stream(ps: seq<Packet>): seq<Byte>
    requires forall i | 0 <= i < |ps| :: Sendable(ps[i])
  {
    if ps == [] then [] else Frame(ps[0]) + Stream(ps[1..])
  }

  // ---- Parsing ----

  function FrameSize(bytes: seq<Byte>): int
    requires |bytes| >= HEADER_SIZE
  {
    Value32(bytes[..4])
  }

  /** The size of a frame's contents, as the int that it is passed on as. */
  function ContentSize(bytes: seq<Byte>): int
    requires |bytes| >= HEADER_SIZE
  {
    AsInt((FrameSize(bytes) - HEADER_SIZE) % WORD_32)
  }

  function AsInt(n: int): int { if n < 0x8000_0000 then n else n - WORD_32 }

  /** A whole frame has arrived. */
  predicate Complete(bytes: seq<Byte>) {
    |bytes| >= HEADER_SIZE && HEADER_SIZE <= FrameSize(bytes) <= |bytes| && FrameSize(bytes) < HEADER_SIZE + 0x8000_0000
  }

  function First(bytes: seq<Byte>): Packet
    requires Complete(bytes)
  {
    Packet(Value16(bytes[4..6]), bytes[HEADER_SIZE..FrameSize(bytes)])
  }

  function AfterFirst(bytes: seq<Byte>): seq<Byte>
    requires Complete(bytes)
  {
    bytes[FrameSize(bytes)..]
  }

  /** All whole packets and what is left. */
  function ParseAll(bytes: seq<Byte>): (r: (seq<Packet>, seq<Byte>))
    ensures !Complete(r.1)
    decreases |bytes|
  {
    if Complete(bytes) then
      var rest := ParseAll(AfterFirst(bytes));
      ([First(bytes)] + rest.0, rest.1)
    else ([], bytes)
  }

  /** A frame at the front of a stream is parsed back; its id comes back exactly if it has
      16 bits. */
  lemma FrameRoundTrip(p: Packet, rest: seq<Byte>)
    requires Sendable(p)
    ensures Complete(Frame(p) + rest) && AfterFirst(Frame(p) + rest) == rest
    ensures First(Frame(p) + rest) == Packet(p.id % WORD_16, p.payload)
    ensures First(Frame(p) + rest) == p <==> 0 <= p.id < WORD_16
  {
    var size, id := BigEndian32(|p.payload| + HEADER_SIZE), BigEndian16(p.id % WORD_16);
    var bytes := Frame(p) + rest;
    assert bytes[..4] == size;
    assert bytes[4..6] == id;
    assert bytes[HEADER_SIZE..HEADER_SIZE + |p.payload|] == p.payload;
  }

  lemma NotParsing(bytes: seq<Byte>)
    requires !Complete(bytes)
    ensures ParseAll(bytes) == ([], bytes)
  {
  }

  lemma ParsingOn(bytes: seq<Byte>)
    requires Complete(bytes)
    ensures ParseAll(bytes) == ([First(bytes)] + ParseAll(AfterFirst(bytes)).0, ParseAll(AfterFirst(bytes)).1)
  {
  }

  lemma StreamFront(ps: seq<Packet>)
    requires ps != [] && forall i | 0 <= i < |ps| :: Sendable(ps[i])
    ensures Stream(ps) == Frame(ps[0]) + Stream(ps[1..])
  {
  }

  lemma NothingComplete()
    ensures !Complete([])
  {
  }

  ghost predicate Ids16(ps: seq<Packet>) {
    forall i | 0 <= i < |ps| :: Sendable(ps[i]) && 0 <= ps[i].id < WORD_16
  }

  /** Parsing a stream recovers exactly its packets; an unfinished frame at its end stays. */
  lemma {:induction false} StreamRoundTrip(ps: seq<Packet>, partial: seq<Byte>)
    requires Ids16(ps) && !Complete(partial)
    ensures ParseAll(Stream(ps) + partial) == (ps, partial)
  {
    hide Frame, Complete, First, AfterFirst;
    if ps == [] {
      assert [] + partial == partial;
      NotParsing(partial);
    } else {
      hide Stream, ParseAll;
      var rest := Stream(ps[1..]) + partial;
      StreamFront(ps);
      Regroup(Frame(ps[0]), Stream(ps[1..]), partial);
      FrameRoundTrip(ps[0], rest);
      ParsingOn(Stream(ps) + partial);
      StreamRoundTrip(ps[1..], partial);
      assert ps == [ps[0]] + ps[1..];
    }
  }

  /** More bytes do not change a whole frame at the front. */
  lemma CompleteMore(a: seq<Byte>, b: seq<Byte>)
    requires Complete(a)
    ensures Complete(a + b) && First(a + b) == First(a) && AfterFirst(a + b) == AfterFirst(a) + b
  {
    assert (a + b)[..4] == a[..4];
    assert (a + b)[4..6] == a[4..6];
    assert (a + b)[HEADER_SIZE..FrameSize(a)] == a[HEADER_SIZE..FrameSize(a)];
  }

  /** Parsing what has arrived and going on with the rest when more arrives gives the same
      packets as parsing everything at once. */
  lemma {:induction false} ParseChunk(a: seq<Byte>, b: seq<Byte>)
    ensures var first := ParseAll(a);
            var second := ParseAll(first.1 + b);
            ParseAll(a + b) == (first.0 + second.0, second.1)
    decreases |a|
  {
    if Complete(a) {
      CompleteMore(a, b);
      ParseChunk(AfterFirst(a), b);
      var first := ParseAll(AfterFirst(a));
      var second := ParseAll(first.1 + b);
      assert [First(a)] + first.0 + second.0 == [First(a)] + (first.0 + second.0);
    } else {
      assert [] + ParseAll(a + b).0 == ParseAll(a + b).0;
    }
  }

  /** The bytes of chunks, and parsing after each of them. */
  function Joined(chunks: seq<seq<Byte>>): seq<Byte> {
    if chunks == [] then [] else chunks[0] + Joined(chunks[1..])
  }

  function ParseChunks(kept: seq<Byte>, chunks: seq<seq<Byte>>): (seq<Packet>, seq<Byte>)
    decreases |chunks|
  {
    if chunks == [] then ([], kept)
    else
      var now := ParseAll(kept + chunks[0]);
      var later := ParseChunks(now.1, chunks[1..]);
      (now.0 + later.0, later.1)
  }

  /** However a stream is cut into chunks, the packets come out the same. */
  lemma {:induction false} AnyChunking(kept: seq<Byte>, chunks: seq<seq<Byte>>)
    requires !Complete(kept)
    ensures ParseChunks(kept, chunks) == ParseAll(kept + Joined(chunks))
    decreases |chunks|
  {
    if chunks == [] {
      assert kept + [] == kept;
    } else {
      var now := ParseAll(kept + chunks[0]);
      AnyChunking(now.1, chunks[1..]);
      ParseChunk(kept + chunks[0], Joined(chunks[1..]));
      assert kept + Joined(chunks) == kept + chunks[0] + Joined(chunks[1..]);
    }
  }

  /** What is sent arrives, under any chunking: all packets in order, and the bytes of an
      unfinished one. */
  lemma DeliveredExactly(ps: seq<Packet>, partial: seq<Byte>, chunks: seq<seq<Byte>>)
    requires Ids16(ps) && !Complete(partial) && Joined(chunks) == Stream(ps) + partial
    ensures ParseChunks([], chunks) == (ps, partial)
  {
    AnyChunking([], chunks);
    StreamRoundTrip(ps, partial);
    assert [] + Joined(chunks) == Joined(chunks);
  }

  lemma {:induction false} StreamAppend(ps: seq<Packet>, p: Packet)
    requires Sendable(p) && forall i | 0 <= i < |ps| :: Sendable(ps[i])
    ensures Stream(ps + [p]) == Stream(ps) + Frame(p)
  {
    if ps == [] {
      assert ps + [p] == [p];
      assert Stream([p]) == Frame(p) + Stream([]);
    } else {
      hide Frame;
      StreamAppend(ps[1..], p);
      assert (ps + [p])[1..] == ps[1..] + [p];
      Regroup(Frame(ps[0]), Stream(ps[1..]), Frame(p));
    }
  }

  // ---- Turn by turn ----

  /** What a turn comes to: the connection is closed; a packet is handled; a header is lost
      whose contents are not there, so that those of the packet handled are undefined; or
      bytes beyond the end of the buffers are copied. */
  datatype Outcome = Closed | Parsed(p: Packet) | Garbled(id: int) | OutOfBounds

  /** The connection goes on. */
  predicate Goes(o: Outcome) { o.Parsed? || o.Garbled? }

  /** Parsing without looking whether a whole frame is there. A packet is the first one
      exactly if a whole frame is there. Else a header that is there is lost, and if it is
      not there or states less than its own size, a negative size is used. */
  function Act(bytes: seq<Byte>): (r: (Outcome, seq<Byte>))
    ensures !r.0.Closed? && |r.1| <= |bytes|
    ensures r.0.Parsed? <==> Complete(bytes)
    ensures Complete(bytes) ==> r == (Parsed(First(bytes)), AfterFirst(bytes))
    ensures r.0.OutOfBounds? <==> |bytes| < HEADER_SIZE || ContentSize(bytes) < 0
    ensures Goes(r.0) ==> |r.1| + HEADER_SIZE <= |bytes|
  {
    if |bytes| < HEADER_SIZE then (OutOfBounds, bytes)
    else
      SizeCases(bytes);
      var id, n := Value16(bytes[4..6]), ContentSize(bytes);
      if n < 0 then (OutOfBounds, bytes)
      else if n > |bytes| - HEADER_SIZE then (Garbled(id), bytes[HEADER_SIZE..])
      else (Parsed(Packet(id, bytes[HEADER_SIZE..HEADER_SIZE + n])), bytes[HEADER_SIZE + n..])
  }

  /** A content size that is not negative and not too large is that of a whole frame. */
  lemma SizeCases(bytes: seq<Byte>)
    requires |bytes| >= HEADER_SIZE
    ensures Complete(bytes) <==> 0 <= ContentSize(bytes) <= |bytes| - HEADER_SIZE
    ensures Complete(bytes) ==> ContentSize(bytes) == FrameSize(bytes) - HEADER_SIZE
  {
    hide Value32;
  }

  /** Whatever is read first of a frame without its end is not parsed: its header is lost,
      or if that is not whole, bytes beyond the end of the buffers are copied. */
  lemma CutFrame(p: Packet, piece: seq<Byte>)
    requires Sendable(p) && piece < Frame(p)
    ensures !Complete(piece)
    ensures |piece| < HEADER_SIZE ==> Act(piece).0 == OutOfBounds
    ensures |piece| >= HEADER_SIZE ==> Act(piece) == (Garbled(p.id % WORD_16), piece[HEADER_SIZE..])
  {
    hide Value32, Value16;
    var frame := Frame(p);
    if |piece| >= HEADER_SIZE {
      assert piece[..4] == frame[..4] && piece[4..6] == frame[4..6];
    }
  }

  /** The turns of the loop in which chunks were read, starting with some bytes kept. */
  function Loop(kept: seq<Byte>, chunks: seq<seq<Byte>>): (r: (seq<Outcome>, seq<Byte>))
    ensures |r.0| == |chunks|
    decreases |chunks|
  {
    if chunks == [] then ([], kept)
    else
      var before := Loop(kept, chunks[..|chunks| - 1]);
      var now := Act(before.1 + chunks[|chunks| - 1]);
      (before.0 + [now.0], now.1)
  }

  lemma LoopOn(kept: seq<Byte>, chunks: seq<seq<Byte>>, chunk: seq<Byte>)
    ensures var before := Loop(kept, chunks);
            var now := Act(before.1 + chunk);
            Loop(kept, chunks + [chunk]) == (before.0 + [now.0], now.1)
  {
    assert (chunks + [chunk])[..|chunks|] == chunks;
  }

  lemma LoopBack(kept: seq<Byte>, chunks: seq<seq<Byte>>)
    ensures chunks != [] ==> var n := |chunks| - 1; Loop(kept, chunks).0[..n] == Loop(kept, chunks[..n]).0
  {
  }

  lemma {:induction false} JoinedOn(chunks: seq<seq<Byte>>, chunk: seq<Byte>)
    ensures Joined(chunks + [chunk]) == Joined(chunks) + chunk
  {
    if chunks == [] {
      assert chunks + [chunk] == [chunk];
      assert Joined([chunk]) == chunk + Joined([]);
    } else {
      JoinedOn(chunks[1..], chunk);
      assert (chunks + [chunk])[1..] == chunks[1..] + [chunk];
      assert chunks[0] + (Joined(chunks[1..]) + chunk) == chunks[0] + Joined(chunks[1..]) + chunk;
    }
  }

  predicate AllParsed(outcomes: seq<Outcome>) {
    forall i | 0 <= i < |outcomes| :: outcomes[i].Parsed?
  }

  /** The outcomes are the first of these packets, in order. */
  predicate Takes(outcomes: seq<Outcome>, ps: seq<Packet>) {
    |outcomes| <= |ps| && forall i | 0 <= i < |outcomes| :: outcomes[i] == Parsed(ps[i])
  }

  /** If every turn took a packet, these are the first packets of all bytes, in order, and
      those still to come are the others. */
  lemma {:induction false} LoopExact(kept: seq<Byte>, chunks: seq<seq<Byte>>, rest: seq<Byte>)
    requires AllParsed(Loop(kept, chunks).0)
    ensures var r, all := Loop(kept, chunks), ParseAll(kept + Joined(chunks) + rest);
            Takes(r.0, all.0) && ParseAll(r.1 + rest) == (all.0[|chunks|..], all.1)
    decreases |chunks|
  {
    if chunks == [] {
      assert kept + Joined(chunks) + rest == kept + rest;
    } else {
      hide ParseAll, Act, Joined, Complete, Loop;
      var n := |chunks| - 1;
      var before, chunk := Loop(kept, chunks[..n]), chunks[n];
      assert chunks == chunks[..n] + [chunk];
      LoopOn(kept, chunks[..n], chunk);
      assert AllParsed(before.0) by {
        assert forall i | 0 <= i < n :: before.0[i] == Loop(kept, chunks).0[i];
      }
      JoinedOn(chunks[..n], chunk);
      LoopExact(kept, chunks[..n], chunk + rest);
      Regroup(kept, Joined(chunks[..n]), chunk);
      Regroup(kept + Joined(chunks[..n]), chunk, rest);
      Regroup(before.1, chunk, rest);
      assert Loop(kept, chunks).0[n].Parsed?;
      ActExact(before.1 + chunk, rest);
      OneMoreTaken(before.0, Act(before.1 + chunk).0, ParseAll(kept + Joined(chunks) + rest).0);
    }
  }

  lemma ActExact(bytes: seq<Byte>, rest: seq<Byte>)
    requires Act(bytes).0.Parsed?
    ensures var now := Act(bytes);
            var all, later := ParseAll(bytes + rest), ParseAll(now.1 + rest);
            all.0 != [] && now.0 == Parsed(all.0[0]) && later == (all.0[1..], all.1)
  {
    CompleteMore(bytes, rest);
  }

  lemma OneMoreTaken(outcomes: seq<Outcome>, o: Outcome, ps: seq<Packet>)
    requires Takes(outcomes, ps) && |outcomes| < |ps| && o == Parsed(ps[|outcomes|])
    ensures Takes(outcomes + [o], ps) && ps[|outcomes|..][0] == ps[|outcomes|] && ps[|outcomes|..][1..] == ps[|outcomes| + 1..]
  {
  }

  /** After every read at least as many packets have arrived as there were reads. */
  ghost predicate Timely(kept: seq<Byte>, chunks: seq<seq<Byte>>) {
    forall i | 0 <= i <= |chunks| :: |ParseAll(kept + Joined(chunks[..i])).0| >= i
  }

  /** Every turn takes a packet exactly if after every read at least as many packets have
      arrived as there were reads. */
  lemma {:induction false} LoopTimely(kept: seq<Byte>, chunks: seq<seq<Byte>>)
    ensures AllParsed(Loop(kept, chunks).0) <==> Timely(kept, chunks)
    decreases |chunks|
  {
    if chunks != [] {
      var n := |chunks| - 1;
      var before, chunk := Loop(kept, chunks[..n]), chunks[n];
      assert chunks == chunks[..n] + [chunk] == chunks[..n + 1];
      LoopTimely(kept, chunks[..n]);
      TimelyOn(kept, chunks);
      ParsedOn(kept, chunks);
      if AllParsed(before.0) {
        hide ParseAll, Act, Joined, Loop, Timely, AllParsed, Takes;
        JoinedOn(chunks[..n], chunk);
        LoopExact(kept, chunks[..n], chunk);
        Regroup(kept, Joined(chunks[..n]), chunk);
        TakesAtMost(before.0, ParseAll(kept + Joined(chunks)).0);
        SomeParsed(before.1 + chunk);
      }
    }
  }

  lemma TakesAtMost(outcomes: seq<Outcome>, ps: seq<Packet>)
    requires Takes(outcomes, ps)
    ensures |outcomes| <= |ps| && |ps[|outcomes|..]| == |ps| - |outcomes|
  {
  }

  lemma SomeParsed(bytes: seq<Byte>)
    ensures Act(bytes).0.Parsed? <==> |ParseAll(bytes).0| > 0
  {
  }

  lemma TimelyOn(kept: seq<Byte>, chunks: seq<seq<Byte>>)
    requires chunks != []
    ensures Timely(kept, chunks) <==>
      Timely(kept, chunks[..|chunks| - 1]) && |ParseAll(kept + Joined(chunks)).0| >= |chunks|
  {
    hide ParseAll, Joined;
    var n := |chunks| - 1;
    assert chunks[..n + 1] == chunks;
    assert forall i | 0 <= i <= n :: chunks[..n][..i] == chunks[..i];
    if Timely(kept, chunks[..n]) && |ParseAll(kept + Joined(chunks)).0| >= n + 1 {
      forall i | 0 <= i <= n + 1 ensures |ParseAll(kept + Joined(chunks[..i])).0| >= i {
        if i <= n {
          assert |ParseAll(kept + Joined(chunks[..n][..i])).0| >= i;
        }
      }
    }
    if Timely(kept, chunks) {
      assert |ParseAll(kept + Joined(chunks[..n + 1])).0| >= n + 1;
      forall i | 0 <= i <= n ensures |ParseAll(kept + Joined(chunks[..n][..i])).0| >= i {
        assert |ParseAll(kept + Joined(chunks[..i])).0| >= i;
      }
    }
  }

  lemma ParsedOn(kept: seq<Byte>, chunks: seq<seq<Byte>>)
    requires chunks != []
    ensures var before, n := Loop(kept, chunks[..|chunks| - 1]), |chunks| - 1;
            AllParsed(Loop(kept, chunks).0) <==> AllParsed(before.0) && Act(before.1 + chunks[n]).0.Parsed?
  {
    hide Act;
    var before, n := Loop(kept, chunks[..|chunks| - 1]), |chunks| - 1;
    assert Loop(kept, chunks).0 == before.0 + [Act(before.1 + chunks[n]).0];
    assert Loop(kept, chunks).0[n] == Act(before.1 + chunks[n]).0;
    assert forall i | 0 <= i < n :: Loop(kept, chunks).0[i] == before.0[i];
  }

  /** No more than half of the input's maximum is to be read in all. */
  predicate Modest(kept: seq<Byte>, pending: seq<Byte>, arrivals: seq<seq<Byte>>) {
    2 * (|kept| + |pending| + |Joined(arrivals)|) + 2 <= INPUT_MAX_SIZE
  }

  /** After t turns: what was read, what it came to, and what is left. */
  ghost predicate Kept(kept: seq<Byte>, pending: seq<Byte>, arrivals: seq<seq<Byte>>, t: nat,
                       outcomes: seq<Outcome>, contents: seq<Byte>, read: seq<seq<Byte>>, left: seq<Byte>)
  {
    && t <= |arrivals| && |read| == t
    && (forall i | 0 <= i < t :: read[i] != [])
    && (outcomes, contents) == Loop(kept, read)
    && Joined(read) + left == pending + Joined(arrivals[..t])
  }

  lemma NoTurns(kept: seq<Byte>, pending: seq<Byte>, arrivals: seq<seq<Byte>>)
    ensures Kept(kept, pending, arrivals, 0, [], kept, [], pending)
  {
    assert Joined([]) + pending == pending == pending + Joined(arrivals[..0]);
  }

  /** One turn reads on. */
  lemma ReadOn(kept: seq<Byte>, pending: seq<Byte>, arrivals: seq<seq<Byte>>, t: nat,
               outcomes: seq<Outcome>, contents: seq<Byte>, read: seq<seq<Byte>>, left: seq<Byte>,
               chunk: seq<Byte>, left': seq<Byte>)
    requires Kept(kept, pending, arrivals, t, outcomes, contents, read, left) && t < |arrivals|
    requires left + arrivals[t] == chunk + left'
    ensures Joined(read + [chunk]) + left' == pending + Joined(arrivals[..t + 1])
    ensures Loop(kept, read + [chunk]) == (outcomes + [Act(contents + chunk).0], Act(contents + chunk).1)
  {
    hide Loop, Joined, Act;
    LoopOn(kept, read, chunk);
    JoinedOn(read, chunk);
    JoinedOn(arrivals[..t], arrivals[t]);
    assert arrivals[..t + 1] == arrivals[..t] + [arrivals[t]];
    Regroup(Joined(read), chunk, left');
    Regroup(Joined(read), left, arrivals[t]);
    Regroup(pending, Joined(arrivals[..t]), arrivals[t]);
  }

  /** What is there after some turns is no more than what there is in all. */
  lemma Within(kept: seq<Byte>, pending: seq<Byte>, arrivals: seq<seq<Byte>>, t: nat,
               outcomes: seq<Outcome>, contents: seq<Byte>, read: seq<seq<Byte>>, left: seq<Byte>)
    requires Kept(kept, pending, arrivals, t, outcomes, contents, read, left) && t < |arrivals|
    ensures |contents| + |left + arrivals[t]| <= |kept| + |pending| + |Joined(arrivals)|
  {
    hide Loop, Joined;
    LoopShrinks(kept, read);
    JoinedPart(arrivals, t + 1);
    JoinedOn(arrivals[..t], arrivals[t]);
    assert arrivals[..t + 1] == arrivals[..t] + [arrivals[t]];
    assert |Joined(read)| + |left| == |pending| + |Joined(arrivals[..t])|;
  }

  lemma {:induction false} LoopShrinks(kept: seq<Byte>, chunks: seq<seq<Byte>>)
    ensures |Loop(kept, chunks).1| <= |kept| + |Joined(chunks)|
    decreases |chunks|
  {
    if chunks != [] {
      hide Act;
      var n := |chunks| - 1;
      LoopShrinks(kept, chunks[..n]);
      JoinedOn(chunks[..n], chunks[n]);
      assert chunks == chunks[..n] + [chunks[n]];
    }
  }

  lemma {:induction false} JoinedPart(chunks: seq<seq<Byte>>, t: nat)
    requires t <= |chunks|
    ensures exists rest :: Joined(chunks) == Joined(chunks[..t]) + rest
    decreases |chunks| - t
  {
    if t == |chunks| {
      assert chunks[..t] == chunks;
      assert Joined(chunks) == Joined(chunks[..t]) + [];
    } else {
      JoinedPart(chunks, t + 1);
      var rest :| Joined(chunks) == Joined(chunks[..t + 1]) + rest;
      JoinedOn(chunks[..t], chunks[t]);
      assert chunks[..t + 1] == chunks[..t] + [chunks[t]];
      Regroup(Joined(chunks[..t]), chunks[t], rest);
    }
  }

  /** Packets taken turn by turn are the first of all that were sent. */
  lemma TakenOfAll(kept: seq<Byte>, pending: seq<Byte>, arrivals: seq<seq<Byte>>, read: seq<seq<Byte>>, left: seq<Byte>)
    requires |read| <= |arrivals| && Joined(read) + left == pending + Joined(arrivals[..|read|])
    requires AllParsed(Loop(kept, read).0)
    ensures Takes(Loop(kept, read).0, ParseAll(kept + pending + Joined(arrivals)).0)
  {
    hide Loop, Joined, ParseAll, Takes, AllParsed;
    JoinedPart(arrivals, |read|);
    var rest :| Joined(arrivals) == Joined(arrivals[..|read|]) + rest;
    LoopExact(kept, read, left + rest);
    Regroup(Joined(read), left, rest);
    Regroup(pending, Joined(arrivals[..|read|]), rest);
    Regroup(kept, Joined(read), left + rest);
    Regroup(kept, pending, Joined(arrivals));
  }

  // ---- What is sent and what is received ----

  /** After every read at least the bytes of as many packets have arrived as there were
      reads, and there were no more reads than packets. */
  ghost predicate Paced(ps: seq<Packet>, read: seq<seq<Byte>>)
    requires forall i | 0 <= i < |ps| :: Sendable(ps[i])
  {
    |read| <= |ps| && forall i | 0 <= i <= |read| :: |Joined(read[..i])| >= |Stream(ps[..i])|
  }

  /** Of a part of a stream at least i packets are parsed exactly if it has their bytes. */
  lemma {:induction false} PartOfStream(ps: seq<Packet>, part: seq<Byte>, i: nat)
    requires Ids16(ps) && part <= Stream(ps)
    ensures |ParseAll(part).0| >= i <==> i <= |ps| && |part| >= |Stream(ps[..i])|
  {
    hide Frame, Complete, First, AfterFirst;
    if ps == [] {
      NothingComplete();
    } else if i > 0 {
      hide Stream, ParseAll;
      var frame, later := Frame(ps[0]), ps[1..];
      StreamFront(ps);
      if i <= |ps| {
        assert ps[..i][0] == ps[0] && ps[..i][1..] == later[..i - 1];
        StreamFront(ps[..i]);
      }
      if |part| < |frame| {
        assert part == frame[..|part|];
        CutFrame(ps[0], part);
        NotParsing(part);
      } else {
        var rest := part[|frame|..];
        assert part == frame + rest;
        FrameRoundTrip(ps[0], rest);
        ParsingOn(part);
        PartOfStream(later, rest, i - 1);
      }
    }
  }

  /** Packets written by SendAll and read turn by turn by a new connection: every turn takes
      a packet exactly if the reads are paced, and then these are the first packets sent, in
      order, and the bytes left are those of the others. */
  lemma SentIsReceived(ps: seq<Packet>, read: seq<seq<Byte>>, left: seq<Byte>)
    requires Ids16(ps) && Joined(read) + left == Stream(ps)
    ensures AllParsed(Loop([], read).0) <==> Paced(ps, read)
    ensures Paced(ps, read) ==>
      Takes(Loop([], read).0, ps) && ParseAll(Loop([], read).1 + left) == (ps[|read|..], [])
  {
    hide Loop, Joined, Stream, ParseAll, AllParsed, Takes;
    LoopTimely([], read);
    forall i | 0 <= i <= |read|
      ensures |ParseAll([] + Joined(read[..i])).0| >= i <==> i <= |ps| && |Joined(read[..i])| >= |Stream(ps[..i])|
    {
      JoinedPart(read, i);
      assert [] + Joined(read[..i]) == Joined(read[..i]);
      PartOfStream(ps, Joined(read[..i]), i);
    }
    if Timely([], read) {
      assert |ParseAll([] + Joined(read[..|read|])).0| >= |read|;
      forall i | 0 <= i <= |read| ensures |Joined(read[..i])| >= |Stream(ps[..i])| {
        assert |ParseAll([] + Joined(read[..i])).0| >= i;
      }
    }
    if Paced(ps, read) {
      LoopExact([], read, left);
      NothingComplete();
      StreamRoundTrip(ps, []);
      assert [] + Joined(read) + left == Stream(ps) + [];
    }
  }

  /** A packet as long as the input's maximum. */
  const LONG_PACKET: Packet := Packet(1, seq(INPUT_MAX_SIZE, i => 0))

  // ---- The connector ----

  class Connector {
    const input: SocketInput
    const output: SocketOutput

    constructor ()
      ensures fresh(input) && fresh(output) && fresh(input.buffer) && fresh(output.buffer)
      ensures input.Valid() && output.Valid() && output.head == 0 && input.Contents() == [] == output.Contents()
      ensures input.GetShape() == Shape(INPUT_SIZE, 0, 0) && Open()
    {
      input := new SocketInput();
      output := new SocketOutput();
    }

    /** Lays out a packet's size, id and payload. */
    static method Message(p: Packet) returns (message: array<Byte>)
      requires Sendable(p)
      ensures fresh(message) && message[..] == Frame(p)
    {
      var total := |p.payload| + HEADER_SIZE;
      var size, id := BigEndian32(total), BigEndian16(p.id % WORD_16);
      hide BigEndian32, BigEndian16, Written;
      message := new Byte[total](_ => 0);
      CopyFrom(message, 0, size);
      CopyFrom(message, 4, id);
      CopyFrom(message, HEADER_SIZE, p.payload);
      assert message[0..4] == size && message[4..6] == id && message[6..total] == p.payload;
      assert message[..] == message[0..4] + message[4..6] + message[6..total];
    }

    /** Appends a packet's frame to the output. */
    method SendPacket(p: Packet) returns (overrun: bool)
      requires output.Valid() && Sendable(p)
      modifies output, output.buffer
      ensures overrun <==> !old(output.InBounds(|Frame(p)|))
      ensures overrun ==> unchanged(output) && unchanged(output.buffer)
      ensures !overrun ==>
        && output.Valid() && (output.buffer == old(output.buffer) || fresh(output.buffer))
        && output.Contents() == old(output.Contents()) + Frame(p) && (old(output.head) == 0 ==> output.head == 0)
    {
      hide Frame, Ring;
      var message := Message(p);
      var written;
      written, overrun := output.Write(message[..]);
    }

    /** Sends packets one after the other. As long as the contents are at the front of the
        output, the bytes written are exactly their stream. */
    method SendAll(ps: seq<Packet>)
      requires output.Valid() && output.head == 0 && forall i | 0 <= i < |ps| :: Sendable(ps[i])
      modifies output, output.buffer
      ensures output.Valid() && output.head == 0 && (output.buffer == old(output.buffer) || fresh(output.buffer))
      ensures output.Contents() == old(output.Contents()) + Stream(ps)
    {
      hide Frame, Ring, Stream;
      NoStream();
      assert output.Contents() + [] == output.Contents();
      for i := 0 to |ps|
        invariant output.Valid() && output.head == 0 && (output.buffer == old(output.buffer) || fresh(output.buffer))
        invariant output.Contents() == old(output.Contents()) + Stream(ps[..i])
      {
        output.FrontInBounds(|Frame(ps[i])|);
        StreamAppend(ps[..i], ps[i]);
        assert ps[..i + 1] == ps[..i] + [ps[i]];
        var _ := SendPacket(ps[i]);
      }
      assert ps[..|ps|] == ps;
    }

    static lemma NoStream()
      ensures Stream([]) == []
    {
    }

    /** Fetches n bytes that are there. */
    method Take(n: int) returns (bytes: seq<Byte>)
      requires input.Valid() && 0 <= n <= |input.Contents()|
      modifies input`head
      ensures input.Valid() && bytes == old(input.Contents())[..n] && input.Contents() == old(input.Contents())[n..]
    {
      hide Ring;
      var out := new Byte[n](_ => 0);
      input.Fetch(out, n);
      bytes := out[..n];
    }

    /** Between turns the input has room. */
    ghost predicate Open()
      reads this, input, input.buffer
    {
      input.Valid() && |input.Contents()| + HEADER_SIZE < input.buffer.Length
    }

    /** Parses without looking whether a whole frame is there. */
    method ExecParse() returns (r: Outcome)
      requires input.Valid()
      modifies input`head
      ensures input.Valid() && r == Act(old(input.Contents())).0
      ensures Goes(r) ==> input.Contents() == Act(old(input.Contents())).1
    {
      hide Value32, Value16, Ring;
      if input.Length() < HEADER_SIZE {
        // Nothing is fetched, and the size of all zero bytes is 0.
        return OutOfBounds;
      }
      ghost var bytes := input.Contents();
      HeaderParts(bytes);
      var header := Take(HEADER_SIZE);
      var size := Value32(header[..4]);
      var id := Value16(header[4..]);
      var contentSize := AsInt((size - HEADER_SIZE) % WORD_32);
      if contentSize < 0 {
        return OutOfBounds;
      }
      if contentSize > input.Length() {
        return Garbled(id);
      }
      ContentParts(bytes, contentSize);
      var content := Take(contentSize);
      r := Parsed(Packet(id, content));
    }

    static lemma HeaderParts(bytes: seq<Byte>)
      requires |bytes| >= HEADER_SIZE
      ensures bytes[..HEADER_SIZE][..4] == bytes[..4] && bytes[..HEADER_SIZE][4..] == bytes[4..6]
    {
    }

    static lemma ContentParts(bytes: seq<Byte>, n: int)
      requires 0 <= n <= |bytes| - HEADER_SIZE
      ensures bytes[HEADER_SIZE..][..n] == bytes[HEADER_SIZE..HEADER_SIZE + n] && bytes[HEADER_SIZE..][n..] == bytes[HEADER_SIZE + n..]
    {
    }

    /** One turn of the loop: reads, closes the connection if that fails or nothing is
        there, and else parses. The input is never found full: parsing takes a header off
        or leaves the buffers. After a reset nothing is there to parse. */
    method Turn(source: Source) returns (outcome: Outcome, ghost chunk: seq<Byte>)
      requires Open()
      modifies input, input.buffer, source
      ensures input.Valid() && (input.buffer == old(input.buffer) || fresh(input.buffer))
      ensures source.calls >= old(source.calls)
      ensures Goes(outcome) ==> Open()
      ensures var kept, pending, shape := old(input.Contents()), old(source.pending), old(input.GetShape());
        && pending == chunk + source.pending
        && (outcome.Closed? <==> source.Failed(old(source.calls), source.calls) || pending == [])
        && (outcome.Closed? ==> input.Contents() == kept + chunk)
        && (!outcome.Closed? ==> chunk != [])
        && (Goes(outcome) ==> (outcome, input.Contents()) == Act(kept + chunk))
        && (!outcome.Closed? && !Overflows(shape, |pending|) ==> outcome == Act(kept + chunk).0)
        && (source.Eager(|pending|) && Overflows(shape, |pending|) ==>
              outcome == OutOfBounds && source.pending == pending[FirstRead(shape)..])
        && (source.Eager(|pending|) && !Overflows(shape, |pending|) ==> |source.pending| == Unread(shape, |pending|))
    {
      hide Act, Ring, Overflows, Unread;
      ghost var kept, pending := input.Contents(), source.pending;
      input.LengthBound();
      var r := input.Feed(source);
      chunk := pending[..|pending| - |source.pending|];
      if r == 0 || r == ERROR {
        return Closed, chunk;
      }
      input.LengthBound();
      ParsedNothing();
      outcome := ExecParse();
      input.LengthBound();
    }

    static lemma ParsedNothing()
      ensures Act([]).0 == OutOfBounds
    {
    }

    /** The loop, with more bytes arriving before each turn, until the connection is closed
        or bytes beyond the end of the buffers are copied. It is closed exactly if a read
        fails or finds nothing. What the turns come to is what parsing without a guard
        makes of the bytes read; at the end only as long as no more than half of the
        input's maximum is to be read in all. If every turn takes a packet, these are the
        first of all packets, in order. */
    method Receive(source: Source, arrivals: seq<seq<Byte>>) returns (outcomes: seq<Outcome>, ghost read: seq<seq<Byte>>)
      requires Open()
      modifies input, input.buffer, source
      ensures input.Valid() && source.calls >= old(source.calls)
      ensures |read| == |outcomes| <= |arrivals|
      ensures forall i | 0 <= i < |outcomes| - 1 :: Goes(outcomes[i])
      ensures Joined(read) + source.pending == old(source.pending) + Joined(arrivals[..|read|])
      ensures var kept, pending, n := old(input.Contents()), old(source.pending), |outcomes| - 1;
        && (n < |arrivals| - 1 ==> n >= 0 && !Goes(outcomes[n]))
        && (n < 0 || Goes(outcomes[n]) ==> Open() && (outcomes, input.Contents()) == Loop(kept, read))
        && (n >= 0 ==> outcomes[..n] == Loop(kept, read[..n]).0)
        && (n >= 0 && outcomes[n].Closed? ==> input.Contents() == Loop(kept, read[..n]).1 + read[n])
        && (n >= 0 && outcomes[n].OutOfBounds? && Modest(kept, pending, arrivals) ==> outcomes == Loop(kept, read).0)
        && (n >= 0 && outcomes[n].Closed? <==>
              source.Failed(old(source.calls), source.calls) || (n >= 0 && read[n] == [] && source.pending == []))
        && (AllParsed(outcomes) ==> Timely(kept, read) && Takes(outcomes, ParseAll(kept + pending + Joined(arrivals)).0))
        && (Modest(kept, pending, arrivals) && Timely(kept, read) && (n >= 0 ==> !outcomes[n].Closed?) ==> AllParsed(outcomes))
    {
      hide Act, ParseAll, Ring, Overflows, Joined, Loop, Timely, Takes, AllParsed;
      ghost var kept, pending := input.Contents(), source.pending;
      outcomes, read := [], [];
      NoTurns(kept, pending, arrivals);
      for t := 0 to |arrivals|
        invariant Open() && (input.buffer == old(input.buffer) || fresh(input.buffer))
        invariant source.calls >= old(source.calls) && !source.Failed(old(source.calls), source.calls)
        invariant forall i | 0 <= i < |outcomes| :: Goes(outcomes[i])
        invariant Kept(kept, pending, arrivals, t, outcomes, input.Contents(), read, source.pending)
      {
        ghost var contents, left, calls := input.Contents(), source.pending, source.calls;
        source.Arrive(arrivals[t]);
        if Modest(kept, pending, arrivals) {
          Within(kept, pending, arrivals, t, outcomes, contents, read, left);
          input.HalfFits(|source.pending|);
        }
        var o;
        ghost var chunk;
        o, chunk := Turn(source);
        ReadOn(kept, pending, arrivals, t, outcomes, contents, read, left, chunk, source.pending);
        ghost var outcomes0, read0 := outcomes, read;
        outcomes, read := outcomes + [o], read + [chunk];
        assert outcomes[..t] == outcomes0 && read[..t] == read0;
        if !Goes(o) {
          NotParsed(outcomes);
          LoopTimely(kept, read);
          return;
        }
      }
      LoopTimely(kept, read);
      LoopBack(kept, read);
      if AllParsed(outcomes) {
        TakenOfAll(kept, pending, arrivals, read, source.pending);
      }
    }

    static lemma NotParsed(outcomes: seq<Outcome>)
      requires outcomes != [] && !Goes(outcomes[|outcomes| - 1])
      ensures !AllParsed(outcomes)
    {
    }
  }

  /** A packet as long as the input's maximum, sent to a new connection that reads all it
      asks for, is lost: the input is reset, and nothing is there to parse. */
  method PacketLost() returns (outcome: Outcome)
    ensures ParseAll(Frame(LONG_PACKET)) == ([LONG_PACKET], []) && outcome == OutOfBounds
  {
    hide Frame, ParseAll, Act;
    var c := new Connector();
    var source := new Source(i => INPUT_MAX_SIZE + HEADER_SIZE);
    var frame := Frame(LONG_PACKET);
    source.Arrive(frame);
    assert source.pending == frame && |frame| == INPUT_MAX_SIZE + HEADER_SIZE;
    LongAlone();
    ghost var chunk;
    outcome, chunk := c.Turn(source);
  }

  lemma LongAlone()
    ensures ParseAll(Frame(LONG_PACKET)) == ([LONG_PACKET], [])
  {
    FrameRoundTrip(LONG_PACKET, []);
    assert Frame(LONG_PACKET) + [] == Frame(LONG_PACKET);
    assert [LONG_PACKET] + [] == [LONG_PACKET];
  }
}
