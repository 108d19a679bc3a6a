/** How a client's byte stream is cut into packets, whatever the sizes of the receives. */
module Framing {
  import opened Bytes
  import opened DeviceSpec

  const MAX_PACKET_SIZE: nat := 32762
  const SOCKET_BUFFER_SIZE: nat := 1024

  /** SOCKET_BUFFER_SIZE doubled up to five times. */
  predicate IsBufferSize(n: nat) {
    n == 1024 || n == 2048 || n == 4096 || n == 8192 || n == 16384 || n == 32768
  }

  /** The least buffer size with room for n bytes, as long as there is one. */
  function SizeFor(n: nat): (r: nat)
    ensures IsBufferSize(r)
    ensures n <= 32768 ==> n <= r
    ensures r > SOCKET_BUFFER_SIZE ==> r < 2 * n
  {
    if n <= 1024 then 1024
    else if n <= 2048 then 2048
    else if n <= 4096 then 4096
    else if n <= 8192 then 8192
    else if n <= 16384 then 16384
    else 32768
  }

  function Longest(parts: seq<seq<byte>>): (n: nat)
    ensures forall i :: 0 <= i < |parts| ==> |parts[i]| <= n
    ensures n == 0 || exists i :: 0 <= i < |parts| && |parts[i]| == n
  {
    if parts == [] then 0
    else
      var n, last := Longest(parts[..|parts| - 1]), parts[|parts| - 1];
      assert |parts[|parts| - 1]| == |last|;
      if n <= |last| then |last| else n
  }

  /** Packets handed on so far, the bytes of an unfinished one, and whether a packet was too long. */
  datatype Frame = Frame(packets: seq<seq<byte>>, tail: seq<byte>, overflowed: bool)

  const START := Frame([], [], false)

  function FeedByte(f: Frame, b: byte): Frame {
    if f.overflowed then f
    else if |f.tail| >= MAX_PACKET_SIZE then f.(overflowed := true)
    else if b == NL then Frame(f.packets + [f.tail + [b]], [], false)
    else f.(tail := f.tail + [b])
  }

  function Feed(f: Frame, s: seq<byte>): Frame {
    if s == [] then f else FeedByte(Feed(f, s[..|s| - 1]), s[|s| - 1])
  }

  function FeedAll(f: Frame, chunks: seq<seq<byte>>): Frame
    decreases |chunks|
  {
    if chunks == [] then f else FeedAll(Feed(f, chunks[0]), chunks[1..])
  }

  /** The buffer that what was received so far has needed. */
  function SizeOf(f: Frame): nat {
    SizeFor(Longest(f.packets + [f.tail]))
  }

  lemma LongestSnoc(parts: seq<seq<byte>>, part: seq<byte>)
    ensures Longest(parts + [part]) == if Longest(parts) <= |part| then |part| else Longest(parts)
  {
    assert (parts + [part])[..|parts|] == parts;
  }

  /** A byte that finds the buffer full doubles it, and no other changes its size. */
  lemma SizeGrows(f: Frame, b: byte)
    ensures SizeOf(FeedByte(f, b)) ==
            if !f.overflowed && |f.tail| < MAX_PACKET_SIZE && |f.tail| >= SizeOf(f) then 2 * SizeOf(f) else SizeOf(f)
    ensures |f.tail| < MAX_PACKET_SIZE ==> |f.tail| <= SizeOf(f)
    ensures IsBufferSize(SizeOf(f))
  {
    hide Longest;
    LongestSnoc(f.packets, f.tail);
    LongestSnoc(f.packets, f.tail + [b]);
    LongestSnoc(f.packets + [f.tail + [b]], []);
  }

  /** Between packets, the size depends on the packets alone. */
  lemma SizeBetween(packets: seq<seq<byte>>, overflowed: bool)
    ensures SizeOf(Frame(packets, [], overflowed)) == SizeFor(Longest(packets))
  {
    hide Longest;
    LongestSnoc(packets, []);
  }

  /** The byte behind the first n makes the packet too long. */
  predicate OverflowsAt(f: Frame, s: seq<byte>, n: nat) {
    n < |s| && Feed(f, s[..n + 1]).overflowed
  }

  lemma FeedSnoc(f: Frame, s: seq<byte>, b: byte)
    ensures Feed(f, s + [b]) == FeedByte(Feed(f, s), b)
  {
    assert (s + [b])[..|s|] == s;
  }

  lemma {:induction false} FeedAppend(f: Frame, a: seq<byte>, b: seq<byte>)
    ensures Feed(f, a + b) == Feed(Feed(f, a), b)
    decreases |b|
  {
    if b == [] {
      assert a + b == a;
    } else {
      var b0 := b[..|b| - 1];
      FeedAppend(f, a, b0);
      assert a + b == (a + b0) + [b[|b| - 1]];
      FeedSnoc(f, a + b0, b[|b| - 1]);
    }
  }

  /** The packets depend only on the bytes received, not on how the receives cut them. */
  lemma {:induction false} ChunkingIndependence(f: Frame, chunks: seq<seq<byte>>)
    ensures FeedAll(f, chunks) == Feed(f, Concat(chunks))
    decreases |chunks|
  {
    if chunks == [] {
    } else {
      ChunkingIndependence(Feed(f, chunks[0]), chunks[1..]);
      FeedAppend(f, chunks[0], Concat(chunks[1..]));
    }
  }

  // ---------------------------------------------------------------- the segments of a stream

  /** The length of the first newline-terminated segment, 0 when there is none. */
  function FirstSegment(s: seq<byte>): (k: nat)
    ensures k <= |s|
    ensures k == 0 <==> NL !in s
    ensures k > 0 ==> s[k - 1] == NL && NL !in s[..k - 1]
  {
    if s == [] then 0
    else if s[0] == NL then 1
    else
      assert s == [s[0]] + s[1..];
      var k := FirstSegment(s[1..]);
      assert k > 0 ==> s[..k] == [s[0]] + s[1..][..k - 1];
      if k == 0 then 0 else k + 1
  }

  /** All newline-terminated segments in order, and the unfinished rest. */
  function Segments(s: seq<byte>): (seq<seq<byte>>, seq<byte>)
    decreases |s|
  {
    var k := FirstSegment(s);
    if k == 0 then ([], s)
    else
      var more := Segments(s[k..]);
      ([s[..k]] + more.0, more.1)
  }

  /** The segments before the first that is too long. */
  function Accepted(segments: seq<seq<byte>>): seq<seq<byte>> {
    if segments == [] || |segments[0]| > MAX_PACKET_SIZE then []
    else [segments[0]] + Accepted(segments[1..])
  }

  lemma {:induction false} FeedWithoutNewline(f: Frame, t: seq<byte>)
    requires !f.overflowed && |f.tail| <= MAX_PACKET_SIZE && NL !in t
    ensures |f.tail| + |t| <= MAX_PACKET_SIZE ==> Feed(f, t) == f.(tail := f.tail + t)
    ensures |f.tail| + |t| > MAX_PACKET_SIZE ==> Feed(f, t).overflowed && Feed(f, t).packets == f.packets
    decreases |t|
  {
    if t == [] {
      assert f.tail + t == f.tail;
    } else {
      var t0, b := t[..|t| - 1], t[|t| - 1];
      assert t == t0 + [b];
      FeedWithoutNewline(f, t0);
      assert f.tail + t == f.tail + t0 + [b];
    }
  }

  lemma {:induction false} OverflowSticks(f: Frame, s: seq<byte>)
    requires f.overflowed
    ensures Feed(f, s) == f
    decreases |s|
  {
    if s == [] {
    } else {
      OverflowSticks(f, s[..|s| - 1]);
    }
  }

  /** Between packets, the first segment becomes the next packet, or the stream ends there. */
  lemma FeedSegment(done: seq<seq<byte>>, s: seq<byte>)
    requires FirstSegment(s) > 0
    ensures var f, k := Frame(done, [], false), FirstSegment(s);
            if k <= MAX_PACKET_SIZE then Feed(f, s) == Feed(Frame(done + [s[..k]], [], false), s[k..])
            else Feed(f, s).overflowed && Feed(f, s).packets == done
  {
    hide Feed, FirstSegment;
    var f, k := Frame(done, [], false), FirstSegment(s);
    var line := s[..k - 1];
    FeedWithoutNewline(f, line);
    assert s[..k] == line + [NL];
    FeedSnoc(f, line, NL);
    assert s == s[..k] + s[k..];
    FeedAppend(f, s[..k], s[k..]);
    if k > MAX_PACKET_SIZE {
      OverflowSticks(Feed(f, s[..k]), s[k..]);
    } else {
      assert [] + line == line;
    }
  }

  lemma AcceptedCons(segment: seq<byte>, more: seq<seq<byte>>)
    ensures Accepted([segment] + more) == if |segment| > MAX_PACKET_SIZE then [] else [segment] + Accepted(more)
  {
    assert ([segment] + more)[1..] == more;
  }

  /** Fed with s, the frame ends as the segments of s say, behind the packets done before. */
  ghost predicate EndsAsSegments(f: Frame, done: seq<seq<byte>>, r: (seq<seq<byte>>, seq<byte>)) {
    && f.packets == done + Accepted(r.0)
    && (f.overflowed <==> Accepted(r.0) != r.0 || |r.1| > MAX_PACKET_SIZE)
    && (!f.overflowed ==> f.tail == r.1)
  }

  lemma EndsAsSegmentsCons(f: Frame, done: seq<seq<byte>>, segment: seq<byte>, r: (seq<seq<byte>>, seq<byte>))
    requires |segment| <= MAX_PACKET_SIZE && EndsAsSegments(f, done + [segment], r)
    ensures EndsAsSegments(f, done, ([segment] + r.0, r.1))
  {
    AcceptedCons(segment, r.0);
    assert done + [segment] + Accepted(r.0) == done + ([segment] + Accepted(r.0));
    if [segment] + Accepted(r.0) == [segment] + r.0 {
      assert ([segment] + Accepted(r.0))[1..] == ([segment] + r.0)[1..];
    }
  }

  lemma {:induction false} FeedIsSegmentsFrom(done: seq<seq<byte>>, s: seq<byte>)
    ensures EndsAsSegments(Feed(Frame(done, [], false), s), done, Segments(s))
    decreases |s|
  {
    hide Feed, Accepted;
    var k := FirstSegment(s);
    if k == 0 {
      FeedWithoutNewline(Frame(done, [], false), s);
      NothingAccepted();
      assert [] + s == s;
    } else {
      FeedSegment(done, s);
      var more := Segments(s[k..]);
      AcceptedCons(s[..k], more.0);
      if k <= MAX_PACKET_SIZE {
        FeedIsSegmentsFrom(done + [s[..k]], s[k..]);
        EndsAsSegmentsCons(Feed(Frame(done, [], false), s), done, s[..k], more);
      }
    }
  }

  lemma NothingAccepted()
    ensures Accepted([]) == []
  {
  }

  /**
    The packets of a stream are its newline-terminated segments up to the first longer than
    MAX_PACKET_SIZE; without one, the unfinished rest carries over.
   */
  lemma FeedIsSegments(s: seq<byte>)
    ensures var f, r := Feed(START, s), Segments(s);
            && f.packets == Accepted(r.0)
            && (f.overflowed <==> Accepted(r.0) != r.0 || |r.1| > MAX_PACKET_SIZE)
            && (!f.overflowed ==> f.tail == r.1)
  {
    FeedIsSegmentsFrom([], s);
    assert [] + Accepted(Segments(s).0) == Accepted(Segments(s).0);
  }

  predicate GoodPacket(p: seq<byte>) {
    IsPacket(p) && |p| <= MAX_PACKET_SIZE
  }

  /** Every packet handed on ends in its only newline and is within the size limit. */
  predicate GoodFrame(f: Frame) {
    && (forall i :: 0 <= i < |f.packets| ==> GoodPacket(f.packets[i]))
    && |f.tail| <= MAX_PACKET_SIZE && NL !in f.tail
  }

  lemma {:induction false} FeedKeepsGood(f: Frame, s: seq<byte>)
    requires GoodFrame(f)
    ensures GoodFrame(Feed(f, s))
    decreases |s|
  {
    if s == [] {
    } else {
      FeedKeepsGood(f, s[..|s| - 1]);
    }
  }
}
