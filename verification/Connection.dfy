/** The receive loop of one client and its packet buffer (aesdsocket_client.c:107-133, 311-377). */
module Connection {
  import opened Bytes
  import opened Positions
  import opened CharDevice
  import opened Stdio
  import opened Framing
  import opened SeekPacket
  import opened ServerSpec
  import opened ClientHandler

  const UINT16_RANGE: nat := 0x1_0000

  /** The outcome of a connection's n-th realloc; behind the end they succeed. */
  predicate ReallocAt(reallocs: seq<bool>, n: nat) {
    n < |reallocs| ==> reallocs[n]
  }

  /** SOCKET_BUFFER_SIZE doubled n times. */
  function Doubled(n: nat): nat {
    if n == 0 then SOCKET_BUFFER_SIZE else 2 * Doubled(n - 1)
  }

  /** The calls of realloc up to the n-th have succeeded, and have brought the buffer to this size. */
  ghost predicate Grown(reallocs: seq<bool>, n: nat, size: nat) {
    (forall i :: 0 <= i < n ==> ReallocAt(reallocs, i)) && size == Doubled(n)
  }

  class Client {
    const sock: Socket
    const around: seq<Surroundings>  // of its packets
    const reallocs: seq<bool>        // whether they succeed
    var packet: array<byte>
    var packetIndex: nat
    var packetSize: nat
    var grown: nat                   // calls of realloc
    var turn: nat                    // packets served
    ghost var served: seq<Served>

    ghost predicate Valid()
      reads this, packet
    {
      && packet.Length == packetSize
      && IsBufferSize(packetSize)
      && packetIndex <= packetSize
      && packetIndex <= MAX_PACKET_SIZE
      && NL !in packet[..packetIndex]
    }

    ghost function FrameOf(): Frame
      requires Valid()
      reads this, packet
    {
      Frame(Packets(served), packet[..packetIndex], false)
    }

    /** The packets served so far make a conversation, from the log it began with to this one. */
    ghost predicate InConversation(first: seq<seq<byte>>, log: seq<seq<byte>>)
      reads this`served, this`turn, sock
    {
      && turn == |served| && OthersGood(around)
      && Conversation(first, served, around, sock.script, log, sock.sent, sock.calls)
    }

    /** Nothing has failed so far, and the buffer has just the size that the packets have needed. */
    ghost predicate Smooth()
      requires Valid()
      reads this, packet
    {
      AllWhole(served) && Grown(reallocs, grown, packetSize) && packetSize == SizeOf(FrameOf())
    }

    constructor (sock: Socket, around: seq<Surroundings>, reallocs: seq<bool>)
      ensures Valid() && FrameOf() == START && served == [] && turn == 0 && Smooth()
      ensures this.sock == sock && this.around == around && this.reallocs == reallocs && fresh(packet)
    {
      this.sock, this.around, this.reallocs := sock, around, reallocs;
      packet := new byte[SOCKET_BUFFER_SIZE];
      packetIndex, packetSize, grown, turn := 0, SOCKET_BUFFER_SIZE, 0, 0;
      served := [];
    }

    /** The last call of realloc has failed, the first to do so, at a byte that found the buffer full. */
    ghost predicate OutOfMemory()
      requires Valid()
      reads this, packet
    {
      && 0 < grown && !ReallocAt(reallocs, grown - 1)
      && Grown(reallocs, grown - 1, packetSize)
      && packetIndex == packetSize == SizeOf(FrameOf())
      && AllWhole(served)
    }

    /** ensure_packet_capacity: the doubled 16-bit size never wraps and stays the allocated size. */
    method EnsurePacketCapacity() returns (ok: bool)
      requires Valid()
      modifies this`packet, this`packetSize, this`grown
      ensures Valid() && FrameOf() == old(FrameOf())
      ensures packet == old(packet) || fresh(packet)
      ensures grown == if packetIndex == old(packetSize) && packetIndex < MAX_PACKET_SIZE then old(grown) + 1
                       else old(grown)
      ensures ok <==> packetIndex < MAX_PACKET_SIZE
                      && (packetIndex < old(packetSize) || ReallocAt(reallocs, old(grown)))
      ensures ok ==> packetIndex < packetSize
      ensures packetSize == if ok && packetIndex == old(packetSize) then old(packetSize) * 2 else old(packetSize)
    {
      ok := true;
      if packetIndex >= packetSize && packetIndex < MAX_PACKET_SIZE {
        var reallocSucceeds := grown >= |reallocs| || reallocs[grown];
        grown := grown + 1;
        if reallocSucceeds {
          var newPacket := new byte[packetSize * 2];
          forall i | 0 <= i < packetSize {
            newPacket[i] := packet[i];
          }
          assert newPacket[..packetIndex] == packet[..packetIndex];
          packet := newPacket;
          packetSize := (packetSize * 2) % UINT16_RANGE;
        } else {
          ok := false;
        }
      } else if packetIndex >= MAX_PACKET_SIZE {
        ok := false;
      }
    }

    /** The capacity check ahead of a byte: what has failed, when it fails, and else room for the byte. */
    method MakeRoom(b: byte) returns (ok: bool)
      requires Valid() && Smooth()
      modifies this`packet, this`packetSize, this`grown
      ensures Valid() && FrameOf() == old(FrameOf())
      ensures packet == old(packet) || fresh(packet)
      ensures ok ==> packetIndex < packetSize && packetIndex < MAX_PACKET_SIZE
      ensures ok ==> Grown(reallocs, grown, packetSize) && packetSize == SizeOf(FeedByte(FrameOf(), b))
      ensures !ok ==> OutOfMemory() || FeedByte(FrameOf(), b).overflowed
    {
      hide SizeOf, Packets;
      FrameTail();
      SizeGrows(FrameOf(), b);
      ok := EnsurePacketCapacity();
    }

    lemma FrameTail()
      requires Valid()
      ensures FrameOf().tail == packet[..packetIndex] && |FrameOf().tail| == packetIndex
      ensures !FrameOf().overflowed
    {
    }

    /** The byte goes into the buffer; true when it completes a packet. */
    method StoreByte(b: byte) returns (complete: bool)
      requires Valid() && packetIndex < packetSize && packetIndex < MAX_PACKET_SIZE
      modifies this`packetIndex, packet
      ensures packet.Length == packetSize && 0 < packetIndex <= packetSize
      ensures complete <==> b == NL
      ensures packet[..packetIndex] == old(packet[..packetIndex]) + [b]
      ensures complete ==> GoodPacket(packet[..packetIndex])
      ensures !complete ==> Valid()
    {
      packet[packetIndex] := b;
      packetIndex := (packetIndex + 1) % UINT16_RANGE;
      assert packet[..packetIndex] == old(packet[..packetIndex]) + [b];
      complete := b == NL;
    }

    /**
      Why a call failed at this byte: memory for a full buffer was refused, the packet was too long,
      or its reply failed. Everything before was answered.
     */
    ghost predicate FailedAt(f: Frame, buffer: seq<byte>, consumed: nat)
      requires Valid() && consumed <= |buffer|
      reads this, packet
    {
      OutOfMemory() || (OverflowsAt(f, buffer, consumed) && AllWhole(served)) || LastFailed()
    }

    ghost predicate LastFailed()
      reads this
    {
      packetIndex == 0 && served != [] && AllButLastWhole(served) && !Whole(served[|served| - 1])
    }

    /** No call of realloc or send fails, and each seek of the packets served was to a place that exists. */
    ghost predicate NothingFails()
      reads this`served
    {
      && (forall i :: 0 <= i < |reallocs| ==> reallocs[i])
      && (forall i :: 0 <= i < |sock.script| ==> !sock.script[i].Fails?)
      && (forall k :: 0 <= k < |served| ==> ReplyOf(served[k]).Sent?)
    }

    /** A connection fails only when a call does, a place does not exist, or a packet is too long. */
    lemma FailsOnlyThen(first: seq<seq<byte>>, log: seq<seq<byte>>, f: Frame, buffer: seq<byte>, consumed: nat)
      requires Valid() && InConversation(first, log) && consumed <= |buffer| && FailedAt(f, buffer, consumed)
      ensures !NothingFails() || Feed(f, buffer).overflowed
    {
      hide ReplyOf, Feed, ServedIn, Whole, Packets, LogThen, CallsOf, Valid, SizeOf, Grown, Longest, SizeFor;
      hide Dialogue, AllButLastWhole, AllWhole, Delivered;
      if OutOfMemory() {
        assert !ReallocAt(reallocs, grown - 1);
      } else if OverflowsAt(f, buffer, consumed) {
        assert buffer == buffer[..consumed + 1] + buffer[consumed + 1..];
        FeedAppend(f, buffer[..consumed + 1], buffer[consumed + 1..]);
        OverflowSticks(Feed(f, buffer[..consumed + 1]), buffer[consumed + 1..]);
      } else {
        var before, s := served[..|served| - 1], served[|served| - 1];
        assert served == before + [s];
        DialogueLast(first, served, around, sock.script, before, s);
        NotWhole(s, LogThen(first, before), AroundAt(around, |before|), sock.script, CallsOf(before));
      }
    }

    lemma Begins(log: seq<seq<byte>>)
      requires OthersGood(around) && served == [] && turn == 0 && sock.sent == [] && sock.calls == 0
      ensures InConversation(log, log) && Feed(START, []) == START
    {
      NothingServed(log, around, sock.script);
    }

    /** What the conversation says when no other client commits a line, or none disturbs the parsing. */
    lemma AloneCorollaries(first: seq<seq<byte>>, log: seq<seq<byte>>)
      requires InConversation(first, log)
      ensures Conversation(first, served, around, sock.script, log, sock.sent, sock.calls)
      ensures (forall k :: 0 <= k < |around| ==> around[k].others == []) ==> log == first + DataServed(served)
      ensures (forall k :: 0 <= k < |around| ==> around[k].mallocSucceeds && around[k].calls == []) ==>
                forall k :: 0 <= k < |served| ==> served[k].args == SeekArgs(served[k].packet)
    {
      hide Dialogue, LogThen, CallsOf, Delivered, DataServed, SeekArgs, HasPrefix;
      if forall k :: 0 <= k < |around| ==> around[k].others == [] {
        AloneInLog(first, served, around, sock.script);
      }
      if forall k :: 0 <= k < |around| ==> around[k].mallocSucceeds && around[k].calls == [] {
        AloneInParsing(first, served, around, sock.script);
      }
    }

    /** What it says when nothing has failed: the packets are those of the stream, and all have their replies. */
    lemma SmoothCorollaries(first: seq<seq<byte>>, log: seq<seq<byte>>, stream: seq<byte>)
      requires Valid() && Smooth() && InConversation(first, log) && FrameOf() == Feed(START, stream)
      ensures Packets(served) == Segments(stream).0
      ensures AllWhole(served) && sock.sent == Concat(Replies(served))
    {
      hide Dialogue, LogThen, CallsOf, Delivered, Segments, Accepted, Feed, Replies, Packets;
      DialogueLegit(first, served, around, sock.script);
      DeliveredIsReplies(served);
      FeedIsSegments(stream);
    }

    /** The same, when the call came after these bytes were framed, and more may have followed. */
    lemma FailedInStream(before: seq<byte>, buffer: seq<byte>, rest: seq<byte>, consumed: nat)
      requires Valid() && consumed <= |buffer| && FailedAt(Feed(START, before), buffer, consumed)
      ensures FailedAt(START, before + buffer + rest, |before| + consumed)
    {
      hide AllWhole, LastFailed, OverflowsAt, OutOfMemory, Valid;
      if OverflowsAt(Feed(START, before), buffer, consumed) {
        OverflowInStream(before, buffer, rest, consumed);
      }
    }

    /**
      process_received_data: the bytes consumed are framed as Framing.Feed says, and every packet
      they complete is served, whatever other clients do in between.
     */
    method ProcessReceivedData(dev: Device, tok: Strtok, buffer: seq<byte>, ghost first: seq<seq<byte>>)
      returns (ok: bool, ghost consumed: nat)
      requires Valid() && Smooth() && ServerOwns(dev) && packet !in dev.heap.live
      requires |buffer| <= SOCKET_BUFFER_SIZE
      requires InConversation(first, dev.log)
      modifies this, packet, tok, sock, dev, dev.heap, dev.ring, dev.ring.entry, dev.heap.live
      ensures Valid() && ServerOwns(dev) && packet !in dev.heap.live
      ensures fresh(dev.heap.live - old(dev.heap.live)) && (packet == old(packet) || fresh(packet))
      ensures InConversation(first, dev.log)
      ensures consumed <= |buffer| && FrameOf() == Feed(old(FrameOf()), buffer[..consumed])
      ensures ok ==> consumed == |buffer| && Smooth()
      ensures !ok ==> FailedAt(old(FrameOf()), buffer, consumed)
      ensures NothingFails() && !Feed(old(FrameOf()), buffer).overflowed ==> ok
    {
      hide ServerOwns, InConversation, Smooth, Valid, Packets, LastFailed, OutOfMemory;
      ghost var f := FrameOf();
      ok := true;
      var i := 0;
      while i < |buffer|
        invariant 0 <= i <= |buffer|
        invariant Valid() && Smooth() && ServerOwns(dev) && packet !in dev.heap.live
        invariant fresh(dev.heap.live - old(dev.heap.live)) && (packet == old(packet) || fresh(packet))
        invariant InConversation(first, dev.log)
        invariant FrameOf() == Feed(f, buffer[..i])
      {
        assert buffer[..i + 1] == buffer[..i] + [buffer[i]];
        FeedSnoc(f, buffer[..i], buffer[i]);
        SmoothIsWhole();
        ok := MakeRoom(buffer[i]);
        if !ok {
          FailsOnlyThen(first, dev.log, f, buffer, i);
          return false, i;
        }
        ok := TakeByte(dev, tok, buffer[i], first);
        if !ok {
          FailsOnlyThen(first, dev.log, f, buffer, i + 1);
          return false, i + 1;
        }
        i := i + 1;
      }
      consumed := i;
      assert buffer[..i] == buffer;
    }

    lemma SmoothIsWhole()
      requires Valid() && Smooth()
      ensures AllWhole(served)
    {
    }

    /** One round of the loop, behind the capacity check (aesdsocket_client.c:326-335). */
    method TakeByte(dev: Device, tok: Strtok, b: byte, ghost first: seq<seq<byte>>) returns (ok: bool)
      requires Valid() && packetIndex < packetSize && packetIndex < MAX_PACKET_SIZE
      requires AllWhole(served) && Grown(reallocs, grown, packetSize) && packetSize == SizeOf(FeedByte(FrameOf(), b))
      requires ServerOwns(dev) && packet !in dev.heap.live
      requires InConversation(first, dev.log)
      modifies this`packetIndex, this`served, this`turn, packet, tok, sock
      modifies dev, dev.heap, dev.ring, dev.ring.entry, dev.heap.live
      ensures Valid() && ServerOwns(dev) && packet !in dev.heap.live
      ensures fresh(dev.heap.live - old(dev.heap.live))
      ensures InConversation(first, dev.log)
      ensures FrameOf() == FeedByte(old(FrameOf()), b)
      ensures if ok then Smooth() else LastFailed()
    {
      hide ServerOwns, InConversation, AllWhole, LastFailed, Packets, Grown, Longest, SizeFor;
      SizeBetween(Packets(served) + [packet[..packetIndex] + [b]], false);
      var complete := StoreByte(b);
      ok := true;
      if complete {
        ok := ServePacket(dev, tok, first);
        assert packet[..0] == [];
      }
    }

    /** The call of process_packet on a complete packet, and the reset of the index behind it. */
    method ServePacket(dev: Device, tok: Strtok, ghost first: seq<seq<byte>>) returns (ok: bool)
      requires ServerOwns(dev) && packet !in dev.heap.live
      requires packet.Length == packetSize && IsBufferSize(packetSize)
      requires packetIndex <= packetSize && GoodPacket(packet[..packetIndex])
      requires JustSized(packetSize, Packets(served), packet[..packetIndex])
      requires InConversation(first, dev.log) && AllWhole(served)
      modifies this`packetIndex, this`served, this`turn, packet, tok, sock
      modifies dev, dev.heap, dev.ring, dev.ring.entry, dev.heap.live
      ensures Valid() && ServerOwns(dev) && packet !in dev.heap.live
      ensures fresh(dev.heap.live - old(dev.heap.live))
      ensures InConversation(first, dev.log)
      ensures packetIndex == 0 && Packets(served) == Packets(old(served)) + [old(packet[..packetIndex])]
      ensures if ok then AllWhole(served) else LastFailed()
    {
      hide ServerOwns, Conversation, Whole, Legit, SentFor, LogLeft, GoodPacket, ServedIn, Longest, SizeFor;
      hide OthersGood, GoodLog, AroundAt;
      ghost var log, sent, calls := dev.log, sock.sent, sock.calls;
      ghost var s;
      var env := AroundAt(around, turn);
      AroundGood(around, turn);
      ok, s := ProcessPacket(dev, tok, sock, packet, packetIndex, packetSize, env);
      ServeOneMore(first, served, around, sock.script, log, sent, calls, s);
      ServedOneMore(served, s);
      served, turn := served + [s], turn + 1;
      packetIndex := 0;
    }
  }

  lemma AroundGood(around: seq<Surroundings>, k: nat)
    requires OthersGood(around)
    ensures GoodLog(AroundAt(around, k).others)
  {
  }

  /**
    handle_client_communication up to its completion tail: receives until the peer, a failure or
    the stop flag ends the connection. Each incoming element is what one recv returned, and
    runningAfter what process_running was after it. What realloc and send do, what surrounds the
    serving of each packet, all is given; so the bytes sent and the log are, by DialogueOnce.
   */
  method HandleClientCommunication(dev: Device, tok: Strtok, sock: Socket, incoming: seq<seq<byte>>,
                                   runningAfter: seq<bool>, around: seq<Surroundings>, reallocs: seq<bool>)
    returns (client: Client, ok: bool, ghost consumed: seq<byte>, ghost rounds: nat)
    requires ServerOwns(dev) && sock.sent == [] && sock.calls == 0
    requires forall i :: 0 <= i < |incoming| ==> 0 < |incoming[i]| <= SOCKET_BUFFER_SIZE
    requires |runningAfter| == |incoming| && OthersGood(around)
    modifies tok, sock, dev, dev.heap, dev.ring, dev.ring.entry, dev.heap.live
    ensures ServerOwns(dev) && client.Valid()
    ensures client.sock == sock && client.around == around && client.reallocs == reallocs
    ensures client.FrameOf() == Feed(START, consumed)
    ensures Conversation(old(dev.log), client.served, around, sock.script, dev.log, sock.sent, sock.calls)
    ensures rounds <= |incoming| && forall i :: 0 <= i < rounds - 1 ==> runningAfter[i]
    ensures consumed <= Concat(incoming[..rounds]) && consumed <= Concat(incoming)
    ensures ok ==> rounds == |incoming| || (rounds > 0 && !runningAfter[rounds - 1])
    ensures ok ==> consumed == Concat(incoming[..rounds]) && client.Smooth()
    ensures !ok ==> client.FailedAt(START, Concat(incoming), |consumed|)
    ensures client.NothingFails() && !Feed(START, Concat(incoming)).overflowed ==> ok
    ensures ok && (forall i :: 0 <= i < |incoming| ==> runningAfter[i]) ==>
              Packets(client.served) == Segments(Concat(incoming)).0
    ensures ok ==> AllWhole(client.served) && sock.sent == Concat(Replies(client.served))
    ensures (forall k :: 0 <= k < |around| ==> around[k].others == []) ==>
              dev.log == old(dev.log) + DataServed(client.served)
    ensures (forall k :: 0 <= k < |around| ==> around[k].mallocSucceeds && around[k].calls == []) ==>
              forall k :: 0 <= k < |client.served| ==> client.served[k].args == SeekArgs(client.served[k].packet)
  {
    hide ServerOwns, Conversation, Packets, IsBufferSize, client.FailedAt, client.Valid, client.Smooth;
    hide client.NothingFails, client.InConversation, OthersGood, AllWhole, SeekArgs, DataServed, Segments, Feed, Whole;
    hide FeedByte, Accepted, Dialogue, GoodPacket;
    client := new Client(sock, around, reallocs);
    client.Begins(dev.log);
    ghost var first := dev.log;
    consumed, ok, rounds := [], true, 0;
    var i := 0;
    while i < |incoming| && (i == 0 || runningAfter[i - 1])
      invariant 0 <= i <= |incoming| && rounds == i
      invariant client.Valid() && fresh(client) && fresh(client.packet) && client.sock == sock
      invariant client.around == around && client.reallocs == reallocs
      invariant ServerOwns(dev) && client.packet !in dev.heap.live && fresh(dev.heap.live - old(dev.heap.live))
      invariant client.InConversation(first, dev.log) && client.Smooth()
      invariant client.FrameOf() == Feed(START, consumed)
      invariant consumed == Concat(incoming[..i])
      invariant forall j :: 0 <= j < i - 1 ==> runningAfter[j]
    {
      ghost var n;
      ghost var before := consumed;
      SplitAroundLine(incoming, i);
      StreamUpTo(incoming, i);
      ok, n := client.ProcessReceivedData(dev, tok, incoming[i], first);
      FeedAppend(START, before, incoming[i][..n]);
      consumed := before + incoming[i][..n];
      rounds := i + 1;
      if !ok {
        PrefixInMiddle(before, incoming[i], Concat(incoming[i + 1..]), n);
        client.FailedInStream(before, incoming[i], Concat(incoming[i + 1..]), n);
        client.FailsOnlyThen(first, dev.log, START, Concat(incoming), |consumed|);
        client.AloneCorollaries(first, dev.log);
        StreamPrefix(incoming, rounds);
        return;
      }
      assert incoming[i][..n] == incoming[i];
      i := i + 1;
    }
    StreamPrefix(incoming, i);
    client.AloneCorollaries(first, dev.log);
    client.SmoothCorollaries(first, dev.log, consumed);
    assert i == |incoming| ==> incoming[..i] == incoming;
  }

  lemma StreamUpTo(incoming: seq<seq<byte>>, i: nat)
    requires i < |incoming|
    ensures Concat(incoming[..i + 1]) == Concat(incoming[..i]) + incoming[i]
  {
    assert incoming[..i + 1] == incoming[..i] + [incoming[i]];
    ConcatSnoc(incoming[..i], incoming[i]);
  }

  lemma PrefixInMiddle(a: seq<byte>, b: seq<byte>, c: seq<byte>, n: nat)
    requires n <= |b|
    ensures a + b[..n] <= a + b + c
    ensures (a + b + c)[..|a| + n] == a + b[..n]
  {
  }

  lemma FeedInStream(before: seq<byte>, buffer: seq<byte>, rest: seq<byte>, n: nat)
    requires n <= |buffer|
    ensures Feed(START, (before + buffer + rest)[..|before| + n]) == Feed(Feed(START, before), buffer[..n])
  {
    hide Feed;
    PrefixInMiddle(before, buffer, rest, n);
    FeedAppend(START, before, buffer[..n]);
  }

  lemma OverflowInStream(before: seq<byte>, buffer: seq<byte>, rest: seq<byte>, n: nat)
    requires OverflowsAt(Feed(START, before), buffer, n)
    ensures OverflowsAt(START, before + buffer + rest, |before| + n)
  {
    hide Feed;
    FeedInStream(before, buffer, rest, n + 1);
  }

  lemma StreamPrefix(incoming: seq<seq<byte>>, i: nat)
    requires i <= |incoming|
    ensures Concat(incoming[..i]) <= Concat(incoming)
  {
    assert incoming == incoming[..i] + incoming[i..];
    ConcatAppend(incoming[..i], incoming[i..]);
  }
}
