/** One client's connection (aesdsocket_client.c): receive, frame, serve under the log mutex, reply. */
module ClientHandler {
  import opened Bytes
  import opened Positions
  import opened DeviceSpec
  import opened CharDevice
  import opened Stdio
  import opened Framing
  import opened SeekPacket
  import opened Sending
  import opened ServerSpec

  // ---------------------------------------------------------------- sending the file back

  /** These are the results of all calls on the socket from number `from` on, and what has been sent for them. */
  ghost predicate SentSoFar(sock: Socket, from: nat, before: seq<byte>, data: seq<byte>, size: nat,
                            results: seq<SendResult>)
    reads sock
  {
    && Legal(|data|, size, results) && Drawn(|data|, size, results, sock.script, from)
    && sock.calls == from + |results|
    && sock.sent == before + Payload(data, size, results)
  }

  /** One send call: its result, and what it adds to the bytes sent so far. */
  method SendRest(sock: Socket, buffer: array<byte>, total: nat, bytesRead: nat, ghost data: seq<byte>,
                  ghost size: nat, ghost results: seq<SendResult>, ghost before: seq<byte>, ghost from: nat)
    returns (n: int, ghost result: SendResult)
    requires total < bytesRead <= buffer.Length && 0 < size
    requires var p := Transmit(|data|, size, results);
             p.end - p.at == bytesRead - total && p.end <= |data| && buffer[total..bytesRead] == data[p.at..p.end]
    requires SentSoFar(sock, from, before, data, size, results)
    modifies sock
    ensures result == ResultOf(OutcomeAt(sock.script, old(sock.calls)), bytesRead - total)
    ensures n == (if result.Failed? then -1 else result.n) && (n == -1 || 0 < n <= bytesRead - total)
    ensures n == -1 <==> OutcomeAt(sock.script, old(sock.calls)).Fails?
    ensures sock.calls == old(sock.calls) + 1
    ensures SentSoFar(sock, from, before, data, size, results + [result])
  {
    hide Transmit, Payload, Legal, Drawn, OutcomeAt;
    ghost var rest := buffer[total..bytesRead];
    n := sock.Send(buffer[total..bytesRead]);
    result := if n == -1 then Failed else Took(n);
    OneResultMore(data, size, results, sock.script, from, rest, result);
    if n != -1 {
      Associative(before, Payload(data, size, results), rest[..n]);
    }
  }

  lemma OneResultMore(data: seq<byte>, size: nat, results: seq<SendResult>, script: seq<SendOutcome>, from: nat,
                      rest: seq<byte>, r: SendResult)
    requires Legal(|data|, size, results) && Drawn(|data|, size, results, script, from)
    requires var p := Transmit(|data|, size, results);
             p.at < p.end <= |data| && rest == data[p.at..p.end]
    requires r == ResultOf(OutcomeAt(script, from + |results|), |rest|)
    ensures Legal(|data|, size, results + [r]) && Drawn(|data|, size, results + [r], script, from)
    ensures r.Took? ==> 0 < r.n <= |rest|
    ensures Payload(data, size, results + [r]) ==
            if r.Failed? then Payload(data, size, results) else Payload(data, size, results) + rest[..r.n]
  {
    hide Transmit, Payload, Legal, Drawn, OutcomeAt;
    var p := Transmit(|data|, size, results);
    TransmitSnoc(|data|, size, results, r);
    DrawnSnoc(|data|, size, results, script, from, r);
    PayloadSnoc(data, size, results, r);
    if r.Took? {
      assert rest[..r.n] == Slice(data, p.at, p.at + r.n);
    }
  }

  /**
    The inner loop of send_file: until the buffer-full is sent, or a send fails
    (aesdsocket_client.c:80-94). `results` are those of all send calls so far.
   */
  method SendBuffer(sock: Socket, buffer: array<byte>, bytesRead: nat, ghost data: seq<byte>, ghost size: nat,
                    ghost sofar: seq<SendResult>, ghost before: seq<byte>, ghost from: nat)
    returns (ok: bool, ghost results: seq<SendResult>)
    requires bytesRead <= buffer.Length && 0 < size
    requires var p := Transmit(|data|, size, sofar);
             p.end - p.at == bytesRead && p.end <= |data| && buffer[..bytesRead] == data[p.at..p.end]
    requires SentSoFar(sock, from, before, data, size, sofar)
    modifies sock
    ensures SentSoFar(sock, from, before, data, size, results)
    ensures old(sock.calls) <= sock.calls && (ok <==> !FailsWithin(sock.script, old(sock.calls), sock.calls))
    ensures var p, q := Transmit(|data|, size, sofar), Transmit(|data|, size, results);
            q.at == p.end && q.end == if bytesRead == 0 then p.end else Min(p.end + size, |data|)
  {
    hide Transmit, Payload, Legal, Drawn, SentSoFar, ResultOf;
    var total := 0;
    ok, results := true, sofar;
    ghost var p := Transmit(|data|, size, sofar);
    while total < bytesRead
      invariant 0 <= total <= bytesRead
      invariant SentSoFar(sock, from, before, data, size, results)
      invariant old(sock.calls) <= sock.calls && !FailsWithin(sock.script, old(sock.calls), sock.calls)
      invariant var q := Transmit(|data|, size, results);
                && q.at == p.at + total
                && q.end == if total < bytesRead || bytesRead == 0 then p.end else Min(p.end + size, |data|)
    {
      BufferRest(buffer[..bytesRead], data, p.at, p.end, total);
      var sent;
      ghost var result;
      sent, result := SendRest(sock, buffer, total, bytesRead, data, size, results, before, from);
      TransmitSnoc(|data|, size, results, result);
      results := results + [result];
      if sent == -1 {
        ok := false;
        return;
      }
      total := total + sent;
    }
  }

  lemma BufferRest(full: seq<byte>, data: seq<byte>, at: nat, end: nat, total: nat)
    requires at <= end <= |data| && full == data[at..end] && total <= |full|
    ensures full[total..] == data[at + total..end]
  {
  }

  /**
    send_file: the client receives what the outcomes of the next send calls make of the content from
    seekPos on; all of it, when none of them fails.
   */
  method SendFile(dev: Device, stream: Stream, sock: Socket, buffer: array<byte>, bufferSize: nat, seekPos: nat)
    returns (ok: bool, ghost results: seq<SendResult>)
    requires dev.Valid() && |Content(dev.log)| < TWO_63
    requires 0 < bufferSize <= buffer.Length && buffer !in dev.heap.live
    requires seekPos <= |Content(dev.log)| && stream.file.fPos <= |Content(dev.log)|
    modifies stream`ahead, stream.file, sock, buffer
    ensures Complete(|Content(dev.log)| - seekPos, bufferSize, results)
    ensures Drawn(|Content(dev.log)| - seekPos, bufferSize, results, sock.script, old(sock.calls))
    ensures sock.calls == old(sock.calls) + |results|
    ensures sock.sent == old(sock.sent) + Payload(Content(dev.log)[seekPos..], bufferSize, results)
    ensures ok <==> Failed !in results
    ensures ok <==> !FailsWithin(sock.script, old(sock.calls), sock.calls)
    ensures ok ==> sock.sent == old(sock.sent) + Content(dev.log)[seekPos..]
  {
    hide dev.Valid, Content, Transmit, Payload, Legal, Drawn, SentSoFar, FailsWithin;
    ghost var content, data := Content(dev.log), Content(dev.log)[seekPos..];
    ghost var before, from := sock.sent, sock.calls;
    ok := stream.Fseek(dev, seekPos, SEEK_SET);
    results := [];
    NothingOffered(sock, data, bufferSize);
    var bytesRead: nat := 1;
    while bytesRead > 0
      invariant dev.Valid() && stream.Valid(content)
      invariant SentSoFar(sock, from, before, data, bufferSize, results)
      invariant from <= sock.calls && (ok <==> !FailsWithin(sock.script, from, sock.calls))
      invariant var p := Transmit(|data|, bufferSize, results);
                && p.at <= |data| && stream.Position() == seekPos + p.at
                && p.end == Min(p.at + bufferSize, |data|)
                && (bytesRead == 0 ==> p.at == |data|)
      decreases |content| - stream.Position(), bytesRead
    {
      ghost var p := Transmit(|data|, bufferSize, results);
      bytesRead := stream.Fread(dev, buffer, bufferSize);
      DropThenSlice(content, seekPos, p.at, p.end);
      var sentAll;
      ghost var sofar, calls := results, sock.calls;
      sentAll, results := SendBuffer(sock, buffer, bytesRead, data, bufferSize, sofar, before, from);
      FailsInParts(sock.script, from, calls, sock.calls);
      ok := ok && sentAll;
    }
    var end := stream.Fseek(dev, 0, SEEK_END);
    ok := ok && end;
    AllSent(sock, from, before, data, bufferSize, results);
  }

  lemma DropThenSlice(content: seq<byte>, from: nat, lo: nat, hi: nat)
    requires from <= |content| && lo <= hi <= |content| - from
    ensures content[from..][lo..hi] == content[from + lo..from + hi]
  {
  }

  lemma NothingOffered(sock: Socket, data: seq<byte>, size: nat)
    ensures SentSoFar(sock, sock.calls, sock.sent, data, size, [])
    ensures Transmit(|data|, size, []) == Progress(0, Min(size, |data|), [], false)
    ensures !FailsWithin(sock.script, sock.calls, sock.calls)
  {
    assert sock.sent + [] == sock.sent;
  }

  lemma FailsInParts(script: seq<SendOutcome>, from: nat, mid: nat, to: nat)
    requires from <= mid <= to
    ensures FailsWithin(script, from, to) <==> FailsWithin(script, from, mid) || FailsWithin(script, mid, to)
  {
  }

  lemma AllSent(sock: Socket, from: nat, before: seq<byte>, data: seq<byte>, size: nat, results: seq<SendResult>)
    requires SentSoFar(sock, from, before, data, size, results) && Transmit(|data|, size, results).at == |data|
    requires 0 < size
    ensures Complete(|data|, size, results) && Drawn(|data|, size, results, sock.script, from)
    ensures sock.calls == from + |results| && sock.sent == before + Payload(data, size, results)
    ensures Failed in results <==> FailsWithin(sock.script, from, sock.calls)
    ensures Failed !in results ==> sock.sent == before + data
  {
    hide Transmit, Payload, Legal, Drawn, FailsWithin;
    FailedAsDrawn(|data|, size, results, sock.script, from);
    if Failed !in results {
      PayloadIsAll(data, size, results);
    }
  }

  // ---------------------------------------------------------------- serving a packet

  /** The server is the only writer: nothing is pending, and every line is one of its packets. */
  ghost predicate ServerOwns(dev: Device)
    reads dev, dev.heap, dev.ring, dev.ring.entry, dev.heap.live
  {
    dev.Valid() && dev.Pending() == [] && GoodLog(dev.log)
  }

  /** What the other clients do while this one waits for log_file_mutex: they commit these packets. */
  method OthersServe(dev: Device, others: seq<seq<byte>>)
    requires ServerOwns(dev) && GoodLog(others)
    modifies dev, dev.heap, dev.ring, dev.ring.entry, dev.heap.live
    ensures ServerOwns(dev) && fresh(dev.heap.live - old(dev.heap.live))
    ensures dev.log == old(dev.log) + others
  {
    hide dev.Valid, GoodPacket;
    for i := 0 to |others|
      invariant ServerOwns(dev) && fresh(dev.heap.live - old(dev.heap.live))
      invariant dev.log == old(dev.log) + others[..i]
    {
      GoodLogSnoc(dev.log, others[i]);
      GoodIsLine(others[i]);
      assert [] + others[i] == others[i];
      ghost var before := dev.log;
      var ret := dev.AesdWrite(others[i], NoWriteFault);
      assert dev.log == before + [others[i]];
      assert others[..i + 1] == others[..i] + [others[i]];
    }
    assert others[..|others|] == others;
  }

  lemma GoodIsLine(packet: seq<byte>)
    requires GoodPacket(packet)
    ensures EndsInNewline(packet)
  {
  }

  /**
    flush_packet_to_client, where no driver call fails. Other clients commit their packets before
    this one gets the mutex; the packet goes behind them, once.
   */
  method FlushPacketToClient(dev: Device, sock: Socket, packet: array<byte>, packetLen: nat, sendBufferSize: nat,
                             others: seq<seq<byte>>)
    returns (ok: bool, ghost results: seq<SendResult>)
    requires ServerOwns(dev) && packet !in dev.heap.live && GoodLog(others)
    requires packetLen <= packet.Length && 0 < sendBufferSize <= packet.Length
    requires GoodPacket(packet[..packetLen])
    modifies dev, dev.heap, dev.ring, dev.ring.entry, dev.heap.live, sock, packet
    ensures ServerOwns(dev) && fresh(dev.heap.live - old(dev.heap.live))
    ensures dev.log == old(dev.log) + others + [old(packet[..packetLen])]
    ensures Complete(|Content(dev.log)|, sendBufferSize, results)
    ensures Drawn(|Content(dev.log)|, sendBufferSize, results, sock.script, old(sock.calls))
    ensures sock.calls == old(sock.calls) + |results|
    ensures sock.sent == old(sock.sent) + Payload(Content(dev.log), sendBufferSize, results)
    ensures ok <==> Failed !in results
    ensures ok <==> !FailsWithin(sock.script, old(sock.calls), sock.calls)
    ensures ok ==> sock.sent == old(sock.sent) + Content(dev.log)
  {
    hide dev.Valid, Content, Payload, Complete, Drawn, FailsWithin;
    ghost var data := packet[..packetLen];
    OthersServe(dev, others);
    ghost var found := dev.log;
    var stream := new Stream();
    stream.FwriteAndFlush(dev, packet[..packetLen]);
    GoodLogSnoc(found, data);
    ContentBounded(dev.log);
    ok, results := SendFile(dev, stream, sock, packet, sendBufferSize, 0);
    assert Content(dev.log)[0..] == Content(dev.log);
  }

  lemma GoodLogSnoc(log: seq<seq<byte>>, packet: seq<byte>)
    requires GoodLog(log) && GoodPacket(packet)
    ensures GoodLog(log + [packet])
  {
  }

  /** process_seekto_packet, where no driver call fails other than by refusing the place. */
  method ProcessSeektoPacket(dev: Device, sock: Socket, x: nat, y: nat, packet: array<byte>, sendBufferSize: nat,
                             others: seq<seq<byte>>)
    returns (ok: bool, ghost results: seq<SendResult>)
    requires ServerOwns(dev) && packet !in dev.heap.live && GoodLog(others)
    requires 0 < sendBufferSize <= packet.Length
    modifies dev, dev.heap, dev.ring, dev.ring.entry, dev.heap.live, sock, packet
    ensures ServerOwns(dev) && fresh(dev.heap.live - old(dev.heap.live))
    ensures dev.log == old(dev.log) + others
    ensures sock.calls == old(sock.calls) + |results|
    ensures var offset, content := AbsoluteOffset(Sizes(Lines(dev.log)), x, y), Content(dev.log);
            if offset < 0 then !ok && results == [] && sock.sent == old(sock.sent)
            else
              var bytes := Slice(content, offset, |content|);
              && Complete(|bytes|, sendBufferSize, results)
              && Drawn(|bytes|, sendBufferSize, results, sock.script, old(sock.calls))
              && sock.sent == old(sock.sent) + Payload(bytes, sendBufferSize, results)
              && (ok <==> Failed !in results)
              && (ok <==> !FailsWithin(sock.script, old(sock.calls), sock.calls))
              && (ok ==> sock.sent == old(sock.sent) + bytes)
  {
    hide dev.Valid, Content, Llseek, Payload, Complete, Drawn, FailsWithin;
    OthersServe(dev, others);
    ghost var found := dev.log;
    var stream := new Stream();
    var ret := dev.AesdIoctl(stream.file, true, x, y, [], NoIoctlFault);
    SeekOutcome(found, x, y);
    var ioctlRetVal := Signed32(ret);
    if ioctlRetVal < 0 {
      return false, [];
    }
    ok, results := SendFile(dev, stream, sock, packet, sendBufferSize, ioctlRetVal);
    assert Content(found)[ret..] == Slice(Content(found), ret, |Content(found)|);
  }

  /**
    process_packet. It classifies the packet with no lock held, then serves it under the mutex. In
    these surroundings, what it leaves in the log and sends is what ServerSpec says of the record
    `s`, and that record is the only one ServerSpec allows there.
   */
  method ProcessPacket(dev: Device, tok: Strtok, sock: Socket, packet: array<byte>, packetIndex: nat, packetSize: nat,
                       env: Surroundings)
    returns (ok: bool, ghost s: Served)
    requires ServerOwns(dev) && packet !in dev.heap.live && GoodLog(env.others)
    requires packetIndex <= packet.Length && IsBufferSize(packetSize) && packetSize <= packet.Length
    requires GoodPacket(packet[..packetIndex])
    modifies dev, dev.heap, dev.ring, dev.ring.entry, dev.heap.live, tok, sock, packet
    ensures ServerOwns(dev) && fresh(dev.heap.live - old(dev.heap.live))
    ensures s.packet == old(packet[..packetIndex]) && s.size == packetSize
    ensures ServedIn(s, old(dev.log), env, sock.script, old(sock.calls))
    ensures env.mallocSucceeds && env.calls == [] ==> s.args == SeekArgs(s.packet)
    ensures dev.log == LogLeft(s)
    ensures sock.calls == old(sock.calls) + |s.results| && sock.sent == old(sock.sent) + SentFor(s)
    ensures ok <==> Whole(s)
    ensures ok ==> sock.sent == old(sock.sent) + ReplyOf(s).bytes
  {
    hide dev.Valid, Content, SeekArgs, AbsoluteOffset, GoodLog, GoodPacket, Payload, Complete, Operand, HasPrefix;
    hide Drawn, FailsWithin, TakenFor, MayBeTakenFor, Quiet;
    ghost var p, log := packet[..packetIndex], dev.log;
    TakenForIsLegit(p, env);
    GoodLogAppend(log, env.others);
    var isSeek, x, y;
    ghost var results;
    isSeek, x, y := IsSeektoPacket(tok, packet, packetIndex, env.mallocSucceeds, env.calls);
    if isSeek {
      ok, results := ProcessSeektoPacket(dev, sock, x, y, packet, packetSize, env.others);
      s := Served(log + env.others, p, Some((x, y)), Quiet(p, env), packetSize, results);
    } else {
      ok, results := FlushPacketToClient(dev, sock, packet, packetIndex, packetSize, env.others);
      s := Served(log + env.others, p, None, Quiet(p, env), packetSize, results);
    }
  }

  lemma GoodLogAppend(log: seq<seq<byte>>, more: seq<seq<byte>>)
    requires GoodLog(log) && GoodLog(more)
    ensures GoodLog(log + more)
  {
  }
}
