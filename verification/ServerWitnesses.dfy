/** Runs of the server in which clients do not get what they could expect. */
module ServerWitnesses {
  import opened Bytes
  import opened DeviceSpec
  import opened Framing
  import opened SeekPacket
  import opened Sending
  import opened ServerSpec
  import opened Serving
  import opened ServerRuns

  lemma AfterSnoc(events: seq<Event>, e: Event)
    requires Enabled(After(events), e)
    ensures After(events + [e]) == Step(After(events), e)
  {
    hide Enabled, Step;
    assert (events + [e])[..|events|] == events;
  }

  // ---------------------------------------------------------------- a packet arrives

  function Takes(c: nat, n: nat): seq<Event> {
    if n == 0 then [] else Takes(c, n - 1) + [TakeByte(c, true)]
  }

  lemma TakesSnoc(events: seq<Event>, c: nat, n: nat)
    requires n > 0
    ensures events + Takes(c, n) == events + Takes(c, n - 1) + [TakeByte(c, true)]
  {
  }

  /** A client sends this packet, and the server takes all its bytes. */
  function NextPacket(c: nat, packet: seq<byte>): seq<Event> {
    [Receive(c, packet)] + Takes(c, |packet|)
  }

  function Arrival(c: nat, packet: seq<byte>): seq<Event> {
    [Connect(c)] + NextPacket(c, packet)
  }

  /** The server waits for a packet of this client, and has room for any that one receive can bring. */
  predicate Idle(p: Peer) {
    && p.open && p.stage.Receiving? && p.consumed == p.received
    && p.frame.tail == [] && !p.frame.overflowed && SOCKET_BUFFER_SIZE <= p.size
  }

  /** The client when it has sent one more packet, and the server has taken n bytes of it. */
  function PartlyTaken(p: Peer, packet: seq<byte>, n: nat): Peer
    requires n <= |packet|
  {
    p.(received := p.received + packet, consumed := p.consumed + packet[..n], frame := p.frame.(tail := packet[..n]))
  }

  /** The client when the server has taken the whole packet. */
  function WithPacket(p: Peer, packet: seq<byte>): Peer {
    p.(received := p.received + packet, consumed := p.consumed + packet,
       frame := p.frame.(packets := p.frame.packets + [packet]), stage := Framed)
  }

  function FramedPeer(packet: seq<byte>): Peer {
    WithPacket(NEW_PEER, packet)
  }

  lemma TakesOne(p: Peer, packet: seq<byte>, n: nat)
    requires Idle(p) && IsPacket(packet) && |packet| <= SOCKET_BUFFER_SIZE && n < |packet|
    ensures var q := PartlyTaken(p, packet, n);
            q.consumed < q.received &&
            TakenByte(q, true) == if n + 1 < |packet| then PartlyTaken(p, packet, n + 1) else WithPacket(p, packet)
  {
    assert p.consumed + packet[..n] + [packet[n]] == p.consumed + packet[..n + 1];
    assert packet[..n] + [packet[n]] == packet[..n + 1];
    assert packet[..|packet|] == packet;
  }

  lemma ByteArrives(s: System, c: nat, p: Peer, packet: seq<byte>, n: nat)
    requires Idle(p) && IsPacket(packet) && |packet| <= SOCKET_BUFFER_SIZE && n < |packet|
    requires !s.undefined && c in s.peers && s.peers[c] == PartlyTaken(p, packet, n)
    ensures Enabled(s, TakeByte(c, true))
    ensures var q := if n + 1 < |packet| then PartlyTaken(p, packet, n + 1) else WithPacket(p, packet);
            Step(s, TakeByte(c, true)) == s.(peers := s.peers[c := q])
  {
    hide TakenByte, Fits;
    TakesOne(p, packet, n);
  }

  lemma UpdateTwice(m: map<nat, Peer>, c: nat, p: Peer, q: Peer)
    ensures m[c := p][c := q] == m[c := q]
  {
  }

  lemma {:induction false} BytesArrive(events: seq<Event>, c: nat, p: Peer, packet: seq<byte>, n: nat)
    requires Idle(p) && IsPacket(packet) && |packet| <= SOCKET_BUFFER_SIZE && n < |packet|
    requires !After(events).undefined && c in After(events).peers
    requires After(events).peers[c] == PartlyTaken(p, packet, 0)
    ensures var s := After(events);
            After(events + Takes(c, n)) == s.(peers := s.peers[c := PartlyTaken(p, packet, n)])
    decreases n
  {
    hide After, Step, Enabled, PartlyTaken, Idle, IsPacket;
    var s := After(events);
    if n == 0 {
      assert events + Takes(c, 0) == events;
      assert s.peers[c := s.peers[c]] == s.peers;
    } else {
      BytesArrive(events, c, p, packet, n - 1);
      TakesSnoc(events, c, n);
      ByteArrives(After(events + Takes(c, n - 1)), c, p, packet, n - 1);
      AfterSnoc(events + Takes(c, n - 1), TakeByte(c, true));
      UpdateTwice(s.peers, c, PartlyTaken(p, packet, n - 1), PartlyTaken(p, packet, n));
    }
  }

  lemma NotEmpty(packet: seq<byte>)
    requires IsPacket(packet)
    ensures packet != []
  {
  }

  lemma AllBytesArrive(events: seq<Event>, c: nat, p: Peer, packet: seq<byte>)
    requires Idle(p) && IsPacket(packet) && |packet| <= SOCKET_BUFFER_SIZE
    requires !After(events).undefined && c in After(events).peers
    requires After(events).peers[c] == PartlyTaken(p, packet, 0)
    ensures var s := After(events);
            After(events + Takes(c, |packet|)) == s.(peers := s.peers[c := WithPacket(p, packet)])
  {
    hide After, Step, Enabled, PartlyTaken, WithPacket, Idle, Takes, IsPacket;
    var s, n := After(events), |packet|;
    NotEmpty(packet);
    BytesArrive(events, c, p, packet, n - 1);
    ByteArrives(After(events + Takes(c, n - 1)), c, p, packet, n - 1);
    AfterSnoc(events + Takes(c, n - 1), TakeByte(c, true));
    TakesSnoc(events, c, n);
    UpdateTwice(s.peers, c, PartlyTaken(p, packet, n - 1), WithPacket(p, packet));
  }

  lemma PacketComes(events: seq<Event>, c: nat, packet: seq<byte>)
    requires IsPacket(packet) && |packet| <= SOCKET_BUFFER_SIZE
    requires !After(events).undefined && c in After(events).peers && Idle(After(events).peers[c])
    ensures var s := After(events);
            After(events + NextPacket(c, packet)) == s.(peers := s.peers[c := WithPacket(s.peers[c], packet)])
  {
    hide After, Fits, WithPacket, Takes, IsPacket;
    var s := After(events);
    var p := s.peers[c];
    AfterSnoc(events, Receive(c, packet));
    assert p.consumed + packet[..0] == p.consumed && p.frame.(tail := packet[..0]) == p.frame;
    AllBytesArrive(events + [Receive(c, packet)], c, p, packet);
    assert events + NextPacket(c, packet) == events + [Receive(c, packet)] + Takes(c, |packet|);
    UpdateTwice(s.peers, c, PartlyTaken(p, packet, 0), WithPacket(p, packet));
  }

  lemma PacketArrives(events: seq<Event>, c: nat, packet: seq<byte>)
    requires IsPacket(packet) && |packet| <= SOCKET_BUFFER_SIZE
    requires !After(events).undefined && c !in After(events).peers
    ensures var s := After(events);
            After(events + Arrival(c, packet)) == s.(peers := s.peers[c := FramedPeer(packet)])
  {
    hide After, Fits, NextPacket, WithPacket, IsPacket;
    var s := After(events);
    AfterSnoc(events, Connect(c));
    PacketComes(events + [Connect(c)], c, packet);
    assert events + Arrival(c, packet) == events + [Connect(c)] + NextPacket(c, packet);
    UpdateTwice(s.peers, c, NEW_PEER, FramedPeer(packet));
  }

  // ---------------------------------------------------------------- two clients share strtok

  const ONE_TWO: seq<byte> := [49, 44, 50]
  const THREE_FOUR: seq<byte> := [51, 44, 52]

  /** AESDCHAR_IOCSEEKTO:1,2 and AESDCHAR_IOCSEEKTO:3,4 */
  const FIRST := PREFIX + ONE_TWO + [NL]
  const SECOND := PREFIX + THREE_FOUR + [NL]

  lemma Tokens(a: byte, b: byte)
    requires IsDigit(a) && IsDigit(b)
    ensures TokenOf([a, COMMA, b]) == Some([a]) && RestOf([a, COMMA, b]) == [b]
    ensures TokenOf([b]) == Some([b]) && RestOf([b]) == []
    ensures TokenOf([]) == None && RestOf([]) == []
    ensures Operand(Some([a])) == Some((a - ZERO) as nat)
  {
    hide SeekPacket.Convert, StrTok, Value;
    assert [a] + [COMMA] + [b] == [a, COMMA, b];
    TokenBeforeComma([a], [b]);
    LastToken([b]);
    NoToken();
    DigitDenotes(a);
    ConvertExactly([a], (a - ZERO) as nat);
  }

  lemma NoToken()
    ensures StrTok([]) == None
  {
  }

  lemma DigitValue(a: byte)
    requires IsDigit(a)
    ensures AllDigits([a]) && Value([a]) == (a - ZERO) as nat
  {
    assert [a][..0] == [];
    assert Value([]) == 0;
  }

  lemma DigitDenotes(a: byte)
    requires IsDigit(a)
    ensures Denotes([a], (a - ZERO) as nat)
  {
    hide Value;
    DigitValue(a);
    assert [] + [] + [a] == [a];
    assert DenotesBy([a], [], [], [a], (a - ZERO) as nat);
  }

  lemma SeekPacketOf(body: seq<byte>)
    requires |body| == 3 && body[1] == COMMA && IsDigit(body[0]) && IsDigit(body[2])
    ensures var packet := PREFIX + body + [NL];
            && IsPacket(packet) && |packet| == 23 && HasPrefix(packet) && Body(packet) == body
            && SeekArgs(packet) == Some(((body[0] - ZERO) as nat, (body[2] - ZERO) as nat))
  {
    hide TokenOf, RestOf, Operand, CString;
    var packet := PREFIX + body + [NL];
    assert packet[..PREFIX_LENGTH] == PREFIX;
    assert packet[PREFIX_LENGTH..|packet| - 1] == body;
    NoNul(body);
    assert body == [body[0], COMMA, body[2]];
    Tokens(body[0], body[2]);
    Tokens(body[2], body[0]);
  }

  const A := FramedPeer(FIRST)
  const B := FramedPeer(SECOND)

  const TWO_ARRIVED := INIT.(peers := map[1 := A, 2 := B])

  // Both have made their first call; the position is behind the first token of client 2.
  const ONE_CALLED := TWO_ARRIVED.(peers := map[1 := A.(stage := Between(Some([49]), 1)), 2 := B],
                                   strtok := In(Copy(1, 1), [50]), calls := 1)
  const BOTH_CALLED := ONE_CALLED.(peers := map[1 := A.(stage := Between(Some([49]), 1)),
                                                2 := B.(stage := Between(Some([51]), 2))],
                                   strtok := In(Copy(2, 2), [52]), calls := 2)

  // Client 1 gets the second token of client 2, and client 2 none.
  const A_MIXED := A.(stage := Converting(Some([49]), Some([52]), 1, Copy(2, 2), false))
  const B_MIXED := B.(stage := Converting(Some([51]), None, 2, Copy(2, 2), false))
  const ONE_MIXED := BOTH_CALLED.(peers := map[1 := A_MIXED, 2 := B.(stage := Between(Some([51]), 2))],
                                  strtok := In(Copy(2, 2), []), calls := 3)
  const BOTH_MIXED := ONE_MIXED.(peers := map[1 := A_MIXED, 2 := B_MIXED], calls := 4)
  const A_WRONG := A.(stage := Ready(Some((1, 4)), false))
  const ONE_WRONG := BOTH_MIXED.(peers := map[1 := A_WRONG, 2 := B_MIXED])
  const BOTH_WRONG := BOTH_MIXED.(peers := map[1 := A_WRONG, 2 := B.(stage := Ready(None, false))])

  // Client 2 is done with its packet before client 1 calls again.
  const B_DONE := B.(stage := Converting(Some([51]), Some([52]), 2, Copy(2, 2), true))
  const TWO_DONE := BOTH_CALLED.(peers := map[1 := A.(stage := Between(Some([49]), 1)), 2 := B_DONE],
                                 strtok := In(Copy(2, 2), []), calls := 3)
  const TWO_FREED := TWO_DONE.(peers := map[1 := A.(stage := Between(Some([49]), 1)),
                                            2 := B.(stage := Ready(Some((3, 4)), true))])

  const ARRIVALS := Arrival(1, FIRST) + Arrival(2, SECOND)

  lemma BothArrive()
    ensures After(ARRIVALS) == TWO_ARRIVED
  {
    hide After, Arrival, SeekArgs, Body, HasPrefix;
    SeekPacketOf(ONE_TWO);
    SeekPacketOf(THREE_FOUR);
    NothingYet();
    PacketArrives([], 1, FIRST);
    assert [] + Arrival(1, FIRST) == Arrival(1, FIRST);
    PacketArrives(Arrival(1, FIRST), 2, SECOND);
    assert After(ARRIVALS).peers == TWO_ARRIVED.peers;
  }

  lemma NothingYet()
    ensures After([]) == INIT
  {
  }

  lemma AllTokens()
    ensures HasPrefix(FIRST) && Body(FIRST) == ONE_TWO && HasPrefix(SECOND) && Body(SECOND) == THREE_FOUR
    ensures SeekArgs(FIRST) == Some((1, 2)) && SeekArgs(SECOND) == Some((3, 4))
    ensures TokenOf(ONE_TWO) == Some([49]) && RestOf(ONE_TWO) == [50]
    ensures TokenOf(THREE_FOUR) == Some([51]) && RestOf(THREE_FOUR) == [52]
    ensures TokenOf([52]) == Some([52]) && RestOf([52]) == [] && TokenOf([]) == None && RestOf([]) == []
    ensures Operand(None) == None
    ensures Operand(Some([49])) == Some(1) && Operand(Some([51])) == Some(3) && Operand(Some([52])) == Some(4)
  {
    hide TokenOf, RestOf, Operand, Body, HasPrefix, SeekArgs;
    SeekPacketOf(ONE_TWO);
    SeekPacketOf(THREE_FOUR);
    Tokens(49, 50);
    Tokens(51, 52);
    Tokens(52, 52);
    NoOperand();
  }

  lemma NoOperand()
    ensures Operand(None) == None
  {
  }

  lemma FirstCalls()
    ensures After(ARRIVALS + [Classify(1, true)] + [Classify(2, true)]) == BOTH_CALLED
  {
    hide After, TokenOf, RestOf, Body, HasPrefix, SeekArgs, Operand, Fits;
    AllTokens();
    BothArrive();
    AfterSnoc(ARRIVALS, Classify(1, true));
    assert After(ARRIVALS + [Classify(1, true)]).peers == ONE_CALLED.peers;
    AfterSnoc(ARRIVALS + [Classify(1, true)], Classify(2, true));
    assert After(ARRIVALS + [Classify(1, true)] + [Classify(2, true)]).peers == BOTH_CALLED.peers;
  }

  const CALLED_ONCE := ARRIVALS + [Classify(1, true)] + [Classify(2, true)]
  const CALLED_TWICE := CALLED_ONCE + [CallAgain(1)] + [CallAgain(2)]
  const CONVERTED := CALLED_TWICE + [Convert(1)] + [Convert(2)]

  lemma SecondCalls()
    ensures After(CALLED_TWICE) == BOTH_MIXED
  {
    hide After, TokenOf, RestOf, Body, HasPrefix, SeekArgs, Operand, Fits;
    AllTokens();
    FirstCalls();
    AfterSnoc(CALLED_ONCE, CallAgain(1));
    assert After(CALLED_ONCE + [CallAgain(1)]).peers == ONE_MIXED.peers;
    AfterSnoc(CALLED_ONCE + [CallAgain(1)], CallAgain(2));
    assert After(CALLED_TWICE).peers == BOTH_MIXED.peers;
  }

  /**
    Two clients that ask for (1, 2) and (3, 4) may together be taken to ask for (1, 4), and to send
    data: their calls of strtok alternate.
   */
  lemma OperandsCanMix()
    ensures var s := After(CONVERTED);
            && s == BOTH_WRONG
            && SeekArgs(PacketOf(s.peers[1])) == Some((1, 2)) && s.peers[1].stage.args == Some((1, 4))
            && SeekArgs(PacketOf(s.peers[2])) == Some((3, 4)) && s.peers[2].stage.args == None
  {
    hide After, TokenOf, RestOf, Body, HasPrefix, SeekArgs, Operand, Fits;
    AllTokens();
    SecondCalls();
    AfterSnoc(CALLED_TWICE, Convert(1));
    assert After(CALLED_TWICE + [Convert(1)]).peers == ONE_WRONG.peers;
    AfterSnoc(CALLED_TWICE + [Convert(1)], Convert(2));
    assert After(CONVERTED).peers == BOTH_WRONG.peers;
  }

  const FREED := CALLED_ONCE + [CallAgain(2)] + [Convert(2)]

  /** A client can be led to read the packet copy that another has freed. */
  lemma FreedCopyCanBeRead()
    ensures After(FREED) == TWO_FREED && After(FREED + [CallAgain(1)]).undefined
  {
    hide After, TokenOf, RestOf, Body, HasPrefix, SeekArgs, Operand, Fits;
    AllTokens();
    FirstCalls();
    AfterSnoc(CALLED_ONCE, CallAgain(2));
    assert After(CALLED_ONCE + [CallAgain(2)]).peers == TWO_DONE.peers;
    AfterSnoc(CALLED_ONCE + [CallAgain(2)], Convert(2));
    assert After(FREED).peers == TWO_FREED.peers;
    AfterSnoc(FREED, CallAgain(1));
  }

  // ---------------------------------------------------------------- data is served

  /** The packet in one write, the content in one read. */
  function Plain(log: seq<seq<byte>>, packet: seq<byte>, results: seq<SendResult>): Script {
    Script([packet], [|Content(log + [packet])|], results)
  }

  lemma PlainFits(device: DeviceState, packet: seq<byte>, size: nat, results: seq<SendResult>)
    requires device.pending == [] && GoodLog(device.log) && GoodPacket(packet)
    requires Complete(|Content(device.log + [packet])|, size, results)
    ensures Fits(device, packet, None, size, Plain(device.log, packet, results))
  {
    hide Content, Complete, FileStart, GoodLog;
    var log, total := device.log + [packet], |Content(device.log + [packet])|;
    ConcatOne(packet);
    OneWrite(device, packet);
    GoodLogAfter(device.log, packet, None);
    FileStartIsPlace(log, None);
    OneRead(Content(log));
  }

  lemma OneWrite(device: DeviceState, packet: seq<byte>)
    requires device.pending == [] && GoodPacket(packet)
    ensures WriteAll(device, [packet]) == DeviceState(device.log + [packet], [])
  {
    ConcatOne(packet);
    PacketBecomesOneLine(device, [packet]);
    assert [] + packet == packet;
  }

  lemma OneRead(content: seq<byte>)
    ensures ReadsToEnd(content, 0, [|content|]) && Reads(content, 0, [|content|]).0 == content
  {
    assert [|content|][1..] == [];
  }

  /** A client whose complete packet is taken for data is served, with these results of its sends. */
  lemma ServesData(events: seq<Event>, c: nat, packet: seq<byte>, undisturbed: bool, results: seq<SendResult>)
    requires var s := After(events);
             && !s.undefined && c in s.peers && s.peers[c].open && s.peers[c].size == SOCKET_BUFFER_SIZE
             && PacketOf(s.peers[c]) == packet && s.peers[c].stage == Ready(None, undisturbed)
             && s.device.pending == [] && GoodLog(s.device.log) && GoodPacket(packet)
             && MayBeTakenFor(packet, None, undisturbed)
             && Complete(|Content(s.device.log + [packet])|, SOCKET_BUFFER_SIZE, results)
    ensures var s := After(events);
            var s' := After(events + [Serve(c, Plain(s.device.log, packet, results))]);
            var p := s.peers[c];
            && s'.device == DeviceState(s.device.log + [packet], [])
            && s'.peers == s.peers[c := p.(stage := Receiving, open := Failed !in results,
                 sent := p.sent + Payload(Content(s.device.log + [packet]), SOCKET_BUFFER_SIZE, results))]
            && !s'.undefined && s'.strtok == s.strtok && s'.calls == s.calls
  {
    hide After, Content, Complete, GoodLog, GoodPacket, Payload, Fits, Sends, DeviceAfter, MayBeTakenFor, PacketOf;
    var s := After(events);
    var script := Plain(s.device.log, packet, results);
    PlainFits(s.device, packet, SOCKET_BUFFER_SIZE, results);
    ServingMeetsSpec(s.device, packet, None, undisturbed, SOCKET_BUFFER_SIZE, script);
    AfterSnoc(events, Serve(c, script));
  }

  const MIXED_SERVED := CONVERTED + [Serve(2, Plain([], SECOND, [Took(23)]))]

  /** The seek command of the second of these clients then becomes a line of the device. */
  lemma SeekCommandCanBecomeData()
    ensures SeekArgs(SECOND) == Some((3, 4)) && After(MIXED_SERVED).device.log == [SECOND]
  {
    hide After, SeekArgs, Complete, Payload, Content, HasPrefix, Body, TokenOf, Operand, Fits;
    OperandsCanMix();
    SeekPacketOf(THREE_FOUR);
    OneLine(SECOND);
    OneSend(23, SOCKET_BUFFER_SIZE);
    ServesData(CONVERTED, 2, SECOND, false, [Took(23)]);
  }

  lemma OneLine(packet: seq<byte>)
    ensures Content([] + [packet]) == packet
  {
    assert [] + [packet] == [packet];
    ConcatOne(packet);
  }

  lemma OneSend(total: nat, size: nat)
    requires 0 < total <= size
    ensures Complete(total, size, [Took(total)])
  {
    NothingSent(total, size);
    TransmitSnoc(total, size, [], Took(total));
    assert [] + [Took(total)] == [Took(total)];
  }

  // Client 1 has got a token of client 2, which is done with that packet and begins to parse its next.
  const ONE_DONE := CALLED_TWICE + [Convert(2)]
  const ONE_SERVED := ONE_DONE + [Serve(2, Plain([], SECOND, [Took(23)]))]
  const NEXT_COPY := ONE_SERVED + NextPacket(2, SECOND) + [Classify(2, true)]

  lemma OwnerIsServed()
    ensures var s := After(ONE_SERVED);
            && !s.undefined && 1 in s.peers && s.peers[1] == BOTH_MIXED.peers[1]
            && 2 in s.peers && Idle(s.peers[2]) && s.calls == 4
  {
    hide After, TokenOf, RestOf, Body, HasPrefix, SeekArgs, Operand, Fits, Complete, Payload, Content;
    AllTokens();
    SecondCalls();
    AfterSnoc(CALLED_TWICE, Convert(2));
    SeekPacketOf(THREE_FOUR);
    OneLine(SECOND);
    OneSend(23, SOCKET_BUFFER_SIZE);
    ServesData(ONE_DONE, 2, SECOND, false, [Took(23)]);
  }

  /** A token is lost with the copy it lies in, though its owner holds another copy by then. */
  lemma TokenOfFreedCopyCanBeRead()
    ensures var s := After(NEXT_COPY);
            && !s.undefined && 1 in s.peers && 2 in s.peers
            && s.peers[1].stage == Converting(Some([49]), Some([52]), 1, Copy(2, 2), false)
            && s.peers[2].stage.Between? && After(NEXT_COPY + [Convert(1)]).undefined
  {
    hide After, TokenOf, RestOf, Body, HasPrefix, SeekArgs, Operand, Fits, NextPacket;
    AllTokens();
    OwnerIsServed();
    SeekPacketOf(THREE_FOUR);
    PacketComes(ONE_SERVED, 2, SECOND);
    AfterSnoc(ONE_SERVED + NextPacket(2, SECOND), Classify(2, true));
    AfterSnoc(NEXT_COPY, Convert(1));
  }

  // ---------------------------------------------------------------- a failed send leaves a gap

  /** A line that fills one buffer, and a short one. */
  const LONG_LINE: seq<byte> := seq(1023, i => 97) + [NL]
  const SHORT_LINE: seq<byte> := [98, NL]

  lemma GapLines()
    ensures GoodPacket(LONG_LINE) && |LONG_LINE| == 1024 && !HasPrefix(LONG_LINE) && SeekArgs(LONG_LINE).None?
    ensures GoodPacket(SHORT_LINE) && !HasPrefix(SHORT_LINE) && SeekArgs(SHORT_LINE).None?
    ensures LONG_LINE[0] == 97
  {
    assert LONG_LINE[..PREFIX_LENGTH][0] == 97 && PREFIX[0] == 65;
  }

  /** The first buffer-full is given up, the second is sent. */
  lemma GapSends()
    ensures Complete(1026, 1024, [Failed, Took(2)])
    ensures Transmit(1026, 1024, [Failed, Took(2)]).ranges == [Range(1024, 1026)]
    ensures TakesAfterFailure([Failed, Took(2)])
  {
    NothingSent(1026, 1024);
    TransmitSnoc(1026, 1024, [], Failed);
    TransmitSnoc(1026, 1024, [Failed], Took(2));
    assert [] + [Failed] == [Failed] && [Failed] + [Took(2)] == [Failed, Took(2)];
    assert [Failed, Took(2)][0].Failed? && [Failed, Took(2)][1].Took?;
  }

  lemma GapPayload()
    ensures Content([LONG_LINE] + [SHORT_LINE]) == LONG_LINE + SHORT_LINE
    ensures Payload(LONG_LINE + SHORT_LINE, 1024, [Failed, Took(2)]) == SHORT_LINE
  {
    hide Transmit, Complete, HasPrefix, SeekArgs;
    GapLines();
    GapSends();
    ConcatOne(LONG_LINE);
    ConcatSnoc([LONG_LINE], SHORT_LINE);
    BytesOfSnoc(LONG_LINE + SHORT_LINE, [], Range(1024, 1026));
    assert [] + [Range(1024, 1026)] == [Range(1024, 1026)];
    assert (LONG_LINE + SHORT_LINE)[1024..1026] == SHORT_LINE;
  }

  const GAP_0 := Arrival(1, LONG_LINE) + [Classify(1, true)]
  const GAP_1 := GAP_0 + [Serve(1, Plain([], LONG_LINE, [Took(1024)]))]
  const GAP_2 := GAP_1 + Arrival(2, SHORT_LINE) + [Classify(2, true)]
  const GAP_ACTIONS := GAP_2 + [Serve(2, Plain([LONG_LINE], SHORT_LINE, [Failed, Took(2)]))]

  lemma DataArrives(events: seq<Event>, c: nat, packet: seq<byte>)
    requires IsPacket(packet) && |packet| <= SOCKET_BUFFER_SIZE && !HasPrefix(packet)
    requires !After(events).undefined && c !in After(events).peers
    ensures var s := After(events);
            After(events + Arrival(c, packet) + [Classify(c, true)]) ==
            s.(peers := s.peers[c := FramedPeer(packet).(stage := Ready(None, true))])
  {
    hide After, Arrival, HasPrefix, Fits;
    PacketArrives(events, c, packet);
    AfterSnoc(events + Arrival(c, packet), Classify(c, true));
    UpdateTwice(After(events).peers, c, FramedPeer(packet), FramedPeer(packet).(stage := Ready(None, true)));
  }

  lemma GapStart()
    ensures After(GAP_1).device == DeviceState([LONG_LINE], [])
    ensures !After(GAP_1).undefined && 2 !in After(GAP_1).peers
  {
    hide After, Arrival, HasPrefix, SeekArgs, Complete, Payload, Content, GoodPacket;
    GapLines();
    NothingYet();
    GoodIsPacket(LONG_LINE);
    DataArrives([], 1, LONG_LINE);
    assert [] + Arrival(1, LONG_LINE) == Arrival(1, LONG_LINE);
    OneLine(LONG_LINE);
    OneSend(1024, SOCKET_BUFFER_SIZE);
    ServesData(GAP_0, 1, LONG_LINE, true, [Took(1024)]);
    assert [] + [LONG_LINE] == [LONG_LINE];
  }

  lemma GoodIsPacket(packet: seq<byte>)
    ensures GoodPacket(packet) ==> IsPacket(packet) && |packet| > 0
  {
  }

  /**
    What a client is sent need not be a prefix of the content: its first send fails, the loop goes on
    with the next buffer-full, and that send succeeds.
   */
  lemma FailedSendLeavesGap()
    ensures var s := After(GAP_ACTIONS);
            && 2 in s.peers && s.peers[2].sent == SHORT_LINE
            && Content(s.device.log) == LONG_LINE + SHORT_LINE
            && !(s.peers[2].sent <= Content(s.device.log))
  {
    hide After, Arrival, HasPrefix, SeekArgs, Complete, Payload, Content, GoodPacket, TakesAfterFailure, Transmit;
    GapLines();
    GapSends();
    GapPayload();
    GapStart();
    GoodIsPacket(SHORT_LINE);
    DataArrives(GAP_1, 2, SHORT_LINE);
    ServesData(GAP_2, 2, SHORT_LINE, true, [Failed, Took(2)]);
    assert SHORT_LINE[0] != (LONG_LINE + SHORT_LINE)[0];
  }
}
