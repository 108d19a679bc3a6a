/**
  The whole server over one device: any number of clients, receives of any size, and packets served
  one at a time as log_file_mutex lets them through. A client takes the next received byte, as the
  loop of process_received_data does. A complete packet is classified with no lock held, so the two
  strtok calls of that are steps of their own: the position strtok keeps is shared by all clients.
 */
module ServerRuns {
  import opened Bytes
  import opened DeviceSpec
  import opened Framing
  import opened SeekPacket
  import opened ServerSpec
  import opened Serving

  /** The copy a client parses of one packet, told from its later ones by the number of its first strtok call. */
  datatype Copy = Copy(client: nat, call: nat)

  /** The position strtok keeps: in a copy, with this string from there on. */
  datatype Position = Nowhere | In(copy: Copy, rest: seq<byte>)

  datatype Stage =
    | Receiving
    | Framed                                          // a packet is complete
    | Between(first: Option<seq<byte>>, call: nat)    // after the first strtok call, which has this number
    | Converting(first: Option<seq<byte>>, second: Option<seq<byte>>, call: nat,
                 owner: Copy,                         // the copy the second token lies in
                 undisturbed: bool)
    | Ready(args: Args, undisturbed: bool)            // wants log_file_mutex

  datatype Peer = Peer(received: seq<byte>, consumed: seq<byte>, frame: Frame, size: nat, stage: Stage,
                       open: bool, sent: seq<byte>)

  datatype Turn = Turn(client: nat, s: Served)

  datatype System = System(
    device: DeviceState,
    peers: map<nat, Peer>,
    strtok: Position,
    calls: nat,        // of strtok, by any client
    undefined: bool,   // a copy was read after it had been freed; no step is taken from there
    turns: seq<Turn>)  // the packets served, in the order of the mutex

  datatype Event =
    | Connect(client: nat)
    | Receive(client: nat, chunk: seq<byte>)
    | TakeByte(client: nat, reallocSucceeds: bool)
    | Classify(client: nat, mallocSucceeds: bool)  // prefix, copy, and strtok(xy_str, ",")
    | CallAgain(client: nat)                       // strtok(NULL, ",")
    | Convert(client: nat)                         // both conversions; the copy is freed
    | Serve(client: nat, script: Script)           // all that happens under the mutex

  const INIT := System(FRESH, map[], Nowhere, 0, false, [])

  const NEW_PEER := Peer([], [], START, SOCKET_BUFFER_SIZE, Receiving, true, [])

  /** The packet a client has completed last. */
  function PacketOf(p: Peer): seq<byte> {
    if p.frame.packets == [] then [] else p.frame.packets[|p.frame.packets| - 1]
  }

  /** The copy is not freed yet. */
  predicate HoldsCopy(peers: map<nat, Peer>, copy: Copy) {
    copy.client in peers &&
    match peers[copy.client].stage
    case Between(_, call) => call == copy.call
    case Converting(_, _, call, _, _) => call == copy.call
    case _ => false
  }

  predicate PeerEnabled(s: System, p: Peer, e: Event) {
    p.open &&
    match e
    case Connect(_) => false
    case Receive(_, _) => p.stage.Receiving? && p.consumed == p.received
    case TakeByte(_, _) => p.stage.Receiving? && p.consumed < p.received
    case Classify(_, _) => p.stage.Framed?
    case CallAgain(_) => p.stage.Between?
    case Convert(_) => p.stage.Converting?
    case Serve(_, script) => p.stage.Ready? && Fits(s.device, PacketOf(p), p.stage.args, p.size, script)
  }

  predicate Enabled(s: System, e: Event) {
    !s.undefined &&
    if e.Connect? then e.client !in s.peers else e.client in s.peers && PeerEnabled(s, s.peers[e.client], e)
  }

  /** The buffer grows before a byte that finds it full, if memory allows. */
  function TakenByte(p: Peer, reallocSucceeds: bool): Peer
    requires p.consumed < p.received
  {
    var b := p.received[|p.consumed|];
    var full := |p.frame.tail| >= p.size && |p.frame.tail| < MAX_PACKET_SIZE;
    if full && !reallocSucceeds then p.(open := false)
    else
      var frame := FeedByte(p.frame, b);
      p.(consumed := p.consumed + [b], frame := frame, size := if full then 2 * p.size else p.size,
         stage := if b == NL && !frame.overflowed then Framed else Receiving, open := !frame.overflowed)
  }

  function Classified(s: System, c: nat, mallocSucceeds: bool): System
    requires c in s.peers
  {
    var p := s.peers[c];
    if !HasPrefix(PacketOf(p)) then s.(peers := s.peers[c := p.(stage := Ready(None, true))])
    else if !mallocSucceeds then s.(peers := s.peers[c := p.(stage := Ready(None, false))])
    else
      var body := Body(PacketOf(p));
      s.(peers := s.peers[c := p.(stage := Between(TokenOf(body), s.calls + 1))],
         strtok := In(Copy(c, s.calls + 1), RestOf(body)), calls := s.calls + 1)
  }

  function CalledAgain(s: System, c: nat): System
    requires c in s.peers && s.peers[c].stage.Between?
  {
    var p := s.peers[c];
    if s.strtok.Nowhere? || !HoldsCopy(s.peers, s.strtok.copy) then s.(undefined := true)
    else
      var stage := Converting(p.stage.first, TokenOf(s.strtok.rest), p.stage.call, s.strtok.copy,
                              s.calls == p.stage.call);
      s.(peers := s.peers[c := p.(stage := stage)],
         strtok := In(s.strtok.copy, RestOf(s.strtok.rest)), calls := s.calls + 1)
  }

  /** The second token is looked at only when there is one and the first converts. */
  function Converted(s: System, c: nat): System
    requires c in s.peers && s.peers[c].stage.Converting?
  {
    var p, g := s.peers[c], s.peers[c].stage;
    if Operand(g.first).Some? && g.second.Some? && !HoldsCopy(s.peers, g.owner) then s.(undefined := true)
    else s.(peers := s.peers[c := p.(stage := Ready(Operands(g.first, g.second), g.undisturbed))])
  }

  function ServedNow(s: System, c: nat, script: Script): System
    requires c in s.peers && s.peers[c].stage.Ready?
  {
    var p := s.peers[c];
    var (out, ok) := Sends(s.device, p.stage.args, p.size, script);
    var record := Served(s.device.log, PacketOf(p), p.stage.args, p.stage.undisturbed, p.size, script.results);
    s.(device := DeviceAfter(s.device, p.stage.args, script),
       peers := s.peers[c := p.(stage := Receiving, open := ok, sent := p.sent + out)],
       turns := s.turns + [Turn(c, record)])
  }

  function Step(s: System, e: Event): System
    requires Enabled(s, e)
  {
    match e
    case Connect(c) => s.(peers := s.peers[c := NEW_PEER])
    case Receive(c, chunk) => s.(peers := s.peers[c := s.peers[c].(received := s.peers[c].received + chunk)])
    case TakeByte(c, reallocSucceeds) => s.(peers := s.peers[c := TakenByte(s.peers[c], reallocSucceeds)])
    case Classify(c, mallocSucceeds) => Classified(s, c, mallocSucceeds)
    case CallAgain(c) => CalledAgain(s, c)
    case Convert(c) => Converted(s, c)
    case Serve(c, script) => ServedNow(s, c, script)
  }

  /** The system after the events; those that are not enabled change nothing. */
  function After(events: seq<Event>): System {
    if events == [] then INIT
    else
      var s, e := After(events[..|events| - 1]), events[|events| - 1];
      if Enabled(s, e) then Step(s, e) else s
  }

  // ---------------------------------------------------------------- what the turns stand for

  /** The packets taken for data, in the order they were served. */
  function DataOf(turns: seq<Turn>): seq<seq<byte>> {
    if turns == [] then []
    else
      var s := turns[|turns| - 1].s;
      LogAfter(DataOf(turns[..|turns| - 1]), s.packet, s.args)
  }

  /** The packets served to one client. */
  function ServedOf(turns: seq<Turn>, c: nat): seq<Served> {
    if turns == [] then []
    else
      var t := turns[|turns| - 1];
      ServedOf(turns[..|turns| - 1], c) + (if t.client == c then [t.s] else [])
  }

  ghost predicate TurnsInv(turns: seq<Turn>) {
    forall i {:trigger turns[i]} :: 0 <= i < |turns| ==>
      turns[i].s.found == DataOf(turns[..i]) && Legit(turns[i].s)
  }

  lemma TurnAdded(turns: seq<Turn>, t: Turn)
    requires TurnsInv(turns) && t.s.found == DataOf(turns) && Legit(t.s)
    ensures TurnsInv(turns + [t])
    ensures DataOf(turns + [t]) == LogLeft(t.s)
    ensures ServedOf(turns + [t], t.client) == ServedOf(turns, t.client) + [t.s]
    ensures forall c :: c != t.client ==> ServedOf(turns + [t], c) == ServedOf(turns, c)
  {
    hide Legit;
    var ts := turns + [t];
    assert ts[..|ts| - 1] == turns;
    forall i | 0 <= i < |ts|
      ensures ts[i].s.found == DataOf(ts[..i]) && Legit(ts[i].s)
    {
      if i < |turns| {
        assert ts[i] == turns[i] && ts[..i] == turns[..i];
      }
    }
  }

  // ---------------------------------------------------------------- the invariant

  predicate FrameInv(p: Peer) {
    && p.consumed <= p.received
    && p.frame == Feed(START, p.consumed)
    && p.size == SizeOf(p.frame) && |p.frame.tail| <= p.size
    && (p.open ==> !p.frame.overflowed)
    && (!p.stage.Receiving? ==> p.open && p.frame.packets != [] && p.frame.tail == [])
  }

  /** How far a client has come with classifying its packet, and what strtok's position has to do with it. */
  predicate ParseInv(c: nat, packet: seq<byte>, stage: Stage, strtok: Position, calls: nat) {
    match stage
    case Between(first, call) =>
      && HasPrefix(packet) && first == TokenOf(Body(packet))
      && call <= calls && strtok.In?
      && (calls == call ==> strtok == In(Copy(c, call), RestOf(Body(packet))))
    case Converting(first, second, call, owner, undisturbed) =>
      && HasPrefix(packet) && first == TokenOf(Body(packet))
      && (undisturbed ==> owner == Copy(c, call) && second == TokenOf(RestOf(Body(packet))))
    case Ready(args, undisturbed) => MayBeTakenFor(packet, args, undisturbed)
    case _ => true
  }

  /** The packets served so far: all complete ones, but for one still being worked on. */
  function DonePackets(p: Peer): seq<seq<byte>> {
    if p.stage.Receiving? || p.frame.packets == [] then p.frame.packets
    else p.frame.packets[..|p.frame.packets| - 1]
  }

  predicate ServedInv(p: Peer, served: seq<Served>) {
    && Packets(served) == DonePackets(p)
    && p.sent == Delivered(served)
    && (p.open ==> AllWhole(served))
    && AllButLastWhole(served) && AllSized(served)
  }

  ghost predicate PeersInv(s: System) {
    forall c :: c in s.peers ==>
      && FrameInv(s.peers[c])
      && ParseInv(c, PacketOf(s.peers[c]), s.peers[c].stage, s.strtok, s.calls)
      && ServedInv(s.peers[c], ServedOf(s.turns, c))
  }

  ghost predicate DeviceInv(s: System) {
    && s.device == DeviceState(DataOf(s.turns), []) && GoodLog(s.device.log)
    && TurnsInv(s.turns)
    && (forall c :: c !in s.peers ==> ServedOf(s.turns, c) == [])
  }

  ghost predicate Inv(s: System) {
    PeersInv(s) && DeviceInv(s)
  }

  // ---------------------------------------------------------------- every step keeps it

  lemma ByteKeepsPeer(p: Peer, reallocSucceeds: bool)
    requires FrameInv(p) && p.stage.Receiving? && p.open && p.consumed < p.received
    ensures FrameInv(TakenByte(p, reallocSucceeds))
    ensures DonePackets(TakenByte(p, reallocSucceeds)) == DonePackets(p)
    ensures var q := TakenByte(p, reallocSucceeds); q.sent == p.sent && (q.stage.Receiving? || q.stage.Framed?)
  {
    hide Feed, SizeOf;
    FeedSnoc(START, p.consumed, p.received[|p.consumed|]);
    SizeGrows(p.frame, p.received[|p.consumed|]);
  }

  lemma LastPacketGood(p: Peer)
    requires FrameInv(p) && p.frame.packets != []
    ensures GoodPacket(PacketOf(p))
  {
    hide Feed, GoodPacket;
    FeedKeepsGood(START, p.consumed);
  }

  /** A new call of strtok by another client leaves a client between its calls disturbed. */
  lemma OthersParse(d: nat, packet: seq<byte>, stage: Stage, strtok: Position, calls: nat,
                    strtok': Position, calls': nat)
    requires ParseInv(d, packet, stage, strtok, calls)
    requires (calls' == calls && strtok' == strtok) || (calls' > calls && strtok'.In?)
    ensures ParseInv(d, packet, stage, strtok', calls')
  {
    hide HasPrefix, TokenOf, RestOf, MayBeTakenFor, Body;
  }

  /** It is enough to look at the client that takes the step. */
  lemma OnePeerStep(s: System, c: nat, p: Peer, strtok: Position, calls: nat)
    requires Inv(s) && c in s.peers
    requires (calls == s.calls && strtok == s.strtok) || (calls > s.calls && strtok.In?)
    requires FrameInv(p) && ParseInv(c, PacketOf(p), p.stage, strtok, calls)
    requires DonePackets(p) == DonePackets(s.peers[c]) && p.sent == s.peers[c].sent && (p.open ==> s.peers[c].open)
    ensures Inv(s.(peers := s.peers[c := p], strtok := strtok, calls := calls))
  {
    hide FrameInv, ParseInv, DonePackets, PacketOf, Delivered, Packets, AllWhole, AllButLastWhole;
    hide DataOf, TurnsInv, ServedOf;
    forall d | d in s.peers && d != c
      ensures ParseInv(d, PacketOf(s.peers[d]), s.peers[d].stage, strtok, calls)
    {
      OthersParse(d, PacketOf(s.peers[d]), s.peers[d].stage, s.strtok, s.calls, strtok, calls);
    }
  }

  lemma NewPeerInv(c: nat, strtok: Position, calls: nat)
    ensures FrameInv(NEW_PEER) && ParseInv(c, PacketOf(NEW_PEER), NEW_PEER.stage, strtok, calls)
    ensures ServedInv(NEW_PEER, [])
  {
  }

  lemma ConnectKeepsInv(s: System, c: nat)
    requires Inv(s) && Enabled(s, Connect(c))
    ensures Inv(Step(s, Connect(c)))
  {
    hide DataOf, TurnsInv, ParseInv, FrameInv, ServedInv, ServedOf;
    NewPeerInv(c, s.strtok, s.calls);
  }

  lemma ReceiveKeepsInv(s: System, c: nat, chunk: seq<byte>)
    requires Inv(s) && Enabled(s, Receive(c, chunk))
    ensures Inv(Step(s, Receive(c, chunk)))
  {
    hide Inv, ParseInv, Feed;
    var p := s.peers[c];
    PeerHasInv(s, c);
    OnePeerStep(s, c, p.(received := p.received + chunk), s.strtok, s.calls);
  }

  lemma PeerHasInv(s: System, c: nat)
    requires Inv(s) && c in s.peers
    ensures FrameInv(s.peers[c]) && ParseInv(c, PacketOf(s.peers[c]), s.peers[c].stage, s.strtok, s.calls)
  {
    hide FrameInv, ParseInv, PacketOf, ServedInv, TurnsInv;
  }

  lemma TakeByteKeepsInv(s: System, c: nat, reallocSucceeds: bool)
    requires Inv(s) && Enabled(s, TakeByte(c, reallocSucceeds))
    ensures Inv(Step(s, TakeByte(c, reallocSucceeds)))
  {
    hide Inv, TakenByte, FrameInv, DonePackets;
    PeerHasInv(s, c);
    ByteKeepsPeer(s.peers[c], reallocSucceeds);
    OnePeerStep(s, c, TakenByte(s.peers[c], reallocSucceeds), s.strtok, s.calls);
  }

  lemma ClassifyKeepsInv(s: System, c: nat, mallocSucceeds: bool)
    requires Inv(s) && Enabled(s, Classify(c, mallocSucceeds))
    ensures Inv(Classified(s, c, mallocSucceeds))
  {
    hide Inv, Feed, TokenOf, RestOf, Body, HasPrefix;
    PeerHasInv(s, c);
    var s' := Classified(s, c, mallocSucceeds);
    OnePeerStep(s, c, s'.peers[c], s'.strtok, s'.calls);
  }

  lemma CallAgainKeepsInv(s: System, c: nat)
    requires Inv(s) && Enabled(s, CallAgain(c))
    ensures Inv(CalledAgain(s, c))
  {
    hide Inv, Feed, TokenOf, RestOf, Body, HasPrefix;
    PeerHasInv(s, c);
    var s' := CalledAgain(s, c);
    if s'.undefined {
      UndefinedKeepsInv(s);
    } else {
      OnePeerStep(s, c, s'.peers[c], s'.strtok, s'.calls);
    }
  }

  lemma UndefinedKeepsInv(s: System)
    requires Inv(s)
    ensures Inv(s.(undefined := true))
  {
    hide FrameInv, ParseInv, PacketOf, ServedInv, TurnsInv;
  }

  lemma ConvertKeepsInv(s: System, c: nat)
    requires Inv(s) && Enabled(s, Convert(c))
    ensures Inv(Converted(s, c))
  {
    hide Inv, Feed, TokenOf, RestOf, Body, HasPrefix, Operand, IsUint32;
    PeerHasInv(s, c);
    OperandsAreUint32(s.peers[c].stage.first, s.peers[c].stage.second);
    var s' := Converted(s, c);
    if s'.undefined {
      UndefinedKeepsInv(s);
    } else {
      OnePeerStep(s, c, s'.peers[c], s'.strtok, s'.calls);
    }
  }

  predicate MayServe(s: System, c: nat, script: Script) {
    && c in s.peers && s.peers[c].open && s.peers[c].stage.Ready?
    && Fits(s.device, PacketOf(s.peers[c]), s.peers[c].stage.args, s.peers[c].size, script)
  }

  lemma ServeIsEnabled(s: System, c: nat, script: Script)
    requires Enabled(s, Serve(c, script))
    ensures MayServe(s, c, script)
  {
    hide Fits;
  }

  lemma ServeKeepsPeers(s: System, c: nat, script: Script)
    requires PeersInv(s) && MayServe(s, c, script)
    requires var s', t := ServedNow(s, c, script), ServedNow(s, c, script).turns[|s.turns|];
             && ServedOf(s'.turns, c) == ServedOf(s.turns, c) + [t.s]
             && (forall d :: d != c ==> ServedOf(s'.turns, d) == ServedOf(s.turns, d))
             && Sends(s.device, s.peers[c].stage.args, s.peers[c].size, script) == (SentFor(t.s), Whole(t.s))
    ensures PeersInv(ServedNow(s, c, script))
  {
    hide FrameInv, ServedInv, ParseInv, ServedOf, Whole, SentFor, Fits, Sends, DeviceAfter;
    var t := ServedNow(s, c, script).turns[|s.turns|];
    PeerServed(s.peers[c], ServedOf(s.turns, c), t.s);
    NothingToParse(c, PacketOf(s.peers[c]), s.strtok, s.calls);
  }

  lemma NothingToParse(c: nat, packet: seq<byte>, strtok: Position, calls: nat)
    ensures ParseInv(c, packet, Receiving, strtok, calls)
  {
  }

  lemma PeerServed(p: Peer, served: seq<Served>, s: Served)
    requires FrameInv(p) && p.open && p.stage.Ready? && ServedInv(p, served)
    requires s.packet == PacketOf(p) && s.size == p.size
    ensures var q := p.(stage := Receiving, open := Whole(s), sent := p.sent + SentFor(s));
            FrameInv(q) && ServedInv(q, served + [s])
  {
    hide Feed, Delivered, Packets, AllWhole, AllButLastWhole, Whole, SentFor;
    hide AllSized, JustSized, SizeOf;
    ServedOneMore(served, s);
    DoneWithPacket(p);
    SizedOneMore(served, s);
  }

  lemma DoneWithPacket(p: Peer)
    requires p.stage.Ready? && p.frame.packets != [] && p.frame.tail == [] && p.size == SizeOf(p.frame)
    ensures DonePackets(p) + [PacketOf(p)] == DonePackets(p.(stage := Receiving))
    ensures JustSized(p.size, DonePackets(p), PacketOf(p))
  {
    hide SizeOf, Longest;
    SizeBetween(p.frame.packets, p.frame.overflowed);
    assert DonePackets(p) + [PacketOf(p)] == p.frame.packets;
  }

  lemma ServeKeepsInv(s: System, c: nat, script: Script)
    requires Inv(s) && MayServe(s, c, script)
    ensures Inv(ServedNow(s, c, script))
  {
    hide PeersInv, DataOf, TurnsInv, ServedOf, SentFor, Whole, Fits, Sends, DeviceAfter, MayBeTakenFor, GoodLog, Legit;
    var p := s.peers[c];
    PeerHasInv(s, c);
    LastPacketGood(p);
    ServingMeetsSpec(s.device, PacketOf(p), p.stage.args, p.stage.undisturbed, p.size, script);
    var record := Served(s.device.log, PacketOf(p), p.stage.args, p.stage.undisturbed, p.size, script.results);
    GoodLogAfter(s.device.log, PacketOf(p), p.stage.args);
    TurnAdded(s.turns, Turn(c, record));
    ServeKeepsPeers(s, c, script);
  }

  lemma StepKeepsInv(s: System, e: Event)
    requires Inv(s) && Enabled(s, e)
    ensures Inv(Step(s, e))
  {
    hide Inv, PeerEnabled, Classified, CalledAgain, Converted, ServedNow;
    match e
    case Connect(c) => ConnectKeepsInv(s, c);
    case Receive(c, chunk) => ReceiveKeepsInv(s, c, chunk);
    case TakeByte(c, reallocSucceeds) => TakeByteKeepsInv(s, c, reallocSucceeds);
    case Classify(c, mallocSucceeds) => ClassifyKeepsInv(s, c, mallocSucceeds);
    case CallAgain(c) => CallAgainKeepsInv(s, c);
    case Convert(c) => ConvertKeepsInv(s, c);
    case Serve(c, script) =>
      ServeIsEnabled(s, c, script);
      ServeKeepsInv(s, c, script);
  }

  lemma {:induction false} RunKeepsInv(events: seq<Event>)
    ensures Inv(After(events))
    decreases |events|
  {
    if events == [] {
    } else {
      hide Inv, Step, Enabled;
      var s, e := After(events[..|events| - 1]), events[|events| - 1];
      RunKeepsInv(events[..|events| - 1]);
      if Enabled(s, e) {
        StepKeepsInv(s, e);
      }
    }
  }
}
