/** What clients can rely on in every run of the server. */
module ServerTheorems {
  import opened Bytes
  import opened Positions
  import opened DeviceSpec
  import opened Framing
  import opened SeekPacket
  import opened Sending
  import opened ServerSpec
  import opened Serving
  import opened ServerRuns

  // ---------------------------------------------------------------- classifying packets

  /**
    In every run, a packet between whose two strtok calls no other client called strtok, and whose
    copy could be allocated, is taken for what it is.
   */
  lemma UndisturbedIsParsedRight(events: seq<Event>, c: nat)
    requires c in After(events).peers && After(events).peers[c].stage.Ready?
    ensures var p := After(events).peers[c];
            p.stage.undisturbed ==> p.stage.args == SeekArgs(PacketOf(p))
  {
    hide Inv, After, FrameInv, SeekArgs, TokenOf, Operand, HasPrefix, Body, PacketOf;
    RunKeepsInv(events);
    PeerHasInv(After(events), c);
  }

  /** None of the events from the k-th on calls strtok. */
  ghost predicate NoCallSince(events: seq<Event>, k: nat) {
    forall j {:trigger events[..j]} :: k <= j < |events| ==> After(events[..j + 1]).calls == After(events[..j]).calls
  }

  lemma LastEvent(events: seq<Event>)
    requires events != []
    ensures After(events[..|events| - 1]).calls <= After(events).calls
  {
    hide Enabled, TakenByte, HasPrefix, TokenOf, RestOf, Operand, Operands, Sends, DeviceAfter, PacketOf;
  }

  lemma NoCallSinceLast(events: seq<Event>, k: nat)
    requires k < |events|
    ensures var before := events[..|events| - 1];
            NoCallSince(events, k) <==> NoCallSince(before, k) && After(events).calls == After(before).calls
  {
    hide After;
    var before := events[..|events| - 1];
    assert events[..|events| - 1 + 1] == events;
    assert forall j :: 0 <= j <= |before| ==> before[..j] == events[..j];
  }

  lemma {:induction false} CallsOnlyGrow(events: seq<Event>, k: nat)
    requires k <= |events|
    ensures After(events[..k]).calls <= After(events).calls
    ensures After(events[..k]).calls == After(events).calls <==> NoCallSince(events, k)
    decreases |events|
  {
    hide After;
    if k == |events| {
      assert events[..k] == events;
    } else {
      var before := events[..|events| - 1];
      CallsOnlyGrow(before, k);
      assert before[..k] == events[..k];
      NoCallSinceLast(events, k);
      LastEvent(events);
    }
  }

  /** Until it calls again, a client stays between its calls. */
  lemma {:induction false} StaysBetween(events: seq<Event>, k: nat, c: nat)
    requires k < |events| && events[k] == Classify(c, true)
    requires Enabled(After(events[..k]), events[k]) && HasPrefix(PacketOf(After(events[..k]).peers[c]))
    requires forall j :: k < j < |events| ==> events[j] != CallAgain(c)
    ensures var s := After(events);
            && c in s.peers && s.peers[c].stage.Between?
            && s.peers[c].stage.call == After(events[..k + 1]).calls
    decreases |events|
  {
    hide HasPrefix, TokenOf, RestOf, Body, PacketOf, Fits, Sends, DeviceAfter, TakenByte, Operand, Operands;
    var before := events[..|events| - 1];
    assert forall j :: 0 <= j <= |before| ==> before[..j] == events[..j];
    if k == |events| - 1 {
      assert events[..k + 1] == events;
    } else {
      StaysBetween(before, k, c);
    }
  }

  /** A client that has made its first call at event k is undisturbed exactly when no event since has called strtok. */
  lemma UndisturbedExactly(events: seq<Event>, k: nat, c: nat)
    requires k < |events| && events[k] == Classify(c, true)
    requires Enabled(After(events[..k]), events[k]) && HasPrefix(PacketOf(After(events[..k]).peers[c]))
    requires forall j :: k < j < |events| ==> events[j] != CallAgain(c)
    requires Enabled(After(events), CallAgain(c)) && !CalledAgain(After(events), c).undefined
    ensures CalledAgain(After(events), c).peers[c].stage.undisturbed <==> NoCallSince(events, k + 1)
  {
    hide After, NoCallSince, TokenOf, RestOf, HasPrefix, PacketOf;
    StaysBetween(events, k, c);
    CallsOnlyGrow(events, k + 1);
  }

  /**
    In every run, disturbed or not: a packet is taken for what it is if and only if its first token
    is no operand, or the token the second call got converts as the packet's own second token.
   */
  lemma ParsedRightExactly(events: seq<Event>, c: nat)
    requires Enabled(After(events), Convert(c)) && !Converted(After(events), c).undefined
    ensures var p, body := After(events).peers[c], Body(PacketOf(After(events).peers[c]));
            Converted(After(events), c).peers[c].stage.args == SeekArgs(PacketOf(p)) <==>
            Operand(TokenOf(body)).None? || Operand(p.stage.second) == Operand(TokenOf(RestOf(body)))
  {
    hide Inv, After, FrameInv, TokenOf, RestOf, Operand, Operands, Body, HasPrefix, PacketOf;
    RunKeepsInv(events);
    PeerHasInv(After(events), c);
    OperandsWithOtherToken(Body(PacketOf(After(events).peers[c])), After(events).peers[c].stage.second);
  }

  /** No run touches freed memory before a client was disturbed between its two calls. */
  lemma UndefinedOnlyWhenDisturbed(events: seq<Event>, e: Event)
    requires Enabled(After(events), e) && Step(After(events), e).undefined
    ensures var s := After(events);
            match e
            case CallAgain(c) => s.calls != s.peers[c].stage.call
            case Convert(c) => !s.peers[c].stage.undisturbed
            case _ => false
  {
    hide Inv, After, FrameInv, TokenOf, RestOf, Operand, Operands, Body, HasPrefix, PacketOf, TakenByte;
    hide Sends, DeviceAfter, Fits;
    RunKeepsInv(events);
    match e
    case CallAgain(c) => PeerHasInv(After(events), c);
    case Convert(c) => PeerHasInv(After(events), c);
    case _ =>
  }

  // ---------------------------------------------------------------- packets and replies

  /** In every run, the packets served to a client are those its byte stream consists of. */
  lemma ServedPacketsAreSegments(events: seq<Event>, c: nat)
    requires c in After(events).peers && After(events).peers[c].stage.Receiving?
    ensures var p := After(events).peers[c];
            && p.consumed <= p.received
            && Packets(ServedOf(After(events).turns, c)) == Accepted(Segments(p.consumed).0)
  {
    RunKeepsInv(events);
    FeedIsSegments(After(events).peers[c].consumed);
  }

  /** In every reachable state nothing is pending, and the log is the packets taken for data. */
  lemma LogIsData(events: seq<Event>)
    ensures After(events).device == DeviceState(DataOf(After(events).turns), [])
  {
    RunKeepsInv(events);
  }

  /** Nobody was disturbed in parsing a packet with the prefix; without it there is nothing to parse. */
  predicate AllUndisturbed(turns: seq<Turn>) {
    forall i :: 0 <= i < |turns| && HasPrefix(turns[i].s.packet) ==> turns[i].s.undisturbed
  }

  /** The packets that are no seek commands. */
  function DataPackets(turns: seq<Turn>): seq<seq<byte>> {
    if turns == [] then []
    else
      var packet := turns[|turns| - 1].s.packet;
      DataPackets(turns[..|turns| - 1]) + (if SeekArgs(packet).Some? then [] else [packet])
  }

  lemma {:induction false} UndisturbedLogFrom(turns: seq<Turn>)
    requires TurnsInv(turns) && AllUndisturbed(turns)
    ensures DataOf(turns) == DataPackets(turns)
    decreases |turns|
  {
    if turns == [] {
    } else {
      hide SeekArgs, GoodLog, GoodPacket;
      TurnsBefore(turns);
      UndisturbedLogFrom(turns[..|turns| - 1]);
      assert Legit(turns[|turns| - 1].s);
    }
  }

  /** When no client was disturbed, the log is exactly the packets that are no seek commands. */
  lemma UndisturbedLog(events: seq<Event>)
    requires AllUndisturbed(After(events).turns)
    ensures After(events).device.log == DataPackets(After(events).turns)
  {
    RunKeepsInv(events);
    UndisturbedLogFrom(After(events).turns);
  }

  /** The bytes a client was sent begin with those for its earlier packets, and then for this one. */
  lemma {:induction false} SentAtTurn(turns: seq<Turn>, i: nat)
    requires i < |turns|
    ensures var c := turns[i].client;
            Delivered(ServedOf(turns[..i], c)) + SentFor(turns[i].s) <= Delivered(ServedOf(turns, c))
    decreases |turns|
  {
    hide SentFor, Delivered;
    var before, t := turns[..|turns| - 1], turns[|turns| - 1];
    var c := turns[i].client;
    ServedOneMore(ServedOf(before, c), t.s);
    assert ServedOf(turns, c) == if t.client == c then ServedOf(before, c) + [t.s] else ServedOf(before, c);
    if i == |turns| - 1 {
      assert turns[..i] == before;
    } else {
      assert before[..i] == turns[..i] && before[i] == turns[i];
      SentAtTurn(before, i);
    }
  }

  /** What the client of turn i is sent for it, and where among all its bytes. */
  ghost predicate SentInTurn(s: System, i: nat, bytes: seq<byte>)
    requires i < |s.turns|
  {
    s.turns[i].client in s.peers &&
    Delivered(ServedOf(s.turns[..i], s.turns[i].client)) + bytes <= s.peers[s.turns[i].client].sent
  }

  lemma {:induction false} TurnsHavePeers(events: seq<Event>)
    ensures forall i :: 0 <= i < |After(events).turns| ==> After(events).turns[i].client in After(events).peers
    decreases |events|
  {
    if events == [] {
    } else {
      hide Fits, Sends, TakenByte, HasPrefix, TokenOf, RestOf, Operand, Operands, DeviceAfter;
      TurnsHavePeers(events[..|events| - 1]);
    }
  }

  lemma TurnInLog(turns: seq<Turn>, i: nat)
    requires TurnsInv(turns) && i < |turns|
    ensures var t := turns[i];
            && t.s.found == DataOf(turns[..i]) && Legit(t.s)
            && DataOf(turns[..i + 1]) == LogAfter(DataOf(turns[..i]), t.s.packet, t.s.args)
  {
    hide Legit;
    assert turns[..i + 1][..i] == turns[..i];
  }

  lemma AllDelivered(s: System, c: nat)
    requires Inv(s) && c in s.peers
    ensures s.peers[c].sent == Delivered(ServedOf(s.turns, c)) && TurnsInv(s.turns)
  {
    hide FrameInv, ParseInv, TurnsInv, Delivered, ServedOf, AllSized, AllWhole, AllButLastWhole, Packets, DonePackets;
  }

  lemma TurnFacts(events: seq<Event>, i: nat)
    requires i < |After(events).turns|
    ensures var s, t := After(events), After(events).turns[i];
            && t.s.found == DataOf(s.turns[..i]) && Legit(t.s)
            && DataOf(s.turns[..i + 1]) == LogAfter(DataOf(s.turns[..i]), t.s.packet, t.s.args)
            && SentInTurn(s, i, SentFor(t.s))
            && (Whole(t.s) ==> SentFor(t.s) == ReplyOf(t.s).bytes)
  {
    hide After, Inv, TurnsInv, DataOf, ServedOf, Delivered, Legit, SentFor, ReplyOf, Whole, LogAfter;
    RunKeepsInv(events);
    TurnsHavePeers(events);
    var s, t := After(events), After(events).turns[i];
    AllDelivered(s, t.client);
    TurnInLog(s.turns, i);
    SentAtTurn(s.turns, i);
    if Whole(t.s) {
      WholeIsReply(t.s);
    }
  }

  /**
    In every run, for a packet taken for data whose sends all succeed, the bytes its client is sent
    are the last ten such packets served up to and including it, whichever clients they came from,
    and however stdio and the sends were cut. A packet without the prefix is always taken for data,
    and one with it when it is no seek command and nothing disturbed its parsing.
   */
  lemma DataRepliesEndToEnd(events: seq<Event>, i: nat)
    requires i < |After(events).turns|
    ensures var s, t := After(events), After(events).turns[i].s;
            && (!HasPrefix(t.packet) || (t.undisturbed && SeekArgs(t.packet).None?) ==> t.args.None?)
            && (t.args.None? ==>
                  && DataOf(s.turns[..i + 1]) == DataOf(s.turns[..i]) + [t.packet]
                  && (Failed !in t.results ==>
                        SentInTurn(s, i, Concat(Last(DataOf(s.turns[..i]) + [t.packet], CAPACITY)))))
  {
    hide HasPrefix, SeekArgs, Last, SentFor, SentInTurn, DataOf;
    TurnFacts(events, i);
  }

  /**
    In every run, a packet taken for a seek commits nothing. When its place does not exist its
    client is sent nothing, and the connection ends; else, when all sends succeed, the rest of the
    content from byte y of kept line x on. A seek command is taken for what it is when nothing
    disturbed its parsing.
   */
  lemma SeekRepliesEndToEnd(events: seq<Event>, i: nat, x: nat, y: nat)
    requires i < |After(events).turns|
    ensures var s, t := After(events), After(events).turns[i].s;
            var lines := Last(DataOf(s.turns[..i]), CAPACITY);
            && (t.undisturbed && SeekArgs(t.packet) == Some((x, y)) ==> t.args == Some((x, y)))
            && (t.args == Some((x, y)) ==>
                  && DataOf(s.turns[..i + 1]) == DataOf(s.turns[..i])
                  && (if !IsPlace(Sizes(lines), Place(x, y)) then !Whole(t) && SentFor(t) == []
                      else Failed !in t.results ==> SentInTurn(s, i, FromPlace(lines, x, y))))
  {
    hide SeekArgs, Last, SentInTurn, DataOf, ReplyTo, IsPlace, Sizes, FromPlace;
    TurnFacts(events, i);
    var t := After(events).turns[i].s;
    SeekReplyStartsAtPlace(t.found, t.packet, x, y);
  }

  /** In every reachable state the device's content stays within ten packets. */
  lemma ContentBoundedInEveryRun(events: seq<Event>)
    ensures |Content(After(events).device.log)| <= CONTENT_BOUND
  {
    RunKeepsInv(events);
    ContentBounded(After(events).device.log);
  }

  // ---------------------------------------------------------------- one connection's part

  lemma TurnsBefore(turns: seq<Turn>)
    requires TurnsInv(turns) && turns != []
    ensures TurnsInv(turns[..|turns| - 1])
    ensures turns[|turns| - 1].s.found == DataOf(turns[..|turns| - 1]) && Legit(turns[|turns| - 1].s)
  {
    hide Legit;
    var before := turns[..|turns| - 1];
    forall i | 0 <= i < |before|
      ensures before[i].s.found == DataOf(before[..i]) && Legit(before[i].s)
    {
      assert before[i] == turns[i] && before[..i] == turns[..i];
    }
  }

  /** Surroundings in which a packet that meets this log is served like that. */
  function SurroundingsOf(log: seq<seq<byte>>, s: Served): Surroundings {
    var others := if log <= s.found then s.found[|log|..] else [];
    if s.undisturbed then Surroundings([], true, others)
    else match s.args
      case None => Surroundings([], false, others)
      case Some((x, y)) => Surroundings([Starts([ZERO] + [COMMA] + Decimal(y))], true, others)
  }

  function AroundOf(served: seq<Served>): (r: seq<Surroundings>)
    ensures |r| == |served|
  {
    if served == [] then []
    else
      var before := served[..|served| - 1];
      AroundOf(before) + [SurroundingsOf(LogThen([], before), served[|served| - 1])]
  }

  function ScriptOf(served: seq<Served>): (r: seq<SendOutcome>)
    ensures |r| == CallsOf(served)
  {
    if served == [] then []
    else
      ScriptOf(served[..|served| - 1]) + OutcomesOf(served[|served| - 1].results)
  }

  /** Whatever a packet may be taken for, it is in some surroundings. */
  lemma SomethingTakesItSo(log: seq<seq<byte>>, s: Served)
    requires MayBeTakenFor(s.packet, s.args, s.undisturbed)
    ensures var env := SurroundingsOf(log, s);
            && TakenFor(s.packet, env.calls, env.mallocSucceeds) == s.args
            && Quiet(s.packet, env) == s.undisturbed
  {
    hide TokenOf, RestOf, Body, HasPrefix, Operand, Decimal, PositionAfter, SeekArgs, TakenFor;
    var env := SurroundingsOf(log, s);
    TakenForExactly(s.packet, env.calls, env.mallocSucceeds);
    if !s.undisturbed && s.args.Some? {
      OtherOperand(s.packet, s.args.value.1);
    }
  }

  /** Another thread's call can make any number the second operand. */
  lemma OtherOperand(packet: seq<byte>, y: nat)
    requires HasPrefix(packet) && Operand(TokenOf(Body(packet))).Some? && IsUint32(y)
    ensures TakenFor(packet, [Starts([ZERO] + [COMMA] + Decimal(y))], true) ==
            Some((Operand(TokenOf(Body(packet))).value, y))
  {
    hide Body, HasPrefix, Decimal, StrTok, SeekPacket.Convert;
    TokenBeforeComma([ZERO], Decimal(y));
    LastToken(Decimal(y));
    DecimalDenotes(y);
    ConvertExactly(Decimal(y), y);
  }

  lemma ServedInItsSurroundings(log: seq<seq<byte>>, s: Served, script: seq<SendOutcome>)
    requires Legit(s) && log <= s.found
    ensures ServedIn(s, log, SurroundingsOf(log, s), script + OutcomesOf(s.results), |script|)
    ensures GoodLog(SurroundingsOf(log, s).others)
  {
    hide GoodPacket, MayBeTakenFor, ReplyTo, TakenFor, Quiet, Drawn, Legal, Transmit, Decimal, OutcomesOf;
    SomethingTakesItSo(log, s);
    match ReplyOf(s)
    case Refused =>
    case Sent(bytes) =>
      assert s.results[..|s.results|] == s.results;
      DrawnFromOutcomes(|bytes|, s.size, s.results, script, |s.results|);
  }

  lemma ServedInLonger(s: Served, log: seq<seq<byte>>, env: Surroundings, script: seq<SendOutcome>,
                       more: seq<SendOutcome>, from: nat)
    requires ServedIn(s, log, env, script, from) && from + |s.results| <= |script|
    ensures ServedIn(s, log, env, script + more, from)
  {
    hide Legit, ReplyTo, TakenFor, Quiet, Drawn;
    if ReplyOf(s).Sent? {
      DrawnLonger(|ReplyOf(s).bytes|, s.size, s.results, script, more, from);
    }
  }

  /** What comes behind a dialogue does not matter to it. */
  lemma {:induction false} DialogueLonger(served: seq<Served>, around: seq<Surroundings>, script: seq<SendOutcome>,
                                          env: seq<Surroundings>, more: seq<SendOutcome>)
    requires Dialogue([], served, around, script) && |served| <= |around| && CallsOf(served) <= |script|
    ensures Dialogue([], served, around + env, script + more)
  {
    hide ServedIn, LogThen, JustSized, Packets;
    if served == [] {
    } else {
      var before, s := served[..|served| - 1], served[|served| - 1];
      DialogueLonger(before, around, script, env, more);
      assert AroundAt(around + env, |before|) == AroundAt(around, |before|);
      ServedInLonger(s, LogThen([], before), AroundAt(around, |before|), script, more, CallsOf(before));
    }
  }

  /** One packet more of a dialogue that goes on as it did. */
  lemma DialogueOneMore(served: seq<Served>, s: Served)
    requires Dialogue([], served, AroundOf(served), ScriptOf(served)) && OthersGood(AroundOf(served))
    requires Legit(s) && LogThen([], served) <= s.found && JustSized(s.size, Packets(served), s.packet)
    ensures Dialogue([], served + [s], AroundOf(served + [s]), ScriptOf(served + [s]))
    ensures OthersGood(AroundOf(served + [s]))
  {
    hide ServedIn, LogThen, JustSized, Packets, Legit, SurroundingsOf, OutcomesOf, GoodLog;
    var log, all := LogThen([], served), served + [s];
    assert all[..|all| - 1] == served;
    ServedInItsSurroundings(log, s, ScriptOf(served));
    DialogueLonger(served, AroundOf(served), ScriptOf(served), [SurroundingsOf(log, s)], OutcomesOf(s.results));
  }

  /**
    One client's packets, in a run of all, make a dialogue with the device: each is served in
    surroundings that the other clients can make.
   */
  lemma {:induction false} PartOfRun(turns: seq<Turn>, c: nat)
    requires TurnsInv(turns) && AllSized(ServedOf(turns, c))
    ensures var served := ServedOf(turns, c);
            && Dialogue([], served, AroundOf(served), ScriptOf(served)) && OthersGood(AroundOf(served))
            && LogThen([], served) <= DataOf(turns)
    decreases |turns|
  {
    hide Dialogue, TurnsInv, Legit, JustSized, Packets, AroundOf, ScriptOf, OthersGood;
    if turns == [] {
      NoDialogue();
    } else {
      var before, t := turns[..|turns| - 1], turns[|turns| - 1];
      var served := ServedOf(before, c);
      TurnsBefore(turns);
      if t.client == c {
        assert (served + [t.s])[..|served|] == served;
        PartOfRun(before, c);
        DialogueOneMore(served, t.s);
      } else {
        assert ServedOf(turns, c) == served;
        PartOfRun(before, c);
      }
    }
  }

  lemma NoDialogue()
    ensures Dialogue([], [], AroundOf([]), ScriptOf([])) && OthersGood(AroundOf([]))
  {
  }

  /**
    What HandleClientCommunication guarantees of one connection among others holds of each client's
    part of every run: for some surroundings and outcomes of the send calls, the logs its packets
    found and the bytes it was sent are those of a conversation, only the last packet may have gone
    without its whole reply, and then the connection is closed.
   */
  lemma EachClientIsAConnection(events: seq<Event>, c: nat)
    requires c in After(events).peers
    ensures var s, p, served := After(events), After(events).peers[c], ServedOf(After(events).turns, c);
            var around, script, log := AroundOf(served), ScriptOf(served), LogThen([], served);
            && Conversation([], served, around, script, log, p.sent, CallsOf(served))
            && OthersGood(around) && log <= s.device.log
            && Packets(served) == DonePackets(p) && p.frame == Feed(START, p.consumed)
            && (if p.open then AllWhole(served) && p.sent == Concat(Replies(served)) else AllButLastWhole(served))
  {
    hide After, Dialogue, AroundOf, ScriptOf, LogThen, CallsOf, OthersGood, Packets, AllLegit;
    RunKeepsInv(events);
    ConversationOf(After(events), c);
    var served := ServedOf(After(events).turns, c);
    DialogueLegit([], served, AroundOf(served), ScriptOf(served));
    if After(events).peers[c].open {
      DeliveredIsReplies(served);
    }
  }

  lemma ConversationOf(s: System, c: nat)
    requires Inv(s) && c in s.peers
    ensures var served := ServedOf(s.turns, c);
            var around, script, log := AroundOf(served), ScriptOf(served), LogThen([], served);
            && Conversation([], served, around, script, log, s.peers[c].sent, CallsOf(served))
            && OthersGood(around) && log <= s.device.log
  {
    hide Dialogue, FrameInv, ParseInv, TurnsInv, Delivered, AllSized, OthersGood;
    PartOfRun(s.turns, c);
  }
}
