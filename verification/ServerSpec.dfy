/** What the server answers to one packet, as a function of the log it finds. */
module ServerSpec {
  import opened Bytes
  import opened Positions
  import opened DeviceSpec
  import opened Framing
  import opened SeekPacket
  import opened Sending

  /** What the server has taken a packet for: a seek to a place, or data. */
  type Args = Option<(nat, nat)>

  datatype Reply = Sent(bytes: seq<byte>) | Refused

  function LogAfter(log: seq<seq<byte>>, packet: seq<byte>, args: Args): seq<seq<byte>> {
    if args.Some? then log else log + [packet]
  }

  /** Data is answered with the content it leaves, a seek with the content from its place on. */
  function ReplyTo(log: seq<seq<byte>>, packet: seq<byte>, args: Args): Reply {
    match args
    case None => Sent(Content(log + [packet]))
    case Some((x, y)) =>
      var offset := AbsoluteOffset(Sizes(Lines(log)), x, y);
      if offset < 0 then Refused else Sent(Slice(Content(log), offset, |Content(log)|))
  }

  predicate GoodLog(log: seq<seq<byte>>) {
    forall i :: 0 <= i < |log| ==> GoodPacket(log[i])
  }

  const CONTENT_BOUND: nat := 327620

  /** The low 32 bits, as the int the server keeps the ioctl's result in. */
  function Signed32(x: int): int {
    var m := x % 0x1_0000_0000;
    if m < 0x8000_0000 then m else m - 0x1_0000_0000
  }

  /** Ten packets are the most the device holds, so no position is lost in an int. */
  lemma ContentBounded(log: seq<seq<byte>>)
    requires GoodLog(log)
    ensures |Content(log)| <= CONTENT_BOUND
    ensures forall o :: 0 <= o <= |Content(log)| ==> Signed32(o) == o
  {
    ConcatBound(Lines(log), MAX_PACKET_SIZE);
    LastLength(log, CAPACITY);
    assert |Lines(log)| * MAX_PACKET_SIZE <= 10 * MAX_PACKET_SIZE;
  }

  lemma GoodLogAfter(log: seq<seq<byte>>, packet: seq<byte>, args: Args)
    requires GoodLog(log) && GoodPacket(packet)
    ensures GoodLog(LogAfter(log, packet, args))
  {
  }

  /** The reply to a data packet ends with that packet, and starts with the lines kept before it. */
  lemma DataReplyEndsWithPacket(log: seq<seq<byte>>, packet: seq<byte>)
    ensures ReplyTo(log, packet, None) == Sent(Concat(Last(log, CAPACITY - 1)) + packet)
  {
    assert Last(log + [packet], CAPACITY) == Last(log, CAPACITY - 1) + [packet];
    ConcatSnoc(Last(log, CAPACITY - 1), packet);
  }

  /** The lines end to end, from byte y of line x on. */
  function FromPlace(lines: seq<seq<byte>>, x: nat, y: nat): seq<byte>
    requires IsPlace(Sizes(lines), Place(x, y))
  {
    lines[x][y..] + Concat(lines[x + 1..])
  }

  /** A seek is refused exactly when its place does not exist; else the reply starts at that place. */
  lemma SeekReplyStartsAtPlace(log: seq<seq<byte>>, packet: seq<byte>, x: nat, y: nat)
    ensures var reply, lines := ReplyTo(log, packet, Some((x, y))), Lines(log);
            if IsPlace(Sizes(lines), Place(x, y)) then reply == Sent(FromPlace(lines, x, y)) else reply == Refused
  {
    hide Last, Sizes, Start, Concat;
    if IsPlace(Sizes(Lines(log)), Place(x, y)) {
      var lines := Lines(log);
      ByteAtPlace(lines, Place(x, y));
      SplitAroundLine(lines, x);
      StartIsLength(lines, x);
      DropInto(Concat(lines[..x]), lines[x], Concat(lines[x + 1..]), y);
    }
  }

  lemma DropInto(a: seq<byte>, b: seq<byte>, c: seq<byte>, y: nat)
    requires y <= |b|
    ensures (a + b + c)[|a| + y..] == b[y..] + c
  {
  }

  /** The ioctl's result and the position it sets, as the server's int sees them. */
  lemma SeekOutcome(log: seq<seq<byte>>, x: nat, y: nat)
    requires GoodLog(log)
    ensures |Content(log)| < TWO_63
    ensures var offset, r := AbsoluteOffset(Sizes(Lines(log)), x, y), SeekTo(log, log, 0, x, y);
            if offset < 0 then Signed32(r.0) < 0 && r.1 == 0
            else offset <= |Content(log)| && r == (offset, offset) && Signed32(r.0) == offset
  {
    ContentBounded(log);
    ContentLength(log);
    OffsetThenLocate(Sizes(Lines(log)), x, y);
  }

  // ---------------------------------------------------------------- packets served

  /**
    A packet served: the log it met under log_file_mutex, what it was taken for and whether nothing
    disturbed its parsing, the size of the buffer, and what the send calls of the reply returned.
   */
  datatype Served = Served(found: seq<seq<byte>>, packet: seq<byte>, args: Args, undisturbed: bool,
                           size: nat, results: seq<SendResult>)

  function ReplyOf(s: Served): Reply {
    ReplyTo(s.found, s.packet, s.args)
  }

  function LogLeft(s: Served): seq<seq<byte>> {
    LogAfter(s.found, s.packet, s.args)
  }

  /** The bytes the client is sent for the packet. */
  function SentFor(s: Served): seq<byte> {
    match ReplyOf(s)
    case Refused => []
    case Sent(bytes) => Payload(bytes, s.size, s.results)
  }

  /** The packet was answered, and no send failed. */
  predicate Whole(s: Served) {
    ReplyOf(s).Sent? && Failed !in s.results
  }

  /**
    What a packet may be taken for: what it is, when nothing disturbs its parsing, as nothing can
    without the prefix; and in any case only a packet with the prefix is taken for a seek, into the
    line its first operand says.
   */
  predicate MayBeTakenFor(packet: seq<byte>, args: Args, undisturbed: bool) {
    && (undisturbed ==> args == SeekArgs(packet))
    && (!HasPrefix(packet) ==> undisturbed)
    && (args.Some? ==> HasPrefix(packet) && Operand(TokenOf(Body(packet))) == Some(args.value.0))
    && (args.Some? ==> IsUint32(args.value.0) && IsUint32(args.value.1))
  }

  /** The server can have served a packet like that. */
  predicate Legit(s: Served) {
    && GoodLog(s.found) && GoodPacket(s.packet)
    && MayBeTakenFor(s.packet, s.args, s.undisturbed)
    && IsBufferSize(s.size)
    && match ReplyOf(s) {
         case Refused => s.results == []
         case Sent(bytes) => Complete(|bytes|, s.size, s.results)
       }
  }

  /** Answered without failed send, the client has the reply, once and in order. */
  lemma WholeIsReply(s: Served)
    requires Legit(s) && Whole(s)
    ensures SentFor(s) == ReplyOf(s).bytes
  {
    PayloadIsAll(ReplyOf(s).bytes, s.size, s.results);
  }

  /** All the bytes a client is sent. */
  function Delivered(served: seq<Served>): seq<byte> {
    if served == [] then []
    else Delivered(served[..|served| - 1]) + SentFor(served[|served| - 1])
  }

  function Replies(served: seq<Served>): seq<seq<byte>>
    requires forall i :: 0 <= i < |served| ==> ReplyOf(served[i]).Sent?
  {
    seq(|served|, i requires 0 <= i < |served| => ReplyOf(served[i]).bytes)
  }

  predicate AllLegit(served: seq<Served>) {
    forall i :: 0 <= i < |served| ==> Legit(served[i])
  }

  predicate AllWhole(served: seq<Served>) {
    forall i :: 0 <= i < |served| ==> Whole(served[i])
  }

  predicate AllButLastWhole(served: seq<Served>) {
    forall i :: 0 <= i < |served| - 1 ==> Whole(served[i])
  }

  function Packets(served: seq<Served>): (r: seq<seq<byte>>)
    ensures |r| == |served|
  {
    if served == [] then [] else Packets(served[..|served| - 1]) + [served[|served| - 1].packet]
  }

  lemma ServedOneMore(served: seq<Served>, s: Served)
    ensures Packets(served + [s]) == Packets(served) + [s.packet]
    ensures Delivered(served + [s]) == Delivered(served) + SentFor(s)
    ensures AllWhole(served) ==> AllButLastWhole(served + [s])
    ensures AllWhole(served) && Whole(s) ==> AllWhole(served + [s])
  {
    hide Whole, SentFor;
    assert (served + [s])[..|served|] == served;
  }

  lemma NoReplies()
    ensures Replies([]) == []
  {
  }

  lemma RepliesSnoc(served: seq<Served>, s: Served)
    requires AllWhole(served) && Whole(s)
    ensures Replies(served + [s]) == Replies(served) + [ReplyOf(s).bytes]
  {
  }

  /** A client whose packets were all answered has exactly the replies, in the order of the packets. */
  lemma {:induction false} DeliveredIsReplies(served: seq<Served>)
    requires AllLegit(served) && AllWhole(served)
    ensures Delivered(served) == Concat(Replies(served))
  {
    hide Legit, SentFor, ReplyOf, Replies;
    if served == [] {
      NoReplies();
    } else {
      var before, s := served[..|served| - 1], served[|served| - 1];
      assert served == before + [s];
      ServedOneMore(before, s);
      DeliveredIsReplies(before);
      WholeIsReply(s);
      RepliesSnoc(before, s);
      ConcatSnoc(Replies(before), ReplyOf(s).bytes);
    }
  }
  // ---------------------------------------------------------------- one client's packets among others

  /**
    What surrounds the serving of one packet: the strtok calls of other threads between its two,
    whether its copy can be allocated, and the packets other clients commit before it gets log_file_mutex.
   */
  datatype Surroundings = Surroundings(calls: seq<StrtokCall>, mallocSucceeds: bool, others: seq<seq<byte>>)

  /** The surroundings of a client's k-th packet; behind the end nothing happens, and nothing fails. */
  function AroundAt(around: seq<Surroundings>, k: nat): Surroundings {
    if k < |around| then around[k] else Surroundings([], true, [])
  }

  /** Only packets are committed. */
  predicate OthersGood(around: seq<Surroundings>) {
    forall k :: 0 <= k < |around| ==> GoodLog(around[k].others)
  }

  /** Nothing can disturb the parsing of a packet. */
  predicate Quiet(packet: seq<byte>, env: Surroundings) {
    !HasPrefix(packet) || (env.mallocSucceeds && env.calls == [])
  }

  /** Its surroundings, the log before, and the outcomes of the send calls settle how a packet is served. */
  predicate ServedIn(s: Served, log: seq<seq<byte>>, env: Surroundings, script: seq<SendOutcome>, from: nat) {
    && s.found == log + env.others
    && s.args == TakenFor(s.packet, env.calls, env.mallocSucceeds)
    && s.undisturbed == Quiet(s.packet, env)
    && Legit(s)
    && (ReplyOf(s).Sent? ==> Drawn(|ReplyOf(s).bytes|, s.size, s.results, script, from))
  }

  /** The log its last packet left. */
  function LogThen(first: seq<seq<byte>>, served: seq<Served>): seq<seq<byte>> {
    if served == [] then first else LogLeft(served[|served| - 1])
  }

  /** The send calls for these packets. */
  function CallsOf(served: seq<Served>): nat {
    if served == [] then 0 else CallsOf(served[..|served| - 1]) + |served[|served| - 1].results|
  }

  /** The buffer a packet was served with is the least that has had room for all packets up to it. */
  predicate JustSized(size: nat, before: seq<seq<byte>>, packet: seq<byte>) {
    size == SizeFor(Longest(before + [packet]))
  }

  predicate AllSized(served: seq<Served>) {
    served == [] ||
    (var before, s := served[..|served| - 1], served[|served| - 1];
     AllSized(before) && JustSized(s.size, Packets(before), s.packet))
  }

  lemma SizedOneMore(served: seq<Served>, s: Served)
    requires AllSized(served) && JustSized(s.size, Packets(served), s.packet)
    ensures AllSized(served + [s])
  {
    hide JustSized, Packets;
    assert (served + [s])[..|served|] == served;
  }

  /** Each packet was served in its surroundings, from where the one before left log and send calls. */
  predicate Dialogue(first: seq<seq<byte>>, served: seq<Served>, around: seq<Surroundings>, script: seq<SendOutcome>) {
    served == [] ||
    (var before, s := served[..|served| - 1], served[|served| - 1];
     && Dialogue(first, before, around, script)
     && ServedIn(s, LogThen(first, before), AroundAt(around, |before|), script, CallsOf(before))
     && JustSized(s.size, Packets(before), s.packet))
  }

  /** A client's connection: its dialogue, and where that has brought the log, the bytes sent, and the send calls. */
  predicate Conversation(first: seq<seq<byte>>, served: seq<Served>, around: seq<Surroundings>,
                         script: seq<SendOutcome>, last: seq<seq<byte>>, sent: seq<byte>, calls: nat)
  {
    && Dialogue(first, served, around, script)
    && last == LogThen(first, served) && sent == Delivered(served) && calls == CallsOf(served)
  }

  lemma NothingServed(log: seq<seq<byte>>, around: seq<Surroundings>, script: seq<SendOutcome>)
    ensures Conversation(log, [], around, script, log, [], 0) && AllWhole([]) && Packets([]) == []
  {
  }

  /** One packet more: the conversation goes on with the log it leaves, the bytes and the calls for it. */
  lemma ServeOneMore(first: seq<seq<byte>>, served: seq<Served>, around: seq<Surroundings>, script: seq<SendOutcome>,
                     log: seq<seq<byte>>, sent: seq<byte>, calls: nat, s: Served)
    requires Conversation(first, served, around, script, log, sent, calls)
    requires ServedIn(s, log, AroundAt(around, |served|), script, calls)
    requires JustSized(s.size, Packets(served), s.packet)
    ensures Conversation(first, served + [s], around, script, LogLeft(s), sent + SentFor(s), calls + |s.results|)
  {
    hide ServedIn, SentFor, LogLeft, Packets, Longest;
    assert (served + [s])[..|served|] == served;
  }

  lemma DialogueLast(first: seq<seq<byte>>, served: seq<Served>, around: seq<Surroundings>, script: seq<SendOutcome>,
                     before: seq<Served>, s: Served)
    requires Dialogue(first, served, around, script) && served == before + [s]
    ensures Dialogue(first, before, around, script)
    ensures ServedIn(s, LogThen(first, before), AroundAt(around, |before|), script, CallsOf(before))
    ensures JustSized(s.size, Packets(before), s.packet)
    ensures LogThen(first, served) == LogLeft(s)
  {
    hide ServedIn, LogLeft, Packets, Longest, CallsOf, AroundAt;
    assert served[..|served| - 1] == before;
  }

  lemma {:induction false} DialogueLegit(first: seq<seq<byte>>, served: seq<Served>, around: seq<Surroundings>,
                                         script: seq<SendOutcome>)
    requires Dialogue(first, served, around, script)
    ensures AllLegit(served)
  {
    hide Dialogue, Legit, LogThen, CallsOf, Packets, Longest, TakenFor, Quiet;
    if served == [] {
    } else {
      var before, s := served[..|served| - 1], served[|served| - 1];
      DialogueLast(first, served, around, script, before, s);
      DialogueLegit(first, before, around, script);
    }
  }

  /** A packet is served in one way only. */
  lemma ServedOnce(s: Served, t: Served, log: seq<seq<byte>>, env: Surroundings, script: seq<SendOutcome>, from: nat)
    requires ServedIn(s, log, env, script, from) && ServedIn(t, log, env, script, from)
    requires s.packet == t.packet && s.size == t.size
    ensures s == t
  {
    hide GoodLog, GoodPacket, MayBeTakenFor, ReplyTo, Complete, Drawn, TakenFor;
    match ReplyOf(s)
    case Refused =>
    case Sent(bytes) => DrawnOnce(|bytes|, s.size, s.results, t.results, script, from);
  }

  /**
    What a client is answered, and what it commits, are settled by its packets, the log it meets, its
    surroundings and the outcomes of its send calls: no packet is served twice, and none otherwise.
   */
  lemma {:induction false} DialogueOnce(first: seq<seq<byte>>, a: seq<Served>, b: seq<Served>,
                                        around: seq<Surroundings>, script: seq<SendOutcome>)
    requires Dialogue(first, a, around, script) && Dialogue(first, b, around, script)
    requires Packets(a) == Packets(b)
    ensures a == b
  {
    hide Dialogue, ServedIn, LogThen, CallsOf, Longest, AroundAt;
    assert |Packets(a)| == |a| && |Packets(b)| == |b|;
    if a == [] {
    } else {
      var before, s, before', t := a[..|a| - 1], a[|a| - 1], b[..|b| - 1], b[|b| - 1];
      assert a == before + [s] && b == before' + [t];
      DialogueLast(first, a, around, script, before, s);
      DialogueLast(first, b, around, script, before', t);
      assert Packets(before) == Packets(a)[..|before|] && Packets(before') == Packets(b)[..|before|];
      DialogueOnce(first, before, before', around, script);
      ServedOnce(s, t, LogThen(first, before), AroundAt(around, |before|), script, CallsOf(before));
    }
  }

  /** The packets taken for data. */
  function DataServed(served: seq<Served>): seq<seq<byte>> {
    if served == [] then []
    else
      var s := served[|served| - 1];
      DataServed(served[..|served| - 1]) + (if s.args.Some? then [] else [s.packet])
  }

  /** While no other client commits anything, the log grows by the packets taken for data, once each. */
  lemma {:induction false} AloneInLog(first: seq<seq<byte>>, served: seq<Served>, around: seq<Surroundings>,
                                      script: seq<SendOutcome>)
    requires Dialogue(first, served, around, script)
    requires forall k :: 0 <= k < |served| ==> AroundAt(around, k).others == []
    ensures LogThen(first, served) == first + DataServed(served)
  {
    hide Dialogue, TakenFor, Legit, CallsOf, Packets, Longest, Quiet;
    if served == [] {
    } else {
      var before, s := served[..|served| - 1], served[|served| - 1];
      assert served == before + [s];
      DialogueLast(first, served, around, script, before, s);
      AloneInLog(first, before, around, script);
    }
  }

  /** While nothing disturbs the parsing, every packet is taken for what it is. */
  lemma {:induction false} AloneInParsing(first: seq<seq<byte>>, served: seq<Served>, around: seq<Surroundings>,
                                          script: seq<SendOutcome>)
    requires Dialogue(first, served, around, script)
    requires forall k :: 0 <= k < |served| ==> Quiet(served[k].packet, AroundAt(around, k))
    ensures forall k :: 0 <= k < |served| ==> served[k].args == SeekArgs(served[k].packet)
  {
    hide Dialogue, TakenFor, Legit, CallsOf, Packets, Longest, Quiet, LogThen, SeekArgs, AroundAt;
    if served == [] {
    } else {
      var before, s := served[..|served| - 1], served[|served| - 1];
      assert served == before + [s];
      DialogueLast(first, served, around, script, before, s);
      AloneInParsing(first, before, around, script);
      TakenForQuiet(s.packet, AroundAt(around, |before|));
    }
  }

  lemma TakenForQuiet(packet: seq<byte>, env: Surroundings)
    requires Quiet(packet, env)
    ensures TakenFor(packet, env.calls, env.mallocSucceeds) == SeekArgs(packet)
  {
    hide TakenFor, SeekArgs, HasPrefix;
    TakenForExactly(packet, env.calls, env.mallocSucceeds);
  }

  /** A packet is not answered whole only if its place does not exist, or one of its send calls fails. */
  lemma NotWhole(s: Served, log: seq<seq<byte>>, env: Surroundings, script: seq<SendOutcome>, from: nat)
    requires ServedIn(s, log, env, script, from)
    ensures !Whole(s) <==> ReplyOf(s).Refused? || FailsWithin(script, from, from + |s.results|)
  {
    hide GoodLog, GoodPacket, MayBeTakenFor, ReplyTo, Complete, Drawn, TakenFor;
    match ReplyOf(s)
    case Refused =>
    case Sent(bytes) => FailedAsDrawn(|bytes|, s.size, s.results, script, from);
  }

  /** What is served is a packet the server may have taken for that. */
  lemma TakenForIsLegit(packet: seq<byte>, env: Surroundings)
    ensures MayBeTakenFor(packet, TakenFor(packet, env.calls, env.mallocSucceeds), Quiet(packet, env))
  {
    hide TakenFor, SeekArgs, HasPrefix, Operand;
    TakenForExactly(packet, env.calls, env.mallocSucceeds);
    TakenForNeedsPrefix(packet, env);
  }

  lemma TakenForNeedsPrefix(packet: seq<byte>, env: Surroundings)
    ensures !HasPrefix(packet) ==> TakenFor(packet, env.calls, env.mallocSucceeds).None?
  {
  }
}
