/**
  How one packet is served under log_file_mutex, on values and call by call: how stdio cuts the
  packet into driver writes and the content into driver reads, and what the send calls return.
 */
module Serving {
  import opened Bytes
  import opened Positions
  import opened DeviceSpec
  import opened Framing
  import opened Sending
  import opened ServerSpec

  datatype Script = Script(parts: seq<seq<byte>>, counts: seq<nat>, results: seq<SendResult>)

  function DeviceAfter(device: DeviceState, args: Args, script: Script): DeviceState {
    if args.None? then WriteAll(device, script.parts) else device
  }

  /** The position the reply is read from: the one the ioctl returned, as far as an int holds it. */
  function FileStart(log: seq<seq<byte>>, args: Args): Option<nat> {
    var (ret, fPos) := match args
      case None => (0, 0)
      case Some((x, y)) => SeekTo(log, log, 0, x, y);
    if Signed32(ret) < 0 then None
    else
      var r := Llseek(|Content(log)|, fPos, Signed32(ret), SEEK_SET);
      if r.0 < 0 then None else Some(r.1)
  }

  /** The bytes read for the reply. */
  function DataRead(log: seq<seq<byte>>, start: nat, script: Script): seq<byte> {
    Reads(Content(log), start, script.counts).0
  }

  /** After reads of these counts, another one returns 0. */
  predicate ReadsToEnd(content: seq<byte>, start: nat, counts: seq<nat>) {
    var end := Reads(content, start, counts).1;
    ReadEnd(|content|, end, 1) == end
  }

  /** The writes make up the packet, reads go on until one returns 0, and the sends offer all they read. */
  predicate Fits(device: DeviceState, packet: seq<byte>, args: Args, size: nat, script: Script) {
    var log := DeviceAfter(device, args, script).log;
    && (if args.None? then Concat(script.parts) == packet else script.parts == [])
    && (forall i :: 0 <= i < |script.parts| ==> script.parts[i] != [])
    && match FileStart(log, args) {
         case None => script.counts == [] && script.results == []
         case Some(start) =>
           && ReadsToEnd(Content(log), start, script.counts)
           && Complete(|DataRead(log, start, script)|, size, script.results)
       }
  }

  /** The bytes sent, and whether the connection goes on. */
  function Sends(device: DeviceState, args: Args, size: nat, script: Script): (seq<byte>, bool) {
    var log := DeviceAfter(device, args, script).log;
    match FileStart(log, args)
    case None => ([], false)
    case Some(start) => (Payload(DataRead(log, start, script), size, script.results), Failed !in script.results)
  }

  /** Reading starts at the place asked for, and nowhere exactly when there is no such place. */
  lemma FileStartIsPlace(log: seq<seq<byte>>, args: Args)
    requires GoodLog(log)
    ensures FileStart(log, args) ==
            match args {
              case None => Some(0)
              case Some((x, y)) =>
                var offset := AbsoluteOffset(Sizes(Lines(log)), x, y);
                if offset < 0 then None else Some(offset)
            }
    ensures FileStart(log, args).Some? ==> FileStart(log, args).value <= |Content(log)|
  {
    hide Content, Last, Sizes, AbsoluteOffset;
    match args
    case None =>
    case Some((x, y)) => SeekOutcome(log, x, y);
  }

  /** However the calls are cut, what they do is what ServerSpec says of the packet. */
  lemma ServingMeetsSpec(device: DeviceState, packet: seq<byte>, args: Args, undisturbed: bool, size: nat,
                         script: Script)
    requires device.pending == [] && GoodLog(device.log) && GoodPacket(packet)
    requires MayBeTakenFor(packet, args, undisturbed) && IsBufferSize(size)
    requires Fits(device, packet, args, size, script)
    ensures var s := Served(device.log, packet, args, undisturbed, size, script.results);
            && Legit(s)
            && DeviceAfter(device, args, script) == DeviceState(LogLeft(s), [])
            && Sends(device, args, size, script) == (SentFor(s), Whole(s))
  {
    hide Content, GoodLog, GoodPacket, MayBeTakenFor, Payload, Complete, FileStart, WriteAll, ReadsToEnd, DataRead;
    hide ReplyTo;
    DeviceAfterServing(device, packet, args, size, script);
    ReplyIsDataRead(device.log, packet, args, script);
  }

  /** The reply is what is read, from where reading starts to the end. */
  lemma ReplyIsDataRead(found: seq<seq<byte>>, packet: seq<byte>, args: Args, script: Script)
    requires GoodLog(found) && GoodPacket(packet)
    ensures var log := LogAfter(found, packet, args);
            match FileStart(log, args)
            case None => ReplyTo(found, packet, args) == Refused
            case Some(start) =>
              ReadsToEnd(Content(log), start, script.counts) ==>
                ReplyTo(found, packet, args) == Sent(DataRead(log, start, script))
  {
    hide Content, GoodLog, GoodPacket, Reads, FileStart;
    var log := LogAfter(found, packet, args);
    GoodLogAfter(found, packet, args);
    FileStartIsPlace(log, args);
    match FileStart(log, args)
    case None =>
    case Some(start) =>
      if ReadsToEnd(Content(log), start, script.counts) {
        ReadUntilZero(Content(log), start, script.counts, 1);
        assert Content(log)[0..] == Content(log);
      }
  }

  lemma DeviceAfterServing(device: DeviceState, packet: seq<byte>, args: Args, size: nat, script: Script)
    requires device.pending == [] && GoodPacket(packet)
    requires Fits(device, packet, args, size, script)
    ensures DeviceAfter(device, args, script) == DeviceState(LogAfter(device.log, packet, args), [])
  {
    hide Content, ReadsToEnd, FileStart, Complete, WriteAll;
    if args.None? {
      PacketBecomesOneLine(device, script.parts);
      assert [] + packet == packet;
    }
  }
}
