/**
  What the server sees of its surroundings: a stdio stream over the device, and a socket. How
  stdio cuts its calls into driver reads and writes is left open.
 */
module Stdio {
  import opened Bytes
  import opened DeviceSpec
  import opened CharDevice
  import opened Sending

  class Stream {
    const file: OpenFile
    var ahead: seq<byte>  // read from the device, but not yet handed out

    /** fopen: a new struct file at position 0. */
    constructor ()
      ensures fresh(file) && file.fPos == 0 && ahead == []
    {
      file := new OpenFile();
      ahead := [];
    }

    /** The stream stands inside the content, and what it has read ahead is what comes next there. */
    ghost predicate Valid(content: seq<byte>)
      reads this, file
    {
      && |ahead| <= file.fPos <= |content|
      && ahead == content[file.fPos - |ahead|..file.fPos]
    }

    ghost function Position(): nat
      requires |ahead| <= file.fPos
      reads this, file
    {
      file.fPos - |ahead|
    }

    /** fseek: what was read ahead is dropped, and the driver decides. */
    method Fseek(dev: Device, offset: int, whence: int) returns (ok: bool)
      requires dev.Valid() && |Content(dev.log)| < TWO_63
      requires (whence == SEEK_SET && IsInt64(offset)) || (whence == SEEK_END && offset == 0)
      requires file.fPos <= |Content(dev.log)|
      modifies this`ahead, file
      ensures Valid(Content(dev.log))
      ensures ok <==> whence == SEEK_END || 0 <= offset <= |Content(dev.log)|
      ensures ok ==> Position() == if whence == SEEK_END then |Content(dev.log)| else offset
    {
      ahead := [];
      LlseekExact(|Content(dev.log)|, file.fPos, offset, whence);
      hide Llseek;
      var ret := dev.AesdLlseek(file, offset, whence, false);
      ok := ret >= 0;
    }

    /** One driver read, of any size. */
    method Refill(dev: Device)
      requires dev.Valid() && Valid(Content(dev.log)) && ahead == []
      modifies this`ahead, file
      ensures Valid(Content(dev.log)) && Position() == old(Position())
      ensures ahead == [] <==> Position() == |Content(dev.log)|
    {
      var size: nat :| size > 0;
      var chunk := new byte[size];
      ContentLength(dev.log);
      var ret := dev.AesdRead(file, chunk, size, NoReadFault);
      ahead := chunk[..ret];
    }

    /** fread: as many bytes as asked for, or all the rest. */
    method Fread(dev: Device, buffer: array<byte>, n: nat) returns (got: nat)
      requires dev.Valid() && Valid(Content(dev.log))
      requires n <= buffer.Length && buffer !in dev.heap.live
      modifies this`ahead, file, buffer
      ensures Valid(Content(dev.log))
      ensures got == Min(n, |Content(dev.log)| - old(Position()))
      ensures Position() == old(Position()) + got
      ensures buffer[..got] == Content(dev.log)[old(Position())..old(Position()) + got]
    {
      hide Content, dev.Valid;
      ghost var content, start := Content(dev.log), Position();
      got := 0;
      while got < n
        invariant got <= n && dev.Valid() && Valid(content)
        invariant Position() == start + got
        invariant buffer[..got] == content[start..start + got]
        decreases n - got
      {
        var m := TakeSome(dev, buffer, got, n - got);
        if m == 0 {
          break;
        }
        SliceJoin(content, start, got, m);
        SliceJoin(buffer[..], 0, got, m);
        got := got + m;
      }
    }

    /** Up to `want` of the next bytes go into the buffer; none only at the end of the content. */
    method TakeSome(dev: Device, buffer: array<byte>, at: nat, want: nat) returns (m: nat)
      requires dev.Valid() && Valid(Content(dev.log))
      requires 0 < want && at + want <= buffer.Length && buffer !in dev.heap.live
      modifies this`ahead, file, buffer
      ensures Valid(Content(dev.log)) && m <= want && Position() == old(Position()) + m
      ensures m == 0 <==> old(Position()) == |Content(dev.log)|
      ensures buffer[..at] == old(buffer[..at])
      ensures buffer[at..at + m] == Content(dev.log)[old(Position())..old(Position()) + m]
    {
      hide Content, dev.Valid;
      if ahead == [] {
        Refill(dev);
      }
      m := Min(want, |ahead|);
      if m > 0 {
        TakeAhead(buffer, at, m, Content(dev.log));
      }
    }

    /** The next m bytes read ahead go into the buffer. */
    method TakeAhead(buffer: array<byte>, at: nat, m: nat, ghost content: seq<byte>)
      requires Valid(content) && 0 < m <= |ahead| && at + m <= buffer.Length
      modifies this`ahead, buffer
      ensures Valid(content) && Position() == old(Position()) + m
      ensures buffer[..at] == old(buffer[..at])
      ensures buffer[at..at + m] == content[old(Position())..old(Position()) + m]
    {
      forall i | 0 <= i < m {
        buffer[at + i] := ahead[i];
      }
      assert buffer[at..at + m] == ahead[..m];
      assert ahead[..m] == content[Position()..Position() + m];
      ahead := ahead[m..];
    }

    /** fwrite and fflush of a packet: any cut into non-empty driver writes, none of which fails. */
    method FwriteAndFlush(dev: Device, data: seq<byte>)
      requires dev.Valid() && IsPacket(data) && dev.Pending() == []
      modifies dev, dev.heap, dev.ring, dev.ring.entry, dev.heap.live
      ensures dev.Valid() && fresh(dev.heap.live - old(dev.heap.live))
      ensures dev.State() == DeviceState(old(dev.log) + [data], [])
    {
      hide dev.Valid, Write, IsPacket;
      var rest := data;
      ghost var before, parts := dev.State(), [];
      while rest != []
        invariant dev.Valid() && fresh(dev.heap.live - old(dev.heap.live))
        invariant dev.State() == WriteAll(before, parts)
        invariant forall i :: 0 <= i < |parts| ==> parts[i] != []
        invariant Concat(parts) + rest == data
      {
        var k: nat :| 0 < k <= |rest|;
        var ret := dev.AesdWrite(rest[..k], NoWriteFault);
        WriteAllSnoc(before, parts, rest[..k]);
        ConcatSnoc(parts, rest[..k]);
        parts := parts + [rest[..k]];
        rest := rest[ret..];
      }
      assert Concat(parts) == Concat(parts) + [];
      PacketBecomesOneLine(before, parts);
    }
  }

  /** A connected socket: what becomes of the send calls on it is settled by its script. */
  class Socket {
    const script: seq<SendOutcome>
    var calls: nat
    ghost var sent: seq<byte>

    constructor (script: seq<SendOutcome>)
      ensures this.script == script && calls == 0 && sent == []
    {
      this.script, calls, sent := script, 0, [];
    }

    /** send: -1, or a positive number of the bytes offered, as the script has it for this call. */
    method Send(data: seq<byte>) returns (n: int)
      requires data != []
      modifies this
      ensures calls == old(calls) + 1 && -1 <= n <= |data| && n != 0
      ensures ResultOf(OutcomeAt(script, old(calls)), |data|) == if n == -1 then Failed else Took(n)
      ensures sent == if n == -1 then old(sent) else old(sent) + data[..n]
    {
      match OutcomeAt(script, calls) {
        case Fails => n := -1;
        case TakesUpTo(m) => n := if m == 0 then 1 else Min(m, |data|);
        case TakesAll => n := |data|;
      }
      if n != -1 {
        sent := sent + data[..n];
      }
      calls := calls + 1;
    }
  }
}
