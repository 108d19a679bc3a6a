/**
  What the driver does, on values: a device is the log of all lines ever committed and the bytes
  still pending. Its readable content is the last CAPACITY lines, end to end.
 */
module DeviceSpec {
  import opened Bytes
  import opened Positions

  const CAPACITY: nat := 10

  const EINTR := 4
  const ENOMEM := 12
  const EFAULT := 14
  const EINVAL := 22
  const ENOTTY := 25
  const ERANGE := 34

  datatype DeviceState = DeviceState(log: seq<seq<byte>>, pending: seq<byte>)

  const FRESH := DeviceState([], [])

  function Lines(log: seq<seq<byte>>): seq<seq<byte>> {
    Last(log, CAPACITY)
  }

  function Content(log: seq<seq<byte>>): seq<byte> {
    Concat(Lines(log))
  }

  lemma ContentLength(log: seq<seq<byte>>)
    ensures |Content(log)| == Total(Sizes(Lines(log)))
  {
    TotalIsLength(Lines(log));
  }

  lemma ContentAtOffset(log: seq<seq<byte>>, pos: nat, n: nat)
    requires Locate(Sizes(Lines(log)), pos).Some?
    requires var q := Locate(Sizes(Lines(log)), pos).value; q.offset + n <= |Lines(log)[q.index]|
    ensures pos + n <= |Content(log)|
    ensures var q := Locate(Sizes(Lines(log)), pos).value;
            Content(log)[pos..pos + n] == Lines(log)[q.index][q.offset..q.offset + n]
  {
    BytesAtOffset(Lines(log), pos, n);
  }

  predicate WellFormedLog(log: seq<seq<byte>>) {
    forall i :: 0 <= i < |log| ==> EndsInNewline(log[i])
  }

  // ---------------------------------------------------------------- writing

  /** The call of aesd_write that fails, if one does. */
  datatype WriteFault =
    | NoWriteFault
    | LockInterrupted    // mutex_lock_killable
    | OutOfMemory        // kmalloc, krealloc
    | BadUserBuffer      // copy_from_user
    | CommitInterrupted  // down_write_killable

  function Write(s: DeviceState, w: seq<byte>, fault: WriteFault): (DeviceState, int) {
    if w == [] then (s, 0)
    else match fault
      case LockInterrupted => (s, -EINTR)
      case OutOfMemory => (s.(pending := []), -ENOMEM)
      case BadUserBuffer => (s, -EFAULT)
      case _ =>
        var line := s.pending + w;
        if !EndsInNewline(w) then (s.(pending := line), |w|)
        else if fault.CommitInterrupted? then (s.(pending := line), -EINTR)
        else (DeviceState(s.log + [line], []), |w|)
  }

  /**
    Splitting a write in two changes nothing exactly when the first part does not end in a
    newline. The second part may also fail in its allocation or at the commit.
   */
  lemma WriteSplit(s: DeviceState, w1: seq<byte>, w2: seq<byte>, fault: WriteFault)
    requires w1 != [] && w2 != []
    requires fault != LockInterrupted && fault != BadUserBuffer
    ensures Write(Write(s, w1, NoWriteFault).0, w2, fault).0 == Write(s, w1 + w2, fault).0 <==> !EndsInNewline(w1)
  {
    var split := Write(Write(s, w1, NoWriteFault).0, w2, fault).0;
    var whole := Write(s, w1 + w2, fault).0;
    assert (w1 + w2)[|w1 + w2| - 1] == w2[|w2| - 1];
    assert s.pending + (w1 + w2) == s.pending + w1 + w2;
    if EndsInNewline(w1) {
      assert split.log[|s.log|] == s.pending + w1;
      assert |whole.log| > |s.log| ==> |whole.log[|s.log|]| > |s.pending + w1|;
    }
  }

  function WriteAll(s: DeviceState, parts: seq<seq<byte>>): DeviceState
    decreases |parts|
  {
    if parts == [] then s else WriteAll(Write(s, parts[0], NoWriteFault).0, parts[1..])
  }

  lemma {:induction false} WriteAllSnoc(s: DeviceState, parts: seq<seq<byte>>, part: seq<byte>)
    ensures WriteAll(s, parts + [part]) == Write(WriteAll(s, parts), part, NoWriteFault).0
    decreases |parts|
  {
    if parts == [] {
      assert [part][1..] == [];
    } else {
      assert (parts + [part])[0] == parts[0] && (parts + [part])[1..] == parts[1..] + [part];
      WriteAllSnoc(Write(s, parts[0], NoWriteFault).0, parts[1..], part);
    }
  }

  /** Any split into non-empty parts of which only the last may end in a newline. */
  predicate CleanSplit(parts: seq<seq<byte>>) {
    && (forall i :: 0 <= i < |parts| ==> parts[i] != [])
    && (forall i :: 0 <= i < |parts| - 1 ==> !EndsInNewline(parts[i]))
  }

  lemma {:induction false} SplitInvariance(s: DeviceState, parts: seq<seq<byte>>)
    requires parts != [] && CleanSplit(parts)
    ensures WriteAll(s, parts) == Write(s, Concat(parts), NoWriteFault).0
    decreases |parts|
  {
    if |parts| == 1 {
      assert parts == [parts[0]];
      ConcatOne(parts[0]);
    } else {
      var rest := parts[1..];
      SplitInvariance(Write(s, parts[0], NoWriteFault).0, rest);
      assert Concat(rest) == rest[0] + Concat(rest[1..]);
      WriteSplit(s, parts[0], Concat(rest), NoWriteFault);
    }
  }

  /** One newline, and that at the end. */
  predicate IsPacket(p: seq<byte>) {
    EndsInNewline(p) && forall i :: 0 <= i < |p| - 1 ==> p[i] != NL
  }

  /** A packet becomes exactly one line, however it is cut into driver writes. */
  lemma PacketBecomesOneLine(s: DeviceState, parts: seq<seq<byte>>)
    requires IsPacket(Concat(parts))
    requires forall i :: 0 <= i < |parts| ==> parts[i] != []
    ensures WriteAll(s, parts) == DeviceState(s.log + [s.pending + Concat(parts)], [])
  {
    forall i | 0 <= i < |parts| - 1
      ensures !EndsInNewline(parts[i])
    {
      LineInConcat(parts, i);
      var at := Start(Sizes(parts), i);
      LineInConcat(parts, i + 1);
      assert Concat(parts)[at + |parts[i]| - 1] == Concat(parts)[at..at + |parts[i]|][|parts[i]| - 1];
    }
    SplitInvariance(s, parts);
  }

  datatype Call = Call(data: seq<byte>, fault: WriteFault)

  function Run(s: DeviceState, calls: seq<Call>): DeviceState
    decreases |calls|
  {
    if calls == [] then s else Run(Write(s, calls[0].data, calls[0].fault).0, calls[1..])
  }

  /** In every run lines are only added, and every line is non-empty and ends in a newline. */
  lemma {:induction false} RunKeepsLinesWellFormed(s: DeviceState, calls: seq<Call>)
    requires WellFormedLog(s.log)
    ensures WellFormedLog(Run(s, calls).log)
    ensures s.log <= Run(s, calls).log
    decreases |calls|
  {
    if calls == [] {
    } else {
      RunKeepsLinesWellFormed(Write(s, calls[0].data, calls[0].fault).0, calls[1..]);
    }
  }

  /** Whether the last call that touched the pending bytes was a newline whose commit was interrupted. */
  predicate InterruptedLast(calls: seq<Call>) {
    calls != [] &&
    var c := calls[|calls| - 1];
    if c.data == [] || c.fault.LockInterrupted? || c.fault.BadUserBuffer? then InterruptedLast(calls[..|calls| - 1])
    else c.fault.CommitInterrupted? && EndsInNewline(c.data)
  }

  lemma {:induction false} RunSnoc(s: DeviceState, calls: seq<Call>, c: Call)
    ensures Run(s, calls + [c]) == Write(Run(s, calls), c.data, c.fault).0
    decreases |calls|
  {
    if calls == [] {
      assert [c][1..] == [];
    } else {
      assert (calls + [c])[0] == calls[0] && (calls + [c])[1..] == calls[1..] + [c];
      RunSnoc(Write(s, calls[0].data, calls[0].fault).0, calls[1..], c);
    }
  }

  /** The pending bytes end in a newline exactly after an interrupted commit nothing has followed. */
  lemma {:induction false} PendingNewlineExactly(calls: seq<Call>)
    ensures EndsInNewline(Run(FRESH, calls).pending) <==> InterruptedLast(calls)
  {
    if calls == [] {
    } else {
      var before, c := calls[..|calls| - 1], calls[|calls| - 1];
      assert calls == before + [c];
      RunSnoc(FRESH, before, c);
      PendingNewlineExactly(before);
    }
  }

  function StoredBy(c: Call): seq<seq<byte>> {
    if c.fault.LockInterrupted? || c.fault.BadUserBuffer? then [] else [c.data]
  }

  /** The data of the calls that left their bytes behind in the device. */
  function Stored(calls: seq<Call>): seq<seq<byte>> {
    if calls == [] then []
    else
      StoredBy(calls[0]) + Stored(calls[1..])
  }

  /** All the bytes a device has kept: those of the whole log, and the pending ones. */
  function Kept(s: DeviceState): seq<byte> {
    Concat(s.log) + s.pending
  }

  /**
    What the value returned tells the caller. It is the count of bytes given exactly when all of them
    are kept and no call failed on the way; each error has its causes, and after an interrupted commit
    the bytes are kept all the same.
   */
  lemma WriteReturns(s: DeviceState, w: seq<byte>, fault: WriteFault)
    ensures var (after, ret) := Write(s, w, fault);
            && (0 <= ret <==> w == [] || fault.NoWriteFault? || (fault.CommitInterrupted? && !EndsInNewline(w)))
            && (0 <= ret ==> ret == |w| && Kept(after) == Kept(s) + w && |Kept(after)| - |Kept(s)| == ret)
            && (ret == -ENOMEM <==> w != [] && fault.OutOfMemory?)
            && (ret == -EFAULT <==> w != [] && fault.BadUserBuffer?)
            && (ret == -EINTR <==>
                  w != [] && (fault.LockInterrupted? || (fault.CommitInterrupted? && EndsInNewline(w))))
            && (ret < 0 ==> after.log == s.log)
            && (ret < 0 ==> Kept(after) == if fault.CommitInterrupted? then Kept(s) + w
                                           else if fault.OutOfMemory? then Concat(s.log)
                                           else Kept(s))
  {
    if !fault.OutOfMemory? {
      WriteConservesBytes(s, Call(w, fault));
    }
    ConcatOne(w);
    assert Kept(s) + [] == Kept(s) && Concat(s.log) + [] == Concat(s.log);
  }

  lemma WriteConservesBytes(s: DeviceState, c: Call)
    requires c.fault != OutOfMemory
    ensures Kept(Write(s, c.data, c.fault).0) == Kept(s) + Concat(StoredBy(c))
  {
    ConcatOne(c.data);
    ConcatSnoc(s.log, s.pending + c.data);
  }

  /** While no allocation fails, no byte is lost, duplicated or reordered. */
  lemma {:induction false} RunConservesBytes(s: DeviceState, calls: seq<Call>)
    requires forall i :: 0 <= i < |calls| ==> calls[i].fault != OutOfMemory
    ensures Kept(Run(s, calls)) == Kept(s) + Concat(Stored(calls))
    decreases |calls|
  {
    hide Write, StoredBy, Kept;
    if calls == [] {
    } else {
      var c := calls[0];
      WriteConservesBytes(s, c);
      RunConservesBytes(Write(s, c.data, c.fault).0, calls[1..]);
      ConcatAppend(StoredBy(c), Stored(calls[1..]));
      Associative(Kept(s), Concat(StoredBy(c)), Concat(Stored(calls[1..])));
    }
  }

  lemma Associative(a: seq<byte>, b: seq<byte>, c: seq<byte>)
    ensures a + b + c == a + (b + c)
  {
  }

  // ---------------------------------------------------------------- content after commits

  lemma LastOfLast<T>(log: seq<T>, more: seq<T>, n: nat)
    ensures Last(log + more, n) == Last(Last(log, n) + more, n)
  {
  }

  /** The bytes that n-bounded eviction takes off the front. */
  function Dropped(lines: seq<seq<byte>>, n: nat): nat {
    if |lines| <= n then 0 else Start(Sizes(lines), |lines| - n)
  }

  lemma ConcatSplit(lines: seq<seq<byte>>, k: nat)
    requires k <= |lines|
    ensures Concat(lines) == Concat(lines[..k]) + Concat(lines[k..])
    ensures |Concat(lines[..k])| == Start(Sizes(lines), k)
  {
    StartIsLength(lines, k);
    assert lines == lines[..k] + lines[k..];
    ConcatAppend(lines[..k], lines[k..]);
  }

  lemma DropPrefix(a: seq<byte>, b: seq<byte>)
    ensures (a + b)[|a|..] == b
  {
  }

  lemma ConcatOfLast(lines: seq<seq<byte>>, n: nat)
    ensures Dropped(lines, n) <= |Concat(lines)|
    ensures Concat(Last(lines, n)) == Concat(lines)[Dropped(lines, n)..]
  {
    if |lines| > n {
      var k := |lines| - n;
      ConcatSplit(lines, k);
      DropPrefix(Concat(lines[..k]), Concat(lines[k..]));
    } else {
      assert Concat(lines)[0..] == Concat(lines);
    }
  }

  /** Bytes evicted while `more` was committed on top of `log`. */
  function Evicted(log: seq<seq<byte>>, more: seq<seq<byte>>): nat {
    Dropped(Lines(log) + more, CAPACITY)
  }

  /** Commits append at the end and evict at the front, and do nothing else to the content. */
  lemma ContentAfterCommits(log: seq<seq<byte>>, more: seq<seq<byte>>)
    ensures Evicted(log, more) <= |Content(log) + Concat(more)|
    ensures Content(log + more) == (Content(log) + Concat(more))[Evicted(log, more)..]
  {
    LastOfLast(log, more, CAPACITY);
    ConcatAppend(Lines(log), more);
    ConcatOfLast(Lines(log) + more, CAPACITY);
  }

  /** Exactly when the lines overflow the ring does anything leave it. */
  lemma EvictedExactly(log: seq<seq<byte>>, more: seq<seq<byte>>)
    requires WellFormedLog(log) && WellFormedLog(more)
    ensures Evicted(log, more) == 0 <==> |Lines(log)| + |more| <= CAPACITY
  {
    var all := Lines(log) + more;
    if |all| > CAPACITY {
      StartMonotone(Sizes(all), 1, |all| - CAPACITY);
      assert EndsInNewline(all[0]);
      assert Start(Sizes(all), 1) == Start(Sizes(all), 0) + |all[0]|;
    }
  }

  /** One commit: the content loses the evicted line and gains the new one. */
  lemma ContentAfterCommit(log: seq<seq<byte>>, line: seq<byte>)
    ensures var gone := if |log| < CAPACITY then 0 else |log[|log| - CAPACITY]|;
            gone <= |Content(log)| && Content(log + [line]) == Content(log)[gone..] + line
  {
    ContentAfterCommits(log, [line]);
    ConcatOne(line);
    if |log| >= CAPACITY {
      var all := Lines(log) + [line];
      assert Start(Sizes(all), 1) == Start(Sizes(all), 0) + |all[0]|;
      assert Lines(log)[0] == log[|log| - CAPACITY];
      assert Concat(Lines(log)) == Lines(log)[0] + Concat(Lines(log)[1..]);
    }
  }

  // ---------------------------------------------------------------- reading

  datatype ReadFault =
    | NoReadFault
    | ReadInterrupted          // down_read_killable
    | CopyFails(chunk: nat)    // the copy_to_user of this chunk, if the read gets to it

  /** Where a read of c bytes from p ends in a content of n bytes. */
  function ReadEnd(n: nat, p: nat, c: nat): nat {
    if p >= n then p else Min(p + c, n)
  }

  /** Where the read stands after its first chunks; a chunk never crosses an entry. */
  function Advance(sizes: seq<nat>, p: nat, c: nat, chunks: nat): nat
    decreases chunks
  {
    if chunks == 0 || c == 0 then p
    else match Locate(sizes, p)
      case None => p
      case Some(_) =>
        var n := Chunk(sizes, p, c);
        Advance(sizes, p + n, c - n, chunks - 1)
  }

  function ReadStop(sizes: seq<nat>, p: nat, c: nat, fault: ReadFault): nat {
    match fault
    case NoReadFault => ReadEnd(Total(sizes), p, c)
    case ReadInterrupted => p
    case CopyFails(chunk) => Advance(sizes, p, c, chunk)
  }

  /** The bytes left in the entry that holds offset p do not pass the end of file. */
  lemma ChunkFits(sizes: seq<nat>, p: nat)
    requires Locate(sizes, p).Some?
    ensures var q := Locate(sizes, p).value;
            p + (sizes[q.index] - q.offset) <= Total(sizes)
  {
    LocateThenOffset(sizes, p);
    StartMonotone(sizes, Locate(sizes, p).value.index + 1, |sizes|);
  }

  /** What a read of `left` bytes takes from the entry that holds offset p. */
  function Chunk(sizes: seq<nat>, p: nat, left: nat): nat
    requires Locate(sizes, p).Some?
  {
    var q := Locate(sizes, p).value;
    Min(left, sizes[q.index] - q.offset)
  }

  lemma ChunkBounds(sizes: seq<nat>, p: nat, left: nat)
    requires Locate(sizes, p).Some? && left > 0
    ensures 0 < Chunk(sizes, p, left) <= left && p + Chunk(sizes, p, left) <= Total(sizes)
  {
    ChunkFits(sizes, p);
  }

  /** The state of a read loop that has delivered these bytes in `chunk` chunks. */
  ghost predicate Reading(log: seq<seq<byte>>, p: nat, count: nat, fault: ReadFault, got: seq<byte>, chunk: nat) {
    var sizes, n, at := Sizes(Lines(log)), |Content(log)|, |got|;
    && at <= count
    && got == Slice(Content(log), p, p + at)
    && ReadEnd(n, p + at, count - at) == ReadEnd(n, p, count)
    && (fault.CopyFails? ==> chunk <= fault.chunk)
    && (fault.CopyFails? ==>
          Advance(sizes, p + at, count - at, fault.chunk - chunk) == Advance(sizes, p, count, fault.chunk))
  }

  lemma ReadingStarts(log: seq<seq<byte>>, p: nat, count: nat, fault: ReadFault)
    ensures Reading(log, p, count, fault, [], 0)
    ensures fault.ReadInterrupted? ==> ReadStop(Sizes(Lines(log)), p, count, fault) == p
    ensures Slice(Content(log), p, p) == []
  {
  }

  lemma ReadingStep(log: seq<seq<byte>>, p: nat, count: nat, fault: ReadFault, got: seq<byte>, chunk: nat, n: nat)
    requires Reading(log, p, count, fault, got, chunk) && |got| < count && p + |got| < |Content(log)|
    requires fault != CopyFails(chunk)
    requires Locate(Sizes(Lines(log)), p + |got|).Some?
    requires n == Chunk(Sizes(Lines(log)), p + |got|, count - |got|)
    ensures 0 < n <= count - |got| && p + |got| + n <= |Content(log)|
    ensures Reading(log, p, count, fault, got + Content(log)[p + |got|..p + |got| + n], chunk + 1)
  {
    hide Content, Locate, Slice;
    ContentLength(log);
    ChunkBounds(Sizes(Lines(log)), p + |got|, count - |got|);
    SliceGrows(Content(log), p, p + |got|, n);
  }

  lemma ReadingDone(log: seq<seq<byte>>, p: nat, count: nat, fault: ReadFault, got: seq<byte>, chunk: nat)
    requires Reading(log, p, count, fault, got, chunk) && !fault.ReadInterrupted?
    requires |got| == count || p + |got| >= |Content(log)| || fault == CopyFails(chunk)
    ensures ReadStop(Sizes(Lines(log)), p, count, fault) == p + |got|
    ensures p + |got| < ReadEnd(|Content(log)|, p, count) <==> |got| < count && p + |got| < |Content(log)|
    ensures got == Slice(Content(log), p, p + |got|)
  {
    TotalIsLength(Lines(log));
    LocateThenOffset(Sizes(Lines(log)), p + |got|);
  }

  /** Without a failure a read delivers what was asked for, or the rest if that is less. */
  lemma WholeRead(log: seq<seq<byte>>, p: nat, count: nat)
    ensures ReadStop(Sizes(Lines(log)), p, count, NoReadFault) == ReadEnd(|Content(log)|, p, count)
    ensures ReadEnd(|Content(log)|, p, count) - p ==
            if p >= |Content(log)| then 0 else Min(count, |Content(log)| - p)
  {
    ContentLength(log);
  }

  /** Chunks never overshoot, and each copies at least a byte: c chunks always reach the end. */
  lemma {:induction false} AdvanceReachesEnd(sizes: seq<nat>, p: nat, c: nat, chunks: nat)
    ensures p <= Advance(sizes, p, c, chunks) <= ReadEnd(Total(sizes), p, c)
    ensures chunks >= c ==> Advance(sizes, p, c, chunks) == ReadEnd(Total(sizes), p, c)
    decreases chunks
  {
    LocateThenOffset(sizes, p);
    if chunks == 0 || c == 0 || Locate(sizes, p).None? {
    } else {
      ChunkFits(sizes, p);
      var n := Chunk(sizes, p, c);
      AdvanceReachesEnd(sizes, p + n, c - n, chunks - 1);
    }
  }

  /**
    So many chunks bring a read to the end of the entry that many entries on, or to what it was asked
    for: this is where a failed copy leaves it.
   */
  lemma {:induction false} AdvanceExactly(sizes: seq<nat>, p: nat, c: nat, chunks: nat)
    requires (forall i :: 0 <= i < |sizes| ==> sizes[i] > 0) && Locate(sizes, p).Some? && chunks > 0
    ensures var entry := Locate(sizes, p).value.index;
            Advance(sizes, p, c, chunks) == Min(p + c, Start(sizes, Min(entry + chunks, |sizes|)))
    decreases chunks
  {
    hide Locate, AbsoluteOffset;
    var place := Locate(sizes, p).value;
    var next := place.index + 1;
    LocateThenOffset(sizes, p);
    OffsetInEntry(sizes, p);
    StartMonotone(sizes, next, Min(place.index + chunks, |sizes|));
    if c > sizes[place.index] - place.offset {
      LocateThenOffset(sizes, Start(sizes, next));
      if next < |sizes| {
        OffsetThenLocate(sizes, next, 0);
        PlaceStarts(sizes, next);
        if chunks > 1 {
          AdvanceExactly(sizes, Start(sizes, next), p + c - Start(sizes, next), chunks - 1);
        }
      }
    }
  }

  lemma OffsetInEntry(sizes: seq<nat>, p: nat)
    requires Locate(sizes, p).Some?
    ensures var place := Locate(sizes, p).value;
            p == Start(sizes, place.index) + place.offset && IsPlace(sizes, place)
  {
    LocateThenOffset(sizes, p);
  }

  lemma PlaceStarts(sizes: seq<nat>, i: nat)
    requires i < |sizes| && sizes[i] > 0
    ensures AbsoluteOffset(sizes, i, 0) == Start(sizes, i)
  {
  }

  /** The bytes that successive reads of these counts deliver, and where they end. */
  function Reads(content: seq<byte>, p: nat, counts: seq<nat>): (seq<byte>, nat)
    decreases |counts|
  {
    if counts == [] then ([], p)
    else
      var e := ReadEnd(|content|, p, counts[0]);
      var rest := Reads(content, e, counts[1..]);
      (Slice(content, p, e) + rest.0, rest.1)
  }

  lemma {:induction false} ReadsAreContiguous(content: seq<byte>, p: nat, counts: seq<nat>)
    ensures p <= Reads(content, p, counts).1
    ensures p <= |content| ==> Reads(content, p, counts).1 <= |content|
    ensures Reads(content, p, counts).0 == Slice(content, p, Reads(content, p, counts).1)
    decreases |counts|
  {
    if counts == [] {
    } else {
      ReadsAreContiguous(content, ReadEnd(|content|, p, counts[0]), counts[1..]);
    }
  }

  /** Reading until a read of a positive count returns nothing delivers all the rest. */
  lemma ReadUntilZero(content: seq<byte>, p: nat, counts: seq<nat>, c: nat)
    requires c > 0 && p <= |content|
    requires var end := Reads(content, p, counts).1; ReadEnd(|content|, end, c) == end
    ensures Reads(content, p, counts).0 == content[p..]
  {
    ReadsAreContiguous(content, p, counts);
  }

  // ---------------------------------------------------------------- seeking

  const TWO_63 := 0x8000_0000_0000_0000
  const TWO_64 := 0x1_0000_0000_0000_0000

  const SEEK_SET := 0
  const SEEK_CUR := 1
  const SEEK_END := 2

  function Unsigned64(x: int): int {
    x % TWO_64
  }

  /** The two's complement value of the low 64 bits. */
  function Signed64(x: int): int {
    if Unsigned64(x) < TWO_63 then Unsigned64(x) else Unsigned64(x) - TWO_64
  }

  predicate IsInt64(x: int) {
    -TWO_63 <= x < TWO_63
  }

  /** aesd_llseek against a device whose end of file is eof: the value returned and the new f_pos. */
  function Llseek(eof: nat, fPos: nat, offset: int, whence: int): (r: (int, nat))
  {
    var target :=
      if whence == SEEK_SET then Some(offset)
      else if whence == SEEK_CUR then Some(Signed64(fPos + offset))
      else if whence == SEEK_END then Some(Signed64(Unsigned64(eof + offset)))
      else None;
    if target.None? then (-EINVAL, fPos)
    else if target.value < 0 || Unsigned64(target.value) > eof then (-ERANGE, fPos)
    else (target.value, target.value)
  }

  /** A position plus a 64-bit offset wraps at most once, and only past the largest position. */
  lemma SumWraps(position: nat, offset: int)
    requires position < TWO_63 && IsInt64(offset)
    ensures var sum := position + offset;
            Signed64(sum) == Signed64(Unsigned64(sum)) == if sum < TWO_63 then sum else sum - TWO_64
  {
  }

  /** With 64-bit wrap-around, llseek still succeeds exactly for mathematical targets in [0, EOF]. */
  lemma LlseekExact(eof: nat, fPos: nat, offset: int, whence: int)
    requires eof < TWO_63 && fPos < TWO_63 && IsInt64(offset)
    ensures var base := if whence == SEEK_CUR then fPos else if whence == SEEK_END then eof else 0;
            Llseek(eof, fPos, offset, whence) ==
            if !(SEEK_SET <= whence <= SEEK_END) then (-EINVAL, fPos)
            else if 0 <= base + offset <= eof then (base + offset, base + offset)
            else (-ERANGE, fPos)
  {
    hide Signed64;
    SumWraps(fPos, offset);
    SumWraps(eof, offset);
  }

  datatype IoctlFault =
    | NoIoctlFault
    | BadArgument         // copy_from_user
    | LookUpInterrupted   // down_read_killable before the command is looked up
    | SeekInterrupted     // down_read_killable in aesd_llseek

  /** AESDCHAR_IOCSEEKTO: the command is looked up in one snapshot, the position set in a later one. */
  function SeekTo(first: seq<seq<byte>>, second: seq<seq<byte>>, fPos: nat, x: nat, y: nat): (int, nat) {
    var offset := AbsoluteOffset(Sizes(Lines(first)), x, y);
    if offset < 0 then (-EINVAL, fPos) else Llseek(|Content(second)|, fPos, offset, SEEK_SET)
  }

  /**
    The position a successful seek sets lies in [0, EOF] of the second snapshot. It addresses the
    byte that lies Evicted bytes further in the first content continued by the commits between.
   */
  lemma SeekAcrossCommits(log: seq<seq<byte>>, more: seq<seq<byte>>, fPos: nat, x: nat, y: nat)
    requires |Content(log)| < TWO_63
    ensures var r := SeekTo(log, log + more, fPos, x, y);
            var gone := Evicted(log, more);
            && (r.0 < 0 ==> r.1 == fPos)
            && (r.0 >= 0 ==>
                  && IsPlace(Sizes(Lines(log)), Place(x, y))
                  && r.0 == r.1 == AbsoluteOffset(Sizes(Lines(log)), x, y)
                  && r.1 <= |Content(log + more)|
                  && gone + |Content(log + more)| == |Content(log) + Concat(more)|
                  && (r.1 < |Content(log + more)| ==>
                        Content(log + more)[r.1] == (Content(log) + Concat(more))[gone + r.1]))
            && (r.0 == -EINVAL <==> !IsPlace(Sizes(Lines(log)), Place(x, y)))
  {
    var sizes := Sizes(Lines(log));
    OffsetThenLocate(sizes, x, y);
    TotalIsLength(Lines(log));
    ContentAfterCommits(log, more);
  }

  /** With no commit in between, seeking to a place that exists succeeds and addresses its byte. */
  lemma SeekWithoutCommit(log: seq<seq<byte>>, fPos: nat, x: nat, y: nat)
    requires |Content(log)| < TWO_63 && IsPlace(Sizes(Lines(log)), Place(x, y))
    ensures var r := SeekTo(log, log, fPos, x, y);
            0 <= r.0 == r.1 < |Content(log)| && Content(log)[r.1] == Lines(log)[x][y]
  {
    ByteAtPlace(Lines(log), Place(x, y));
  }
}
