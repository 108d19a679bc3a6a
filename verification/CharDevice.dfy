/**
  The aesdchar driver (main.c): the ring, the pending entry, and the file operations on them.
  Each operation is one critical section; what fails inside it is a parameter.
 */
module CharDevice {
  import opened Bytes
  import opened Positions
  import opened DeviceSpec
  import opened KernelHeap
  import opened CircularBuffer

  /** struct file, as far as the driver looks at it. */
  class OpenFile {
    var fPos: nat

    constructor ()
      ensures fPos == 0
    {
      fPos := 0;
    }
  }

  ghost predicate InRing(held: seq<Entry>, b: array<byte>) {
    exists k :: 0 <= k < |held| && held[k].buffptr == b
  }

  /** Every live block has exactly one owner: one ring slot, or the pending entry. */
  ghost predicate Ownership(held: seq<Entry>, temp: array?<byte>, live: set<array<byte>>) {
    && (forall k :: 0 <= k < |held| ==> held[k].buffptr != null && held[k].buffptr in live)
    && (forall j, k :: 0 <= j < k < |held| ==> held[j].buffptr != held[k].buffptr)
    && (temp != null ==> temp in live && !InRing(held, temp))
    && (forall b :: b in live ==> b == temp || InRing(held, b))
  }

  /** The blocks of the entries hold the lines. */
  ghost predicate Stores(held: seq<Entry>, lines: seq<seq<byte>>, live: set<array<byte>>)
    reads live
  {
    && |held| == |lines|
    && (forall k :: 0 <= k < |held| ==> held[k].buffptr != null && held[k].buffptr in live)
    && (forall k :: 0 <= k < |held| ==>
          held[k].size <= held[k].buffptr.Length && held[k].buffptr[..held[k].size] == lines[k])
  }

  /** The live blocks are those of the slots from `from` on, and the pending one, each once. */
  ghost predicate OwnsSlots(slots: seq<Entry>, from: nat, temp: array?<byte>, live: set<array<byte>>) {
    && (forall i :: from <= i < |slots| && slots[i].buffptr != null ==>
          slots[i].buffptr in live && slots[i].buffptr != temp)
    && (forall i, j :: from <= i < j < |slots| && slots[i].buffptr != null ==> slots[i].buffptr != slots[j].buffptr)
    && (temp != null ==> temp in live)
    && (forall b :: b in live && b != temp ==> exists i :: from <= i < |slots| && slots[i].buffptr == b)
  }

  lemma OwnsSlotsStep(slots: seq<Entry>, i: nat, temp: array?<byte>, live: set<array<byte>>)
    requires OwnsSlots(slots, i, temp, live) && i < |slots|
    ensures slots[i].buffptr != null ==> slots[i].buffptr in live
    ensures OwnsSlots(slots, i + 1, temp, if slots[i].buffptr == null then live else live - {slots[i].buffptr})
  {
  }

  lemma OwnsNoSlots(slots: seq<Entry>, temp: array?<byte>, live: set<array<byte>>)
    requires OwnsSlots(slots, |slots|, temp, live)
    ensures live == if temp == null then {} else {temp}
  {
  }

  function Shifted<T>(s: seq<T>, evict: bool, e: T): seq<T>
    requires evict ==> s != []
  {
    (if evict then s[1..] else s) + [e]
  }

  /** A commit passes the pending block on to the ring, and frees the block of the evicted entry. */
  lemma OwnershipAfterCommit(held: seq<Entry>, temp: array<byte>, size: nat, live: set<array<byte>>, evict: bool)
    requires Ownership(held, temp, live) && (evict ==> held != [])
    ensures Ownership(Shifted(held, evict, Entry(temp, size)), null,
                      live - (if evict then {held[0].buffptr} else {}))
    ensures evict ==> held[0].buffptr != null && held[0].buffptr in live
  {
    var held' := Shifted(held, evict, Entry(temp, size));
    var live' := live - (if evict then {held[0].buffptr} else {});
    assert held'[|held'| - 1].buffptr == temp;
    forall b | b in live'
      ensures InRing(held', b)
    {
      if b != temp {
        var k :| 0 <= k < |held| && held[k].buffptr == b;
        assert held'[if evict then k - 1 else k].buffptr == b;
      }
    }
  }

  lemma StoresAfterCommit(held: seq<Entry>, lines: seq<seq<byte>>, temp: array<byte>, size: nat,
                          live: set<array<byte>>, evict: bool)
    requires Ownership(held, temp, live) && Stores(held, lines, live)
    requires size <= temp.Length && (evict ==> held != [])
    ensures Stores(Shifted(held, evict, Entry(temp, size)), Shifted(lines, evict, temp[..size]),
                   live - (if evict then {held[0].buffptr} else {}))
  {
    OwnershipAfterCommit(held, temp, size, live, evict);
  }

  class Device {
    const heap: Heap
    const ring: Ring
    var tempBuf: array?<byte>  // temp_entry.buffptr
    var tempSize: nat          // temp_entry.size
    ghost var log: seq<seq<byte>>

    ghost predicate Valid()
      reads this, heap, ring, ring.entry, heap.live
    {
      && ring.Valid()
      && ring.entry.Length == CAPACITY
      && |ring.added| == |log|
      && WellFormedLog(log)
      && Ownership(ring.Held(), tempBuf, heap.live)
      && Stores(ring.Held(), Lines(log), heap.live)
      && (tempBuf == null ==> tempSize == 0)
      && (tempBuf != null ==> tempSize <= tempBuf.Length)
    }

    ghost function Pending(): seq<byte>
      requires Valid()
      reads this, heap, ring, ring.entry, heap.live
    {
      if tempBuf == null then [] else tempBuf[..tempSize]
    }

    ghost function State(): DeviceState
      requires Valid()
      reads this, heap, ring, ring.entry, heap.live
    {
      DeviceState(log, Pending())
    }

    /** aesd_init_module. */
    constructor ()
      ensures Valid() && State() == FRESH
      ensures fresh(heap) && fresh(ring) && fresh(ring.entry) && heap.live == {}
    {
      heap := new Heap();
      ring := new Ring(CAPACITY);
      tempBuf, tempSize := null, 0;
      log := [];
    }

    /** The sizes in the ring are the lengths of the lines. */
    lemma HeldSizes()
      requires Valid()
      ensures EntrySizes(ring.Held()) == Sizes(Lines(log))
    {
      assert |ring.Held()| == |Lines(log)|;
      forall k | 0 <= k < |ring.Held()|
        ensures EntrySizes(ring.Held())[k] == Sizes(Lines(log))[k]
      {
        var e := ring.Held()[k];
        assert e.buffptr[..e.size] == Lines(log)[k];
      }
    }

    /** Room for count more bytes in the pending block (main.c:214-221). */
    method Allocate(count: nat, succeeds: bool) returns (oldBuf: array?<byte>)
      requires tempBuf != null ==> tempBuf in heap.live && tempSize <= tempBuf.Length
      requires tempBuf == null ==> tempSize == 0
      modifies this`tempBuf, heap
      ensures oldBuf == old(tempBuf)
      ensures !succeeds ==> tempBuf == null && heap.live == old(heap.live)
      ensures succeeds ==> tempBuf != null && tempSize + count <= tempBuf.Length
      ensures succeeds ==> tempBuf == oldBuf || fresh(tempBuf)
      ensures succeeds ==> heap.live == old(heap.live) - (if oldBuf == null then {} else {oldBuf}) + {tempBuf}
      ensures succeeds ==> tempBuf[..tempSize] == if oldBuf == null then [] else oldBuf[..tempSize]
    {
      oldBuf := tempBuf;
      if tempBuf == null {
        tempBuf := heap.Kmalloc(count, succeeds);
      } else {
        tempBuf := heap.Krealloc(tempBuf, tempSize + count, succeeds);
      }
    }

    /** On failure the pending bytes are gone, and their block with them (main.c:214-228). */
    method GrowPending(count: nat, succeeds: bool) returns (ok: bool)
      requires Valid() && 0 < count
      modifies this`tempBuf, this`tempSize, heap
      ensures Valid() && ok == succeeds
      ensures fresh(heap.live - old(heap.live))
      ensures ok ==> tempBuf != null && (tempBuf == old(tempBuf) || fresh(tempBuf))
      ensures ok ==> tempSize == old(tempSize) && tempSize + count <= tempBuf.Length
      ensures ok ==> Pending() == old(Pending())
      ensures !ok ==> Pending() == []
    {
      var oldBuf := Allocate(count, succeeds);
      if tempBuf == null {
        heap.Kfree(oldBuf);
        tempSize := 0;
        return false;
      }
      return true;
    }

    /** The user's bytes go behind the pending ones (main.c:230-238). */
    method AppendPending(buf: seq<byte>, succeeds: bool) returns (ok: bool)
      requires Valid() && tempBuf != null && tempSize + |buf| <= tempBuf.Length
      modifies this`tempSize, tempBuf
      ensures Valid() && ok == succeeds
      ensures Pending() == if ok then old(Pending()) + buf else old(Pending())
      ensures ok && buf != [] ==> tempSize > 0 && tempBuf[tempSize - 1] == buf[|buf| - 1]
    {
      ghost var before := Pending();
      heap.CopyFromUser(tempBuf, tempSize, buf, succeeds);
      assert tempBuf[..tempSize] == before;
      if !succeeds {
        return false;
      }
      tempSize := tempSize + |buf|;
      assert tempBuf[..tempSize] == before + buf;
      return true;
    }

    /** The pending entry moves into the ring, and the entry it evicts is freed (main.c:251-257). */
    method CommitPending()
      requires Valid() && tempBuf != null && EndsInNewline(Pending())
      modifies this, heap, ring, ring.entry
      ensures Valid()
      ensures heap.live <= old(heap.live)
      ensures log == old(log) + [old(Pending())] && Pending() == []
    {
      hide Ownership, Stores, InRing, Last;
      LastLength(ring.added, CAPACITY);
      LastLength(log, CAPACITY);
      ghost var line, held, lines, evict := Pending(), ring.Held(), Lines(log), ring.full;
      ghost var e := Entry(tempBuf, tempSize);
      ghost var rest := heap.live - (if evict then {held[0].buffptr} else {});
      LastSnoc(log, line, CAPACITY);
      LastSnoc(ring.added, e, CAPACITY);
      OwnershipAfterCommit(held, tempBuf, tempSize, heap.live, evict);
      StoresAfterCommit(held, lines, tempBuf, tempSize, heap.live, evict);
      var evicted := ring.AddEntry(Entry(tempBuf, tempSize));
      assert ring.Held() == Shifted(held, evict, e);
      heap.Kfree(evicted);
      assert heap.live == rest;
      tempBuf, tempSize := null, 0;
      log := log + [line];
      assert Lines(log) == Shifted(lines, evict, line);
    }

    /** aesd_write. */
    method AesdWrite(buf: seq<byte>, fault: WriteFault) returns (ret: int)
      requires Valid()
      modifies this, heap, ring, ring.entry, heap.live
      ensures Valid()
      ensures fresh(heap.live - old(heap.live))
      ensures (State(), ret) == Write(old(State()), buf, fault)
      ensures 0 <= ret <==> buf == [] || fault.NoWriteFault? || (fault.CommitInterrupted? && !EndsInNewline(buf))
      ensures 0 <= ret ==> ret == |buf|
      ensures ret < 0 ==> ret == (if fault.OutOfMemory? then -ENOMEM
                                  else if fault.BadUserBuffer? then -EFAULT
                                  else -EINTR)
      ensures log == if 0 <= ret && EndsInNewline(buf) then old(log) + [old(Pending()) + buf] else old(log)
      ensures 0 <= ret && !EndsInNewline(buf) ==> Pending() == old(Pending()) + buf
      ensures ret == -ENOMEM || (0 <= ret && EndsInNewline(buf)) ==> Pending() == []
    {
      if |buf| == 0 {
        return 0;
      }
      if fault.LockInterrupted? {
        return -EINTR;
      }
      var grown := GrowPending(|buf|, fault != OutOfMemory);
      if !grown {
        return -ENOMEM;
      }
      var copied := AppendPending(buf, fault != BadUserBuffer);
      if !copied {
        return -EFAULT;
      }
      assert Pending() == old(Pending()) + buf;
      var last := heap.LoadByte(tempBuf, tempSize - 1);
      if last != NL {
        return |buf|;
      }
      if fault.CommitInterrupted? {
        return -EINTR;
      }
      CommitPending();
      return |buf|;
    }

    /** The bytes the next copy_to_user takes: where they are, and how many (main.c:166-171). */
    method FindChunk(charOffset: nat, left: nat) returns (block: array?<byte>, from: nat, n: nat)
      requires Valid() && left > 0
      ensures block == null <==> charOffset >= |Content(log)|
      ensures block != null ==> block in heap.live && from + n <= block.Length
      ensures block != null ==> Locate(Sizes(Lines(log)), charOffset).Some?
      ensures block != null ==> 0 < n <= left && n == Chunk(Sizes(Lines(log)), charOffset, left)
      ensures block != null ==> charOffset + n <= |Content(log)|
                                && block[from..from + n] == Content(log)[charOffset..charOffset + n]
    {
      hide Content, Last, Ownership;
      LocateThenOffset(Sizes(Lines(log)), charOffset);
      ContentLength(log);
      HeldSizes();
      var found, entryOffset := ring.FindEntryOffsetForFpos(charOffset);
      if found.None? {
        return null, 0, 0;
      }
      block, from, n := found.value.buffptr, entryOffset, Min(left, found.value.size - entryOffset);
      ChunkFits(Sizes(Lines(log)), charOffset);
      ContentAtOffset(log, charOffset, n);
      ghost var line := Lines(log)[Locate(Sizes(Lines(log)), charOffset).value.index];
      assert block[..found.value.size] == line;
      SliceOfPrefix(block[..], found.value.size, from, from + n);
    }

    /**
      One round of the read loop (main.c:166-178): nothing when charOffset is past the end of file,
      the count copied behind the first `at` bytes of the user's buffer, or -EFAULT.
     */
    method ReadChunk(user: array<byte>, at: nat, left: nat, charOffset: nat, copyFails: bool) returns (n: int)
      requires Valid() && user !in heap.live
      requires left > 0 && at + left <= user.Length
      modifies user
      ensures charOffset >= |Content(log)| ==> n == 0
      ensures charOffset < |Content(log)| ==> Locate(Sizes(Lines(log)), charOffset).Some?
      ensures charOffset < |Content(log)| ==>
                n == if copyFails then -EFAULT else Chunk(Sizes(Lines(log)), charOffset, left)
      ensures charOffset < |Content(log)| ==> n != 0
      ensures n > 0 ==> n <= left && charOffset + n <= |Content(log)|
                        && user[at..at + n] == Content(log)[charOffset..charOffset + n]
      ensures user[..at] == old(user[..at])
      ensures forall i :: at + (if n >= 0 then n else left) <= i < user.Length ==> user[i] == old(user[i])
    {
      hide Valid, Chunk, Content, Sizes;
      var block, from, copySize := FindChunk(charOffset, left);
      if block == null {
        return 0;
      }
      heap.CopyToUser(user, at, block, from, copySize, !copyFails);
      n := if copyFails then -EFAULT else copySize;
    }

    /** aesd_read: the position moves by exactly the bytes that were fully copied. */
    method AesdRead(file: OpenFile, user: array<byte>, count: nat, fault: ReadFault) returns (ret: int)
      requires Valid() && count <= user.Length && user !in heap.live
      modifies file, user
      ensures file.fPos == ReadStop(Sizes(Lines(log)), old(file.fPos), count, fault)
      ensures old(file.fPos) <= file.fPos <= old(file.fPos) + count
      ensures user[..file.fPos - old(file.fPos)] == Slice(Content(log), old(file.fPos), file.fPos)
      ensures ret == if fault.ReadInterrupted? then -EINTR
                     else if file.fPos < ReadEnd(|Content(log)|, old(file.fPos), count) then -EFAULT
                     else file.fPos - old(file.fPos)
      ensures fault.NoReadFault? ==>
                ret == if old(file.fPos) >= |Content(log)| then 0 else Min(count, |Content(log)| - old(file.fPos))
      ensures forall i :: (if ret >= 0 then ret else count) <= i < user.Length ==> user[i] == old(user[i])
    {
      hide Valid, Reading, ReadStop, ReadEnd, Slice, Content, Chunk, Sizes;
      ghost var p := file.fPos;
      ReadingStarts(log, p, count, fault);
      WholeRead(log, p, count);
      if fault.ReadInterrupted? {
        return -EINTR;
      }
      ret := 0;
      var left, charOffset, chunk := count, file.fPos, 0;
      assert user[..ret] == [];
      while left > 0
        invariant Valid() && left + ret == count && charOffset == p + ret && 0 <= ret <= count
        invariant Reading(log, p, count, fault, user[..ret], chunk)
        invariant forall i :: ret <= i < user.Length ==> user[i] == old(user[i])
      {
        ghost var got := user[..ret];
        assert |got| == ret;
        var copied := ReadChunk(user, ret, left, charOffset, fault == CopyFails(chunk));
        assert user[..ret] == got;
        if copied == 0 {
          break;
        }
        if copied < 0 {
          ReadingDone(log, p, count, fault, got, chunk);
          file.fPos := charOffset;
          return -EFAULT;
        }
        ReadingStep(log, p, count, fault, got, chunk, copied);
        ghost var more := user[..ret + copied];
        assert more == got + user[ret..ret + copied];
        left := left - copied;
        ret := ret + copied;
        charOffset := charOffset + copied;
        chunk := chunk + 1;
        assert user[..ret] == more;
      }
      ReadingDone(log, p, count, fault, user[..ret], chunk);
      file.fPos := charOffset;
    }

    method FindEof() returns (eof: nat)
      requires Valid()
      ensures eof == |Content(log)|
    {
      ContentLength(log);
      HeldSizes();
      eof := ring.FindEofOffset();
    }

    /** aesd_llseek. */
    method AesdLlseek(file: OpenFile, offset: int, whence: int, interrupted: bool) returns (ret: int)
      requires Valid()
      modifies file
      ensures interrupted ==> ret == -EINTR && file.fPos == old(file.fPos)
      ensures !interrupted ==> (ret, file.fPos) == Llseek(|Content(log)|, old(file.fPos), offset, whence)
    {
      if interrupted {
        return -EINTR;
      }
      hide Valid;
      var eof := FindEof();
      if whence == SEEK_SET {
        ret := offset;
      } else if whence == SEEK_CUR {
        ret := Signed64(file.fPos + offset);
      } else if whence == SEEK_END {
        ret := Signed64(Unsigned64(eof + offset));
      } else {
        return -EINVAL;
      }
      if ret < 0 || Unsigned64(ret) > eof {
        ret := -ERANGE;
      } else {
        file.fPos := ret;
      }
    }

    /** The first critical section of the seek ioctl: the place is looked up (main.c:116-126). */
    method LookUpSeek(x: nat, y: nat) returns (offset: int)
      requires Valid()
      ensures offset == AbsoluteOffset(Sizes(Lines(log)), x, y)
    {
      HeldSizes();
      offset := ring.FindAbsoluteOffset(x, y);
    }

    /** Write calls of other threads, one after the other. */
    method OthersWrite(calls: seq<Call>)
      requires Valid()
      modifies this, heap, ring, ring.entry, heap.live
      ensures Valid() && fresh(heap.live - old(heap.live))
      ensures State() == Run(old(State()), calls)
    {
      hide Valid, Write;
      ghost var before := State();
      assert calls[..0] == [];
      for i := 0 to |calls|
        invariant Valid() && fresh(heap.live - old(heap.live))
        invariant State() == Run(before, calls[..i])
      {
        assert calls[..i + 1] == calls[..i] + [calls[i]];
        RunSnoc(before, calls[..i], calls[i]);
        var ret := AesdWrite(calls[i].data, calls[i].fault);
      }
      assert calls[..|calls|] == calls;
    }

    /**
      aesd_ioctl: two critical sections, with any writes of other threads in between. A position
      found in the first is checked against the end of file of the second.
     */
    method AesdIoctl(file: OpenFile, isSeekTo: bool, x: nat, y: nat, between: seq<Call>, fault: IoctlFault)
      returns (ret: int)
      requires Valid()
      modifies this, heap, ring, ring.entry, heap.live, file
      ensures Valid() && fresh(heap.live - old(heap.live))
      ensures ret in {-ENOTTY, -EFAULT, -EINTR, -EINVAL, -ERANGE} <==> ret < 0
      ensures ret < 0 ==> file.fPos == old(file.fPos)
      ensures !isSeekTo ==> ret == -ENOTTY
      ensures isSeekTo && fault.BadArgument? ==> ret == -EFAULT
      ensures isSeekTo && fault.LookUpInterrupted? ==> ret == -EINTR
      ensures var found := IsPlace(Sizes(Lines(old(log))), Place(x, y));
              && (isSeekTo && fault.SeekInterrupted? ==> ret == if found then -EINTR else -EINVAL)
              && (isSeekTo && fault.NoIoctlFault? ==>
                    (ret, file.fPos) == SeekTo(old(log), log, old(file.fPos), x, y))
              && State() == (if isSeekTo && found && (fault.NoIoctlFault? || fault.SeekInterrupted?)
                             then Run(old(State()), between) else old(State()))
    {
      hide Valid, Run, Content;
      if !isSeekTo {
        return -ENOTTY;
      }
      if fault.BadArgument? {
        return -EFAULT;
      }
      if fault.LookUpInterrupted? {
        return -EINTR;
      }
      var offset := LookUpSeek(x, y);
      if offset < 0 {
        return -EINVAL;
      }
      OthersWrite(between);
      ret := AesdLlseek(file, offset, SEEK_SET, fault.SeekInterrupted?);
    }

    /** The same ownership, told by slots rather than by age. */
    lemma EverySlotOwned()
      requires Valid()
      ensures OwnsSlots(ring.entry[..], 0, tempBuf, heap.live)
    {
      var slots, n := ring.entry[..], ring.entry.Length;
      forall i | 0 <= i < n && slots[i].buffptr != null
        ensures AgeOf(i) < |ring.Held()| && slots[i] == ring.Held()[AgeOf(i)]
      {
        assert SlotOf(n, ring.outOffs, AgeOf(i)) == i;
      }
      forall b | b in heap.live && b != tempBuf
        ensures exists i :: 0 <= i < n && slots[i].buffptr == b
      {
        var k :| 0 <= k < |ring.Held()| && ring.Held()[k].buffptr == b;
        assert slots[SlotOf(n, ring.outOffs, k)].buffptr == b;
      }
    }

    /** How many entries are older than the one in slot i. */
    ghost function AgeOf(i: nat): nat
      requires ring.outOffs < ring.entry.Length && i < ring.entry.Length
      reads ring
    {
      if i >= ring.outOffs then i - ring.outOffs else i + ring.entry.Length - ring.outOffs
    }

    /** aesd_cleanup_module: every slot of the ring and then the pending entry is freed. */
    method Cleanup()
      requires Valid()
      modifies this, heap, ring.entry
      ensures heap.live == {}
      ensures forall i :: 0 <= i < ring.entry.Length ==> ring.entry[i].buffptr == null
    {
      var index := 0;
      hide Valid, OwnsSlots;
      ghost var blocks := ring.entry[..];
      EverySlotOwned();
      while index < ring.entry.Length
        invariant index <= ring.entry.Length && tempBuf == old(tempBuf)
        invariant forall i :: 0 <= i < index ==> ring.entry[i].buffptr == null
        invariant forall i :: index <= i < ring.entry.Length ==> ring.entry[i] == blocks[i]
        invariant OwnsSlots(blocks, index, tempBuf, heap.live)
      {
        OwnsSlotsStep(blocks, index, tempBuf, heap.live);
        heap.Kfree(ring.entry[index].buffptr);
        ring.entry[index] := ring.entry[index].(buffptr := null);
        index := index + 1;
      }
      OwnsNoSlots(blocks, tempBuf, heap.live);
      heap.Kfree(tempBuf);
    }
  }
}
