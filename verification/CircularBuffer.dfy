/** The ring of the last entries written to the device (aesd-circular-buffer.c), for any capacity. */
module CircularBuffer {
  import opened Bytes
  import opened Positions

  datatype Entry = Entry(buffptr: array?<byte>, size: nat)

  const EMPTY_SLOT := Entry(null, 0)

  function EntrySizes(entries: seq<Entry>): (r: seq<nat>)
    ensures |r| == |entries| && forall i :: 0 <= i < |entries| ==> r[i] == entries[i].size
  {
    seq(|entries|, i requires 0 <= i < |entries| => entries[i].size)
  }

  lemma MulMonotone(a: int, b: int, n: nat)
    requires a <= b
    ensures a * n <= b * n
  {
  }

  /** The offsets wrap at most once: for them, modulo is a conditional subtraction. */
  lemma WrapOnce(k: nat, n: nat)
    requires 0 < n && k < 2 * n
    ensures k % n == if k < n then k else k - n
  {
    var q := k / n;
    assert k == q * n + k % n;
    if q >= 2 {
      MulMonotone(2, q, n);
    }
  }

  /** The slot of the k-th oldest entry in a ring of n slots. */
  function SlotOf(n: nat, outOffs: nat, k: nat): (r: nat)
    requires outOffs < n && k < n
    ensures r < n
  {
    if outOffs + k < n then outOffs + k else outOffs + k - n
  }

  ghost predicate SlotsHold(slots: seq<Entry>, outOffs: nat, held: seq<Entry>) {
    && outOffs < |slots|
    && |held| <= |slots|
    && (forall k {:trigger SlotOf(|slots|, outOffs, k)} {:trigger held[k]} ::
          0 <= k < |held| ==> slots[SlotOf(|slots|, outOffs, k)] == held[k])
  }

  /** After an add, the slots hold what they held, one place earlier if the ring was full, and e. */
  lemma SlotsAfterAdd(slots: seq<Entry>, outOffs: nat, inOffs: nat, full: bool, held: seq<Entry>, e: Entry)
    requires SlotsHold(slots, outOffs, held) && inOffs < |slots|
    requires full ==> inOffs == outOffs && |held| == |slots|
    requires !full ==> outOffs == 0 && inOffs == |held|
    ensures SlotsHold(slots[inOffs := e],
                      if !full then outOffs else if outOffs + 1 < |slots| then outOffs + 1 else 0,
                      (if full then held[1..] else held) + [e])
  {
    var n := |slots|;
    var out' := if !full then outOffs else if outOffs + 1 < n then outOffs + 1 else 0;
    var held' := (if full then held[1..] else held) + [e];
    forall k | 0 <= k < |held'|
      ensures slots[inOffs := e][SlotOf(n, out', k)] == held'[k]
    {
      if k < |held'| - 1 {
        var k0 := if full then k + 1 else k;
        assert slots[SlotOf(n, outOffs, k0)] == held[k0];
      }
    }
  }

  /** What a reader meets that walks the slots from the k-th on, up to the first NULL or over all. */
  ghost function Walk(slots: seq<Entry>, outOffs: nat, k: nat): (r: seq<Entry>)
    requires outOffs < |slots| && k <= |slots|
    decreases |slots| - k
  {
    if k == |slots| then []
    else
      var e := slots[(outOffs + k) % |slots|];
      if e.buffptr == null then [] else [e] + Walk(slots, outOffs, k + 1)
  }

  lemma {:induction false} WalkFrom(slots: seq<Entry>, outOffs: nat, held: seq<Entry>, k: nat)
    requires SlotsHold(slots, outOffs, held) && k <= |held|
    requires forall i :: 0 <= i < |held| ==> held[i].buffptr != null
    requires |held| < |slots| ==> outOffs == 0 && slots[|held|].buffptr == null
    ensures Walk(slots, outOffs, k) == held[k..]
    decreases |slots| - k
  {
    if k == |slots| {
    } else {
      WrapOnce(outOffs + k, |slots|);
      if k < |held| {
        assert slots[SlotOf(|slots|, outOffs, k)] == held[k];
        WalkFrom(slots, outOffs, held, k + 1);
        assert held[k..] == [held[k]] + held[k + 1..];
      }
    }
  }

  lemma OldestSlot(slots: seq<Entry>, outOffs: nat, held: seq<Entry>)
    requires SlotsHold(slots, outOffs, held) && held != []
    ensures slots[outOffs] == held[0]
  {
    assert slots[SlotOf(|slots|, outOffs, 0)] == held[0];
  }

  class Ring {
    const entry: array<Entry>
    var inOffs: nat
    var outOffs: nat
    var full: bool
    ghost var added: seq<Entry>  // every entry added since the ring was initialised

    ghost predicate Valid()
      reads this, entry
    {
      && 0 < entry.Length
      && inOffs < entry.Length
      && outOffs < entry.Length
      && (forall i :: 0 <= i < |added| ==> added[i].buffptr != null)
      && full == (|added| >= entry.Length)
      && (full ==> inOffs == outOffs)
      && (!full ==> outOffs == 0 && inOffs == |added|)
      && (!full ==> forall i :: inOffs <= i < entry.Length ==> entry[i].buffptr == null)
      && SlotsHold(entry[..], outOffs, Held())
    }

    /** The entries the ring stands for: the last of those added. */
    ghost function Held(): (r: seq<Entry>)
      reads this
      ensures |r| <= |added| && |r| <= entry.Length
    {
      Last(added, entry.Length)
    }

    constructor (capacity: nat)
      requires 0 < capacity
      ensures Valid() && fresh(entry) && entry.Length == capacity
      ensures added == []
    {
      entry := new Entry[capacity](_ => EMPTY_SLOT);
      inOffs, outOffs, full := 0, 0, false;
      added := [];
    }

    /** After any number of adds, a reader meets exactly the last of them, in order. */
    lemma ReaderMeetsLastAdded()
      requires Valid()
      ensures Walk(entry[..], outOffs, 0) == Last(added, entry.Length)
    {
      WalkFrom(entry[..], outOffs, Held(), 0);
      assert Held()[0..] == Held();
    }

    /** aesd_circular_buffer_get_entry_by_offset. */
    method GetEntryByOffset(k: nat) returns (e: Option<Entry>)
      requires Valid()
      ensures e.None? <==> k >= entry.Length
      ensures k < |Held()| ==> e == Some(Held()[k]) && e.value.buffptr != null
      ensures |Held()| <= k < entry.Length ==> e.value.buffptr == null
    {
      e := None;
      if k < entry.Length {
        WrapOnce(outOffs + k, entry.Length);
        e := Some(entry[(outOffs + k) % entry.Length]);
        if k < |Held()| {
          assert entry[..][SlotOf(entry.Length, outOffs, k)] == Held()[k];
        }
      }
    }

    /** aesd_circular_buffer_find_entry_offset_for_fpos. */
    method FindEntryOffsetForFpos(pos: nat) returns (found: Option<Entry>, entryOffset: nat)
      requires Valid()
      ensures match Locate(EntrySizes(Held()), pos)
              case None => found == None
              case Some(p) => p.index < |Held()| && found == Some(Held()[p.index]) && entryOffset == p.offset
    {
      found, entryOffset := None, 0;
      ghost var sizes := EntrySizes(Held());
      LocateThenOffset(sizes, pos);
      var charOffset := pos;
      var index := 0;
      while index < entry.Length
        invariant 0 <= charOffset && index <= |sizes|
        invariant LocateFrom(sizes, index, charOffset) == Locate(sizes, pos)
        decreases entry.Length - index
      {
        var e := GetEntryByOffset(index);
        if e.value.buffptr == null {
          return;
        } else if charOffset < e.value.size {
          found, entryOffset := Some(e.value), charOffset;
          return;
        }
        charOffset := charOffset - e.value.size;
        index := index + 1;
      }
    }

    /** aesd_circular_buffer_find_EOF_offset. */
    method FindEofOffset() returns (eof: nat)
      requires Valid()
      ensures eof == Total(EntrySizes(Held()))
    {
      eof := 0;
      ghost var sizes := EntrySizes(Held());
      var index := 0;
      while index < entry.Length
        invariant index <= |sizes|
        invariant eof == Start(sizes, index)
      {
        var e := GetEntryByOffset(index);
        if e.value.buffptr == null {
          return;
        }
        eof := eof + e.value.size;
        index := index + 1;
      }
    }

    /** aesd_circular_buffer_find_absolute_offset. */
    method FindAbsoluteOffset(entryOffset: nat, charOffset: nat) returns (offset: int)
      requires Valid()
      ensures offset == AbsoluteOffset(EntrySizes(Held()), entryOffset, charOffset)
    {
      var e := GetEntryByOffset(entryOffset);
      if e.None? || e.value.buffptr == null || charOffset >= e.value.size {
        return -1;
      }
      ghost var sizes := EntrySizes(Held());
      offset := charOffset;
      var index := 0;
      while index < entryOffset
        invariant index <= entryOffset < |sizes|
        invariant offset == charOffset + Start(sizes, index)
      {
        e := GetEntryByOffset(index);
        offset := offset + e.value.size;
        index := index + 1;
      }
    }

    /** aesd_circular_buffer_add_entry: the pointer evicted is returned, NULL when the ring was not full. */
    method AddEntry(e: Entry) returns (evicted: array?<byte>)
      requires Valid() && e.buffptr != null
      modifies this, entry
      ensures Valid()
      ensures added == old(added) + [e]
      ensures evicted == if old(full) then old(Held())[0].buffptr else null
      ensures old(full) <==> old(|added|) >= entry.Length
    {
      hide SlotsHold, Last;
      evicted := null;
      ghost var slots, held := entry[..], Held();
      WrapOnce(outOffs + 1, entry.Length);
      WrapOnce(inOffs + 1, entry.Length);
      LastLength(added, entry.Length);
      LastSnoc(added, e, entry.Length);
      SlotsAfterAdd(slots, outOffs, inOffs, full, held, e);
      if full {
        OldestSlot(slots, outOffs, held);
        evicted := entry[outOffs].buffptr;
        outOffs := (outOffs + 1) % entry.Length;
      }
      entry[inOffs] := e;
      inOffs := (inOffs + 1) % entry.Length;
      if inOffs == outOffs {
        full := true;
      }
      added := added + [e];
      assert entry[..] == slots[old(inOffs) := e];
    }
  }
}
