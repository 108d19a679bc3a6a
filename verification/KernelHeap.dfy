/**
  The kernel calls the driver makes on memory: kmalloc, krealloc, kfree and the two user copies.
  Their failures are chosen by the caller of the model. Every access demands a live block, so a
  driver that verifies never frees a block twice and never touches one it has freed.
 */
module KernelHeap {
  import opened Bytes

  class Heap {
    ghost var live: set<array<byte>>

    constructor ()
      ensures live == {}
    {
      live := {};
    }

    /** A block may turn out larger than asked for. */
    method Kmalloc(size: nat, succeeds: bool) returns (p: array?<byte>)
      modifies this
      ensures !succeeds ==> p == null && live == old(live)
      ensures succeeds ==> p != null && fresh(p) && size <= p.Length && live == old(live) + {p}
    {
      p := null;
      if succeeds {
        var room: nat :| size <= room;
        p := new byte[room];
        live := live + {p};
      }
    }

    /**
      On failure the old block stays live. On success it is kept, if it has room enough, or it is
      gone and its bytes have moved.
     */
    method Krealloc(block: array<byte>, size: nat, succeeds: bool) returns (p: array?<byte>)
      requires block in live
      modifies this
      ensures !succeeds ==> p == null && live == old(live)
      ensures succeeds ==> p != null && size <= p.Length
      ensures succeeds ==> if p == block then live == old(live) else fresh(p) && live == old(live) - {block} + {p}
      ensures succeeds ==> forall i :: 0 <= i < Min(block.Length, size) ==> p[i] == block[i]
    {
      p := null;
      var inPlace: bool := *;
      if succeeds && inPlace && size <= block.Length {
        p := block;
      } else if succeeds {
        var room: nat :| size <= room;
        p := new byte[room];
        for i := 0 to Min(block.Length, size)
          invariant live == old(live)
          invariant forall j :: 0 <= j < i ==> p[j] == block[j]
        {
          p[i] := block[i];
        }
        live := live - {block} + {p};
      }
    }

    method Kfree(p: array?<byte>)
      requires p != null ==> p in live
      modifies this
      ensures live == if p == null then old(live) else old(live) - {p}
    {
      if p != null {
        live := live - {p};
      }
    }

    method LoadByte(block: array<byte>, i: nat) returns (b: byte)
      requires block in live && i < block.Length
      ensures b == block[i]
    {
      b := block[i];
    }

    /** copy_from_user: on failure some of the bytes may have landed, all at or after `at`. */
    method CopyFromUser(block: array<byte>, at: nat, data: seq<byte>, succeeds: bool)
      requires block in live && at + |data| <= block.Length
      modifies block
      ensures forall i :: 0 <= i < at ==> block[i] == old(block[i])
      ensures succeeds ==> block[at..at + |data|] == data
    {
      var landed: nat := |data|;
      if !succeeds {
        landed :| landed < |data| || landed == 0;
      }
      for i := 0 to Min(landed, |data|)
        invariant forall j :: 0 <= j < at ==> block[j] == old(block[j])
        invariant block[at..at + i] == data[..i]
      {
        block[at + i] := data[i];
        assert block[at..at + i + 1] == block[at..at + i] + [data[i]];
      }
    }

    /** copy_to_user: on failure some of the bytes may have landed, all inside [at, at + count). */
    method CopyToUser(user: array<byte>, at: nat, block: array<byte>, from: nat, count: nat, succeeds: bool)
      requires block in live && user != block
      requires from + count <= block.Length && at + count <= user.Length
      modifies user
      ensures forall i :: 0 <= i < user.Length && !(at <= i < at + count) ==> user[i] == old(user[i])
      ensures succeeds ==> user[at..at + count] == block[from..from + count]
    {
      var landed: nat := count;
      if !succeeds {
        landed :| landed < count || landed == 0;
      }
      for i := 0 to Min(landed, count)
        invariant forall j :: 0 <= j < user.Length && !(at <= j < at + count) ==> user[j] == old(user[j])
        invariant user[at..at + i] == block[from..from + i]
      {
        user[at + i] := block[from + i];
        assert user[at..at + i + 1] == user[at..at + i] + [block[from + i]];
      }
    }
  }
}
