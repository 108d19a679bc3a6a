/**
  Positions in a list of entries laid end to end, described by the entries' sizes alone.
  A position is either a byte offset or a place: an entry and an offset inside it.
 */
module Positions {
  import opened Bytes

  datatype Place = Place(index: nat, offset: nat)

  function Sizes(lines: seq<seq<byte>>): (r: seq<nat>)
    ensures |r| == |lines| && forall i :: 0 <= i < |lines| ==> r[i] == |lines[i]|
  {
    seq(|lines|, i requires 0 <= i < |lines| => |lines[i]|)
  }

  /** Where entry i begins. */
  function Start(sizes: seq<nat>, i: nat): nat
    requires i <= |sizes|
  {
    if i == 0 then 0 else Start(sizes, i - 1) + sizes[i - 1]
  }

  /** The end-of-file offset. */
  function Total(sizes: seq<nat>): nat {
    Start(sizes, |sizes|)
  }

  predicate IsPlace(sizes: seq<nat>, p: Place) {
    p.index < |sizes| && p.offset < sizes[p.index]
  }

  function OffsetOf(sizes: seq<nat>, p: Place): nat
    requires IsPlace(sizes, p)
  {
    Start(sizes, p.index) + p.offset
  }

  /** The offset of byte y of entry x, or -1 when there is no such byte. */
  function AbsoluteOffset(sizes: seq<nat>, x: nat, y: nat): int {
    if IsPlace(sizes, Place(x, y)) then OffsetOf(sizes, Place(x, y)) else -1
  }

  /** The place of the byte that lies pos bytes after the start of entry i. */
  function LocateFrom(sizes: seq<nat>, i: nat, pos: nat): (r: Option<Place>)
    requires i <= |sizes|
    ensures r.Some? ==> IsPlace(sizes, r.value)
    decreases |sizes| - i
  {
    if i == |sizes| then None
    else if pos < sizes[i] then Some(Place(i, pos))
    else LocateFrom(sizes, i + 1, pos - sizes[i])
  }

  function Locate(sizes: seq<nat>, pos: nat): (r: Option<Place>)
    ensures r.Some? ==> IsPlace(sizes, r.value)
  {
    LocateFrom(sizes, 0, pos)
  }

  predicate LexBefore(p: Place, q: Place) {
    p.index < q.index || (p.index == q.index && p.offset < q.offset)
  }

  lemma {:induction false} StartMonotone(sizes: seq<nat>, i: nat, j: nat)
    requires i <= j <= |sizes|
    ensures Start(sizes, i) <= Start(sizes, j)
    decreases j
  {
    if i == j {
    } else {
      StartMonotone(sizes, i, j - 1);
    }
  }

  /** Start looks only at the sizes before its index. */
  lemma {:induction false} StartPrefix(sizes: seq<nat>, more: seq<nat>, i: nat)
    requires i <= |sizes|
    ensures Start(sizes + more, i) == Start(sizes, i)
  {
    if i == 0 {
    } else {
      StartPrefix(sizes, more, i - 1);
    }
  }

  /** Later places have larger offsets: the offset order is the lexicographic order. */
  lemma OffsetsFollowLexOrder(sizes: seq<nat>, p: Place, q: Place)
    requires IsPlace(sizes, p) && IsPlace(sizes, q)
    ensures LexBefore(p, q) <==> OffsetOf(sizes, p) < OffsetOf(sizes, q)
  {
    if p.index < q.index {
      StartMonotone(sizes, p.index + 1, q.index);
    } else if q.index < p.index {
      StartMonotone(sizes, q.index + 1, p.index);
    }
  }

  lemma {:induction false} LocateFromCorrect(sizes: seq<nat>, i: nat, pos: nat)
    requires i <= |sizes|
    ensures match LocateFrom(sizes, i, pos)
            case Some(p) => IsPlace(sizes, p) && OffsetOf(sizes, p) == Start(sizes, i) + pos
            case None => Start(sizes, i) + pos >= Total(sizes)
    decreases |sizes| - i
  {
    if i == |sizes| || pos < sizes[i] {
    } else {
      LocateFromCorrect(sizes, i + 1, pos - sizes[i]);
    }
  }

  /** Locate answers exactly for offsets before the end of file, and inverts OffsetOf there. */
  lemma LocateThenOffset(sizes: seq<nat>, pos: nat)
    ensures Locate(sizes, pos).Some? <==> pos < Total(sizes)
    ensures Locate(sizes, pos).Some? ==>
              var p := Locate(sizes, pos).value;
              IsPlace(sizes, p) && AbsoluteOffset(sizes, p.index, p.offset) == pos
  {
    LocateFromCorrect(sizes, 0, pos);
    match Locate(sizes, pos)
    case Some(p) => StartMonotone(sizes, p.index + 1, |sizes|);
    case None =>
  }

  /** AbsoluteOffset answers -1 exactly outside the places, and Locate inverts it inside. */
  lemma OffsetThenLocate(sizes: seq<nat>, x: nat, y: nat)
    ensures AbsoluteOffset(sizes, x, y) == -1 <==> !IsPlace(sizes, Place(x, y))
    ensures AbsoluteOffset(sizes, x, y) >= 0 ==>
              AbsoluteOffset(sizes, x, y) < Total(sizes) &&
              Locate(sizes, AbsoluteOffset(sizes, x, y)) == Some(Place(x, y))
  {
    if IsPlace(sizes, Place(x, y)) {
      var pos := OffsetOf(sizes, Place(x, y));
      StartMonotone(sizes, x + 1, |sizes|);
      LocateThenOffset(sizes, pos);
      var p := Locate(sizes, pos).value;
      OffsetsFollowLexOrder(sizes, p, Place(x, y));
      OffsetsFollowLexOrder(sizes, Place(x, y), p);
    }
  }

  /** Start counts the bytes of the lines before an index. */
  lemma {:induction false} StartIsLength(lines: seq<seq<byte>>, i: nat)
    requires i <= |lines|
    ensures |Concat(lines[..i])| == Start(Sizes(lines), i)
  {
    if i == 0 {
      assert lines[..0] == [];
    } else {
      StartIsLength(lines, i - 1);
      assert lines[..i] == lines[..i - 1] + [lines[i - 1]];
      ConcatSnoc(lines[..i - 1], lines[i - 1]);
    }
  }

  lemma TotalIsLength(lines: seq<seq<byte>>)
    ensures |Concat(lines)| == Total(Sizes(lines))
  {
    StartIsLength(lines, |lines|);
    assert lines[..|lines|] == lines;
  }

  /** Line i with what is before and after it. */
  lemma SplitAroundLine(lines: seq<seq<byte>>, i: nat)
    requires i < |lines|
    ensures Concat(lines) == Concat(lines[..i]) + lines[i] + Concat(lines[i + 1..])
  {
    assert lines == lines[..i] + lines[i..];
    ConcatAppend(lines[..i], lines[i..]);
    ConcatFrom(lines, i);
  }

  lemma ConcatFrom(lines: seq<seq<byte>>, i: nat)
    requires i < |lines|
    ensures Concat(lines[i..]) == lines[i] + Concat(lines[i + 1..])
  {
    assert lines[i..][1..] == lines[i + 1..];
  }

  lemma MiddleSlice(a: seq<byte>, b: seq<byte>, c: seq<byte>)
    ensures (a + b + c)[|a|..|a| + |b|] == b
  {
  }

  /** Laid end to end, line i occupies the bytes from its start on. */
  lemma LineInConcat(lines: seq<seq<byte>>, i: nat)
    requires i < |lines|
    ensures Start(Sizes(lines), i) + |lines[i]| <= |Concat(lines)|
    ensures Concat(lines)[Start(Sizes(lines), i)..Start(Sizes(lines), i) + |lines[i]|] == lines[i]
  {
    SplitAroundLine(lines, i);
    StartIsLength(lines, i);
    MiddleSlice(Concat(lines[..i]), lines[i], Concat(lines[i + 1..]));
  }

  /** The byte at the offset of (x, y) is byte y of line x. */
  lemma ByteAtPlace(lines: seq<seq<byte>>, p: Place)
    requires IsPlace(Sizes(lines), p)
    ensures OffsetOf(Sizes(lines), p) < |Concat(lines)|
    ensures Concat(lines)[OffsetOf(Sizes(lines), p)] == lines[p.index][p.offset]
  {
    LineInConcat(lines, p.index);
    var s := Start(Sizes(lines), p.index);
    assert Concat(lines)[s..s + |lines[p.index]|][p.offset] == Concat(lines)[s + p.offset];
  }

  /** The bytes after a located offset, up to the end of its line, are the bytes of that line. */
  lemma BytesAtOffset(lines: seq<seq<byte>>, pos: nat, n: nat)
    requires Locate(Sizes(lines), pos).Some?
    requires var q := Locate(Sizes(lines), pos).value; q.offset + n <= |lines[q.index]|
    ensures pos + n <= |Concat(lines)|
    ensures var q := Locate(Sizes(lines), pos).value;
            Concat(lines)[pos..pos + n] == lines[q.index][q.offset..q.offset + n]
  {
    var q := Locate(Sizes(lines), pos).value;
    LocateThenOffset(Sizes(lines), pos);
    LineInConcat(lines, q.index);
    SubSlice(Concat(lines), Start(Sizes(lines), q.index), lines[q.index], q.offset, n);
  }

  lemma SubSlice(s: seq<byte>, start: nat, line: seq<byte>, off: nat, n: nat)
    requires start + |line| <= |s| && s[start..start + |line|] == line
    requires off + n <= |line|
    ensures s[start + off..start + off + n] == line[off..off + n]
  {
    var got, want := s[start + off..start + off + n], line[off..off + n];
    forall i | 0 <= i < n
      ensures got[i] == want[i]
    {
      assert s[start..start + |line|][off + i] == line[off + i];
    }
  }
}
