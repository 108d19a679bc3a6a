/** Byte strings, and the few sequence operations the driver and the server share. */
module Bytes {

  newtype byte = b: int | 0 <= b < 256

  const NL: byte := 10

  datatype Option<+T> = None | Some(value: T)

  predicate EndsInNewline(s: seq<byte>) {
    s != [] && s[|s| - 1] == NL
  }

  predicate Distinct<T(==)>(s: seq<T>) {
    forall i, j :: 0 <= i < j < |s| ==> s[i] != s[j]
  }

  /** The parts, end to end. */
  function Concat(parts: seq<seq<byte>>): (r: seq<byte>) {
    if parts == [] then [] else parts[0] + Concat(parts[1..])
  }

  /** The last n elements, or all of them when there are fewer. */
  function Last<T>(s: seq<T>, n: nat): (r: seq<T>) {
    if |s| <= n then s else s[|s| - n..]
  }

  lemma LastLength<T>(s: seq<T>, n: nat)
    ensures |Last(s, n)| == Min(|s|, n)
  {
  }

  lemma LastSnoc<T>(s: seq<T>, e: T, n: nat)
    requires 0 < n
    ensures Last(s + [e], n) == (if |s| >= n then Last(s, n)[1..] else Last(s, n)) + [e]
  {
  }

  /** s[lo..hi], and nothing when the range does not lie in s. */
  function Slice(s: seq<byte>, lo: nat, hi: nat): (r: seq<byte>) {
    if lo <= hi <= |s| then s[lo..hi] else []
  }

  lemma SliceOfPrefix(s: seq<byte>, size: nat, lo: nat, hi: nat)
    requires lo <= hi <= size <= |s|
    ensures s[..size][lo..hi] == s[lo..hi]
  {
  }

  lemma SliceGrows(s: seq<byte>, lo: nat, hi: nat, n: nat)
    requires lo <= hi && hi + n <= |s|
    ensures Slice(s, lo, hi + n) == Slice(s, lo, hi) + s[hi..hi + n]
  {
  }

  lemma SliceJoin(s: seq<byte>, lo: nat, n: nat, m: nat)
    requires lo + n + m <= |s|
    ensures s[lo..lo + n] + s[lo + n..lo + n + m] == s[lo..lo + n + m]
  {
  }

  function Min(a: nat, b: nat): nat {
    if a <= b then a else b
  }

  lemma {:induction false} ConcatAppend(a: seq<seq<byte>>, b: seq<seq<byte>>)
    ensures Concat(a + b) == Concat(a) + Concat(b)
  {
    if a == [] {
      assert a + b == b;
    } else {
      assert (a + b)[0] == a[0] && (a + b)[1..] == a[1..] + b;
      ConcatAppend(a[1..], b);
    }
  }

  lemma ConcatOne(s: seq<byte>)
    ensures Concat([s]) == s
  {
    assert [s][1..] == [];
  }

  lemma ConcatSnoc(a: seq<seq<byte>>, s: seq<byte>)
    ensures Concat(a + [s]) == Concat(a) + s
  {
    ConcatAppend(a, [s]);
    ConcatOne(s);
  }

  lemma {:induction false} ConcatBound(parts: seq<seq<byte>>, bound: nat)
    requires forall i :: 0 <= i < |parts| ==> |parts[i]| <= bound
    ensures |Concat(parts)| <= |parts| * bound
  {
    if parts == [] {
    } else {
      ConcatBound(parts[1..], bound);
      assert |parts| * bound == bound + (|parts| - 1) * bound;
    }
  }
}
