/**
  The send loop of send_file as a function of what each send call returns. Data is read into the
  buffer one buffer-full at a time; a failed send gives up the rest of its buffer-full, and the
  loop goes on with the next.
 */
module Sending {
  import opened Bytes

  datatype SendResult = Failed | Took(n: nat)

  /** Bytes of the data a send has taken. */
  datatype Range = Range(lo: nat, hi: nat)

  /** The next byte to offer, the end of its buffer-full, and what has been taken. */
  datatype Progress = Progress(at: nat, end: nat, ranges: seq<Range>, failed: bool)

  function AfterSend(p: Progress, r: SendResult, size: nat, total: nat): Progress {
    match r
    case Failed => Progress(p.end, Min(p.end + size, total), p.ranges, true)
    case Took(n) =>
      var at, ranges := p.at + n, p.ranges + [Range(p.at, p.at + n)];
      if at < p.end then Progress(at, p.end, ranges, p.failed)
      else Progress(at, Min(at + size, total), ranges, p.failed)
  }

  /** How far data of `total` bytes is sent, with a buffer of `size` bytes, by calls with these results. */
  function Transmit(total: nat, size: nat, results: seq<SendResult>): Progress {
    if results == [] then Progress(0, Min(size, total), [], false)
    else AfterSend(Transmit(total, size, results[..|results| - 1]), results[|results| - 1], size, total)
  }

  /** send may fail, or take a non-empty part of the rest of the buffer-full. */
  predicate MayReturn(p: Progress, r: SendResult) {
    p.at < p.end && (r.Took? ==> 0 < r.n <= p.end - p.at)
  }

  predicate Legal(total: nat, size: nat, results: seq<SendResult>) {
    results == [] ||
    (Legal(total, size, results[..|results| - 1]) &&
     MayReturn(Transmit(total, size, results[..|results| - 1]), results[|results| - 1]))
  }

  /** The results of all send calls of one send_file: nothing is left to offer. */
  predicate Complete(total: nat, size: nat, results: seq<SendResult>) {
    Legal(total, size, results) && Transmit(total, size, results).at == total
  }

  function BytesOf(data: seq<byte>, ranges: seq<Range>): seq<byte> {
    if ranges == [] then []
    else
      var last := ranges[|ranges| - 1];
      BytesOf(data, ranges[..|ranges| - 1]) + Slice(data, last.lo, last.hi)
  }

  /** The bytes a peer receives of the data. */
  function Payload(data: seq<byte>, size: nat, results: seq<SendResult>): seq<byte> {
    BytesOf(data, Transmit(|data|, size, results).ranges)
  }

  lemma TransmitSnoc(total: nat, size: nat, results: seq<SendResult>, r: SendResult)
    ensures Transmit(total, size, results + [r]) == AfterSend(Transmit(total, size, results), r, size, total)
    ensures Legal(total, size, results + [r]) <==>
              Legal(total, size, results) && MayReturn(Transmit(total, size, results), r)
  {
    assert (results + [r])[..|results|] == results;
  }

  lemma BytesOfSnoc(data: seq<byte>, ranges: seq<Range>, r: Range)
    ensures BytesOf(data, ranges + [r]) == BytesOf(data, ranges) + Slice(data, r.lo, r.hi)
  {
    assert (ranges + [r])[..|ranges|] == ranges;
  }

  /** A failed send adds nothing to what the peer receives; another adds the bytes it takes. */
  lemma PayloadSnoc(data: seq<byte>, size: nat, results: seq<SendResult>, r: SendResult)
    ensures var at := Transmit(|data|, size, results).at;
            Payload(data, size, results + [r]) ==
            if r.Failed? then Payload(data, size, results) else Payload(data, size, results) + Slice(data, at, at + r.n)
  {
    hide Transmit, BytesOf;
    var p := Transmit(|data|, size, results);
    TransmitSnoc(|data|, size, results, r);
    if r.Took? {
      BytesOfSnoc(data, p.ranges, Range(p.at, p.at + r.n));
    }
  }

  lemma {:induction false} ProgressBounds(total: nat, size: nat, results: seq<SendResult>)
    requires 0 < size && Legal(total, size, results)
    ensures var p := Transmit(total, size, results);
            p.at <= p.end <= total && (p.at < total ==> p.at < p.end)
  {
    if results == [] {
    } else {
      ProgressBounds(total, size, results[..|results| - 1]);
    }
  }

  // ---------------------------------------------------------------- what has been sent

  /** The end of the last range. */
  function Reached(ranges: seq<Range>): nat {
    if ranges == [] then 0 else ranges[|ranges| - 1].hi
  }

  /** Each range begins where the one before it ends, the first one at the first byte. */
  predicate Contiguous(ranges: seq<Range>) {
    ranges == [] ||
    (Contiguous(ranges[..|ranges| - 1]) && ranges[|ranges| - 1].lo == Reached(ranges[..|ranges| - 1]))
  }

  predicate TakesAfterFailure(results: seq<SendResult>) {
    exists i, j :: 0 <= i < j < |results| && results[i].Failed? && results[j].Took?
  }

  lemma ContiguousSnoc(ranges: seq<Range>, r: Range)
    ensures Contiguous(ranges + [r]) <==> Contiguous(ranges) && r.lo == Reached(ranges)
  {
    assert (ranges + [r])[..|ranges|] == ranges;
  }

  lemma TakesAfterFailureSnoc(results: seq<SendResult>, r: SendResult)
    ensures TakesAfterFailure(results + [r]) <==> TakesAfterFailure(results) || (Failed in results && r.Took?)
  {
    var all := results + [r];
    if TakesAfterFailure(all) {
      var i, j :| 0 <= i < j < |all| && all[i].Failed? && all[j].Took?;
      assert all[i] == results[i] && (j < |results| ==> all[j] == results[j]);
    }
    if Failed in results && r.Took? {
      var i :| 0 <= i < |results| && results[i] == Failed;
      assert all[i].Failed? && all[|results|].Took?;
    }
    if TakesAfterFailure(results) {
      var i, j :| 0 <= i < j < |results| && results[i].Failed? && results[j].Took?;
      assert all[i].Failed? && all[j].Took?;
    }
  }

  lemma NothingSent(total: nat, size: nat)
    ensures Transmit(total, size, []) == Progress(0, Min(size, total), [], false)
    ensures Contiguous([]) && !TakesAfterFailure([])
  {
  }

  /**
    What is sent is contiguous from the first byte exactly when no send takes bytes after a failed
    one: a send that does starts behind a gap.
   */
  lemma {:induction false} ContiguousExactly(total: nat, size: nat, results: seq<SendResult>)
    requires Legal(total, size, results)
    ensures var p := Transmit(total, size, results);
            && (Contiguous(p.ranges) <==> !TakesAfterFailure(results))
            && (p.failed <==> Failed in results)
            && (if !p.failed then Reached(p.ranges) == p.at else Contiguous(p.ranges) ==> Reached(p.ranges) < p.at)
  {
    hide Transmit, Legal, TakesAfterFailure, Contiguous;
    if results == [] {
      NothingSent(total, size);
    } else {
      var before, r := results[..|results| - 1], results[|results| - 1];
      assert results == before + [r];
      TransmitSnoc(total, size, before, r);
      ContiguousExactly(total, size, before);
      var p := Transmit(total, size, before);
      TakesAfterFailureSnoc(before, r);
      if r.Took? {
        ContiguousSnoc(p.ranges, Range(p.at, p.at + r.n));
      }
    }
  }

  lemma {:induction false} ContiguousBytes(data: seq<byte>, ranges: seq<Range>)
    requires Contiguous(ranges) && forall i :: 0 <= i < |ranges| ==> ranges[i].lo <= ranges[i].hi <= |data|
    ensures Reached(ranges) <= |data| && BytesOf(data, ranges) == data[..Reached(ranges)]
  {
    if ranges == [] {
    } else {
      var before, last := ranges[..|ranges| - 1], ranges[|ranges| - 1];
      assert ranges == before + [last];
      ContiguousSnoc(before, last);
      ContiguousBytes(data, before);
      assert data[..last.lo] + data[last.lo..last.hi] == data[..last.hi];
    }
  }

  lemma {:induction false} RangesInData(total: nat, size: nat, results: seq<SendResult>)
    requires 0 < size && Legal(total, size, results)
    ensures var ranges := Transmit(total, size, results).ranges;
            forall i :: 0 <= i < |ranges| ==> ranges[i].lo <= ranges[i].hi <= total
  {
    if results == [] {
    } else {
      ProgressBounds(total, size, results[..|results| - 1]);
      RangesInData(total, size, results[..|results| - 1]);
    }
  }

  /** Without a send that takes bytes after a failed one, the peer receives a prefix of the data. */
  lemma PayloadIsPrefix(data: seq<byte>, size: nat, results: seq<SendResult>)
    requires 0 < size && Legal(|data|, size, results) && !TakesAfterFailure(results)
    ensures Payload(data, size, results) <= data
  {
    ContiguousExactly(|data|, size, results);
    RangesInData(|data|, size, results);
    ContiguousBytes(data, Transmit(|data|, size, results).ranges);
  }

  /** Without a failed send the peer receives all the data, once and in order. */
  lemma PayloadIsAll(data: seq<byte>, size: nat, results: seq<SendResult>)
    requires 0 < size && Complete(|data|, size, results) && Failed !in results
    ensures Payload(data, size, results) == data
  {
    ContiguousExactly(|data|, size, results);
    RangesInData(|data|, size, results);
    ContiguousBytes(data, Transmit(|data|, size, results).ranges);
    assert data[..|data|] == data;
  }

  // ---------------------------------------------------------------- what the calls meet

  /** What becomes of a send call: it fails, takes n bytes (or one) if it is offered so many, or takes all. */
  datatype SendOutcome = Fails | TakesUpTo(n: nat) | TakesAll

  /** The outcome of the i-th send call on a socket; behind the end of the script calls take all. */
  function OutcomeAt(script: seq<SendOutcome>, i: nat): SendOutcome {
    if i < |script| then script[i] else TakesAll
  }

  /** The result of a call that is offered `room` bytes. */
  function ResultOf(outcome: SendOutcome, room: nat): SendResult {
    match outcome
    case Fails => Failed
    case TakesUpTo(n) => Took(if n == 0 then Min(1, room) else Min(n, room))
    case TakesAll => Took(room)
  }

  /** The results are those of the calls of the script from `from` on. */
  predicate Drawn(total: nat, size: nat, results: seq<SendResult>, script: seq<SendOutcome>, from: nat) {
    results == [] ||
    (var before := results[..|results| - 1];
     var p := Transmit(total, size, before);
     && Drawn(total, size, before, script, from)
     && p.at <= p.end
     && results[|results| - 1] == ResultOf(OutcomeAt(script, from + |before|), p.end - p.at))
  }

  lemma DrawnSnoc(total: nat, size: nat, results: seq<SendResult>, script: seq<SendOutcome>, from: nat, r: SendResult)
    requires Drawn(total, size, results, script, from)
    requires var p := Transmit(total, size, results);
             p.at <= p.end && r == ResultOf(OutcomeAt(script, from + |results|), p.end - p.at)
    ensures Drawn(total, size, results + [r], script, from)
  {
    assert (results + [r])[..|results|] == results;
  }

  /** A send call of these has failed exactly when the script says so for one of them. */
  lemma {:induction false} FailedAsDrawn(total: nat, size: nat, results: seq<SendResult>, script: seq<SendOutcome>,
                                         from: nat)
    requires Drawn(total, size, results, script, from)
    ensures Failed in results <==> FailsWithin(script, from, from + |results|)
  {
    if results == [] {
    } else {
      var before, r := results[..|results| - 1], results[|results| - 1];
      assert results == before + [r];
      FailedAsDrawn(total, size, before, script, from);
      assert r.Failed? <==> OutcomeAt(script, from + |before|).Fails?;
    }
  }

  /** One of the calls from `from` up to `to` fails. */
  predicate FailsWithin(script: seq<SendOutcome>, from: nat, to: nat) {
    exists i :: from <= i < to && OutcomeAt(script, i).Fails?
  }

  lemma {:induction false} DrawnPrefix(total: nat, size: nat, a: seq<SendResult>, b: seq<SendResult>,
                                       script: seq<SendOutcome>, from: nat)
    requires Drawn(total, size, a, script, from) && Drawn(total, size, b, script, from) && |a| <= |b|
    ensures a == b[..|a|]
    decreases |b|
  {
    hide Transmit, ResultOf, OutcomeAt;
    var b' := if b == [] then b else b[..|b| - 1];
    if a == [] {
    } else if |a| < |b| {
      DrawnPrefix(total, size, a, b', script, from);
    } else {
      DrawnPrefix(total, size, a[..|a| - 1], b', script, from);
      assert b'[..|a| - 1] == b' && b[..|a|] == b;
      assert a == a[..|a| - 1] + [a[|a| - 1]] && b == b' + [b[|b| - 1]];
    }
  }

  /** No call follows once nothing is left to offer. */
  lemma {:induction false} CompleteIsLast(total: nat, size: nat, a: seq<SendResult>, b: seq<SendResult>)
    requires 0 < size && Complete(total, size, a) && a <= b && |a| < |b|
    ensures !Legal(total, size, b)
    decreases |b|
  {
    var before := b[..|b| - 1];
    if |before| == |a| {
      assert before == a;
      ProgressBounds(total, size, a);
    } else {
      CompleteIsLast(total, size, a, before);
    }
  }

  /** All the calls of one send_file, and what they return, are settled by the script. */
  lemma DrawnOnce(total: nat, size: nat, a: seq<SendResult>, b: seq<SendResult>, script: seq<SendOutcome>, from: nat)
    requires 0 < size && Complete(total, size, a) && Complete(total, size, b)
    requires Drawn(total, size, a, script, from) && Drawn(total, size, b, script, from)
    ensures a == b
  {
    if |a| <= |b| {
      DrawnPrefix(total, size, a, b, script, from);
      if |a| < |b| {
        CompleteIsLast(total, size, a, b);
      }
    } else {
      DrawnPrefix(total, size, b, a, script, from);
      CompleteIsLast(total, size, b, a);
    }
  }
  /** Outcomes with which send calls have these results. */
  function OutcomesOf(results: seq<SendResult>): (r: seq<SendOutcome>)
    ensures |r| == |results|
  {
    seq(|results|, i requires 0 <= i < |results| => if results[i].Failed? then Fails else TakesUpTo(results[i].n))
  }

  /** Every legal course of the send calls is one that some outcomes lead to. */
  lemma {:induction false} DrawnFromOutcomes(total: nat, size: nat, results: seq<SendResult>, script: seq<SendOutcome>,
                                             k: nat)
    requires k <= |results| && Legal(total, size, results[..k])
    ensures Drawn(total, size, results[..k], script + OutcomesOf(results), |script|)
  {
    hide Transmit;
    if k == 0 {
    } else {
      assert results[..k][..k - 1] == results[..k - 1];
      DrawnFromOutcomes(total, size, results, script, k - 1);
    }
  }

  /** Only the outcomes of the calls made matter. */
  lemma {:induction false} DrawnLonger(total: nat, size: nat, results: seq<SendResult>, script: seq<SendOutcome>,
                                       more: seq<SendOutcome>, from: nat)
    requires Drawn(total, size, results, script, from) && from + |results| <= |script|
    ensures Drawn(total, size, results, script + more, from)
  {
    hide Transmit, ResultOf;
    if results == [] {
    } else {
      DrawnLonger(total, size, results[..|results| - 1], script, more, from);
    }
  }
}
