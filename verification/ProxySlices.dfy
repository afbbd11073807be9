/**
 The slices of ProxyClient::waitNotification: what the loop asks of the server when every partial
 wait times out.
 */
module ProxySlices {
  import opened Wire
  import opened ProxyServer
  import opened ProxyClient

  /** The requests the loop makes, starting with `left` milliseconds to go, until one is not partial. */
  function Slices(timeout: int, left: nat): (r: seq<Slice>)
    requires timeout >= 0
    ensures |r| >= 1
    decreases left
  {
    var s := NextSlice(timeout, left);
    if s.partial then [s] + Slices(timeout, s.left) else [s]
  }

  function Total(ss: seq<Slice>): int
  {
    if ss == [] then 0 else ss[0].timeout + Total(ss[1..])
  }

  function Ceil(a: nat, b: nat): nat
    requires b > 0
  {
    (a + b - 1) / b
  }

  /** A wait of T milliseconds that keeps timing out asks ceil(T / 1000) times, at least once; the
      slices add up to T, every slice is in the server's range, and exactly the last is final. */
  lemma {:induction false} SlicesCover(timeout: int, left: nat)
    requires timeout >= 0
    ensures var ss := Slices(timeout, left);
            && Total(ss) == left
            && |ss| == (if left == 0 then 1 else Ceil(left, TIMEOUT_MAX))
            && (forall i :: 0 <= i < |ss| ==> 0 <= ss[i].timeout <= TIMEOUT_MAX)
            && (forall i :: 0 <= i < |ss| ==> (ss[i].partial <==> i < |ss| - 1))
            && (forall i :: 0 <= i < |ss| - 1 ==> ss[i].timeout == TIMEOUT_MAX)
    decreases left
  {
    if NextSlice(timeout, left).partial {
      SlicesCover(timeout, left - TIMEOUT_MAX);
      assert Ceil(left, TIMEOUT_MAX) == Ceil(left - TIMEOUT_MAX, TIMEOUT_MAX) + 1;
    } else {
      assert left > 0 ==> Ceil(left, TIMEOUT_MAX) == 1;
    }
  }

  /** What is still to come after the slice for `left`. */
  function Rest(timeout: int, left: nat): seq<Slice>
    requires timeout >= 0
  {
    if NextSlice(timeout, left).partial then Slices(timeout, NextSlice(timeout, left).left) else []
  }

  /** One more slice has been sent. */
  lemma SlicesNext(timeout: int, left: nat, sent: seq<Slice>, all: seq<Slice>)
    requires timeout >= 0 && all == sent + Slices(timeout, left)
    ensures all == sent + [NextSlice(timeout, left)] + Rest(timeout, left)
  {
    SeqAssoc(sent, [NextSlice(timeout, left)], Rest(timeout, left));
  }

  predicate InRange(ss: seq<Slice>)
  {
    forall i :: 0 <= i < |ss| ==> 0 <= ss[i].timeout <= TIMEOUT_MAX
  }

  /** What an infinite wait asks for. */
  predicate AllPartial(ss: seq<Slice>)
  {
    forall i :: 0 <= i < |ss| ==> ss[i].partial && ss[i].timeout == TIMEOUT_MAX
  }

  lemma OneMore(ss: seq<Slice>, s: Slice)
    ensures InRange(ss) && 0 <= s.timeout <= TIMEOUT_MAX ==> InRange(ss + [s])
    ensures AllPartial(ss) && s.partial && s.timeout == TIMEOUT_MAX ==> AllPartial(ss + [s])
  {
  }

  /** The loop itself, for an answer to each request: true for a time-out. It stops at the first
      other answer, at the final slice, or when the answers run out. */
  method SendSlices(timeout: int, timesOut: seq<bool>) returns (sent: seq<Slice>)
    requires -TWO_31 <= timeout < TWO_31
    ensures |sent| <= |timesOut| && InRange(sent)
    ensures timeout >= 0 ==> sent <= Slices(timeout, timeout)
    ensures timeout >= 0 && |sent| < |timesOut| ==>
              |sent| > 0 && (sent == Slices(timeout, timeout) || !timesOut[|sent| - 1])
    ensures timeout < 0 ==> AllPartial(sent)
    ensures timeout < 0 && |sent| < |timesOut| ==> |sent| > 0 && !timesOut[|sent| - 1]
  {
    var timeoutLeft := timeout;
    ghost var all := if timeout >= 0 then Slices(timeout, timeout) else [];
    sent := [];
    assert timeout >= 0 ==> all == sent + Slices(timeout, timeout);
    while |sent| < |timesOut|
      invariant |sent| <= |timesOut| && InRange(sent)
      invariant timeout >= 0 ==> timeoutLeft >= 0 && all == sent + Slices(timeout, timeoutLeft)
      invariant timeout < 0 ==> AllPartial(sent)
      decreases |timesOut| - |sent|
    {
      var slice := Ask(timeout, timeoutLeft);
      OneMore(sent, slice);
      if timeout >= 0 {
        SlicesNext(timeout, timeoutLeft, sent, all);
      }
      sent := sent + [slice];
      if !timesOut[|sent| - 1] || !slice.partial {
        assert timeout >= 0 && !slice.partial ==> all == sent + [] == sent;
        break;
      }
      timeoutLeft := slice.left;
    }
  }

  /** The request of one round. */
  method Ask(timeout: int, timeoutLeft: int) returns (s: Slice)
    requires timeout >= 0 ==> timeoutLeft >= 0
    ensures s == NextSlice(timeout, timeoutLeft) && 0 <= s.timeout <= TIMEOUT_MAX
    ensures timeout < 0 ==> s.partial && s.timeout == TIMEOUT_MAX
    ensures timeout >= 0 ==> s.left >= 0
  {
    if timeout < 0 {
      return Slice(TIMEOUT_MAX, true, timeoutLeft);
    }
    if timeoutLeft > TIMEOUT_MAX {
      return Slice(TIMEOUT_MAX, true, timeoutLeft - TIMEOUT_MAX);
    }
    return Slice(timeoutLeft, false, 0);
  }
}
