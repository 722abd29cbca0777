/**
 * Helpers of src/util.rs: a fixed-size ring buffer of frame-rate samples and a
 * start/duration timer. Clock readings are passed in as `now` (seconds).
 */
module Util {
  import opened Consts

  datatype Option<T> = None | Some(value: T)

  /** Whether a sample is a normal float. Over the reals the only value that is
      not is zero; subnormals, infinities and NaN do not exist here. */
  predicate IsNormal(f: real) {
    f != 0.0
  }

  predicate AllNormal(s: seq<real>) {
    forall k :: 0 <= k < |s| ==> IsNormal(s[k])
  }

  function Sum(s: seq<real>): real {
    if s == [] then 0.0 else Sum(s[..|s| - 1]) + s[|s| - 1]
  }

  /** One `log_fps` call on the abstract state: the history and the cursor. */
  function Logged(history: seq<real>, cursor: nat, fps: real): (r: (seq<real>, nat))
    requires |history| == FpsGraphSampleCount && cursor < FpsGraphSampleCount
    ensures |r.0| == FpsGraphSampleCount && r.1 < FpsGraphSampleCount
  {
    (history[cursor := fps], (cursor + 1) % FpsGraphSampleCount)
  }

  /** Consecutive `log_fps` calls, one per sample, in order. */
  function LogMany(history: seq<real>, cursor: nat, samples: seq<real>): (r: (seq<real>, nat))
    requires |history| == FpsGraphSampleCount && cursor < FpsGraphSampleCount
    ensures |r.0| == FpsGraphSampleCount && r.1 < FpsGraphSampleCount
  {
    if samples == [] then (history, cursor)
    else
      var before := LogMany(history, cursor, samples[..|samples| - 1]);
      Logged(before.0, before.1, samples[|samples| - 1])
  }

  /** Moving on by one slot from a wrapped position. */
  lemma WrapSucc(x: nat)
    ensures (x % FpsGraphSampleCount + 1) % FpsGraphSampleCount == (x + 1) % FpsGraphSampleCount
  {
    var q, r := x / FpsGraphSampleCount, x % FpsGraphSampleCount;
    assert x + 1 == q * FpsGraphSampleCount + (r + 1);
    if r + 1 < FpsGraphSampleCount {
      assert (x + 1) % FpsGraphSampleCount == r + 1;
    } else {
      assert x + 1 == (q + 1) * FpsGraphSampleCount;
    }
  }

  /** The cursor advances by one slot per sample, wrapping around. */
  lemma {:induction false} LogManyCursor(history: seq<real>, cursor: nat, samples: seq<real>)
    requires |history| == FpsGraphSampleCount && cursor < FpsGraphSampleCount
    ensures LogMany(history, cursor, samples).1 == (cursor + |samples|) % FpsGraphSampleCount
  {
    if samples != [] {
      var n := |samples| - 1;
      LogManyCursor(history, cursor, samples[..n]);
      WrapSucc(cursor + n);
    }
  }

  /** Two slots fewer than a window apart from the same cursor are different. */
  lemma WrapDistinct(cursor: nat, a: nat, b: nat)
    requires cursor < FpsGraphSampleCount && a < b < FpsGraphSampleCount
    ensures (cursor + a) % FpsGraphSampleCount != (cursor + b) % FpsGraphSampleCount
  {
    var N := FpsGraphSampleCount;
    if cursor + b < N {
      assert (cursor + a) % N == cursor + a && (cursor + b) % N == cursor + b;
    } else if cursor + a < N {
      assert (cursor + a) % N == cursor + a && (cursor + b) % N == cursor + b - N;
    } else {
      assert (cursor + a) % N == cursor + a - N && (cursor + b) % N == cursor + b - N;
    }
  }

  /** Within one window, sample k lands in the slot k places after the cursor and
      is not overwritten by the later ones. */
  lemma {:induction false} LogManyAt(history: seq<real>, cursor: nat, samples: seq<real>, k: nat)
    requires |history| == FpsGraphSampleCount && cursor < FpsGraphSampleCount
    requires |samples| <= FpsGraphSampleCount && k < |samples|
    ensures LogMany(history, cursor, samples).0[(cursor + k) % FpsGraphSampleCount] == samples[k]
  {
    var n := |samples|;
    LogManyCursor(history, cursor, samples[..n - 1]);
    if k < n - 1 {
      LogManyAt(history, cursor, samples[..n - 1], k);
      WrapDistinct(cursor, k, n - 1);
    }
  }

  /** After a full window of normal samples every slot is normal, whatever the
      history held before, so the average becomes available. */
  lemma FullWindowIsNormal(history: seq<real>, cursor: nat, samples: seq<real>)
    requires |history| == FpsGraphSampleCount && cursor < FpsGraphSampleCount
    requires |samples| == FpsGraphSampleCount && AllNormal(samples)
    ensures AllNormal(LogMany(history, cursor, samples).0)
  {
    var r := LogMany(history, cursor, samples).0;
    forall j | 0 <= j < FpsGraphSampleCount
      ensures IsNormal(r[j])
    {
      var k: nat := if cursor <= j then j - cursor else j + FpsGraphSampleCount - cursor;
      LogManyAt(history, cursor, samples, k);
      assert (cursor + k) % FpsGraphSampleCount == j;
    }
  }

  /** A fresh graph holds only zero samples, so it has no average yet. */
  lemma FreshHistoryIsNotNormal()
    ensures !AllNormal(seq(FpsGraphSampleCount, _ => 0.0))
  {
    assert !IsNormal(seq(FpsGraphSampleCount, _ => 0.0)[0]);
  }

  /** A ring buffer of the last FpsGraphSampleCount frame-rate samples. */
  class FpsGraph {
    const history: array<real>
    var i: nat

    ghost predicate Valid()
      reads this
    {
      history.Length == FpsGraphSampleCount && i < FpsGraphSampleCount
    }

    constructor ()
      ensures Valid() && fresh(history)
      ensures history[..] == seq(FpsGraphSampleCount, _ => 0.0) && i == 0
    {
      history := new real[FpsGraphSampleCount](_ => 0.0);
      i := 0;
    }

    /** Writes the sample at the cursor and moves the cursor on, wrapping around. */
    method LogFps(fps: real)
      requires Valid()
      modifies this, history
      ensures Valid()
      ensures history[old(i)] == fps
      ensures forall j :: 0 <= j < history.Length && j != old(i) ==> history[j] == old(history[j])
      ensures i == (old(i) + 1) % FpsGraphSampleCount
      ensures (history[..], i) == Logged(old(history[..]), old(i), fps)
    {
      history[i] := fps;
      i := (i + 1) % FpsGraphSampleCount;
    }

    /** The mean of the whole window, or None while any sample is not normal. */
    method RecentAverageFps() returns (r: Option<real>)
      requires Valid()
      ensures r == if AllNormal(history[..])
                   then Some(Sum(history[..]) / (FpsGraphSampleCount as real))
                   else None
    {
      var sum := 0.0;
      for k := 0 to history.Length
        invariant AllNormal(history[..k])
        invariant sum == Sum(history[..k])
      {
        if !IsNormal(history[k]) {
          return None;
        }
        assert history[..k + 1][..k] == history[..k];
        sum := sum + history[k];
      }
      assert history[..history.Length] == history[..];
      return Some(sum / (history.Length as real));
    }
  }

  /** A timer started at `start` that runs for `duration` seconds. */
  datatype Countdown = Countdown(start: real, duration: real) {

    function Elapsed(now: real): real {
      now - start
    }

    predicate IsDone(now: real) {
      Elapsed(now) > duration
    }
  }

  function NewCountdown(now: real, duration: real): (c: Countdown)
    ensures c.duration == duration && c.Elapsed(now) == 0.0
  {
    Countdown(now, duration)
  }

  /** A countdown started at `now` is done exactly once more than `duration` has
      passed; in particular it is not done when it starts. */
  lemma CountdownDone(now: real, duration: real, later: real)
    requires 0.0 <= duration
    ensures NewCountdown(now, duration).IsDone(later) <==> later > now + duration
    ensures !NewCountdown(now, duration).IsDone(now)
  {
  }
}
