/** The timestamp generator: the capture instants, evenly spaced after the
    start delay, printed as `MM:SS.mmm` strings. */
module Timestamps {
  import opened Common
  import opened Duration

  /** The start delay: the duration's given percentage, floored to whole seconds. */
  function StartDelay(duration: real, startDelayPercent: real): real {
    (duration * startDelayPercent / 100.0).Floor as real
  }

  /** `total_delay_seconds`: the start and end delays, each floored to whole
      seconds, added. */
  function TotalDelay(duration: real, startDelayPercent: real, endDelayPercent: real): (r: real)
    ensures startDelayPercent >= 0.0 && endDelayPercent >= 0.0 && duration >= 0.0 ==> r >= 0.0
    ensures r <= duration * (startDelayPercent + endDelayPercent) / 100.0
    ensures r > duration * (startDelayPercent + endDelayPercent) / 100.0 - 2.0
  {
    StartDelay(duration, startDelayPercent) + StartDelay(duration, endDelayPercent)
  }

  /** The time between captures: the given interval, or the time left after
      both delays split into `numSamples + 1` equal parts. */
  function CaptureInterval(duration: real, startDelayPercent: real, endDelayPercent: real,
                           interval: Option<nat>, numSamples: nat): real
  {
    match interval
    case Some(i) => i as real
    case None => (duration - TotalDelay(duration, startDelayPercent, endDelayPercent)) / (numSamples as real + 1.0)
  }

  /** The capture instants: the `k`-th (from 1) is the start delay plus `k` intervals. */
  function Instants(duration: real, startDelayPercent: real, endDelayPercent: real,
                    interval: Option<nat>, numSamples: nat): (r: seq<real>)
    ensures |r| == numSamples
  {
    var start := StartDelay(duration, startDelayPercent);
    var step := CaptureInterval(duration, startDelayPercent, endDelayPercent, interval, numSamples);
    seq(numSamples, k => start + (k + 1) as real * step)
  }

  /** `timestamp_generator`: advances a running time by the capture interval
      `numSamples` times and prints each value with milliseconds. */
  method TimestampGenerator(duration: real, startDelayPercent: real, endDelayPercent: real,
                            interval: Option<nat>, numSamples: nat) returns (stamps: seq<string>)
    ensures |stamps| == numSamples
    ensures forall k | 0 <= k < numSamples ::
      stamps[k] == PrettyDuration(Instants(duration, startDelayPercent, endDelayPercent, interval, numSamples)[k], false, true)
  {
    var captureInterval := CaptureInterval(duration, startDelayPercent, endDelayPercent, interval, numSamples);
    ghost var instants := Instants(duration, startDelayPercent, endDelayPercent, interval, numSamples);
    var time := StartDelay(duration, startDelayPercent);
    var times: seq<real> := [];
    while |times| < numSamples
      invariant |times| <= numSamples
      invariant time == if times == [] then StartDelay(duration, startDelayPercent) else instants[|times| - 1]
      invariant times == instants[..|times|]
    {
      InstantStep(duration, startDelayPercent, endDelayPercent, interval, numSamples, |times|);
      time := time + captureInterval;
      times := times + [time];
    }
    assert times == instants;
    stamps := seq(|times|, k requires 0 <= k < |times| => PrettyDuration(times[k], false, true));
  }

  /** Each instant is the previous one (or the start delay) plus the interval. */
  lemma InstantStep(duration: real, startDelayPercent: real, endDelayPercent: real,
                    interval: Option<nat>, numSamples: nat, i: nat)
    requires i < numSamples
    ensures var r := Instants(duration, startDelayPercent, endDelayPercent, interval, numSamples);
      r[i] == (if i == 0 then StartDelay(duration, startDelayPercent) else r[i - 1])
              + CaptureInterval(duration, startDelayPercent, endDelayPercent, interval, numSamples)
  {
    var step := CaptureInterval(duration, startDelayPercent, endDelayPercent, interval, numSamples);
    assert (i + 1) as real * step == i as real * step + step;
  }

  /** With a positive interval the instants strictly increase. */
  lemma InstantsIncrease(duration: real, startDelayPercent: real, endDelayPercent: real,
                         interval: Option<nat>, numSamples: nat, i: nat, j: nat)
    requires CaptureInterval(duration, startDelayPercent, endDelayPercent, interval, numSamples) > 0.0
    requires i < j < numSamples
    ensures var r := Instants(duration, startDelayPercent, endDelayPercent, interval, numSamples);
      r[i] < r[j]
  {
    var step := CaptureInterval(duration, startDelayPercent, endDelayPercent, interval, numSamples);
    var r := Instants(duration, startDelayPercent, endDelayPercent, interval, numSamples);
    var start := StartDelay(duration, startDelayPercent);
    assert r[i] == start + (i + 1) as real * step;
    assert r[j] == start + (j + 1) as real * step;
    StepsIncrease(step, i + 1, j + 1);
  }

  lemma StepsIncrease(step: real, m: nat, n: nat)
    requires step > 0.0 && m < n
    ensures m as real * step < n as real * step
  {
    assert n as real * step == m as real * step + (n - m) as real * step;
  }

  /** Without an interval, every instant lies between the start delay and
      the duration minus the end delay, provided the delays do not exceed
      the duration. */
  lemma InstantsWithinWindow(duration: real, startDelayPercent: real, endDelayPercent: real,
                             numSamples: nat, k: nat)
    requires TotalDelay(duration, startDelayPercent, endDelayPercent) <= duration
    requires k < numSamples
    ensures var r := Instants(duration, startDelayPercent, endDelayPercent, None, numSamples);
      StartDelay(duration, startDelayPercent) <= r[k] <= duration - StartDelay(duration, endDelayPercent)
  {
    var span := duration - TotalDelay(duration, startDelayPercent, endDelayPercent);
    var n := numSamples as real + 1.0;
    var step := span / n;
    assert step >= 0.0;
    assert (k + 1) as real * step <= n * step by {
      assert (n - (k + 1) as real) * step >= 0.0;
    }
    assert n * step == span;
  }

  /** Each printed timestamp reads back as its instant truncated to whole
      milliseconds; this is the timestamp a captured frame carries. */
  lemma StampsReadBack(duration: real, startDelayPercent: real, endDelayPercent: real,
                       interval: Option<nat>, numSamples: nat, k: nat)
    requires k < numSamples
    requires Instants(duration, startDelayPercent, endDelayPercent, interval, numSamples)[k] >= 0.0
    ensures var t := Instants(duration, startDelayPercent, endDelayPercent, interval, numSamples)[k];
      PrettyToSeconds(PrettyDuration(t, false, true)) == Some(TruncateToMillis(t))
  {
    RoundTripMillis(Instants(duration, startDelayPercent, endDelayPercent, interval, numSamples)[k]);
  }
}
