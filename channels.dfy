/**
 * Per-channel hysteresis state of the analog input module (`AnalogInput`):
 * the last committed sample, the last delta, the motion flag and the time
 * of the last update, and the transition one scan makes on a new sample.
 */
module Channels {

  /** The sensitivity used when none is configured. */
  const DEFAULT_SENSITIVITY: int := 1

  /** `delta in range(-s, s + 1)`: the delta lies in the noise band (empty when `s < 0`). */
  predicate InBand(delta: int, s: int)
  {
    -s <= delta <= s
  }

  datatype ChannelState = ChannelState(lastValue: int, delta: int, moving: bool, time: int)

  /** A freshly wrapped input. */
  function Initial(now: int): ChannelState
  {
    ChannelState(0, 0, false, now)
  }

  /** The state change one scan makes with sample `current`, sensitivity `s`, at time `now`. */
  function Step(st: ChannelState, current: int, s: int, now: int): ChannelState
  {
    var delta := st.lastValue - current;
    if !InBand(delta, s) then
      ChannelState(current, delta, true, now)
    else if !InBand(st.delta, s) then
      ChannelState(current, delta, false, now)
    else
      ChannelState(st.lastValue, delta, st.moving, now)
  }

  /** The edge a scan reports: the `on_change` / `on_stop` choice. */
  datatype Edge = Change | Stop | Quiet

  function EdgeOf(before: ChannelState, after: ChannelState): Edge
  {
    if after.moving then Change
    else if before.moving then Stop
    else Quiet
  }

  /**
   * The motion flag agrees with the stored delta: the channel is moving
   * exactly when its last delta left the band.
   */
  ghost predicate Settled(st: ChannelState, s: int)
  {
    st.moving <==> !InBand(st.delta, s)
  }

  /** A freshly wrapped input is settled for every non-negative sensitivity. */
  lemma InitialSettled(now: int, s: int)
    requires s >= 0
    ensures Settled(Initial(now), s)
  {
  }

  /**
   * One scan: a delta outside the band commits the sample and starts motion;
   * a delta inside the band right after one outside it commits the sample and
   * ends motion; a delta inside the band after one inside it changes nothing
   * but the stored delta and the time.
   */
  lemma StepCases(st: ChannelState, current: int, s: int, now: int)
    ensures var r := Step(st, current, s, now);
      r.delta == st.lastValue - current && r.time == now &&
      (!InBand(st.lastValue - current, s) ==> r.lastValue == current && r.moving) &&
      (InBand(st.lastValue - current, s) && !InBand(st.delta, s) ==> r.lastValue == current && !r.moving) &&
      (InBand(st.lastValue - current, s) && InBand(st.delta, s) ==> r.lastValue == st.lastValue && r.moving == st.moving)
  {
  }

  /** With a fixed sensitivity a scan keeps the channel settled. */
  lemma StepKeepsSettled(st: ChannelState, current: int, s: int, now: int)
    requires Settled(st, s)
    ensures Settled(Step(st, current, s, now), s)
  {
  }

  /**
   * On a settled channel the reported edge is decided by the deltas alone:
   * a change exactly when the new delta leaves the band, a stop exactly when
   * it returns into the band right after leaving it, nothing otherwise.
   */
  lemma EdgeOfSettled(st: ChannelState, current: int, s: int, now: int)
    requires Settled(st, s)
    ensures var e := EdgeOf(st, Step(st, current, s, now));
      (e == Change <==> !InBand(st.lastValue - current, s)) &&
      (e == Stop <==> InBand(st.lastValue - current, s) && !InBand(st.delta, s)) &&
      (e == Quiet <==> InBand(st.lastValue - current, s) && InBand(st.delta, s))
  {
  }

  /** From a freshly wrapped input, a first sample within the band reports nothing. */
  lemma ColdStartIsQuiet(now: int, current: int, s: int, later: int)
    requires InBand(0 - current, s)
    ensures EdgeOf(Initial(now), Step(Initial(now), current, s, later)) == Quiet
    ensures Step(Initial(now), current, s, later).lastValue == 0
  {
  }

  /** The edges reported while scanning `samples` in order. */
  function Trace(st: ChannelState, samples: seq<int>, s: int): (t: seq<Edge>)
    ensures |t| == |samples|
    decreases |samples|
  {
    if samples == [] then []
    else
      var next := Step(st, samples[0], s, st.time);
      [EdgeOf(st, next)] + Trace(next, samples[1..], s)
  }

  /**
   * A stop is reported once per motion episode: on a settled channel every
   * stop comes right after a change (or, first in the trace, from a channel
   * already moving), so two stops never follow each other.
   */
  lemma {:induction false} StopFollowsChange(st: ChannelState, samples: seq<int>, s: int)
    requires Settled(st, s)
    ensures var t := Trace(st, samples, s);
      (|t| > 0 && t[0] == Stop ==> st.moving) &&
      (forall k :: 0 < k < |t| && t[k] == Stop ==> t[k - 1] == Change)
    decreases |samples|
  {
    if samples != [] {
      var next := Step(st, samples[0], s, st.time);
      StepKeepsSettled(st, samples[0], s, st.time);
      StopFollowsChange(next, samples[1..], s);
      var t := Trace(st, samples, s);
      var t' := Trace(next, samples[1..], s);
      assert t == [EdgeOf(st, next)] + t';
      forall k | 0 < k < |t| && t[k] == Stop
        ensures t[k - 1] == Change
      {
        assert t[k] == t'[k - 1];
        if k == 1 {
          assert next.moving;
        } else {
          assert t[k - 1] == t'[k - 2];
        }
      }
    }
  }

  /** `AnalogInput`: a wrapped hardware channel and its hysteresis state. */
  class AnalogInput {
    /** The position of the hardware channel in the list of raw readings. */
    const pin: nat
    var lastValue: int
    var delta: int
    var moving: bool
    var time: int

    constructor (pin: nat, now: int)
      ensures this.pin == pin && State() == Initial(now)
    {
      this.pin := pin;
      lastValue, delta, moving, time := 0, 0, false, now;
    }

    function State(): ChannelState
      reads this
    {
      ChannelState(lastValue, delta, moving, time)
    }

    /** The state update of one scan with sample `current`. */
    method Update(current: int, s: int, now: int)
      modifies this
      ensures State() == Step(old(State()), current, s, now)
    {
      var d := lastValue - current;
      if !(-s <= d <= s) {
        lastValue := current;
        moving := true;
      } else if -s <= d <= s && !(-s <= delta <= s) {
        lastValue := current;
        moving := false;
      }
      time := now;
      delta := d;
    }
  }
}
