/**
 * What one scan of the analog input module hands to the handlers: for each
 * channel, an `on_change` call while it moves, an `on_stop` call on the scan
 * where motion ends, and nothing while it stays still; and the effect of
 * those calls on the handlers' pressed states and on the keyboard.
 */
module Dispatch {

  import opened Wrappers
  import opened Filters
  import opened Handlers
  import opened Channels

  /** `EventWrapper`: the filtered value, the filtered delta and the elapsed time. */
  datatype TickEvent = TickEvent(value: int, delta: int, timedelta: int)

  datatype Call = OnChange(event: TickEvent) | OnStop(event: TickEvent)

  /** One callback made during a scan: channel, handler and call. */
  datatype ScanCall = ScanCall(channel: nat, handler: Handler, call: Call)

  /**
   * The call a channel makes after its state went from `before` to `after`
   * on sample `current`, through filter `f`.
   */
  function ChannelCall(before: ChannelState, after: ChannelState, current: int, f: Filter, now: int): Option<Call>
  {
    if after.moving then
      Some(OnChange(TickEvent(Apply(f, current), Apply(f, before.lastValue) - Apply(f, current), now - before.time)))
    else if before.moving then
      Some(OnStop(TickEvent(Apply(f, current), Apply(f, after.delta), now - before.time)))
    else
      None
  }

  /**
   * `on_change` is called exactly when the channel moves after the update,
   * with the filtered sample and the filtered fall from the last committed
   * sample; `on_stop` exactly when it moved before and no longer does, with
   * the filtered raw delta; never both, and nothing when it stays still.
   * On a settled channel this is decided by the deltas and the band.
   */
  lemma ChannelCallCases(st: ChannelState, current: int, s: int, f: Filter, now: int)
    ensures var after := Step(st, current, s, now);
      var c := ChannelCall(st, after, current, f, now);
      (c.Some? && c.value.OnChange? <==> after.moving) &&
      (c.Some? && c.value.OnStop? <==> st.moving && !after.moving) &&
      (c.None? <==> !st.moving && !after.moving) &&
      (c.Some? ==> c.value.event.value == Apply(f, current) && c.value.event.timedelta == now - st.time) &&
      (c.Some? && c.value.OnChange? ==> c.value.event.delta == Apply(f, st.lastValue) - Apply(f, current)) &&
      (c.Some? && c.value.OnStop? ==> c.value.event.delta == Apply(f, st.lastValue - current))
    ensures Settled(st, s) ==>
      var c := ChannelCall(st, Step(st, current, s, now), current, f, now);
      (c.Some? && c.value.OnChange? <==> !InBand(st.lastValue - current, s)) &&
      (c.Some? && c.value.OnStop? <==> InBand(st.lastValue - current, s) && !InBand(st.delta, s))
  {
    if Settled(st, s) {
      EdgeOfSettled(st, current, s, now);
    }
  }

  /** The calls of channel `i` in one scan (none or one). */
  function ChannelDispatch(i: nat, before: ChannelState, current: int, s: int, f: Filter, h: Handler, now: int): (r: seq<ScanCall>)
    ensures |r| <= 1 && forall k :: 0 <= k < |r| ==> r[k].channel == i && r[k].handler == h
    ensures |r| == 1 <==> Step(before, current, s, now).moving || before.moving
  {
    match ChannelCall(before, Step(before, current, s, now), current, f, now)
    case None => []
    case Some(c) => [ScanCall(i, h, c)]
  }

  /**
   * The calls of one scan over the first `n` channels, whose states are
   * `before`, in channel order; channel `i` reads `currents[i]` and uses
   * `sens[i]`, `filters[i]` and `handlers[i]`.
   */
  function Calls(n: nat, before: seq<ChannelState>, currents: seq<int>, sens: seq<int>, filters: seq<Filter>,
                 handlers: seq<Handler>, now: int): (r: seq<ScanCall>)
    requires n <= |before| && n <= |currents| && n <= |sens| && n <= |filters| && n <= |handlers|
    ensures |r| <= n
  {
    if n == 0 then []
    else
      Calls(n - 1, before, currents, sens, filters, handlers, now) +
      ChannelDispatch(n - 1, before[n - 1], currents[n - 1], sens[n - 1], filters[n - 1], handlers[n - 1], now)
  }

  /**
   * Calls go to channels among the first `n`, each to the handler of its
   * channel, in increasing channel order.
   */
  predicate CallsInOrder(r: seq<ScanCall>, n: nat, handlers: seq<Handler>)
    requires n <= |handlers|
  {
    (forall k :: 0 <= k < |r| ==> r[k].channel < n && r[k].handler == handlers[r[k].channel]) &&
    (forall k, m :: 0 <= k < m < |r| ==> r[k].channel < r[m].channel)
  }

  /** A scan calls the handler of the active layer for each channel it visits, in channel order. */
  lemma {:induction false} CallsTargets(n: nat, before: seq<ChannelState>, currents: seq<int>, sens: seq<int>,
                                        filters: seq<Filter>, handlers: seq<Handler>, now: int)
    requires n <= |before| && n <= |currents| && n <= |sens| && n <= |filters| && n <= |handlers|
    ensures CallsInOrder(Calls(n, before, currents, sens, filters, handlers, now), n, handlers)
  {
    if n > 0 {
      CallsTargets(n - 1, before, currents, sens, filters, handlers, now);
      var prev := Calls(n - 1, before, currents, sens, filters, handlers, now);
      var d := ChannelDispatch(n - 1, before[n - 1], currents[n - 1], sens[n - 1], filters[n - 1], handlers[n - 1], now);
      var r := Calls(n, before, currents, sens, filters, handlers, now);
      assert r == prev + d;
      forall k | 0 <= k < |r|
        ensures r[k].channel < n && r[k].handler == handlers[r[k].channel]
      {
        if k < |prev| {
          assert r[k] == prev[k];
        } else {
          assert r[k] == d[k - |prev|];
        }
      }
      forall k, m | 0 <= k < m < |r|
        ensures r[k].channel < r[m].channel
      {
        if m < |prev| {
          assert r[k] == prev[k] && r[m] == prev[m];
        } else {
          assert r[m] == d[m - |prev|];
          assert r[k] == prev[k];
        }
      }
    }
  }

  /**
   * Replaying calls on handler states `pressed` (indexed by handler) gives
   * the new states and the key events sent, in order.  Only `on_change`
   * reaches a key; `on_stop` of every handler here does nothing.
   */
  function Replay(pressed: map<Handler, bool>, ds: seq<ScanCall>): (r: (map<Handler, bool>, seq<KeyEvent>))
    ensures r.0.Keys == pressed.Keys
    decreases |ds|
  {
    if ds == [] then (pressed, [])
    else
      var prev := Replay(pressed, ds[..|ds| - 1]);
      var d := ds[|ds| - 1];
      if d.call.OnChange? && d.handler in prev.0 then
        var (p, evs) := React(d.handler.kind, prev.0[d.handler], d.call.event.value);
        (prev.0[d.handler := p], prev.1 + evs)
      else
        prev
  }

  /** Replaying a single call: only an `on_change` of a known handler has an effect. */
  lemma ReplaySingle(pressed: map<Handler, bool>, d: ScanCall)
    ensures Replay(pressed, [d]) ==
      if d.call.OnChange? && d.handler in pressed then
        var (p, evs) := React(d.handler.kind, pressed[d.handler], d.call.event.value);
        (pressed[d.handler := p], evs)
      else (pressed, [])
  {
    assert [d][..0] == [];
    assert Replay(pressed, [d][..0]) == (pressed, []);
    if d.call.OnChange? && d.handler in pressed {
      var r := React(d.handler.kind, pressed[d.handler], d.call.event.value);
      assert [] + r.1 == r.1;
    }
  }

  /**
   * A handler no call reaches keeps its state, and only key handlers send
   * key events, each for their own key.
   */
  lemma {:induction false} ReplayUntouched(pressed: map<Handler, bool>, ds: seq<ScanCall>, h: Handler)
    requires h in pressed
    requires forall k :: 0 <= k < |ds| ==> ds[k].handler != h
    ensures Replay(pressed, ds).0[h] == pressed[h]
    decreases |ds|
  {
    if ds != [] {
      ReplayUntouched(pressed, ds[..|ds| - 1], h);
    }
  }

  lemma {:induction false} ReplayKeysFromHandlers(pressed: map<Handler, bool>, ds: seq<ScanCall>, e: KeyEvent)
    requires e in Replay(pressed, ds).1
    ensures exists k :: 0 <= k < |ds| && ds[k].call.OnChange? && ds[k].handler.kind.AnalogKey? && ds[k].handler.kind.key == e.key
    decreases |ds|
  {
    var prev := Replay(pressed, ds[..|ds| - 1]);
    var d := ds[|ds| - 1];
    if e in prev.1 {
      ReplayKeysFromHandlers(pressed, ds[..|ds| - 1], e);
      var k :| 0 <= k < |ds| - 1 && ds[..|ds| - 1][k].call.OnChange? && ds[..|ds| - 1][k].handler.kind.AnalogKey? && ds[..|ds| - 1][k].handler.kind.key == e.key;
      assert ds[k] == ds[..|ds| - 1][k];
    } else {
      assert d.call.OnChange? && d.handler in prev.0;
      assert d.handler.kind.AnalogKey?;
    }
  }

  /** Replaying two runs of calls one after the other is replaying them together. */
  lemma {:induction false} ReplayAppend(pressed: map<Handler, bool>, a: seq<ScanCall>, b: seq<ScanCall>)
    ensures var first := Replay(pressed, a);
      Replay(pressed, a + b) == (Replay(first.0, b).0, first.1 + Replay(first.0, b).1)
    decreases |b|
  {
    if b == [] {
      assert a + b == a;
      assert Replay(pressed, a).1 + [] == Replay(pressed, a).1;
    } else {
      var b' := b[..|b| - 1];
      var first := Replay(pressed, a);
      ReplayAppend(pressed, a, b');
      assert (a + b)[..|a + b| - 1] == a + b';
      assert (a + b)[|a + b| - 1] == b[|b| - 1];
      var d := b[|b| - 1];
      var prev := Replay(first.0, b');
      if d.call.OnChange? && d.handler in prev.0 {
        var evs := React(d.handler.kind, prev.0[d.handler], d.call.event.value).1;
        assert first.1 + prev.1 + evs == first.1 + (prev.1 + evs);
      }
    }
  }

  /** `ReplayAppend` for a replay whose result is already known. */
  lemma ReplayExtend(pressed0: map<Handler, bool>, calls: seq<ScanCall>, d: seq<ScanCall>,
                     pressed: map<Handler, bool>, events: seq<KeyEvent>)
    requires (pressed, events) == Replay(pressed0, calls)
    ensures Replay(pressed0, calls + d) == (Replay(pressed, d).0, events + Replay(pressed, d).1)
  {
    ReplayAppend(pressed0, calls, d);
  }
}
