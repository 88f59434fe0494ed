/**
 * `AnalogHandler`, the analog input module: it wraps and orders the
 * inputs, resolves the keymap and the filters at boot, and on every scan
 * updates each channel's hysteresis state and calls the handler of the
 * active layer.  The active layer, the raw readings and the clock are
 * parameters of the scan.
 */
module AnalogIn {

  import opened Wrappers
  import opened Filters
  import opened Handlers
  import opened Channels
  import opened Dispatch
  import opened Resolve

  /** The inputs in scan order: `inputsmap` applied to the raw inputs, when given. */
  function Ordered(pins: seq<nat>, inputsmap: Option<seq<nat>>): seq<nat>
    requires inputsmap.Some? ==> forall i :: 0 <= i < |inputsmap.value| ==> inputsmap.value[i] < |pins|
  {
    match inputsmap
    case None => pins
    case Some(m) => seq(|m|, i requires 0 <= i < |m| => pins[m[i]])
  }

  /** `build_filter_layer` as a value: the filter of each handler of a row. */
  function FilterRow(row: seq<Handler>): seq<Filter>
  {
    seq(|row|, i requires 0 <= i < |row| => HandlerFilter(row[i]))
  }

  /**
   * The filter row layer `l` gets at boot from its resolved handlers, the
   * configured filter row (if a filter map is configured) and the invert map.
   */
  ghost predicate BootFilterRow(handlers: seq<Handler>, configured: Option<seq<Filter>>, invert: Option<InvertSpec>, l: nat, row: seq<Filter>)
  {
    var base := if configured.None? then FilterRow(handlers) else configured.value;
    (invert.None? ==> row == base) &&
    (invert.Some? ==> Indexable(invert.value, l, |base|) && InvertsAs(invert.value, l, base, row))
  }

  /** A configured filter map covers the first `k` layers with one filter per input. */
  ghost predicate FilterConfigFits(filterConfig: Option<seq<seq<Filter>>>, k: nat, n: nat)
  {
    filterConfig.Some? ==>
      |filterConfig.value| >= k && forall l :: 0 <= l < k ==> |filterConfig.value[l]| == n
  }

  /** A per-layer invert map covers the first `k` layers, with one flag per input where it lists flags. */
  ghost predicate InvertConfigFits(invertmap: Option<InvertSpec>, k: nat, n: nat)
  {
    invertmap.Some? && invertmap.value.PerLayer? ==>
      |invertmap.value.layers| >= k &&
      forall l :: 0 <= l < k && invertmap.value.layers[l].PerChannel? ==> |invertmap.value.layers[l].flags| == n
  }

  /**
   * Because every bare-key cell has a handler of its own, calls that reach
   * the handler of one such cell never change the pressed state of the
   * handler of another, even for the same key on another layer.
   */
  lemma KeyCellsIndependent(layers: seq<seq<Entry>>, evtmap: seq<seq<Handler>>, pressed: map<Handler, bool>,
                            ds: seq<ScanCall>, l1: nat, c1: nat, l2: nat, c2: nat)
    requires KeysDistinct(layers, evtmap)
    requires l1 < |evtmap| && l1 < |layers| && c1 < |evtmap[l1]| && c1 < |layers[l1]| && layers[l1][c1].KeyCode?
    requires l2 < |evtmap| && l2 < |layers| && c2 < |evtmap[l2]| && c2 < |layers[l2]| && layers[l2][c2].KeyCode?
    requires l1 != l2 || c1 != c2
    requires evtmap[l2][c2] in pressed
    requires forall k :: 0 <= k < |ds| ==> ds[k].handler == evtmap[l1][c1]
    ensures Replay(pressed, ds).0[evtmap[l2][c2]] == pressed[evtmap[l2][c2]]
  {
    assert evtmap[l1][c1] != evtmap[l2][c2];
    ReplayUntouched(pressed, ds, evtmap[l2][c2]);
  }

  lemma AppendAssoc<T>(a: seq<T>, b: seq<T>, c: seq<T>)
    ensures a + b + c == a + (b + c)
  {
  }

  class AnalogHandler {
    /** The keymap as configured (`evtmap` before boot). */
    const layers: seq<seq<Entry>>
    const invertmap: Option<InvertSpec>
    /** The filter map as configured (`filtermap` before boot). */
    const filterConfig: Option<seq<seq<Filter>>>
    const sensitivity: Option<seq<seq<int>>>

    var inputs: seq<AnalogInput>
    /** The resolved keymap: one handler per layer and input. */
    var evtmap: seq<seq<Handler>>
    /** The resolved filter map: one filter per layer and input. */
    var filtermap: seq<seq<Filter>>

    /** Distinct inputs, and resolved tables with one cell per input on every loaded layer. */
    ghost predicate Valid()
      reads this
    {
      (forall i, j :: 0 <= i < j < |inputs| ==> inputs[i] != inputs[j]) &&
      |filtermap| == |evtmap| &&
      forall l :: 0 <= l < |evtmap| ==> |evtmap[l]| == |inputs| && |filtermap[l]| == |inputs|
    }

    /**
     * `AnalogHandler(evtmap, inputs, inputsmap, invertmap, filtermap, sensitivity)`:
     * reorder the raw inputs by `inputsmap`, then wrap each in a fresh
     * `AnalogInput` created at time `now`.
     */
    constructor (evtmap: seq<seq<Entry>>, pins: seq<nat>, inputsmap: Option<seq<nat>>,
                 invertmap: Option<InvertSpec>, filtermap: Option<seq<seq<Filter>>>,
                 sensitivity: Option<seq<seq<int>>>, now: int)
      requires inputsmap.Some? ==> forall i :: 0 <= i < |inputsmap.value| ==> inputsmap.value[i] < |pins|
      ensures layers == evtmap && this.invertmap == invertmap
      ensures filterConfig == filtermap && this.sensitivity == sensitivity
      ensures this.evtmap == [] && this.filtermap == []
      ensures |inputs| == |Ordered(pins, inputsmap)|
      ensures forall i :: 0 <= i < |inputs| ==>
        fresh(inputs[i]) && inputs[i].pin == Ordered(pins, inputsmap)[i] && inputs[i].State() == Initial(now)
      ensures Valid()
    {
      layers := evtmap;
      this.invertmap := invertmap;
      filterConfig := filtermap;
      this.sensitivity := sensitivity;
      this.evtmap := [];
      this.filtermap := [];
      var ordered := pins;
      if inputsmap.Some? {
        ordered := Reorder(pins, inputsmap.value);
      }
      var wrapped: seq<AnalogInput> := [];
      var i := 0;
      while i < |ordered|
        invariant 0 <= i <= |ordered| && |wrapped| == i
        invariant forall j :: 0 <= j < i ==>
          fresh(wrapped[j]) && wrapped[j].pin == ordered[j] && wrapped[j].State() == Initial(now)
        invariant forall j, k :: 0 <= j < k < i ==> wrapped[j] != wrapped[k]
      {
        var input := new AnalogInput(ordered[i], now);
        wrapped := wrapped + [input];
        i := i + 1;
      }
      inputs := wrapped;
    }

    /**
     * One layer of `during_bootup`: check its width, resolve its cells on
     * top of the rows already loaded, and build its filter row.  Nothing
     * loads when the layer cannot be loaded.
     */
    method LoadLayer(idx: nat, resolved: seq<seq<Handler>>) returns (loaded: Option<(seq<Handler>, seq<Filter>)>)
      requires idx < |layers| && |resolved| == idx
      requires idx > 0 ==> |resolved[idx - 1]| == |inputs|
      requires Loadable(layers, |inputs|, idx) && filterConfig.Some? ==>
        idx < |filterConfig.value| && |filterConfig.value[idx]| == |inputs|
      requires Loadable(layers, |inputs|, idx) && invertmap.Some? && invertmap.value.PerLayer? ==>
        idx < |invertmap.value.layers| &&
        (invertmap.value.layers[idx].PerChannel? ==> |invertmap.value.layers[idx].flags| == |inputs|)
      ensures loaded.None? <==> !Loadable(layers, |inputs|, idx)
      ensures loaded.Some? ==> |loaded.value.0| == |inputs| && |loaded.value.1| == |inputs|
      ensures loaded.Some? ==> forall c :: 0 <= c < |inputs| ==>
        CellResolved(layers, idx, c, Below(resolved, idx), loaded.value.0[c])
      ensures loaded.Some? ==> forall c :: 0 <= c < |inputs| && layers[idx][c].KeyCode? ==>
        fresh(loaded.value.0[c]) && !loaded.value.0[c].pressed
      ensures loaded.Some? ==> RowKeysDistinct(layers[idx], loaded.value.0)
      ensures loaded.Some? ==>
        BootFilterRow(loaded.value.0, ConfiguredRow(idx), invertmap, idx, loaded.value.1)
    {
      if |layers[idx]| != |inputs| {
        return None;
      }
      var row := ConvertRow(layers, idx, resolved);
      if row.None? {
        return None;
      }
      assert Loadable(layers, |inputs|, idx);
      var handlers := row.value;
      var base: seq<Filter>;
      if filterConfig.None? {
        base := BuildFilterLayer(handlers);
        assert base == FilterRow(handlers);
      } else {
        base := filterConfig.value[idx];
      }
      var frow: seq<Filter>;
      if invertmap.Some? {
        frow := InvertFilters(invertmap.value, base, idx);
      } else {
        frow := base;
      }
      loaded := Some((handlers, frow));
    }

    /** The configured filter row of layer `l`, if a filter map is configured. */
    function ConfiguredRow(l: nat): Option<seq<Filter>>
      requires filterConfig.Some? ==> l < |filterConfig.value|
    {
      if filterConfig.None? then None else Some(filterConfig.value[l])
    }

    /**
     * `em` and `fm` are the keymap and filter map of the first `|em|` layers
     * after boot: one cell per input, each layer resolved on top of the one
     * below, each filter row built from its handlers or configuration and the
     * invert map.
     */
    ghost predicate Booted(em: seq<seq<Handler>>, fm: seq<seq<Filter>>)
      reads this
    {
      |em| == |fm| && ResolvedMap(layers, em) &&
      (filterConfig.Some? ==> |em| <= |filterConfig.value|) &&
      forall l :: 0 <= l < |em| ==>
        |em[l]| == |inputs| && |fm[l]| == |inputs| &&
        BootFilterRow(em[l], ConfiguredRow(l), invertmap, l, fm[l])
    }

    lemma BootedSnoc(em: seq<seq<Handler>>, fm: seq<seq<Filter>>, row: seq<Handler>, frow: seq<Filter>)
      requires Booted(em, fm) && |em| < |layers|
      requires filterConfig.Some? ==> |em| < |filterConfig.value|
      requires |row| == |inputs| && |frow| == |inputs| && |layers[|em|]| == |inputs|
      requires forall c :: 0 <= c < |inputs| ==> CellResolved(layers, |em|, c, Below(em, |em|), row[c])
      requires BootFilterRow(row, ConfiguredRow(|em|), invertmap, |em|, frow)
      ensures Booted(em + [row], fm + [frow])
    {
      ResolvedMapSnoc(layers, em, row);
      var em', fm' := em + [row], fm + [frow];
      forall l | 0 <= l < |em'|
        ensures |em'[l]| == |inputs| && |fm'[l]| == |inputs|
        ensures BootFilterRow(em'[l], ConfiguredRow(l), invertmap, l, fm'[l])
      {
        if l < |em| {
          assert em'[l] == em[l] && fm'[l] == fm[l];
        }
      }
    }

    /**
     * The loop of `during_bootup`: resolve the layers from the bottom up,
     * stopping at the first layer that does not have one cell per input (or
     * that cannot be resolved), and build each loaded layer's filter row.
     */
    method ResolveLayers() returns (em: seq<seq<Handler>>, fm: seq<seq<Filter>>)
      requires FilterConfigFits(filterConfig, LoadableCount(layers, |inputs|), |inputs|)
      requires InvertConfigFits(invertmap, LoadableCount(layers, |inputs|), |inputs|)
      ensures |em| == LoadableCount(layers, |inputs|)
      ensures Booted(em, fm)
      ensures forall l, c :: 0 <= l < |em| && 0 <= c < |em[l]| && layers[l][c].KeyCode? ==>
        fresh(em[l][c]) && !em[l][c].pressed
      ensures KeysDistinct(layers, em)
    {
      ghost var k := LoadableCount(layers, |inputs|);
      em, fm := [], [];
      var idx := 0;
      ghost var created: set<Handler> := {};
      while idx < |layers|
        invariant 0 <= idx <= k && |em| == idx
        invariant Booted(em, fm)
        invariant forall h :: h in created ==> fresh(h) && !h.pressed
        invariant KeysIn(layers, em, created)
        invariant KeysDistinct(layers, em)
        decreases |layers| - idx
      {
        if Loadable(layers, |inputs|, idx) {
          assert idx < k;
          assert filterConfig.Some? ==> |filterConfig.value[idx]| == |inputs|;
          assert invertmap.Some? && invertmap.value.PerLayer? && invertmap.value.layers[idx].PerChannel? ==>
            |invertmap.value.layers[idx].flags| == |inputs|;
        }
        var loaded := LoadLayer(idx, em);
        if loaded.None? {
          break;
        }
        var row := loaded.value.0;
        BootedSnoc(em, fm, row, loaded.value.1);
        KeysInSnoc(layers, em, created, row);
        KeysDistinctSnoc(layers, em, created, row);
        created := created + KeyCells(layers[idx], row);
        em := em + [row];
        fm := fm + [loaded.value.1];
        idx := idx + 1;
      }
    }

    /**
     * `during_bootup`: replace the configured keymap and filter map by the
     * resolved ones, for the layers that load.
     */
    method DuringBootup()
      requires Valid()
      requires FilterConfigFits(filterConfig, LoadableCount(layers, |inputs|), |inputs|)
      requires InvertConfigFits(invertmap, LoadableCount(layers, |inputs|), |inputs|)
      modifies this`evtmap, this`filtermap
      ensures Valid()
      ensures |evtmap| == LoadableCount(layers, |inputs|)
      ensures ResolvedMap(layers, evtmap)
      ensures forall l, c :: 0 <= l < |evtmap| && 0 <= c < |evtmap[l]| && layers[l][c].KeyCode? ==>
        fresh(evtmap[l][c]) && !evtmap[l][c].pressed
      ensures KeysDistinct(layers, evtmap)
      ensures forall l :: 0 <= l < |filtermap| ==>
        BootFilterRow(evtmap[l], ConfiguredRow(l), invertmap, l, filtermap[l])
    {
      var em, fm := ResolveLayers();
      evtmap := em;
      filtermap := fm;
    }

    /** The sensitivity of channel `i` on `layer`. */
    function SensitivityAt(layer: nat, i: nat): int
      requires sensitivity.Some? ==> layer < |sensitivity.value| && i < |sensitivity.value[layer]|
    {
      if sensitivity.Some? then sensitivity.value[layer][i] else DEFAULT_SENSITIVITY
    }

    /** The hysteresis state of every channel, in order. */
    ghost function States(): (r: seq<ChannelState>)
      reads this, inputs
      ensures |r| == |inputs|
    {
      var ins := inputs;
      seq(|ins|, i reads ins requires 0 <= i < |ins| => ins[i].State())
    }

    /** The sample each channel reads from `readings`, in order. */
    ghost function Currents(readings: seq<int>): (r: seq<int>)
      reads this
      requires forall i :: 0 <= i < |inputs| ==> inputs[i].pin < |readings|
      ensures |r| == |inputs|
    {
      var ins := inputs;
      seq(|ins|, i requires 0 <= i < |ins| => readings[ins[i].pin])
    }

    /** The sensitivity of every channel on layer `layer`, in order. */
    ghost function Sensitivities(layer: nat): (r: seq<int>)
      reads this
      requires sensitivity.Some? ==> layer < |sensitivity.value| && |sensitivity.value[layer]| >= |inputs|
      ensures |r| == |inputs|
    {
      var n := |inputs|;
      seq(n, i requires 0 <= i < n => SensitivityAt(layer, i))
    }

    /** Every handler of the resolved keymap. */
    ghost function HandlerSet(): set<Handler>
      reads this
    {
      set l, c | 0 <= l < |evtmap| && 0 <= c < |evtmap[l]| :: evtmap[l][c]
    }

    ghost function PressedMap(): map<Handler, bool>
      reads this, HandlerSet()
    {
      map h | h in HandlerSet() :: h.pressed
    }

    /** `handler.on_change(event, keyboard, now)` seen through the pressed map of all handlers. */
    method Notify(handler: Handler, value: int, kb: Keyboard, ghost pressed: map<Handler, bool>)
      requires handler in HandlerSet() && pressed == PressedMap()
      modifies handler, kb
      ensures PressedMap() == pressed[handler := React(handler.kind, pressed[handler], value).0]
      ensures kb.keys == old(kb.keys) + React(handler.kind, pressed[handler], value).1
    {
      handler.OnChange(value, kb);
    }

    /**
     * One channel of `before_matrix_scan`: read its sample, update its
     * hysteresis state, and make the call its new state asks for.
     */
    method ScanChannel(i: nat, layer: nat, readings: seq<int>, now: int, kb: Keyboard,
                       ghost before: ChannelState, ghost current: int, ghost s: int, ghost pressed: map<Handler, bool>)
      returns (d: seq<ScanCall>)
      requires Valid() && layer < |evtmap| && i < |inputs| && inputs[i].pin < |readings|
      requires sensitivity.Some? ==> layer < |sensitivity.value| && |sensitivity.value[layer]| >= |inputs|
      requires before == inputs[i].State() && current == readings[inputs[i].pin] && s == SensitivityAt(layer, i)
      requires pressed == PressedMap()
      modifies inputs[i], HandlerSet(), kb
      ensures inputs[i].State() == Step(before, current, s, now)
      ensures forall j :: 0 <= j < |inputs| && j != i ==> inputs[j].State() == old(inputs[j].State())
      ensures d == ChannelDispatch(i, before, current, s, filtermap[layer][i], evtmap[layer][i], now)
      ensures kb.keys == old(kb.keys) + Replay(pressed, d).1
      ensures PressedMap() == Replay(pressed, d).0
    {
      var input := inputs[i];
      var s := SensitivityAt(layer, i);
      var current := readings[input.pin];
      var lastValue := input.lastValue;
      var lastState := input.moving;
      var lastTime := input.time;
      input.Update(current, s, now);
      var handler := evtmap[layer][i];
      var filter := filtermap[layer][i];
      if input.moving {
        var event := TickEvent(Apply(filter, current), Apply(filter, lastValue) - Apply(filter, current), now - lastTime);
        assert handler in HandlerSet();
        Notify(handler, event.value, kb, pressed);
        d := [ScanCall(i, handler, OnChange(event))];
        ReplaySingle(pressed, d[0]);
      } else if lastState {
        var event := TickEvent(Apply(filter, current), Apply(filter, input.delta), now - lastTime);
        d := [ScanCall(i, handler, OnStop(event))];
        ReplaySingle(pressed, d[0]);
      } else {
        d := [];
      }
    }

    /**
     * After the first `i` channels of a scan that started from channel
     * states `before`, handler states `pressed0` and key list `keys0`: each
     * of them has stepped once, `calls` holds their calls, and the handlers
     * and keyboard are as replaying those calls leaves them.
     */
    ghost predicate Scanned(i: nat, layer: nat, readings: seq<int>, now: int, kb: Keyboard, before: seq<ChannelState>,
                            pressed0: map<Handler, bool>, keys0: seq<KeyEvent>, calls: seq<ScanCall>)
      reads this, inputs, HandlerSet(), kb
    {
      Valid() && layer < |evtmap| && i <= |inputs| == |before| &&
      |evtmap[layer]| == |filtermap[layer]| == |inputs| &&
      (forall j :: 0 <= j < |inputs| ==> inputs[j].pin < |readings|) &&
      (sensitivity.Some? ==> layer < |sensitivity.value| && |sensitivity.value[layer]| >= |inputs|) &&
      (forall j :: 0 <= j < i ==>
        inputs[j].State() == Step(before[j], readings[inputs[j].pin], SensitivityAt(layer, j), now)) &&
      (forall j :: i <= j < |inputs| ==> inputs[j].State() == before[j]) &&
      calls == Calls(i, before, Currents(readings), Sensitivities(layer), filtermap[layer], evtmap[layer], now) &&
      PressedMap() == Replay(pressed0, calls).0 && kb.keys == keys0 + Replay(pressed0, calls).1
    }

    /** One turn of the loop of `before_matrix_scan`: channel `i`. */
    method ScanNext(i: nat, layer: nat, readings: seq<int>, now: int, kb: Keyboard, ghost before: seq<ChannelState>,
                    ghost pressed0: map<Handler, bool>, ghost keys0: seq<KeyEvent>, calls: seq<ScanCall>)
      returns (calls': seq<ScanCall>)
      requires i < |inputs| && Scanned(i, layer, readings, now, kb, before, pressed0, keys0, calls)
      modifies inputs[i], HandlerSet(), kb
      ensures Scanned(i + 1, layer, readings, now, kb, before, pressed0, keys0, calls')
    {
      ghost var pressed := Replay(pressed0, calls).0;
      ghost var events := Replay(pressed0, calls).1;
      var d := ScanChannel(i, layer, readings, now, kb, before[i], readings[inputs[i].pin], SensitivityAt(layer, i), pressed);
      ReplayExtend(pressed0, calls, d, pressed, events);
      AppendAssoc(keys0, events, Replay(pressed, d).1);
      calls' := calls + d;
    }

    /**
     * `before_matrix_scan`: for each input in order, read its sample, update
     * its hysteresis state, and call `on_change` of the active layer's
     * handler while it moves or `on_stop` on the scan where motion ends.
     * Returns the calls made, in order.
     */
    method BeforeMatrixScan(layer: nat, readings: seq<int>, now: int, kb: Keyboard) returns (calls: seq<ScanCall>)
      requires Valid()
      requires layer < |evtmap|
      requires forall i :: 0 <= i < |inputs| ==> inputs[i].pin < |readings|
      requires sensitivity.Some? ==> layer < |sensitivity.value| && |sensitivity.value[layer]| >= |inputs|
      modifies inputs, HandlerSet(), kb
      ensures forall i :: 0 <= i < |inputs| ==>
        inputs[i].State() == Step(old(inputs[i].State()), readings[inputs[i].pin], SensitivityAt(layer, i), now)
      ensures calls == Calls(|inputs|, old(States()), Currents(readings), Sensitivities(layer), filtermap[layer], evtmap[layer], now)
      ensures kb.keys == old(kb.keys) + Replay(old(PressedMap()), calls).1
      ensures PressedMap() == Replay(old(PressedMap()), calls).0
    {
      ghost var before := States();
      ghost var pressed0 := PressedMap();
      ghost var keys0 := kb.keys;
      calls := [];
      var i := 0;
      while i < |inputs|
        invariant i <= |inputs| && Scanned(i, layer, readings, now, kb, before, pressed0, keys0, calls)
      {
        calls := ScanNext(i, layer, readings, now, kb, before, pressed0, keys0, calls);
        i := i + 1;
      }
      assert i == |inputs| && before == old(States());
    }
  }
}
