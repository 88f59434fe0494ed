# Analog input module of KMK, in Dafny

A model of `kmk/modules/analogin.py`: the KMK keyboard module that turns
analog channels (potentiometers, Hall-effect sensors) into key events.
It covers four things.

- **Filters** (`filters.dfy`): the default quantising filter `input >> offset`,
  and the polarity inversion `~filter(input) + filter(65535)` that
  `invert_bool_fill` and `invert_filters` build per layer.
- **Channel hysteresis** (`channels.dfy`): `AnalogInput` and the state change
  `before_matrix_scan` makes on each sample. That state is the last committed
  sample, the last delta, the motion flag and the time.
- **Handlers** (`handlers.dfy`, `dispatch.dfy`):
  - the no-op `AnalogEvent` and the threshold key `AnalogKey`, which presses
    and releases a key through the keyboard;
  - which call (`on_change`, `on_stop` or none) each channel makes on a scan,
    and what those calls do to handler states and to the keyboard.
- **Boot** (`resolve.dfy`, `analog_handler.dfy`):
  - `convert_KC_keys`, `build_filter_layer` and the loop of `during_bootup`;
  - the constructor's reordering and wrapping of the inputs;
  - `AnalogHandler.before_matrix_scan` itself.

The filters are data (`Shift(offset)` or `Inverted(base, max)`), not
closures. An inverted filter carries the maximum its base reached on the
largest raw sample when the inversion was built. The active layer, the raw
readings (one per hardware channel, indexed by the channel's `pin`) and the
clock are parameters of a scan. Calls into handler objects supplied by the
keymap are recorded, but their effect is not modelled. A scan returns the
calls it made, in order, as `ScanCall(channel, handler, call)` values. Its
contract ties them to the specification function `Dispatch.Calls`. It also
ties the handlers' pressed states and the keyboard's key log to
`Dispatch.Replay` of those calls.

The inversion code captures `filter(65535)` with no `+1`, and so does the
model. So the inverted default filter ranges over -1..254 (254 at rest, -1
at full scale), not over 0..255 (`Filters.InvertedDefaultRange`).

## Model

| member | source | states |
|---|---|---|
| Filters.ShrIsFloorDiv | kmk/modules/analogin.py:9 | `input >> offset` on any integer, negative ones included, is floor division by `2^offset` |
| Filters.ShrMonotone | kmk/modules/analogin.py:9 | the shift filter never reverses the order of two samples |
| Filters.ShrShrinks | kmk/modules/analogin.py:9 | on a non-negative sample the shift never exceeds the sample and stays non-negative |
| Filters.DefaultFilterRange | kmk/modules/analogin.py:9 | the default filter (shift 8) maps raw samples 0..65535 onto 0..255 by dividing by 256 |
| Filters.Invert | kmk/modules/analogin.py:101-102 | an inversion built with the captured maximum is well formed when its base is, and the inverted output plus the base output is the same constant, `filter_max - 1`, for every sample |
| Filters.InvertedComplement | kmk/modules/analogin.py:101-102 | every well-formed inverted filter reflects its base around the captured maximum |
| Filters.InvertedDefaultRange | kmk/modules/analogin.py:101-102 | inverting the default filter gives -1..254 on raw samples: 254 at 0 and -1 at 65535 |
| Filters.InvertFlipsDirection | kmk/modules/analogin.py:102 | inversion turns a monotone filter into an antitone one and vice versa |
| Filters.FilterDirection | kmk/modules/analogin.py:9 | every filter the module can build is monotone after an even number of inversions and antitone after an odd number |
| Filters.InvertBoolFill | kmk/modules/analogin.py:97-105 | `invert_bool_fill`: with `True` every filter of the row is replaced by its inversion, position by position; otherwise the same row comes back |
| Filters.InvertFilters | kmk/modules/analogin.py:107-123 | `invert_filters`: a boolean map inverts all rows or none; a per-layer entry is either one flag for the row or one flag per channel, inverting exactly the flagged positions |
| Filters.InvertedRowComplement | kmk/modules/analogin.py:116-122 | after `invert_filters` every filter of the row is still well formed, and each inverted one is its base's complement |
| Handlers.ReactIsThreshold | kmk/modules/analogin.py:37-44 | after `AnalogKey.on_change` the key is pressed exactly when the value reaches the threshold, and one key event carrying the new state is sent exactly when the state changed |
| Handlers.ReactIdempotent | kmk/modules/analogin.py:37-44 | a second `on_change` with the same value changes nothing and sends nothing |
| Handlers.Handler.NoOp | kmk/modules/analogin.py:17-20 | an `AnalogEvent` with no callbacks: no key, no own filter, not pressed |
| Handlers.Handler.Key | kmk/modules/analogin.py:29-34 | `AnalogKey(key, threshold, filter)`: the given key, threshold and own filter, 127 and the default filter when not given, initially released |
| Handlers.Handler.OnChange | kmk/modules/analogin.py:37-44 | `on_change` of a key handler leaves it pressed exactly when the value reaches the threshold, and appends an event to the keyboard exactly when the pressed state flipped |
| Channels.AnalogInput.constructor | kmk/modules/analogin.py:50-56 | a wrapped input starts at value 0, delta 0, not moving, stamped with the current time |
| Channels.AnalogInput.Update | kmk/modules/analogin.py:197-219 | the state update of one scan is `Step` of the old state, the sample, the sensitivity and the time |
| Channels.StepCases | kmk/modules/analogin.py:201-219 | a delta outside the band commits the sample and starts motion; a delta inside the band right after one outside commits it and ends motion; otherwise only the delta and the time change |
| Channels.InitialSettled | kmk/modules/analogin.py:53-55 | a fresh input satisfies the invariant that it moves exactly when its last delta lies outside the band |
| Channels.StepKeepsSettled | kmk/modules/analogin.py:205-212 | every scan with a fixed sensitivity preserves that invariant |
| Channels.EdgeOfSettled | kmk/modules/analogin.py:205-231 | on a settled channel `on_change` fires exactly when the new delta leaves the band, and `on_stop` exactly when the delta returns into it right after leaving it |
| Channels.ColdStartIsQuiet | kmk/modules/analogin.py:53-55 | a fresh input whose first sample lies within the band of 0 reports nothing and keeps 0 as its committed value |
| Channels.StopFollowsChange | kmk/modules/analogin.py:221-240 | over any run of samples on a settled channel, every `on_stop` comes right after an `on_change` (or, first, from a channel already moving), so two stops never follow each other |
| Dispatch.ChannelCallCases | kmk/modules/analogin.py:221-240 | `on_change` iff the channel moves after the update, with the filtered sample and the filtered fall from the last committed sample; `on_stop` iff it moved before and no longer does, with the filtered raw delta; otherwise no call; on a settled channel this is decided by the band |
| Dispatch.ChannelDispatch | kmk/modules/analogin.py:221-240 | a channel makes at most one call per scan, to its own handler, and it makes one exactly when it moves before or after the update |
| Dispatch.CallsTargets | kmk/modules/analogin.py:185-233 | the calls of a scan go to the handler of their channel on the active layer, in increasing channel order |
| Dispatch.Replay | kmk/modules/analogin.py:37-47 | replaying calls on handler states neither adds nor drops a handler |
| Dispatch.ReplaySingle | kmk/modules/analogin.py:37-47 | a single call has an effect only when it is an `on_change`; `on_stop` of a key does nothing |
| Dispatch.ReplayUntouched | kmk/modules/analogin.py:37-47 | a handler that no call reaches keeps its pressed state |
| Dispatch.ReplayKeysFromHandlers | kmk/modules/analogin.py:37-47 | every key event sent comes from an `on_change` of a key handler for that very key |
| Dispatch.ReplayAppend | kmk/modules/analogin.py:185-240 | replaying the calls of the first channels and then those of the rest equals replaying all of them in order |
| Resolve.ConvertRow | kmk/modules/analogin.py:66-85 | `convert_KC_keys`: `KC.NO` becomes a no-op handler; a bare key becomes a fresh, released `AnalogKey` with the default threshold and filter, a different one for each bare-key cell; a handler object passes through; a transparent cell on layer L > 0 is the very handler below it; a transparent cell on the base layer makes the row unresolvable, and nothing else does |
| Resolve.BuildFilterLayer | kmk/modules/analogin.py:88-94 | `build_filter_layer`: one filter per handler, its own filter when it has one and the default filter otherwise |
| Resolve.KeyCellsUseDefaultFilter | kmk/modules/analogin.py:88-94 | handlers resolved from `KC.NO` or a bare key always scan through the default filter |
| Resolve.LoadableCount | kmk/modules/analogin.py:164-177 | the number of layers that load: every layer below it has one cell per input and can be resolved, and the first layer that cannot stops the loading |
| Resolve.Origin | kmk/modules/analogin.py:74-80 | the nearest layer at or below a cell whose entry is not transparent (layer 0 when there is none), with only transparent entries between |
| Resolve.TransparentInheritsNearest | kmk/modules/analogin.py:74-80 | in a resolved keymap a transparent cell holds the same handler object as the nearest concrete cell below it, whatever the transparent layers between |
| Resolve.Reorder | kmk/modules/analogin.py:134-141 | position `i` of the reordered inputs holds input `inputsmap[i]` |
| Resolve.ReorderUndone | kmk/modules/analogin.py:134-141 | reordering by a permutation and then by its inverse gives the inputs back |
| AnalogIn.AnalogHandler.constructor | kmk/modules/analogin.py:128-153 | the configuration is kept as given; the inputs are the raw inputs in `inputsmap` order, each wrapped in a distinct fresh `AnalogInput` at rest |
| AnalogIn.AnalogHandler.LoadLayer | kmk/modules/analogin.py:164-177 | one layer of boot loads exactly when it has one cell per input and can be resolved; its handlers resolve its cells on top of the row below, and its filter row is the configured or built row, inverted as the invert map says; its bare-key cells get fresh, released, pairwise distinct handlers |
| AnalogIn.AnalogHandler.ResolveLayers | kmk/modules/analogin.py:161-177 | the loop of `during_bootup` loads exactly the prefix of layers that can be loaded, each resolved on the one below, with fresh released key handlers, no two bare-key cells of any loaded layers sharing one |
| AnalogIn.AnalogHandler.DuringBootup | kmk/modules/analogin.py:161-180 | after boot the handler is valid, the keymap holds the resolved prefix of loadable layers, each bare-key cell has its own fresh, released `AnalogKey` (the same key on two layers gets two), and every filter row is the one boot builds for its layer |
| AnalogIn.KeyCellsIndependent | kmk/modules/analogin.py:82 | in a booted keymap, calls to the handler of one bare-key cell never change the pressed state of another bare-key cell's handler, even one for the same key on another layer |
| AnalogIn.AnalogHandler.Notify | kmk/modules/analogin.py:230 | `on_change` of one handler updates that handler's entry in the map of all pressed states as `AnalogKey.on_change` says, and the key log likewise |
| AnalogIn.AnalogHandler.ScanChannel | kmk/modules/analogin.py:185-240 | one channel of a scan steps its state, leaves every other channel unchanged, and makes exactly the call `ChannelDispatch` prescribes, with that call's effect on handlers and keyboard |
| AnalogIn.AnalogHandler.ScanNext | kmk/modules/analogin.py:185-240 | one turn of the scan loop extends the scanned prefix by one channel |
| AnalogIn.AnalogHandler.BeforeMatrixScan | kmk/modules/analogin.py:184-242 | `before_matrix_scan`: every channel steps exactly once on its own sample and sensitivity; the calls made are those of `Calls` on the old states; handler states and the key log are those of replaying those calls in order |

## Left out

- Hardware access: `AnalogIn(pin)`, `input.value` and the `Pin` test in the constructor are replaced by one reading per channel, passed to the scan. `ticks_ms()` is replaced by a `now` parameter.
- Debug output and `print` calls, and the lifecycle hooks that only return (`on_runtime_enable`, `after_matrix_scan` and the others), have no effect to model.
- Callbacks of handler objects supplied by the keymap, and of `AnalogEvent(on_change=…, on_stop=…)`, are code outside this module. Their calls are recorded but leave the handler's state and the keyboard unchanged.
- Late-binding closures: the lambdas built in the inversion loops capture `filter` and `filter_max` by reference, so every inverted filter of a row ends up using the last one. The model builds each position's inverted filter from that position's own filter.
- AnalogIn.AnalogHandler.BeforeMatrixScan: the active layer is read once per scan. The code re-reads `keyboard.active_layers[0]` for every channel, which only matters if the layer changed during a scan.
- AnalogIn.AnalogHandler.BeforeMatrixScan: requires the active layer to be a loaded layer, and (with a sensitivity map) a sensitivity row covering every channel. The code reads the sensitivity row for every channel, so a short one raises `IndexError`. But it reads the keymap and the filter map only when a channel makes a call (lines 223 and 233), so a scan in which no channel moves runs without error on a layer that did not load; the model does not cover that scan.
- AnalogIn.AnalogHandler.DuringBootup: requires a configured filter map, and each per-channel list of invert flags, to be exactly as wide as the inputs on every loadable layer, and a per-layer invert map to have an entry for every loadable layer (the code raises `IndexError` at line 112 otherwise). The code also accepts a wider configured filter row, whose extra filters are never read. A narrower filter row, or fewer invert flags, gives a short row that fails only when a channel beyond it makes a call. More invert flags than filters raise `IndexError` at boot.
- Filters.InvertFilters: requires a per-layer invert map to have an entry for the layer it inverts, and each per-channel flag list to be no longer than the filter row. The code raises `IndexError` otherwise (lines 112, 118 and 122); the model does not cover those failures.
- Resolve.ConvertRow: a transparent cell returns the nearest resolved handler below it. The code's walk has no `break`, appends every non-transparent raw entry from layer L down to layer 0, and appends the unresolved configured entry rather than the resolved handler.
- Resolve.ConvertRow: a transparent cell on the base layer makes the row unresolvable, and boot stops there as it does on a width mismatch. The code appends nothing for it and leaves the row short, and the code goes on loading the layers above it, with row 0 misaligned (its width test at line 165 reads the configured row, not the resolved one).
- Resolve.ConvertRow: `KC.NO` becomes a no-op handler instance (its contract does not say whether it is fresh). The code appends the class `AnalogEvent` itself, whose methods would then fail when called.
- Names the code uses without defining them are read as their evident intent:
  - `event_map_layer` is the row being built;
  - `filtermap_layer` is the row `build_filter_layer` builds (which as written resets its list every iteration and returns nothing), or the configured row when a filter map is given;
  - `self.invertmap` inside `invert_filters` is its `invertmap` argument;
  - `self.inputs` in the reordering is the `inputs` argument;
  - `analog.state` and `old_state` are `input.moving` and `last_state`.
- `DEFAULT_FILTER` takes two arguments in the code but is called with one. The model fixes its shift at 8.
- AnalogIn.AnalogHandler.constructor: requires every `inputsmap` entry to be a non-negative index below the number of inputs, and so does Resolve.Reorder. The code raises `IndexError` on a larger entry, and Python reads a negative entry as counting from the end of the list; neither is modelled.
- Filters.FilterDirection: the filters of a configured filter map and a handler's own `filter` are `Shift`/`Inverted` data. The code accepts any callable there, and the monotone/antitone result holds only for the filters the model can express.
- AnalogIn.AnalogHandler.constructor: wraps the reordered inputs, all of them. The code wraps the original `inputs`, resets `input_array` every iteration and so keeps only the last input.
