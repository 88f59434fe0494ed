/**
 * Event handlers of the analog input module: the no-op `AnalogEvent`, the
 * threshold key `AnalogKey`, and handler objects supplied by the keymap
 * whose callbacks are outside this model.  The keyboard's key pipeline is
 * a log of the key events handlers send into it.
 */
module Handlers {

  import opened Wrappers
  import opened Filters

  /** The threshold an `AnalogKey` gets when the keymap names a bare key. */
  const DEFAULT_THRESHOLD: int := 127

  /** One call of `keyboard.pre_process_key(key, pressed)`. */
  datatype KeyEvent = KeyEvent(key: nat, pressed: bool)

  datatype HandlerKind =
    | NoOp
    | AnalogKey(key: nat, threshold: int)
    | Custom(id: nat)

  /** The keyboard seen from this module: the sink of key events. */
  class Keyboard {
    var keys: seq<KeyEvent>

    constructor ()
      ensures keys == []
    {
      keys := [];
    }
  }

  /**
   * What `AnalogKey.on_change` does with a filtered value: the new pressed
   * state and the key events it sends.  Other handlers keep their state.
   */
  function React(kind: HandlerKind, pressed: bool, value: int): (bool, seq<KeyEvent>)
  {
    match kind
    case AnalogKey(key, threshold) =>
      if value >= threshold && !pressed then (true, [KeyEvent(key, true)])
      else if value < threshold && pressed then (false, [KeyEvent(key, false)])
      else (pressed, [])
    case _ => (pressed, [])
  }

  /**
   * After `on_change` a key is pressed exactly when the value reaches the
   * threshold, and it sends one event, carrying the new state, exactly when
   * that state differs from the old one.
   */
  lemma ReactIsThreshold(key: nat, threshold: int, pressed: bool, value: int)
    ensures React(AnalogKey(key, threshold), pressed, value).0 == (value >= threshold)
    ensures React(AnalogKey(key, threshold), pressed, value).1 ==
      if (value >= threshold) != pressed then [KeyEvent(key, value >= threshold)] else []
  {
  }

  /** A second `on_change` with the same value sends nothing. */
  lemma ReactIdempotent(kind: HandlerKind, pressed: bool, value: int)
    ensures React(kind, React(kind, pressed, value).0, value) == (React(kind, pressed, value).0, [])
  {
  }

  class Handler {
    const kind: HandlerKind
    /** The handler's own filter, when it has one (`hasattr(event, 'filter')`). */
    const filter: Option<Filter>
    var pressed: bool

    /** `AnalogEvent()`: both callbacks are `noop`. */
    constructor NoOp()
      ensures kind == HandlerKind.NoOp && filter == None && !pressed
    {
      kind := HandlerKind.NoOp;
      filter := None;
      pressed := false;
    }

    /** `AnalogKey(key, threshold, filter)`; a bare key gets the defaults. */
    constructor Key(key: nat, threshold: int := DEFAULT_THRESHOLD, filter: Filter := DEFAULT_FILTER)
      ensures kind == AnalogKey(key, threshold) && this.filter == Some(filter) && !pressed
    {
      kind := AnalogKey(key, threshold);
      this.filter := Some(filter);
      pressed := false;
    }

    /** A handler object from the keymap, with or without a filter of its own. */
    constructor Custom(id: nat, filter: Option<Filter>)
      ensures kind == HandlerKind.Custom(id) && this.filter == filter && !pressed
    {
      kind := HandlerKind.Custom(id);
      this.filter := filter;
      pressed := false;
    }

    /** `on_change(event, keyboard)` with the event's filtered value. */
    method OnChange(value: int, kb: Keyboard)
      modifies this, kb
      ensures kind.AnalogKey? ==> pressed == (value >= kind.threshold)
      ensures kind.AnalogKey? ==>
        kb.keys == old(kb.keys) + if pressed != old(pressed) then [KeyEvent(kind.key, pressed)] else []
      ensures pressed == React(kind, old(pressed), value).0
      ensures kb.keys == old(kb.keys) + React(kind, old(pressed), value).1
    {
      if kind.AnalogKey? {
        if value >= kind.threshold && !pressed {
          pressed := true;
          kb.keys := kb.keys + [KeyEvent(kind.key, true)];
        } else if value < kind.threshold && pressed {
          pressed := false;
          kb.keys := kb.keys + [KeyEvent(kind.key, false)];
        }
      }
    }
  }
}
