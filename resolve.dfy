/**
 * Boot-time resolution of the analog input module's keymap: turning each
 * configured cell (`KC.NO`, `KC.TRNS`, a bare key or a handler object) into
 * a handler, choosing each handler's filter, deciding how many layers load,
 * and reordering the inputs.
 */
module Resolve {

  import opened Wrappers
  import opened Filters
  import opened Handlers

  /** A configured keymap cell. */
  datatype Entry =
    | NoKey                   // KC.NO
    | Transparent             // KC.TRANSPARENT / KC.TRNS
    | KeyCode(code: nat)      // any other key (it has `on_press`)
    | Object(handler: Handler) // a handler object, passed through

  /**
   * `h` is what cell `c` of layer `layer` resolves to, given the resolved
   * row `below` of the layer underneath.
   */
  ghost predicate CellResolved(layers: seq<seq<Entry>>, layer: nat, c: nat, below: seq<Handler>, h: Handler)
    requires layer < |layers| && c < |layers[layer]|
  {
    match layers[layer][c]
    case NoKey => h.kind == HandlerKind.NoOp && h.filter == None
    case Transparent => layer > 0 && c < |below| && h == below[c]
    case KeyCode(k) => h.kind == AnalogKey(k, DEFAULT_THRESHOLD) && h.filter == Some(DEFAULT_FILTER)
    case Object(o) => h == o
  }

  /** Every loaded row resolves its configured row, each layer on top of the one below. */
  ghost predicate ResolvedMap(layers: seq<seq<Entry>>, evtmap: seq<seq<Handler>>)
  {
    |evtmap| <= |layers| &&
    forall l :: 0 <= l < |evtmap| ==>
      |evtmap[l]| == |layers[l]| &&
      forall c :: 0 <= c < |evtmap[l]| ==>
        CellResolved(layers, l, c, Below(evtmap, l), evtmap[l][c])
  }

  /** Appending a row resolved on top of the last loaded one keeps the map resolved. */
  lemma ResolvedMapSnoc(layers: seq<seq<Entry>>, evtmap: seq<seq<Handler>>, row: seq<Handler>)
    requires ResolvedMap(layers, evtmap) && |evtmap| < |layers|
    requires |row| == |layers[|evtmap|]|
    requires forall c :: 0 <= c < |row| ==> CellResolved(layers, |evtmap|, c, Below(evtmap, |evtmap|), row[c])
    ensures ResolvedMap(layers, evtmap + [row])
  {
    var m := evtmap + [row];
    forall l | 0 <= l < |m|
      ensures |m[l]| == |layers[l]|
      ensures forall c :: 0 <= c < |m[l]| ==> CellResolved(layers, l, c, Below(m, l), m[l][c])
    {
      if l < |evtmap| {
        assert m[l] == evtmap[l];
        assert Below(m, l) == Below(evtmap, l);
      } else {
        assert m[l] == row;
        assert Below(m, l) == Below(evtmap, l);
      }
    }
  }

  /** The handlers of `row` in the cells where `cells` names a bare key. */
  ghost function KeyCells(cells: seq<Entry>, row: seq<Handler>): set<Handler>
  {
    set c | 0 <= c < |row| && c < |cells| && cells[c].KeyCode? :: row[c]
  }

  /** Every handler of `evtmap` resolved from a bare key is in `created`. */
  ghost predicate KeysIn(layers: seq<seq<Entry>>, evtmap: seq<seq<Handler>>, created: set<Handler>)
  {
    forall l, c :: 0 <= l < |evtmap| && l < |layers| && 0 <= c < |evtmap[l]| && c < |layers[l]| && layers[l][c].KeyCode? ==>
      evtmap[l][c] in created
  }

  lemma KeysInSnoc(layers: seq<seq<Entry>>, evtmap: seq<seq<Handler>>, created: set<Handler>, row: seq<Handler>)
    requires KeysIn(layers, evtmap, created) && |evtmap| < |layers|
    ensures KeysIn(layers, evtmap + [row], created + KeyCells(layers[|evtmap|], row))
  {
    var m := evtmap + [row];
    var keys := KeyCells(layers[|evtmap|], row);
    forall l, c | 0 <= l < |m| && l < |layers| && 0 <= c < |m[l]| && c < |layers[l]| && layers[l][c].KeyCode?
      ensures m[l][c] in created + keys
    {
      if l < |evtmap| {
        assert m[l] == evtmap[l];
      } else {
        assert m[l][c] == row[c] && row[c] in keys;
      }
    }
  }

  /** Bare-key cells `c` and `d` of a row hold different handlers when `c != d`. */
  ghost predicate RowKeysDistinct(cells: seq<Entry>, row: seq<Handler>)
  {
    forall c, d :: 0 <= c < d < |row| && d < |cells| && cells[c].KeyCode? && cells[d].KeyCode? ==>
      row[c] != row[d]
  }

  /**
   * No two bare-key cells of the loaded layers share a handler: each one
   * got its own `AnalogKey`, on the same layer or on different ones.
   */
  ghost predicate KeysDistinct(layers: seq<seq<Entry>>, evtmap: seq<seq<Handler>>)
  {
    forall l1, c1, l2, c2 ::
      0 <= l1 < |evtmap| && l1 < |layers| && 0 <= c1 < |evtmap[l1]| && c1 < |layers[l1]| && layers[l1][c1].KeyCode? &&
      0 <= l2 < |evtmap| && l2 < |layers| && 0 <= c2 < |evtmap[l2]| && c2 < |layers[l2]| && layers[l2][c2].KeyCode? &&
      (l1 != l2 || c1 != c2) ==>
        evtmap[l1][c1] != evtmap[l2][c2]
  }

  /**
   * A row whose key handlers are pairwise distinct and new to every key
   * handler already loaded keeps the loaded key handlers distinct.
   */
  lemma KeysDistinctSnoc(layers: seq<seq<Entry>>, evtmap: seq<seq<Handler>>, created: set<Handler>, row: seq<Handler>)
    requires KeysDistinct(layers, evtmap) && KeysIn(layers, evtmap, created) && |evtmap| < |layers|
    requires RowKeysDistinct(layers[|evtmap|], row)
    requires forall c :: 0 <= c < |row| && c < |layers[|evtmap|]| && layers[|evtmap|][c].KeyCode? ==> row[c] !in created
    ensures KeysDistinct(layers, evtmap + [row])
  {
    var m := evtmap + [row];
    var n := |evtmap|;
    forall l1, c1, l2, c2 |
      0 <= l1 < |m| && l1 < |layers| && 0 <= c1 < |m[l1]| && c1 < |layers[l1]| && layers[l1][c1].KeyCode? &&
      0 <= l2 < |m| && l2 < |layers| && 0 <= c2 < |m[l2]| && c2 < |layers[l2]| && layers[l2][c2].KeyCode? &&
      (l1 != l2 || c1 != c2)
      ensures m[l1][c1] != m[l2][c2]
    {
      if l1 < n && l2 < n {
        assert m[l1][c1] == evtmap[l1][c1] && m[l2][c2] == evtmap[l2][c2];
      } else if l1 < n {
        assert m[l1][c1] == evtmap[l1][c1] && evtmap[l1][c1] in created;
        assert m[l2][c2] == row[c2] && row[c2] !in created;
      } else if l2 < n {
        assert m[l2][c2] == evtmap[l2][c2] && evtmap[l2][c2] in created;
        assert m[l1][c1] == row[c1] && row[c1] !in created;
      } else if c1 < c2 {
        assert m[l1][c1] == row[c1] && m[l2][c2] == row[c2];
      } else {
        assert m[l1][c1] == row[c1] && m[l2][c2] == row[c2];
      }
    }
  }

  /** The resolved row underneath layer `l` (none under the base layer). */
  function Below(evtmap: seq<seq<Handler>>, l: nat): seq<Handler>
    requires l <= |evtmap|
  {
    if l > 0 then evtmap[l - 1] else []
  }

  /**
   * `convert_KC_keys` for layer `layer`, given the rows already resolved
   * beneath it.  A transparent cell on the base layer has nothing to
   * inherit, and the row cannot be resolved.
   */
  method ConvertRow(layers: seq<seq<Entry>>, layer: nat, resolved: seq<seq<Handler>>) returns (row: Option<seq<Handler>>)
    requires layer < |layers| && |resolved| == layer
    requires layer > 0 ==> |resolved[layer - 1]| == |layers[layer]|
    ensures row.None? <==> layer == 0 && Transparent in layers[0]
    ensures row.Some? ==> |row.value| == |layers[layer]|
    ensures row.Some? ==> forall c :: 0 <= c < |row.value| ==>
      CellResolved(layers, layer, c, Below(resolved, layer), row.value[c])
    ensures row.Some? ==> forall c :: 0 <= c < |row.value| && layers[layer][c].KeyCode? ==>
      fresh(row.value[c]) && !row.value[c].pressed
    ensures row.Some? ==> RowKeysDistinct(layers[layer], row.value)
  {
    var cells := layers[layer];
    var below := Below(resolved, layer);
    var out: seq<Handler> := [];
    var c := 0;
    while c < |cells|
      invariant 0 <= c <= |cells| && |out| == c
      invariant forall j :: 0 <= j < c ==> CellResolved(layers, layer, j, below, out[j])
      invariant forall j :: 0 <= j < c && cells[j].KeyCode? ==> fresh(out[j]) && !out[j].pressed
      invariant RowKeysDistinct(cells, out)
      invariant layer == 0 ==> Transparent !in cells[..c]
    {
      var h: Handler;
      if cells[c].NoKey? {
        h := new Handler.NoOp();
      } else if cells[c].Transparent? {
        if layer == 0 {
          assert Transparent in layers[0];
          return None;
        }
        h := below[c];
      } else if cells[c].KeyCode? {
        h := new Handler.Key(cells[c].code);
      } else {
        h := cells[c].handler;
      }
      assert cells[..c + 1] == cells[..c] + [cells[c]];
      out := out + [h];
      c := c + 1;
    }
    assert cells[..c] == cells;
    row := Some(out);
  }

  /** The filter the scan uses for handler `h`: its own, or the default. */
  function HandlerFilter(h: Handler): Filter
  {
    match h.filter
    case Some(f) => f
    case None => DEFAULT_FILTER
  }

  /** `build_filter_layer`: one filter per handler of a resolved row. */
  method BuildFilterLayer(row: seq<Handler>) returns (filters: seq<Filter>)
    ensures |filters| == |row|
    ensures forall i :: 0 <= i < |row| ==>
      (row[i].filter.Some? ==> filters[i] == row[i].filter.value) &&
      (row[i].filter.None? ==> filters[i] == DEFAULT_FILTER)
  {
    filters := [];
    var i := 0;
    while i < |row|
      invariant 0 <= i <= |row| && |filters| == i
      invariant forall j :: 0 <= j < i ==> filters[j] == HandlerFilter(row[j])
    {
      if row[i].filter.Some? {
        filters := filters + [row[i].filter.value];
      } else {
        filters := filters + [DEFAULT_FILTER];
      }
      i := i + 1;
    }
  }

  /** Every filter a key handler resolved from a bare key gets is the default one. */
  lemma KeyCellsUseDefaultFilter(layers: seq<seq<Entry>>, layer: nat, c: nat, below: seq<Handler>, h: Handler)
    requires layer < |layers| && c < |layers[layer]|
    requires CellResolved(layers, layer, c, below, h)
    requires layers[layer][c].KeyCode? || layers[layer][c].NoKey?
    ensures HandlerFilter(h) == DEFAULT_FILTER
  {
  }

  /** Layer `l` can be loaded: one cell per input, and no transparent cell on the base layer. */
  predicate Loadable(layers: seq<seq<Entry>>, n: nat, l: nat)
    requires l < |layers|
  {
    |layers[l]| == n && (l == 0 ==> Transparent !in layers[0])
  }

  /**
   * The number of layers that load: resolution goes up from layer `from`
   * and stops at the first layer that cannot be loaded.
   */
  function LoadableFrom(layers: seq<seq<Entry>>, n: nat, from: nat): (k: nat)
    requires from <= |layers|
    ensures from <= k <= |layers|
    ensures forall l :: from <= l < k ==> Loadable(layers, n, l)
    ensures k < |layers| ==> !Loadable(layers, n, k)
    decreases |layers| - from
  {
    if from < |layers| && Loadable(layers, n, from) then LoadableFrom(layers, n, from + 1) else from
  }

  function LoadableCount(layers: seq<seq<Entry>>, n: nat): (k: nat)
    ensures k <= |layers|
    ensures forall l :: 0 <= l < k ==> Loadable(layers, n, l)
    ensures k < |layers| ==> !Loadable(layers, n, k)
  {
    LoadableFrom(layers, n, 0)
  }

  /**
   * The layer whose configured cell `c` a transparent cell on `layer`
   * inherits: the nearest layer at or below it whose cell is not transparent
   * (layer 0 when there is none).
   */
  function Origin(layers: seq<seq<Entry>>, layer: nat, c: nat): (o: nat)
    requires layer < |layers| && forall l :: 0 <= l <= layer ==> c < |layers[l]|
    ensures o <= layer
    ensures o > 0 ==> layers[o][c] != Transparent
    ensures forall l :: o < l <= layer ==> layers[l][c] == Transparent
  {
    if layer > 0 && layers[layer][c] == Transparent then Origin(layers, layer - 1, c) else layer
  }

  /**
   * A loaded cell holds the very handler of the nearest layer below whose
   * configured cell is concrete, which is itself not transparent; so the
   * result does not depend on how the transparent layers between were resolved.
   */
  lemma {:induction false} TransparentInheritsNearest(layers: seq<seq<Entry>>, evtmap: seq<seq<Handler>>, layer: nat, c: nat)
    requires ResolvedMap(layers, evtmap)
    requires layer < |evtmap| && c < |evtmap[layer]|
    requires forall l :: 0 <= l < |evtmap| ==> |evtmap[l]| == |evtmap[layer]|
    ensures layers[Origin(layers, layer, c)][c] != Transparent
    ensures evtmap[layer][c] == evtmap[Origin(layers, layer, c)][c]
  {
    assert CellResolved(layers, layer, c, Below(evtmap, layer), evtmap[layer][c]);
    if layer > 0 && layers[layer][c] == Transparent {
      TransparentInheritsNearest(layers, evtmap, layer - 1, c);
    }
  }

  /** The reordering of the inputs: position `i` takes input `order[i]`. */
  method Reorder<T>(inputs: seq<T>, order: seq<nat>) returns (r: seq<T>)
    requires forall i :: 0 <= i < |order| ==> order[i] < |inputs|
    ensures |r| == |order|
    ensures forall i :: 0 <= i < |order| ==> r[i] == inputs[order[i]]
  {
    r := [];
    var i := 0;
    while i < |order|
      invariant 0 <= i <= |order| && |r| == i
      invariant forall j :: 0 <= j < i ==> r[j] == inputs[order[j]]
    {
      r := r + [inputs[order[i]]];
      i := i + 1;
    }
  }

  /** Reordering by `order` and then by its inverse gives the inputs back. */
  lemma ReorderUndone<T>(inputs: seq<T>, order: seq<nat>, inverse: seq<nat>, r: seq<T>, back: seq<T>)
    requires forall i :: 0 <= i < |order| ==> order[i] < |inputs|
    requires |inverse| == |inputs| && forall j :: 0 <= j < |inverse| ==> inverse[j] < |order| && order[inverse[j]] == j
    requires |r| == |order| && forall i :: 0 <= i < |order| ==> r[i] == inputs[order[i]]
    requires |back| == |inverse| && forall j :: 0 <= j < |inverse| ==> back[j] == r[inverse[j]]
    ensures back == inputs
  {
  }
}
