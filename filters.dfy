/**
 * The filter engine of the analog input module: the default quantising
 * filter (a right shift of the raw sample) and polarity inversion, which
 * reflects a filter's output around the value it takes at the largest raw
 * sample.  Filters are data rather than closures, so an inverted filter
 * carries the maximum it captured when it was built.
 */
module Filters {

  /** The largest raw sample of an analog channel (16-bit ADC reading). */
  const MAX_RAW: int := 65535

  /** The quantisation shift of the default filter. */
  const DEFAULT_SHIFT: nat := 8

  function Pow2(k: nat): (r: nat)
    ensures r >= 1
  {
    if k == 0 then 1 else 2 * Pow2(k - 1)
  }

  /** Python's `x >> k` on an unbounded integer: `k` floor-halvings. */
  function Shr(x: int, k: nat): int
  {
    if k == 0 then x else Shr(x, k - 1) / 2
  }

  /** Python's `~x` on an unbounded integer. */
  function BitNot(x: int): int
  {
    -x - 1
  }

  /**
   * A filter: either the quantising shift, or an inverted filter that
   * remembers the maximum (`filter_max`) it captured from its base.
   */
  datatype Filter =
    | Shift(offset: nat)
    | Inverted(base: Filter, max: int)

  /** `DEFAULT_FILTER`, with its shift fixed. */
  const DEFAULT_FILTER: Filter := Shift(DEFAULT_SHIFT)

  function Apply(f: Filter, v: int): int
  {
    match f
    case Shift(k) => Shr(v, k)
    case Inverted(b, m) => BitNot(Apply(b, v)) + m
  }

  /** `filter(65535)`: the value the inversion code captures as `filter_max`. */
  function FilterMax(f: Filter): int
  {
    Apply(f, MAX_RAW)
  }

  /** The inversion of `f` as the inversion loops build it. */
  function Invert(f: Filter): (r: Filter)
    ensures WellFormed(f) ==> WellFormed(r)
    ensures forall v :: Apply(r, v) + Apply(f, v) == FilterMax(f) - 1
  {
    Inverted(f, FilterMax(f))
  }

  /** Every inverted layer holds the maximum of its base. */
  ghost predicate WellFormed(f: Filter)
  {
    match f
    case Shift(_) => true
    case Inverted(b, m) => m == FilterMax(b) && WellFormed(b)
  }

  ghost predicate Monotone(f: Filter)
  {
    forall x, y :: x <= y ==> Apply(f, x) <= Apply(f, y)
  }

  ghost predicate Antitone(f: Filter)
  {
    forall x, y :: x <= y ==> Apply(f, x) >= Apply(f, y)
  }

  function Inversions(f: Filter): nat
  {
    match f
    case Shift(_) => 0
    case Inverted(b, _) => 1 + Inversions(b)
  }

  // ---------------------------------------------------------------------
  // The default filter

  /** Euclidean division by a positive divisor is determined by its remainder. */
  lemma DivUnique(x: int, d: int, q: int, r: int)
    requires d > 0 && 0 <= r < d && x == q * d + r
    ensures x / d == q
  {
    var q' := x / d;
    var r' := x % d;
    assert x == q' * d + r';
    if q' < q {
      assert (q - q') * d >= d by { MulAtLeast(q - q', d); }
      assert false;
    } else if q' > q {
      assert (q' - q) * d >= d by { MulAtLeast(q' - q, d); }
      assert false;
    }
  }

  lemma MulAtLeast(a: int, d: int)
    requires a >= 1 && d > 0
    ensures a * d >= d
  {
  }

  lemma DivDiv(x: int, a: int, b: int)
    requires a > 0 && b > 0
    ensures (x / a) / b == x / (a * b)
  {
    var q1, r1 := x / a, x % a;
    var q2, r2 := q1 / b, q1 % b;
    MulLe(r2, b - 1, a);
    Regroup(q2, r2, r1, a, b);
    DivUnique(x, a * b, q2, r2 * a + r1);
  }

  /** Putting `q * b + r` back together after a division by `a`. */
  lemma Regroup(q: int, r: int, r1: int, a: int, b: int)
    ensures (q * b + r) * a + r1 == q * (a * b) + (r * a + r1)
    ensures (b - 1) * a + a == a * b
  {
    assert (q * b + r) * a == q * b * a + r * a;
    assert q * b * a == q * (a * b);
  }

  lemma MulLe(x: int, y: int, a: int)
    requires 0 <= x <= y && a > 0
    ensures x * a <= y * a
  {
  }

  /** `x >> k` is floor division by `2^k`, for every integer `x`. */
  lemma {:induction false} ShrIsFloorDiv(x: int, k: nat)
    ensures Shr(x, k) == x / Pow2(k)
  {
    if k > 0 {
      ShrIsFloorDiv(x, k - 1);
      DivDiv(x, Pow2(k - 1), 2);
    }
  }

  lemma {:induction false} ShrMonotone(x: int, y: int, k: nat)
    requires x <= y
    ensures Shr(x, k) <= Shr(y, k)
  {
    if k > 0 {
      ShrMonotone(x, y, k - 1);
    }
  }

  /** On a non-negative sample the shift never grows the value or makes it negative. */
  lemma {:induction false} ShrShrinks(x: int, k: nat)
    requires 0 <= x
    ensures 0 <= Shr(x, k) <= x
  {
    if k > 0 {
      ShrShrinks(x, k - 1);
    }
  }

  /** The default filter maps the raw range 0..65535 onto 0..255. */
  lemma DefaultFilterRange(v: int)
    requires 0 <= v <= MAX_RAW
    ensures Apply(DEFAULT_FILTER, v) == v / 256
    ensures 0 <= Apply(DEFAULT_FILTER, v) <= 255
    ensures Apply(DEFAULT_FILTER, v) <= v
  {
    ShrIsFloorDiv(v, DEFAULT_SHIFT);
    assert Pow2(DEFAULT_SHIFT) == 256;
    ShrShrinks(v, DEFAULT_SHIFT);
    ShrMonotone(v, MAX_RAW, DEFAULT_SHIFT);
  }

  // ---------------------------------------------------------------------
  // Inversion

  /** The captured maximum makes `inv(v) + f(v)` the same for every sample. */
  lemma InvertedComplement(f: Filter, v: int)
    requires WellFormed(f) && f.Inverted?
    ensures Apply(f, v) + Apply(f.base, v) == FilterMax(f.base) - 1
  {
  }

  /**
   * With no `+1` on the captured maximum, inverting the default filter
   * gives 254 at rest and -1 at the full sample, not 255 and 0.
   */
  lemma InvertedDefaultRange(v: int)
    requires 0 <= v <= MAX_RAW
    ensures -1 <= Apply(Invert(DEFAULT_FILTER), v) <= 254
    ensures Apply(Invert(DEFAULT_FILTER), 0) == 254
    ensures Apply(Invert(DEFAULT_FILTER), MAX_RAW) == -1
  {
    DefaultFilterRange(v);
    DefaultFilterRange(0);
    DefaultFilterRange(MAX_RAW);
  }

  /** Inversion reverses the direction of a filter. */
  lemma InvertFlipsDirection(f: Filter, m: int)
    ensures Monotone(f) ==> Antitone(Inverted(f, m))
    ensures Antitone(f) ==> Monotone(Inverted(f, m))
  {
  }

  /**
   * Every filter is monotone or antitone: monotone after an even number of
   * inversions of a shift, antitone after an odd number.
   */
  lemma {:induction false} FilterDirection(f: Filter)
    ensures Inversions(f) % 2 == 0 ==> Monotone(f)
    ensures Inversions(f) % 2 == 1 ==> Antitone(f)
  {
    match f
    case Shift(k) =>
      forall x, y | x <= y ensures Apply(f, x) <= Apply(f, y) {
        ShrMonotone(x, y, k);
      }
    case Inverted(b, m) =>
      FilterDirection(b);
      InvertFlipsDirection(b, m);
  }

  // ---------------------------------------------------------------------
  // Inversion of a row of filters

  /** The invert setting of one layer: one flag for the row, or one per channel. */
  datatype LayerInvert =
    | LayerAll(invert: bool)
    | PerChannel(flags: seq<bool>)

  /** The configured invert map: one flag for every layer, or one setting per layer. */
  datatype InvertSpec =
    | Uniform(invert: bool)
    | PerLayer(layers: seq<LayerInvert>)

  /** `r` is `filters` with every filter inverted when `invert` holds, and `filters` itself otherwise. */
  ghost predicate Fills(invert: bool, filters: seq<Filter>, r: seq<Filter>)
  {
    |r| == |filters| &&
    forall i :: 0 <= i < |r| ==> r[i] == if invert then Invert(filters[i]) else filters[i]
  }

  /** `r` inverts exactly the positions whose flag is set, one entry per flag. */
  ghost predicate Picks(flags: seq<bool>, filters: seq<Filter>, r: seq<Filter>)
    requires |flags| <= |filters|
  {
    |r| == |flags| &&
    forall i :: 0 <= i < |r| ==> r[i] == if flags[i] then Invert(filters[i]) else filters[i]
  }

  /** What the invert map does to the filter row of layer `layer`. */
  ghost predicate InvertsAs(spec: InvertSpec, layer: nat, filters: seq<Filter>, r: seq<Filter>)
    requires Indexable(spec, layer, |filters|)
  {
    match spec
    case Uniform(b) => Fills(b, filters, r)
    case PerLayer(ls) =>
      match ls[layer]
      case LayerAll(b) => Fills(b, filters, r)
      case PerChannel(flags) => Picks(flags, filters, r)
  }

  /** The invert map has an entry for `layer` and none of its flags lies past the row. */
  predicate Indexable(spec: InvertSpec, layer: nat, width: nat)
  {
    spec.PerLayer? ==>
      layer < |spec.layers| &&
      (spec.layers[layer].PerChannel? ==> |spec.layers[layer].flags| <= width)
  }

  /** `invert_bool_fill`: invert the whole row, or hand it back unchanged. */
  method InvertBoolFill(invert: bool, filters: seq<Filter>) returns (r: seq<Filter>)
    ensures Fills(invert, filters, r)
    ensures !invert ==> r == filters
  {
    if invert {
      r := [];
      var i := 0;
      while i < |filters|
        invariant 0 <= i <= |filters|
        invariant Fills(true, filters[..i], r)
      {
        var filterMax := Apply(filters[i], MAX_RAW);
        r := r + [Inverted(filters[i], filterMax)];
        i := i + 1;
      }
    } else {
      r := filters;
    }
  }

  /** `invert_filters`: apply the invert map's setting for `layer` to its filter row. */
  method InvertFilters(spec: InvertSpec, filters: seq<Filter>, layer: nat) returns (r: seq<Filter>)
    requires Indexable(spec, layer, |filters|)
    ensures InvertsAs(spec, layer, filters, r)
  {
    match spec
    case Uniform(b) =>
      r := InvertBoolFill(b, filters);
    case PerLayer(ls) =>
      match ls[layer]
      case LayerAll(b) =>
        r := InvertBoolFill(b, filters);
      case PerChannel(flags) =>
        r := [];
        var i := 0;
        while i < |flags|
          invariant 0 <= i <= |flags|
          invariant Picks(flags[..i], filters, r)
        {
          if flags[i] {
            var filterMax := Apply(filters[i], MAX_RAW);
            r := r + [Inverted(filters[i], filterMax)];
          } else {
            r := r + [filters[i]];
          }
          i := i + 1;
        }
  }

  /**
   * Inverting a well-formed row: each output filter is well formed, and where
   * it was inverted, its output and its base's sum to the base's maximum less one.
   */
  lemma {:induction false} InvertedRowComplement(spec: InvertSpec, layer: nat, filters: seq<Filter>, r: seq<Filter>, i: nat, v: int)
    requires Indexable(spec, layer, |filters|)
    requires InvertsAs(spec, layer, filters, r)
    requires forall j :: 0 <= j < |filters| ==> WellFormed(filters[j])
    requires i < |r|
    ensures WellFormed(r[i])
    ensures r[i] != filters[i] ==> Apply(r[i], v) + Apply(filters[i], v) == FilterMax(filters[i]) - 1
  {
    assert r[i] == filters[i] || r[i] == Invert(filters[i]);
  }
}
