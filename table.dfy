/** ecu/table.h: calibration tables. An interpolated axis is an array of
    f32 sites that must rise strictly; the search stops at the first site
    whose slope to the next is not positive, which is how tuning software
    marks the remaining sites unused, and an axis without a valid segment
    returns its first site. A table body is `data[size_z][size_y][size_x]`,
    so x varies fastest. Interpolation stores the lowest site used and the
    ratio past it in `axis_f32_state.position`, and the cached accessors
    read that store back. Sites and ratios are modelled as `real`. */
module Table {
  import opened Int32

  /** The axis flags, declared for reference: their effect is not stated in
      the headers, and nothing in this model reads them. */
  const AXIS_F32_FLAG_MANDATORY: bv32 := 0x01
  const AXIS_F32_FLAG_EXTRAPOLATE_MIN: bv32 := 0x02
  const AXIS_F32_FLAG_EXTRAPOLATE_MAX: bv32 := 0x04
  const AXIS_F32_FLAG_EXTRAPOLATE_BOTH: bv32 := AXIS_F32_FLAG_EXTRAPOLATE_MIN | AXIS_F32_FLAG_EXTRAPOLATE_MAX

  /** CHECK_AXIS_F32_CFG: an interpolated axis has at least two sites. */
  predicate AxisCfgChecked(num: int)
  {
    num >= 2
  }

  /** An axis as configured: `num` is a u32 and passed the check. */
  predicate ValidAxis(axis: seq<real>)
  {
    |axis| < TWO_32 && AxisCfgChecked(|axis|)
  }

  /** CHECK_LOOKUP_S32_CFG: a lookup axis has at least one site and its
      first site is not above 0. */
  predicate LookupCfgChecked(num: u32, min: s32)
  {
    num >= 1 && min <= 0
  }

  /** The sites `0..last` rise strictly. */
  predicate RisesTo(axis: seq<real>, last: nat)
  {
    last < |axis| && forall j :: 0 <= j < last ==> axis[j] < axis[j + 1]
  }

  /** The search of the axis from site `k` on. */
  function LastFrom(axis: seq<real>, k: nat): (last: nat)
    requires RisesTo(axis, k)
    ensures k <= last && RisesTo(axis, last)
    ensures last + 1 == |axis| || axis[last + 1] <= axis[last]
    decreases |axis| - k
  {
    if k + 1 < |axis| && axis[k] < axis[k + 1] then LastFrom(axis, k + 1) else k
  }

  /** axis_index_last_f32: the last site before the search is truncated at
      a slope that is not positive. */
  function IndexLast(axis: seq<real>): (last: nat)
    requires |axis| >= 1
    ensures RisesTo(axis, last)
    ensures last + 1 == |axis| || axis[last + 1] <= axis[last]
  {
    LastFrom(axis, 0)
  }

  /** Every site up to the last used one lies strictly above the earlier
      ones. */
  lemma {:induction false} Rising(axis: seq<real>, last: nat, i: nat, j: nat)
    requires RisesTo(axis, last) && i < j <= last
    ensures axis[i] < axis[j]
    decreases j - i
  {
    if j > i + 1 {
      Rising(axis, last, i, j - 1);
    }
  }

  /** The sites past the first slope that is not positive are never read:
      an axis that agrees up to and including that site has the same last
      site. */
  lemma {:induction false} TruncatedSitesUnused(axis: seq<real>, other: seq<real>)
    requires |axis| >= 1
    requires IndexLast(axis) + 1 < |axis| <= |other|
    requires other[..IndexLast(axis) + 2] == axis[..IndexLast(axis) + 2]
    ensures IndexLast(other) == IndexLast(axis)
  {
    var last := IndexLast(axis);
    assert forall j :: 0 <= j <= last + 1 ==> other[j] == axis[j] by {
      forall j | 0 <= j <= last + 1
        ensures other[j] == axis[j]
      {
        assert other[..last + 2][j] == axis[..last + 2][j];
      }
    }
    LastFromAgrees(axis, other, 0, last);
  }

  lemma {:induction false} LastFromAgrees(axis: seq<real>, other: seq<real>, k: nat, last: nat)
    requires RisesTo(axis, k) && k <= last && last + 1 < |axis| && last + 1 < |other|
    requires LastFrom(axis, k) == last
    requires forall j :: 0 <= j <= last + 1 ==> other[j] == axis[j]
    ensures RisesTo(other, k) && LastFrom(other, k) == last
    decreases last - k
  {
    if k < last {
      LastFromAgrees(axis, other, k + 1, last);
    }
  }

  /** axis_min_f32 and axis_max_f32: the first site and the last used one.
      A checked axis whose second site rises has a range of positive
      width. */
  function AxisMin(axis: seq<real>): (lo: real)
    requires |axis| >= 1
    ensures lo <= AxisMax(axis)
    ensures IndexLast(axis) > 0 ==> lo < AxisMax(axis)
  {
    if IndexLast(axis) > 0 then Rising(axis, IndexLast(axis), 0, IndexLast(axis)); axis[0]
    else axis[0]
  }

  function AxisMax(axis: seq<real>): (hi: real)
    requires |axis| >= 1
    ensures hi in axis
    ensures forall j :: 0 <= j <= IndexLast(axis) ==> axis[j] <= hi
  {
    RisingToLast(axis, IndexLast(axis));
    axis[IndexLast(axis)]
  }

  /** On a strictly rising prefix the last site is the largest. */
  lemma RisingToLast(axis: seq<real>, last: nat)
    requires RisesTo(axis, last)
    ensures forall j :: 0 <= j <= last ==> axis[j] <= axis[last]
  {
    forall j | 0 <= j < last
      ensures axis[j] < axis[last]
    {
      Rising(axis, last, j, last);
    }
  }

  /** What CHECK_AXIS_F32_CFG buys: on every checked axis, for every `x`,
      the interpolation reads two sites that both exist. */
  lemma CheckedAxisBrackets(axis: seq<real>, x: real)
    requires ValidAxis(axis)
    ensures AxisPosition(axis, x).index as int + 1 < |axis|
  {
    if IndexLast(axis) > 0 {
      assert RisesTo(axis, IndexLast(axis));
    }
  }

  /** The lowest site used for `x` and the position past it, in units of
      that segment's width. */
  datatype Position = Position(index: u32, ratio: real)

  /** The highest site `i <= k` at or below `x`, else site 0. */
  function Segment(axis: seq<real>, x: real, k: nat): (i: nat)
    requires k < |axis|
    ensures i <= k
    ensures i == 0 || axis[i] <= x
    ensures forall j :: i < j <= k ==> axis[j] > x
    decreases k
  {
    if k == 0 || axis[k] <= x then k else Segment(axis, x, k - 1)
  }

  /** axis_position_f32 and axis_index_f32 over the sites in use: with no
      valid segment, site 0 and ratio 0; otherwise the segment holding `x`,
      the first one below the axis and the last one above it. */
  function AxisPosition(axis: seq<real>, x: real): (p: Position)
    requires ValidAxis(axis)
    ensures p.index as int < |axis| && (IndexLast(axis) == 0 ==> p == Position(0, 0.0))
    ensures IndexLast(axis) > 0 ==> p.index < IndexLast(axis)
  {
    var last := IndexLast(axis);
    if last == 0 then Position(0, 0.0)
    else
      var i := Segment(axis, x, last - 1);
      Position(i, (x - axis[i]) / (axis[i + 1] - axis[i]))
  }

  /** The position's meaning: the ratio rebuilds `x` from the two sites
      that bracket it, is below 0 below the first site, above 1 above the
      last used site, and within [0, 1] in between. */
  lemma {:induction false} PositionMeaning(axis: seq<real>, x: real)
    requires ValidAxis(axis) && IndexLast(axis) > 0
    ensures var p := AxisPosition(axis, x);
            axis[p.index] + p.ratio * (axis[p.index + 1] - axis[p.index]) == x
    ensures x < AxisMin(axis) ==> AxisPosition(axis, x) == Position(0, AxisPosition(axis, x).ratio) && AxisPosition(axis, x).ratio < 0.0
    ensures x > AxisMax(axis) ==> AxisPosition(axis, x).index as int == IndexLast(axis) - 1 && AxisPosition(axis, x).ratio > 1.0
    ensures AxisMin(axis) <= x <= AxisMax(axis) ==> 0.0 <= AxisPosition(axis, x).ratio <= 1.0
  {
    var last := IndexLast(axis);
    var p := AxisPosition(axis, x);
    var i := p.index as int;
    var a, b := axis[i], axis[i + 1];
    assert a < b;
    Rebuild(a, b, x);
    if x < AxisMin(axis) {
      if i > 0 {
        Rising(axis, last, 0, i);
      }
      RatioBelow(a, b, x);
    }
    if x > AxisMax(axis) {
      assert axis[last - 1] < axis[last];
      RatioAbove(a, b, x);
    }
    if AxisMin(axis) <= x <= AxisMax(axis) {
      if i + 1 < last {
        assert axis[i + 1] > x;
      }
      RatioInside(a, b, x);
    }
  }

  lemma Rebuild(a: real, b: real, x: real)
    requires a < b
    ensures a + ((x - a) / (b - a)) * (b - a) == x
  {
  }

  lemma RatioAtEnds(a: real, b: real)
    requires a < b
    ensures (a - a) / (b - a) == 0.0
    ensures (b - a) / (b - a) == 1.0
  {
  }

  lemma RatioBelow(a: real, b: real, x: real)
    requires x < a < b
    ensures (x - a) / (b - a) < 0.0
  {
    var r := (x - a) / (b - a);
    assert r * (b - a) == x - a;
  }

  lemma RatioAbove(a: real, b: real, x: real)
    requires a < b < x
    ensures (x - a) / (b - a) > 1.0
  {
    var r := (x - a) / (b - a);
    assert r * (b - a) == x - a;
    assert (r - 1.0) * (b - a) == x - b;
    PositiveFactor(r - 1.0, b - a);
  }

  lemma PositiveFactor(u: real, v: real)
    requires v > 0.0
    ensures u * v > 0.0 ==> u > 0.0
    ensures u * v >= 0.0 ==> u >= 0.0
  {
    if u <= 0.0 {
      assert u * v <= 0.0;
    }
    if u < 0.0 {
      assert u * v < 0.0;
    }
  }

  lemma RatioInside(a: real, b: real, x: real)
    requires a < b && a <= x <= b
    ensures 0.0 <= (x - a) / (b - a) <= 1.0
  {
    var r := (x - a) / (b - a);
    assert r * (b - a) == x - a;
    assert (1.0 - r) * (b - a) == b - x;
    PositiveFactor(r, b - a);
    PositiveFactor(1.0 - r, b - a);
  }

  /** One-axis interpolation of `row` over `axis`: the first site's value
      when the axis has no valid segment, otherwise the straight line
      through the bracketing pair, extended past either end. */
  function Interpolate(axis: seq<real>, row: seq<real>, x: real): (v: real)
    requires ValidAxis(axis) && |row| == |axis|
    ensures IndexLast(axis) == 0 ==> v == row[0]
  {
    var p := AxisPosition(axis, x);
    if IndexLast(axis) == 0 then row[0]
    else row[p.index] + p.ratio * (row[p.index + 1] - row[p.index])
  }

  /** Interpolating at a site in use gives that site's value exactly. */
  lemma {:induction false} InterpolateAtSite(axis: seq<real>, row: seq<real>, m: nat)
    requires ValidAxis(axis) && |row| == |axis| && m <= IndexLast(axis)
    ensures Interpolate(axis, row, axis[m]) == row[m]
  {
    var last := IndexLast(axis);
    if last > 0 {
      var x := axis[m];
      if m < last {
        SegmentAtSite(axis, last, m);
        RatioAtEnds(axis[m], axis[m + 1]);
      } else {
        SegmentAtLast(axis, last);
        RatioAtEnds(axis[last - 1], axis[last]);
      }
    }
  }

  /** The search finds every inner site in use at its own index. */
  lemma {:induction false} SegmentAtSite(axis: seq<real>, last: nat, m: nat)
    requires RisesTo(axis, last) && m < last
    ensures Segment(axis, axis[m], last - 1) == m
  {
    var i := Segment(axis, axis[m], last - 1);
    if i > m {
      Rising(axis, last, m, i);
    }
  }

  /** The last site in use is found in the last segment. */
  lemma {:induction false} SegmentAtLast(axis: seq<real>, last: nat)
    requires RisesTo(axis, last) && last > 0
    ensures Segment(axis, axis[last], last - 1) == last - 1
  {
    assert axis[last - 1] < axis[last];
  }

  /** Two tables that share their sites in use and their values there
      interpolate alike, whatever the unused sites hold. */
  lemma {:induction false} InterpolateIgnoresUnused(axis: seq<real>, row: seq<real>, other: seq<real>, x: real)
    requires ValidAxis(axis) && |row| == |axis| && |other| == |axis|
    requires forall j :: 0 <= j <= IndexLast(axis) ==> other[j] == row[j]
    ensures Interpolate(axis, other, x) == Interpolate(axis, row, x)
  {
  }

  /** `&data[0][0][0] + (z * size_y + y) * size_x + x` */
  function Offset(sizeX: nat, sizeY: nat, x: nat, y: nat, z: nat): nat
  {
    (z * sizeY + y) * sizeX + x
  }

  /** The flat layout is one-to-one onto the body: every index triple in
      range lands inside the array, x varies fastest, and two different
      triples never share a cell. */
  lemma {:induction false} OffsetLayout(sizeX: nat, sizeY: nat, sizeZ: nat, x: nat, y: nat, z: nat)
    requires x < sizeX && y < sizeY && z < sizeZ
    ensures Offset(sizeX, sizeY, x, y, z) < sizeX * sizeY * sizeZ
    ensures x + 1 < sizeX ==> Offset(sizeX, sizeY, x + 1, y, z) == Offset(sizeX, sizeY, x, y, z) + 1
  {
    var a := z * sizeY + y;
    BelowProduct(z, sizeZ, sizeY);
    assert a < sizeZ * sizeY;
    BelowProduct(a, sizeZ * sizeY, sizeX);
    ProductOrder(sizeX, sizeY, sizeZ);
  }

  /** `a < p` leaves room for a whole `s` below `p * s`. */
  lemma BelowProduct(a: nat, p: nat, s: nat)
    requires a < p
    ensures a * s + s <= p * s
  {
    MulMonotone(a + 1, p, s);
    assert (a + 1) * s == a * s + s;
  }

  lemma ProductOrder(sizeX: nat, sizeY: nat, sizeZ: nat)
    ensures (sizeZ * sizeY) * sizeX == sizeX * sizeY * sizeZ
  {
  }

  lemma {:induction false} OffsetInjective(sizeX: nat, sizeY: nat, x: nat, y: nat, z: nat, x': nat, y': nat, z': nat)
    requires x < sizeX && y < sizeY && x' < sizeX && y' < sizeY
    requires Offset(sizeX, sizeY, x, y, z) == Offset(sizeX, sizeY, x', y', z')
    ensures x == x' && y == y' && z == z'
  {
    Unmix(z * sizeY + y, x, z' * sizeY + y', x', sizeX);
    Unmix(z, y, z', y', sizeY);
  }

  lemma MulMonotone(a: nat, b: nat, c: nat)
    requires a <= b
    ensures a * c <= b * c
  {
  }

  /** Splitting `a * s + b` with `b < s` back into `a` and `b`. */
  lemma {:induction false} Unmix(a: nat, b: nat, a': nat, b': nat, s: nat)
    requires b < s && b' < s && a * s + b == a' * s + b'
    ensures a == a' && b == b'
  {
    if a < a' {
      MulMonotone(a + 1, a', s);
    } else if a' < a {
      MulMonotone(a' + 1, a, s);
    }
  }

  /** `axis_f32_state`: the position stored by the last interpolation. */
  class AxisState {
    var index: u32
    var ratio: real

    constructor()
      ensures index == 0 && ratio == 0.0
    {
      index := 0;
      ratio := 0.0;
    }

    /** The store into `position` that an interpolation of `x` makes. */
    method Update(axis: seq<real>, x: real)
      requires ValidAxis(axis)
      modifies this
      ensures Position(index, ratio) == AxisPosition(axis, x)
    {
      var p := AxisPosition(axis, x);
      index := p.index;
      ratio := p.ratio;
    }

    /** axis_index_cached_f32: the stored index, not recomputed. */
    method IndexCached() returns (i: u32)
      ensures i == index
    {
      i := index;
    }

    /** axis_position_cached_f32: the stored ratio, not recomputed. */
    method PositionCached() returns (r: real)
      ensures r == ratio
    {
      r := ratio;
    }
  }

  /** axis_index_first_f32: an interpolated axis always starts at site 0,
      the site that AxisMin reads. */
  function IndexFirst(): (i: u32)
    ensures forall axis: seq<real> {:trigger AxisMin(axis)} :: |axis| >= 1 ==> i as int < |axis| && AxisMin(axis) == axis[i]
  {
    0
  }

  /** `axis_s32_state`: the index stored for a lookup axis. */
  class LookupState {
    var index: s32

    constructor()
      ensures index == 0
    {
      index := 0;
    }
  }

  /** A table body, `data[size_z][size_y][size_x]` flattened. */
  class Body {
    const sizeX: nat
    const sizeY: nat
    const sizeZ: nat
    const data: array<real>

    predicate Valid()
      reads this
    {
      data.Length == sizeX * sizeY * sizeZ
    }

    predicate InRange(x: int, y: int, z: int)
      reads this
    {
      0 <= x < sizeX && 0 <= y < sizeY && 0 <= z < sizeZ
    }

    function At(x: nat, y: nat, z: nat): nat
      reads this
    {
      Offset(sizeX, sizeY, x, y, z)
    }

    /** Calibration storage starts at 0. */
    constructor(sizeX: nat, sizeY: nat, sizeZ: nat)
      ensures this.sizeX == sizeX && this.sizeY == sizeY && this.sizeZ == sizeZ
      ensures Valid() && fresh(data)
      ensures forall i :: 0 <= i < data.Length ==> data[i] == 0.0
    {
      this.sizeX := sizeX;
      this.sizeY := sizeY;
      this.sizeZ := sizeZ;
      data := new real[sizeX * sizeY * sizeZ](_ => 0.0);
    }

    /** body_get_Na_f32 */
    method Get(x: u32, y: u32, z: u32) returns (v: real)
      requires Valid() && InRange(x, y, z)
      ensures At(x, y, z) < data.Length && v == data[At(x, y, z)]
    {
      OffsetLayout(sizeX, sizeY, sizeZ, x, y, z);
      v := data[At(x, y, z)];
    }

    /** body_set_Na_f32: exactly the one cell changes. */
    method Set(val: real, x: u32, y: u32, z: u32)
      requires Valid() && InRange(x, y, z)
      modifies data
      ensures At(x, y, z) < data.Length
      ensures data[..] == old(data[..])[At(x, y, z) := val]
    {
      OffsetLayout(sizeX, sizeY, sizeZ, x, y, z);
      data[At(x, y, z)] := val;
    }

    /** body_preset_Na_f32: every cell becomes `val`. */
    method Preset(val: real)
      modifies data
      ensures data[..] == seq(data.Length, _ => val)
    {
      var i := 0;
      while i < data.Length
        invariant 0 <= i <= data.Length
        invariant forall j :: 0 <= j < i ==> data[j] == val
      {
        data[i] := val;
        i := i + 1;
      }
    }

    /** body_get_cached_0a_f32: the lookup indices are s32 and reach
        body_get as u32. */
    method GetCached0(x: LookupState, y: LookupState, z: LookupState) returns (v: real)
      requires Valid() && InRange(Unsigned(x.index), Unsigned(y.index), Unsigned(z.index))
      ensures At(Unsigned(x.index), Unsigned(y.index), Unsigned(z.index)) < data.Length && v == data[At(Unsigned(x.index), Unsigned(y.index), Unsigned(z.index))]
    {
      v := Get(Unsigned(x.index), Unsigned(y.index), Unsigned(z.index));
    }

    /** body_get_cached_1a_f32 */
    method GetCached1(x: AxisState, y: LookupState, z: LookupState) returns (v: real)
      requires Valid() && InRange(x.index, Unsigned(y.index), Unsigned(z.index))
      ensures At(x.index, Unsigned(y.index), Unsigned(z.index)) < data.Length && v == data[At(x.index, Unsigned(y.index), Unsigned(z.index))]
    {
      v := Get(x.index, Unsigned(y.index), Unsigned(z.index));
    }

    /** body_get_cached_2a_f32 */
    method GetCached2(x: AxisState, y: AxisState, z: LookupState) returns (v: real)
      requires Valid() && InRange(x.index, y.index, Unsigned(z.index))
      ensures At(x.index, y.index, Unsigned(z.index)) < data.Length && v == data[At(x.index, y.index, Unsigned(z.index))]
    {
      v := Get(x.index, y.index, Unsigned(z.index));
    }

    /** body_get_cached_3a_f32 */
    method GetCached3(x: AxisState, y: AxisState, z: AxisState) returns (v: real)
      requires Valid() && InRange(x.index, y.index, z.index)
      ensures At(x.index, y.index, z.index) < data.Length && v == data[At(x.index, y.index, z.index)]
    {
      v := Get(x.index, y.index, z.index);
    }

    /** body_set_cached_0a_f32 */
    method SetCached0(x: LookupState, y: LookupState, z: LookupState, val: real)
      requires Valid() && InRange(Unsigned(x.index), Unsigned(y.index), Unsigned(z.index))
      modifies data
      ensures At(Unsigned(x.index), Unsigned(y.index), Unsigned(z.index)) < data.Length
      ensures data[..] == old(data[..])[At(Unsigned(x.index), Unsigned(y.index), Unsigned(z.index)) := val]
    {
      Set(val, Unsigned(x.index), Unsigned(y.index), Unsigned(z.index));
    }

    /** body_set_cached_1a_f32 */
    method SetCached1(x: AxisState, y: LookupState, z: LookupState, val: real)
      requires Valid() && InRange(x.index, Unsigned(y.index), Unsigned(z.index))
      modifies data
      ensures At(x.index, Unsigned(y.index), Unsigned(z.index)) < data.Length
      ensures data[..] == old(data[..])[At(x.index, Unsigned(y.index), Unsigned(z.index)) := val]
    {
      Set(val, x.index, Unsigned(y.index), Unsigned(z.index));
    }

    /** body_set_cached_2a_f32 */
    method SetCached2(x: AxisState, y: AxisState, z: LookupState, val: real)
      requires Valid() && InRange(x.index, y.index, Unsigned(z.index))
      modifies data
      ensures At(x.index, y.index, Unsigned(z.index)) < data.Length
      ensures data[..] == old(data[..])[At(x.index, y.index, Unsigned(z.index)) := val]
    {
      Set(val, x.index, y.index, Unsigned(z.index));
    }

    /** body_set_cached_3a_f32 */
    method SetCached3(x: AxisState, y: AxisState, z: AxisState, val: real)
      requires Valid() && InRange(x.index, y.index, z.index)
      modifies data
      ensures At(x.index, y.index, z.index) < data.Length
      ensures data[..] == old(data[..])[At(x.index, y.index, z.index) := val]
    {
      Set(val, x.index, y.index, z.index);
    }
  }

  /** A set is read back by a get at the same indices and is invisible at
      any other indices. */
  lemma {:induction false} SetThenGet(sizeX: nat, sizeY: nat, sizeZ: nat, before: seq<real>, val: real,
                                       x: nat, y: nat, z: nat, x': nat, y': nat, z': nat)
    requires x < sizeX && y < sizeY && z < sizeZ && x' < sizeX && y' < sizeY && z' < sizeZ
    requires |before| == sizeX * sizeY * sizeZ
    ensures Offset(sizeX, sizeY, x, y, z) < |before| && Offset(sizeX, sizeY, x', y', z') < |before|
    ensures var after := before[Offset(sizeX, sizeY, x, y, z) := val];
            after[Offset(sizeX, sizeY, x', y', z')] ==
              if (x', y', z') == (x, y, z) then val else before[Offset(sizeX, sizeY, x', y', z')]
  {
    OffsetLayout(sizeX, sizeY, sizeZ, x, y, z);
    OffsetLayout(sizeX, sizeY, sizeZ, x', y', z');
    if (x', y', z') != (x, y, z) && Offset(sizeX, sizeY, x', y', z') == Offset(sizeX, sizeY, x, y, z) {
      OffsetInjective(sizeX, sizeY, x, y, z, x', y', z');
    }
  }
}
