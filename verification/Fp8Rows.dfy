/** Row quantisation of kv_fp8.h: per-row and per-group amax scales, and the error they leave. */
module Fp8Rows {
  import opened Wrappers
  import opened Fp8

  // ---------------------------------------------------------------- one value

  lemma RintHalf(t: real)
    ensures Abs(Rint(t) as real - t) <= 0.5
  {
  }

  /** A rounded grid position is off by at most half a grid step. */
  lemma GridError(a: real, t: real, u: real)
    requires u > 0.0 && t * u == a
    ensures Abs(Rint(t) as real * u - a) <= u / 2.0
  {
    var k := Rint(t) as real;
    RintHalf(t);
    MinusTimes(k, t, u);
    AbsScaled(k - t, u, k * u - a);
    ProductOrder(Abs(k - t), 0.5, u, Abs(k * u - a), u / 2.0);
  }

  function Max(a: real, b: real): real { if a < b then b else a }

  /** Relative error 1/16 on normal values, absolute error 2^-10 below them. */
  lemma {:induction false} MagnitudeError(a: real)
    requires 0.0 <= a <= 448.0
    ensures Abs(MagOf(EncodeMagnitude(a)) - a) <= Max(a / 16.0, 1.0 / 1024.0)
  {
    hide MagOf, Rint, Abs, Scaled, ScaledSmall, Unit, NormalCode;
    PowLiterals();
    if a < Pow2(-6) {
      SmallError(a);
    } else {
      NormalError(a, Exponent(a, -5));
    }
  }

  lemma SmallError(a: real)
    requires 0.0 <= a < Pow2(-6)
    ensures 0 <= Rint(ScaledSmall(a)) && Abs(MagOf(Rint(ScaledSmall(a))) - a) <= 1.0 / 1024.0
  {
    hide MagOf, Rint, Abs;
    PowLiterals();
    SubnormalRange(a);
    SmallCode(Rint(ScaledSmall(a)));
    GridError(a, ScaledSmall(a), Unit(1));
  }

  lemma NormalError(a: real, e: int)
    requires -5 <= e <= 9 && Pow2(e - 1) <= a < Pow2(e) && a <= 448.0
    ensures 8 <= Rint(Scaled(a, e)) <= 16
    ensures Abs(MagOf(NormalCode(e, Rint(Scaled(a, e)))) - a) <= a / 16.0
  {
    hide MagOf, Rint, Abs, Scaled, Unit;
    NormalFacts(a, e);
    BinadeError(a, Scaled(a, e), Unit(e + 6), MagOf(NormalCode(e, Rint(Scaled(a, e)))));
  }

  lemma BinadeError(a: real, t: real, u: real, r: real)
    requires u > 0.0 && t * u == a && t >= 8.0 && r == Rint(t) as real * u
    ensures Abs(r - a) <= a / 16.0
  {
    hide Rint, Abs;
    GridError(a, t, u);
    ProductOrder(8.0, t, u, 8.0 * u, a);
  }

  /** The same for signed values, and the largest magnitude is exact. */
  lemma {:induction false} ValueError(y: real)
    requires Abs(y) <= 448.0
    ensures Abs(LutValue(Encode(Num(y))) - y) <= Max(Abs(y) / 16.0, 1.0 / 1024.0)
    ensures Abs(y) == 448.0 ==> LutValue(Encode(Num(y))) == y
  {
    hide MagOf, EncodeMagnitude, Decode;
    var a := Abs(y);
    var code := EncodeMagnitude(a);
    MagnitudeError(a);
    DecodeFields(Encode(Num(y)));
    if a == 448.0 {
      MagnitudeNearest(a, 126);
      MagOfOrder(126);
    }
  }

  // ---------------------------------------------------------------- one row

  /** The amax loop on x[lo..hi]: the largest magnitude, None when it is infinite. A NaN never
      compares greater, so it does not count. */
  function Amax(x: seq<Float>, lo: nat, hi: nat): (r: Option<real>)
    requires lo <= hi <= |x|
    ensures r.None? <==> exists i :: lo <= i < hi && x[i].Inf?
    ensures r.Some? ==> r.value >= 0.0 && forall i :: lo <= i < hi && x[i].Num? ==> Abs(x[i].r) <= r.value
  {
    if lo == hi then Some(0.0)
    else
      var m := Amax(x, lo, hi - 1);
      match x[hi - 1]
      case Num(v) => if m.Some? then Some(Max(m.value, Abs(v))) else None
      case Inf(_) => None
      case NaN => m
  }

  /** The amax the quantiser accepts: above 1e-35 and at most 3.4e38. */
  predicate Scalable(amax: Option<real>) {
    amax.Some? && amax.value > 1.0 / 100000000000000000000000000000000000.0 &&
    amax.value <= 340000000000000000000000000000000000000.0
  }

  /** One element stretched so that amax becomes 448. */
  function Stretched(x: real, amax: real): real
    requires amax > 0.0
  {
    x * (448.0 / amax)
  }

  /** One element quantised against the row's amax; NaN stays NaN and becomes code 0. */
  function Quantised(x: Float, amax: real): Byte
    requires amax > 0.0
  {
    Encode(if x.Num? then Num(Stretched(x.r, amax)) else x)
  }

  /** dst[lo..hi] is x[lo..hi] quantised with one scale. */
  ghost predicate RowCoded(x: seq<Float>, dst: seq<Byte>, lo: nat, hi: nat, scale: real)
    requires lo <= hi <= |x| && hi <= |dst|
  {
    var amax := Amax(x, lo, hi);
    if Scalable(amax) then
      scale == amax.value / 448.0 && forall i :: lo <= i < hi ==> dst[i] == Quantised(x[i], amax.value)
    else
      scale == 1.0 && forall i :: lo <= i < hi ==> dst[i] == 0
  }

  /** coli_kv8_quant_row on x[lo..hi]. */
  method QuantRow(x: seq<Float>, dst: array<Byte>, lo: nat, hi: nat) returns (scale: real)
    requires lo <= hi <= |x| && hi <= dst.Length
    modifies dst
    ensures RowCoded(x, dst[..], lo, hi, scale)
    ensures dst[..lo] == old(dst[..lo]) && dst[hi..] == old(dst[hi..])
  {
    hide Quantised;
    var amax: Option<real> := Some(0.0);
    for i := lo to hi
      invariant amax == Amax(x, lo, i)
    {
      match x[i]
      case Num(v) => if amax.Some? && Abs(v) > amax.value { amax := Some(Abs(v)); }
      case Inf(_) => amax := None;
      case NaN =>
    }
    if !Scalable(amax) {
      forall i | lo <= i < hi { dst[i] := 0; }
      return 1.0;
    }
    for i := lo to hi
      invariant forall k :: lo <= k < i ==> dst[k] == Quantised(x[k], amax.value)
      invariant dst[..lo] == old(dst[..lo]) && dst[hi..] == old(dst[hi..])
    {
      dst[i] := Quantised(x[i], amax.value);
    }
    scale := amax.value / 448.0;
  }

  /** Stretching and scaling back cancel. */
  lemma InverseScale(x: real, amax: real, y: real, s: real)
    requires amax > 0.0 && Abs(x) <= amax && y == Stretched(x, amax) && s == amax / 448.0
    ensures s > 0.0 && y * s == x && Abs(y) * s == Abs(x) && Abs(y) <= 448.0
    ensures Abs(x) == amax ==> Abs(y) == 448.0
  {
    hide Abs;
    var inv := 448.0 / amax;
    Reciprocal(amax, inv, s);
    Associate(x, inv, s);
    AbsScaled(x, inv, y);
    Associate(Abs(x), inv, s);
    TimesLe(Abs(x), amax, inv);
  }

  lemma Reciprocal(amax: real, inv: real, s: real)
    requires amax > 0.0 && inv == 448.0 / amax && s == amax / 448.0
    ensures inv > 0.0 && s > 0.0 && inv * s == 1.0 && amax * inv == 448.0
  {
  }

  lemma Associate(x: real, p: real, q: real)
    ensures x * p * q == x * (p * q)
  {
  }

  /** One dequantised element. */
  function Dequantised(code: Byte, scale: real): real { LutValue(code) * scale }

  /** The error of one element against its own row's scale. */
  ghost predicate ErrorBound(x: real, back: real, amax: real) {
    Abs(back - x) <= Max(Abs(x) / 16.0, amax / 448.0 / 1024.0) && (Abs(x) == amax ==> back == x)
  }

  /** Quantising and dequantising one element in exact arithmetic. */
  lemma {:induction false} ElementError(x: real, code: Byte, scale: real, amax: real)
    requires amax > 0.0 && Abs(x) <= amax && code == Quantised(Num(x), amax) && scale == amax / 448.0
    ensures ErrorBound(x, Dequantised(code, scale), amax)
  {
    hide Encode, LutValue, Abs, Stretched;
    var y := Stretched(x, amax);
    InverseScale(x, amax, y, scale);
    ValueError(y);
    var v, back := LutValue(code), Dequantised(code, scale);
    assert code == Encode(Num(y));
    BackScaled(x, y, v, scale, back);
    assert scale / 1024.0 == amax / 448.0 / 1024.0;
    assert Abs(x) == amax ==> back == x;
    assert Abs(back - x) <= Max(Abs(x) / 16.0, scale / 1024.0);
  }

  lemma {:induction false} BackScaled(x: real, y: real, v: real, s: real, back: real)
    requires s > 0.0 && y * s == x && Abs(y) * s == Abs(x) && Abs(v - y) <= Max(Abs(y) / 16.0, 1.0 / 1024.0)
    requires back == v * s
    ensures Abs(back - x) <= Max(Abs(x) / 16.0, s / 1024.0)
    ensures v == y ==> back == x
  {
    hide Abs;
    MinusTimes(v, y, s);
    AbsScaled(v - y, s, back - x);
    if Abs(y) / 16.0 < 1.0 / 1024.0 {
      ProductOrder(Abs(v - y), 1.0 / 1024.0, s, Abs(back - x), s / 1024.0);
    } else {
      SixteenthTimes(Abs(y), s);
      ProductOrder(Abs(v - y), Abs(y) / 16.0, s, Abs(back - x), Abs(x) / 16.0);
    }
  }

  lemma SixteenthTimes(a: real, s: real)
    ensures (a / 16.0) * s == (a * s) / 16.0
  {
  }

  // ---------------------------------------------------------------- groups

  /** coli_kv8_nscale. */
  function Nscale(n: nat, gs: int): nat {
    if gs > 0 then (n + gs - 1) / gs else 1
  }

  /** First index of group k, and one past its last. */
  function Lo(n: nat, gs: int, k: nat): nat { if gs > 0 then k * gs else 0 }

  function Hi(n: nat, gs: int, k: nat): nat {
    if gs > 0 && (k + 1) * gs < n then (k + 1) * gs else n
  }

  /** The group of index i. */
  function Group(gs: int, i: nat): nat { if gs > 0 then i / gs else 0 }

  lemma GroupBounds(n: nat, gs: int, k: nat)
    requires k < Nscale(n, gs) && (gs <= 0 || n > 0)
    ensures Lo(n, gs, k) <= Hi(n, gs, k) <= n
    ensures gs > 0 ==> Lo(n, gs, k) < n
  {
    if gs > 0 {
      var m := (n + gs - 1) / gs;
      assert m * gs <= n + gs - 1;
      MulMonotone(gs, k + 1, m);
      assert (k + 1) * gs == k * gs + gs;
    }
  }

  /** The groups 0..Nscale cover every index exactly once. */
  lemma {:induction false} GroupsPartition(n: nat, gs: int, i: nat, k: nat)
    requires i < n
    ensures Group(gs, i) < Nscale(n, gs)
    ensures k < Nscale(n, gs) ==> (Lo(n, gs, k) <= i < Hi(n, gs, k) <==> k == Group(gs, i))
  {
    if gs > 0 {
      BelowCeiling(n, gs, i);
      GroupBox(gs, i, k);
    }
  }

  lemma BelowCeiling(n: nat, gs: nat, i: nat)
    requires i < n && gs > 0
    ensures i / gs < (n + gs - 1) / gs
  {
    var q, m := i / gs, (n + gs - 1) / gs;
    Quotient(i, gs, q);
    Quotient(n + gs - 1, gs, m);
    MulMonotone(gs, m, q);
  }

  lemma Quotient(i: nat, gs: nat, q: nat)
    requires gs > 0 && q == i / gs
    ensures q * gs <= i < q * gs + gs
  {
    assert i == gs * (i / gs) + i % gs;
  }

  lemma {:induction false} GroupBox(gs: nat, i: nat, k: nat)
    requires gs > 0
    ensures k * gs <= i < (k + 1) * gs <==> k == i / gs
  {
    var q := i / gs;
    Quotient(i, gs, q);
    MulMonotone(gs, k + 1, q);
    MulMonotone(gs, q + 1, k);
    Successor(gs, k);
    Successor(gs, q);
  }

  lemma Successor(gs: nat, k: nat)
    ensures (k + 1) * gs == k * gs + gs
  {
  }

  /** Group k of dst is group k of x quantised with sc[k]. */
  ghost predicate GroupCoded(x: seq<Float>, dst: seq<Byte>, sc: seq<real>, gs: int, k: nat) {
    |x| == |dst| && k < |sc| && Lo(|x|, gs, k) <= Hi(|x|, gs, k) <= |x| &&
    RowCoded(x, dst, Lo(|x|, gs, k), Hi(|x|, gs, k), sc[k])
  }

  /** Writing elsewhere keeps a group. */
  lemma GroupKept(x: seq<Float>, dst: seq<Byte>, sc: seq<real>, dst2: seq<Byte>, sc2: seq<real>, gs: int, k: nat, g: nat)
    requires GroupCoded(x, dst, sc, gs, k) && |dst2| == |dst| && k < |sc2| && sc2[k] == sc[k]
    requires Hi(|x|, gs, k) <= g <= |dst| && dst2[..g] == dst[..g]
    ensures GroupCoded(x, dst2, sc2, gs, k)
  {
    assert forall i :: 0 <= i < g ==> dst2[i] == dst2[..g][i] && dst[i] == dst[..g][i];
  }

  /** coli_kv8_quant_row_gs: all groups, each with its own scale. */
  method QuantRowGs(x: seq<Float>, dst: array<Byte>, sc: array<real>, gs: int)
    requires dst.Length == |x| && sc.Length >= Nscale(|x|, gs) && dst as object != sc
    modifies dst, sc
    ensures forall k: nat :: k < Nscale(|x|, gs) ==> GroupCoded(x, dst[..], sc[..], gs, k)
  {
    hide RowCoded;
    if gs <= 0 {
      sc[0] := QuantRow(x, dst, 0, |x|);
      return;
    }
    var g, k := 0, 0;
    while g < |x|
      invariant g == k * gs && k <= Nscale(|x|, gs) && (g < |x| + gs)
      invariant forall j: nat :: j < k ==> GroupCoded(x, dst[..], sc[..], gs, j)
      decreases |x| + gs - g
    {
      ScaleCount(|x|, gs, k);
      QuantGroup(x, dst, sc, gs, k);
      assert (k + 1) * gs == g + gs;
      g, k := g + gs, k + 1;
    }
    ScalesDone(|x|, gs, k);
  }

  lemma ScaleCount(n: nat, gs: nat, k: nat)
    requires gs > 0 && k * gs < n
    ensures k < Nscale(n, gs)
  {
    var m := Nscale(n, gs);
    assert n + gs - 1 == m * gs + (n + gs - 1) % gs;
    MulMonotone(gs, m, k);
  }

  lemma {:induction false} ScalesDone(n: nat, gs: nat, k: nat)
    requires gs > 0 && k * gs >= n && k <= Nscale(n, gs)
    ensures k == Nscale(n, gs)
  {
    var m := Nscale(n, gs);
    assert n + gs - 1 == m * gs + (n + gs - 1) % gs;
    MulMonotone(gs, k + 1, m);
    assert (k + 1) * gs == k * gs + gs;
  }

  /** The body of the group loop. */
  method QuantGroup(x: seq<Float>, dst: array<Byte>, sc: array<real>, gs: nat, k: nat)
    requires gs > 0 && dst.Length == |x| && k < sc.Length && k < Nscale(|x|, gs) && dst as object != sc && k * gs < |x|
    requires forall j: nat :: j < k ==> GroupCoded(x, dst[..], sc[..], gs, j)
    modifies dst, sc
    ensures forall j: nat :: j <= k ==> GroupCoded(x, dst[..], sc[..], gs, j)
  {
    hide RowCoded, Nscale, GroupCoded;
    ghost var d0, s0 := dst[..], sc[..];
    var g := k * gs;
    var m := if |x| - g < gs then |x| - g else gs;
    GroupBounds(|x|, gs, k);
    GroupEnds(|x|, gs, k);
    var scale := QuantRow(x, dst, g, g + m);
    sc[k] := scale;
    CodedNow(x, dst[..], sc[..], gs, k);
    forall j: nat | j < k
      ensures GroupCoded(x, dst[..], sc[..], gs, j)
    {
      EarlierEnds(|x|, gs, j, k);
      GroupKept(x, d0, s0, dst[..], sc[..], gs, j, g);
    }
  }

  lemma GroupEnds(n: nat, gs: nat, k: nat)
    requires gs > 0 && k * gs < n
    ensures Lo(n, gs, k) == k * gs && Hi(n, gs, k) == k * gs + (if n - k * gs < gs then n - k * gs else gs)
  {
    Successor(gs, k);
  }

  lemma EarlierEnds(n: nat, gs: nat, j: nat, k: nat)
    requires gs > 0 && j < k && k * gs < n
    ensures Hi(n, gs, j) <= k * gs
  {
    MulMonotone(gs, j + 1, k);
  }

  lemma CodedNow(x: seq<Float>, dst: seq<Byte>, sc: seq<real>, gs: int, k: nat)
    requires |x| == |dst| && k < |sc| && Lo(|x|, gs, k) <= Hi(|x|, gs, k) <= |x|
    requires RowCoded(x, dst, Lo(|x|, gs, k), Hi(|x|, gs, k), sc[k])
    ensures GroupCoded(x, dst, sc, gs, k)
  {
    hide RowCoded;
  }

  /** coli_kv8_dequant_row on group lo..hi. */
  method DequantRow(src: seq<Byte>, scale: real, dst: array<real>, lo: nat, hi: nat, lut: array<real>)
    requires lo <= hi <= |src| && dst.Length == |src| && lut.Length == 256 && LutFilled(lut, 256) && lut != dst
    modifies dst
    ensures forall i :: 0 <= i < dst.Length ==> dst[i] == if lo <= i < hi then Dequantised(src[i], scale) else old(dst[i])
  {
    hide LutValue;
    for i := lo to hi
      invariant forall j :: 0 <= j < dst.Length ==> dst[j] == if lo <= j < i then Dequantised(src[j], scale) else old(dst[j])
    {
      dst[i] := lut[src[i]] * scale;
    }
  }

  /** coli_kv8_dequant_row_gs: every element is scaled by its own group's scale. */
  method DequantRowGs(src: seq<Byte>, sc: seq<real>, dst: array<real>, gs: int, lut: array<real>)
    requires dst.Length == |src| && |sc| >= Nscale(|src|, gs) && lut.Length == 256 && LutFilled(lut, 256) && lut != dst
    modifies dst
    ensures forall i :: 0 <= i < |src| ==> Group(gs, i) < |sc| && dst[i] == Dequantised(src[i], sc[Group(gs, i)])
  {
    hide Dequantised;
    if gs <= 0 {
      DequantRow(src, sc[0], dst, 0, |src|, lut);
      return;
    }
    var g, k := 0, 0;
    while g < |src|
      invariant g == k * gs && k <= Nscale(|src|, gs)
      invariant forall i :: 0 <= i < |src| && i < g ==> Group(gs, i) < |sc| && dst[i] == Dequantised(src[i], sc[Group(gs, i)])
      decreases |src| + gs - g
    {
      ScaleCount(|src|, gs, k);
      var m := if |src| - g < gs then |src| - g else gs;
      DequantRow(src, sc[k], dst, g, g + m, lut);
      assert (k + 1) * gs == g + gs;
      forall i: nat | g <= i < g + m
        ensures Group(gs, i) == k
      {
        GroupsPartition(|src|, gs, i, k);
      }
      g, k := g + gs, k + 1;
    }
  }

  /** Code 0, of an unscalable group or of a NaN, reads as zero. */
  lemma ZeroCode(v: Byte, scale: real)
    requires v == 0
    ensures Dequantised(v, scale) == 0.0
  {
    hide Decode, MagOf;
    DecodeFields(v);
    MagOfOrder(v);
  }

  /** Error of the whole round trip, element by element: bounded by its own group's amax, with
      the group's largest magnitude exact. A NaN, and every element of a group outside the accepted
      range, infinite ones included, reads as zero. */
  lemma {:induction false} RoundTripError(x: seq<Float>, codes: seq<Byte>, sc: seq<real>, gs: int, i: nat)
    requires i < |x| == |codes| && Nscale(|x|, gs) <= |sc|
    requires forall k: nat :: k < Nscale(|x|, gs) ==> GroupCoded(x, codes, sc, gs, k)
    ensures var k := Group(gs, i);
            k < Nscale(|x|, gs) && Lo(|x|, gs, k) <= i < Hi(|x|, gs, k) <= |x| &&
            var amax := Amax(x, Lo(|x|, gs, k), Hi(|x|, gs, k));
            if Scalable(amax) && x[i].Num? then ErrorBound(x[i].r, Dequantised(codes[i], sc[k]), amax.value)
            else Dequantised(codes[i], sc[k]) == 0.0
  {
    hide Quantised, Dequantised, ErrorBound;
    var k := Group(gs, i);
    GroupsPartition(|x|, gs, i, k);
    assert GroupCoded(x, codes, sc, gs, k);
    var amax := Amax(x, Lo(|x|, gs, k), Hi(|x|, gs, k));
    assert RowCoded(x, codes, Lo(|x|, gs, k), Hi(|x|, gs, k), sc[k]);
    if Scalable(amax) && x[i].Num? {
      ElementError(x[i].r, codes[i], sc[k], amax.value);
    } else {
      if Scalable(amax) {
        assert x[i].NaN?;
        NaNCode(x[i], amax.value);
      }
      ZeroCode(codes[i], sc[k]);
    }
  }

  lemma NaNCode(x: Float, amax: real)
    requires x.NaN? && amax > 0.0
    ensures Quantised(x, amax) == 0
  {
  }

  // ---------------------------------------------------------------- the round trip in plain terms

  /** The accumulated maximum is 0 or some number's magnitude. */
  lemma {:induction false} AmaxAttained(x: seq<Float>, lo: nat, hi: nat)
    requires lo <= hi <= |x| && Amax(x, lo, hi).Some?
    ensures var m := Amax(x, lo, hi).value;
            m == 0.0 || exists j :: lo <= j < hi && x[j].Num? && Abs(x[j].r) == m
  {
    if lo < hi {
      AmaxAttained(x, lo, hi - 1);
      if x[hi - 1].Num? && Amax(x, lo, hi) == Some(Abs(x[hi - 1].r)) {
        assert lo <= hi - 1 < hi;
      }
    }
  }

  /** The elements that share a scale with element i. */
  ghost predicate Mates(gs: int, i: nat, j: nat) {
    gs <= 0 || i / gs == j / gs
  }

  /** No infinity among them, and amax is the largest magnitude. */
  ghost predicate LargestNear(x: seq<Float>, gs: int, i: nat, amax: real) {
    (forall j: nat :: j < |x| && Mates(gs, i, j) ==> !x[j].Inf? && (x[j].Num? ==> Abs(x[j].r) <= amax)) &&
    exists j: nat :: j < |x| && Mates(gs, i, j) && x[j].Num? && Abs(x[j].r) == amax
  }

  ghost predicate InfinityNear(x: seq<Float>, gs: int, i: nat) {
    exists j: nat :: j < |x| && Mates(gs, i, j) && x[j].Inf?
  }

  lemma {:induction false} MatesAreGroup(n: nat, gs: int, i: nat, j: nat)
    requires i < n && j < n
    ensures var k := Group(gs, i); k < Nscale(n, gs) && (Mates(gs, i, j) <==> Lo(n, gs, k) <= j < Hi(n, gs, k))
  {
    GroupsPartition(n, gs, i, Group(gs, i));
    GroupsPartition(n, gs, j, Group(gs, i));
  }

  lemma {:induction false} GroupAmax(x: seq<Float>, gs: int, i: nat, amax: real)
    requires i < |x| && LargestNear(x, gs, i, amax)
    ensures var k := Group(gs, i);
            k < Nscale(|x|, gs) && Lo(|x|, gs, k) <= Hi(|x|, gs, k) <= |x| &&
            Amax(x, Lo(|x|, gs, k), Hi(|x|, gs, k)) == Some(amax)
  {
    hide Amax, Mates, Abs;
    var k := Group(gs, i);
    GroupsPartition(|x|, gs, i, k);
    var lo, hi := Lo(|x|, gs, k), Hi(|x|, gs, k);
    forall j: nat | j < |x|
      ensures Mates(gs, i, j) <==> lo <= j < hi
    {
      MatesAreGroup(|x|, gs, i, j);
    }
    var top: nat :| top < |x| && Mates(gs, i, top) && x[top].Num? && Abs(x[top].r) == amax;
    assert forall j :: lo <= j < hi ==> !x[j].Inf? && (x[j].Num? ==> Abs(x[j].r) <= amax);
    AmaxAttained(x, lo, hi);
    MagnitudePositive(x[top].r);
  }

  lemma MagnitudePositive(v: real)
    ensures Abs(v) >= 0.0
  {
  }

  /** What element i reads back as. */
  ghost predicate ReadsBack(x: seq<Float>, gs: int, i: nat, back: real)
    requires i < |x|
  {
    (forall amax: real ::
       LargestNear(x, gs, i, amax) && x[i].Num? &&
       amax > 1.0 / 100000000000000000000000000000000000.0 && amax <= 340000000000000000000000000000000000000.0 ==>
         (Abs(back - x[i].r) <= Abs(x[i].r) / 16.0 || Abs(back - x[i].r) <= amax / 448.0 / 1024.0) &&
         (Abs(x[i].r) == amax ==> back == x[i].r)) &&
    (forall amax: real ::
       LargestNear(x, gs, i, amax) &&
       (amax <= 1.0 / 100000000000000000000000000000000000.0 || amax > 340000000000000000000000000000000000000.0) ==>
         back == 0.0) &&
    (x[i].NaN? || InfinityNear(x, gs, i) ==> back == 0.0)
  }

  lemma {:induction false} ElementReads(x: seq<Float>, codes: seq<Byte>, sc: seq<real>, gs: int, i: nat)
    requires i < |x| == |codes| && Nscale(|x|, gs) <= |sc|
    requires forall k: nat :: k < Nscale(|x|, gs) ==> GroupCoded(x, codes, sc, gs, k)
    ensures Group(gs, i) < |sc| && ReadsBack(x, gs, i, Dequantised(codes[i], sc[Group(gs, i)]))
  {
    hide Amax, Dequantised, LargestNear, InfinityNear, GroupCoded, Abs;
    RoundTripError(x, codes, sc, gs, i);
    var k := Group(gs, i);
    var lo, hi := Lo(|x|, gs, k), Hi(|x|, gs, k);
    forall amax: real | LargestNear(x, gs, i, amax)
      ensures Amax(x, lo, hi) == Some(amax)
    {
      GroupAmax(x, gs, i, amax);
    }
    if InfinityNear(x, gs, i) {
      GroupInfinite(x, gs, i);
    }
  }

  lemma {:induction false} GroupInfinite(x: seq<Float>, gs: int, i: nat)
    requires i < |x| && InfinityNear(x, gs, i)
    ensures var k := Group(gs, i);
            Lo(|x|, gs, k) <= Hi(|x|, gs, k) <= |x| && Amax(x, Lo(|x|, gs, k), Hi(|x|, gs, k)) == None
  {
    hide Mates;
    var j: nat :| j < |x| && Mates(gs, i, j) && x[j].Inf?;
    GroupsPartition(|x|, gs, i, Group(gs, i));
    MatesAreGroup(|x|, gs, i, j);
  }

  /** Coding and reading back, for any group size: in a group without an infinity whose largest magnitude
      lies in the accepted range every number comes back within its bound and the largest exactly;
      everything else comes back as zero. */
  method ThereAndBack(x: seq<Float>, gs: int) returns (back: array<real>)
    ensures back.Length == |x| && forall i :: 0 <= i < |x| ==> ReadsBack(x, gs, i, back[i])
  {
    hide ReadsBack, GroupCoded, Dequantised;
    var dst, sc, lut := new Byte[|x|], new real[Nscale(|x|, gs)], new real[256](_ => 0.0);
    LutInit(lut);
    QuantRowGs(x, dst, sc, gs);
    back := new real[|x|];
    ghost var codes, scales := dst[..], sc[..];
    DequantRowGs(dst[..], sc[..], back, gs, lut);
    forall i | 0 <= i < |x|
      ensures ReadsBack(x, gs, i, back[i])
    {
      ElementReads(x, codes, scales, gs, i);
    }
  }
}
