/** dsv4_fp8_simulate: blockwise rounding to E4M3 under a power-of-two scale. The
    exponent that frexpf leaves behind for an infinity, which the C standard does not fix, is a
    parameter. */
module Dsv4Simulate {
  import opened Wrappers
  import opened Fp8
  import opened Fp8Rows

  /** frexpf's exponent: the binade of a positive number. */
  function Frexp(a: real): (e: int)
    requires a > 0.0
    decreases if a >= 1.0 then a.Floor else if a < 0.5 then (1.0 / a).Floor else 0
  {
    if a >= 1.0 then Frexp(a / 2.0) + 1
    else if a < 0.5 then
      HalvesReciprocal(a);
      Frexp(a * 2.0) - 1
    else 0
  }

  lemma HalvesReciprocal(a: real)
    requires 0.0 < a < 0.5
    ensures 1.0 / (a * 2.0) == (1.0 / a) / 2.0 && 1.0 / a > 2.0
  {
  }

  lemma {:induction false} FrexpBinade(a: real)
    requires a > 0.0
    ensures Pow2(Frexp(a) - 1) <= a < Pow2(Frexp(a))
    decreases if a >= 1.0 then a.Floor else if a < 0.5 then (1.0 / a).Floor else 0
  {
    var e := Frexp(a);
    Pow2Double(e);
    Pow2Double(e + 1);
    Pow2Double(e - 1);
    if a >= 1.0 {
      FrexpBinade(a / 2.0);
    } else if a < 0.5 {
      HalvesReciprocal(a);
      FrexpBinade(a * 2.0);
    } else {
      Pow2Zero(e);
    }
  }

  /** Largest magnitude of x[lo..hi], at least 1e-4, or None when it is infinite; a NaN compares as
      no larger. */
  function Largest(x: seq<Float>, lo: nat, hi: nat): (r: Option<real>)
    requires lo <= hi <= |x|
    ensures r.Some? ==> r.value >= 1.0 / 10000.0
    ensures r.Some? ==> forall i :: lo <= i < hi ==> !x[i].Inf? && (x[i].Num? ==> Abs(x[i].r) <= r.value)
  {
    if lo == hi then Some(1.0 / 10000.0)
    else Larger(Largest(x, lo, hi - 1), x[hi - 1])
  }

  /** The larger one of a magnitude so far and a value's. */
  function Larger(m: Option<real>, v: Float): Option<real> {
    if m.None? || v.Inf? then None else if v.Num? && Abs(v.r) > m.value then Some(Abs(v.r)) else m
  }

  /** It is infinite exactly when some value is, and otherwise 1e-4 or the magnitude of some number. */
  lemma {:induction false} LargestAttained(x: seq<Float>, lo: nat, hi: nat)
    requires lo <= hi <= |x|
    ensures Largest(x, lo, hi).None? <==> exists j :: lo <= j < hi && x[j].Inf?
    ensures Largest(x, lo, hi).Some? ==>
              var m := Largest(x, lo, hi).value;
              m == 1.0 / 10000.0 || exists j :: lo <= j < hi && x[j].Num? && Abs(x[j].r) == m
  {
    if lo < hi {
      LargestAttained(x, lo, hi - 1);
      assert x[hi - 1].Inf? ==> Largest(x, lo, hi).None?;
      if x[hi - 1].Num? && Largest(x, lo, hi) == Some(Abs(x[hi - 1].r)) {
        assert lo <= hi - 1 < hi;
      }
    }
  }

  /** The block's scale from its largest magnitude. */
  function BlockScale(mx: real): (s: real)
    requires mx > 0.0
    ensures s > 0.0
  {
    var raw := mx / 448.0;
    var s := Pow2(Frexp(raw) - 1);
    if s < raw then s * 2.0 else s
  }

  /** The scale of a block whose largest magnitude may be infinite: frexpf reports infExp then, and the
      scale so found is below infinity, so it is doubled. */
  function AnyScale(mx: Option<real>, infExp: int): (s: real)
    requires mx.Some? ==> mx.value > 0.0
    ensures s > 0.0
  {
    if mx.Some? then BlockScale(mx.value) else Pow2(infExp - 1) * 2.0
  }

  /** It is a power of two of at least 2^-124 if infExp is. */
  lemma AnyPower(mx: Option<real>, infExp: int) returns (k: int)
    requires (mx.Some? ==> mx.value >= 1.0 / 10000.0) && infExp >= -124
    ensures AnyScale(mx, infExp) == Pow2(k) && k >= -124
  {
    if mx.Some? {
      k := LeastPower(mx.value);
    } else {
      k := infExp;
      Pow2Double(infExp);
    }
  }

  /** The scale is the least power of two at or above mx / 448. */
  lemma LeastPower(mx: real) returns (k: int)
    requires mx > 0.0
    ensures BlockScale(mx) == Pow2(k) && mx / 448.0 <= Pow2(k)
    ensures forall j: int :: mx / 448.0 <= Pow2(j) ==> k <= j
    ensures mx >= 1.0 / 10000.0 ==> k >= -22
  {
    var raw := mx / 448.0;
    var e := Frexp(raw);
    FrexpBinade(raw);
    Pow2Double(e);
    k := if Pow2(e - 1) < raw then e else e - 1;
    forall j: int | raw <= Pow2(j)
      ensures k <= j
    {
      if j < k {
        Pow2Monotone(j, k - 1);
      }
    }
    if mx >= 1.0 / 10000.0 && k < -22 {
      Pow2Monotone(k, -23);
      SmallPower();
    }
  }

  lemma SmallPower()
    ensures Pow2(-23) < 1.0 / 10000.0 / 448.0
  {
    hide Pow2;
    PowLiterals();
    Pow2Product(-9, -9, -18);
    Pow2Product(-9, -6, -15);
    Pow2Product(-15, -9, -24);
    Pow2Double(-23);
  }

  // ---------------------------------------------------------------- bfloat16

  /** The spacing of bfloat16 around x: eight significant bits, but no finer than 2^-133. */
  function Spacing(x: real): (u: real)
    requires x != 0.0
    ensures u > 0.0
  {
    var e := Frexp(Abs(x));
    Pow2(if e - 8 < -133 then -133 else e - 8)
  }

  /** A float too large for the type is infinite. */
  function Stored(r: real): Float {
    if Abs(r) >= Pow2(128) then Inf(r < 0.0) else Num(r)
  }

  /** The multiple of u nearest to x. */
  function OnGrid(x: real, u: real): real
    requires u > 0.0
  {
    Rint(x / u) as real * u
  }

  /** dsv4_q_bf16 on a number: the nearest multiple of the spacing, ties to even. */
  function Bf16(x: real): Float {
    if x == 0.0 then Num(0.0) else Stored(OnGrid(x, Spacing(x)))
  }

  /** Numbers of at most eight significant bits in bfloat16's range stay. */
  lemma Bf16Exact(x: real, m: int, n: int)
    requires -256 < m < 256 && n >= -133 && x == m as real * Pow2(n)
    ensures Bf16(x) == Stored(x)
  {
    hide Pow2, Stored, Spacing, OnGrid;
    if x != 0.0 {
      var top := SpacingExponent(x, m, n);
      var w := IntegerPower(n - top);
      Pow2Product(n - top, top, n);
      GridKeeps(x, m, w, Pow2(top), Pow2(n));
    } else {
      ZeroStored();
    }
  }

  /** The spacing around m * 2^n is no coarser than 2^n. */
  lemma SpacingExponent(x: real, m: int, n: int) returns (top: int)
    requires -256 < m < 256 && n >= -133 && x == m as real * Pow2(n) && x != 0.0
    ensures Spacing(x) == Pow2(top) && top <= n
  {
    hide Pow2, Frexp, Abs;
    AbsPositive(x);
    var e := Frexp(Abs(x));
    FrexpBinade(Abs(x));
    BelowTop(x, m, n, e);
    top := if e - 8 < -133 then -133 else e - 8;
  }

  lemma ZeroStored()
    ensures Stored(0.0) == Num(0.0)
  {
  }

  lemma AbsPositive(x: real)
    requires x != 0.0
    ensures Abs(x) > 0.0
  {
  }

  lemma BelowTop(x: real, m: int, n: int, e: int)
    requires -256 < m < 256 && x == m as real * Pow2(n) && Pow2(e - 1) <= Abs(x)
    ensures e <= n + 8
  {
    hide Pow2;
    Pow2Product(8, n, n + 8);
    EightBits();
    BelowProduct(x, m, Pow2(n));
    if e - 1 >= n + 8 {
      Pow2Monotone(n + 8, e - 1);
    }
  }

  lemma EightBits()
    ensures Pow2(8) == 256.0
  {
    PowLiterals();
    Pow2Step(8);
  }

  lemma BelowProduct(x: real, m: int, p: real)
    requires -256 < m < 256 && p > 0.0 && x == m as real * p
    ensures Abs(x) < 256.0 * p
  {
    TimesLe(m as real, 256.0, p);
    TimesLe(-256.0, m as real, p);
  }

  lemma {:induction false} IntegerPower(n: int) returns (w: int)
    requires n >= 0
    ensures Pow2(n) == w as real
  {
    if n == 0 {
      w := 1;
    } else {
      var v := IntegerPower(n - 1);
      w := 2 * v;
      Pow2Step(n - 1);
    }
  }

  lemma GridKeeps(x: real, m: int, w: int, u: real, p: real)
    requires u > 0.0 && w as real * u == p && x == m as real * p
    ensures OnGrid(x, u) == x
  {
    assert x == (m * w) as real * u;
    assert x / u == (m * w) as real;
  }

  /** A number of at most eight significant bits overflows exactly when it is larger than the largest
      finite bfloat16, 255 * 2^120. */
  lemma OverflowsBeyond(x: real, m: int, n: int)
    requires -256 < m < 256 && x == m as real * Pow2(n)
    ensures Stored(x) == if Abs(x) > 255.0 * Pow2(120) then Inf(x < 0.0) else Num(x)
  {
    hide Pow2, Abs;
    var k := if m < 0 then -m else m;
    Magnitudes(x, m, Pow2(n));
    Beyond(k, n, Abs(x));
  }

  lemma Beyond(k: nat, n: int, a: real)
    requires k < 256 && a == k as real * Pow2(n)
    ensures a > 255.0 * Pow2(120) <==> a >= Pow2(128)
  {
    hide Pow2;
    var top := Pow2(120);
    EightBits();
    Pow2Product(8, 120, 128);
    if n <= 120 {
      Pow2Monotone(n, 120);
      SmallMultiple(k, Pow2(n), top);
    } else {
      var w := IntegerPower(n - 121);
      Pow2Product(n - 121, 121, n);
      Pow2Double(121);
      EvenMultiple(k, w, Pow2(n), Pow2(121), top);
    }
  }

  lemma Magnitudes(x: real, m: int, p: real)
    requires p > 0.0 && x == m as real * p
    ensures Abs(x) == (if m < 0 then -m else m) as real * p
  {
  }

  lemma SmallMultiple(k: nat, p: real, top: real)
    requires k < 256 && 0.0 < p <= top
    ensures k as real * p <= 255.0 * top < 256.0 * top
  {
    TimesLe(k as real, 255.0, p);
    TimesLe(p, top, 255.0);
    TimesLe(255.0, 256.0, top);
  }

  /** An even multiple of top beyond 255 is one beyond 256. */
  lemma EvenMultiple(k: nat, w: int, p: real, two: real, top: real)
    requires top > 0.0 && two == 2.0 * top && w as real * two == p
    ensures k as real * p > 255.0 * top <==> k as real * p >= 256.0 * top
  {
    var u := 2 * (k * w);
    assert k as real * p == (k * w) as real * two == u as real * top;
    if u > 255 {
      TimesLe(256.0, u as real, top);
    } else {
      TimesLe(u as real, 255.0, top);
    }
    TimesLe(255.0, 256.0, top);
  }

  // ---------------------------------------------------------------- one value

  /** fmaxf(-448, fminf(448, y)); fminf drops a NaN. */
  function Clamped(y: Float): real {
    match y
    case Num(r) => if r > 448.0 then 448.0 else if r < -448.0 then -448.0 else r
    case Inf(negative) => if negative then -448.0 else 448.0
    case NaN => 448.0
  }

  /** y / s on floats. */
  function Divided(y: Float, s: real): (r: Float)
    requires s > 0.0
    ensures (r.Inf? <==> y.Inf?) && (r.NaN? <==> y.NaN?)
  {
    match y
    case Num(v) => Num(v / s)
    case _ => y
  }

  /** Within its block's magnitude the clamp never fires. */
  lemma ClampIdle(x: real, mx: real)
    requires mx > 0.0 && Abs(x) <= mx
    ensures Clamped(Num(x / BlockScale(mx))) == x / BlockScale(mx)
  {
    hide Abs, BlockScale;
    var k := LeastPower(mx);
    Quotient448(x, mx, BlockScale(mx));
  }

  lemma Quotient448(x: real, mx: real, s: real)
    requires mx > 0.0 && s > 0.0 && mx / 448.0 <= s && Abs(x) <= mx
    ensures -448.0 <= x / s <= 448.0
  {
    var q := x / s;
    assert q * s == x;
    WithinBound(q, s, x, mx);
  }

  lemma WithinBound(q: real, s: real, x: real, mx: real)
    requires s > 0.0 && q * s == x && mx <= 448.0 * s && Abs(x) <= mx
    ensures -448.0 <= q <= 448.0
  {
    TimesLe(448.0, q, s);
    TimesLe(q, -448.0, s);
  }

  function Times(r: real, s: real): real { r * s }

  /** What a value becomes under scale s: the multiple of s that its code stands for; a NaN
      becomes the largest one. */
  function Rounded(x: Float, s: real): Float
    requires s > 0.0
  {
    Stored(Times(if x.NaN? then 448.0 else LutValue(Encode(Divided(x, s))), s))
  }

  /** How far the scaled value of a code is from x. */
  function Distance(code: Byte, s: real, x: real): real { Abs(LutValue(code) * s - x) }

  /** Its code is one whose scaled value is nearest. */
  lemma NearestMultiple(x: real, s: real, v: Byte)
    requires s > 0.0 && Decode(v).Some?
    ensures Distance(Encode(Num(x / s)), s, x) <= Distance(v, s, x)
  {
    hide Encode, Decode, Distance, LutValue;
    var y := x / s;
    EncodeNearest(y, v);
    assert y * s == x;
    NearerScaled(Encode(Num(y)), v, y, s, x);
  }

  /** What a value becomes is a multiple c of the scale, stored: for a number no code's multiple is nearer
      to it, for an infinity it is the one of its sign furthest out, for a NaN the largest. */
  lemma RoundedIs(x: Float, s: real) returns (c: Byte)
    requires s > 0.0
    ensures Decode(c).Some? && Rounded(x, s) == Stored(Times(LutValue(c), s))
    ensures x.Num? ==> NearestOfAll(c, s, x.r)
    ensures !x.Num? ==> LutValue(c) == if x.Inf? && x.negative then -448.0 else 448.0
  {
    hide Encode, Decode, LutValue, Rounded, Stored, NearestOfAll, Times;
    var top := Encode(Num(448.0));
    TopCode(Num(448.0));
    c := if x.Num? then Encode(Num(x.r / s)) else if x.Inf? then Encode(x) else top;
    var q := LutValue(c);
    RoundedBy(x, s, q);
    if x.Num? {
      EncodeNearest(x.r / s, top);
      NoneNearer(x.r, s);
    } else if x.Inf? {
      TopCode(x);
    }
  }

  lemma RoundedBy(x: Float, s: real, q: real)
    requires s > 0.0 && q == if x.NaN? then 448.0 else LutValue(Encode(if x.Num? then Num(x.r / s) else x))
    ensures Rounded(x, s) == Stored(Times(q, s))
  {
    hide Encode, LutValue, Stored, Times;
    assert Divided(x, s) == if x.Num? then Num(x.r / s) else x;
  }

  /** No finite code's multiple of s is nearer to r than c's. */
  ghost predicate NearestOfAll(c: Byte, s: real, r: real) {
    forall v: Byte :: Decode(v).Some? ==> Abs(LutValue(c) * s - r) <= Abs(LutValue(v) * s - r)
  }

  lemma NoneNearer(r: real, s: real)
    requires s > 0.0
    ensures NearestOfAll(Encode(Num(r / s)), s, r)
  {
    hide Encode, Decode, LutValue;
    forall v: Byte | Decode(v).Some?
      ensures Abs(LutValue(Encode(Num(r / s))) * s - r) <= Abs(LutValue(v) * s - r)
    {
      NearestMultiple(r, s, v);
    }
  }

  lemma TopCode(y: Float)
    requires y.Inf? || y == Num(448.0)
    ensures Decode(Encode(y)).Some? && LutValue(Encode(y)) == if y.Inf? && y.negative then -448.0 else 448.0
  {
    hide EncodeMagnitude, Decode, LutValue;
    DecodeFields(Encode(y));
    if y.Inf? {
      SaturatedCode(if y.negative then -449.0 else 449.0);
    } else {
      TopKept(448.0);
    }
  }

  lemma NearerScaled(c: Byte, v: Byte, y: real, s: real, x: real)
    requires s > 0.0 && y * s == x && Decode(c).Some? && Decode(v).Some? && NearestValue(y, c, v)
    ensures Distance(c, s, x) <= Distance(v, s, x)
  {
    hide Decode;
    var p, q := LutValue(c), LutValue(v);
    MinusTimes(p, y, s);
    MinusTimes(q, y, s);
    ScaledOrder(p - y, q - y, s, p * s - x, q * s - x);
  }

  /** An E4M3 value has at most four significant bits. */
  lemma CodeBits(v: Byte) returns (m: int, n: int)
    ensures -16 < m < 16 && n >= -9 && LutValue(v) == m as real * Pow2(n)
  {
    hide Pow2, Magnitude, Decode;
    DecodeFields(v);
    if Decode(v).Some? {
      var w := v % 128;
      MagnitudeUnits(w / 8, w % 8);
      m := if w / 8 > 0 then 8 + w % 8 else w % 8;
      n := if w / 8 > 0 then w / 8 - 10 else 1 - 10;
      if v >= 128 {
        Negated(m, Pow2(n));
        m := -m;
      }
    } else {
      m, n := 0, 0;
    }
  }

  lemma Negated(m: int, p: real)
    ensures -(m as real * p) == (-m) as real * p
  {
  }

  /** So bfloat16 holds its multiple t by a power of two exactly, unless that is too large. */
  lemma MultipleExact(t: real, r: real, m: int, n: int, s: real, k: int)
    requires -16 < m < 16 && r == m as real * Pow2(n) && s == Pow2(k) && n + k >= -133 && t == r * s
    ensures Bf16(t) == Stored(t)
  {
    hide Bf16, Pow2, Stored;
    Pow2Product(n, k, n + k);
    Regroup(t, r, m, Pow2(n), s, Pow2(n + k));
    Bf16Exact(t, m, n + k);
  }

  lemma Regroup(t: real, r: real, m: int, p: real, q: real, pq: real)
    requires r == m as real * p && p * q == pq && t == r * q
    ensures t == m as real * pq
  {
  }

  // ---------------------------------------------------------------- the loops

  /** The inner loops on x[lo..hi]. */
  method SimulateBlock(x: array<Float>, lo: nat, hi: nat, infExp: int)
    requires lo <= hi <= x.Length && infExp >= -124
    modifies x
    ensures forall i :: 0 <= i < x.Length ==>
              x[i] == if lo <= i < hi then Rounded(old(x[i]), AnyScale(Largest(old(x[..]), lo, hi), infExp)) else old(x[i])
  {
    hide Rounded, AnyScale, Clamped, Bf16, Larger;
    var mx := Some(1.0 / 10000.0);
    for i := lo to hi
      invariant mx == Largest(x[..], lo, i)
    {
      mx := Larger(mx, x[i]);
    }
    var scale := AnyScale(mx, infExp);
    for i := lo to hi
      invariant forall j :: 0 <= j < x.Length ==> x[j] == if lo <= j < i then Rounded(old(x[j]), scale) else old(x[j])
    {
      x[i] := RoundOne(x[i], mx, infExp);
    }
  }

  /** The expression of the inner loop. */
  method RoundOne(v: Float, mx: Option<real>, infExp: int) returns (r: Float)
    requires (mx.Some? ==> mx.value >= 1.0 / 10000.0) && infExp >= -124
    ensures r == Rounded(v, AnyScale(mx, infExp))
  {
    hide Bf16, AnyScale, Encode, LutValue, Times, Divided, Clamped, Stored;
    var scale := AnyScale(mx, infExp);
    var y := Clamped(Divided(v, scale));
    var q := E4m3Round(Num(y));
    ClampSaturates(Divided(v, scale));
    var t := q * scale;
    RoundedKept(y, q, mx, infExp, t);
    r := Bf16(t);
  }

  /** The encoder saturates where the clamp does, so the clamp changes only a NaN. */
  lemma ClampSaturates(y: Float)
    ensures LutValue(Encode(Num(Clamped(y)))) == if y.NaN? then 448.0 else LutValue(Encode(y))
  {
    hide LutValue, EncodeMagnitude;
    var c := Clamped(y);
    TopKept(c);
    match y
    case Num(r) => if r > 448.0 || r < -448.0 { SaturatedCode(r); }
    case Inf(negative) => SaturatedCode(if negative then -449.0 else 449.0);
    case NaN =>
  }

  /** Beyond 448 the code is that of 448 with the sign. */
  lemma SaturatedCode(r: real)
    requires Abs(r) > 448.0
    ensures LutValue(Encode(Num(r))) == if r < 0.0 then -448.0 else 448.0
  {
    hide Decode, MagOf, EncodeMagnitude;
    var c := Encode(Num(r));
    DecodeFields(c);
    MagOfOrder(c % 128);
  }

  lemma RoundedKept(y: real, q: real, mx: Option<real>, infExp: int, t: real)
    requires (mx.Some? ==> mx.value >= 1.0 / 10000.0) && infExp >= -124
    requires q == LutValue(Encode(Num(y))) && t == q * AnyScale(mx, infExp)
    ensures Bf16(t) == Stored(t) && t == Times(q, AnyScale(mx, infExp))
  {
    hide Bf16, AnyScale, Encode, LutValue, Stored, Pow2;
    var k := AnyPower(mx, infExp);
    var m, n := CodeBits(Encode(Num(y)));
    MultipleExact(t, q, m, n, AnyScale(mx, infExp), k);
  }

  lemma TopKept(y: real)
    ensures Abs(y) == 448.0 ==> LutValue(Encode(Num(y))) == y
  {
    hide LutValue, Encode;
    if Abs(y) == 448.0 {
      ValueError(y);
    }
  }

  /** dsv4_fp8_simulate: every number becomes a nearest E4M3 multiple of its own block's scale. */
  method Simulate(x: array<Float>, block: nat, infExp: int)
    requires block > 0 && infExp >= -124
    modifies x
    ensures forall i :: 0 <= i < x.Length ==> x[i] == BlockRounded(old(x[..]), block, i, infExp)
  {
    hide Rounded, AnyScale, BlockRounded;
    var a, k := 0, 0;
    while a < x.Length
      invariant a == k * block
      invariant forall i :: 0 <= i < x.Length ==>
                  x[i] == if i < a then BlockRounded(old(x[..]), block, i, infExp) else old(x[i])
      decreases x.Length + block - a
    {
      var z := if a + block < x.Length then a + block else x.Length;
      ghost var was := x[..];
      SimulateBlock(x, a, z, infExp);
      forall i: nat | a <= i < z
        ensures x[i] == BlockRounded(old(x[..]), block, i, infExp)
      {
        InBlock(old(x[..]), was, block, k, z, i, infExp);
      }
      a, k := a + block, k + 1;
    }
  }

  lemma InBlock(x: seq<Float>, was: seq<Float>, block: nat, k: nat, z: nat, i: nat, infExp: int)
    requires block > 0 && k * block <= i < z <= |x| == |was|
    requires z == if k * block + block < |x| then k * block + block else |x|
    requires forall j :: k * block <= j < |x| ==> was[j] == x[j]
    ensures BlockRounded(x, block, i, infExp) == Rounded(x[i], AnyScale(Largest(was, k * block, z), infExp))
  {
    hide Rounded, AnyScale;
    GroupBox(block, i, k);
    Successor(block, k);
    SameLargest(x, was, k * block, z);
  }

  lemma {:induction false} SameLargest(x: seq<Float>, was: seq<Float>, lo: nat, hi: nat)
    requires lo <= hi <= |x| == |was| && forall j :: lo <= j < |x| ==> was[j] == x[j]
    ensures Largest(x, lo, hi) == Largest(was, lo, hi)
  {
    if lo < hi {
      SameLargest(x, was, lo, hi - 1);
    }
  }

  /** Value i rounded under the scale of block i / block. */
  function BlockRounded(x: seq<Float>, block: nat, i: nat, infExp: int): Float
    requires block > 0 && i < |x|
  {
    var k := Group(block, i);
    GroupsPartition(|x|, block, i, k);
    Rounded(x[i], AnyScale(Largest(x, Lo(|x|, block, k), Hi(|x|, block, k)), infExp))
  }
}
