/** FP8 E4M3 (finite-only): the bit-level encoder of kv_fp8.h against the brute-force nearest
    search of dsv4_quant.h. Floats are exact reals, frexpf is the unique binade. */
module Fp8 {
  import opened Wrappers

  // ---------------------------------------------------------------- powers of two

  function Pow2(n: int): (r: real)
    ensures r > 0.0
    decreases if n < 0 then -n else n
  {
    if n == 0 then 1.0 else if n > 0 then 2.0 * Pow2(n - 1) else Pow2(n + 1) / 2.0
  }

  lemma Pow2Step(n: int)
    ensures Pow2(n + 1) == 2.0 * Pow2(n)
  {
  }

  lemma Pow2Zero(n: int)
    requires n == 0
    ensures Pow2(n) == 1.0
  {
  }

  lemma TimesTwice(a: real, b: real)
    ensures a * (2.0 * b) == 2.0 * (a * b)
  {
  }

  lemma {:induction false} Pow2Add(m: int, n: int)
    ensures Pow2(m + n) == Pow2(m) * Pow2(n)
    decreases if n < 0 then -n else n
  {
    hide Pow2;
    if n > 0 {
      Pow2Add(m, n - 1);
      Pow2Step(m + n - 1);
      Pow2Step(n - 1);
      TimesTwice(Pow2(m), Pow2(n - 1));
    } else if n < 0 {
      Pow2Add(m, n + 1);
      Pow2Step(m + n);
      Pow2Step(n);
      TimesTwice(Pow2(m), Pow2(n));
    } else {
      Pow2Zero(n);
    }
  }

  lemma {:induction false} Pow2Monotone(m: int, n: int)
    requires m <= n
    ensures Pow2(m) <= Pow2(n)
    decreases n - m
  {
    hide Pow2;
    if m < n {
      Pow2Monotone(m, n - 1);
      Pow2Step(n - 1);
    }
  }

  lemma PowLiterals()
    ensures Pow2(9) == 512.0 && Pow2(3) == 8.0 && Pow2(-6) == 1.0 / 64.0 && Pow2(-9) == 1.0 / 512.0
  {
    assert Pow2(3) == 8.0;
    Pow2Add(3, 3);
    Pow2Add(6, 3);
    Pow2Add(6, -6);
    Pow2Add(9, -9);
  }

  // ---------------------------------------------------------------- decoding

  /** Magnitude for exponent field exp and mantissa field man. */
  function Magnitude(exp: nat, man: nat): real {
    if exp > 0 then (1.0 + man as real / 8.0) * Pow2(exp - 7) else man as real * Pow2(-9)
  }

  /** dsv4_e4m3: None is NaN. */
  function Decode(v: Byte): Option<real> {
    var sign, exp, man := v / 128, v / 8 % 16, v % 8;
    if exp == 15 && man == 7 then None
    else Some(if sign > 0 then -Magnitude(exp, man) else Magnitude(exp, man))
  }

  /** The lookup table entry: NaN codes read as 0. */
  function LutValue(v: Byte): real {
    match Decode(v) case Some(r) => r case None => 0.0
  }

  ghost predicate LutFilled(lut: array<real>, n: nat)
    reads lut
  {
    n <= lut.Length && forall b: Byte :: b < n ==> lut[b] == LutValue(b)
  }

  /** coli_fp8_lut_init: filled once, left alone afterwards. */
  method LutInit(lut: array<real>)
    requires lut.Length == 256 && (lut[1] != 0.0 ==> LutFilled(lut, 256))
    modifies lut
    ensures LutFilled(lut, 256)
  {
    hide Pow2, Magnitude;
    if lut[1] != 0.0 {
      return;
    }
    for b := 0 to 256
      invariant LutFilled(lut, b)
    {
      var exp, man := b / 8 % 16, b % 8;
      var v := Magnitude(exp, man);
      if exp == 15 && man == 7 { v := 0.0; }
      lut[b] := if b / 128 % 2 == 1 then -v else v;
    }
  }

  // ---------------------------------------------------------------- encoding

  /** A C float as far as the encoder can tell; the sign of zero is not kept. */
  datatype Float = Num(r: real) | Inf(negative: bool) | NaN

  function Abs(x: real): real { if x < 0.0 then -x else x }

  /** rintf: nearest integer, ties to even. */
  function Rint(t: real): (k: int) {
    var f := t.Floor;
    var d := t - f as real;
    if d < 0.5 || (d == 0.5 && f % 2 == 0) then f else f + 1
  }

  /** frexpf's exponent, searched upward: 2^(e-1) <= a < 2^e. */
  function Exponent(a: real, e: int): (r: int)
    requires -5 <= e <= 9 && Pow2(e - 1) <= a < Pow2(9)
    ensures -5 <= r <= 9 && Pow2(r - 1) <= a < Pow2(r)
    decreases 9 - e
  {
    if a < Pow2(e) then e else Exponent(a, e + 1)
  }

  /** ldexpf(a, 3 - (e - 1)). */
  function Scaled(a: real, e: int): real { a * Pow2(4 - e) }

  /** The scaled mantissa lies in [8, 16). */
  lemma MantissaRange(a: real, e: int)
    requires Pow2(e - 1) <= a < Pow2(e)
    ensures 8.0 <= Scaled(a, e) < 16.0
  {
    hide Pow2;
    Pow2Product(e - 1, 4 - e, 3);
    Pow2Double(e);
    PowLiterals();
    ScaleBetween(Pow2(e - 1), a, Pow2(4 - e), 8.0);
  }

  lemma Pow2Double(e: int)
    ensures Pow2(e) == 2.0 * Pow2(e - 1)
  {
    Pow2Step(e - 1);
  }

  lemma {:induction false} Pow2Product(m: int, n: int, k: int)
    requires m + n == k
    ensures Pow2(m) * Pow2(n) == Pow2(k)
  {
    Pow2Add(m, n);
  }

  lemma ScaleBetween(q: real, a: real, p: real, c: real)
    requires p > 0.0 && q <= a < 2.0 * q && q * p == c
    ensures c <= a * p < c + c
  {
    assert (a - q) * p >= 0.0;
    assert (2.0 * q - a) * p > 0.0;
    assert (2.0 * q - a) * p == 2.0 * (q * p) - a * p;
  }

  lemma RintRange(t: real, lo: int, hi: int)
    requires lo as real <= t <= hi as real
    ensures lo <= Rint(t) <= hi
  {
    var f := t.Floor;
    assert f as real <= t < f as real + 1.0;
    assert lo as real < (f + 1) as real;
  }

  /** Exponent and mantissa fields from frexpf's exponent and the rounded mantissa: a mantissa
      of 16 carries into the exponent, and anything beyond 448 saturates. */
  function NormalCode(e: int, k0: int): (code: nat)
    requires -5 <= e <= 9 && 8 <= k0 <= 16
    ensures code < 127
  {
    var k, exp := if k0 == 16 then 8 else k0, if k0 == 16 then e + 7 else e + 6;
    if exp > 15 || (exp == 15 && k > 14) then 0x7e else exp * 8 + (k - 8)
  }

  /** The code, without the sign bit, of a magnitude at most 448. */
  function EncodeMagnitude(a: real): (code: nat)
    requires 0.0 <= a <= 448.0
    ensures code < 127
  {
    PowLiterals();
    if a < Pow2(-6) then
      SubnormalRange(a);
      Rint(ScaledSmall(a))
    else
      var e := Exponent(a, -5);
      NormalRange(a, e);
      NormalCode(e, Rint(Scaled(a, e)))
  }

  function ScaledSmall(a: real): real { a * Pow2(9) }

  lemma SubnormalRange(a: real)
    requires 0.0 <= a < Pow2(-6)
    ensures 0 <= Rint(ScaledSmall(a)) <= 8
  {
    PowLiterals();
    RintRange(ScaledSmall(a), 0, 8);
  }

  lemma NormalRange(a: real, e: int)
    requires Pow2(e - 1) <= a < Pow2(e)
    ensures 8 <= Rint(Scaled(a, e)) <= 16
  {
    MantissaRange(a, e);
    RintRange(Scaled(a, e), 8, 16);
  }

  /** coli_fp8_enc: NaN to 0, saturation at 448. */
  function Encode(f: Float): Byte {
    match f
    case NaN => 0
    case Inf(negative) => if negative then 0x80 + 0x7e else 0x7e
    case Num(x) =>
      var s := if x < 0.0 then 0x80 else 0;
      if Abs(x) > 448.0 then s + 0x7e else s + EncodeMagnitude(Abs(x))
  }

  // ---------------------------------------------------------------- nearest, ties to even

  /** rint is a nearest integer; another integer as near means a tie, which goes to the even one. */
  lemma RintNearest(t: real, j: int)
    ensures Abs(Rint(t) as real - t) <= Abs(j as real - t)
    ensures Abs(Rint(t) as real - t) == Abs(j as real - t) && j != Rint(t) ==> Rint(t) % 2 == 0 && j % 2 == 1
  {
    var f := t.Floor;
    assert f as real <= t < f as real + 1.0;
    if j < f {
      assert j as real <= f as real - 1.0;
    } else if j > f + 1 {
      assert j as real >= f as real + 2.0;
    }
  }

  lemma AbsScaled(d: real, u: real, r: real)
    requires u > 0.0 && d * u == r
    ensures Abs(r) == Abs(d) * u
  {
    if d < 0.0 { assert d * u < 0.0; }
  }

  lemma TimesLe(a: real, b: real, u: real)
    requires u > 0.0
    ensures a <= b ==> a * u <= b * u
    ensures a < b ==> a * u < b * u
  {
    if a < b { assert (b - a) * u > 0.0; assert (b - a) * u == b * u - a * u; }
  }

  lemma MinusTimes(k: real, t: real, u: real)
    ensures (k - t) * u == k * u - t * u
  {
  }

  /** The same on the grid of multiples of u, with a == t * u. */
  lemma GridNearest(a: real, t: real, u: real, j: int)
    requires u > 0.0 && t * u == a
    ensures var k := Rint(t);
            Off(k, u, a) <= Off(j, u, a) && (Off(k, u, a) == Off(j, u, a) && j != k ==> k % 2 == 0 && j % 2 == 1)
  {
    hide Abs, Rint, Off;
    var k := Rint(t);
    RintNearest(t, j);
    GridOrder(a, t, u, k, j);
  }

  /** Distance of grid point k from a. */
  function Off(k: int, u: real, a: real): real { Abs(k as real * u - a) }

  lemma GridOrder(a: real, t: real, u: real, k: int, j: int)
    requires u > 0.0 && t * u == a
    ensures Abs(k as real - t) <= Abs(j as real - t) ==> Off(k, u, a) <= Off(j, u, a)
    ensures Abs(k as real - t) < Abs(j as real - t) ==> Off(k, u, a) < Off(j, u, a)
  {
    GridOffset(a, t, u, k as real);
    GridOffset(a, t, u, j as real);
    ScaledOrder(k as real - t, j as real - t, u, k as real * u - a, j as real * u - a);
  }

  lemma GridOffset(a: real, t: real, u: real, k: real)
    requires t * u == a
    ensures (k - t) * u == k * u - a
  {
    MinusTimes(k, t, u);
  }

  lemma ScaledOrder(x: real, y: real, u: real, xu: real, yu: real)
    requires u > 0.0 && x * u == xu && y * u == yu
    ensures Abs(x) <= Abs(y) ==> Abs(xu) <= Abs(yu)
    ensures Abs(x) < Abs(y) ==> Abs(xu) < Abs(yu)
  {
    AbsScaled(x, u, xu);
    AbsScaled(y, u, yu);
    ProductOrder(Abs(x), Abs(y), u, Abs(xu), Abs(yu));
  }

  lemma ProductOrder(x: real, y: real, u: real, xu: real, yu: real)
    requires u > 0.0 && x * u == xu && y * u == yu
    ensures x <= y ==> xu <= yu
    ensures x < y ==> xu < yu
  {
    TimesLe(x, y, u);
  }

  /** A value strictly beyond a grid point that lies on its side of a is strictly farther. */
  lemma BeyondGrid(a: real, t: real, u: real, j: int, q: real)
    requires u > 0.0 && t * u == a
    requires (q < j as real * u && j as real <= t) || (q > j as real * u && t <= j as real)
    ensures Abs(Rint(t) as real * u - a) < Abs(q - a)
  {
    hide Rint, Abs;
    GridNearest(a, t, u, j);
    TimesLe(j as real, t, u);
    TimesLe(t, j as real, u);
    AbsBeyond(a, j as real * u, q);
  }

  lemma AbsBeyond(a: real, p: real, q: real)
    requires q < p <= a || q > p >= a
    ensures Abs(p - a) < Abs(q - a)
  {
  }

  /** Grid step of the binade with exponent field exp. */
  function Unit(exp: nat): (r: real)
    ensures r > 0.0
  {
    Pow2(exp - 10)
  }

  lemma MagnitudeUnits(exp: nat, man: nat)
    requires man < 8
    ensures exp > 0 ==> Magnitude(exp, man) == (8 + man) as real * Unit(exp)
    ensures exp == 0 ==> Magnitude(exp, man) == man as real * Unit(1)
  {
    if exp > 0 {
      Pow2Product(3, exp - 10, exp - 7);
      PowLiterals();
      EighthTimes(man as real, Unit(exp));
    }
  }

  lemma EighthTimes(m: real, u: real)
    ensures (1.0 + m / 8.0) * (8.0 * u) == (8.0 + m) * u
  {
  }

  lemma {:induction false} UnitMonotone(exp: nat, bin: nat)
    requires exp < bin
    ensures 2.0 * Unit(exp) <= Unit(bin)
  {
    Pow2Double(exp + 1 - 10);
    Pow2Monotone(exp + 1 - 10, bin - 10);
  }

  /** Where the magnitudes of another binade lie, seen from binade bin. */
  lemma {:induction false} OtherBinade(exp: nat, man: nat, bin: nat)
    requires man < 8 && bin > 0
    ensures exp < bin ==> Magnitude(exp, man) < 8.0 * Unit(bin)
    ensures exp > bin ==> Magnitude(exp, man) > 16.0 * Unit(bin) || (man == 0 && Magnitude(exp, man) == 16.0 * Unit(bin))
  {
    hide Pow2, Magnitude;
    MagnitudeUnits(exp, man);
    if exp == 0 {
      UnitOrder(1, bin);
      BelowEight(man as real, Unit(1), Unit(bin));
    } else if exp < bin {
      UnitMonotone(exp, bin);
      BelowBinade((8 + man) as real, Unit(exp), Unit(bin));
    } else if exp > bin {
      UnitMonotone(bin, exp);
      AboveBinade((8 + man) as real, Unit(exp), Unit(bin));
    }
  }

  lemma UnitOrder(exp: nat, bin: nat)
    requires exp <= bin
    ensures Unit(exp) <= Unit(bin)
  {
    Pow2Monotone(exp - 10, bin - 10);
  }

  lemma BelowEight(w: real, u: real, uf: real)
    requires 0.0 < u <= uf && w < 8.0
    ensures w * u < 8.0 * uf
  {
    TimesLe(w, 8.0, u);
  }

  lemma BelowBinade(w: real, u: real, uf: real)
    requires 0.0 < u && 2.0 * u <= uf && w < 16.0
    ensures w * u < 8.0 * uf
  {
    TimesLe(w, 16.0, u);
  }

  lemma AboveBinade(w: real, u: real, uf: real)
    requires 0.0 < uf && 2.0 * uf <= u && w >= 8.0
    ensures w * u > 16.0 * uf || (w == 8.0 && w * u == 16.0 * uf)
  {
    TimesLe(8.0, w, u);
  }

  function MagOf(code: nat): real { Magnitude(code / 8, code % 8) }

  /** Nearest among all magnitudes, ties to the even code. */
  ghost predicate NearestCode(a: real, c: nat, v: nat) {
    Abs(MagOf(c) - a) <= Abs(MagOf(v) - a) &&
    (Abs(MagOf(c) - a) == Abs(MagOf(v) - a) && MagOf(v) != MagOf(c) ==> c % 2 == 0 && v % 2 == 1)
  }

  lemma CodeFields(exp: nat, man: nat)
    requires man < 8
    ensures (exp * 8 + man) / 8 == exp && (exp * 8 + man) % 8 == man && (exp * 8 + man) % 2 == man % 2
  {
  }

  /** In binade exp the code's value is the rounded mantissa times the grid step, with its parity. */
  lemma NormalCodeValue(e: int, k: int)
    requires -5 <= e <= 9 && 8 <= k <= 16 && (e == 9 ==> k <= 14)
    ensures MagOf(NormalCode(e, k)) == k as real * Unit(e + 6) && NormalCode(e, k) % 2 == k % 2
  {
    hide Pow2, Magnitude;
    var exp := e + 6;
    if k < 16 {
      CodeFields(exp, k - 8);
      MagnitudeUnits(exp, k - 8);
    } else {
      CodeFields(exp + 1, 0);
      MagnitudeUnits(exp + 1, 0);
      UnitDouble(exp);
    }
  }

  lemma UnitDouble(exp: nat)
    ensures Unit(exp + 1) == 2.0 * Unit(exp)
  {
    Pow2Step(exp - 10);
  }

  /** a is its scaled mantissa times the grid step of its binade. */
  lemma ScaledBack(a: real, e: int)
    requires -5 <= e
    ensures Scaled(a, e) * Unit(e + 6) == a
  {
    hide Pow2;
    InversePowers(4 - e, e - 4);
    CancelScale(a, Pow2(4 - e), Pow2(e - 4));
  }

  lemma InversePowers(m: int, n: int)
    requires m + n == 0
    ensures Pow2(m) * Pow2(n) == 1.0
  {
    Pow2Product(m, n, m + n);
  }

  lemma CancelScale(a: real, p: real, u: real)
    requires p * u == 1.0
    ensures (a * p) * u == a
  {
    assert (a * p) * u == a * (p * u);
  }

  lemma TopBinade(a: real)
    requires a <= 448.0
    ensures Scaled(a, 9) <= 14.0
  {
    Pow2Product(9, -5, 4);
    PowLiterals();
    Pow2Step(3);
    assert Pow2(-5) == 1.0 / 32.0;
  }

  /** The normal branch's code, as a rounded grid position. */
  lemma NormalFacts(a: real, e: int)
    requires -5 <= e <= 9 && Pow2(e - 1) <= a < Pow2(e) && a <= 448.0
    ensures var t := Scaled(a, e);
            8 <= Rint(t) <= 16 && 8.0 <= t < 16.0 && t * Unit(e + 6) == a &&
            MagOf(NormalCode(e, Rint(t))) == Rint(t) as real * Unit(e + 6) && NormalCode(e, Rint(t)) % 2 == Rint(t) % 2
  {
    hide Magnitude, Scaled, Rint, MagOf, Unit;
    NormalRange(a, e);
    MantissaRange(a, e);
    ScaledBack(a, e);
    if e == 9 {
      TopBinade(a);
      RintRange(Scaled(a, e), 8, 14);
    }
    NormalCodeValue(e, Rint(Scaled(a, e)));
  }

  /** A code v against a rounded grid position of binade exp. */
  lemma {:induction false} BinadeNearest(a: real, t: real, exp: nat, c: nat, v: nat)
    requires exp > 0 && 8.0 <= t < 16.0 && t * Unit(exp) == a && MagOf(c) == Rint(t) as real * Unit(exp) && c % 2 == Rint(t) % 2
    ensures NearestCode(a, c, v)
  {
    hide Magnitude, Rint, MagOf, Unit, NearestCode;
    var bin, man := v / 8, v % 8;
    OtherBinade(bin, man, exp);
    CodeFields(bin, man);
    MagOfFields(v);
    if bin < exp {
      BeyondNearest(a, t, Unit(exp), 8, c, v);
    } else if bin == exp {
      MagnitudeUnits(exp, man);
      OnGridNearest(a, t, Unit(exp), 8 + man, c, v);
    } else if MagOf(v) > 16.0 * Unit(exp) {
      BeyondNearest(a, t, Unit(exp), 16, c, v);
    } else {
      OnGridNearest(a, t, Unit(exp), 16, c, v);
    }
  }

  /** The normal branch of the encoder. */
  lemma NormalNearest(a: real, e: int, v: nat)
    requires -5 <= e <= 9 && Pow2(e - 1) <= a < Pow2(e) && a <= 448.0
    ensures 8 <= Rint(Scaled(a, e)) <= 16
    ensures NearestCode(a, NormalCode(e, Rint(Scaled(a, e))), v)
  {
    hide Magnitude, Scaled, Rint, MagOf, Unit, NearestCode;
    NormalFacts(a, e);
    BinadeNearest(a, Scaled(a, e), e + 6, NormalCode(e, Rint(Scaled(a, e))), v);
  }

  lemma MagOfFields(v: nat)
    ensures MagOf(v) == Magnitude(v / 8, v % 8)
  {
  }

  lemma OnGridNearest(a: real, t: real, u: real, j: int, c: nat, v: nat)
    requires u > 0.0 && t * u == a && MagOf(c) == Rint(t) as real * u && c % 2 == Rint(t) % 2
    requires MagOf(v) == j as real * u && v % 2 == j % 2
    ensures NearestCode(a, c, v)
  {
    hide Magnitude, Rint, Abs;
    GridNearest(a, t, u, j);
  }

  lemma {:induction false} BeyondNearest(a: real, t: real, u: real, j: int, c: nat, v: nat)
    requires u > 0.0 && t * u == a && MagOf(c) == Rint(t) as real * u
    requires (MagOf(v) < j as real * u && j as real <= t) || (MagOf(v) > j as real * u && t <= j as real)
    ensures NearestCode(a, c, v)
  {
    hide Magnitude, Rint, Abs;
    BeyondGrid(a, t, u, j, MagOf(v));
  }

  /** The denormal branch: the grid of 2^-9, whose point 8 is the first normal. */
  lemma {:induction false} SubnormalNearest(a: real, v: nat)
    requires 0.0 <= a < Pow2(-6) && v < 127
    ensures 0 <= Rint(ScaledSmall(a)) <= 8
    ensures NearestCode(a, Rint(ScaledSmall(a)), v)
  {
    hide Magnitude, Abs, Rint, MagOf, NearestCode;
    SubnormalRange(a);
    PowLiterals();
    var t, u := ScaledSmall(a), Unit(1);
    assert t * u == a;
    SmallCode(Rint(t));
    if v <= 8 {
      SmallCode(v);
      OnGridNearest(a, t, u, v, Rint(t), v);
    } else {
      LargeCode(v);
      BeyondNearest(a, t, u, 8, Rint(t), v);
    }
  }

  lemma SmallCode(c: nat)
    requires c <= 8
    ensures MagOf(c) == c as real * Unit(1)
  {
    MagnitudeUnits(c / 8, c % 8);
  }

  lemma LargeCode(v: nat)
    requires 8 < v < 127
    ensures MagOf(v) > 8.0 * Unit(1)
  {
    hide Pow2, Magnitude;
    var bin, man := v / 8, v % 8;
    MagnitudeUnits(bin, man);
    TimesLe(8.0, (8 + man) as real, Unit(bin));
    UnitOrder(1, bin);
    if bin > 1 {
      UnitMonotone(1, bin);
    }
  }

  /** The encoder's code is a nearest one, and even on ties, among all finite magnitudes. */
  lemma {:induction false} MagnitudeNearest(a: real, v: nat)
    requires 0.0 <= a <= 448.0 && v < 127
    ensures NearestCode(a, EncodeMagnitude(a), v)
  {
    hide Magnitude, NearestCode;
    PowLiterals();
    if a < Pow2(-6) {
      SubnormalNearest(a, v);
    } else {
      NormalNearest(a, Exponent(a, -5), v);
    }
  }

  // ---------------------------------------------------------------- signs and saturation

  ghost predicate NearestValue(x: real, c: Byte, v: Byte)
    requires Decode(c).Some? && Decode(v).Some?
  {
    var r, q := Decode(c).value, Decode(v).value;
    Abs(r - x) <= Abs(q - x) && (Abs(r - x) == Abs(q - x) && q != r ==> c % 2 == 0 && v % 2 == 1)
  }

  lemma DecodeFields(v: Byte)
    ensures Decode(v).Some? <==> v % 128 != 127
    ensures Decode(v).Some? ==> Decode(v).value == if v >= 128 then -MagOf(v % 128) else MagOf(v % 128)
  {
    assert v % 128 / 8 == v / 8 % 16 && v % 128 % 8 == v % 8;
  }

  lemma MagOfOrder(v: nat)
    requires v < 127
    ensures MagOf(0) == 0.0 <= MagOf(v) <= MagOf(126) == 448.0
    ensures v > 0 ==> MagOf(v) > 0.0
    ensures v < 126 ==> MagOf(v) < 448.0
  {
    MagOfFields(v);
    MagOfFields(126);
    MagnitudeUnits(v / 8, v % 8);
    MagnitudeUnits(15, 6);
    Pow2Step(3);
    Pow2Product(3, 2, 5);
    assert Unit(15) == 32.0;
    if v / 8 < 15 {
      OtherBinade(v / 8, v % 8, 15);
    }
  }

  /** Saturation is nearest too. */
  lemma {:induction false} SaturatedNearest(a: real, v: nat)
    requires a > 448.0 && v < 127
    ensures NearestCode(a, 126, v)
  {
    hide MagOf;
    MagOfOrder(v);
  }

  /** Magnitudes to signed values: a value on the other side of zero is never nearer than zero. */
  lemma SignedNearest(x: real, m: real, w: real, c: Byte, v: Byte)
    requires Decode(c).Some? && Decode(v).Some? && (c >= 128 <==> x < 0.0) && m >= 0.0 && w >= 0.0
    requires Decode(c).value == (if c >= 128 then -m else m) && Decode(v).value == (if v >= 128 then -w else w)
    requires Abs(m - Abs(x)) <= Abs(w - Abs(x)) && Abs(m - Abs(x)) <= Abs(x)
    requires Abs(m - Abs(x)) == Abs(w - Abs(x)) && w != m ==> c % 2 == 0 && v % 2 == 1
    requires w == 0.0 ==> v % 2 == 0
    ensures NearestValue(x, c, v)
  {
    hide Decode;
  }

  /** coli_fp8_enc returns a nearest finite code, and an even one on every tie. */
  lemma {:induction false} EncodeNearest(x: real, v: Byte)
    requires Decode(v).Some?
    ensures Decode(Encode(Num(x))).Some? && NearestValue(x, Encode(Num(x)), v)
  {
    hide MagOf, NearestValue, Decode, EncodeMagnitude;
    var c := Encode(Num(x));
    var a, k, w := Abs(x), c % 128, v % 128;
    DecodeFields(v);
    DecodeFields(c);
    MagOfOrder(w);
    MagOfOrder(k);
    if a > 448.0 {
      SaturatedNearest(a, w);
      SaturatedNearest(a, 0);
    } else {
      MagnitudeNearest(a, w);
      MagnitudeNearest(a, 0);
    }
    SignedNearest(x, MagOf(k), MagOf(w), c, v);
  }

  // ---------------------------------------------------------------- the brute-force reference

  /** What the search has established after codes below n. */
  ghost predicate BestSoFar(x: real, best: nat, n: nat) {
    best < n <= 255 && Decode(best).Some? &&
    forall v: Byte :: v < n && Decode(v).Some? ==>
      Abs(Decode(best).value - x) <= Abs(Decode(v).value - x) &&
      (Abs(Decode(best).value - x) == Abs(Decode(v).value - x) && v % 2 == 0 ==> best % 2 == 0)
  }

  /** fabsf(q - x): a number, infinite, or NaN. */
  datatype Gap = Finite(d: real) | Infinite | Undefined

  function GapTo(q: real, x: Float): Gap {
    match x
    case Num(r) => Finite(Abs(q - r))
    case Inf(_) => Infinite
    case NaN => Undefined
  }

  predicate Less(a: Gap, b: Gap) {
    a.Finite? && (b.Infinite? || (b.Finite? && a.d < b.d))
  }

  predicate Same(a: Gap, b: Gap) {
    (a.Infinite? && b.Infinite?) || (a.Finite? && b.Finite? && a.d == b.d)
  }

  /** The search of dsv4_e4m3_round. No code is near NaN or an infinity, and code 0 stays. */
  method BruteForce(x: Float) returns (best: Byte)
    ensures x.Num? ==> BestSoFar(x.r, best, 255)
    ensures !x.Num? ==> best == 0
  {
    hide Decode, Abs, BestSoFar;
    DecodeFields(0);
    best := 0;
    var bd := Infinite;
    for v := 0 to 255
      invariant !x.Num? || v == 0 ==> bd == Infinite && best == 0
      invariant x.Num? && v > 0 ==> BestSoFar(x.r, best, v) && Decode(best).Some? && bd == GapTo(Decode(best).value, x)
    {
      var q := Decode(v);
      if q.Some? {
        var d := GapTo(q.value, x);
        ghost var was := best;
        if Less(d, bd) || (Same(d, bd) && v % 2 == 0 && best % 2 == 1) {
          bd, best := d, v;
        }
        if x.Num? {
          BestStep(x.r, was, best, v);
        }
      } else if x.Num? {
        BestSkip(x.r, best, v);
      }
    }
  }

  lemma BestSkip(x: real, best: nat, v: Byte)
    requires v > 0 && BestSoFar(x, best, v) && v < 255 && Decode(v).None?
    ensures BestSoFar(x, best, v + 1)
  {
    hide Decode;
  }

  /** Considering one more code. */
  lemma {:induction false} BestStep(x: real, was: nat, best: nat, v: Byte)
    requires v < 255 && Decode(v).Some? && (v > 0 ==> BestSoFar(x, was, v))
    requires var d := Abs(Decode(v).value - x);
             best == if v == 0 || d < Abs(Decode(was).value - x) || (d == Abs(Decode(was).value - x) && v % 2 == 0 && was % 2 == 1)
                     then v else was
    ensures BestSoFar(x, best, v + 1)
  {
    hide Decode, Abs;
  }

  /** The brute-force answer has the value of the encoder's code, for every real x. */
  lemma {:induction false} BestIsEncoded(x: real, best: Byte)
    requires BestSoFar(x, best, 255)
    ensures LutValue(best) == LutValue(Encode(Num(x)))
  {
    hide Decode, Encode;
    EncodeNearest(x, best);
    var c := Encode(Num(x));
    DecodeFields(c);
    assert c < 255;
  }

  /** dsv4_e4m3_round: the value of the fast encoder's code for every number and for NaN. At the
      infinities the two differ: the search returns 0 where the encoder saturates. */
  method E4m3Round(x: Float) returns (r: real)
    ensures r == LutValue(Encode(x)) <==> !x.Inf?
    ensures x.Inf? ==> r == 0.0
  {
    hide LutValue, Encode, BestSoFar;
    var best := BruteForce(x);
    r := LutValue(best);
    match x
    case Num(v) => BestIsEncoded(v, best);
    case _ => SpecialCodes(x, best);
  }

  lemma SpecialCodes(x: Float, best: Byte)
    requires !x.Num? && best == 0
    ensures LutValue(best) == 0.0 && (LutValue(Encode(x)) == 0.0 <==> x.NaN?)
  {
    hide Decode, MagOf;
    DecodeFields(best);
    MagOfOrder(best);
    DecodeFields(Encode(x));
    MagOfOrder(Encode(x) % 128);
  }
}
