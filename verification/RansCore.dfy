/** The pure coder behind c/fse_coli.h: one-symbol steps over a byte stream, their
    inverses, and the two interleaved states. The stream is kept in the order the
    decoder reads it, so the encoder prepends and the decoder consumes from the front. */
module RansCore {
  import opened Wrappers

  // Frequencies sum to 4096; a state rests in [0x80_0000, 0x8000_0000) = [2^23, 2^31).

  /** Sum of the first k frequencies. */
  function Cum(freq: seq<nat>, k: nat): nat
    requires k <= |freq|
  {
    if k == 0 then 0 else Cum(freq, k - 1) + freq[k - 1]
  }

  predicate Table(freq: seq<nat>) {
    |freq| == 16 && Cum(freq, |freq|) == 4096
  }

  lemma {:induction false} CumMonotone(freq: seq<nat>, i: nat, j: nat)
    requires i <= j <= |freq|
    ensures Cum(freq, i) <= Cum(freq, j)
  {
    if i < j {
      CumMonotone(freq, i, j - 1);
    }
  }

  /** One symbol's interval lies inside the table. */
  lemma SlotRange(freq: seq<nat>, s: nat)
    requires Table(freq) && s < 16
    ensures Cum(freq, s) + freq[s] <= 4096
  {
    CumMonotone(freq, s + 1, |freq|);
  }

  /** Last symbol below n whose interval starts at or before slot. */
  function SymbolBelow(freq: seq<nat>, slot: nat, n: nat): (r: nat)
    requires 0 < n <= |freq| && slot < Cum(freq, n)
    ensures r < n && Cum(freq, r) <= slot < Cum(freq, r) + freq[r]
  {
    if slot >= Cum(freq, n - 1) then n - 1 else SymbolBelow(freq, slot, n - 1)
  }

  function SymbolOf(freq: seq<nat>, slot: nat): (r: Nibble)
    requires Table(freq) && slot < 4096
    ensures Cum(freq, r) <= slot < Cum(freq, r) + freq[r]
  {
    SymbolBelow(freq, slot, |freq|)
  }

  /** The intervals are disjoint, so a slot has one symbol. */
  lemma {:induction false} SymbolUnique(freq: seq<nat>, slot: nat, s: Nibble)
    requires Table(freq) && slot < 4096
    requires Cum(freq, s) <= slot < Cum(freq, s) + freq[s]
    ensures SymbolOf(freq, slot) == s
  {
    var r := SymbolOf(freq, slot);
    if r < s {
      CumMonotone(freq, r + 1, s);
    } else if s < r {
      CumMonotone(freq, s + 1, r);
    }
  }

  // ---------------------------------------------------------------- byte renormalisation

  /** Encoder side: shed low bytes until x < xmax. */
  function Shed(x: nat, xmax: nat, tail: seq<Byte>): (nat, seq<Byte>)
    requires xmax > 0
  {
    if x >= xmax then Shed(x / 256, xmax, [x % 256] + tail) else (x, tail)
  }

  /** Decoder side: pull bytes until x >= 0x80_0000; None when the stream runs dry. */
  function Refill(x: nat, s: seq<Byte>): Option<(nat, seq<Byte>)>
    decreases |s|
  {
    if x >= 0x80_0000 then Some((x, s))
    else if s == [] then None
    else Refill(x * 256 + s[0], s[1..])
  }

  lemma ShedOne(x: nat, b: Byte, tail: seq<Byte>)
    ensures (x * 256 + b) / 256 == x && (x * 256 + b) % 256 == b
    ensures ([b] + tail)[0] == b && ([b] + tail)[1..] == tail
  {
  }

  /** From a state in range, shedding reaches [2^11 f, 2^19 f) and refilling undoes it. */
  lemma {:induction false} ShedRefill(x: nat, f: nat, tail: seq<Byte>)
    requires 0x80_0000 <= x < 0x8000_0000 && 1 <= f <= 4096
    ensures var (y, t) := Shed(x, 0x8_0000 * f, tail);
            0x800 * f <= y < 0x8_0000 * f && Refill(y, t) == Some((x, tail))
  {
    var xmax := 0x8_0000 * f;
    if x >= xmax {
      var y1, t1 := x / 256, [x % 256] + tail;
      ShedOne(y1, x % 256, tail);
      assert Refill(y1, t1) == Some((x, tail));
      if y1 >= xmax {
        var y2, t2 := y1 / 256, [y1 % 256] + t1;
        ShedOne(y2, y1 % 256, t1);
        assert Shed(y1, xmax, t1) == Shed(y2, xmax, t2) == (y2, t2);
      } else {
        assert Shed(y1, xmax, t1) == (y1, t1);
      }
    }
  }

  /** A refill from [2^11 f, 2^19 f) lands in range after at most two bytes, and shedding undoes it. */
  lemma {:induction false} RefillShed(y: nat, f: nat, s: seq<Byte>)
    requires 1 <= f <= 4096 && 0x800 * f <= y < 0x8_0000 * f
    requires Refill(y, s).Some?
    ensures var (x, t) := Refill(y, s).value;
            0x80_0000 <= x < 0x8000_0000 && |t| <= |s| <= |t| + 2 && Shed(x, 0x8_0000 * f, t) == (y, s)
  {
    var xmax := 0x8_0000 * f;
    if y < 0x80_0000 {
      var x1, s1 := y * 256 + s[0], s[1..];
      ShedOne(y, s[0], s1);
      assert s == [s[0]] + s1;
      assert Shed(x1, xmax, s1) == Shed(y, xmax, s) == (y, s);
      if x1 < 0x80_0000 {
        var x2, s2 := x1 * 256 + s1[0], s1[1..];
        ShedOne(x1, s1[0], s2);
        assert s1 == [s1[0]] + s2;
        assert Shed(x2, xmax, s2) == Shed(x1, xmax, s1);
        assert Refill(x1, s1) == Refill(x2, s2);
      }
    }
  }

  // ---------------------------------------------------------------- one symbol

  /** The arithmetic of one encode step, after renormalisation. */
  function Mix(x: nat, f: nat, c: nat): nat
    requires f > 0
  {
    (x / f) * 4096 + x % f + c
  }

  /** The arithmetic of one decode step, before renormalisation. */
  function Unmix(y: nat, f: nat, c: nat): nat
    requires c <= y % 4096
  {
    f * (y / 4096) + (y % 4096 - c)
  }

  lemma MixUnmix(x: nat, f: nat, c: nat)
    requires f > 0 && c + f <= 4096
    ensures var y := Mix(x, f, c);
            c <= y % 4096 < c + f && Unmix(y, f, c) == x
  {
    var q, r := x / f, x % f;
    var y := q * 4096 + (r + c);
    assert y / 4096 == q && y % 4096 == r + c;
    assert f * q + r == x;
  }

  lemma {:induction false} DivideBack(f: nat, q: nat, r: nat)
    requires r < f
    ensures (f * q + r) / f == q && (f * q + r) % f == r
  {
    var x := f * q + r;
    var d := q - x / f;
    assert f * d == x % f - r;
    MulMonotone(f, 1, d);
    MulMonotone(f, d, -1);
  }

  lemma {:induction false} UnmixMix(y: nat, f: nat, c: nat)
    requires f > 0 && c + f <= 4096 && c <= y % 4096 < c + f
    ensures Mix(Unmix(y, f, c), f, c) == y
  {
    DivideBack(f, y / 4096, y % 4096 - c);
  }

  /** Mixing maps [2^11 f, 2^19 f) into the state interval. */
  lemma {:induction false} MixRange(x: nat, f: nat, c: nat)
    requires 0 < f && c + f <= 4096 && 0x800 * f <= x < 0x8_0000 * f
    ensures 0x80_0000 <= Mix(x, f, c) < 0x8000_0000
  {
    var q := x / f;
    assert f * q + x % f == x;
    MulMonotone(f, q + 1, 0x800);
    MulMonotone(f, 0x8_0000, q);
  }

  /** Unmixing maps the state interval into [2^11 f, 2^19 f). */
  lemma {:induction false} UnmixRange(y: nat, f: nat, c: nat)
    requires 0 < f && c + f <= 4096 && c <= y % 4096 < c + f
    ensures y >= 0x80_0000 ==> 0x800 * f <= Unmix(y, f, c)
    ensures y < 0x8000_0000 ==> Unmix(y, f, c) < 0x8_0000 * f
  {
    var q := y / 4096;
    MulMonotone(f, 0x800, q);
    MulMonotone(f, q + 1, 0x8_0000);
  }

  /** Encode one nibble. */
  function Put(freq: seq<nat>, sym: Nibble, x: nat, s: seq<Byte>): (nat, seq<Byte>)
    requires |freq| == 16 && freq[sym] > 0
  {
    var (y, t) := Shed(x, 0x8_0000 * freq[sym], s);
    (Mix(y, freq[sym], Cum(freq, sym)), t)
  }

  /** Decode one nibble, every byte checked against the end of the stream. */
  function Take(freq: seq<nat>, y: nat, s: seq<Byte>): Option<(Nibble, nat, seq<Byte>)>
    requires Table(freq)
  {
    var sym := SymbolOf(freq, y % 4096);
    var r := Refill(Unmix(y, freq[sym], Cum(freq, sym)), s);
    if r.None? then None else Some((sym, r.value.0, r.value.1))
  }

  /** Decoding undoes encoding, and the state never leaves [2^23, 2^31). */
  lemma PutTake(freq: seq<nat>, sym: Nibble, x: nat, s: seq<Byte>)
    requires Table(freq) && freq[sym] > 0 && 0x80_0000 <= x < 0x8000_0000
    ensures var (y, t) := Put(freq, sym, x, s);
            0x80_0000 <= y < 0x8000_0000 && Take(freq, y, t) == Some((sym, x, s))
  {
    var f, c := freq[sym], Cum(freq, sym);
    SlotRange(freq, sym);
    var (x1, t) := Shed(x, 0x8_0000 * f, s);
    ShedRefill(x, f, s);
    MixRange(x1, f, c);
    MixUnmix(x1, f, c);
    SymbolUnique(freq, Mix(x1, f, c) % 4096, sym);
  }

  /** Encoding undoes decoding from any state the encoder could hold. */
  lemma {:induction false} TakePut(freq: seq<nat>, y: nat, t: seq<Byte>)
    requires Table(freq) && 0x80_0000 <= y < 0x8000_0000 && Take(freq, y, t).Some?
    ensures var (sym, x, s) := Take(freq, y, t).value;
            0x80_0000 <= x < 0x8000_0000 && freq[sym] > 0 && Put(freq, sym, x, s) == (y, t)
  {
    var sym := SymbolOf(freq, y % 4096);
    var f, c := freq[sym], Cum(freq, sym);
    SlotRange(freq, sym);
    UnmixRange(y, f, c);
    UnmixMix(y, f, c);
    RefillShed(Unmix(y, f, c), f, t);
  }

  // ---------------------------------------------------------------- interleaved states

  function Low(v: Byte): Nibble { v % 16 }

  function High(v: Byte): Nibble { v / 16 }

  function Pair(lo: Nibble, hi: Nibble): (v: Byte)
    ensures Low(v) == lo && High(v) == hi
  {
    lo + 16 * hi
  }

  lemma PairOfHalves(v: Byte)
    ensures Pair(Low(v), High(v)) == v
  {
  }

  datatype Coded = Coded(a: nat, b: nat, stream: seq<Byte>)

  /** Every nibble of data has a frequency. */
  ghost predicate Covers(freq: seq<nat>, data: seq<Byte>) {
    |freq| == 16 && forall i :: 0 <= i < |data| ==> freq[Low(data[i])] > 0 && freq[High(data[i])] > 0
  }

  /** The encoder's loop, last byte first: high nibble on state b, then low nibble on state a. */
  ghost function Encode(freq: seq<nat>, data: seq<Byte>): Coded
    requires Covers(freq, data)
  {
    if data == [] then Coded(0x80_0000, 0x80_0000, []) else EncodeByte(freq, data[0], Encode(freq, data[1..]))
  }

  function EncodeByte(freq: seq<nat>, v: Byte, k: Coded): Coded
    requires |freq| == 16 && freq[Low(v)] > 0 && freq[High(v)] > 0
  {
    var (b, s) := Put(freq, High(v), k.b, k.stream);
    var (a, t) := Put(freq, Low(v), k.a, s);
    Coded(a, b, t)
  }

  /** The checked decoder: low nibble from state a, then high nibble from state b. */
  function DecodeByte(freq: seq<nat>, k: Coded): Option<(Byte, Coded)>
    requires Table(freq)
  {
    var lo := Take(freq, k.a, k.stream);
    if lo.None? then None else
    var hi := Take(freq, k.b, lo.value.2);
    if hi.None? then None else
    Some((Pair(lo.value.0, hi.value.0), Coded(lo.value.1, hi.value.1, hi.value.2)))
  }

  /** m bytes, then whatever state and stream are left. */
  ghost function Decode(freq: seq<nat>, k: Coded, m: nat): Option<(seq<Byte>, Coded)>
    requires Table(freq)
    decreases m
  {
    if m == 0 then Some(([], k)) else
    var first := DecodeByte(freq, k);
    if first.None? then None else
    var rest := Decode(freq, first.value.1, m - 1);
    if rest.None? then None else Some(([first.value.0] + rest.value.0, rest.value.1))
  }

  ghost predicate InRange(k: Coded) {
    0x80_0000 <= k.a < 0x8000_0000 && 0x80_0000 <= k.b < 0x8000_0000
  }

  lemma {:induction false} EncodeDecodeByte(freq: seq<nat>, v: Byte, k: Coded)
    requires Table(freq) && freq[Low(v)] > 0 && freq[High(v)] > 0 && InRange(k)
    ensures InRange(EncodeByte(freq, v, k)) && DecodeByte(freq, EncodeByte(freq, v, k)) == Some((v, k))
  {
    var (b, s) := Put(freq, High(v), k.b, k.stream);
    PutTake(freq, High(v), k.b, k.stream);
    PutTake(freq, Low(v), k.a, s);
    PairOfHalves(v);
  }

  lemma DecodeEncodeByte(freq: seq<nat>, k: Coded)
    requires Table(freq) && InRange(k) && DecodeByte(freq, k).Some?
    ensures var (v, k') := DecodeByte(freq, k).value;
            InRange(k') && freq[Low(v)] > 0 && freq[High(v)] > 0 && EncodeByte(freq, v, k') == k
  {
    TakePut(freq, k.a, k.stream);
    var lo := Take(freq, k.a, k.stream).value;
    TakePut(freq, k.b, lo.2);
    var hi := Take(freq, k.b, lo.2).value;
  }

  /** Round trip: decoding |data| bytes of the encoder's output returns data, with
      both states back at 2^23 and the stream used up. */
  lemma {:induction false} DecodeOfEncode(freq: seq<nat>, data: seq<Byte>)
    requires Table(freq) && Covers(freq, data)
    ensures InRange(Encode(freq, data))
    ensures Decode(freq, Encode(freq, data), |data|) == Some((data, Coded(0x80_0000, 0x80_0000, [])))
  {
    if data != [] {
      DecodeOfEncode(freq, data[1..]);
      EncodeDecodeByte(freq, data[0], Encode(freq, data[1..]));
      assert [data[0]] + data[1..] == data;
    }
  }

  lemma DecodeStep(freq: seq<nat>, k: Coded, m: nat)
    requires Table(freq) && m > 0 && Decode(freq, k, m).Some?
    ensures DecodeByte(freq, k).Some?
    ensures var (v, k') := DecodeByte(freq, k).value;
            Decode(freq, k', m - 1).Some? &&
            Decode(freq, k, m) == Some(([v] + Decode(freq, k', m - 1).value.0, Decode(freq, k', m - 1).value.1))
  {
  }

  lemma EncodeCons(freq: seq<nat>, v: Byte, data: seq<Byte>)
    requires Covers(freq, data) && freq[Low(v)] > 0 && freq[High(v)] > 0
    ensures Covers(freq, [v] + data) && Encode(freq, [v] + data) == EncodeByte(freq, v, Encode(freq, data))
  {
    assert ([v] + data)[1..] == data;
  }

  /** Canonical: a run that starts in range and ends on the seals is the encoder's own run
      on the decoded bytes. */
  lemma {:induction false} EncodeOfDecode(freq: seq<nat>, k: Coded, m: nat)
    requires Table(freq) && InRange(k) && Decode(freq, k, m).Some?
    requires Decode(freq, k, m).value.1 == Coded(0x80_0000, 0x80_0000, [])
    decreases m
    ensures var data := Decode(freq, k, m).value.0;
            |data| == m && Covers(freq, data) && Encode(freq, data) == k
  {
    if m > 0 {
      DecodeStep(freq, k, m);
      DecodeEncodeByte(freq, k);
      var v, k' := DecodeByte(freq, k).value.0, DecodeByte(freq, k).value.1;
      EncodeOfDecode(freq, k', m - 1);
      EncodeCons(freq, v, Decode(freq, k', m - 1).value.0);
    }
  }

  // ---------------------------------------------------------------- streams of another length

  lemma {:induction false} RefillExtends(y: nat, s: seq<Byte>, t: seq<Byte>)
    requires Refill(y, s).Some?
    ensures |Refill(y, s).value.1| <= |s|
    ensures Refill(y, s + t) == Some((Refill(y, s).value.0, Refill(y, s).value.1 + t))
    decreases |s|
  {
    if y < 0x80_0000 {
      assert (s + t)[1..] == s[1..] + t;
      RefillExtends(y * 256 + s[0], s[1..], t);
    }
  }

  lemma DecodeByteExtends(freq: seq<nat>, k: Coded, t: seq<Byte>)
    requires Table(freq) && DecodeByte(freq, k).Some?
    ensures var (v, e) := DecodeByte(freq, k).value;
            DecodeByte(freq, k.(stream := k.stream + t)) == Some((v, e.(stream := e.stream + t)))
  {
    var lo, hi := SymbolOf(freq, k.a % 4096), SymbolOf(freq, k.b % 4096);
    RefillExtends(Unmix(k.a, freq[lo], Cum(freq, lo)), k.stream, t);
    RefillExtends(Unmix(k.b, freq[hi], Cum(freq, hi)), Take(freq, k.a, k.stream).value.2, t);
  }

  /** Bytes after the part that was read stay unread and change nothing. */
  lemma {:induction false} DecodeExtends(freq: seq<nat>, k: Coded, m: nat, t: seq<Byte>)
    requires Table(freq) && Decode(freq, k, m).Some?
    decreases m
    ensures var (data, e) := Decode(freq, k, m).value;
            |data| == m &&
            Decode(freq, k.(stream := k.stream + t), m) == Some((data, e.(stream := e.stream + t)))
  {
    if m > 0 {
      DecodeStep(freq, k, m);
      DecodeByteExtends(freq, k, t);
      var k' := DecodeByte(freq, k).value.1;
      DecodeExtends(freq, k', m - 1, t);
      assert Decode(freq, k'.(stream := k'.stream + t), m - 1).Some?;
    }
  }
}
