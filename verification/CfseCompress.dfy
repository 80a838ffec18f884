/** cfse_compress as it runs: the payload is written backwards from the end of the caller's
    buffer, then moved behind the header, or given up for raw mode. */
module CfseCompress {
  import opened Wrappers
  import opened RansCore
  import opened CfseNormalize
  import opened Cfse
  import CfseDecompress

  // ---------------------------------------------------------------- the loop order

  /** State of the encoder's loop when nibbles i and later are done. */
  ghost function EncodeFrom(freq: seq<nat>, data: seq<Byte>, i: nat): Coded
    requires Covers(freq, data) && i <= 2 * |data|
    decreases 2 * |data| - i
  {
    if i == 2 * |data| then Coded(0x80_0000, 0x80_0000, [])
    else
      var k := EncodeFrom(freq, data, i + 1);
      if i % 2 == 1 then
        var (b, s) := Put(freq, High(data[i / 2]), k.b, k.stream);
        Coded(k.a, b, s)
      else
        var (a, s) := Put(freq, Low(data[i / 2]), k.a, k.stream);
        Coded(a, k.b, s)
  }

  lemma {:induction false} EncodeFromByte(freq: seq<nat>, data: seq<Byte>, j: nat)
    requires Covers(freq, data) && j <= |data|
    ensures EncodeFrom(freq, data, 2 * j) == Encode(freq, data[j..])
    decreases |data| - j
  {
    if j < |data| {
      EncodeFromByte(freq, data, j + 1);
      assert data[j..][0] == data[j] && data[j..][1..] == data[j + 1..];
      assert (2 * j + 1) % 2 == 1 && (2 * j + 1) / 2 == j && (2 * j) / 2 == j;
      var k := EncodeFrom(freq, data, 2 * j + 2);
      var (b, s) := Put(freq, High(data[j]), k.b, k.stream);
      assert EncodeFrom(freq, data, 2 * j + 1) == Coded(k.a, b, s);
    }
  }

  lemma {:induction false} EncodeFromStart(freq: seq<nat>, data: seq<Byte>)
    requires Covers(freq, data)
    ensures EncodeFrom(freq, data, 0) == Encode(freq, data)
  {
    EncodeFromByte(freq, data, 0);
    assert data[0..] == data;
  }

  lemma {:induction false} ShedGrows(x: nat, xmax: nat, s: seq<Byte>)
    requires xmax > 0
    ensures |Shed(x, xmax, s).1| >= |s| + if x >= xmax then 1 else 0
    decreases x
  {
    if x >= xmax {
      ShedGrows(x / 256, xmax, [x % 256] + s);
    }
  }

  lemma {:induction false} EncodeGrows(freq: seq<nat>, data: seq<Byte>, i: nat, j: nat)
    requires Covers(freq, data) && i <= j <= 2 * |data|
    ensures |EncodeFrom(freq, data, i).stream| >= |EncodeFrom(freq, data, j).stream|
    decreases j - i
  {
    if i < j {
      EncodeGrows(freq, data, i + 1, j);
      var k := EncodeFrom(freq, data, i + 1);
      if i % 2 == 1 {
        ShedGrows(k.b, 0x8_0000 * freq[High(data[i / 2])], k.stream);
      } else {
        ShedGrows(k.a, 0x8_0000 * freq[Low(data[i / 2])], k.stream);
      }
    }
  }

  // ---------------------------------------------------------------- one nibble

  /** Bytes 0..41 of out are the header and table; the stream lives in out[p..]. */
  method PutNibble(freq: array<nat>, cum: array<nat>, sym: Nibble, x0: U32, out: array<Byte>, p: nat)
      returns (ok: bool, x: U32, q: nat)
    requires freq.Length == 16 && Table(freq[..]) && freq[sym] > 0
    requires cum.Length == 17 && cum[sym] == Cum(freq[..], sym)
    requires freq as object != out && cum as object != out
    requires 0x80_0000 <= x0 < 0x8000_0000 && 41 <= p <= out.Length
    modifies out
    ensures out[..41] == old(out[..41])
    ensures ok ==> 41 <= q <= p && 0x80_0000 <= x < 0x8000_0000
    ensures ok ==> Put(freq[..], sym, x0, old(out[p..])) == (x as nat, out[q..])
    ensures !ok ==> |Put(freq[..], sym, x0, old(out[p..])).1| > out.Length - 41
  {
    ghost var f, c := freq[..], Cum(freq[..], sym);
    SlotRange(f, sym);
    PutTake(f, sym, x0, out[p..]);
    x, q := x0, p;
    var xmax: U32 := 0x8_0000 * freq[sym];
    ghost var want := Shed(x0, xmax, out[p..]);
    while x >= xmax
      invariant 41 <= q <= p && Shed(x, xmax, out[q..]) == want
      invariant out[..41] == old(out[..41])
      decreases x
    {
      if q <= 41 {
        ShedGrows(x, xmax, out[q..]);
        return false, x, q;
      }
      ghost var tail := out[q..];
      out[q - 1] := x % 256;
      assert out[q - 1..] == [x % 256] + tail;
      q, x := q - 1, x / 256;
    }
    ok := true;
    x := (x / freq[sym]) * 4096 + x % freq[sym] + cum[sym];
  }

  // ---------------------------------------------------------------- the whole payload

  method CountNibbles(inp: seq<Byte>) returns (cnt: array<nat>)
    ensures fresh(cnt) && cnt.Length == 16 && cnt[..] == Histogram(inp, |inp|)
  {
    cnt := new nat[16](_ => 0);
    for i := 0 to |inp|
      invariant forall s :: 0 <= s < 16 ==> cnt[s] == CountTo(inp, i, s)
    {
      var lo, hi := Low(inp[i]), High(inp[i]);
      cnt[lo] := cnt[lo] + 1;
      cnt[hi] := cnt[hi] + 1;
    }
    assert cnt[..] == Histogram(inp, |inp|);
  }

  /** The encoder's states and stream with nibbles i and later done. */
  ghost predicate EncodedFrom(f: seq<nat>, inp: seq<Byte>, i: nat, xa: U32, xb: U32, stream: seq<Byte>) {
    Table(f) && Covers(f, inp) && i <= 2 * |inp| && EncodeFrom(f, inp, i) == Coded(xa, xb, stream) &&
    0x80_0000 <= xa < 0x8000_0000 && 0x80_0000 <= xb < 0x8000_0000
  }

  /** One turn of the loop: nibble i, on the state of its parity. */
  method EncodeNext(inp: seq<Byte>, freq: array<nat>, cum: array<nat>, out: array<Byte>, i: nat, xa0: U32, xb0: U32, p0: nat)
      returns (ok: bool, xa: U32, xb: U32, p: nat)
    requires freq.Length == 16 && i < 2 * |inp| && 41 <= p0 <= out.Length
    requires EncodedFrom(freq[..], inp, i + 1, xa0, xb0, out[p0..])
    requires cum.Length == 17 && forall k :: 0 <= k <= 16 ==> cum[k] == Cum(freq[..], k)
    requires freq as object != out && cum as object != out
    modifies out
    ensures out[..41] == old(out[..41])
    ensures ok ==> 41 <= p <= out.Length && EncodedFrom(freq[..], inp, i, xa, xb, out[p..])
    ensures !ok ==> |Encode(freq[..], inp).stream| > out.Length - 41
  {
    xa, xb := xa0, xb0;
    if i % 2 == 1 {
      ok, xb, p := PutNibble(freq, cum, High(inp[i / 2]), xb, out, p0);
    } else {
      ok, xa, p := PutNibble(freq, cum, Low(inp[i / 2]), xa, out, p0);
    }
    if !ok {
      EncodeGrows(freq[..], inp, 0, i);
      EncodeFromStart(freq[..], inp);
    }
  }

  /** The backwards loop over all 2n nibbles. A failure means the stream cannot fit. */
  method EncodeLoop(inp: seq<Byte>, freq: array<nat>, cum: array<nat>, out: array<Byte>)
      returns (ok: bool, xa: U32, xb: U32, p: nat)
    requires freq.Length == 16 && Table(freq[..]) && Covers(freq[..], inp)
    requires cum.Length == 17 && forall i :: 0 <= i <= 16 ==> cum[i] == Cum(freq[..], i)
    requires freq as object != out && cum as object != out && out.Length >= 41
    modifies out
    ensures out[..41] == old(out[..41])
    ensures ok ==> 41 <= p <= out.Length && xa < 0x8000_0000 && xb < 0x8000_0000 &&
                   Encode(freq[..], inp) == Coded(xa, xb, out[p..])
    ensures !ok ==> |Encode(freq[..], inp).stream| > out.Length - 41
  {
    xa, xb, p := 0x80_0000, 0x80_0000, out.Length;
    var i: nat := 2 * |inp|;
    assert out[p..] == [];
    while i > 0
      invariant 41 <= p <= out.Length && EncodedFrom(freq[..], inp, i, xa, xb, out[p..])
      invariant out[..41] == old(out[..41]) && freq[..] == old(freq[..])
    {
      i := i - 1;
      ok, xa, xb, p := EncodeNext(inp, freq, cum, out, i, xa, xb, p);
      if !ok {
        return;
      }
    }
    EncodeFromStart(freq[..], inp);
    ok := true;
  }

  /** Four bytes below p, most significant first, so that they read little-endian. */
  method Flush32(x: U32, out: array<Byte>, p: nat)
    requires 45 <= p <= out.Length
    modifies out
    ensures out[p - 4..] == Le32(x) + old(out[p..])
    ensures out[..41] == old(out[..41])
  {
    out[p - 1] := Truncate(x / 0x100_0000);
    out[p - 2] := Truncate(x / 0x1_0000);
    out[p - 3] := Truncate(x / 0x100);
    out[p - 4] := Truncate(x);
  }

  /** The states B then A, so that A reads first. */
  method FlushStates(xa: U32, xb: U32, out: array<Byte>, p: nat)
    requires 49 <= p <= out.Length
    modifies out
    ensures out[p - 8..] == Le32(xa) + Le32(xb) + old(out[p..])
    ensures out[..41] == old(out[..41])
  {
    Flush32(xb, out, p);
    Flush32(xa, out, p - 4);
  }

  /** Encode loop, flush of B then A, and the test that the frame is shorter than raw. */
  method EncodePayload(inp: seq<Byte>, freq: array<nat>, out: array<Byte>) returns (ok: bool, p: nat)
    requires freq.Length == 16 && Table(freq[..]) && Covers(freq[..], inp) && inp != []
    requires freq as object != out && out.Length >= |inp| + 73
    modifies out
    ensures out[..41] == old(out[..41])
    ensures InRange(Encode(freq[..], inp))
    ensures ok == (|Body(freq[..], Encode(freq[..], inp))| < |inp|)
    ensures ok ==> 41 <= p <= out.Length &&
                   TableBytes(freq[..]) + out[p..] == Body(freq[..], Encode(freq[..], inp))
  {
    ghost var f := freq[..];
    DecodeOfEncode(f, inp);
    var cum := CfseDecompress.Cumulate(freq);
    var fits, xa, xb, p0 := EncodeLoop(inp, freq, cum, out);
    if !fits || p0 - 41 < 8 {
      return false, 41;
    }
    FlushStates(xa, xb, out, p0);
    p := p0 - 8;
    ok := 9 + 32 + (out.Length - p) < |inp| + 9;
  }

  // ---------------------------------------------------------------- cfse_compress

  method WriteHeader(n: U32, mode: Byte, out: array<Byte>)
    requires out.Length >= 9
    modifies out
    ensures out[..9] == MAGIC + [mode] + Le32(n) && out[9..] == old(out[9..])
  {
    out[0], out[1], out[2], out[3] := 67, 70, 83, 49;
    out[5], out[6] := Truncate(n), Truncate(n / 0x100);
    out[7], out[8] := Truncate(n / 0x1_0000), Truncate(n / 0x100_0000);
    out[4] := mode;
  }

  method WriteRaw(inp: seq<Byte>, out: array<Byte>) returns (r: nat)
    requires |inp| <= MAX_LENGTH && out.Length >= |inp| + 9
    modifies out
    ensures r == |inp| + 9 && out[..r] == Frame(|inp|, 0, inp)
  {
    WriteHeader(|inp|, 0, out);
    ghost var head := out[..9];
    forall i | 0 <= i < |inp| { out[9 + i] := inp[i]; }
    r := |inp| + 9;
    assert out[..r] == head + inp;
  }

  method WriteTable(freq: array<nat>, out: array<Byte>)
    requires freq.Length == 16 && freq as object != out && out.Length >= 41
    modifies out
    ensures out[9..41] == TableBytes(freq[..])
    ensures out[..9] == old(out[..9]) && out[41..] == old(out[41..])
  {
    ghost var want := TableBytes(freq[..]);
    for i := 0 to 16
      invariant forall k :: 0 <= k < 2 * i ==> out[9 + k] == want[k]
      invariant out[..9] == old(out[..9]) && out[41..] == old(out[41..])
    {
      assert want[2 * i] == Truncate(freq[i]) && want[2 * i + 1] == Truncate(freq[i] / 256);
      out[9 + 2 * i] := Truncate(freq[i]);
      out[10 + 2 * i] := Truncate(freq[i] / 256);
    }
    assert out[9..41] == want;
  }

  /** memmove of out[p..] down to offset 41. */
  method MoveDown(out: array<Byte>, p: nat)
    requires 41 <= p <= out.Length
    modifies out
    ensures out[..41 + (out.Length - p)] == old(out[..41]) + old(out[p..])
  {
    ghost var head, tail := out[..41], out[p..];
    forall i | 0 <= i < out.Length - p { out[41 + i] := out[p + i]; }
    assert out[..41 + (out.Length - p)] == head + tail;
  }

  /** Moves the payload down behind the header and the table. */
  method Compact(n: U32, freq: array<nat>, out: array<Byte>, p: nat) returns (r: nat)
    requires freq.Length == 16 && freq as object != out && 41 <= p <= out.Length
    modifies out
    ensures r == 41 + (out.Length - p)
    ensures out[..r] == Frame(n, 1, TableBytes(freq[..]) + old(out[p..]))
  {
    ghost var payload := out[p..];
    WriteHeader(n, 1, out);
    WriteTable(freq, out);
    assert out[41..][p - 41..] == payload;
    assert out[..41] == out[..9] + out[9..41];
    MoveDown(out, p);
    r := 41 + (out.Length - p);
    assert out[..r] == Frame(n, 1, []) + TableBytes(freq[..]) + payload;
  }

  /** cfse_compress: 0 when the capacity or the length is out of bounds, otherwise the frame,
      which does not depend on the capacity. */
  method Compress(inp: seq<Byte>, out: array<Byte>) returns (r: nat)
    modifies out
    ensures out.Length < |inp| + 73 || |inp| > MAX_LENGTH ==> r == 0 && out[..] == old(out[..])
    ensures out.Length >= |inp| + 73 && |inp| <= MAX_LENGTH ==>
              0 < r <= out.Length && out[..r] == Compressed(inp)
    ensures r > 0 ==> r == 9 + (if CodedSize(inp) < |inp| then CodedSize(inp) else |inp|)
    ensures r > 0 ==> out[4] == if CodedSize(inp) < |inp| then 1 else 0
  {
    hide Compressed, CodedSize;
    if out.Length < |inp| + 73 || |inp| > MAX_LENGTH {
      return 0;
    }
    CompressedSize(inp);
    r := WriteFrame(inp, out);
    assert out[4] == out[..r][4];
  }

  /** The frame, once the bounds are met. */
  method WriteFrame(inp: seq<Byte>, out: array<Byte>) returns (r: nat)
    requires out.Length >= |inp| + 73 && |inp| <= MAX_LENGTH
    modifies out
    ensures 9 <= r <= out.Length && out[..r] == Compressed(inp)
  {
    if inp == [] {
      r := WriteRaw(inp, out);
      return;
    }
    var cnt := CountNibbles(inp);
    var freq := new nat[16];
    OwnTable(inp);
    HistogramSum(inp, |inp|);
    NoWrap(cnt[..]);
    var rc := Normalize(cnt, freq);
    var ok, p := EncodePayload(inp, freq, out);
    if ok {
      r := Compact(|inp|, freq, out, p);
    } else {
      r := WriteRaw(inp, out);
    }
  }

  lemma {:induction false} CumAdd(c: seq<nat>, d: seq<nat>, lo: Nibble, hi: Nibble, n: nat)
    requires |c| == |d| && n <= |c|
    requires forall s :: 0 <= s < |c| ==> d[s] == c[s] + (if lo == s then 1 else 0) + if hi == s then 1 else 0
    ensures Cum(d, n) == Cum(c, n) + (if lo < n then 1 else 0) + if hi < n then 1 else 0
  {
    if n > 0 {
      CumAdd(c, d, lo, hi, n - 1);
    }
  }

  lemma {:induction false} CumZero(c: seq<nat>, n: nat)
    requires n <= |c| && forall s :: 0 <= s < |c| ==> c[s] == 0
    ensures Cum(c, n) == 0
  {
    if n > 0 {
      CumZero(c, n - 1);
    }
  }

  /** The counts of n bytes sum to 2n, so the products in cfse_normalize stay below 2^64. */
  lemma {:induction false} HistogramSum(data: seq<Byte>, n: nat)
    requires n <= |data|
    ensures Cum(Histogram(data, n), |Histogram(data, n)|) == 2 * n
  {
    var d := Histogram(data, n);
    if n == 0 {
      CumZero(d, |d|);
    } else {
      HistogramSum(data, n - 1);
      CumAdd(Histogram(data, n - 1), d, Low(data[n - 1]), High(data[n - 1]), |d|);
    }
  }
}
