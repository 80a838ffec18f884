/** cfse_decompress as it runs: packed table, unchecked pair loop, checked tail. Every 32-bit
    value has type U32, so the proof covers the absence of wrap-around. The input is a C
    const buffer; indexing it is only possible below its end. */
module CfseDecompress {
  import opened Wrappers
  import opened RansCore
  import opened Cfse

  // ---------------------------------------------------------------- the packed table

  /** bias << 20 | freq << 7 | sym; the fields do not overlap, so the ors are sums. */
  function Pack(bias: nat, f: nat, sym: Nibble): U32
    requires bias < 4096 && f <= 4096
  {
    bias * 0x10_0000 + f * 0x80 + sym
  }

  function EntryBias(e: U32): nat { e / 0x10_0000 }

  function EntryFreq(e: U32): nat { e / 0x80 % 0x2000 }

  function EntrySym(e: U32): Nibble { e % 16 }

  lemma {:induction false} Unpack(bias: nat, f: nat, sym: Nibble)
    requires bias < 4096 && f <= 4096
    ensures var e := Pack(bias, f, sym);
            EntryBias(e) == bias && EntryFreq(e) == f && EntrySym(e) == sym
  {
    var e := Pack(bias, f, sym);
    var m := bias * 0x2000 + f;
    DivideBack(0x80, m, sym);
    DivideBack(0x2000, bias, f);
    DivideBack(0x10_0000, bias, f * 0x80 + sym);
    DivideBack(16, m * 8, sym);
  }

  function Entry(freq: seq<nat>, slot: nat): U32
    requires Table(freq) && slot < 4096
  {
    var sym := SymbolOf(freq, slot);
    SlotRange(freq, sym);
    Pack(slot - Cum(freq, sym), freq[sym], sym)
  }

  ghost predicate Filled(tab: array<U32>, freq: seq<nat>)
    reads tab
  {
    Table(freq) && tab.Length == 4096 &&
    forall slot :: 0 <= slot < 4096 ==> tab[slot] == Entry(freq, slot)
  }

  method Cumulate(freq: array<nat>) returns (cum: array<nat>)
    ensures fresh(cum) && cum.Length == freq.Length + 1
    ensures forall i :: 0 <= i <= freq.Length ==> cum[i] == Cum(freq[..], i)
  {
    cum := new nat[freq.Length + 1];
    cum[0] := 0;
    for i := 0 to freq.Length
      invariant forall k :: 0 <= k <= i ==> cum[k] == Cum(freq[..], k)
    {
      cum[i + 1] := cum[i] + freq[i];
    }
  }

  method FillTable(freq: array<nat>, cum: array<nat>, tab: array<U32>)
    requires freq.Length == 16 && Table(freq[..]) && cum.Length == 17 && tab.Length == 4096
    requires forall i :: 0 <= i <= 16 ==> cum[i] == Cum(freq[..], i)
    modifies tab
    ensures Filled(tab, freq[..])
  {
    ghost var f := freq[..];
    for s := 0 to 16
      invariant forall k :: 0 <= k < 4096 && k < Cum(f, s) ==> tab[k] == Entry(f, k)
    {
      SlotRange(f, s);
      var slot := cum[s];
      while slot < cum[s + 1]
        invariant Cum(f, s) <= slot <= Cum(f, s + 1)
        invariant forall k :: 0 <= k < 4096 && k < slot ==> tab[k] == Entry(f, k)
      {
        SymbolUnique(f, slot, s);
        tab[slot] := Pack(slot - cum[s], freq[s], s);
        slot := slot + 1;
      }
    }
    assert Cum(f, |f|) == 4096;
  }

  // ---------------------------------------------------------------- one state

  /** No wrap for any 32-bit state, and at least 2^11 from a state at or above 2^23. */
  lemma {:induction false} UnmixFits(freq: seq<nat>, x: U32)
    requires Table(freq)
    ensures var sym := SymbolOf(freq, x % 4096);
            var y := Unmix(x, freq[sym], Cum(freq, sym));
            y < 0x1_0000_0000 && (x >= 0x80_0000 ==> y >= 0x800)
  {
    var sym := SymbolOf(freq, x % 4096);
    var f, c, q := freq[sym], Cum(freq, sym), x / 4096;
    SlotRange(freq, sym);
    UnmixRange(x, f, c);
    MulMonotone(q, f, 4096);
    assert f * q == q * f;
  }

  /** The table lookup and multiply shared by both loops. */
  method Lookup(ghost freq: seq<nat>, tab: array<U32>, x: U32) returns (e: U32, y: U32)
    requires Filled(tab, freq)
    ensures EntrySym(e) == SymbolOf(freq, x % 4096)
    ensures y == Unmix(x, freq[EntrySym(e)], Cum(freq, EntrySym(e)))
    ensures x >= 0x80_0000 ==> y >= 0x800
  {
    ghost var sym := SymbolOf(freq, x % 4096);
    SlotRange(freq, sym);
    UnmixFits(freq, x);
    Unpack(x % 4096 - Cum(freq, sym), freq[sym], sym);
    e := tab[x % 4096];
    y := EntryFreq(e) * (x / 4096) + EntryBias(e);
  }

  lemma RefillOne(y: nat, inp: seq<Byte>, q: nat)
    requires y < 0x80_0000 && q < |inp|
    ensures Refill(y, inp[q..]) == Refill(y * 256 + inp[q], inp[q + 1..])
  {
    assert inp[q..][1..] == inp[q + 1..];
  }

  /** Unchecked: at most two bytes, no test against the end. */
  method StepFast(ghost freq: seq<nat>, tab: array<U32>, x: U32, inp: seq<Byte>, p: nat)
      returns (e: U32, y: U32, q: nat)
    requires Filled(tab, freq) && x >= 0x80_0000 && p + 2 <= |inp|
    ensures p <= q <= p + 2 && y >= 0x80_0000
    ensures Take(freq, x, inp[p..]) == Some((EntrySym(e), y as nat, inp[q..]))
  {
    e, y := Lookup(freq, tab, x);
    q := p;
    ghost var want := Refill(y, inp[p..]);
    if y < 0x80_0000 {
      RefillOne(y, inp, q);
      y, q := y * 256 + inp[q], q + 1;
      if y < 0x80_0000 {
        RefillOne(y, inp, q);
        y, q := y * 256 + inp[q], q + 1;
      }
    }
    assert want == Refill(y, inp[q..]);
  }

  /** Checked: a byte at a time, refusing to pass the end. */
  method StepChecked(ghost freq: seq<nat>, tab: array<U32>, x: U32, inp: seq<Byte>, p: nat)
      returns (ok: bool, e: U32, y: U32, q: nat)
    requires Filled(tab, freq) && x >= 0x80_0000 && p <= |inp|
    ensures ok == Take(freq, x, inp[p..]).Some?
    ensures ok ==> p <= q <= |inp| && y >= 0x80_0000
    ensures ok ==> Take(freq, x, inp[p..]) == Some((EntrySym(e), y as nat, inp[q..]))
  {
    e, y := Lookup(freq, tab, x);
    q := p;
    ghost var want := Refill(y, inp[p..]);
    while y < 0x80_0000
      invariant p <= q <= |inp| && Refill(y, inp[q..]) == want
      decreases |inp| - q
    {
      if q >= |inp| {
        return false, e, y, q;
      }
      RefillOne(y, inp, q);
      y, q := y * 256 + inp[q], q + 1;
    }
    ok := true;
  }

  // ---------------------------------------------------------------- a pair of states

  method PairFast(ghost freq: seq<nat>, tab: array<U32>, xa: U32, xb: U32, inp: seq<Byte>, p: nat)
      returns (v: Byte, ya: U32, yb: U32, q: nat)
    requires Filled(tab, freq) && xa >= 0x80_0000 && xb >= 0x80_0000 && p + 4 <= |inp|
    ensures p <= q <= p + 4 && ya >= 0x80_0000 && yb >= 0x80_0000
    ensures DecodeByte(freq, Coded(xa, xb, inp[p..])) == Some((v, Coded(ya, yb, inp[q..])))
  {
    var ea, eb;
    ea, ya, q := StepFast(freq, tab, xa, inp, p);
    eb, yb, q := StepFast(freq, tab, xb, inp, q);
    v := Pair(EntrySym(ea), EntrySym(eb));
  }

  method PairChecked(ghost freq: seq<nat>, tab: array<U32>, xa: U32, xb: U32, inp: seq<Byte>, p: nat)
      returns (ok: bool, v: Byte, ya: U32, yb: U32, q: nat)
    requires Filled(tab, freq) && xa >= 0x80_0000 && xb >= 0x80_0000 && p <= |inp|
    ensures ok == DecodeByte(freq, Coded(xa, xb, inp[p..])).Some?
    ensures ok ==> p <= q <= |inp| && ya >= 0x80_0000 && yb >= 0x80_0000
    ensures ok ==> DecodeByte(freq, Coded(xa, xb, inp[p..])) == Some((v, Coded(ya, yb, inp[q..])))
  {
    var ea, eb;
    ok, ea, ya, q := StepChecked(freq, tab, xa, inp, p);
    if !ok {
      return false, 0, xa, xb, p;
    }
    ok, eb, yb, q := StepChecked(freq, tab, xb, inp, q);
    if !ok {
      return false, 0, xa, xb, p;
    }
    v := Pair(EntrySym(ea), EntrySym(eb));
  }

  // ---------------------------------------------------------------- the loops

  /** total is what remains to be decoded, with done in front. */
  ghost predicate Progress(total: Option<(seq<Byte>, Coded)>, done: seq<Byte>, rest: Option<(seq<Byte>, Coded)>) {
    total == if rest.None? then None else Some((done + rest.value.0, rest.value.1))
  }

  lemma Start(total: Option<(seq<Byte>, Coded)>)
    ensures Progress(total, [], total)
  {
    if total.Some? {
      assert [] + total.value.0 == total.value.0;
    }
  }

  lemma Advance(freq: seq<nat>, total: Option<(seq<Byte>, Coded)>, done: seq<Byte>, k: Coded, m: nat, v: Byte, e: Coded)
    requires Table(freq) && m > 0 && DecodeByte(freq, k) == Some((v, e))
    requires Progress(total, done, Decode(freq, k, m))
    ensures Progress(total, done + [v], Decode(freq, e, m - 1))
  {
    var rest := Decode(freq, e, m - 1);
    if rest.Some? {
      assert done + ([v] + rest.value.0) == done + [v] + rest.value.0;
    }
  }

  lemma Stuck(freq: seq<nat>, total: Option<(seq<Byte>, Coded)>, done: seq<Byte>, k: Coded, m: nat)
    requires Table(freq) && m > 0 && DecodeByte(freq, k) == None
    requires Progress(total, done, Decode(freq, k, m))
    ensures total == None
  {
  }

  lemma Finished(freq: seq<nat>, total: Option<(seq<Byte>, Coded)>, done: seq<Byte>, k: Coded, m: nat)
    requires Table(freq) && m == 0 && Progress(total, done, Decode(freq, k, m))
    ensures total == Some((done, k))
  {
    assert done + [] == done;
  }

  /** The loop has written done, stands at p with states xa and xb, and m bytes are left. */
  ghost predicate Reached(freq: seq<nat>, total: Option<(seq<Byte>, Coded)>, done: seq<Byte>,
                          inp: seq<Byte>, p: nat, xa: U32, xb: U32, m: nat)
  {
    Table(freq) && p <= |inp| && xa >= 0x80_0000 && xb >= 0x80_0000 &&
    Progress(total, done, Decode(freq, Coded(xa, xb, inp[p..]), m))
  }

  /** The hot loop: no byte is tested against the end, four are known to be there per pair. */
  method FastRun(ghost freq: seq<nat>, ghost total: Option<(seq<Byte>, Coded)>, tab: array<U32>, inp: seq<Byte>,
                 p0: nat, a0: U32, b0: U32, j0: nat, stop: nat, ghost n: nat, out: array<Byte>)
      returns (xa: U32, xb: U32, p: nat)
    requires Filled(tab, freq) && tab as object != out && j0 <= stop <= n <= out.Length
    requires Reached(freq, total, out[..j0], inp, p0, a0, b0, n - j0)
    requires p0 + 4 * (stop - j0) <= |inp|
    modifies out
    ensures Reached(freq, total, out[..stop], inp, p, xa, xb, n - stop)
    ensures out[n..] == old(out[n..])
  {
    xa, xb, p := a0, b0, p0;
    for j := j0 to stop
      invariant p + 4 * (stop - j) <= |inp|
      invariant Reached(freq, total, out[..j], inp, p, xa, xb, n - j)
      invariant out[n..] == old(out[n..])
    {
      var v, ya, yb, q := PairFast(freq, tab, xa, xb, inp, p);
      Advance(freq, total, out[..j], Coded(xa, xb, inp[p..]), n - j, v, Coded(ya, yb, inp[q..]));
      ghost var done := out[..j];
      out[j] := v;
      assert out[..j + 1] == done + [v];
      xa, xb, p := ya, yb, q;
    }
  }

  /** The checked pair behind a stretch of unchecked ones. */
  method TailPair(ghost freq: seq<nat>, ghost total: Option<(seq<Byte>, Coded)>, tab: array<U32>, inp: seq<Byte>,
                  p0: nat, a0: U32, b0: U32, j: nat, n: nat, out: array<Byte>)
      returns (ok: bool, xa: U32, xb: U32, p: nat)
    requires Filled(tab, freq) && tab as object != out && j < n <= out.Length
    requires Reached(freq, total, out[..j], inp, p0, a0, b0, n - j)
    modifies out
    ensures !ok ==> total.None?
    ensures ok ==> Reached(freq, total, out[..j + 1], inp, p, xa, xb, n - j - 1)
    ensures out[n..] == old(out[n..])
  {
    hide Filled;
    var v;
    ok, v, xa, xb, p := PairChecked(freq, tab, a0, b0, inp, p0);
    if !ok {
      Stuck(freq, total, out[..j], Coded(a0, b0, inp[p0..]), n - j);
      return;
    }
    Advance(freq, total, out[..j], Coded(a0, b0, inp[p0..]), n - j, v, Coded(xa, xb, inp[p..]));
    ghost var done := out[..j];
    out[j] := v;
    assert out[..j + 1] == done + [v];
  }

  /** The outer loop: as many unchecked pairs as the remaining bytes guarantee, then one
      checked pair, until n pairs are done or the payload runs dry. */
  method DecodeLoop(ghost freq: seq<nat>, tab: array<U32>, inp: seq<Byte>, p0: nat, a0: U32, b0: U32, n: nat, out: array<Byte>)
      returns (ok: bool, xa: U32, xb: U32, p: nat)
    requires Filled(tab, freq) && tab as object != out
    requires p0 <= |inp| && a0 >= 0x80_0000 && b0 >= 0x80_0000 && n <= out.Length
    modifies out
    ensures ok == Decode(freq, Coded(a0, b0, inp[p0..]), n).Some?
    ensures ok ==> p <= |inp| && Decode(freq, Coded(a0, b0, inp[p0..]), n)
                              == Some((out[..n], Coded(xa, xb, inp[p..])))
    ensures out[n..] == old(out[n..])
  {
    ghost var total := Decode(freq, Coded(a0, b0, inp[p0..]), n);
    xa, xb, p := a0, b0, p0;
    var j := 0;
    Start(total);
    assert out[..j] == [];
    while j < n
      invariant j <= n
      invariant Reached(freq, total, out[..j], inp, p, xa, xb, n - j)
      invariant out[n..] == old(out[n..])
    {
      var safe := (|inp| - p) / 4;
      var stop := j + if n - j < safe then n - j else safe;
      xa, xb, p := FastRun(freq, total, tab, inp, p, xa, xb, j, stop, n, out);
      j := stop;
      if j < n {
        ok, xa, xb, p := TailPair(freq, total, tab, inp, p, xa, xb, j, n, out);
        if !ok {
          return;
        }
        j := j + 1;
      }
    }
    Finished(freq, total, out[..n], Coded(xa, xb, inp[p..]), n - j);
    ok := true;
  }

  /** The sixteen frequencies; their sum cannot wrap. */
  method ReadFrequencies(inp: seq<Byte>) returns (freq: array<nat>, sum: U32)
    requires |inp| >= 49
    ensures fresh(freq) && freq[..] == TableField(inp) && sum == Cum(freq[..], freq.Length)
  {
    freq := new nat[16];
    sum := 0;
    ghost var want := TableField(inp);
    for i := 0 to 16
      invariant freq[..i] == want[..i] && sum == Cum(want, i) && sum <= i * 0xFFFF
    {
      assert want[i] == inp[9..41][2 * i] as int + inp[9..41][2 * i + 1] as int * 256;
      freq[i] := inp[9 + 2 * i] as int + inp[10 + 2 * i] as int * 256;
      sum := sum + freq[i];
    }
    assert freq[..] == want;
  }

  /** cfse_decompress. On return 0 the first rawlen bytes of out are the decoded bytes; on -1
      the frame is one that the checked specification rejects. Nothing at or beyond the
      declared length is ever written. */
  method Decompress(inp: seq<Byte>, out: array<Byte>) returns (rc: int, rawlen: nat)
    modifies out
    ensures rc == if Decompressed(inp, out.Length).Some? then 0 else -1
    ensures rc == 0 ==> rawlen <= out.Length && Decompressed(inp, out.Length) == Some(out[..rawlen])
    ensures !HeaderOk(inp, out.Length) ==> out[..] == old(out[..])
    ensures HeaderOk(inp, out.Length) ==> rawlen == LengthField(inp) && out[rawlen..] == old(out[rawlen..])
  {
    if |inp| < 9 || inp[..4] != MAGIC {
      return -1, 0;
    }
    var n := FromLe32(inp[5..9]);
    if n > out.Length {
      return -1, 0;
    }
    rawlen := n;
    if inp[4] == 0 {
      if |inp| != 9 + n {
        return -1, n;
      }
      forall i | 0 <= i < n { out[i] := inp[9 + i]; }
      assert out[..n] == inp[9..];
      return 0, n;
    }
    if inp[4] != 1 || n == 0 || |inp| < 49 {
      return -1, n;
    }
    var freq, sum := ReadFrequencies(inp);
    if sum != 4096 {
      return -1, n;
    }
    rc := DecompressCoded(inp, freq, n, out);
  }

  /** The rest of the function, once the table sums to 4096. */
  method DecompressCoded(inp: seq<Byte>, freq: array<nat>, n: nat, out: array<Byte>) returns (rc: int)
    requires HeaderOk(inp, out.Length) && inp[4] == 1 && |inp| >= 49 && n == LengthField(inp) > 0
    requires freq[..] == TableField(inp) && Table(freq[..]) && freq as object != out
    modifies out
    ensures rc == if Decompressed(inp, out.Length).Some? then 0 else -1
    ensures rc == 0 ==> Decompressed(inp, out.Length) == Some(out[..n])
    ensures out[n..] == old(out[n..])
  {
    var cum := Cumulate(freq);
    var tab := new U32[4096];
    FillTable(freq, cum, tab);
    var xa, xb := FromLe32(inp[41..45]), FromLe32(inp[45..49]);
    if xa < 0x80_0000 || xb < 0x80_0000 {
      return -1;
    }
    var ok, p;
    ok, xa, xb, p := DecodeLoop(freq[..], tab, inp, 49, xa, xb, n, out);
    if !ok || p != |inp| {
      return -1;
    }
    if xa != 0x80_0000 || xb != 0x80_0000 {
      return -1;
    }
    rc := 0;
  }
}
