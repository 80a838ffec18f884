/** The CFS1 container: what cfse_compress writes and cfse_decompress accepts, as functions
    on byte strings, with the guarantees stated for every input. */
module Cfse {
  import opened Wrappers
  import opened RansCore
  import opened CfseNormalize

  const MAGIC: seq<Byte> := [67, 70, 83, 49] // "CFS1"
  const MAX_LENGTH: nat := 0xFFFF_FFFF

  // ---------------------------------------------------------------- fields

  /** The cast to uint8_t. */
  function Truncate(v: nat): Byte { v % 256 }

  function Le32(v: U32): (r: seq<Byte>)
    ensures |r| == 4
  {
    [Truncate(v), Truncate(v / 0x100), Truncate(v / 0x1_0000), Truncate(v / 0x100_0000)]
  }

  function FromLe32(s: seq<Byte>): U32
    requires |s| == 4
  {
    s[0] as int + s[1] as int * 0x100 + s[2] as int * 0x1_0000 + s[3] as int * 0x100_0000
  }

  lemma Le32Inverse(v: U32)
    ensures FromLe32(Le32(v)) == v
  {
    var v1 := v / 0x100;
    var v2 := v1 / 0x100;
    assert v / 0x1_0000 == v2;
    assert v / 0x100_0000 == v2 / 0x100;
  }

  lemma {:induction false} FromLe32Inverse(s: seq<Byte>)
    requires |s| == 4
    ensures Le32(FromLe32(s)) == s
  {
    var v, x, y := FromLe32(s), s[1] as int + s[2] as int * 0x100 + s[3] as int * 0x1_0000, s[2] as int + s[3] as int * 0x100;
    assert v / 0x100 == x && v / 0x1_0000 == y;
  }

  /** Sixteen little-endian uint16_t. */
  function TableBytes(freq: seq<nat>): (r: seq<Byte>)
    requires |freq| == 16
    ensures |r| == 32
  {
    seq(32, i requires 0 <= i < 32 => Truncate(if i % 2 == 0 then freq[i / 2] else freq[i / 2] / 256))
  }

  function ReadTable(s: seq<Byte>): (r: seq<nat>)
    requires |s| == 32
    ensures |r| == 16
  {
    seq(16, i requires 0 <= i < 16 => s[2 * i] as int + s[2 * i + 1] as int * 256)
  }

  lemma TwoBytes(lo: Byte, hi: Byte)
    ensures Truncate(lo as int + hi as int * 256) == lo && Truncate((lo as int + hi as int * 256) / 256) == hi
  {
  }

  lemma ReadTableInverse(freq: seq<nat>)
    requires |freq| == 16 && forall i :: 0 <= i < 16 ==> freq[i] < 0x1_0000
    ensures ReadTable(TableBytes(freq)) == freq
  {
  }

  lemma TableBytesInverse(s: seq<Byte>)
    requires |s| == 32
    ensures TableBytes(ReadTable(s)) == s
  {
    forall i | 0 <= i < 32
      ensures TableBytes(ReadTable(s))[i] == s[i]
    {
      TwoBytes(s[2 * (i / 2)], s[2 * (i / 2) + 1]);
    }
  }

  // ---------------------------------------------------------------- the encoder's output

  /** How often nibble s occurs in the first n bytes. */
  function CountTo(data: seq<Byte>, n: nat, s: nat): nat
    requires n <= |data|
  {
    if n == 0 then 0
    else CountTo(data, n - 1, s) + (if Low(data[n - 1]) == s then 1 else 0) + if High(data[n - 1]) == s then 1 else 0
  }

  function Histogram(data: seq<Byte>, n: nat): (r: seq<nat>)
    requires n <= |data|
    ensures |r| == 16
  {
    seq(16, s requires 0 <= s < 16 => CountTo(data, n, s))
  }

  function Frame(n: U32, mode: Byte, body: seq<Byte>): seq<Byte> {
    MAGIC + [mode] + Le32(n) + body
  }

  function Body(freq: seq<nat>, k: Coded): seq<Byte>
    requires |freq| == 16 && k.a < 0x8000_0000 && k.b < 0x8000_0000
  {
    TableBytes(freq) + (Le32(k.a) + Le32(k.b) + k.stream)
  }

  lemma {:induction false} CountedNibbles(data: seq<Byte>, n: nat, i: nat)
    requires i < n <= |data|
    ensures CountTo(data, n, Low(data[i])) > 0 && CountTo(data, n, High(data[i])) > 0
  {
    if i < n - 1 {
      CountedNibbles(data, n - 1, i);
    }
  }

  /** The table built from the data's own histogram is usable on the data. */
  lemma OwnTable(data: seq<Byte>)
    requires data != []
    ensures var freq := Normalized(Histogram(data, |data|));
            freq.Some? && Table(freq.value) && Covers(freq.value, data)
  {
    var cnt := Histogram(data, |data|);
    CountedNibbles(data, |data|, 0);
    assert cnt[Low(data[0])] > 0;
    NormalizedTable(cnt);
    forall i | 0 <= i < |data|
      ensures cnt[Low(data[i])] > 0 && cnt[High(data[i])] > 0
    {
      CountedNibbles(data, |data|, i);
    }
  }

  ghost function Compressed(data: seq<Byte>): seq<Byte>
    requires |data| <= MAX_LENGTH
  {
    if data == [] then Frame(0, 0, [])
    else
      OwnTable(data);
      var freq := Normalized(Histogram(data, |data|)).value;
      var k := Encode(freq, data);
      DecodeOfEncode(freq, data);
      if |Body(freq, k)| >= |data| then Frame(|data|, 0, data) else Frame(|data|, 1, Body(freq, k))
  }

  /** The encoder's byte stream under the table of the data's own histogram. */
  ghost function OwnStream(data: seq<Byte>): seq<Byte> {
    if data == [] then []
    else
      OwnTable(data);
      Encode(Normalized(Histogram(data, |data|)).value, data).stream
  }

  /** Bytes behind the header in coded form: the table, the two states, the stream. */
  ghost function CodedSize(data: seq<Byte>): nat { 32 + 8 + |OwnStream(data)| }

  /** The shorter of the two forms is written, and the mode byte says which: coded exactly when that is
      shorter than the data. */
  lemma CompressedSize(data: seq<Byte>)
    requires |data| <= MAX_LENGTH
    ensures |Compressed(data)| == 9 + if CodedSize(data) < |data| then CodedSize(data) else |data|
    ensures Compressed(data)[4] == if CodedSize(data) < |data| then 1 else 0
  {
    FrameFields(|data|, 0, data);
    if data != [] {
      OwnTable(data);
      var freq := Normalized(Histogram(data, |data|)).value;
      DecodeOfEncode(freq, data);
      FrameFields(|data|, 1, Body(freq, Encode(freq, data)));
    }
  }

  /** Where among the first n bytes the low nibble is s, and where the high one. */
  ghost function LowPlaces(data: seq<Byte>, n: nat, s: nat): set<int>
    requires n <= |data|
  {
    set i | 0 <= i < n && Low(data[i]) == s
  }

  ghost function HighPlaces(data: seq<Byte>, n: nat, s: nat): set<int>
    requires n <= |data|
  {
    set i | 0 <= i < n && High(data[i]) == s
  }

  lemma OneMorePlace(data: seq<Byte>, n: nat, s: nat)
    requires 0 < n <= |data|
    ensures |LowPlaces(data, n, s)| == |LowPlaces(data, n - 1, s)| + if Low(data[n - 1]) == s then 1 else 0
    ensures |HighPlaces(data, n, s)| == |HighPlaces(data, n - 1, s)| + if High(data[n - 1]) == s then 1 else 0
  {
    hide Low, High;
    assert LowPlaces(data, n, s) == LowPlaces(data, n - 1, s) + if Low(data[n - 1]) == s then {n - 1} else {};
    assert HighPlaces(data, n, s) == HighPlaces(data, n - 1, s) + if High(data[n - 1]) == s then {n - 1} else {};
  }

  /** A histogram entry counts the low and the high nibbles of that value. */
  lemma {:induction false} CountsNibbles(data: seq<Byte>, n: nat, s: nat)
    requires n <= |data|
    ensures CountTo(data, n, s) == |LowPlaces(data, n, s)| + |HighPlaces(data, n, s)|
  {
    hide Low, High;
    if n > 0 {
      hide LowPlaces, HighPlaces;
      CountsNibbles(data, n - 1, s);
      OneMorePlace(data, n, s);
    }
  }

  /** Both nibbles of every byte are s. */
  ghost predicate Repeats(data: seq<Byte>, s: Nibble) {
    forall i :: 0 <= i < |data| ==> Low(data[i]) == s && High(data[i]) == s
  }

  lemma {:induction false} RepeatedCounts(data: seq<Byte>, n: nat, s: Nibble, t: nat)
    requires n <= |data| && Repeats(data, s)
    ensures CountTo(data, n, t) == if t == s then 2 * n else 0
  {
    if n > 0 {
      RepeatedCounts(data, n - 1, s, t);
    }
  }

  /** A step with the whole table shares out nothing and sheds nothing. */
  lemma FullStep(freq: seq<nat>, s: Nibble, x: nat, t: seq<Byte>)
    requires |freq| == 16 && freq[s] == 4096 && Cum(freq, s) == 0 && x == 0x80_0000
    ensures Put(freq, s, x, t) == (x, t)
  {
  }

  lemma {:induction false} RepeatedStream(freq: seq<nat>, data: seq<Byte>, s: Nibble)
    requires Covers(freq, data) && Repeats(data, s) && freq[s] == 4096 && Cum(freq, s) == 0
    ensures Encode(freq, data) == Coded(0x80_0000, 0x80_0000, [])
  {
    hide Put;
    if data != [] {
      RepeatedStream(freq, data[1..], s);
      FullStep(freq, s, 0x80_0000, []);
    }
  }

  /** One repeated nibble needs no stream at all. */
  lemma {:induction false} RepeatedNibble(data: seq<Byte>, s: Nibble)
    requires data != [] && Repeats(data, s)
    ensures OwnStream(data) == []
    ensures |data| <= MAX_LENGTH ==> |Compressed(data)| == 9 + if |data| > 40 then 40 else |data|
  {
    var cnt := Histogram(data, |data|);
    forall t: nat | t < 16
      ensures cnt[t] == if t == s then 2 * |data| else 0
    {
      RepeatedCounts(data, |data|, s, t);
    }
    OwnTable(data);
    var freq := Normalized(cnt).value;
    SingleSymbol(cnt, s);
    RepeatedStream(freq, data, s);
    if |data| <= MAX_LENGTH {
      CompressedSize(data);
    }
  }

  /** Symbols that do not occur get nothing, so one that occurs alone gets everything. */
  lemma {:induction false} SingleSymbol(cnt: seq<nat>, s: Nibble)
    requires |cnt| == 16 && cnt[s] > 0 && forall t :: 0 <= t < 16 && t != s ==> cnt[t] == 0
    requires Normalized(cnt).Some?
    ensures var freq := Normalized(cnt).value; |freq| == 16 && freq[s] == 4096 && Cum(freq, s) == 0
  {
    NormalizedTable(cnt);
    var freq := Normalized(cnt).value;
    NothingBelow(freq, s);
    AloneBelow(freq, s, |freq|);
  }

  lemma {:induction false} NothingBelow(freq: seq<nat>, n: nat)
    requires n <= |freq| && forall t :: 0 <= t < n ==> freq[t] == 0
    ensures Cum(freq, n) == 0
  {
    if n > 0 {
      NothingBelow(freq, n - 1);
    }
  }

  lemma {:induction false} AloneBelow(freq: seq<nat>, s: nat, n: nat)
    requires s < n <= |freq| && forall t :: 0 <= t < |freq| && t != s ==> freq[t] == 0
    ensures Cum(freq, n) == freq[s]
  {
    if n == s + 1 {
      NothingBelow(freq, s);
    } else {
      AloneBelow(freq, s, n - 1);
    }
  }

  // ---------------------------------------------------------------- the decoder's answer

  function LengthField(s: seq<Byte>): U32
    requires |s| >= 9
  {
    FromLe32(s[5..9])
  }

  function TableField(s: seq<Byte>): seq<nat>
    requires |s| >= 49
  {
    ReadTable(s[9..41])
  }

  /** Initial states and payload of a mode-1 frame. */
  function StartField(s: seq<Byte>): Coded
    requires |s| >= 49
  {
    Coded(FromLe32(s[41..45]), FromLe32(s[45..49]), s[49..])
  }

  /** The checks made before any decoding; None is the -1 return. */
  predicate HeaderOk(s: seq<Byte>, cap: nat) {
    |s| >= 9 && s[..4] == MAGIC && LengthField(s) <= cap
  }

  /** The checks made before the first symbol of a mode-1 frame. */
  predicate CodedOk(s: seq<Byte>) {
    |s| >= 49 && LengthField(s) > 0 && Table(TableField(s)) &&
    StartField(s).a >= 0x80_0000 && StartField(s).b >= 0x80_0000
  }

  /** The whole function with every byte fetch checked: the bytes on return 0, None on -1. */
  ghost function Decompressed(s: seq<Byte>, cap: nat): Option<seq<Byte>> {
    if !HeaderOk(s, cap) then None
    else if s[4] == 0 then
      if |s| == 9 + LengthField(s) then Some(s[9..]) else None
    else if s[4] != 1 || !CodedOk(s) then None
    else
      var r := Decode(TableField(s), StartField(s), LengthField(s));
      if r.Some? && r.value.1 == Coded(0x80_0000, 0x80_0000, []) then Some(r.value.0) else None
  }

  // ---------------------------------------------------------------- guarantees

  lemma {:induction false} EntryBound(freq: seq<nat>, n: nat, i: nat)
    requires i < n <= |freq|
    ensures freq[i] <= Cum(freq, n)
  {
    if i < n - 1 {
      EntryBound(freq, n - 1, i);
    }
  }

  lemma {:induction false} FrameFields(n: U32, mode: Byte, body: seq<Byte>)
    ensures var s := Frame(n, mode, body);
            |s| == 9 + |body| && s[..4] == MAGIC && s[4] == mode && LengthField(s) == n && s[9..] == body
  {
    var s := Frame(n, mode, body);
    assert s[5..9] == Le32(n);
    Le32Inverse(n);
  }

  lemma BodyFields(n: U32, freq: seq<nat>, k: Coded)
    requires Table(freq) && k.a < 0x8000_0000 && k.b < 0x8000_0000
    ensures var s := Frame(n, 1, Body(freq, k));
            |s| == 49 + |k.stream| && TableField(s) == freq && StartField(s) == k
  {
    var s := Frame(n, 1, Body(freq, k));
    assert s[9..41] == TableBytes(freq);
    assert s[41..45] == Le32(k.a);
    assert s[45..49] == Le32(k.b);
    assert s[49..] == k.stream;
    Le32Inverse(k.a);
    Le32Inverse(k.b);
    forall i | 0 <= i < 16
      ensures freq[i] < 0x1_0000
    {
      EntryBound(freq, |freq|, i);
    }
    ReadTableInverse(freq);
  }

  lemma {:induction false} CodedFrame(freq: seq<nat>, data: seq<Byte>, cap: nat)
    requires Table(freq) && Covers(freq, data) && 0 < |data| <= MAX_LENGTH && |data| <= cap
    ensures InRange(Encode(freq, data))
    ensures Decompressed(Frame(|data|, 1, Body(freq, Encode(freq, data))), cap) == Some(data)
    ensures |Frame(|data|, 1, Body(freq, Encode(freq, data)))| == 9 + |Body(freq, Encode(freq, data))|
  {
    DecodeOfEncode(freq, data);
    FrameFields(|data|, 1, Body(freq, Encode(freq, data)));
    BodyFields(|data|, freq, Encode(freq, data));
  }

  /** Every input comes back, whichever mode was chosen, and costs at most 9 extra bytes. */
  lemma {:induction false} RoundTrip(data: seq<Byte>, cap: nat)
    requires |data| <= MAX_LENGTH && |data| <= cap
    ensures Decompressed(Compressed(data), cap) == Some(data)
    ensures |Compressed(data)| <= |data| + 9
  {
    if data == [] {
      FrameFields(0, 0, []);
    } else {
      OwnTable(data);
      var freq := Normalized(Histogram(data, |data|)).value;
      FrameFields(|data|, 0, data);
      CodedFrame(freq, data, cap);
    }
  }

  /** Appended bytes change no field but the payload. */
  lemma SameFields(s: seq<Byte>, t: seq<Byte>)
    requires |s| >= 9
    ensures (s + t)[..4] == s[..4] && (s + t)[4] == s[4] && LengthField(s + t) == LengthField(s)
    ensures |s| >= 49 ==> TableField(s + t) == TableField(s)
    ensures |s| >= 49 ==> StartField(s + t) == StartField(s).(stream := StartField(s).stream + t)
  {
    var u := s + t;
    assert u[..4] == s[..4] && u[5..9] == s[5..9];
    if |s| >= 49 {
      assert u[9..41] == s[9..41] && u[41..45] == s[41..45] && u[45..49] == s[45..49];
      assert u[49..] == s[49..] + t;
    }
  }

  /** No accepted frame is a proper prefix of another: removing bytes from the end of an
      accepted frame, or appending bytes to it, is always rejected. */
  lemma {:induction false} PrefixFree(s: seq<Byte>, t: seq<Byte>, cap: nat)
    requires t != [] && Decompressed(s, cap).Some?
    ensures Decompressed(s + t, cap) == None
  {
    SameFields(s, t);
    if s[4] == 1 {
      DecodeExtends(TableField(s), StartField(s), LengthField(s), t);
    }
  }

  lemma {:induction false} TruncatedRejected(s: seq<Byte>, n: nat, cap: nat)
    requires n < |s| && Decompressed(s, cap).Some?
    ensures Decompressed(s[..n], cap) == None
  {
    assert s == s[..n] + s[n..];
    if Decompressed(s[..n], cap).Some? {
      PrefixFree(s[..n], s[n..], cap);
    }
  }

  lemma {:induction false} FrameOfFields(s: seq<Byte>)
    requires |s| >= 49 && s[..4] == MAGIC && s[4] == 1
    requires StartField(s).a < 0x8000_0000 && StartField(s).b < 0x8000_0000
    ensures s == Frame(LengthField(s), 1, Body(TableField(s), StartField(s)))
  {
    FromLe32Inverse(s[5..9]);
    FromLe32Inverse(s[41..45]);
    FromLe32Inverse(s[45..49]);
    TableBytesInverse(s[9..41]);
  }

  /** Every accepted frame starts with "CFS1" and a mode of 0 or 1, and its length field is the number of
      bytes it gives, at most cap. */
  lemma AcceptedHeader(s: seq<Byte>, cap: nat)
    requires Decompressed(s, cap).Some?
    ensures |s| >= 9 && s[0] == 67 && s[1] == 70 && s[2] == 83 && s[3] == 49 && s[4] <= 1
    ensures |Decompressed(s, cap).value| == s[5] as int + s[6] as int * 0x100 + s[7] as int * 0x1_0000 + s[8] as int * 0x100_0000
    ensures |Decompressed(s, cap).value| <= cap
  {
    hide Decode;
    assert forall i :: 0 <= i < 4 ==> s[i] == s[..4][i];
    if s[4] == 1 {
      DecodedLength(TableField(s), StartField(s), LengthField(s));
    }
  }

  lemma {:induction false} DecodedLength(freq: seq<nat>, k: Coded, m: nat)
    requires Table(freq) && Decode(freq, k, m).Some?
    ensures |Decode(freq, k, m).value.0| == m
  {
    DecodeExtends(freq, k, m, []);
  }

  /** An accepted raw frame is byte for byte the raw frame of its data, and every such frame within the
      capacity is accepted. */
  lemma {:induction false} RawCanonical(s: seq<Byte>, data: seq<Byte>, cap: nat)
    requires |data| <= MAX_LENGTH
    ensures |s| > 4 && s[4] == 0 && Decompressed(s, cap) == Some(data) <==> s == Frame(|data|, 0, data) && |data| <= cap
  {
    FrameFields(|data|, 0, data);
    if |s| > 4 && s[4] == 0 && Decompressed(s, cap) == Some(data) {
      FromLe32Inverse(s[5..9]);
      assert s == s[..4] + [s[4]] + s[5..9] + s[9..];
    }
  }

  /** s is what the encoder's step loop writes for data under the table freq. */
  ghost predicate EncoderFrame(s: seq<Byte>, freq: seq<nat>, data: seq<Byte>) {
    |data| <= MAX_LENGTH && Covers(freq, data) && InRange(Encode(freq, data)) &&
    s == Frame(|data|, 1, Body(freq, Encode(freq, data)))
  }

  lemma {:induction false} AcceptedRun(s: seq<Byte>, cap: nat)
    requires Decompressed(s, cap).Some? && s[4] == 1
    ensures |s| >= 49 && s[..4] == MAGIC && Table(TableField(s))
    ensures 0x80_0000 <= StartField(s).a && 0x80_0000 <= StartField(s).b
    ensures Decode(TableField(s), StartField(s), LengthField(s))
         == Some((Decompressed(s, cap).value, Coded(0x80_0000, 0x80_0000, [])))
  {
  }

  /** Little-endian at position i. */
  ghost predicate Spells(s: seq<Byte>, i: nat, v: nat)
    requires i + 4 <= |s|
  {
    v == s[i] as int + s[i + 1] as int * 0x100 + s[i + 2] as int * 0x1_0000 + s[i + 3] as int * 0x100_0000
  }

  /** The layout of an accepted mode-1 frame: sixteen frequencies that sum to 4096, the states, the stream.
      The first state's slot is the first low nibble's, the second one's the first high nibble's. */
  lemma CodedLayout(s: seq<Byte>, cap: nat) returns (freq: seq<nat>, a: nat, b: nat)
    requires Decompressed(s, cap).Some? && s[4] == 1
    ensures |s| >= 49 && |freq| == 16 && Cum(freq, 16) == 4096
    ensures forall i :: 0 <= i < 16 ==> freq[i] == s[9 + 2 * i] as int + s[9 + 2 * i + 1] as int * 256
    ensures Spells(s, 41, a) && Spells(s, 45, b) && a >= 0x80_0000 && b >= 0x80_0000
    ensures Decompressed(s, cap).value != []
    ensures var lo, hi := Decompressed(s, cap).value[0] % 16, Decompressed(s, cap).value[0] / 16;
            Cum(freq, lo) <= a % 4096 < Cum(freq, lo) + freq[lo] &&
            Cum(freq, hi) <= b % 4096 < Cum(freq, hi) + freq[hi]
  {
    hide Decode;
    AcceptedRun(s, cap);
    freq, a, b := TableField(s), StartField(s).a, StartField(s).b;
    FirstByte(freq, StartField(s), LengthField(s));
  }

  /** The first byte decoded pairs the symbols of the two states' slots. */
  lemma FirstByte(freq: seq<nat>, k: Coded, m: nat)
    requires Table(freq) && m > 0 && Decode(freq, k, m).Some?
    ensures Decode(freq, k, m).value.0 != []
    ensures var v := Decode(freq, k, m).value.0[0];
            v % 16 == SymbolOf(freq, k.a % 4096) && v / 16 == SymbolOf(freq, k.b % 4096)
  {
    DecodeStep(freq, k, m);
  }

  /** An accepted mode-1 frame is byte for byte what the encoder's step loop writes for the
      decoded bytes and that table, exactly when its two initial states are below 2^31. */
  lemma {:induction false} Canonical(s: seq<Byte>, cap: nat)
    requires Decompressed(s, cap).Some? && s[4] == 1
    ensures |s| >= 49
    ensures EncoderFrame(s, TableField(s), Decompressed(s, cap).value) <==>
            (StartField(s).a < 0x8000_0000 && StartField(s).b < 0x8000_0000)
  {
    AcceptedRun(s, cap);
    var data, freq, k := Decompressed(s, cap).value, TableField(s), StartField(s);
    if InRange(k) {
      EncodeOfDecode(freq, k, LengthField(s));
      FrameOfFields(s);
    }
    if EncoderFrame(s, freq, data) {
      BodyFields(|data|, freq, Encode(freq, data));
    }
  }

  function Skewed(): seq<nat> { [16, 4080, 0, 0, 0, 0, 0, 0, 0, 0, 0, 0, 0, 0, 0, 0] }

  lemma SkewedTable(freq: seq<nat>)
    requires freq == Skewed()
    ensures Table(freq) && freq[0] == 16 && Cum(freq, 0) == 0
  {
    assert Cum(freq, 2) == 4096;
    var i := 2;
    while i < |freq|
      invariant 2 <= i <= |freq| && Cum(freq, i) == 4096
    {
      i := i + 1;
    }
  }

  /** A state of 2^31 on a symbol of frequency 16 lands on the seal without reading. */
  lemma HighTake(freq: seq<nat>, x: nat, s: seq<Byte>)
    requires Table(freq) && freq[0] == 16 && Cum(freq, 0) == 0 && x == 0x8000_0000
    ensures Take(freq, x, s) == Some((0, 0x80_0000, s))
  {
    SymbolUnique(freq, x % 4096, 0);
  }

  lemma DecodeOne(freq: seq<nat>, k: Coded, m: nat, v: Byte, e: Coded)
    requires Table(freq) && m == 1 && DecodeByte(freq, k) == Some((v, e))
    ensures Decode(freq, k, m) == Some(([v], e))
  {
    assert Decode(freq, e, m - 1) == Some(([], e));
    assert [v] + [] == [v];
  }

  lemma DecodeByteOf(freq: seq<nat>, k: Coded, lo: Nibble, hi: Nibble, x: nat, s: seq<Byte>, y: nat, t: seq<Byte>)
    requires Table(freq)
    requires Take(freq, k.a, k.stream) == Some((lo, x, s)) && Take(freq, k.b, s) == Some((hi, y, t))
    ensures DecodeByte(freq, k) == Some((Pair(lo, hi), Coded(x, y, t)))
  {
  }

  function HighStates(): seq<Byte> {
    Frame(1, 1, TableBytes(Skewed()) + (Le32(0x8000_0000) + Le32(0x8000_0000)))
  }

  lemma HighStatesFields(s: seq<Byte>)
    requires s == HighStates()
    ensures HeaderOk(s, 1) && s[4] == 1 && LengthField(s) == 1
    ensures |s| == 49 && TableField(s) == Skewed() && StartField(s) == Coded(0x8000_0000, 0x8000_0000, [])
  {
    FrameFields(1, 1, TableBytes(Skewed()) + (Le32(0x8000_0000) + Le32(0x8000_0000)));
    assert s[9..41] == TableBytes(Skewed()) && s[41..45] == Le32(0x8000_0000) == s[45..49] && s[49..] == [];
    ReadTableInverse(Skewed());
    Le32Inverse(0x8000_0000);
  }

  /** The condition of Canonical is not idle: a frame with initial states 2^31 is accepted. */
  lemma NonCanonicalFrame(s: seq<Byte>)
    requires s == HighStates()
    ensures |s| == 49 && StartField(s).a == 0x8000_0000 && Decompressed(s, 1) == Some([0])
  {
    HighStatesFields(s);
    var freq, k := TableField(s), StartField(s);
    SkewedTable(freq);
    HighTake(freq, k.a, k.stream);
    DecodeByteOf(freq, k, 0, 0, 0x80_0000, k.stream, 0x80_0000, k.stream);
    DecodeOne(freq, k, LengthField(s), Pair(0, 0), Coded(0x80_0000, 0x80_0000, []));
    assert Pair(0, 0) == 0;
  }
}
