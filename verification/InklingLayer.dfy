/** One Inkling layer over an unbounded history: the reference the incremental engine must
    match. Projections, norms, the softmax combination, the residual add and the dense MLP are
    arbitrary per-row functions, a sparse layer's block is the cacheless expert sum; the short
    convolutions are arbitrary functions of their window. */
module InklingLayer {
  import opened Wrappers
  import opened KvRing
  import opened Moe
  import opened ShortConv

  datatype Layer = Layer(
    local: bool,                  // sliding-window layer
    heads: nat,                   // K/V heads
    cut: Cut,
    zeroKv: Row, zeroHidden: Row, // what memset leaves in a conv state
    inNorm: Row -> Row,
    kProj: Row -> Row, kConv: seq<Row> -> Row, kNorm: Row -> Row,
    vProj: Row -> Row, vConv: seq<Row> -> Row,
    // normed input, position, keys and values per head -> attention output
    attend: (Row, nat, seq<seq<Row>>, seq<seq<Row>>) -> Row,
    aConv: seq<Row> -> Row,
    postNorm: Row -> Row, feed: Feed, mConv: seq<Row> -> Row,
    add: (Row, Row) -> Row)

  /** Every intermediate sequence of one layer, one row per position. */
  datatype Trace = Trace(nrm: seq<Row>, kRaw: seq<Row>, k: seq<Row>, vRaw: seq<Row>, v: seq<Row>,
                         att: seq<Row>, mid: seq<Row>, mlpRaw: seq<Row>, out: seq<Row>)

  /** The four convolution states of a layer. */
  datatype Tails = Tails(k: seq<Row>, v: seq<Row>, a: seq<Row>, m: seq<Row>)

  function Map(f: Row -> Row, xs: seq<Row>): (r: seq<Row>)
    ensures |r| == |xs|
  {
    seq(|xs|, i requires 0 <= i < |xs| => f(xs[i]))
  }

  function Zip(f: (Row, Row) -> Row, xs: seq<Row>, ys: seq<Row>): (r: seq<Row>)
    requires |xs| == |ys|
    ensures |r| == |xs|
  {
    seq(|xs|, i requires 0 <= i < |xs| => f(xs[i], ys[i]))
  }

  function Zeros(p: nat, zero: Row): (r: seq<Row>)
    ensures |r| == p
  {
    seq(p, i => zero)
  }

  function ZeroTails(l: Layer, p: nat): Tails {
    Tails(Zeros(p, l.zeroKv), Zeros(p, l.zeroKv), Zeros(p, l.zeroHidden), Zeros(p, l.zeroHidden))
  }

  function Heads(l: Layer, full: seq<Row>, from: nat, to: nat): (r: seq<seq<Row>>)
    requires to <= |full|
    ensures |r| == l.heads
  {
    seq(l.heads, h requires 0 <= h < l.heads => Span(l.cut, full, h, from, to))
  }

  /** Attention output of the query at position q of a history with keys k and values v. */
  function Query(l: Layer, window: int, nrm: Row, q: nat, k: seq<Row>, v: seq<Row>): Row
    requires q < |k| && q < |v|
  {
    var t0 := First(l.local, window, q);
    l.attend(nrm, q, Heads(l, k, t0, q + 1), Heads(l, v, t0, q + 1))
  }

  /** How many positions the query at q attends to: all so far, or the last `window` of them. */
  function Reach(local: bool, window: int, q: nat): nat {
    if !local then q + 1 else if window <= 0 then 0 else if q + 1 <= window then q + 1 else window
  }

  /** For every head, exactly the cells of the last n positions up to q, oldest first. */
  ghost predicate Sees(l: Layer, full: seq<Row>, q: nat, n: nat, cells: seq<seq<Row>>) {
    q < |full| && n <= q + 1 && |cells| == l.heads &&
    forall h :: 0 <= h < l.heads ==>
      |cells[h]| == n && forall i :: 0 <= i < n ==> cells[h][i] == l.cut(full[q + 1 - n + i], h)
  }

  /** `out` is the attention of the query at q over its window. */
  ghost predicate AttendsWindow(l: Layer, window: int, nrm: Row, q: nat, k: seq<Row>, v: seq<Row>, out: Row) {
    exists keys, vals :: Sees(l, k, q, Reach(l.local, window, q), keys) && Sees(l, v, q, Reach(l.local, window, q), vals) &&
      out == l.attend(nrm, q, keys, vals)
  }

  lemma HeadsSee(l: Layer, window: int, full: seq<Row>, q: nat)
    requires q < |full|
    ensures Sees(l, full, q, Reach(l.local, window, q), Heads(l, full, First(l.local, window, q), q + 1))
  {
  }

  /** A query hands to the attention exactly the rows of its window: on a global layer all q + 1 rows
      from position 0, on a sliding layer the last min(q + 1, window) ones. */
  lemma QueryWindow(l: Layer, window: int, nrm: Row, q: nat, k: seq<Row>, v: seq<Row>)
    requires q < |k| && q < |v|
    ensures AttendsWindow(l, window, nrm, q, k, v, Query(l, window, nrm, q, k, v))
  {
    hide Sees, First, Reach;
    HeadsSee(l, window, k, q);
    HeadsSee(l, window, v, q);
  }

  /** Queries at positions pos0.. with the whole key and value history. */
  function Attended(l: Layer, window: int, nrm: seq<Row>, pos0: nat, k: seq<Row>, v: seq<Row>): (r: seq<Row>)
    requires |k| == |v| == pos0 + |nrm|
    ensures |r| == |nrm|
  {
    seq(|nrm|, s requires 0 <= s < |nrm| => Query(l, window, nrm[s], pos0 + s, k, v))
  }

  /** A chunk of rows after a history with keys pastK, values pastV and conv states tails. */
  function RunFrom(l: Layer, window: int, tails: Tails, pastK: seq<Row>, pastV: seq<Row>, xs: seq<Row>): (t: Trace)
    requires |pastK| == |pastV|
    ensures |t.nrm| == |t.kRaw| == |t.k| == |t.vRaw| == |t.v| == |t.att| == |t.mid| == |t.mlpRaw| == |t.out| == |xs|
  {
    var nrm := Map(l.inNorm, xs);
    var kRaw, vRaw := Map(l.kProj, nrm), Map(l.vProj, nrm);
    var k := Map(l.kNorm, Filtered(l.kConv, tails.k, kRaw));
    var v := Filtered(l.vConv, tails.v, vRaw);
    var att := Attended(l, window, nrm, |pastK|, pastK + k, pastV + v);
    var mid := Zip(l.add, xs, Filtered(l.aConv, tails.a, att));
    var mlpRaw := Map(Block(l.feed), Map(l.postNorm, mid));
    Trace(nrm, kRaw, k, vRaw, v, att, mid, mlpRaw, Zip(l.add, mid, Filtered(l.mConv, tails.m, mlpRaw)))
  }

  function TailsAfter(tails: Tails, t: Trace): Tails {
    Tails(TailAfter(tails.k, t.kRaw), TailAfter(tails.v, t.vRaw), TailAfter(tails.a, t.att), TailAfter(tails.m, t.mlpRaw))
  }

  /** The whole sequence from the empty state: the meaning of a layer. */
  function Run(l: Layer, window: int, p: nat, xs: seq<Row>): (t: Trace)
    ensures |t.k| == |t.v| == |t.mid| == |t.out| == |xs|
  {
    RunFrom(l, window, ZeroTails(l, p), [], [], xs)
  }

  /** Conv states once the whole sequence has been seen. */
  function RunTails(l: Layer, window: int, p: nat, xs: seq<Row>): Tails {
    TailsAfter(ZeroTails(l, p), Run(l, window, p, xs))
  }

  /** The rows that reach the feed-forward block when xs follows past. */
  function FeedInput(l: Layer, window: int, p: nat, past: seq<Row>, xs: seq<Row>): seq<Row> {
    Map(l.postNorm, Run(l, window, p, past + xs).mid[|past|..])
  }

  // ---------------------------------------------------------------- one position of a layer

  /** The p + 1 rows up to position t, zeros before the first. */
  function LastRows(rows: seq<Row>, t: nat, p: nat, zero: Row): (r: seq<Row>)
    requires t < |rows|
    ensures |r| == p + 1
  {
    seq(p + 1, i requires 0 <= i < p + 1 => if t + i < p then zero else rows[t + i - p])
  }

  lemma FilteredAt(f: seq<Row> -> Row, p: nat, zero: Row, rows: seq<Row>, t: nat)
    requires t < |rows|
    ensures Filtered(f, Zeros(p, zero), rows)[t] == f(LastRows(rows, t, p, zero))
  {
    assert Window(Zeros(p, zero) + rows, t, p + 1) == LastRows(rows, t, p, zero);
  }

  /** What a layer does at position t: keys and values from the normed input through their convolutions,
      attention over the window, its convolution added to the input, and the feed-forward block's
      added to that. */
  lemma RunAt(l: Layer, window: int, p: nat, xs: seq<Row>, t: nat)
    requires t < |xs|
    ensures var r := Run(l, window, p, xs);
            |r.nrm| == |r.kRaw| == |r.vRaw| == |r.att| == |r.mid| == |r.mlpRaw| == |r.k| == |r.v| == |r.out| == |xs| &&
            r.nrm[t] == l.inNorm(xs[t]) && r.kRaw[t] == l.kProj(r.nrm[t]) && r.vRaw[t] == l.vProj(r.nrm[t]) &&
            r.k[t] == l.kNorm(l.kConv(LastRows(r.kRaw, t, p, l.zeroKv))) && r.v[t] == l.vConv(LastRows(r.vRaw, t, p, l.zeroKv)) &&
            AttendsWindow(l, window, r.nrm[t], t, r.k, r.v, r.att[t]) &&
            r.mid[t] == l.add(xs[t], l.aConv(LastRows(r.att, t, p, l.zeroHidden))) &&
            r.mlpRaw[t] == Block(l.feed)(l.postNorm(r.mid[t])) &&
            r.out[t] == l.add(r.mid[t], l.mConv(LastRows(r.mlpRaw, t, p, l.zeroHidden)))
  {
    hide Filtered, LastRows, AttendsWindow, Query, Block;
    var r := Run(l, window, p, xs);
    FilteredAt(l.kConv, p, l.zeroKv, r.kRaw, t);
    FilteredAt(l.vConv, p, l.zeroKv, r.vRaw, t);
    FilteredAt(l.aConv, p, l.zeroHidden, r.att, t);
    FilteredAt(l.mConv, p, l.zeroHidden, r.mlpRaw, t);
    QueryWindow(l, window, r.nrm[t], t, r.k, r.v);
    assert [] + r.k == r.k && [] + r.v == r.v;
  }

  // ---------------------------------------------------------------- chunks compose

  lemma MapSplit(f: Row -> Row, xs: seq<Row>, ys: seq<Row>)
    ensures Map(f, xs + ys) == Map(f, xs) + Map(f, ys)
  {
  }

  lemma ZipSplit(f: (Row, Row) -> Row, xs: seq<Row>, xs2: seq<Row>, ys: seq<Row>, ys2: seq<Row>)
    requires |xs| == |ys| && |xs2| == |ys2|
    ensures Zip(f, xs + xs2, ys + ys2) == Zip(f, xs, ys) + Zip(f, xs2, ys2)
  {
  }

  lemma SpanPrefix(cut: Cut, full: seq<Row>, more: seq<Row>, h: nat, from: nat, to: nat)
    requires to <= |full|
    ensures Span(cut, full + more, h, from, to) == Span(cut, full, h, from, to)
  {
  }

  lemma HeadsPrefix(l: Layer, full: seq<Row>, more: seq<Row>, from: nat, to: nat)
    requires to <= |full|
    ensures Heads(l, full + more, from, to) == Heads(l, full, from, to)
  {
    forall h | 0 <= h < l.heads
      ensures Span(l.cut, full + more, h, from, to) == Span(l.cut, full, h, from, to)
    {
      SpanPrefix(l.cut, full, more, h, from, to);
    }
  }

  /** Causality: queries do not see later positions. */
  lemma AttendedSplit(l: Layer, window: int, nrm: seq<Row>, nrm2: seq<Row>, pos0: nat,
                      k: seq<Row>, v: seq<Row>, k2: seq<Row>, v2: seq<Row>)
    requires |k| == |v| == pos0 + |nrm| && |k2| == |v2| == |nrm2|
    ensures Attended(l, window, nrm + nrm2, pos0, k + k2, v + v2)
         == Attended(l, window, nrm, pos0, k, v) + Attended(l, window, nrm2, pos0 + |nrm|, k + k2, v + v2)
  {
    forall s | 0 <= s < |nrm|
      ensures Query(l, window, nrm[s], pos0 + s, k + k2, v + v2) == Query(l, window, nrm[s], pos0 + s, k, v)
    {
      HeadsPrefix(l, k, k2, First(l.local, window, pos0 + s), pos0 + s + 1);
      HeadsPrefix(l, v, v2, First(l.local, window, pos0 + s), pos0 + s + 1);
    }
  }

  function Joined(a: Trace, b: Trace): Trace {
    Trace(a.nrm + b.nrm, a.kRaw + b.kRaw, a.k + b.k, a.vRaw + b.vRaw, a.v + b.v,
          a.att + b.att, a.mid + b.mid, a.mlpRaw + b.mlpRaw, a.out + b.out)
  }

  /** Keys, values and attention of two chunks. */
  lemma RunFromAttention(l: Layer, window: int, tails: Tails, pastK: seq<Row>, pastV: seq<Row>, xs: seq<Row>, ys: seq<Row>)
    requires |pastK| == |pastV|
    ensures var a, all := RunFrom(l, window, tails, pastK, pastV, xs), RunFrom(l, window, tails, pastK, pastV, xs + ys);
            var b := RunFrom(l, window, TailsAfter(tails, a), pastK + a.k, pastV + a.v, ys);
            all.nrm == a.nrm + b.nrm && all.kRaw == a.kRaw + b.kRaw && all.k == a.k + b.k &&
            all.vRaw == a.vRaw + b.vRaw && all.v == a.v + b.v && all.att == a.att + b.att
  {
    var a := RunFrom(l, window, tails, pastK, pastV, xs);
    var b := RunFrom(l, window, TailsAfter(tails, a), pastK + a.k, pastV + a.v, ys);
    MapSplit(l.inNorm, xs, ys);
    MapSplit(l.kProj, a.nrm, b.nrm);
    MapSplit(l.vProj, a.nrm, b.nrm);
    Streaming(l.kConv, tails.k, a.kRaw, b.kRaw);
    Streaming(l.vConv, tails.v, a.vRaw, b.vRaw);
    MapSplit(l.kNorm, Filtered(l.kConv, tails.k, a.kRaw), Filtered(l.kConv, TailAfter(tails.k, a.kRaw), b.kRaw));
    AttendedSplit(l, window, a.nrm, b.nrm, |pastK|, pastK + a.k, pastV + a.v, b.k, b.v);
    assert pastK + a.k + b.k == pastK + (a.k + b.k) && pastV + a.v + b.v == pastV + (a.v + b.v);
  }

  /** A run over xs + ys is a run over xs continued over ys from the state xs leaves. */
  lemma {:induction false} RunFromSplit(l: Layer, window: int, tails: Tails, pastK: seq<Row>, pastV: seq<Row>, xs: seq<Row>, ys: seq<Row>)
    requires |pastK| == |pastV|
    ensures var a, all := RunFrom(l, window, tails, pastK, pastV, xs), RunFrom(l, window, tails, pastK, pastV, xs + ys);
            var b := RunFrom(l, window, TailsAfter(tails, a), pastK + a.k, pastV + a.v, ys);
            all == Joined(a, b) && TailsAfter(tails, all) == TailsAfter(TailsAfter(tails, a), b)
  {
    var a := RunFrom(l, window, tails, pastK, pastV, xs);
    var b := RunFrom(l, window, TailsAfter(tails, a), pastK + a.k, pastV + a.v, ys);
    RunFromAttention(l, window, tails, pastK, pastV, xs, ys);
    Streaming(l.kConv, tails.k, a.kRaw, b.kRaw);
    Streaming(l.vConv, tails.v, a.vRaw, b.vRaw);
    Streaming(l.aConv, tails.a, a.att, b.att);
    ZipSplit(l.add, xs, ys, Filtered(l.aConv, tails.a, a.att), Filtered(l.aConv, TailAfter(tails.a, a.att), b.att));
    MapSplit(l.postNorm, a.mid, b.mid);
    MapSplit(Block(l.feed), Map(l.postNorm, a.mid), Map(l.postNorm, b.mid));
    Streaming(l.mConv, tails.m, a.mlpRaw, b.mlpRaw);
    ZipSplit(l.add, a.mid, b.mid, Filtered(l.mConv, tails.m, a.mlpRaw), Filtered(l.mConv, TailAfter(tails.m, a.mlpRaw), b.mlpRaw));
  }

  /** What one incremental step over ys must produce after a history xs. */
  lemma {:induction false} RunSplit(l: Layer, window: int, p: nat, xs: seq<Row>, ys: seq<Row>)
    ensures var a, all := Run(l, window, p, xs), Run(l, window, p, xs + ys);
            var b := RunFrom(l, window, RunTails(l, window, p, xs), a.k, a.v, ys);
            all == Joined(a, b) && RunTails(l, window, p, xs + ys) == TailsAfter(RunTails(l, window, p, xs), b)
  {
    var a := Run(l, window, p, xs);
    RunFromSplit(l, window, ZeroTails(l, p), [], [], xs, ys);
    assert [] + a.k == a.k && [] + a.v == a.v;
  }

  // ---------------------------------------------------------------- the stack of layers

  /** Input of layer i (output of the stack when i is the number of layers). */
  function Depth(layers: seq<Layer>, window: int, p: nat, xs: seq<Row>, i: nat): (r: seq<Row>)
    requires i <= |layers|
    ensures |r| == |xs|
  {
    if i == 0 then xs else Run(layers[i - 1], window, p, Depth(layers, window, p, xs, i - 1)).out
  }

  lemma RunOutExtends(l: Layer, window: int, p: nat, xs: seq<Row>, ys: seq<Row>)
    ensures Run(l, window, p, xs + ys).out == Run(l, window, p, xs).out + Run(l, window, p, xs + ys).out[|xs|..]
  {
    RunSplit(l, window, p, xs, ys);
  }

  /** Every layer's input for a longer sequence extends its input for a shorter one. */
  lemma {:induction false} DepthExtends(layers: seq<Layer>, window: int, p: nat, xs: seq<Row>, ys: seq<Row>, i: nat)
    requires i <= |layers|
    ensures Depth(layers, window, p, xs + ys, i)
         == Depth(layers, window, p, xs, i) + Depth(layers, window, p, xs + ys, i)[|xs|..]
  {
    hide Run;
    if i > 0 {
      DepthExtends(layers, window, p, xs, ys, i - 1);
      RunOutExtends(layers[i - 1], window, p, Depth(layers, window, p, xs, i - 1),
                    Depth(layers, window, p, xs + ys, i - 1)[|xs|..]);
    }
  }
}
