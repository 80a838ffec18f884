/** One layer of step_mm on its K/V buffers and conv states, against InklingLayer.Run. */
module InklingStep {
  import opened Wrappers
  import opened KvRing
  import opened ShortConv
  import opened InklingLayer
  import opened ExpertCache
  import opened Moe
  import opened MoeRounds

  /** The layer's state is what the history xs of layer inputs leaves behind: every row a query
      can still reach, and the four conv states. */
  ghost predicate LayerHolds(l: Layer, window: int, p: nat, maxT: nat, k: array<Row>, v: array<Row>, tails: Tails, xs: seq<Row>)
    reads k, v
  {
    var rows, run := Rows(l.local, window, maxT), Run(l, window, p, xs);
    Holds(k[..], rows, l.heads, l.cut, run.k) && Holds(v[..], rows, l.heads, l.cut, run.v) &&
    tails == RunTails(l, window, p, xs)
  }

  /** All heads' cells for one query. */
  method Gather(l: Layer, buf: array<Row>, rows: nat, chunk: seq<Row>, pos0: nat, t0: nat, q: nat, ghost past: seq<Row>)
      returns (cells: seq<seq<Row>>)
    requires Holds(buf[..], rows, l.heads, l.cut, past) && |past| == pos0 <= q < pos0 + |chunk|
    requires t0 < pos0 ==> t0 >= pos0 - rows
    ensures cells == Heads(l, past + chunk, t0, q + 1)
  {
    cells := [];
    for h := 0 to l.heads
      invariant |cells| == h && forall i :: 0 <= i < h ==> cells[i] == Span(l.cut, past + chunk, i, t0, q + 1)
    {
      var span := ReadSpan(buf, rows, l.heads, l.cut, chunk, pos0, h, t0, q, past);
      cells := cells + [span];
    }
  }

  /** Every query of the batch sees exactly the positions First..q of the whole history. */
  method AttendChunk(l: Layer, window: int, maxT: nat, k: array<Row>, v: array<Row>, nrm: seq<Row>,
                     kNew: seq<Row>, vNew: seq<Row>, pos0: nat, ghost pastK: seq<Row>, ghost pastV: seq<Row>)
      returns (att: seq<Row>)
    requires |nrm| == |kNew| == |vNew| && |pastK| == |pastV| == pos0 && pos0 + |nrm| <= maxT
    requires Holds(k[..], Rows(l.local, window, maxT), l.heads, l.cut, pastK)
    requires Holds(v[..], Rows(l.local, window, maxT), l.heads, l.cut, pastV)
    ensures att == Attended(l, window, nrm, pos0, pastK + kNew, pastV + vNew)
    ensures forall s :: 0 <= s < |att| ==>
              AttendsWindow(l, window, nrm[s], pos0 + s, pastK + kNew, pastV + vNew, att[s])
  {
    hide AttendsWindow, Query;
    var rows := Rows(l.local, window, maxT);
    att := [];
    for s := 0 to |nrm|
      invariant |att| == s
      invariant forall i :: 0 <= i < s ==> att[i] == Query(l, window, nrm[i], pos0 + i, pastK + kNew, pastV + vNew)
    {
      var q := pos0 + s;
      var t0 := First(l.local, window, q);
      WindowReadable(l.local, window, maxT, pos0, q);
      var keys := Gather(l, k, rows, kNew, pos0, t0, q, pastK);
      var vals := Gather(l, v, rows, vNew, pos0, t0, q, pastV);
      QueryIs(l, window, nrm[s], q, pastK + kNew, pastV + vNew);
      att := att + [l.attend(nrm[s], q, keys, vals)];
    }
    forall s | 0 <= s < |att|
      ensures AttendsWindow(l, window, nrm[s], pos0 + s, pastK + kNew, pastV + vNew, att[s])
    {
      QueryWindow(l, window, nrm[s], pos0 + s, pastK + kNew, pastV + vNew);
    }
  }

  lemma QueryIs(l: Layer, window: int, nrm: Row, q: nat, k: seq<Row>, v: seq<Row>)
    requires q < |k| && q < |v|
    ensures var t0 := First(l.local, window, q);
            Query(l, window, nrm, q, k, v) == l.attend(nrm, q, Heads(l, k, t0, q + 1), Heads(l, v, t0, q + 1))
  {
  }

  /** attention() up to the residual: the batch's intermediate rows, and its keys and values
      appended to the buffers. */
  method LayerAttention(l: Layer, window: int, maxT: nat, k: array<Row>, v: array<Row>, tails: Tails, xs: seq<Row>,
                        pos0: nat, ghost pastK: seq<Row>, ghost pastV: seq<Row>)
      returns (kRaw: seq<Row>, vRaw: seq<Row>, att: seq<Row>, mid: seq<Row>)
    requires k != v && |pastK| == |pastV| == pos0 && pos0 + |xs| <= maxT
    requires Holds(k[..], Rows(l.local, window, maxT), l.heads, l.cut, pastK)
    requires Holds(v[..], Rows(l.local, window, maxT), l.heads, l.cut, pastV)
    modifies k, v
    ensures var t := RunFrom(l, window, tails, pastK, pastV, xs);
            kRaw == t.kRaw && vRaw == t.vRaw && att == t.att && mid == t.mid &&
            Holds(k[..], Rows(l.local, window, maxT), l.heads, l.cut, pastK + t.k) &&
            Holds(v[..], Rows(l.local, window, maxT), l.heads, l.cut, pastV + t.v)
  {
    hide Holds;
    var rows := Rows(l.local, window, maxT);
    var nrm := Map(l.inNorm, xs);
    kRaw, vRaw := Map(l.kProj, nrm), Map(l.vProj, nrm);
    var kNew := Map(l.kNorm, Filtered(l.kConv, tails.k, kRaw));
    var vNew := Filtered(l.vConv, tails.v, vRaw);
    att := AttendChunk(l, window, maxT, k, v, nrm, kNew, vNew, pos0, pastK, pastV);
    AppendBoth(l, rows, k, v, kNew, vNew, pos0, pastK, pastV);
    mid := Zip(l.add, xs, Filtered(l.aConv, tails.a, att));
  }

  /** One layer of step_mm: outputs for the new positions, buffers and conv states advanced. A
      sparse layer goes through its expert cache and exits instead when the rows that reach it do
      not fit. */
  method LayerStep(l: Layer, window: int, ghost p: nat, maxT: nat, k: array<Row>, v: array<Row>, tails: Tails,
                   xs: seq<Row>, pos0: nat, m: Cache, batch: nat, ghost past: seq<Row>)
      returns (ok: bool, out: seq<Row>, after: Tails)
    requires k != v && LayerHolds(l, window, p, maxT, k, v, tails, past)
    requires |past| == pos0 && pos0 + |xs| <= maxT
    requires Serves(m, l.feed) && batch > 0 && {k as object, v} !! {m.slots as object, m.index}
    modifies k, v, m, m.slots, m.index
    ensures ok <==> FeedFits(l.feed, old(BoundsOf(m)), FeedInput(l, window, p, past, xs))
    ensures ok ==> Serves(m, l.feed) && BoundsOf(m) == old(BoundsOf(m))
    ensures ok ==> LayerHolds(l, window, p, maxT, k, v, after, past + xs)
    ensures ok ==> out == Run(l, window, p, past + xs).out[pos0..]
  {
    hide Holds, Serves, Block, FeedFits, BoundsOf;
    ghost var before := Run(l, window, p, past);
    ghost var t := RunFrom(l, window, tails, before.k, before.v, xs);
    RunSplit(l, window, p, past, xs);
    var kRaw, vRaw, att, mid := LayerAttention(l, window, maxT, k, v, tails, xs, pos0, before.k, before.v);
    var mlpRaw;
    ok, mlpRaw := FeedRows(l.feed, m, Map(l.postNorm, mid), batch);
    if !ok {
      return false, [], tails;
    }
    assert mlpRaw == t.mlpRaw;
    out := Zip(l.add, mid, Filtered(l.mConv, tails.m, mlpRaw));
    after := Tails(TailAfter(tails.k, kRaw), TailAfter(tails.v, vRaw), TailAfter(tails.a, att), TailAfter(tails.m, mlpRaw));
  }

  method AppendBoth(l: Layer, rows: nat, k: array<Row>, v: array<Row>, kNew: seq<Row>, vNew: seq<Row>, pos0: nat,
                    ghost pastK: seq<Row>, ghost pastV: seq<Row>)
    requires k != v && |kNew| == |vNew| && |pastK| == |pastV| == pos0
    requires Holds(k[..], rows, l.heads, l.cut, pastK) && Holds(v[..], rows, l.heads, l.cut, pastV)
    requires kNew != [] ==> rows > 0
    modifies k, v
    ensures Holds(k[..], rows, l.heads, l.cut, pastK + kNew) && Holds(v[..], rows, l.heads, l.cut, pastV + vNew)
  {
    if kNew == [] {
      assert pastK + kNew == pastK && pastV + vNew == pastV;
      return;
    }
    Append(k, rows, l.heads, l.cut, kNew, pos0, pastK);
    Append(v, rows, l.heads, l.cut, vNew, pos0, pastV);
  }

  /** kv_alloc for one layer's pair of buffers: stolen when the row count stays, otherwise
      re-laid-out. Everything readable before stays readable. */
  method GrowLayer(l: Layer, window: int, oldMax: nat, maxT: nat, k: array<Row>, v: array<Row>, keep: nat,
                   ghost fullK: seq<Row>, ghost fullV: seq<Row>)
      returns (k2: array<Row>, v2: array<Row>)
    requires k != v && oldMax < maxT && keep == |fullK| == |fullV| <= oldMax
    requires Holds(k[..], Rows(l.local, window, oldMax), l.heads, l.cut, fullK)
    requires Holds(v[..], Rows(l.local, window, oldMax), l.heads, l.cut, fullV)
    ensures k2 != v2 && ((k2 == k && v2 == v) || (fresh(k2) && fresh(v2)))
    ensures k2 == k <==> Rows(l.local, window, oldMax) == Rows(l.local, window, maxT)
    ensures Holds(k2[..], Rows(l.local, window, maxT), l.heads, l.cut, fullK)
    ensures Holds(v2[..], Rows(l.local, window, maxT), l.heads, l.cut, fullV)
  {
    var oldRows, rows := Rows(l.local, window, oldMax), Rows(l.local, window, maxT);
    GrowCases(l.local, window, oldMax, maxT);
    if rows == oldRows {
      return k, v;
    }
    k2 := Regrow(k, oldMax, rows, l.heads, keep, l.cut, fullK);
    v2 := Regrow(v, oldMax, rows, l.heads, keep, l.cut, fullV);
  }
}
