/** One K (or V) buffer of one layer: [head][row][head_dim], where a sliding layer keeps only
    `window` rows and position t lives in row t % rows. The head_dim floats of one head's row
    are one cell here; `head` cuts a full row into its cells. */
module KvRing {
  import opened Wrappers

  type Cut = (Row, nat) -> Row

  /** kv_ring_rows. */
  function Rows(local: bool, window: int, maxT: nat): nat {
    if local && window > 0 && window < maxT then window else maxT
  }

  /** First position a query at q attends to. */
  function First(local: bool, window: int, q: nat): nat {
    if local && q - window + 1 > 0 then q - window + 1 else 0
  }

  function Slot(rows: nat, h: nat, t: nat): nat
    requires rows > 0
  {
    h * rows + t % rows
  }

  /** Cells of head h for positions from..to of an unbounded history. */
  function Span(cut: Cut, full: seq<Row>, h: nat, from: nat, to: nat): (r: seq<Row>)
    requires to <= |full|
  {
    if from >= to then [] else seq(to - from, i requires 0 <= i < to - from => cut(full[from + i], h))
  }

  /** The buffer holds positions lo..hi of full, for every head. */
  ghost predicate HoldsRange(buf: seq<Row>, rows: nat, heads: nat, cut: Cut, full: seq<Row>, lo: int, hi: int) {
    rows > 0 && hi <= |full| &&
    forall h: nat, t: nat :: h < heads && lo <= t < hi ==>
      Slot(rows, h, t) < |buf| && buf[Slot(rows, h, t)] == cut(full[t], h)
  }

  /** The abstraction: the last `rows` positions of full are readable. */
  ghost predicate Holds(buf: seq<Row>, rows: nat, heads: nat, cut: Cut, full: seq<Row>) {
    |buf| == heads * rows && (full == [] || HoldsRange(buf, rows, heads, cut, full, |full| - rows, |full|))
  }

  // ---------------------------------------------------------------- addressing

  lemma {:induction false} SlotBound(rows: nat, heads: nat, h: nat, t: nat)
    requires rows > 0 && h < heads
    ensures Slot(rows, h, t) < heads * rows
  {
    assert (h + 1) * rows <= heads * rows;
  }

  lemma {:induction false} SlotHead(rows: nat, h: nat, t: nat, h2: nat, t2: nat)
    requires rows > 0 && Slot(rows, h, t) == Slot(rows, h2, t2)
    ensures h == h2 && t % rows == t2 % rows
  {
    assert (h - h2) * rows == t2 % rows - t % rows;
    Scale(rows, h - h2);
  }

  lemma {:induction false} ModGap(rows: nat, t: nat, t2: nat)
    requires rows > 0 && t < t2 < t + rows
    ensures t % rows != t2 % rows
  {
    if t % rows == t2 % rows {
      assert t2 - t == (t2 / rows - t / rows) * rows;
      Scale(rows, t2 / rows - t / rows);
      assert false;
    }
  }

  /** Positions less than `rows` apart never share a slot. */
  lemma {:induction false} SlotsApart(rows: nat, h: nat, t: nat, h2: nat, t2: nat)
    requires rows > 0 && t <= t2 < t + rows && (h != h2 || t != t2)
    ensures Slot(rows, h, t) != Slot(rows, h2, t2)
  {
    if Slot(rows, h, t) == Slot(rows, h2, t2) {
      SlotHead(rows, h, t, h2, t2);
      ModGap(rows, t, t2);
      assert false;
    }
  }

  /** Everything a query at q attends to is either in the batch or still in the ring. */
  lemma WindowReadable(local: bool, window: int, maxT: nat, pos0: nat, q: nat)
    requires pos0 <= q < maxT
    ensures Rows(local, window, maxT) > 0
    ensures First(local, window, q) < pos0 ==> First(local, window, q) >= pos0 - Rows(local, window, maxT)
  {
  }

  /** A sliding layer never stores more than its window, and no layer more than it was sized for; all
      others store every position. */
  lemma RowsStored(local: bool, window: int, maxT: nat)
    ensures var rows := Rows(local, window, maxT);
            if local && window > 0 then rows <= window && rows <= maxT && (rows == window || rows == maxT) else rows == maxT
  {
  }

  // ---------------------------------------------------------------- reading

  /** The key (or value) cells of one query and one head: rows before the batch from the
      cache, rows of the batch from the scratch. */
  method ReadSpan(buf: array<Row>, rows: nat, heads: nat, cut: Cut, chunk: seq<Row>, pos0: nat,
                  h: nat, t0: nat, q: nat, ghost past: seq<Row>)
      returns (cells: seq<Row>)
    requires Holds(buf[..], rows, heads, cut, past) && |past| == pos0
    requires h < heads && pos0 <= q < pos0 + |chunk|
    requires t0 < pos0 ==> t0 >= pos0 - rows
    ensures cells == Span(cut, past + chunk, h, t0, q + 1)
  {
    var tb := if pos0 > t0 then pos0 else t0;
    cells := [];
    if t0 > q {
      return;
    }
    for t := t0 to q + 1
      invariant cells == Span(cut, past + chunk, h, t0, t)
    {
      SpanStep(cut, past + chunk, h, t0, t);
      if t < tb {
        assert HoldsRange(buf[..], rows, heads, cut, past, pos0 - rows, pos0);
        cells := cells + [buf[Slot(rows, h, t)]];
      } else {
        cells := cells + [cut(chunk[t - pos0], h)];
      }
    }
  }

  lemma SpanStep(cut: Cut, full: seq<Row>, h: nat, from: nat, t: nat)
    requires from <= t < |full|
    ensures Span(cut, full, h, from, t + 1) == Span(cut, full, h, from, t) + [cut(full[t], h)]
  {
  }

  // ---------------------------------------------------------------- appending

  lemma {:induction false} KeepRange(a: seq<Row>, b: seq<Row>, rows: nat, heads: nat, cut: Cut, full: seq<Row>, lo: int, hi: nat, h: nat)
    requires HoldsRange(a, rows, heads, cut, full, lo, hi) && |a| == |b| && hi < lo + rows
    requires Slot(rows, h, hi) < |a| && b == a[Slot(rows, h, hi) := b[Slot(rows, h, hi)]]
    ensures HoldsRange(b, rows, heads, cut, full, lo, hi)
  {
    forall k: nat, t: nat | k < heads && lo <= t < hi
      ensures Slot(rows, k, t) < |b| && b[Slot(rows, k, t)] == cut(full[t], k)
    {
      SlotsApart(rows, k, t, h, hi);
    }
  }

  /** One position, all heads. */
  method AppendRow(buf: array<Row>, rows: nat, heads: nat, cut: Cut, row: Row, t: nat, ghost full: seq<Row>, ghost lo: int)
    requires rows > 0 && buf.Length == heads * rows && t < |full| && row == full[t] && lo <= t < lo + rows
    requires HoldsRange(buf[..], rows, heads, cut, full, lo, t)
    modifies buf
    ensures HoldsRange(buf[..], rows, heads, cut, full, lo, t + 1)
  {
    for h := 0 to heads
      invariant HoldsRange(buf[..], rows, heads, cut, full, lo, t)
      invariant HoldsRange(buf[..], rows, h, cut, full, t, t + 1)
    {
      ghost var was := buf[..];
      SlotBound(rows, heads, h, t);
      buf[Slot(rows, h, t)] := cut(row, h);
      KeepRange(was, buf[..], rows, heads, cut, full, lo, t, h);
      KeepOthers(was, buf[..], rows, h, cut, full, t);
    }
  }

  lemma KeepOthers(a: seq<Row>, b: seq<Row>, rows: nat, h: nat, cut: Cut, full: seq<Row>, t: nat)
    requires t < |full| && HoldsRange(a, rows, h, cut, full, t, t + 1) && |a| == |b| && Slot(rows, h, t) < |a|
    requires b == a[Slot(rows, h, t) := cut(full[t], h)]
    ensures HoldsRange(b, rows, h + 1, cut, full, t, t + 1)
  {
    forall k: nat | k < h
      ensures Slot(rows, k, t) < |b| && b[Slot(rows, k, t)] == cut(full[t], k)
    {
      SlotsApart(rows, k, t, h, t);
    }
  }

  /** The append loop: rows of the batch that the batch itself would overwrite are skipped. */
  method Append(buf: array<Row>, rows: nat, heads: nat, cut: Cut, chunk: seq<Row>, pos0: nat, ghost past: seq<Row>)
    requires Holds(buf[..], rows, heads, cut, past) && |past| == pos0 && rows > 0
    modifies buf
    ensures Holds(buf[..], rows, heads, cut, past + chunk)
  {
    var count := |chunk|;
    var s0 := if count - rows > 0 then count - rows else 0;
    ghost var full, lo := past + chunk, pos0 + count - rows;
    assert HoldsRange(buf[..], rows, heads, cut, full, lo, pos0 + s0);
    for s := s0 to count
      invariant HoldsRange(buf[..], rows, heads, cut, full, lo, pos0 + s)
    {
      AppendRow(buf, rows, heads, cut, chunk[s], pos0 + s, full, lo);
    }
  }

  // ---------------------------------------------------------------- growing

  /** The two cases of kv_alloc: the row count is unchanged, or the old buffer was linear and
      everything in it fits the new one. */
  lemma GrowCases(local: bool, window: int, oldMax: nat, maxT: nat)
    requires oldMax < maxT
    ensures var o, r := Rows(local, window, oldMax), Rows(local, window, maxT);
            r == o || (o == oldMax && oldMax <= r)
  {
  }

  lemma LinearSlot(rows: nat, h: nat, t: nat)
    requires t < rows
    ensures Slot(rows, h, t) == h * rows + t
  {
  }

  /** One head's block moved to its new stride. */
  method CopyHead(src: array<Row>, oldRows: nat, dst: array<Row>, rows: nat, heads: nat, h: nat, keep: nat,
                  cut: Cut, ghost full: seq<Row>)
    requires src != dst && h < heads && src.Length == heads * oldRows && dst.Length == heads * rows
    requires keep <= oldRows && keep <= rows && rows > 0 && keep == |full| > 0
    requires HoldsRange(src[..], oldRows, heads, cut, full, 0, keep)
    requires HoldsRange(dst[..], rows, h, cut, full, 0, keep)
    modifies dst
    ensures HoldsRange(dst[..], rows, h + 1, cut, full, 0, keep)
  {
    for i := 0 to keep
      invariant HoldsRange(dst[..], rows, h, cut, full, 0, keep)
      invariant forall t: nat :: t < i ==> Slot(rows, h, t) < dst.Length && dst[Slot(rows, h, t)] == cut(full[t], h)
    {
      SlotBound(oldRows, heads, h, i);
      SlotBound(rows, heads, h, i);
      LinearSlot(oldRows, h, i);
      LinearSlot(rows, h, i);
      ghost var was := dst[..];
      dst[h * rows + i] := src[h * oldRows + i];
      forall k: nat, t: nat | k <= h && t < keep && (k < h || t < i)
        ensures Slot(rows, k, t) != Slot(rows, h, i)
      {
        if t <= i { SlotsApart(rows, k, t, h, i); } else { SlotsApart(rows, h, i, k, t); }
      }
    }
  }

  /** A larger linear buffer with the kept rows re-laid-out head by head. */
  method Regrow(src: array<Row>, oldRows: nat, rows: nat, heads: nat, keep: nat, cut: Cut, ghost full: seq<Row>)
      returns (dst: array<Row>)
    requires Holds(src[..], oldRows, heads, cut, full) && |full| == keep <= oldRows && oldRows <= rows
    ensures fresh(dst) && Holds(dst[..], rows, heads, cut, full)
  {
    dst := new Row[heads * rows];
    if keep > 0 {
      for h := 0 to heads
        invariant HoldsRange(dst[..], rows, h, cut, full, 0, keep)
      {
        CopyHead(src, oldRows, dst, rows, heads, h, keep, cut, full);
      }
    }
  }
}
