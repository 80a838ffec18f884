/** Reuse of rows that went through in earlier steps: what it can change, and when it changes nothing. */
module ReuseSteps {
  import opened Wrappers
  import opened ExpertCache
  import opened Moe
  import opened MoeRounds

  /** A router on finite logits: topK different experts for every row, at least one of them kept. */
  ghost predicate Router(e: Sparse, experts: nat, topK: nat) {
    Sound(e) && e.experts == experts && e.topK == topK &&
    forall x: Row :: Diverse(e.route(x).ids) && 1 <= e.route(x).keff <= topK
  }

  // ---------------------------------------------------------------- earlier steps

  /** Where step i begins, when `ends` says where each step ends. */
  function From(ends: seq<nat>, i: nat): nat
    requires i <= |ends|
  {
    if i == 0 then 0 else ends[i - 1]
  }

  /** Rows that have been fed, and need not be fed again. */
  function Reused(ends: seq<nat>): nat {
    From(ends, |ends|)
  }

  ghost predicate Ordered(ends: seq<nat>) {
    forall i :: 0 <= i < |ends| ==> From(ends, i) <= ends[i]
  }

  /** The first rows of x went through in these steps: a prompt, tokens fed back one at a time,
      further turns. */
  ghost predicate Fed(e: Sparse, b: Bounds, x: seq<Row>, ends: seq<nat>) {
    Ordered(ends) && (forall i :: 0 <= i < |ends| ==> ends[i] <= |x|) &&
    forall i :: 0 <= i < |ends| ==> FeedFits(Mixture(e), b, x[From(ends, i)..ends[i]])
  }

  /** Reuse adds no exit: what gets through as a whole gets through without the rows fed before. */
  ghost predicate AddsNoExit(b: Bounds, experts: nat, topK: nat, ends: seq<nat>) {
    forall e: Sparse, x: seq<Row> :: Router(e, experts, topK) && Fed(e, b, x, ends) ==>
      FeedFits(Mixture(e), b, x) ==> FeedFits(Mixture(e), b, x[Reused(ends)..])
  }

  /** Reuse avoids no exit: what gets through without the rows fed before gets through as a whole. */
  ghost predicate AvoidsNoExit(b: Bounds, experts: nat, topK: nat, ends: seq<nat>) {
    forall e: Sparse, x: seq<Row> :: Router(e, experts, topK) && Fed(e, b, x, ends) ==>
      FeedFits(Mixture(e), b, x[Reused(ends)..]) ==> FeedFits(Mixture(e), b, x)
  }

  /** Nothing is pinned, or every slot; or every expert has a slot. */
  predicate Easy(b: Bounds, experts: nat) {
    b.pins == {} || |b.pins| == b.cap || experts <= b.cap
  }

  /** The pairs of the first s rows fill whole rounds. */
  predicate Aligned(b: Bounds, topK: nat, s: nat)
    requires b.cap > 0
  {
    (s * topK) % b.cap == 0
  }

  predicate AllAligned(b: Bounds, topK: nat, ends: seq<nat>)
    requires b.cap > 0
  {
    forall i :: 0 <= i < |ends| ==> Aligned(b, topK, ends[i])
  }

  // ---------------------------------------------------------------- rounds of joined batches

  /** The two lists ask for the same experts; tokens and weights play no part in what fits. */
  ghost predicate SameWants(a: seq<Pair>, b: seq<Pair>) {
    |a| == |b| && forall t :: 0 <= t < |a| ==> a[t].kept == b[t].kept && a[t].eid == b[t].eid
  }

  lemma {:induction false} SeenSame(a: seq<Pair>, b: seq<Pair>, k: nat)
    requires SameWants(a, b) && k <= |a|
    ensures Seen(a, k) == Seen(b, k)
  {
    if k > 0 {
      SeenSame(a, b, k - 1);
    }
  }

  lemma {:induction false} RoundsSame(a: seq<Pair>, b: seq<Pair>, base: nat, size: nat, pins: set<int>, room: int)
    requires SameWants(a, b) && size > 0
    ensures RoundsFit(a, base, size, pins, room) <==> RoundsFit(b, base, size, pins, room)
    decreases |a| - base
  {
    hide Seen;
    if base < |a| {
      var end := RoundEnd(|a|, base, size);
      SeenSame(a[base..end], b[base..end], end - base);
      RoundsSame(a, b, base + size, size, pins, room);
    }
  }

  /** Rounds that start with b do not see what comes before. */
  lemma {:induction false} RoundsShift(a: seq<Pair>, b: seq<Pair>, base: nat, size: nat, pins: set<int>, room: int)
    requires size > 0
    ensures RoundsFit(a + b, |a| + base, size, pins, room) <==> RoundsFit(b, base, size, pins, room)
    decreases |b| - base
  {
    hide Demand;
    if base < |b| {
      assert (a + b)[|a| + base..RoundEnd(|a + b|, |a| + base, size)] == b[base..RoundEnd(|b|, base, size)];
      RoundsShift(a, b, base + size, size, pins, room);
    }
  }

  /** Whole rounds of a do not see what comes after. */
  lemma {:induction false} RoundsPrefix(a: seq<Pair>, b: seq<Pair>, base: nat, j: nat, size: nat, pins: set<int>, room: int)
    requires size > 0 && |a| == base + j * size
    ensures RoundsFit(a + b, base, size, pins, room) <==>
            RoundsFit(a, base, size, pins, room) && RoundsFit(a + b, |a|, size, pins, room)
    decreases j
  {
    hide Demand;
    if j > 0 {
      LastTurn(j, size);
      assert (a + b)[base..base + size] == a[base..base + size];
      RoundsPrefix(a, b, base + size, j - 1, size, pins, room);
    }
  }

  lemma LastTurn(j: nat, size: nat)
    requires j > 0
    ensures j * size == (j - 1) * size + size && (j - 1) * size >= 0
  {
  }

  /** Two batches of which the first fills whole rounds fit together exactly when each fits. */
  lemma RoundsJoin(a: seq<Pair>, b: seq<Pair>, j: nat, size: nat, pins: set<int>, room: int)
    requires size > 0 && |a| == j * size
    ensures RoundsFit(a + b, 0, size, pins, room) <==> RoundsFit(a, 0, size, pins, room) && RoundsFit(b, 0, size, pins, room)
  {
    RoundsPrefix(a, b, 0, j, size, pins, room);
    RoundsShift(a, b, 0, size, pins, room);
  }

  lemma SplitAt(topK: nat, s: nat, n: nat)
    requires s <= n
    ensures s * topK <= n * topK && (n - s) * topK == n * topK - s * topK
  {
    MulMonotone(topK, s, n);
  }

  /** A batch asks for what its first s rows ask for, and then for what the others ask for. */
  lemma PairsJoin(e: Sparse, x: seq<Row>, s: nat)
    requires Sound(e) && s <= |x|
    ensures SameWants(PairsFor(e, x), PairsFor(e, x[..s]) + PairsFor(e, x[s..]))
  {
    hide Sound;
    SplitAt(e.topK, s, |x|);
    forall t: nat | t < |x| * e.topK
      ensures var w := if t < s * e.topK then WantAt(e, x[..s], t) else WantAt(e, x[s..], t - s * e.topK);
              WantAt(e, x, t).kept == w.kept && WantAt(e, x, t).eid == w.eid
    {
      WantJoin(e, x, s, t);
    }
  }

  lemma WantJoin(e: Sparse, x: seq<Row>, s: nat, t: nat)
    requires Sound(e) && s <= |x| && t < |x| * e.topK
    requires s * e.topK <= |x| * e.topK && (|x| - s) * e.topK == |x| * e.topK - s * e.topK
    ensures var w := if t < s * e.topK then WantAt(e, x[..s], t) else WantAt(e, x[s..], t - s * e.topK);
            WantAt(e, x, t).kept == w.kept && WantAt(e, x, t).eid == w.eid
  {
    Rank(e.topK, |x|, t);
    if t < s * e.topK {
      Rank(e.topK, s, t);
    } else {
      Rank(e.topK, |x| - s, t - s * e.topK);
      Deeper(e.topK, s, t);
    }
  }

  lemma Deeper(topK: nat, s: nat, t: nat)
    requires topK > 0 && s * topK <= t
    ensures t / topK == s + (t - s * topK) / topK && t % topK == (t - s * topK) % topK
  {
    var u := t - s * topK;
    var q := u / topK;
    assert u == q * topK + u % topK;
    assert (s + q) * topK == s * topK + q * topK;
    RankOf(topK, s + q, t);
    RankOf(topK, q, u);
  }

  /** When the first s rows fill whole rounds, the batch fits exactly when both parts do. */
  lemma AlignedSplit(e: Sparse, b: Bounds, x: seq<Row>, s: nat)
    requires Sound(e) && s <= |x| && b.cap > 0 && (s * e.topK) % b.cap == 0
    ensures FeedFits(Mixture(e), b, x) <==> FeedFits(Mixture(e), b, x[..s]) && FeedFits(Mixture(e), b, x[s..])
  {
    hide Sound, RoundsFit, PairsFor, SameWants;
    var room := b.cap - |b.pins|;
    PairsJoin(e, x, s);
    RoundsSame(PairsFor(e, x), PairsFor(e, x[..s]) + PairsFor(e, x[s..]), 0, b.cap, b.pins, room);
    assert s * e.topK == (s * e.topK) / b.cap * b.cap;
    RoundsJoin(PairsFor(e, x[..s]), PairsFor(e, x[s..]), (s * e.topK) / b.cap, b.cap, b.pins, room);
  }

  // ---------------------------------------------------------------- batches that split

  ghost predicate OnlyPins(pairs: seq<Pair>, base: nat, pins: set<int>) {
    forall t :: base <= t < |pairs| && pairs[t].kept ==> pairs[t].eid in pins
  }

  lemma NoDemand(pairs: seq<Pair>, lo: nat, hi: nat, pins: set<int>)
    requires lo <= hi <= |pairs|
    ensures |Demand(pairs[lo..hi], pins)| <= 0 <==> OnlyPins(pairs[..hi], lo, pins)
  {
    var round := pairs[lo..hi];
    if OnlyPins(pairs[..hi], lo, pins) {
      forall t | 0 <= t < |round| && round[t].kept
        ensures round[t].eid in pins
      {
        assert round[t] == pairs[..hi][lo + t];
      }
      OnlyKept(round, |round|, pins);
    } else {
      var t :| lo <= t < hi && pairs[t].kept && pairs[t].eid !in pins;
      assert round[t - lo] == pairs[t];
      assert pairs[t].eid in Demand(round, pins);
    }
  }

  lemma {:induction false} OnlyKept(pairs: seq<Pair>, k: nat, all: set<int>)
    requires k <= |pairs| && forall t :: 0 <= t < k && pairs[t].kept ==> pairs[t].eid in all
    ensures Seen(pairs, k) <= all
  {
    if k > 0 {
      OnlyKept(pairs, k - 1, all);
    }
  }

  /** With every slot pinned only pinned experts fit. */
  lemma {:induction false} NoRoom(pairs: seq<Pair>, base: nat, size: nat, pins: set<int>)
    requires size > 0
    ensures RoundsFit(pairs, base, size, pins, 0) <==> OnlyPins(pairs, base, pins)
    decreases |pairs| - base
  {
    hide Demand;
    if base < |pairs| {
      var end := RoundEnd(|pairs|, base, size);
      NoDemand(pairs, base, end, pins);
      NoRoom(pairs, base + size, size, pins);
      assert OnlyPins(pairs, base, pins) <==> OnlyPins(pairs[..end], base, pins) && OnlyPins(pairs, end, pins);
      assert end == |pairs| || end == base + size;
    }
  }

  lemma PinnedSplit(e: Sparse, b: Bounds, x: seq<Row>, s: nat)
    requires Sound(e) && s <= |x| && b.cap > 0 && |b.pins| == b.cap
    ensures FeedFits(Mixture(e), b, x) <==> FeedFits(Mixture(e), b, x[..s]) && FeedFits(Mixture(e), b, x[s..])
  {
    hide Sound, RoundsFit, PairsFor, SameWants;
    var pairs, a, c := PairsFor(e, x), PairsFor(e, x[..s]), PairsFor(e, x[s..]);
    NoRoom(pairs, 0, b.cap, b.pins);
    NoRoom(a, 0, b.cap, b.pins);
    NoRoom(c, 0, b.cap, b.pins);
    PairsJoin(e, x, s);
    OnlyPinsJoin(pairs, a, c, b.pins);
  }

  lemma OnlyPinsJoin(pairs: seq<Pair>, a: seq<Pair>, c: seq<Pair>, pins: set<int>)
    requires SameWants(pairs, a + c)
    ensures OnlyPins(pairs, 0, pins) <==> OnlyPins(a, 0, pins) && OnlyPins(c, 0, pins)
  {
    if OnlyPins(pairs, 0, pins) {
      forall t | 0 <= t < |c| && c[t].kept
        ensures c[t].eid in pins
      {
        assert (a + c)[|a| + t] == c[t];
        assert pairs[|a| + t].kept;
      }
      forall t | 0 <= t < |a| && a[t].kept
        ensures a[t].eid in pins
      {
        assert (a + c)[t] == a[t];
        assert pairs[t].kept;
      }
    }
  }

  /** Where the rounds do not straddle row s, or do not matter, a batch fits exactly when both its
      parts do. */
  lemma SplitRows(e: Sparse, b: Bounds, x: seq<Row>, experts: nat, topK: nat, s: nat)
    requires b.cap > 0 && b.pins <= UpTo(experts) && (Easy(b, experts) || Aligned(b, topK, s))
    requires Router(e, experts, topK) && s <= |x|
    ensures FeedFits(Mixture(e), b, x) <==> FeedFits(Mixture(e), b, x[..s]) && FeedFits(Mixture(e), b, x[s..])
  {
    hide Sound, FeedFits, UpTo;
    if b.pins == {} || experts <= b.cap {
      RoomyFeed(Mixture(e), b, x);
      RoomyFeed(Mixture(e), b, x[..s]);
      RoomyFeed(Mixture(e), b, x[s..]);
    } else if |b.pins| == b.cap {
      PinnedSplit(e, b, x, s);
    } else {
      AlignedSplit(e, b, x, s);
    }
  }

  lemma {:induction false} NothingFits(e: Sparse, b: Bounds, x: seq<Row>)
    requires Sound(e) && x == []
    ensures FeedFits(Mixture(e), b, x)
  {
    hide Sound;
    assert PairsFor(e, x) == [];
  }

  /** With every step ending on a round, the first k steps together fit as one batch. */
  lemma {:induction false} StepsJoin(e: Sparse, b: Bounds, x: seq<Row>, experts: nat, topK: nat, ends: seq<nat>, k: nat)
    requires b.cap > 0 && b.pins <= UpTo(experts) && (Easy(b, experts) || AllAligned(b, topK, ends))
    requires Router(e, experts, topK) && Fed(e, b, x, ends) && k <= |ends|
    ensures From(ends, k) <= |x| && FeedFits(Mixture(e), b, x[..From(ends, k)])
    decreases k
  {
    hide FeedFits, UpTo, Router, Easy, Aligned;
    if k == 0 {
      RouterSound(e, experts, topK);
      NothingFits(e, b, x[..From(ends, k)]);
    } else {
      var lo, hi := From(ends, k - 1), ends[k - 1];
      StepsJoin(e, b, x, experts, topK, ends, k - 1);
      StartAligned(b, topK);
      SplitRows(e, b, x[..hi], experts, topK, lo);
      assert x[..hi][..lo] == x[..lo] && x[..hi][lo..] == x[lo..hi];
    }
  }

  lemma StartAligned(b: Bounds, topK: nat)
    requires b.cap > 0
    ensures Aligned(b, topK, 0)
  {
  }

  lemma RouterSound(e: Sparse, experts: nat, topK: nat)
    requires Router(e, experts, topK)
    ensures Sound(e) && e.topK == topK
  {
  }

  /** Reuse that ends on a round adds no exit. */
  lemma AlignedAddsNone(b: Bounds, experts: nat, topK: nat, ends: seq<nat>)
    requires b.cap > 0 && b.pins <= UpTo(experts) && (Easy(b, experts) || Aligned(b, topK, Reused(ends)))
    ensures AddsNoExit(b, experts, topK, ends)
  {
    hide FeedFits, UpTo, Router, Easy, Aligned;
    forall e: Sparse, x: seq<Row> | Router(e, experts, topK) && Fed(e, b, x, ends) && FeedFits(Mixture(e), b, x)
      ensures FeedFits(Mixture(e), b, x[Reused(ends)..])
    {
      SplitRows(e, b, x, experts, topK, Reused(ends));
    }
  }

  /** Reuse of steps that all end on a round avoids none. */
  lemma AlignedAvoidsNone(b: Bounds, experts: nat, topK: nat, ends: seq<nat>)
    requires b.cap > 0 && b.pins <= UpTo(experts) && (Easy(b, experts) || AllAligned(b, topK, ends))
    ensures AvoidsNoExit(b, experts, topK, ends)
  {
    hide FeedFits, UpTo, Router, Easy, Aligned;
    forall e: Sparse, x: seq<Row> | Router(e, experts, topK) && Fed(e, b, x, ends) && FeedFits(Mixture(e), b, x[Reused(ends)..])
      ensures FeedFits(Mixture(e), b, x)
    {
      StepsJoin(e, b, x, experts, topK, ends, |ends|);
      StartAligned(b, topK);
      SplitRows(e, b, x, experts, topK, Reused(ends));
    }
  }
}
