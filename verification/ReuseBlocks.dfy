/** Batches for a layer that asks for more experts per row than it has slots: all rows keep one pinned
    expert, except for one or two whose demand a round must not hold at once. */
module ReuseBlocks {
  import opened Wrappers
  import opened ExpertCache
  import opened Moe
  import opened MoeRounds
  import opened ReuseSteps
  import opened ReuseTables
  import opened ReuseWalks

  // ---------------------------------------------------------------- one block of demand

  /** From place `at` on the pairs ask for the experts of blk; everything else is pinned. */
  ghost predicate Blocked(pairs: seq<Pair>, at: int, blk: seq<int>, pins: set<int>) {
    forall t :: 0 <= t < |pairs| ==>
      if 0 <= t - at < |blk| then pairs[t].kept && pairs[t].eid == blk[t - at]
      else pairs[t].kept ==> pairs[t].eid in pins
  }

  function Clip(i: int, n: nat): (k: nat)
    ensures k <= n
  {
    if i < 0 then 0 else if i > n then n else i
  }

  /** What of blk lies at places lo..hi. */
  function Part(blk: seq<int>, lo: int, hi: int): seq<int> {
    if Clip(lo, |blk|) <= Clip(hi, |blk|) then blk[Clip(lo, |blk|)..Clip(hi, |blk|)] else []
  }

  lemma BlockDemand(pairs: seq<Pair>, at: int, blk: seq<int>, pins: set<int>, lo: nat, hi: nat)
    requires Blocked(pairs, at, blk, pins) && lo <= hi <= |pairs|
    ensures Demand(pairs[lo..hi], pins) == Members(Part(blk, lo - at, hi - at)) - pins
  {
    var round, part := pairs[lo..hi], Part(blk, lo - at, hi - at);
    forall t | 0 <= t < |round| && round[t].kept
      ensures round[t].eid in Members(part) + pins
    {
      var g := lo + t - at;
      if 0 <= g < |blk| {
        assert part[g - Clip(lo - at, |blk|)] == blk[g];
      }
    }
    OnlyKept(round, |round|, Members(part) + pins);
    forall e | e in Members(part)
      ensures e in Seen(round, |round|)
    {
      var k: nat :| k < |part| && part[k] == e;
      var g := Clip(lo - at, |blk|) + k;
      assert blk[g] == e;
      assert round[at + g - lo].eid == e;
    }
  }

  /** At most `room` unpinned experts of the block lie in any round of places i * size - at. */
  ghost predicate PartsFit(at: int, blk: seq<int>, size: nat, pins: set<int>, room: int) {
    forall i: nat :: PartFits(at, blk, i, size, pins, room)
  }

  ghost predicate PartFits(at: int, blk: seq<int>, i: nat, size: nat, pins: set<int>, room: int) {
    |Members(Part(blk, i * size - at, i * size + size - at)) - pins| <= room
  }

  lemma PartWithin(blk: seq<int>, lo: int, hi: int, hi2: int)
    requires lo <= hi <= hi2
    ensures Members(Part(blk, lo, hi)) <= Members(Part(blk, lo, hi2))
  {
    var part, more := Part(blk, lo, hi), Part(blk, lo, hi2);
    forall e | e in Members(part)
      ensures e in Members(more)
    {
      var k: nat :| k < |part| && part[k] == e;
      assert more[k] == e;
    }
  }

  lemma BlockFits(pairs: seq<Pair>, at: int, blk: seq<int>, size: nat, pins: set<int>, room: int)
    requires Blocked(pairs, at, blk, pins) && PartsFit(at, blk, size, pins, room) && size > 0
    ensures RoundsFit(pairs, 0, size, pins, room)
  {
    hide Blocked, Part, Members, Demand;
    forall i: nat
      ensures RoundOk(pairs, i, size, pins, room)
    {
      if i * size < |pairs| {
        var lo, hi := i * size, RoundEnd(|pairs|, i * size, size);
        BlockDemand(pairs, at, blk, pins, lo, hi);
        PartWithin(blk, lo - at, hi - at, lo + size - at);
        assert PartFits(at, blk, i, size, pins, room);
        SubsetSize(Members(Part(blk, lo - at, hi - at)) - pins, Members(Part(blk, lo - at, lo + size - at)) - pins);
      }
    }
    NoOffset(size);
    EveryRound(pairs, 0, size, pins, room);
  }

  lemma BlockMisfits(pairs: seq<Pair>, at: int, blk: seq<int>, i: nat, size: nat, pins: set<int>, room: int)
    requires Blocked(pairs, at, blk, pins) && size > 0 && i * size + size <= |pairs|
    requires !PartFits(at, blk, i, size, pins, room)
    ensures !RoundsFit(pairs, 0, size, pins, room)
  {
    hide Blocked, Part, Members, Demand, RoundsFit;
    BlockDemand(pairs, at, blk, pins, i * size, i * size + size);
    if RoundsFit(pairs, 0, size, pins, room) {
      RoundOf(pairs, 0, i, size, pins, room);
    }
  }

  // ---------------------------------------------------------------- the table

  /** What one row asks for. */
  datatype Ask = Ask(ids: seq<int>, keff: nat)

  /** Row a asks for `first`, the next for `second`, all others for `rest`. */
  datatype Asks = Asks(a: nat, first: Ask, second: Ask, rest: Ask) {
    function Of(i: nat): Ask {
      if i == a then first else if i == a + 1 then second else rest
    }
  }

  ghost predicate Fair(k: Ask, topK: nat, experts: nat) {
    |k.ids| == topK && 1 <= k.keff <= topK && Diverse(k.ids) && forall i :: 0 <= i < topK ==> 0 <= k.ids[i] < experts
  }

  ghost predicate AllFair(q: Asks, topK: nat, experts: nat) {
    Fair(q.first, topK, experts) && Fair(q.second, topK, experts) && Fair(q.rest, topK, experts)
  }

  /** It keeps only pinned experts. */
  ghost predicate Idle(k: Ask, pins: set<int>) {
    forall j :: 0 <= j < k.keff ==> j < |k.ids| && k.ids[j] in pins
  }

  function AskIds(q: Asks, n: nat, topK: nat): (ids: seq<int>)
    requires |q.first.ids| == |q.second.ids| == |q.rest.ids| == topK
    ensures |ids| == n * topK
  {
    seq(n * topK, t requires 0 <= t < n * topK => (Rank(topK, n, t); q.Of(t / topK).ids[t % topK]))
  }

  function AskKeeps(q: Asks, n: nat): (keeps: seq<nat>)
    ensures |keeps| == n
  {
    seq(n, i requires 0 <= i => q.Of(i).keff)
  }

  function AskTable(q: Asks, n: nat, topK: nat, experts: nat): Sparse
    requires |q.first.ids| == |q.second.ids| == |q.rest.ids| == topK
  {
    Table(AskIds(q, n, topK), AskKeeps(q, n), topK, experts)
  }

  lemma AskRouter(q: Asks, n: nat, topK: nat, experts: nat)
    requires AllFair(q, topK, experts) && n > 0 && topK > 0
    ensures GoodTable(AskIds(q, n, topK), AskKeeps(q, n), topK, experts) && Router(AskTable(q, n, topK, experts), experts, topK)
  {
    hide Router;
    var ids := AskIds(q, n, topK);
    forall t: nat | t < |ids|
      ensures 0 <= ids[t] < experts
    {
      Rank(topK, n, t);
    }
    forall t, u | 0 <= t < u < |ids| && t / topK == u / topK
      ensures ids[t] != ids[u]
    {
      Rank(topK, n, t);
      Rank(topK, n, u);
      RankOf(topK, t / topK, t);
      RankOf(topK, t / topK, u);
    }
    TableRouter(ids, AskKeeps(q, n), topK, experts);
  }

  /** Place t of the whole batch: in row a, in the next, or elsewhere. */
  ghost predicate AskedAt(p: Pair, q: Asks, topK: nat, t: nat, pins: set<int>) {
    var at := q.a * topK;
    if at <= t < at + topK then
      t - at < |q.first.ids| && p.eid == q.first.ids[t - at] && (p.kept <==> t - at < q.first.keff)
    else if at + topK <= t < at + topK + topK then
      t - at - topK < |q.second.ids| && p.eid == q.second.ids[t - at - topK] && (p.kept <==> t - at - topK < q.second.keff)
    else p.kept ==> p.eid in pins
  }

  lemma AskPlace(p: Pair, q: Asks, n: nat, topK: nat, experts: nat, t: nat, pins: set<int>)
    requires AllFair(q, topK, experts) && topK > 0 && Idle(q.rest, pins)
    requires EntryAt(p, AskIds(q, n, topK), AskKeeps(q, n), topK, t)
    ensures AskedAt(p, q, topK, t, pins)
  {
    hide EntryAt, AskIds, AskKeeps, AskedAt, Idle, AllFair;
    FairSizes(q, topK, experts);
    AskEntry(p, q, n, topK, experts, t);
    var i, k, at := t / topK, t % topK, q.a * topK;
    RowAndRank(topK, q.a, t, at, i, k);
    InRow(p, q, topK, at, i, k, t, pins);
  }

  lemma FairSizes(q: Asks, topK: nat, experts: nat)
    requires AllFair(q, topK, experts)
    ensures |q.first.ids| == |q.second.ids| == |q.rest.ids| == topK
  {
  }

  lemma RowAndRank(topK: nat, a: nat, t: nat, at: nat, i: nat, k: nat)
    requires topK > 0 && i == t / topK && k == t % topK && at == a * topK
    ensures (i == a <==> at <= t < at + topK) && (i == a ==> k == t - at)
    ensures (i == a + 1 <==> at + topK <= t < at + topK + topK) && (i == a + 1 ==> k == t - at - topK)
  {
    RankOf(topK, a, t);
    RankOf(topK, a + 1, t);
    LineStart(topK, a);
  }

  /** Place t is rank k of row i. */
  lemma InRow(p: Pair, q: Asks, topK: nat, at: int, i: nat, k: nat, t: nat, pins: set<int>)
    requires k < topK == |q.first.ids| == |q.second.ids| == |q.rest.ids| && Idle(q.rest, pins) && at == q.a * topK
    requires p.eid == q.Of(i).ids[k] && (p.kept <==> k < q.Of(i).keff)
    requires (i == q.a <==> at <= t < at + topK) && (i == q.a ==> k == t - at)
    requires (i == q.a + 1 <==> at + topK <= t < at + topK + topK) && (i == q.a + 1 ==> k == t - at - topK)
    ensures AskedAt(p, q, topK, t, pins)
  {
  }

  lemma AskEntry(p: Pair, q: Asks, n: nat, topK: nat, experts: nat, t: nat)
    requires AllFair(q, topK, experts) && topK > 0
    requires EntryAt(p, AskIds(q, n, topK), AskKeeps(q, n), topK, t)
    ensures t % topK < topK == |q.Of(t / topK).ids|
    ensures p.eid == q.Of(t / topK).ids[t % topK] && (p.kept <==> t % topK < q.Of(t / topK).keff)
  {
    hide AllFair, Fair, EntryAt, AskIds, AskKeeps;
    FairSizes(q, topK, experts);
    EntryParts(p, AskIds(q, n, topK), AskKeeps(q, n), topK, t);
    Rank(topK, n, t);
    AskIdAt(q, n, topK, t);
    AskKeepAt(q, n, t / topK);
  }

  lemma EntryParts(p: Pair, ids: seq<int>, keeps: seq<nat>, topK: nat, t: nat)
    requires EntryAt(p, ids, keeps, topK, t)
    ensures topK > 0 && t < |ids| && t / topK < |keeps| && p.eid == ids[t] && (p.kept <==> t % topK < keeps[t / topK])
  {
  }

  lemma AskIdAt(q: Asks, n: nat, topK: nat, t: nat)
    requires |q.first.ids| == |q.second.ids| == |q.rest.ids| == topK > 0 && t < n * topK
    ensures AskIds(q, n, topK)[t] == q.Of(t / topK).ids[t % topK]
  {
  }

  lemma AskKeepAt(q: Asks, n: nat, i: nat)
    requires i < n
    ensures AskKeeps(q, n)[i] == q.Of(i).keff
  {
  }

  /** Rows lo..hi, place by place. */
  ghost predicate Asked(pairs: seq<Pair>, q: Asks, topK: nat, lo: nat, pins: set<int>) {
    forall t :: 0 <= t < |pairs| ==> AskedAt(pairs[t], q, topK, lo * topK + t, pins)
  }

  lemma AskSlice(q: Asks, n: nat, topK: nat, experts: nat, pins: set<int>, lo: nat, hi: nat)
    requires AllFair(q, topK, experts) && topK > 0 && Idle(q.rest, pins) && lo <= hi <= n
    requires GoodTable(AskIds(q, n, topK), AskKeeps(q, n), topK, experts) && Sound(AskTable(q, n, topK, experts))
    ensures var pairs := PairsFor(AskTable(q, n, topK, experts), Numbered(n)[lo..hi]);
            |pairs| == hi * topK - lo * topK && Asked(pairs, q, topK, lo, pins)
  {
    hide Sound, AskedAt, EntryAt, GoodTable, Idle, Table;
    var ids, keeps := AskIds(q, n, topK), AskKeeps(q, n);
    TablePairs(ids, keeps, topK, experts, lo, hi);
    var pairs := PairsFor(AskTable(q, n, topK, experts), Numbered(n)[lo..hi]);
    forall t: nat | t < |pairs|
      ensures AskedAt(pairs[t], q, topK, lo * topK + t, pins)
    {
      AskPlace(pairs[t], q, n, topK, experts, lo * topK + t, pins);
    }
  }

  /** Rows that do not meet the special ones ask for nothing unpinned. */
  lemma SliceNone(pairs: seq<Pair>, q: Asks, topK: nat, lo: nat, hi: nat, pins: set<int>)
    requires Asked(pairs, q, topK, lo, pins) && |pairs| == hi * topK - lo * topK && lo <= hi
    requires hi <= q.a || lo >= q.a + 2 || (lo >= q.a + 1 && Idle(q.second, pins))
    ensures Blocked(pairs, 0, [], pins)
  {
    hide AskedAt;
    var at := q.a * topK;
    OutsideRows(topK, q.a, lo, hi, at);
    forall t: nat | t < |pairs| && pairs[t].kept
      ensures pairs[t].eid in pins
    {
      assert AskedAt(pairs[t], q, topK, lo * topK + t, pins);
      NotAsked(pairs[t], q, topK, at, lo * topK + t, pins);
    }
  }

  lemma OutsideRows(topK: nat, a: nat, lo: nat, hi: nat, at: nat)
    requires at == a * topK
    ensures hi <= a ==> hi * topK <= at
    ensures lo >= a + 1 ==> lo * topK >= at + topK
    ensures lo >= a + 2 ==> lo * topK >= at + topK + topK
  {
    MulMonotone(topK, hi, a);
    MulMonotone(topK, a + 1, lo);
    MulMonotone(topK, a + 2, lo);
    LineStart(topK, a);
    LineStart(topK, a + 1);
  }

  lemma NotAsked(p: Pair, q: Asks, topK: nat, at: nat, t: nat, pins: set<int>)
    requires AskedAt(p, q, topK, t, pins) && at == q.a * topK && p.kept
    requires t < at || t >= at + topK + topK || (t >= at + topK && Idle(q.second, pins))
    ensures p.eid in pins
  {
  }

  /** Rows up to the first special one, or beyond it when the second asks for nothing unpinned. */
  lemma SliceFirst(pairs: seq<Pair>, q: Asks, topK: nat, lo: nat, hi: nat, pins: set<int>)
    requires Asked(pairs, q, topK, lo, pins) && |pairs| == hi * topK - lo * topK && lo <= hi
    requires q.first.keff <= |q.first.ids| == topK && (hi <= q.a + 1 || Idle(q.second, pins))
    ensures Blocked(pairs, q.a * topK - lo * topK, q.first.ids[..q.first.keff], pins)
  {
    MulMonotone(topK, hi, q.a + 1);
    LineStart(topK, q.a);
    forall t: nat | t < |pairs|
      ensures var g := lo * topK + t - q.a * topK;
              if 0 <= g < q.first.keff then pairs[t].kept && pairs[t].eid == q.first.ids[g]
              else pairs[t].kept ==> pairs[t].eid in pins
    {
      assert AskedAt(pairs[t], q, topK, lo * topK + t, pins);
    }
  }

  /** Rows from the second special one on. */
  lemma SliceSecond(pairs: seq<Pair>, q: Asks, topK: nat, lo: nat, hi: nat, pins: set<int>)
    requires Asked(pairs, q, topK, lo, pins) && |pairs| == hi * topK - lo * topK && lo <= hi
    requires q.second.keff <= |q.second.ids| == topK && lo == q.a + 1
    ensures Blocked(pairs, 0, q.second.ids[..q.second.keff], pins)
  {
    LineStart(topK, q.a);
    forall t: nat | t < |pairs|
      ensures if t < q.second.keff then pairs[t].kept && pairs[t].eid == q.second.ids[t]
              else pairs[t].kept ==> pairs[t].eid in pins
    {
      assert AskedAt(pairs[t], q, topK, lo * topK + t, pins);
    }
  }

  /** Both special rows, when the first keeps all its experts. */
  lemma SliceBoth(pairs: seq<Pair>, q: Asks, topK: nat, lo: nat, pins: set<int>)
    requires Asked(pairs, q, topK, lo, pins)
    requires q.first.keff == |q.first.ids| == topK && q.second.keff <= |q.second.ids| == topK
    ensures Blocked(pairs, q.a * topK - lo * topK, q.first.ids + q.second.ids[..q.second.keff], pins)
  {
    var blk := q.first.ids + q.second.ids[..q.second.keff];
    forall t: nat | t < |pairs|
      ensures var g := lo * topK + t - q.a * topK;
              if 0 <= g < |blk| then pairs[t].kept && pairs[t].eid == blk[g] else pairs[t].kept ==> pairs[t].eid in pins
    {
      assert AskedAt(pairs[t], q, topK, lo * topK + t, pins);
    }
  }

  /** Any rows of the batch ask for what q says, place by place. */
  ghost predicate AskedBy(e: Sparse, x: seq<Row>, q: Asks, pins: set<int>) {
    Sound(e) && forall lo, hi :: 0 <= lo <= hi <= |x| ==> RowsAsk(e, x[lo..hi], q, lo, hi, pins)
  }

  ghost predicate RowsAsk(e: Sparse, x: seq<Row>, q: Asks, lo: nat, hi: nat, pins: set<int>)
    requires Sound(e)
  {
    |PairsFor(e, x)| == hi * e.topK - lo * e.topK && Asked(PairsFor(e, x), q, e.topK, lo, pins)
  }

  lemma AskBatch(q: Asks, n: nat, topK: nat, experts: nat, pins: set<int>) returns (e: Sparse, x: seq<Row>)
    requires AllFair(q, topK, experts) && Idle(q.rest, pins) && n > 0 && topK > 0
    ensures Router(e, experts, topK) && x == Numbered(n) && AskedBy(e, x, q, pins)
  {
    hide Router, Asked, GoodTable, Idle, Sound, PairsFor;
    AskRouter(q, n, topK, experts);
    e, x := AskTable(q, n, topK, experts), Numbered(n);
    RouterSound(e, experts, topK);
    forall lo, hi | 0 <= lo <= hi <= |x|
      ensures RowsAsk(e, x[lo..hi], q, lo, hi, pins)
    {
      AskSlice(q, n, topK, experts, pins, lo, hi);
    }
  }

  // ---------------------------------------------------------------- rows that fit, rows that do not

  lemma IdleRows(e: Sparse, b: Bounds, x: seq<Row>, q: Asks, lo: nat, hi: nat)
    requires AskedBy(e, x, q, b.pins) && lo <= hi <= |x| && b.cap > 0 && |b.pins| <= b.cap
    requires hi <= q.a || lo >= q.a + 2 || (lo >= q.a + 1 && Idle(q.second, b.pins))
    ensures FeedFits(Mixture(e), b, x[lo..hi])
  {
    hide Asked, RoundsFit, Sound, Idle;
    assert RowsAsk(e, x[lo..hi], q, lo, hi, b.pins);
    SliceNone(PairsFor(e, x[lo..hi]), q, e.topK, lo, hi, b.pins);
    BlockFits(PairsFor(e, x[lo..hi]), 0, [], b.cap, b.pins, b.cap - |b.pins|);
  }

  lemma RowsFit(e: Sparse, b: Bounds, x: seq<Row>, at: int, blk: seq<int>)
    requires Sound(e) && b.cap > 0
    requires Blocked(PairsFor(e, x), at, blk, b.pins) && PartsFit(at, blk, b.cap, b.pins, b.cap - |b.pins|)
    ensures FeedFits(Mixture(e), b, x)
  {
    hide Sound, Blocked, PartsFit, RoundsFit;
    BlockFits(PairsFor(e, x), at, blk, b.cap, b.pins, b.cap - |b.pins|);
  }

  lemma RowsMisfit(e: Sparse, b: Bounds, x: seq<Row>, at: int, blk: seq<int>, i: nat)
    requires Sound(e) && b.cap > 0 && i * b.cap + b.cap <= |x| * e.topK
    requires Blocked(PairsFor(e, x), at, blk, b.pins) && !PartFits(at, blk, i, b.cap, b.pins, b.cap - |b.pins|)
    ensures !FeedFits(Mixture(e), b, x)
  {
    hide Sound, Blocked, PartFits, RoundsFit;
    BlockMisfits(PairsFor(e, x), at, blk, i, b.cap, b.pins, b.cap - |b.pins|);
  }

  lemma PartBefore(blk: seq<int>, lo: int, hi: int, k: nat)
    requires hi <= k <= |blk|
    ensures Members(Part(blk, lo, hi)) <= Members(blk[..k])
  {
    var part := Part(blk, lo, hi);
    forall e | e in Members(part)
      ensures e in Members(blk[..k])
    {
      var g: nat :| g < |part| && part[g] == e;
      assert blk[..k][Clip(lo, |blk|) + g] == e;
    }
  }

  lemma PartBehind(blk: seq<int>, lo: int, hi: int, k: nat)
    requires k <= lo && k <= |blk|
    ensures Members(Part(blk, lo, hi)) <= Members(blk[k..])
  {
    var part := Part(blk, lo, hi);
    forall e | e in Members(part)
      ensures e in Members(blk[k..])
    {
      var g: nat :| g < |part| && part[g] == e;
      assert blk[k..][Clip(lo, |blk|) + g - k] == e;
    }
  }

  lemma PartAll(blk: seq<int>, lo: int, hi: int, k: nat)
    requires lo == k <= |blk| <= hi
    ensures Part(blk, lo, hi) == blk[k..]
  {
  }

  /** Pinned experts among unpinned ones do not count. */
  lemma Mixed(f: seq<int>, h: seq<int>, g: seq<int>, pins: set<int>)
    requires (forall i :: 0 <= i < |f| ==> f[i] !in pins) && (forall i :: 0 <= i < |g| ==> g[i] !in pins)
    requires forall i :: 0 <= i < |h| ==> h[i] in pins
    ensures |Members(f + h + g) - pins| <= |f| + |g|
    ensures Diverse(f + g) ==> |Members(f + h + g) - pins| == |f| + |g|
  {
    MembersSize(f + g);
    assert Members(f + h + g) - pins == Members(f + g) by {
      hide Diverse;
      forall e
        ensures e in Members(f + h + g) - pins <==> e in Members(f + g)
      {
        assert e in f + h + g <==> e in f || e in h || e in g;
        assert e in f + g <==> e in f || e in g;
      }
    }
  }

  // ---------------------------------------------------------------- the witnesses

  /** A row that keeps one pinned expert. */
  lemma PinnedRow(free: seq<int>, held: seq<int>, topK: nat, experts: nat, pins: set<int>) returns (k: Ask)
    requires FreeHeld(free, held, experts, pins) && held != [] && 0 < topK <= |free| + |held|
    ensures Fair(k, topK, experts) && Idle(k, pins)
  {
    k := Ask((held + free)[..topK], 1);
  }

  /** All unpinned and all pinned experts. */
  ghost predicate FreeHeld(free: seq<int>, held: seq<int>, experts: nat, pins: set<int>) {
    Diverse(free) && Diverse(held) &&
    (forall i :: 0 <= i < |free| ==> 0 <= free[i] < experts && free[i] !in pins) &&
    forall i :: 0 <= i < |held| ==> 0 <= held[i] < experts && held[i] in pins
  }

  /** An alphabet first, then other experts. */
  lemma AlphabetRow(us: seq<int>, topK: nat, experts: nat) returns (k: Ask)
    requires Diverse(us) && 0 < |us| <= topK <= experts && forall i :: 0 <= i < |us| ==> 0 <= us[i] < experts
    ensures Fair(k, topK, experts) && k.keff == |us| && k.ids[..|us|] == us
  {
    MembersSize(us);
    assert Members(us) <= UpTo(experts);
    assert |UpTo(experts) - Members(us)| == experts - |us|;
    var others := Enumerate(UpTo(experts) - Members(us), topK - |us|);
    k := Ask(us + others, |us|);
  }

  /** The alphabet is split by the boundary (j + 1) * cap, which lies inside it. */
  lemma SplitAlphabet(us: seq<int>, cap: nat, pins: set<int>, room: int, at: nat, j: nat)
    requires cap > 1 && Alphabet(us, cap - 1, pins, room) && at < (j + 1) * cap == j * cap + cap < at + cap
    ensures PartsFit(at, us, cap, pins, room)
  {
    hide Alphabet, PartFits;
    forall i: nat
      ensures PartFits(at, us, i, cap, pins, room)
    {
      SplitPart(us, cap, pins, room, at, j, i);
    }
  }

  lemma SplitPart(us: seq<int>, cap: nat, pins: set<int>, room: int, at: nat, j: nat, i: nat)
    requires cap > 1 && Alphabet(us, cap - 1, pins, room) && at < (j + 1) * cap == j * cap + cap < at + cap
    ensures PartFits(at, us, i, cap, pins, room)
  {
    hide Part, Members;
    var lo := i * cap - at;
    if i <= j {
      MulMonotone(cap, i, j);
      PartBefore(us, lo, lo + cap, cap - 1);
      SubsetSize(Members(Part(us, lo, lo + cap)) - pins, Members(us[..cap - 1]) - pins);
    } else {
      MulMonotone(cap, j + 1, i);
      PartBehind(us, lo, lo + cap, 1);
      SubsetSize(Members(Part(us, lo, lo + cap)) - pins, Members(us[1..]) - pins);
    }
  }

  /** The whole alphabet in one round. */
  lemma WholeAlphabet(us: seq<int>, cap: nat, pins: set<int>, room: int, at: int, i: nat)
    requires cap > 1 && Alphabet(us, cap - 1, pins, room) && at == i * cap
    ensures !PartFits(at, us, i, cap, pins, room)
  {
    hide Part, Members;
    PartAll(us, i * cap - at, i * cap + cap - at, 0);
    assert us[0..] == us;
  }

  /** When the steps end before the special rows, they fit. */
  lemma StepsIdle(e: Sparse, b: Bounds, x: seq<Row>, q: Asks, ends: seq<nat>)
    requires AskedBy(e, x, q, b.pins) && b.cap > 0 && |b.pins| <= b.cap
    requires Ordered(ends) && Reused(ends) <= |x| && Reused(ends) <= q.a
    ensures Fed(e, b, x, ends)
  {
    hide AskedBy, FeedFits, Ordered;
    forall i | 0 <= i < |ends|
      ensures From(ends, i) <= ends[i] <= |x| && FeedFits(Mixture(e), b, x[From(ends, i)..ends[i]])
    {
      StepsBefore(ends, i, i + 1);
      StepsBefore(ends, i + 1, |ends|);
      IdleRows(e, b, x, q, From(ends, i), ends[i]);
    }
  }

  /** Rows that fit as a whole and not without those fed before. */
  lemma {:induction false} BlockExits(b: Bounds, experts: nat, topK: nat, ends: seq<nat>) returns (e: Sparse, x: seq<Row>)
    requires 0 < b.cap < topK <= experts && b.pins <= UpTo(experts) && |b.pins| <= b.cap && !Easy(b, experts)
    requires Ordered(ends) && !Aligned(b, topK, Reused(ends))
    ensures Router(e, experts, topK) && Fed(e, b, x, ends) && x == Numbered(Reused(ends) + b.cap)
    ensures FeedFits(Mixture(e), b, x) && !FeedFits(Mixture(e), b, x[Reused(ends)..])
  {
    hide Router, UpTo, FeedFits, Alphabet, AskedBy, Ordered, Fair, Idle, FreeHeld, PartsFit, PartFits, Blocked;
    var s := Reused(ends);
    var n, room := s + b.cap, b.cap - |b.pins|;
    SomePins(b.pins);
    var j := MidRound(b.cap, topK, s);
    var free, held := Sides(experts, b.pins);
    assert FreeHeld(free, held, experts, b.pins) by { FreeHeldSides(free, held, experts, b.pins); }
    var rest := PinnedRow(free, held, topK, experts, b.pins);
    var us := MakeAlphabet(b.cap, experts, b.pins);
    AlphabetSize(us, b.cap - 1, b.pins, room);
    var first := AlphabetRow(us, topK, experts);
    var q := Asks(s, first, rest, rest);
    e, x := AskBatch(q, n, topK, experts, b.pins);
    RouterSound(e, experts, topK);
    StepsIdle(e, b, x, q, ends);
    SplitAlphabet(us, b.cap, b.pins, room, s * topK, j);
    NoOffset(b.cap);
    NoOffset(topK);
    WholeAlphabet(us, b.cap, b.pins, room, 0, 0);
    FirstRows(e, b, x, q, us, 0, n);
    FirstRows(e, b, x, q, us, s, n);
    assert x[0..n] == x && x[s..n] == x[s..];
    RowsFit(e, b, x, s * topK, us);
    RowsMisfit(e, b, x[s..], 0, us, 0);
  }

  lemma FreeHeldSides(free: seq<int>, held: seq<int>, experts: nat, pins: set<int>)
    requires Diverse(free) && Diverse(held)
    requires forall i :: 0 <= i < |free| ==> 0 <= free[i] < experts && free[i] !in pins
    requires forall i :: 0 <= i < |held| ==> 0 <= held[i] < experts && held[i] in pins
    ensures FreeHeld(free, held, experts, pins)
  {
  }

  /** What rows ask for that go beyond the one special row. */
  lemma FirstRows(e: Sparse, b: Bounds, x: seq<Row>, q: Asks, blk: seq<int>, lo: nat, hi: nat)
    requires AskedBy(e, x, q, b.pins) && lo <= hi <= |x|
    requires q.first.keff <= |q.first.ids| == e.topK && blk == q.first.ids[..q.first.keff] && (hi <= q.a + 1 || Idle(q.second, b.pins))
    ensures Sound(e) && Blocked(PairsFor(e, x[lo..hi]), q.a * e.topK - lo * e.topK, blk, b.pins)
  {
    hide Asked, Sound, Idle, Blocked;
    assert RowsAsk(e, x[lo..hi], q, lo, hi, b.pins);
    SliceFirst(PairsFor(e, x[lo..hi]), q, e.topK, lo, hi, b.pins);
  }

  // ---------------------------------------------------------------- one row that only the whole has in one round

  /** Pinned experts and then unpinned ones, w more than a round holds. */
  ghost predicate Wide(free: seq<int>, held: seq<int>, cap: nat, w: nat, pins: set<int>) {
    Diverse(free) && 0 < |held| < cap && |free| == cap - |held| + w && 1 <= w <= cap - |held| &&
    (forall i :: 0 <= i < |free| ==> free[i] !in pins) && forall i :: 0 <= i < |held| ==> held[i] in pins
  }

  /** In rounds from its start on the row fits: the first holds all pinned experts. */
  lemma WideSteps(free: seq<int>, held: seq<int>, cap: nat, w: nat, pins: set<int>)
    requires Wide(free, held, cap, w, pins)
    ensures PartsFit(0, held + free, cap, pins, cap - |held|)
  {
    hide Wide, PartFits;
    var room := cap - |held|;
    forall i: nat
      ensures PartFits(0, held + free, i, cap, pins, room)
    {
      WidePart(free, held, cap, w, pins, i);
    }
  }

  lemma WidePart(free: seq<int>, held: seq<int>, cap: nat, w: nat, pins: set<int>, i: nat)
    requires Wide(free, held, cap, w, pins)
    ensures PartFits(0, held + free, i, cap, pins, cap - |held|)
  {
    hide Part, Members, Diverse;
    var blk, room := held + free, cap - |held|;
    var lo := i * cap;
    if i == 0 {
      assert blk[..cap] == [] + held + free[..room];
      PartBefore(blk, lo, lo + cap, cap);
      Mixed([], held, free[..room], pins);
      SubsetSize(Members(Part(blk, lo, lo + cap)) - pins, Members(blk[..cap]) - pins);
    } else {
      MulMonotone(cap, 1, i);
      assert blk[cap..] == free[room..] + [] + [];
      PartBehind(blk, lo, lo + cap, cap);
      Mixed(free[room..], [], [], pins);
      SubsetSize(Members(Part(blk, lo, lo + cap)) - pins, Members(blk[cap..]) - pins);
    }
  }

  /** In a round that begins d pairs into the row it does not. */
  lemma WideWhole(free: seq<int>, held: seq<int>, cap: nat, w: nat, pins: set<int>, at: nat, i: nat, d: nat)
    requires Wide(free, held, cap, w, pins) && i * cap - at == d && w <= d <= cap
    requires d >= |held| ==> w + cap - d > cap - |held|
    ensures !PartFits(at, held + free, i, cap, pins, cap - |held|)
  {
    hide Part, Members, Diverse;
    PartAll(held + free, i * cap - at, i * cap + cap - at, d);
    WideRest(free, held, cap, w, pins, d);
  }

  /** What is left of the row after d pairs. */
  lemma WideRest(free: seq<int>, held: seq<int>, cap: nat, w: nat, pins: set<int>, d: nat)
    requires Wide(free, held, cap, w, pins) && d <= cap && (d >= |held| ==> w + cap - d > cap - |held|)
    ensures |Members((held + free)[d..]) - pins| > cap - |held|
  {
    hide Members;
    if d >= |held| {
      var f := free[d - |held|..];
      assert (held + free)[d..] == f + [] + [] && f + [] == f;
      Mixed(f, [], [], pins);
    } else {
      assert (held + free)[d..] == [] + held[d..] + free && [] + free == free;
      Mixed([], held[d..], free, pins);
    }
  }

  // ---------------------------------------------------------------- two rows that only the whole has in one round

  /** The first row's experts: unpinned ones, the pinned ones just before its last r, and r unpinned
      ones again. */
  function LateRow(free: seq<int>, held: seq<int>, topK: nat, r: nat): (ids: seq<int>)
    requires r <= topK - |held| <= |free|
    ensures |ids| == topK
  {
    free[r..topK - |held|] + held + free[..r]
  }

  ghost predicate Narrow(free: seq<int>, held: seq<int>, cap: nat, topK: nat, r: nat, pins: set<int>) {
    Diverse(free) && 0 < |held| < cap < topK && 0 < r < cap - |held| && topK + r <= cap + cap - |held| &&
    topK - |held| <= |free| && cap - |held| < |free| &&
    (forall i :: 0 <= i < |free| ==> free[i] !in pins) && forall i :: 0 <= i < |held| ==> held[i] in pins
  }

  /** In rounds of which one ends just before the last r, the first row fits. */
  lemma LateSteps(free: seq<int>, held: seq<int>, cap: nat, topK: nat, r: nat, pins: set<int>, at: nat, j: nat)
    requires Narrow(free, held, cap, topK, r, pins) && j * cap == at + topK - r
    ensures PartsFit(at, LateRow(free, held, topK, r), cap, pins, cap - |held|)
  {
    hide PartFits, LateRow;
    var row, room := LateRow(free, held, topK, r), cap - |held|;
    forall i: nat
      ensures PartFits(at, row, i, cap, pins, room)
    {
      LatePart(free, held, cap, topK, r, pins, at, j, i);
    }
  }

  lemma LatePart(free: seq<int>, held: seq<int>, cap: nat, topK: nat, r: nat, pins: set<int>, at: nat, j: nat, i: nat)
    requires Narrow(free, held, cap, topK, r, pins) && j * cap == at + topK - r
    ensures PartFits(at, LateRow(free, held, topK, r), i, cap, pins, cap - |held|)
  {
    hide Part, Members, Diverse, LateRow;
    var row := LateRow(free, held, topK, r);
    var lo := i * cap - at;
    if i >= j {
      MulMonotone(cap, j, i);
      LateEnd(free, held, cap, topK, r, pins, lo);
    } else if i + 1 == j {
      assert i * cap + cap == j * cap;
      LateMiddle(free, held, cap, topK, r, pins, lo);
    } else {
      MulMonotone(cap, i + 2, j);
      assert (i + 2) * cap == i * cap + cap + cap;
      LateStart(free, held, cap, topK, r, pins, lo);
    }
  }

  lemma LateEnd(free: seq<int>, held: seq<int>, cap: nat, topK: nat, r: nat, pins: set<int>, lo: int)
    requires Narrow(free, held, cap, topK, r, pins) && lo >= topK - r
    ensures |Members(Part(LateRow(free, held, topK, r), lo, lo + cap)) - pins| <= cap - |held|
  {
    hide Part, Members, Diverse;
    var row := LateRow(free, held, topK, r);
    assert row[topK - r..] == free[..r] + [] + [];
    PartBehind(row, lo, lo + cap, topK - r);
    Mixed(free[..r], [], [], pins);
    SubsetSize(Members(Part(row, lo, lo + cap)) - pins, Members(row[topK - r..]) - pins);
  }

  lemma LateMiddle(free: seq<int>, held: seq<int>, cap: nat, topK: nat, r: nat, pins: set<int>, lo: int)
    requires Narrow(free, held, cap, topK, r, pins) && lo + cap == topK - r
    ensures |Members(Part(LateRow(free, held, topK, r), lo, lo + cap)) - pins| <= cap - |held|
  {
    hide Members, Diverse;
    var row := LateRow(free, held, topK, r);
    var k := Clip(lo, topK);
    assert Part(row, lo, lo + cap) == free[r + k..topK - |held|] + held + [];
    Mixed(free[r + k..topK - |held|], held, [], pins);
  }

  lemma LateStart(free: seq<int>, held: seq<int>, cap: nat, topK: nat, r: nat, pins: set<int>, lo: int)
    requires Narrow(free, held, cap, topK, r, pins) && lo + cap + cap <= topK - r
    ensures |Members(Part(LateRow(free, held, topK, r), lo, lo + cap)) - pins| <= cap - |held|
  {
    hide Members;
    var part := Part(LateRow(free, held, topK, r), lo, lo + cap);
    MembersSize(part);
    SubsetSize(Members(part) - pins, Members(part));
  }

  /** The second row alone fits: fewer experts than unpinned slots. */
  lemma FewFit(blk: seq<int>, cap: nat, pins: set<int>, room: int)
    requires |blk| <= room
    ensures PartsFit(0, blk, cap, pins, room)
  {
    hide PartFits;
    forall i: nat
      ensures PartFits(0, blk, i, cap, pins, room)
    {
      FewPart(blk, i, cap, pins, room);
    }
  }

  lemma FewPart(blk: seq<int>, i: nat, cap: nat, pins: set<int>, room: int)
    requires |blk| <= room
    ensures PartFits(0, blk, i, cap, pins, room)
  {
    hide Members;
    var part := Part(blk, i * cap, i * cap + cap);
    MembersSize(part);
    SubsetSize(Members(part) - pins, Members(part));
  }

  /** In the round that holds the end of the first row and the start of the second they do not. */
  lemma LateWhole(free: seq<int>, held: seq<int>, cap: nat, topK: nat, r: nat, pins: set<int>, at: nat, i: nat)
    requires Narrow(free, held, cap, topK, r, pins) && i * cap - at == topK - r
    ensures !PartFits(at, LateRow(free, held, topK, r) + free[r..cap - |held| + 1], i, cap, pins, cap - |held|)
  {
    hide Part, Members;
    var blk, few := LateRow(free, held, topK, r) + free[r..cap - |held| + 1], free[..cap - |held| + 1];
    PartAll(blk, i * cap - at, i * cap + cap - at, topK - r);
    assert blk[topK - r..] == few + [] + [];
    assert few + [] == few;
    Mixed(few, [], [], pins);
  }

  // ---------------------------------------------------------------- rows that only fit without those fed before

  /** The first step that ends inside a round; it starts at the beginning of one. */
  lemma {:induction false} FirstMisaligned(b: Bounds, topK: nat, ends: seq<nat>, k: nat) returns (i: nat)
    requires b.cap > 0 && Ordered(ends) && k < |ends| && !Aligned(b, topK, ends[k])
    ensures i < |ends| && !Aligned(b, topK, ends[i]) && Aligned(b, topK, From(ends, i)) && From(ends, i) < ends[i]
    decreases k
  {
    hide Aligned;
    StartAligned(b, topK);
    if Aligned(b, topK, From(ends, k)) {
      i := k;
    } else {
      i := FirstMisaligned(b, topK, ends, k - 1);
    }
  }

  /** Steps that end before row a or start at row a or later. */
  lemma WideStep(e: Sparse, b: Bounds, x: seq<Row>, q: Asks, free: seq<int>, held: seq<int>, w: nat, lo: nat, hi: nat)
    requires AskedBy(e, x, q, b.pins) && lo <= hi <= |x| && |held| == |b.pins| && Wide(free, held, b.cap, w, b.pins)
    requires q.first.keff <= |q.first.ids| == e.topK && held + free == q.first.ids[..q.first.keff] && Idle(q.second, b.pins)
    requires hi <= q.a || lo >= q.a
    ensures FeedFits(Mixture(e), b, x[lo..hi])
  {
    hide AskedBy, Idle, FeedFits, Blocked, PartsFit;
    if lo == q.a < hi {
      FirstRows(e, b, x, q, held + free, lo, hi);
      WideSteps(free, held, b.cap, w, b.pins);
      RowsFit(e, b, x[lo..hi], 0, held + free);
    } else {
      IdleRows(e, b, x, q, lo, hi);
    }
  }

  lemma WideFed(e: Sparse, b: Bounds, x: seq<Row>, q: Asks, free: seq<int>, held: seq<int>, w: nat, ends: seq<nat>, i: nat)
    requires AskedBy(e, x, q, b.pins) && |held| == |b.pins| && Wide(free, held, b.cap, w, b.pins)
    requires q.first.keff <= |q.first.ids| == e.topK && held + free == q.first.ids[..q.first.keff] && Idle(q.second, b.pins)
    requires Ordered(ends) && Reused(ends) <= |x| && i < |ends| && q.a == ends[i]
    ensures Fed(e, b, x, ends)
  {
    hide AskedBy, Idle, FeedFits, Ordered, Wide;
    forall k | 0 <= k < |ends|
      ensures From(ends, k) <= ends[k] <= |x| && FeedFits(Mixture(e), b, x[From(ends, k)..ends[k]])
    {
      StepsBefore(ends, k, k + 1);
      StepsBefore(ends, k + 1, |ends|);
      if k <= i {
        StepsBefore(ends, k + 1, i + 1);
      } else {
        StepsBefore(ends, i + 1, k);
      }
      WideStep(e, b, x, q, free, held, w, From(ends, k), ends[k]);
    }
  }

  /** The row after the step keeps so many experts that one round of the whole cannot hold them. */
  lemma {:induction false} WideSaves(b: Bounds, experts: nat, topK: nat, ends: seq<nat>, i: nat, w: nat)
      returns (e: Sparse, x: seq<Row>)
    requires 0 < b.cap < topK <= experts && b.pins <= UpTo(experts) && 0 < |b.pins| < b.cap
    requires Ordered(ends) && i < |ends| && !Aligned(b, topK, ends[i]) && b.cap + w <= topK
    requires var r := (ends[i] * topK) % b.cap; w == if r <= b.cap - |b.pins| then b.cap - |b.pins| + 1 - r else 1
    ensures Router(e, experts, topK) && Fed(e, b, x, ends) && x == Numbered(Reused(ends) + b.cap)
    ensures !FeedFits(Mixture(e), b, x) && FeedFits(Mixture(e), b, x[Reused(ends)..])
  {
    hide Router, UpTo, FeedFits, AskedBy, Ordered, Fair, Idle, PartFits, Blocked, Diverse;
    var s, a := Reused(ends), ends[i];
    var n := s + b.cap;
    var j := MidRound(b.cap, topK, a);
    var free, held := Sides(experts, b.pins);
    FreeHeldSides(free, held, experts, b.pins);
    var rest := PinnedRow(free, held, topK, experts, b.pins);
    var few := free[..b.cap - |held| + w];
    var first := WideRow(free, held, topK, experts, b.cap + w, b.pins);
    WideFree(free, held, b.cap, w, b.pins);
    var q := Asks(a, first, rest, rest);
    e, x := AskBatch(q, n, topK, experts, b.pins);
    RouterSound(e, experts, topK);
    WideFed(e, b, x, q, few, held, w, ends, i);
    StepsBefore(ends, i + 1, |ends|);
    WideStep(e, b, x, q, few, held, w, s, n);
    assert x[0..n] == x && x[s..n] == x[s..];
    NoOffset(topK);
    FirstRows(e, b, x, q, held + few, 0, n);
    NextRound(b.cap, topK, a, s, j);
    WideWhole(few, held, b.cap, w, b.pins, a * topK, j + 1, (j + 1) * b.cap - a * topK);
    RowsMisfit(e, b, x, a * topK, held + few, j + 1);
  }

  lemma WideRow(free: seq<int>, held: seq<int>, topK: nat, experts: nat, keff: nat, pins: set<int>) returns (k: Ask)
    requires FreeHeld(free, held, experts, pins) && |held| <= keff <= topK <= |free| + |held| && keff > 0
    ensures Fair(k, topK, experts) && k.keff == keff && k.ids[..keff] == held + free[..keff - |held|]
  {
    k := Ask((held + free)[..topK], keff);
  }

  lemma WideFree(free: seq<int>, held: seq<int>, cap: nat, w: nat, pins: set<int>)
    requires Diverse(free) && 0 < |held| < cap && cap - |held| + w <= |free| && 1 <= w <= cap - |held|
    requires (forall i :: 0 <= i < |free| ==> free[i] !in pins) && forall i :: 0 <= i < |held| ==> held[i] in pins
    ensures Wide(free[..cap - |held| + w], held, cap, w, pins)
  {
  }

  /** The round after round j, which holds the end of row t <= s, is whole within s + cap rows. */
  lemma NextRound(cap: nat, topK: nat, t: nat, s: nat, j: nat)
    requires 0 < cap < topK && t <= s && j * cap < t * topK
    ensures (j + 1) * cap + cap <= (s + cap) * topK
  {
    MulMonotone(topK, t, s);
    MulMonotone(cap, 2, topK);
    assert (s + cap) * topK == s * topK + cap * topK;
    assert (j + 1) * cap == j * cap + cap;
  }

  /** The two special rows of the narrow case. */
  ghost predicate LateAsks(q: Asks, free: seq<int>, held: seq<int>, b: Bounds, topK: nat, r: nat) {
    |held| == |b.pins| && Narrow(free, held, b.cap, topK, r, b.pins) &&
    q.first == Ask(LateRow(free, held, topK, r), topK) &&
    q.second.keff == b.cap - |held| + 1 - r <= |q.second.ids| == topK &&
    q.second.ids[..q.second.keff] == free[r..b.cap - |held| + 1]
  }

  /** What rows ask for that end with the first special row. */
  lemma LateStep(e: Sparse, b: Bounds, x: seq<Row>, q: Asks, free: seq<int>, held: seq<int>, r: nat, lo: nat, j: nat)
    requires AskedBy(e, x, q, b.pins) && lo <= q.a < |x| && LateAsks(q, free, held, b, e.topK, r)
    requires q.a * e.topK - lo * e.topK >= 0 && j * b.cap == q.a * e.topK - lo * e.topK + e.topK - r
    ensures FeedFits(Mixture(e), b, x[lo..q.a + 1])
  {
    hide AskedBy, Idle, FeedFits, Blocked, PartsFit, LateRow;
    FirstRows(e, b, x, q, q.first.ids, lo, q.a + 1);
    LateSteps(free, held, b.cap, e.topK, r, b.pins, q.a * e.topK - lo * e.topK, j);
    RowsFit(e, b, x[lo..q.a + 1], q.a * e.topK - lo * e.topK, q.first.ids);
  }

  /** Rows that start with the second special row or later. */
  lemma LaterStep(e: Sparse, b: Bounds, x: seq<Row>, q: Asks, free: seq<int>, held: seq<int>, r: nat, lo: nat, hi: nat)
    requires AskedBy(e, x, q, b.pins) && q.a < lo <= hi <= |x| && LateAsks(q, free, held, b, e.topK, r)
    ensures FeedFits(Mixture(e), b, x[lo..hi])
  {
    hide Idle, FeedFits, Blocked, PartsFit, LateRow, Asked, Sound;
    if lo == q.a + 1 {
      assert RowsAsk(e, x[lo..hi], q, lo, hi, b.pins);
      SliceSecond(PairsFor(e, x[lo..hi]), q, e.topK, lo, hi, b.pins);
      FewFit(q.second.ids[..q.second.keff], b.cap, b.pins, b.cap - |b.pins|);
      RowsFit(e, b, x[lo..hi], 0, q.second.ids[..q.second.keff]);
    } else {
      IdleRows(e, b, x, q, lo, hi);
    }
  }

  lemma LateFed(e: Sparse, b: Bounds, x: seq<Row>, q: Asks, free: seq<int>, held: seq<int>, r: nat, ends: seq<nat>, i: nat, j: nat)
    requires AskedBy(e, x, q, b.pins) && LateAsks(q, free, held, b, e.topK, r) && b.cap > 0 && |b.pins| <= b.cap
    requires Ordered(ends) && Reused(ends) <= |x| && i < |ends| && From(ends, i) < ends[i] == q.a + 1
    requires q.a * e.topK - From(ends, i) * e.topK >= 0
    requires j * b.cap == q.a * e.topK - From(ends, i) * e.topK + e.topK - r
    ensures Fed(e, b, x, ends)
  {
    hide AskedBy, LateAsks, Idle, FeedFits, Ordered;
    forall k | 0 <= k < |ends|
      ensures From(ends, k) <= ends[k] <= |x| && FeedFits(Mixture(e), b, x[From(ends, k)..ends[k]])
    {
      StepsBefore(ends, k, k + 1);
      StepsBefore(ends, k + 1, |ends|);
      if k < i {
        StepsBefore(ends, k + 1, i);
        IdleRows(e, b, x, q, From(ends, k), ends[k]);
      } else if k == i {
        LateStep(e, b, x, q, free, held, r, From(ends, k), j);
      } else {
        StepsBefore(ends, i + 1, k);
        LaterStep(e, b, x, q, free, held, r, From(ends, k), ends[k]);
      }
    }
  }

  /** The rounds of a step that starts at the beginning of a round of the whole, seen from its last
      row t: one of them ends before the row's last r. */
  lemma StepRounds(cap: nat, topK: nat, from: nat, t: nat) returns (j: nat, r: nat)
    requires 0 < cap < topK && from <= t && (from * topK) % cap == 0
    ensures r == ((t + 1) * topK) % cap && t * topK - from * topK >= 0 && j * cap == t * topK - from * topK + topK - r
  {
    r := ((t + 1) * topK) % cap;
    MulMonotone(topK, from, t);
    var whole, first := (t + 1) * topK / cap, from * topK / cap;
    assert (t + 1) * topK == t * topK + topK;
    assert (t + 1) * topK == whole * cap + r && from * topK == first * cap;
    assert (whole - first) * cap == whole * cap - first * cap;
    assert whole >= first;
    j := whole - first;
  }

  lemma LateRows(free: seq<int>, held: seq<int>, b: Bounds, topK: nat, experts: nat, r: nat, rest: Ask, a: nat) returns (q: Asks)
    requires |held| == |b.pins| && Narrow(free, held, b.cap, topK, r, b.pins) && Fair(rest, topK, experts)
    requires FreeHeld(free, held, experts, b.pins) && topK <= |free| + |held|
    ensures q.a == a && q.rest == rest && AllFair(q, topK, experts) && LateAsks(q, free, held, b, topK, r)
  {
    q := Asks(a, Ask(LateRow(free, held, topK, r), topK),
              Ask((free[r..] + free[..r] + held)[..topK], b.cap - |held| + 1 - r), rest);
  }

  lemma {:induction false} NarrowSaves(b: Bounds, experts: nat, topK: nat, ends: seq<nat>, i: nat)
      returns (e: Sparse, x: seq<Row>)
    requires 0 < b.cap < topK <= experts && b.pins <= UpTo(experts) && 0 < |b.pins| < b.cap
    requires Ordered(ends) && i < |ends| && From(ends, i) < ends[i]
    requires !Aligned(b, topK, ends[i]) && Aligned(b, topK, From(ends, i))
    requires topK + (ends[i] * topK) % b.cap <= b.cap + b.cap - |b.pins|
    ensures Router(e, experts, topK) && Fed(e, b, x, ends) && x == Numbered(Reused(ends) + b.cap)
    ensures !FeedFits(Mixture(e), b, x) && FeedFits(Mixture(e), b, x[Reused(ends)..])
  {
    hide Router, UpTo, FeedFits, AskedBy, Ordered, Fair, AllFair, Idle, PartFits, Blocked, Diverse, LateAsks;
    var s, a := Reused(ends), ends[i] - 1;
    var n := s + b.cap;
    var free, held := Sides(experts, b.pins);
    FreeHeldSides(free, held, experts, b.pins);
    var rest := PinnedRow(free, held, topK, experts, b.pins);
    var j, r := StepRounds(b.cap, topK, From(ends, i), a);
    var q := LateRows(free, held, b, topK, experts, r, rest, a);
    e, x := AskBatch(q, n, topK, experts, b.pins);
    RouterSound(e, experts, topK);
    StepsBefore(ends, i + 1, |ends|);
    LateFed(e, b, x, q, free, held, r, ends, i, j);
    LaterStep(e, b, x, q, free, held, r, s, n);
    assert x[s..n] == x[s..];
    LateMisfit(e, b, x, q, free, held, r, s);
  }

  /** The whole has a round that begins with the last r of the first special row. */
  lemma LateMisfit(e: Sparse, b: Bounds, x: seq<Row>, q: Asks, free: seq<int>, held: seq<int>, r: nat, s: nat)
    requires AskedBy(e, x, q, b.pins) && LateAsks(q, free, held, b, e.topK, r)
    requires q.a < s && |x| == s + b.cap && b.cap > 0 && r == ((q.a + 1) * e.topK) % b.cap
    ensures !FeedFits(Mixture(e), b, x)
  {
    hide Asked, FeedFits, Blocked, PartFits, LateRow, Sound;
    var topK, n := e.topK, |x|;
    var j := MidRound(b.cap, topK, q.a + 1);
    LineStart(topK, q.a);
    RoundWithin(b.cap, topK, q.a + 1, s, j);
    assert x[0..n] == x;
    assert RowsAsk(e, x[0..n], q, 0, n, b.pins);
    NoOffset(topK);
    SliceBoth(PairsFor(e, x), q, topK, 0, b.pins);
    LateWhole(free, held, b.cap, topK, r, b.pins, q.a * topK, j);
    RowsMisfit(e, b, x, q.a * topK, q.first.ids + q.second.ids[..q.second.keff], j);
  }

  /** Rows that do not fit as a whole and do without those fed before. */
  lemma {:induction false} BlockSaves(b: Bounds, experts: nat, topK: nat, ends: seq<nat>, k: nat)
      returns (e: Sparse, x: seq<Row>)
    requires 0 < b.cap < topK <= experts && b.pins <= UpTo(experts) && |b.pins| <= b.cap && !Easy(b, experts)
    requires Ordered(ends) && k < |ends| && !Aligned(b, topK, ends[k])
    ensures Router(e, experts, topK) && Fed(e, b, x, ends) && x == Numbered(Reused(ends) + b.cap)
    ensures !FeedFits(Mixture(e), b, x) && FeedFits(Mixture(e), b, x[Reused(ends)..])
  {
    hide Router, UpTo, FeedFits, Ordered, Fed;
    SomePins(b.pins);
    var i := FirstMisaligned(b, topK, ends, k);
    var r, q := (ends[i] * topK) % b.cap, b.cap - |b.pins|;
    var w := if r <= q then q + 1 - r else 1;
    if b.cap + w <= topK {
      e, x := WideSaves(b, experts, topK, ends, i, w);
    } else {
      e, x := NarrowSaves(b, experts, topK, ends, i);
    }
  }
}
