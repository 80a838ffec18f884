/** What reuse of a prefix can change in moe(), and which start-ups can make it exit at all. */
module MoeReuse {
  import opened Wrappers
  import opened ExpertCache
  import opened Moe
  import opened MoeRounds
  import opened ReuseSteps
  import opened ReuseTables
  import opened ReuseWalks
  import opened ReuseBlocks

  /** Rows that get through as a whole, and not without those fed before. */
  lemma ReuseExits(b: Bounds, experts: nat, topK: nat, ends: seq<nat>) returns (e: Sparse, x: seq<Row>)
    requires 0 < topK <= experts && 0 < b.cap && b.pins <= UpTo(experts) && |b.pins| <= b.cap && !Easy(b, experts)
    requires Ordered(ends) && !Aligned(b, topK, Reused(ends))
    ensures Router(e, experts, topK) && Fed(e, b, x, ends) && x == Numbered(Reused(ends) + b.cap)
    ensures FeedFits(Mixture(e), b, x) && !FeedFits(Mixture(e), b, x[Reused(ends)..])
  {
    hide Router, Fed, FeedFits, UpTo, Easy, Aligned, Ordered;
    if topK <= b.cap {
      e, x := WalkExits(b, experts, topK, ends);
    } else {
      e, x := BlockExits(b, experts, topK, ends);
    }
  }

  /** Rows that do not get through as a whole, and do without those fed before. */
  lemma ReuseSaves(b: Bounds, experts: nat, topK: nat, ends: seq<nat>) returns (e: Sparse, x: seq<Row>)
    requires 0 < topK <= experts && 0 < b.cap && b.pins <= UpTo(experts) && |b.pins| <= b.cap && !Easy(b, experts)
    requires Ordered(ends) && !AllAligned(b, topK, ends)
    ensures Router(e, experts, topK) && Fed(e, b, x, ends) && x == Numbered(Reused(ends) + b.cap)
    ensures !FeedFits(Mixture(e), b, x) && FeedFits(Mixture(e), b, x[Reused(ends)..])
  {
    hide Router, Fed, FeedFits, UpTo, Easy, Aligned, Ordered;
    var i :| 0 <= i < |ends| && !Aligned(b, topK, ends[i]);
    if topK <= b.cap {
      e, x := WalkSaves(b, experts, topK, ends, i);
    } else {
      e, x := BlockSaves(b, experts, topK, ends, i);
    }
  }

  /** For any router and any rows, when nothing or everything is pinned or every expert has a slot,
      reuse changes nothing. Otherwise it adds no exit exactly when the rows fed before fill whole
      rounds, and avoids none exactly when every step that fed them ended on a round. */
  lemma {:induction false} ReuseHarmlessIff(b: Bounds, experts: nat, topK: nat, ends: seq<nat>)
    requires 0 < topK <= experts && 0 < b.cap && b.pins <= UpTo(experts) && |b.pins| <= b.cap && Ordered(ends)
    ensures AddsNoExit(b, experts, topK, ends) <==> Easy(b, experts) || Aligned(b, topK, Reused(ends))
    ensures AvoidsNoExit(b, experts, topK, ends) <==> Easy(b, experts) || AllAligned(b, topK, ends)
  {
    hide Router, Fed, FeedFits, UpTo, Easy, Aligned, AllAligned, Ordered;
    if Easy(b, experts) || Aligned(b, topK, Reused(ends)) {
      AlignedAddsNone(b, experts, topK, ends);
    } else {
      var e, x := ReuseExits(b, experts, topK, ends);
    }
    if Easy(b, experts) || AllAligned(b, topK, ends) {
      AlignedAvoidsNone(b, experts, topK, ends);
    } else {
      var e, x := ReuseSaves(b, experts, topK, ends);
    }
  }

  // ---------------------------------------------------------------- a start-up that pins

  /** The table that goes through the experts of `order` again and again. */
  function RoundRobin(order: seq<int>, count: nat): (ids: seq<int>)
    requires order != []
    ensures |ids| == count
  {
    seq(count, t requires 0 <= t => order[t % |order|])
  }

  lemma RobinTable(order: seq<int>, n: nat, topK: nat, experts: nat)
    requires order != [] && Diverse(order) && n > 0 && topK > 0 && forall i :: 0 <= i < |order| ==> 0 <= order[i] < experts
    ensures var ids := RoundRobin(order, n * topK);
            GoodTable(ids, AllOf(n, topK), topK, experts) && Sound(Table(ids, AllOf(n, topK), topK, experts)) &&
            (topK <= |order| ==> Router(Table(ids, AllOf(n, topK), topK, experts), experts, topK))
  {
    hide Router, Sound;
    var ids := RoundRobin(order, n * topK);
    if topK <= |order| {
      forall t, u | 0 <= t < u < |ids| && t / topK == u / topK
        ensures ids[t] != ids[u]
      {
        SameLine(topK, t, u);
        ModDiffers(u, t, |order|);
        var i, j := t % |order|, u % |order|;
        assert order[i] != order[j];
      }
    }
    TableRouter(ids, AllOf(n, topK), topK, experts);
  }

  /** A start-up that pins anything, in a layer with more experts than slots, leaves a cache on which
      rows can arrive that make moe() exit: for every topK, and with topK different experts in each
      row as long as there are that many. */
  method PinnedStart(cap: nat, experts: nat, topK: nat, load: int -> Row, counts: seq<nat>, pinN: Option<int>)
      returns (m: Cache, ghost e: Sparse, ghost x: seq<Row>)
    requires |counts| == experts > cap && PinDepth(cap, pinN) > 0 && (exists i :: 0 <= i < experts && counts[i] > 0) && topK > 0
    ensures m.cap == cap && m.experts == experts && Serves(m, Mixture(e))
    ensures e.topK == topK && (topK <= experts ==> Router(e, experts, topK))
    ensures !FeedFits(Mixture(e), BoundsOf(m), x)
  {
    hide Indexed, OwnWeights, Clocked, Pinned, PinIds, TopPins, AllPinned, AllFilled, Router, Sound, FeedFits;
    m := new Cache(cap, experts, load);
    var npin := m.PinsLoad(counts, pinN);
    ghost var b := BoundsOf(m);
    SomePinned(counts, npin);
    ghost var f;
    f, x := PinnedRows(b, experts, topK);
    e := f.(load := load);
    Reloaded(f, load, b, x, experts, topK);
  }

  /** Where the weights come from has no part in what fits. */
  lemma Reloaded(e: Sparse, load: int -> Row, b: Bounds, x: seq<Row>, experts: nat, topK: nat)
    requires Sound(e)
    ensures var f := e.(load := load);
            Sound(f) && (Router(e, experts, topK) ==> Router(f, experts, topK)) &&
            (FeedFits(Mixture(f), b, x) <==> FeedFits(Mixture(e), b, x))
  {
    hide BatchFits;
    var f := e.(load := load);
    forall y: Row
      ensures ChoiceFits(f, f.route(y)) && f.route(y) == e.route(y)
    {
      assert ChoiceFits(e, e.route(y));
    }
    forall t: nat | t < |x| * e.topK
      ensures WantAt(f, x, t) == WantAt(e, x, t)
    {
    }
    assert PairsFor(f, x) == PairsFor(e, x);
  }

  lemma SomePinned(counts: seq<nat>, depth: nat)
    requires depth > 0 && exists i :: 0 <= i < |counts| && counts[i] > 0
    ensures TopPins(counts, depth) != {}
  {
    hide TopPins;
    TopPinsMost(counts, depth);
  }

  lemma PinnedRows(b: Bounds, experts: nat, topK: nat) returns (e: Sparse, x: seq<Row>)
    requires topK > 0 && b.cap < experts && b.pins != {} && b.pins <= UpTo(experts) && |b.pins| <= b.cap
    ensures Sound(e) && e.topK == topK && e.experts == experts && (topK <= experts ==> Router(e, experts, topK))
    ensures !FeedFits(Mixture(e), b, x)
  {
    hide Router, Sound, PairsFor, UpTo, RoundRobin, BatchFits, Table, Numbered, EntryAt, GoodTable;
    var free, held := Sides(experts, b.pins);
    var order, keeps := free + held, AllOf(b.cap, topK);
    var ids := RoundRobin(order, b.cap * topK);
    RobinTable(order, b.cap, topK, experts);
    e, x := Table(ids, keeps, topK, experts), Numbered(b.cap);
    TableSizes(ids, keeps, topK, experts);
    TablePairs(ids, keeps, topK, experts, 0, b.cap);
    assert x[0..b.cap] == x;
    MulMonotone(b.cap, 1, topK);
    NoOffset(topK);
    var pairs := PairsFor(e, x);
    forall t | 0 <= t < |free| && t < b.cap
      ensures pairs[t].kept && pairs[t].eid == free[t]
    {
      RobinStart(order, b.cap * topK, t);
      RobinEntry(pairs[t], order, b.cap, topK, t);
    }
    FreeRound(pairs, b, free);
  }

  lemma RobinEntry(p: Pair, order: seq<int>, n: nat, topK: nat, t: nat)
    requires order != [] && EntryAt(p, RoundRobin(order, n * topK), AllOf(n, topK), topK, t)
    ensures p.kept && p.eid == RoundRobin(order, n * topK)[t]
  {
  }

  lemma TableSizes(ids: seq<int>, keeps: seq<nat>, topK: nat, experts: nat)
    ensures Table(ids, keeps, topK, experts).topK == topK && Table(ids, keeps, topK, experts).experts == experts
  {
  }

  lemma RobinStart(order: seq<int>, count: nat, t: nat)
    requires t < |order| && t < count
    ensures RoundRobin(order, count)[t] == order[t]
  {
    Small(t, |order|);
  }

  /** A first round that begins with one different unpinned expert more than there are unpinned slots. */
  lemma FreeRound(pairs: seq<Pair>, b: Bounds, free: seq<int>)
    requires 0 < b.cap <= |pairs| && b.pins != {} && b.cap < |free| + |b.pins| && |b.pins| <= b.cap && Diverse(free)
    requires forall t :: 0 <= t < |free| ==> free[t] !in b.pins
    requires forall t :: 0 <= t < |free| && t < b.cap ==> pairs[t].kept && pairs[t].eid == free[t]
    ensures !BatchFits(pairs, b)
  {
    var few, round := free[..b.cap - |b.pins| + 1], pairs[0..b.cap];
    MembersSize(few);
    forall e | e in Members(few)
      ensures e in Demand(round, b.pins)
    {
      var i: nat :| i < |few| && few[i] == e;
      assert round[i].eid == e;
    }
    SubsetSize(Members(few), Demand(round, b.pins));
  }
}
