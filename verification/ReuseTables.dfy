/** A router given by a table: row [i] of a batch asks for what line i of the table says. */
module ReuseTables {
  import opened Wrappers
  import opened ExpertCache
  import opened Moe
  import opened MoeRounds
  import opened ReuseSteps

  /** These experts in order of rank, of which the first keff are kept. */
  function Picked(ids: seq<int>, keff: nat): Choice {
    Ranking(ids, keff, seq(|ids|, _ => 1.0), [])
  }

  /** Line i of the table is ids[i * topK..], of which keeps[i] are kept. */
  function Line(ids: seq<int>, keeps: seq<nat>, topK: nat, x: Row): Choice {
    var i := if |x| > 0 && x[0] >= 0.0 then x[0].Floor else 0;
    var lo := i * topK;
    if 0 <= i < |keeps| && 0 <= lo && lo + topK <= |ids| then Picked(ids[lo..lo + topK], keeps[i])
    else if keeps != [] && topK <= |ids| then Picked(ids[..topK], keeps[0])
    else Picked([], 0)
  }

  function Table(ids: seq<int>, keeps: seq<nat>, topK: nat, experts: nat): Sparse {
    Sparse(Ops((w: Row, x: Row) => w, (a: Row, w: real, y: Row) => a, (j: nat, x: Row) => x),
           (e: int) => [], experts, topK, 0, [], (x: Row) => Line(ids, keeps, topK, x))
  }

  function Numbered(n: nat): (x: seq<Row>)
    ensures |x| == n
  {
    seq(n, i => [i as real])
  }

  ghost predicate GoodTable(ids: seq<int>, keeps: seq<nat>, topK: nat, experts: nat) {
    keeps != [] && topK > 0 && |ids| == |keeps| * topK && (forall t :: 0 <= t < |ids| ==> 0 <= ids[t] < experts) &&
    forall i :: 0 <= i < |keeps| ==> 1 <= keeps[i] <= topK
  }

  /** Every line is topK different experts. */
  ghost predicate LinesDiffer(ids: seq<int>, topK: nat) {
    topK > 0 && forall t, u :: 0 <= t < u < |ids| && t / topK == u / topK ==> ids[t] != ids[u]
  }

  lemma TableRouter(ids: seq<int>, keeps: seq<nat>, topK: nat, experts: nat)
    requires GoodTable(ids, keeps, topK, experts)
    ensures Sound(Table(ids, keeps, topK, experts))
    ensures LinesDiffer(ids, topK) ==> Router(Table(ids, keeps, topK, experts), experts, topK)
  {
    hide Line, LinesDiffer;
    var e := Table(ids, keeps, topK, experts);
    forall x: Row
      ensures ChoiceFits(e, e.route(x)) && 1 <= e.route(x).keff <= topK
      ensures LinesDiffer(ids, topK) ==> Diverse(e.route(x).ids)
    {
      LineChoice(ids, keeps, topK, experts, x);
    }
  }

  lemma LineChoice(ids: seq<int>, keeps: seq<nat>, topK: nat, experts: nat, x: Row)
    requires GoodTable(ids, keeps, topK, experts)
    ensures var c := Line(ids, keeps, topK, x);
            ChoiceFits(Table(ids, keeps, topK, experts), c) && 1 <= c.keff <= topK && (LinesDiffer(ids, topK) ==> Diverse(c.ids))
  {
    hide LinesDiffer, Diverse;
    MulMonotone(topK, 1, |keeps|);
    var i := if |x| > 0 && x[0] >= 0.0 then x[0].Floor else 0;
    var j := if i < |keeps| then i else 0;
    SplitAt(topK, j + 1, |keeps|);
    LineStart(topK, j);
    LineDiffers(ids, topK, j);
  }

  lemma LineStart(topK: nat, i: nat)
    ensures (i + 1) * topK == i * topK + topK && i * topK >= 0 && (i == 0 ==> i * topK == 0)
  {
  }

  lemma LineDiffers(ids: seq<int>, topK: nat, i: nat)
    requires i * topK + topK <= |ids|
    ensures LinesDiffer(ids, topK) ==> Diverse(ids[i * topK..i * topK + topK])
  {
    if LinesDiffer(ids, topK) {
      var lo := i * topK;
      var line := ids[lo..lo + topK];
      forall t, u | 0 <= t < u < topK
        ensures line[t] != line[u]
      {
        RankOf(topK, i, lo + t);
        RankOf(topK, i, lo + u);
        assert ids[lo + t] != ids[lo + u];
      }
    }
  }

  /** Rows lo..hi ask for the table's entries from lo * topK on. */
  lemma TablePairs(ids: seq<int>, keeps: seq<nat>, topK: nat, experts: nat, lo: nat, hi: nat)
    requires GoodTable(ids, keeps, topK, experts) && lo <= hi <= |keeps| && Sound(Table(ids, keeps, topK, experts))
    ensures lo * topK <= hi * topK <= |ids|
    ensures var pairs := PairsFor(Table(ids, keeps, topK, experts), Numbered(|keeps|)[lo..hi]);
            |pairs| == hi * topK - lo * topK &&
            forall t :: 0 <= t < |pairs| ==> EntryAt(pairs[t], ids, keeps, topK, lo * topK + t)
  {
    hide Sound, EntryAt, GoodTable;
    var e, x := Table(ids, keeps, topK, experts), Numbered(|keeps|)[lo..hi];
    TableSize(ids, keeps, topK, experts);
    SplitAt(topK, lo, hi);
    SplitAt(topK, hi, |keeps|);
    forall t: nat | t < |x| * topK
      ensures EntryAt(WantAt(e, x, t), ids, keeps, topK, lo * topK + t)
    {
      TableWant(ids, keeps, topK, experts, lo, hi, t);
    }
  }

  lemma TableSize(ids: seq<int>, keeps: seq<nat>, topK: nat, experts: nat)
    requires GoodTable(ids, keeps, topK, experts)
    ensures |ids| == |keeps| * topK && topK > 0 && |keeps| > 0
  {
  }

  /** p is entry t of the table. */
  ghost predicate EntryAt(p: Pair, ids: seq<int>, keeps: seq<nat>, topK: nat, t: nat) {
    topK > 0 && t < |ids| && t / topK < |keeps| && p.eid == ids[t] && (p.kept <==> t % topK < keeps[t / topK])
  }

  lemma TableWant(ids: seq<int>, keeps: seq<nat>, topK: nat, experts: nat, lo: nat, hi: nat, t: nat)
    requires GoodTable(ids, keeps, topK, experts) && lo <= hi <= |keeps| && Sound(Table(ids, keeps, topK, experts))
    requires t < (hi - lo) * topK == hi * topK - lo * topK && hi * topK <= |ids|
    ensures EntryAt(WantAt(Table(ids, keeps, topK, experts), Numbered(|keeps|)[lo..hi], t), ids, keeps, topK, lo * topK + t)
  {
    hide Sound, Line, EntryAt, GoodTable;
    TableSize(ids, keeps, topK, experts);
    Rank(topK, hi - lo, t);
    var q := t / topK;
    var x := Numbered(|keeps|)[lo..hi];
    assert x[q] == [(lo + q) as real];
    Placed(topK, |keeps|, lo, q, t);
    LineAt(ids, keeps, topK, lo + q, x[q]);
    Entry(WantAt(Table(ids, keeps, topK, experts), x, t), ids, keeps, topK, lo * topK + t);
  }

  lemma Entry(p: Pair, ids: seq<int>, keeps: seq<nat>, topK: nat, t: nat)
    requires topK > 0 && t < |ids| && t / topK < |keeps| && p.eid == ids[t] && (p.kept <==> t % topK < keeps[t / topK])
    ensures EntryAt(p, ids, keeps, topK, t)
  {
  }

  lemma Placed(topK: nat, n: nat, lo: nat, q: nat, t: nat)
    requires topK > 0 && q == t / topK && lo + q < n
    ensures (lo + q) * topK + topK <= n * topK && (lo + q) * topK + t % topK == lo * topK + t
    ensures (lo * topK + t) / topK == lo + q && (lo * topK + t) % topK == t % topK
  {
    assert t == q * topK + t % topK;
    assert (lo + q) * topK == lo * topK + q * topK && (lo + q + 1) * topK == (lo + q) * topK + topK;
    MulMonotone(topK, lo + q + 1, n);
    RankOf(topK, lo + q, lo * topK + t);
  }

  lemma LineAt(ids: seq<int>, keeps: seq<nat>, topK: nat, i: nat, x: Row)
    requires i < |keeps| && i * topK + topK <= |ids| && x == [i as real]
    ensures Line(ids, keeps, topK, x) == Picked(ids[i * topK..i * topK + topK], keeps[i])
  {
  }

  // ---------------------------------------------------------------- sets of experts

  ghost function Members(us: seq<int>): set<int> {
    set e | e in us
  }

  lemma {:induction false} MembersSize(us: seq<int>)
    ensures |Members(us)| <= |us| && (Diverse(us) ==> |Members(us)| == |us|)
  {
    if us != [] {
      MembersSize(us[1..]);
      assert us == [us[0]] + us[1..];
      assert Members(us) == {us[0]} + Members(us[1..]);
    }
  }

  /** All unpinned and all pinned experts, each once. */
  lemma Sides(experts: nat, pins: set<int>) returns (free: seq<int>, held: seq<int>)
    requires pins <= UpTo(experts)
    ensures |free| == experts - |pins| && |held| == |pins| && Diverse(free) && Diverse(held)
    ensures (forall i :: 0 <= i < |free| ==> 0 <= free[i] < experts && free[i] !in pins)
    ensures forall i :: 0 <= i < |held| ==> 0 <= held[i] < experts && held[i] in pins
  {
    hide UpTo;
    assert |UpTo(experts) - pins| == experts - |pins|;
    free := Enumerate(UpTo(experts) - pins, experts - |pins|);
    held := Enumerate(pins, |pins|);
  }

  // ---------------------------------------------------------------- places within a round or a line

  lemma ModDiffers(a: nat, b: nat, m: nat)
    requires b < a < b + m
    ensures a % m != b % m
  {
    var p, q := a / m, b / m;
    assert a == p * m + a % m && b == q * m + b % m;
    assert (p - q) * m == p * m - q * m;
    Scale(m, p - q);
  }

  lemma Small(a: nat, m: nat)
    requires a < m
    ensures a % m == a
  {
  }

  /** A fitting batch fits in its round j. */
  lemma {:induction false} RoundOf(pairs: seq<Pair>, base: nat, j: nat, size: nat, pins: set<int>, room: int)
    requires size > 0 && RoundsFit(pairs, base, size, pins, room) && base + j * size + size <= |pairs|
    ensures |Demand(pairs[base + j * size..base + j * size + size], pins)| <= room
    decreases j
  {
    hide Demand;
    if j > 0 {
      LastTurn(j, size);
      RoundOf(pairs, base + size, j - 1, size, pins, room);
    }
  }

  ghost predicate RoundOk(pairs: seq<Pair>, j: nat, size: nat, pins: set<int>, room: int)
    requires size > 0
  {
    j * size < |pairs| ==> |Demand(pairs[j * size..RoundEnd(|pairs|, j * size, size)], pins)| <= room
  }

  /** A batch fits when each of its rounds does. */
  lemma {:induction false} EveryRound(pairs: seq<Pair>, j: nat, size: nat, pins: set<int>, room: int)
    requires size > 0 && forall i: nat :: RoundOk(pairs, i, size, pins, room)
    ensures RoundsFit(pairs, j * size, size, pins, room)
    decreases |pairs| - j * size
  {
    hide Demand;
    if j * size < |pairs| {
      assert RoundOk(pairs, j, size, pins, room);
      LineStart(size, j);
      EveryRound(pairs, j + 1, size, pins, room);
    }
  }

  lemma WholeRounds(cap: nat, topK: nat, s: nat)
    requires cap > 0
    ensures topK == cap ==> (s * topK) % cap == 0
  {
    if topK == cap {
      RankOf(cap, s, s * cap);
    }
  }

  lemma Division(cap: nat, t: nat) returns (j: nat)
    requires cap > 0 && t % cap != 0
    ensures j * cap < t < (j + 1) * cap == j * cap + cap && t == j * cap + t % cap
  {
    j := t / cap;
    assert t == j * cap + t % cap;
    assert (j + 1) * cap == j * cap + cap;
  }

  /** The pairs of row s start inside round j, and cap rows further there is room for another round. */
  lemma MidRound(cap: nat, topK: nat, s: nat) returns (j: nat)
    requires topK > 0 && cap > 0 && (s * topK) % cap != 0
    ensures topK != cap
    ensures j * cap < s * topK < (j + 1) * cap == j * cap + cap && s * topK == j * cap + (s * topK) % cap
    ensures cap <= cap * topK && (s + cap) * topK == s * topK + cap * topK
  {
    WholeRounds(cap, topK, s);
    j := Division(cap, s * topK);
    MulMonotone(cap, 1, topK);
    assert (s + cap) * topK == s * topK + cap * topK;
  }

  /** The steps before k end before step k starts. */
  lemma {:induction false} StepsBefore(ends: seq<nat>, i: nat, k: nat)
    requires Ordered(ends) && i <= k <= |ends|
    ensures From(ends, i) <= From(ends, k)
    decreases k
  {
    if i < k {
      StepsBefore(ends, i, k - 1);
    }
  }
}
