/** Batches in which every row keeps all its experts, at most as many as there are slots: their
    demand changes at one place, and fits exactly when no round straddles it. */
module ReuseWalks {
  import opened Wrappers
  import opened ExpertCache
  import opened Moe
  import opened MoeRounds
  import opened ReuseSteps
  import opened ReuseTables

  // ---------------------------------------------------------------- a batch whose demand changes at one place

  /** Position t of a walk through m + 1 symbols that leaves out symbol m before place z and symbol 0
      from there on. */
  function Walk(z: int, m: nat, t: int): (i: nat)
    requires m > 0
    ensures i <= m && (t < z ==> i < m) && (t >= z ==> i > 0)
  {
    if t < z then (z - 1 - t) % m else m - (t - z) % m
  }

  /** Within m positions no symbol comes twice. */
  lemma WalkDiffers(z: int, m: nat, t: int, u: int)
    requires m > 0 && t < u < t + m
    ensures Walk(z, m, t) != Walk(z, m, u)
  {
    if u < z {
      ModDiffers(z - 1 - t, z - 1 - u, m);
    } else if t >= z {
      ModDiffers(u - z, t - z, m);
    } else {
      Small(z - 1 - t, m);
      Small(u - z, m);
    }
  }

  /** A window of m + 1 positions around z meets every symbol. */
  lemma WalkMeets(z: int, m: nat, lo: int, hi: int, i: nat) returns (t: int)
    requires m > 0 && lo < z < hi && hi - lo > m && i <= m
    ensures lo <= t < hi && Walk(z, m, t) == i
  {
    if i < m && i < z - lo {
      t := z - 1 - i;
      Small(i, m);
    } else {
      t := z + (m - i);
      Small(m - i, m);
    }
  }

  /** Symbols stand for experts: us has m + 1 different ones, and both without its first and without
      its last the unpinned ones fit. */
  ghost predicate Alphabet(us: seq<int>, m: nat, pins: set<int>, room: int) {
    m > 0 && |us| == m + 1 && Diverse(us) && |Members(us) - pins| > room &&
    |Members(us[..m]) - pins| <= room && |Members(us[1..]) - pins| <= room
  }

  ghost predicate Walked(pairs: seq<Pair>, us: seq<int>, z: int, m: nat) {
    m > 0 && |us| == m + 1 && forall t :: 0 <= t < |pairs| ==> pairs[t].kept && pairs[t].eid == us[Walk(z, m, t)]
  }

  /** A round on one side of z fits. */
  lemma CalmRound(pairs: seq<Pair>, us: seq<int>, z: int, m: nat, lo: nat, hi: nat, pins: set<int>, room: int)
    requires Walked(pairs, us, z, m) && Alphabet(us, m, pins, room) && lo <= hi <= |pairs| && (hi <= z || z <= lo)
    ensures |Demand(pairs[lo..hi], pins)| <= room
  {
    hide Walk, Seen;
    var round, part := pairs[lo..hi], if hi <= z then us[..m] else us[1..];
    forall t | 0 <= t < |round|
      ensures round[t].eid in Members(part)
    {
      WalkSide(us, z, m, lo + t);
    }
    OnlyKept(round, |round|, Members(part));
    SubsetSize(Demand(round, pins), Members(part) - pins);
  }

  lemma WalkSide(us: seq<int>, z: int, m: nat, t: int)
    requires m > 0 && |us| == m + 1
    ensures us[Walk(z, m, t)] in Members(if t < z then us[..m] else us[1..])
  {
    var i := Walk(z, m, t);
    if t < z {
      assert us[..m][i] == us[i];
    } else {
      assert us[1..][i - 1] == us[i];
    }
  }

  /** A round of more than m pairs around z does not. */
  lemma BusyRound(pairs: seq<Pair>, us: seq<int>, z: int, m: nat, lo: nat, hi: nat, pins: set<int>, room: int)
    requires Walked(pairs, us, z, m) && Alphabet(us, m, pins, room) && lo < z < hi <= |pairs| && hi - lo > m
    ensures |Demand(pairs[lo..hi], pins)| > room
  {
    hide Walk;
    var round := pairs[lo..hi];
    forall e | e in Members(us)
      ensures e in Seen(round, |round|)
    {
      var i: nat :| i < |us| && us[i] == e;
      var t := WalkMeets(z, m, lo, hi, i);
      assert round[t - lo].eid == e;
    }
    SubsetSize(Members(us) - pins, Demand(round, pins));
  }

  /** Rounds that all end or begin at z, or lie on one side of it, fit. */
  lemma {:induction false} CalmBatch(pairs: seq<Pair>, us: seq<int>, z: int, m: nat, base: nat, j: nat, size: nat,
                                     pins: set<int>, room: int)
    requires Walked(pairs, us, z, m) && Alphabet(us, m, pins, room) && size > 0
    requires z <= base || z >= |pairs| || z == base + j * size
    ensures RoundsFit(pairs, base, size, pins, room)
    decreases |pairs| - base
  {
    hide Alphabet, Walked, Demand;
    if base < |pairs| {
      if base < z < |pairs| {
        NotZero(j, size);
        LastTurn(j, size);
      }
      CalmRound(pairs, us, z, m, base, RoundEnd(|pairs|, base, size), pins, room);
      CalmBatch(pairs, us, z, m, base + size, if j > 0 then j - 1 else 0, size, pins, room);
    }
  }

  lemma NotZero(j: nat, size: nat)
    ensures j * size > 0 ==> j > 0
  {
  }

  lemma BusyBatch(pairs: seq<Pair>, us: seq<int>, z: int, m: nat, j: nat, size: nat, pins: set<int>, room: int)
    requires Walked(pairs, us, z, m) && Alphabet(us, m, pins, room) && size > m
    requires j * size < z < j * size + size <= |pairs|
    ensures !RoundsFit(pairs, 0, size, pins, room)
  {
    hide Alphabet, Walked, Demand, RoundsFit;
    BusyRound(pairs, us, z, m, j * size, j * size + size, pins, room);
    if RoundsFit(pairs, 0, size, pins, room) {
      RoundOf(pairs, 0, j, size, pins, room);
    }
  }

  // ---------------------------------------------------------------- the layer

  /** cap different experts, of which one unpinned one too many for the unpinned slots. */
  lemma MakeAlphabet(cap: nat, experts: nat, pins: set<int>) returns (us: seq<int>)
    requires 0 < |pins| < cap < experts && pins <= UpTo(experts)
    ensures Alphabet(us, cap - 1, pins, cap - |pins|) && forall i :: 0 <= i < |us| ==> 0 <= us[i] < experts
  {
    hide UpTo, Alphabet;
    var free, held := Sides(experts, pins);
    us := Interleaved(free[..cap - |pins| + 1], held[..|pins| - 1]);
    InterleavedAlphabet(free[..cap - |pins| + 1], held[..|pins| - 1], pins);
  }

  function Interleaved(free: seq<int>, held: seq<int>): seq<int>
    requires free != []
  {
    [free[0]] + held + free[1..]
  }

  lemma InterleavedAlphabet(free: seq<int>, held: seq<int>, pins: set<int>)
    requires |free| >= 2 && Diverse(free) && Diverse(held)
    requires (forall i :: 0 <= i < |free| ==> free[i] !in pins) && forall i :: 0 <= i < |held| ==> held[i] in pins
    ensures Alphabet(Interleaved(free, held), |held| + |free| - 1, pins, |free| - 1)
  {
    hide Members;
    var us, m := Interleaved(free, held), |held| + |free| - 1;
    var front, back := free[..|free| - 1], free[1..];
    assert us[..m] == Interleaved(front, held);
    assert us[1..] == held + back;
    FreeMembers(free, held, pins);
    FreeMembers(front, held, pins);
    BackMembers(back, held, pins);
    MembersSize(free);
    MembersSize(front);
    MembersSize(back);
    SubsetSize(Members(us[1..]) - pins, Members(back));
  }

  lemma BackMembers(free: seq<int>, held: seq<int>, pins: set<int>)
    requires forall i :: 0 <= i < |held| ==> held[i] in pins
    ensures Members(held + free) - pins <= Members(free)
  {
  }

  lemma FreeMembers(free: seq<int>, held: seq<int>, pins: set<int>)
    requires free != []
    requires (forall i :: 0 <= i < |free| ==> free[i] !in pins) && forall i :: 0 <= i < |held| ==> held[i] in pins
    ensures Members(Interleaved(free, held)) - pins == Members(free)
  {
    assert free == [free[0]] + free[1..];
  }

  function WalkIds(us: seq<int>, z: int, m: nat, count: nat): (ids: seq<int>)
    requires m > 0 && |us| == m + 1
    ensures |ids| == count
  {
    seq(count, t => us[Walk(z, m, t)])
  }

  function AllOf(n: nat, topK: nat): (keeps: seq<nat>)
    ensures |keeps| == n
  {
    seq(n, i => topK)
  }

  lemma WalkTable(us: seq<int>, z: int, m: nat, n: nat, topK: nat, experts: nat)
    requires m > 0 && |us| == m + 1 && Diverse(us) && n > 0 && 0 < topK <= m
    requires forall i :: 0 <= i < |us| ==> 0 <= us[i] < experts
    ensures var ids := WalkIds(us, z, m, n * topK);
            GoodTable(ids, AllOf(n, topK), topK, experts) && Router(Table(ids, AllOf(n, topK), topK, experts), experts, topK)
  {
    hide Walk, Router;
    var ids := WalkIds(us, z, m, n * topK);
    forall t, u | 0 <= t < u < |ids| && t / topK == u / topK
      ensures ids[t] != ids[u]
    {
      SameLine(topK, t, u);
      WalkDiffers(z, m, t, u);
      var i, j := Walk(z, m, t), Walk(z, m, u);
      assert us[i] != us[j];
    }
    TableRouter(ids, AllOf(n, topK), topK, experts);
  }

  lemma SameLine(topK: nat, t: nat, u: nat)
    requires topK > 0 && t / topK == u / topK
    ensures u < t + topK
  {
    RankOf(topK, t / topK, t);
    RankOf(topK, t / topK, u);
  }

  ghost predicate WalkOf(e: Sparse, x: seq<Row>, us: seq<int>, z: int, m: nat) {
    Sound(e) && Walked(PairsFor(e, x), us, z, m)
  }

  /** Rows lo..hi of the walk's table are the walk seen from lo. */
  lemma WalkSlice(us: seq<int>, z: int, m: nat, n: nat, topK: nat, experts: nat, lo: nat, hi: nat)
    requires m > 0 && |us| == m + 1 && lo <= hi <= n
    requires GoodTable(WalkIds(us, z, m, n * topK), AllOf(n, topK), topK, experts)
    requires Sound(Table(WalkIds(us, z, m, n * topK), AllOf(n, topK), topK, experts))
    ensures WalkOf(Table(WalkIds(us, z, m, n * topK), AllOf(n, topK), topK, experts), Numbered(n)[lo..hi], us, z - lo * topK, m)
  {
    hide Sound, PairsFor, GoodTable, EntryAt, Walk, WalkIds;
    var ids, keeps := WalkIds(us, z, m, n * topK), AllOf(n, topK);
    TablePairs(ids, keeps, topK, experts, lo, hi);
    var pairs := PairsFor(Table(ids, keeps, topK, experts), Numbered(n)[lo..hi]);
    forall t: nat | t < |pairs|
      ensures pairs[t].kept && pairs[t].eid == us[Walk(z - lo * topK, m, t)]
    {
      WalkEntry(pairs[t], us, z, m, n, topK, lo * topK, t);
    }
  }

  lemma WalkEntry(p: Pair, us: seq<int>, z: int, m: nat, n: nat, topK: nat, at: nat, t: nat)
    requires m > 0 && |us| == m + 1 && EntryAt(p, WalkIds(us, z, m, n * topK), AllOf(n, topK), topK, at + t)
    ensures p.kept && p.eid == us[Walk(z - at, m, t)]
  {
  }

  /** Any rows of the batch, one after the other, ask for the walk around z. */
  ghost predicate Walks(e: Sparse, x: seq<Row>, us: seq<int>, z: int, m: nat) {
    forall lo, hi :: 0 <= lo <= hi <= |x| ==> WalkOf(e, x[lo..hi], us, z - lo * e.topK, m)
  }

  /** The layer and its rows: a walk around z over an alphabet of cap experts. */
  lemma WalkBatch(b: Bounds, experts: nat, topK: nat, n: nat, z: int) returns (e: Sparse, x: seq<Row>, us: seq<int>)
    requires 0 < topK < b.cap < experts && 0 < |b.pins| < b.cap && b.pins <= UpTo(experts) && n > 0
    ensures Router(e, experts, topK) && x == Numbered(n)
    ensures Alphabet(us, b.cap - 1, b.pins, b.cap - |b.pins|) && Walks(e, x, us, z, b.cap - 1)
  {
    hide Alphabet, Router, UpTo, GoodTable, WalkOf;
    var m := b.cap - 1;
    us := MakeAlphabet(b.cap, experts, b.pins);
    AlphabetSize(us, m, b.pins, b.cap - |b.pins|);
    WalkTable(us, z, m, n, topK, experts);
    e, x := Table(WalkIds(us, z, m, n * topK), AllOf(n, topK), topK, experts), Numbered(n);
    RouterSound(e, experts, topK);
    forall lo, hi | 0 <= lo <= hi <= |x|
      ensures WalkOf(e, x[lo..hi], us, z - lo * topK, m)
    {
      WalkSlice(us, z, m, n, topK, experts, lo, hi);
    }
  }

  lemma AlphabetSize(us: seq<int>, m: nat, pins: set<int>, room: int)
    requires Alphabet(us, m, pins, room)
    ensures m > 0 && |us| == m + 1 && Diverse(us)
  {
  }

  /** Rows lo..hi fit when z is a boundary of their rounds, or outside. */
  lemma CalmRows(e: Sparse, b: Bounds, x: seq<Row>, us: seq<int>, z: int, lo: nat, hi: nat, j: nat)
    requires b.cap > 1 && Walks(e, x, us, z, b.cap - 1) && Alphabet(us, b.cap - 1, b.pins, b.cap - |b.pins|)
    requires lo <= hi <= |x| && (z <= lo * e.topK || z >= hi * e.topK || z == lo * e.topK + j * b.cap)
    ensures FeedFits(Mixture(e), b, x[lo..hi])
  {
    hide Alphabet, Walked, RoundsFit, Sound;
    assert WalkOf(e, x[lo..hi], us, z - lo * e.topK, b.cap - 1);
    SplitAt(e.topK, lo, hi);
    CalmBatch(PairsFor(e, x[lo..hi]), us, z - lo * e.topK, b.cap - 1, 0, j, b.cap, b.pins, b.cap - |b.pins|);
  }

  /** They do not when z lies inside their round j. */
  lemma BusyRows(e: Sparse, b: Bounds, x: seq<Row>, us: seq<int>, z: int, lo: nat, hi: nat, j: nat)
    requires b.cap > 1 && Walks(e, x, us, z, b.cap - 1) && Alphabet(us, b.cap - 1, b.pins, b.cap - |b.pins|)
    requires lo <= hi <= |x| && j * b.cap < z - lo * e.topK < j * b.cap + b.cap <= (hi - lo) * e.topK
    ensures !FeedFits(Mixture(e), b, x[lo..hi])
  {
    hide Alphabet, Walked, RoundsFit, Sound;
    assert WalkOf(e, x[lo..hi], us, z - lo * e.topK, b.cap - 1);
    BusyBatch(PairsFor(e, x[lo..hi]), us, z - lo * e.topK, b.cap - 1, j, b.cap, b.pins, b.cap - |b.pins|);
  }

  /** When z is outside every step, the steps fit. */
  lemma StepsCalm(e: Sparse, b: Bounds, x: seq<Row>, us: seq<int>, z: int, ends: seq<nat>, k: nat)
    requires b.cap > 1 && Walks(e, x, us, z, b.cap - 1) && Alphabet(us, b.cap - 1, b.pins, b.cap - |b.pins|)
    requires Ordered(ends) && Reused(ends) <= |x| && k <= |ends|
    requires z == From(ends, k) * e.topK || z >= Reused(ends) * e.topK
    ensures Fed(e, b, x, ends)
  {
    hide Alphabet, Walks, FeedFits, Ordered;
    forall i | 0 <= i < |ends|
      ensures From(ends, i) <= ends[i] <= |x| && FeedFits(Mixture(e), b, x[From(ends, i)..ends[i]])
    {
      StepOutside(e.topK, z, ends, k, i);
      CalmRows(e, b, x, us, z, From(ends, i), ends[i], 0);
    }
  }

  lemma StepOutside(topK: nat, z: int, ends: seq<nat>, k: nat, i: nat)
    requires Ordered(ends) && k <= |ends| && i < |ends| && (z == From(ends, k) * topK || z >= Reused(ends) * topK)
    ensures From(ends, i) <= ends[i] <= Reused(ends) && (z <= From(ends, i) * topK || z >= ends[i] * topK)
  {
    hide Ordered;
    StepsBefore(ends, i, i + 1);
    StepsBefore(ends, i + 1, |ends|);
    MulMonotone(topK, ends[i], Reused(ends));
    if i < k {
      StepsBefore(ends, i + 1, k);
      MulMonotone(topK, ends[i], From(ends, k));
    } else {
      StepsBefore(ends, k, i);
      MulMonotone(topK, From(ends, k), From(ends, i));
    }
  }

  /** Rows that fit as a whole and not without those fed before. */
  lemma {:induction false} WalkExits(b: Bounds, experts: nat, topK: nat, ends: seq<nat>) returns (e: Sparse, x: seq<Row>)
    requires 0 < topK <= b.cap && b.pins <= UpTo(experts) && |b.pins| <= b.cap && !Easy(b, experts)
    requires Ordered(ends) && !Aligned(b, topK, Reused(ends))
    ensures Router(e, experts, topK) && Fed(e, b, x, ends) && x == Numbered(Reused(ends) + b.cap)
    ensures FeedFits(Mixture(e), b, x) && !FeedFits(Mixture(e), b, x[Reused(ends)..])
  {
    hide Router, UpTo, FeedFits, Alphabet, Walks, Ordered;
    var s := Reused(ends);
    var n := s + b.cap;
    var j := MidRound(b.cap, topK, s);
    SomePins(b.pins);
    var z := (j + 1) * b.cap;
    var us;
    e, x, us := WalkBatch(b, experts, topK, n, z);
    RouterSound(e, experts, topK);
    StepsCalm(e, b, x, us, z, ends, 0);
    assert x[0..n] == x && x[s..n] == x[s..];
    CalmRows(e, b, x, us, z, 0, n, j + 1);
    BusyRows(e, b, x, us, z, s, n, 0);
  }

  lemma NoOffset(topK: nat)
    ensures 0 * topK == 0
  {
  }

  /** Round j, which holds the end of row t <= s, is whole within s + cap rows. */
  lemma RoundWithin(cap: nat, topK: nat, t: nat, s: nat, j: nat)
    requires topK > 0 && t <= s && j * cap < t * topK
    ensures t * topK <= s * topK && j * cap + cap <= (s + cap) * topK
  {
    MulMonotone(topK, t, s);
    MulMonotone(cap, 1, topK);
    assert (s + cap) * topK == s * topK + cap * topK;
  }

  lemma SomePins(pins: set<int>)
    ensures pins != {} ==> |pins| > 0
  {
  }

  /** Rows that do not fit as a whole and do without those fed before. */
  lemma {:induction false} WalkSaves(b: Bounds, experts: nat, topK: nat, ends: seq<nat>, i: nat)
      returns (e: Sparse, x: seq<Row>)
    requires 0 < topK <= b.cap && b.pins <= UpTo(experts) && |b.pins| <= b.cap && !Easy(b, experts)
    requires Ordered(ends) && i < |ends| && !Aligned(b, topK, ends[i])
    ensures Router(e, experts, topK) && Fed(e, b, x, ends) && x == Numbered(Reused(ends) + b.cap)
    ensures !FeedFits(Mixture(e), b, x) && FeedFits(Mixture(e), b, x[Reused(ends)..])
  {
    hide Router, UpTo, FeedFits, Alphabet, Walks, Ordered;
    var s := Reused(ends);
    var n := s + b.cap;
    var j := MidRound(b.cap, topK, ends[i]);
    SomePins(b.pins);
    StepsBefore(ends, i + 1, |ends|);
    RoundWithin(b.cap, topK, ends[i], s, j);
    var z := From(ends, i + 1) * topK;
    var us;
    e, x, us := WalkBatch(b, experts, topK, n, z);
    RouterSound(e, experts, topK);
    StepsCalm(e, b, x, us, z, ends, i + 1);
    assert x[0..n] == x && x[s..n] == x[s..];
    NoOffset(topK);
    BusyRows(e, b, x, us, z, 0, n, j);
    CalmRows(e, b, x, us, z, s, n, 0);
  }
}
