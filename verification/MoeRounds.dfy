/** moe() as it runs: rounds of at most cap pairs that acquire, fill, validate and accumulate. */
module MoeRounds {
  import opened Wrappers
  import opened ExpertCache
  import opened Moe

  // ---------------------------------------------------------------- acquisition

  /** What serving one pair may do to the slots: touch a resident slot, or hand out slot i. */
  ghost predicate Served(slots: seq<Slot>, n: nat, slots2: seq<Slot>, n2: nat, i: nat, eid: int, clock: nat, miss: bool) {
    n <= |slots| == |slots2| && n2 <= |slots| && i < n2 && Pinned(slots2, n2) == Pinned(slots, n) &&
    if miss then
      slots2 == slots[i := Taken(slots[i], eid, clock)] &&
      if n < |slots| then i == n && n2 == n + 1 else i == Victim(slots, n) && n2 == n
    else
      n2 == n && slots[i].eid == eid && slots2 == slots[i := slots[i].(used := clock)]
  }

  /** slot_find, else slot_acquire, with the counters; -1 is the "entirely pinned" exit. */
  method AcquirePair(m: Cache, eid: int) returns (i: int, miss: bool)
    requires m.Valid() && 0 <= eid < m.experts
    modifies m, m.slots, m.index
    ensures m.Valid() && m.clock >= old(m.clock)
    ensures i >= 0 ==> i < m.cap && m.clock > old(m.clock)
    ensures m.misses == old(m.misses) + (if miss then 1 else 0) && m.hits == old(m.hits) + if miss then 0 else 1
    ensures i >= 0 ==> Served(old(m.slots[..]), old(m.n), m.slots[..], m.n, i, eid, m.clock, miss)
    ensures miss <==> old(m.index[eid]) == -1
    ensures i < 0 ==> miss && m.n == old(m.n) == m.cap && m.slots[..] == old(m.slots[..]) && Victim(m.slots[..], m.n) < 0
  {
    hide OwnWeights, Clocked, Pinned;
    i := m.Find(eid);
    miss := i < 0;
    if miss {
      m.misses := m.misses + 1;
      i := m.Acquire(eid);
    } else {
      m.hits := m.hits + 1;
    }
  }

  lemma PinIdsKept(slots: seq<Slot>, n: nat, slots2: seq<Slot>, n2: nat, i: nat, eid: int, clock: nat, miss: bool)
    requires Served(slots, n, slots2, n2, i, eid, clock, miss)
    ensures PinIds(slots2, n2) == PinIds(slots, n)
  {
    forall j | j in Pinned(slots, n)
      ensures slots2[j].eid == slots[j].eid
    {
      assert !slots2[j].pinned || j != i || !miss;
    }
  }

  /** One more pair handed out, however it was served. */
  lemma HandOut(pairs: seq<Pair>, use: seq<int>, fill: seq<nat>, slots: seq<Slot>, n: nat, c0: nat,
                slots2: seq<Slot>, n2: nat, i: nat, clock: nat, miss: bool)
    requires |use| < |pairs| && pairs[|use|].kept && HandedOut(pairs, use, fill, slots, n, c0) && clock > c0
    requires TouchedSeen(pairs, |use|, slots, n, c0)
    requires Served(slots, n, slots2, n2, i, pairs[|use|].eid, clock, miss)
    ensures HandedOut(pairs, use + [i], if miss then fill + [i] else fill, slots2, n2, c0)
    ensures TouchedSeen(pairs, |use| + 1, slots2, n2, c0)
  {
    var fill2 := if miss then fill + [i] else fill;
    forall j | 0 <= j < n2 && !slots2[j].filled
      ensures j in fill2
    {
      if j == i && miss { assert fill2[|fill|] == i; }
    }
  }

  /** If the demand fits, handing out a slot evicts none that was handed out before. */
  lemma HandOutKeeps(pairs: seq<Pair>, use: seq<int>, fill: seq<nat>, slots: seq<Slot>, n: nat, index: seq<int>, c0: nat,
                     slots2: seq<Slot>, n2: nat, i: nat, clock: nat, miss: bool)
    requires |use| < |pairs| && pairs[|use|].kept && HandedOut(pairs, use, fill, slots, n, c0)
    requires TouchedSeen(pairs, |use|, slots, n, c0) && NoEviction(pairs, use, slots) && Fits(pairs, slots, n)
    requires Indexed(slots, n, index) && 0 <= pairs[|use|].eid < |index| && (miss ==> index[pairs[|use|].eid] == -1)
    requires Served(slots, n, slots2, n2, i, pairs[|use|].eid, clock, miss)
    ensures NoEviction(pairs, use + [i], slots2)
  {
    hide Fits, Indexed, TouchedSeen, Pinned;
    if miss && n == |slots| {
      VictimUntouched(pairs, |use|, slots, n, index, c0);
    }
    forall t | 0 <= t < |use| && pairs[t].kept
      ensures slots2[use[t]].eid == pairs[t].eid
    {
    }
  }

  lemma DroppedPair(pairs: seq<Pair>, use: seq<int>, fill: seq<nat>, slots: seq<Slot>, n: nat, c0: nat)
    requires |use| < |pairs| && !pairs[|use|].kept && HandedOut(pairs, use, fill, slots, n, c0)
    requires TouchedSeen(pairs, |use|, slots, n, c0)
    ensures HandedOut(pairs, use + [-1], fill, slots, n, c0) && TouchedSeen(pairs, |use| + 1, slots, n, c0)
    ensures NoEviction(pairs, use, slots) ==> NoEviction(pairs, use + [-1], slots)
  {
  }

  ghost predicate InRange(pairs: seq<Pair>, experts: nat) {
    forall t :: 0 <= t < |pairs| ==> 0 <= pairs[t].eid < experts
  }

  /** The acquisition loop of one round. It fails only on a demand that does not fit; on one
      that fits it succeeds, and every slot still belongs to its expert at the end. */
  method AcquireRound(m: Cache, pairs: seq<Pair>) returns (ok: bool, use: seq<int>, fill: seq<nat>)
    requires m.Valid() && AllFilled(m.slots[..], m.n) && InRange(pairs, m.experts)
    modifies m, m.slots, m.index
    ensures m.Valid() && Pinned(m.slots[..], m.n) == old(Pinned(m.slots[..], m.n))
    ensures PinIds(m.slots[..], m.n) == old(PinIds(m.slots[..], m.n))
    ensures ok ==> |use| == |pairs| && HandedOut(pairs, use, fill, m.slots[..], m.n, old(m.clock))
    ensures ok ==> m.hits + m.misses == old(m.hits + m.misses) + KeptCount(pairs, |pairs|) && m.misses == old(m.misses) + |fill|
    ensures old(Fits(pairs, m.slots[..], m.n)) ==> ok && NoEviction(pairs, use, m.slots[..])
  {
    hide OwnWeights, Clocked, Pinned, PinIds, Indexed, HandedOut, TouchedSeen, NoEviction, Served, AllFilled;
    ghost var c0, fits := m.clock, Fits(pairs, m.slots[..], m.n);
    RoundStart(pairs, m.slots[..], m.n, c0);
    ok, use, fill := true, [], [];
    for t := 0 to |pairs|
      invariant m.Valid() && m.clock >= c0 && |use| == t
      invariant Pinned(m.slots[..], m.n) == old(Pinned(m.slots[..], m.n))
      invariant PinIds(m.slots[..], m.n) == old(PinIds(m.slots[..], m.n))
      invariant HandedOut(pairs, use, fill, m.slots[..], m.n, c0) && TouchedSeen(pairs, t, m.slots[..], m.n, c0)
      invariant m.hits + m.misses == old(m.hits + m.misses) + KeptCount(pairs, t) && m.misses == old(m.misses) + |fill|
      invariant fits ==> NoEviction(pairs, use, m.slots[..])
    {
      if !pairs[t].kept {
        DroppedPair(pairs, use, fill, m.slots[..], m.n, c0);
        use := use + [-1];
      } else {
        var good;
        good, use, fill := AcquireNext(m, pairs, use, fill, c0);
        if !good {
          return false, use, fill;
        }
      }
    }
  }

  lemma RoundStart(pairs: seq<Pair>, slots: seq<Slot>, n: nat, clock: nat)
    requires n <= |slots| && AllFilled(slots, n) && Clocked(slots, n, clock)
    ensures HandedOut(pairs, [], [], slots, n, clock) && TouchedSeen(pairs, 0, slots, n, clock)
    ensures NoEviction(pairs, [], slots)
  {
  }

  method AcquireNext(m: Cache, pairs: seq<Pair>, use: seq<int>, fill: seq<nat>, ghost c0: nat)
      returns (ok: bool, use2: seq<int>, fill2: seq<nat>)
    requires m.Valid() && InRange(pairs, m.experts) && |use| < |pairs| && pairs[|use|].kept && m.clock >= c0
    requires HandedOut(pairs, use, fill, m.slots[..], m.n, c0) && TouchedSeen(pairs, |use|, m.slots[..], m.n, c0)
    modifies m, m.slots, m.index
    ensures m.Valid() && m.clock >= old(m.clock)
    ensures Pinned(m.slots[..], m.n) == old(Pinned(m.slots[..], m.n)) && PinIds(m.slots[..], m.n) == old(PinIds(m.slots[..], m.n))
    ensures !ok ==> !old(Fits(pairs, m.slots[..], m.n))
    ensures ok ==> m.hits + m.misses == old(m.hits + m.misses) + 1 && |use2| == |use| + 1
    ensures ok ==> m.misses - |fill2| == old(m.misses) - |fill|
    ensures ok ==> HandedOut(pairs, use2, fill2, m.slots[..], m.n, c0) && TouchedSeen(pairs, |use2|, m.slots[..], m.n, c0)
    ensures ok && old(Fits(pairs, m.slots[..], m.n) && NoEviction(pairs, use, m.slots[..])) ==> NoEviction(pairs, use2, m.slots[..])
  {
    hide OwnWeights, Clocked, Pinned, PinIds, Indexed, HandedOut, TouchedSeen, NoEviction;
    ghost var was, n0, ix := m.slots[..], m.n, m.index[..];
    var i, miss := AcquirePair(m, pairs[|use|].eid);
    if i < 0 {
      AllPinnedMisfit(pairs, |use|, was, n0, ix);
      return false, use, fill;
    }
    PinIdsKept(was, n0, m.slots[..], m.n, i, pairs[|use|].eid, m.clock, miss);
    HandOut(pairs, use, fill, was, n0, c0, m.slots[..], m.n, i, m.clock, miss);
    if Fits(pairs, was, n0) && NoEviction(pairs, use, was) {
      HandOutKeeps(pairs, use, fill, was, n0, ix, c0, m.slots[..], m.n, i, m.clock, miss);
    }
    ok, use2, fill2 := true, use + [i], if miss then fill + [i] else fill;
  }

  // ---------------------------------------------------------------- fill and validate

  /** Filling changes bytes, never identity, clock or pin. */
  ghost predicate SameIdentity(a: seq<Slot>, b: seq<Slot>) {
    |a| == |b| && forall i :: 0 <= i < |a| ==> a[i].eid == b[i].eid && a[i].used == b[i].used && a[i].pinned == b[i].pinned
  }

  lemma SameIdentityKeeps(pairs: seq<Pair>, use: seq<int>, a: seq<Slot>, b: seq<Slot>, n: nat)
    requires n <= |a| && SameIdentity(a, b)
    ensures Pinned(a, n) == Pinned(b, n) && PinIds(a, n) == PinIds(b, n)
    ensures NoEviction(pairs, use, a) <==> NoEviction(pairs, use, b)
  {
  }

  method FillRound(m: Cache, fill: seq<nat>)
    requires m.Valid() && (forall j :: 0 <= j < |fill| ==> fill[j] < m.n)
    requires forall i :: 0 <= i < m.n && !m.slots[i].filled ==> i in fill
    modifies m.slots
    ensures m.Valid() && SameIdentity(old(m.slots[..]), m.slots[..]) && AllFilled(m.slots[..], m.n)
  {
    hide Indexed, OwnWeights, Clocked, Pinned;
    for j := 0 to |fill|
      invariant m.Valid() && SameIdentity(old(m.slots[..]), m.slots[..])
      invariant forall i :: 0 <= i < m.n && !m.slots[i].filled ==> i in fill[j..]
    {
      m.Fill(fill[j]);
    }
  }

  /** The refusal of a slot that now belongs to another expert. */
  method Validate(m: Cache, pairs: seq<Pair>, use: seq<int>) returns (ok: bool)
    requires |use| == |pairs| && forall t :: 0 <= t < |use| ==> if pairs[t].kept then 0 <= use[t] < m.slots.Length else use[t] == -1
    ensures ok <==> NoEviction(pairs, use, m.slots[..])
  {
    for t := 0 to |pairs|
      invariant forall k :: 0 <= k < t && pairs[k].kept ==> m.slots[use[k]].eid == pairs[k].eid
    {
      if use[t] >= 0 && m.slots[use[t]].eid != pairs[t].eid {
        return false;
      }
    }
    ok := true;
  }

  // ---------------------------------------------------------------- compute and accumulate

  method Compute(m: Cache, ops: Ops, pairs: seq<Pair>, use: seq<int>, x: seq<Row>, out: array<Row>)
    requires m.Valid() && AllFilled(m.slots[..], m.n) && |use| == |pairs| && NoEviction(pairs, use, m.slots[..])
    requires forall t :: 0 <= t < |use| ==> if pairs[t].kept then 0 <= use[t] < m.n else use[t] == -1
    requires TokensIn(pairs, |x|) && out.Length == |x| && out as object != m.slots && out as object != m.index
    modifies out
    ensures out[..] == Accumulated(ops, m.load, pairs, |pairs|, x, old(out[..]))
  {
    ghost var out0, slots := out[..], m.slots[..];
    for t := 0 to |pairs|
      invariant out[..] == Accumulated(ops, m.load, pairs, t, x, out0) && m.slots[..] == slots
    {
      if use[t] >= 0 {
        var s, e := pairs[t].token, m.slots[use[t]];
        assert e == slots[use[t]] && e.weights == m.load(pairs[t].eid);
        out[s] := ops.axpy(out[s], pairs[t].w, ops.expert(e.weights, x[s]));
      }
    }
  }

  /** One round. It goes through exactly when its demand fits; otherwise the engine exits. */
  method Round(m: Cache, ops: Ops, pairs: seq<Pair>, x: seq<Row>, out: array<Row>) returns (ok: bool)
    requires m.Valid() && AllFilled(m.slots[..], m.n) && InRange(pairs, m.experts)
    requires TokensIn(pairs, |x|) && out.Length == |x| && out as object != m.slots && out as object != m.index
    modifies m, m.slots, m.index, out
    ensures m.Valid() && Pinned(m.slots[..], m.n) == old(Pinned(m.slots[..], m.n))
    ensures PinIds(m.slots[..], m.n) == old(PinIds(m.slots[..], m.n))
    ensures ok <==> old(Fits(pairs, m.slots[..], m.n))
    ensures ok ==> AllFilled(m.slots[..], m.n) && out[..] == Accumulated(ops, m.load, pairs, |pairs|, x, old(out[..]))
    ensures ok ==> m.hits + m.misses == old(m.hits + m.misses) + KeptCount(pairs, |pairs|)
  {
    hide Clocked, Pinned, PinIds, OwnWeights, NoEviction, Accumulated, Indexed;
    var use, fill;
    ok, use, fill := AcquireRound(m, pairs);
    if !ok {
      return;
    }
    ghost var taken := m.slots[..];
    FillRound(m, fill);
    SameIdentityKeeps(pairs, use, taken, m.slots[..], m.n);
    ok := Validate(m, pairs, use);
    if !ok {
      return;
    }
    SurvivedFits(pairs, use, m.slots[..], m.n, m.index[..]);
    Compute(m, ops, pairs, use, x, out);
  }

  // ---------------------------------------------------------------- all rounds

  function RoundEnd(total: nat, base: nat, size: nat): nat {
    if base + size < total then base + size else total
  }

  /** Every round from base on fits: its distinct unpinned experts are at most room. */
  ghost predicate RoundsFit(pairs: seq<Pair>, base: nat, size: nat, pins: set<int>, room: int)
    requires size > 0
    decreases |pairs| - base
  {
    base >= |pairs| ||
    (|Demand(pairs[base..RoundEnd(|pairs|, base, size)], pins)| <= room && RoundsFit(pairs, base + size, size, pins, room))
  }

  /** The unpinned experts that the pairs of round j keep. */
  ghost function Asked(pairs: seq<Pair>, j: nat, size: nat, pins: set<int>): set<int> {
    set t | 0 <= t < |pairs| && j * size <= t < (j + 1) * size && pairs[t].kept && pairs[t].eid !in pins :: pairs[t].eid
  }

  lemma {:induction false} SeenIs(pairs: seq<Pair>, k: nat)
    requires k <= |pairs|
    ensures Seen(pairs, k) == set t | 0 <= t < k && pairs[t].kept :: pairs[t].eid
  {
    if k > 0 {
      SeenIs(pairs, k - 1);
    }
  }

  lemma DemandIsAsked(pairs: seq<Pair>, j: nat, size: nat, pins: set<int>)
    requires size > 0 && j * size < |pairs|
    ensures Demand(pairs[j * size..RoundEnd(|pairs|, j * size, size)], pins) == Asked(pairs, j, size, pins)
  {
    var base, end := j * size, RoundEnd(|pairs|, j * size, size);
    var round := pairs[base..end];
    SeenIs(round, |round|);
    assert (j + 1) * size == base + size;
    forall e | e in Asked(pairs, j, size, pins)
      ensures e in Demand(round, pins)
    {
      var t :| 0 <= t < |pairs| && base <= t < base + size && pairs[t].kept && pairs[t].eid !in pins && pairs[t].eid == e;
      assert round[t - base] == pairs[t];
    }
  }

  /** All rounds fit exactly when none of the consecutive runs of `size` pairs keeps more different
      unpinned experts than there is room for. */
  lemma {:induction false} RoundsFitMeans(pairs: seq<Pair>, j: nat, size: nat, pins: set<int>, room: int)
    requires size > 0 && room >= 0
    ensures RoundsFit(pairs, j * size, size, pins, room) <==> forall i: nat :: i >= j ==> |Asked(pairs, i, size, pins)| <= room
    decreases |pairs| - j * size
  {
    hide Demand, Asked;
    assert (j + 1) * size == j * size + size;
    if j * size < |pairs| {
      DemandIsAsked(pairs, j, size, pins);
      RoundsFitMeans(pairs, j + 1, size, pins, room);
    } else {
      forall i: nat | i >= j
        ensures Asked(pairs, i, size, pins) == {}
      {
        NothingAsked(pairs, j, i, size, pins);
      }
    }
  }

  lemma NothingAsked(pairs: seq<Pair>, j: nat, i: nat, size: nat, pins: set<int>)
    requires j <= i && j * size >= |pairs|
    ensures Asked(pairs, i, size, pins) == {}
  {
    MulMonotone(size, j, i);
  }

  /** Kept pairs with pairwise different experts: as many experts as pairs. */
  ghost predicate Different(pairs: seq<Pair>) {
    (forall t :: 0 <= t < |pairs| ==> pairs[t].kept) &&
    forall t, u :: 0 <= t < u < |pairs| ==> pairs[t].eid != pairs[u].eid
  }

  lemma {:induction false} SeenDifferent(pairs: seq<Pair>, k: nat)
    requires k <= |pairs| && Different(pairs)
    ensures |Seen(pairs, k)| == k && forall e :: e in Seen(pairs, k) ==> exists t :: 0 <= t < k && pairs[t].eid == e
  {
    if k > 0 {
      SeenDifferent(pairs, k - 1);
      assert pairs[k - 1].eid !in Seen(pairs, k - 1);
    }
  }

  /** Pins take away from what a round may ask for: a round of different unpinned experts, one more
      than the unpinned slots, does not fit although it has at most cap pairs. */
  lemma PinnedMisfit(pairs: seq<Pair>, cap: nat, pins: set<int>)
    requires cap > 0 && pairs != [] && cap - |pins| < |pairs| <= cap
    requires Different(pairs) && forall t :: 0 <= t < |pairs| ==> pairs[t].eid !in pins
    ensures !RoundsFit(pairs, 0, cap, pins, cap - |pins|)
  {
    assert pairs[0..RoundEnd(|pairs|, 0, cap)] == pairs;
    SeenDifferent(pairs, |pairs|);
    forall e | e in Seen(pairs, |pairs|)
      ensures e !in pins
    {
      var t :| 0 <= t < |pairs| && pairs[t].eid == e;
    }
    assert Seen(pairs, |pairs|) - pins == Seen(pairs, |pairs|);
  }

  /** m different members of a. */
  lemma {:induction false} Enumerate(a: set<int>, m: nat) returns (us: seq<int>)
    requires m <= |a|
    ensures |us| == m && Diverse(us) && forall t :: 0 <= t < m ==> us[t] in a
    decreases m
  {
    if m == 0 {
      us := [];
    } else {
      var e := AnyOf(a);
      var rest := Enumerate(a - {e}, m - 1);
      us := [e] + rest;
    }
  }

  ghost predicate Diverse(us: seq<int>) {
    forall t, u :: 0 <= t < u < |us| ==> us[t] != us[u]
  }

  /** The claim that rounds of at most cap pairs always fit, for every batch. */
  ghost predicate AlwaysFit(cap: nat, experts: nat, pins: set<int>)
    requires cap > 0
  {
    forall pairs: seq<Pair> :: InRange(pairs, experts) ==> RoundsFit(pairs, 0, cap, pins, cap - |pins|)
  }

  /** It holds exactly when nothing is pinned or every expert has room. */
  lemma AlwaysFitIff(cap: nat, experts: nat, pins: set<int>)
    requires cap > 0 && |pins| <= cap && pins <= UpTo(experts)
    ensures AlwaysFit(cap, experts, pins) <==> pins == {} || experts <= cap
  {
    if pins == {} || experts <= cap {
      forall pairs: seq<Pair> | InRange(pairs, experts)
        ensures RoundsFit(pairs, 0, cap, pins, cap - |pins|)
      {
        RoomyFits(pairs, 0, cap, experts, pins);
      }
    } else {
      assert |UpTo(experts) - pins| == experts - |pins|;
      var us := Enumerate(UpTo(experts) - pins, cap - |pins| + 1);
      var pairs := seq(|us|, t requires 0 <= t < |us| => Pair(true, 0, us[t], 1.0));
      assert |pins| >= 1 by { SubsetSize({AnyOf(pins)}, pins); }
      PinnedMisfit(pairs, cap, pins);
      assert InRange(pairs, experts);
    }
  }

  /** Without pins a round has no more experts than pairs; with room for all experts it has no
      more unpinned experts than unpinned slots. */
  lemma {:induction false} RoomyFits(pairs: seq<Pair>, base: nat, cap: nat, experts: nat, pins: set<int>)
    requires cap > 0 && InRange(pairs, experts) && pins <= UpTo(experts) && (pins == {} || experts <= cap)
    ensures RoundsFit(pairs, base, cap, pins, cap - |pins|)
    decreases |pairs| - base
  {
    hide Demand, InRange;
    if base < |pairs| {
      RoomyFits(pairs, base + cap, cap, experts, pins);
      RoomyRound(pairs[base..RoundEnd(|pairs|, base, cap)], cap, experts, pins) by {
        RoundInRange(pairs, base, RoundEnd(|pairs|, base, cap), experts);
      }
    }
  }

  lemma RoundInRange(pairs: seq<Pair>, base: nat, end: nat, experts: nat)
    requires InRange(pairs, experts) && base <= end <= |pairs|
    ensures InRange(pairs[base..end], experts)
  {
  }

  lemma RoomyRound(round: seq<Pair>, cap: nat, experts: nat, pins: set<int>)
    requires |round| <= cap && InRange(round, experts) && pins <= UpTo(experts) && (pins == {} || experts <= cap)
    ensures |Demand(round, pins)| <= cap - |pins|
  {
    hide Seen, UpTo, InRange;
    if pins == {} {
      SeenSize(round, |round|);
      SubsetSize(Demand(round, pins), Seen(round, |round|));
    } else {
      SeenInRange(round, |round|, experts);
      SubsetSize(Demand(round, pins), UpTo(experts) - pins);
      assert |UpTo(experts) - pins| == experts - |pins|;
    }
  }

  lemma {:induction false} SeenInRange(pairs: seq<Pair>, k: nat, experts: nat)
    requires k <= |pairs| && InRange(pairs, experts)
    ensures Seen(pairs, k) <= UpTo(experts)
  {
    if k > 0 {
      SeenInRange(pairs, k - 1, experts);
    }
  }

  lemma {:induction false} KeptCountSplit(pairs: seq<Pair>, base: nat, k: nat)
    requires base + k <= |pairs|
    ensures KeptCount(pairs, base + k) == KeptCount(pairs, base) + KeptCount(pairs[base..base + k], k)
  {
    if k > 0 {
      KeptCountSplit(pairs, base, k - 1);
      assert pairs[base..base + k][..k - 1] == pairs[base..base + k - 1];
      KeptCountPrefix(pairs[base..base + k], k - 1, k - 1);
    }
  }

  lemma {:induction false} KeptCountPrefix(pairs: seq<Pair>, n: nat, k: nat)
    requires k <= n <= |pairs|
    ensures KeptCount(pairs[..n], k) == KeptCount(pairs, k)
  {
    if k > 0 {
      KeptCountPrefix(pairs, n, k - 1);
    }
  }

  lemma AccumulatedRound(ops: Ops, load: int -> Row, pairs: seq<Pair>, base: nat, end: nat, x: seq<Row>, out: seq<Row>)
    requires base <= end <= |pairs| && |x| == |out| && TokensIn(pairs, |x|)
    ensures Accumulated(ops, load, pairs, end, x, out)
         == Accumulated(ops, load, pairs[base..end], end - base, x, Accumulated(ops, load, pairs, base, x, out))
  {
    AccumulatedSplit(ops, load, pairs, base, end - base, x, out);
    assert pairs[base..end] == pairs[base..][..end - base];
    AccumulatedPrefix(ops, load, pairs[base..], end - base, end - base, x, Accumulated(ops, load, pairs, base, x, out));
  }

  /** The round over pairs base..end, as a step of the sum over all pairs. */
  method RoundAt(m: Cache, ops: Ops, pairs: seq<Pair>, base: nat, end: nat, x: seq<Row>, out: array<Row>, ghost out0: seq<Row>)
      returns (ok: bool)
    requires m.Valid() && AllFilled(m.slots[..], m.n) && InRange(pairs, m.experts) && base <= end <= |pairs|
    requires TokensIn(pairs, |x|) && out.Length == |x| == |out0| && out as object != m.slots && out as object != m.index
    requires out[..] == Accumulated(ops, m.load, pairs, base, x, out0)
    modifies m, m.slots, m.index, out
    ensures m.Valid() && Pinned(m.slots[..], m.n) == old(Pinned(m.slots[..], m.n))
    ensures PinIds(m.slots[..], m.n) == old(PinIds(m.slots[..], m.n))
    ensures ok <==> |Demand(pairs[base..end], old(PinIds(m.slots[..], m.n)))| <= m.cap - |old(Pinned(m.slots[..], m.n))|
    ensures ok ==> AllFilled(m.slots[..], m.n) && out[..] == Accumulated(ops, m.load, pairs, end, x, out0)
    ensures ok ==> m.hits + m.misses - KeptCount(pairs, end) == old(m.hits + m.misses) - KeptCount(pairs, base)
  {
    hide Indexed, OwnWeights, Clocked, Pinned, PinIds, AllFilled, Accumulated, KeptCount, Demand;
    AccumulatedRound(ops, m.load, pairs, base, end, x, out0);
    KeptCountSplit(pairs, base, end - base);
    ok := Round(m, ops, pairs[base..end], x, out);
  }

  /** What decides which batches fit: the slots of the layer and its pinned experts. */
  datatype Bounds = Bounds(cap: nat, pins: set<int>)

  ghost function BoundsOf(m: Cache): Bounds
    reads m, m.slots
  {
    Bounds(m.cap, if m.n <= m.slots.Length then PinIds(m.slots[..], m.n) else {})
  }

  /** Every round of the batch fits. */
  ghost predicate BatchFits(pairs: seq<Pair>, b: Bounds) {
    RoundsFit(pairs, 0, if b.cap < 1 then 1 else b.cap, b.pins, b.cap - |b.pins|)
  }

  lemma {:induction false} PinIdsSize(slots: seq<Slot>, n: nat, index: seq<int>)
    requires n <= |slots| && Indexed(slots, n, index)
    ensures |PinIds(slots, n)| == |Pinned(slots, n)| && PinIds(slots, n) <= UpTo(|index|)
  {
    hide Indexed, Pinned, PinIds, UpTo;
    PinIdsBound(slots, n, index);
    var eid := i => if 0 <= i < n then slots[i].eid else -1;
    var slot := e => if 0 <= e < |index| then index[e] else -1;
    InjectionSize(Pinned(slots, n), eid, PinIds(slots, n)) by { PinSlots(slots, n, index); }
    InjectionSize(PinIds(slots, n), slot, Pinned(slots, n)) by { PinSlots(slots, n, index); }
  }

  lemma PinIdsBound(slots: seq<Slot>, n: nat, index: seq<int>)
    requires n <= |slots| && Indexed(slots, n, index)
    ensures PinIds(slots, n) <= UpTo(|index|)
  {
  }

  /** Pinned slots and their experts correspond one to one. */
  lemma PinSlots(slots: seq<Slot>, n: nat, index: seq<int>)
    requires n <= |slots| && Indexed(slots, n, index)
    ensures forall i :: i in Pinned(slots, n) ==> 0 <= i < n && slots[i].eid in PinIds(slots, n) && index[slots[i].eid] == i
    ensures forall e :: e in PinIds(slots, n) ==> 0 <= e < |index| && index[e] in Pinned(slots, n) && slots[index[e]].eid == e
  {
  }

  /** The round loop: exit exactly when some round's demand does not fit, else the cacheless sum. */
  method Rounds(m: Cache, ops: Ops, pairs: seq<Pair>, x: seq<Row>, out: array<Row>) returns (ok: bool)
    requires m.Valid() && AllFilled(m.slots[..], m.n) && InRange(pairs, m.experts)
    requires TokensIn(pairs, |x|) && out.Length == |x| && out as object != m.slots && out as object != m.index
    modifies m, m.slots, m.index, out
    ensures m.Valid() && BoundsOf(m) == old(BoundsOf(m))
    ensures ok <==> BatchFits(pairs, old(BoundsOf(m)))
    ensures ok ==> AllFilled(m.slots[..], m.n) && out[..] == Accumulated(ops, m.load, pairs, |pairs|, x, old(out[..]))
    ensures ok ==> m.hits + m.misses == old(m.hits + m.misses) + KeptCount(pairs, |pairs|)
  {
    hide Indexed, OwnWeights, Clocked, Pinned, PinIds, AllFilled, Accumulated, RoundsFit, KeptCount, Demand, InRange, TokensIn;
    ghost var pins, pinned, out0 := PinIds(m.slots[..], m.n), Pinned(m.slots[..], m.n), out[..];
    ghost var room := m.cap - |pins|;
    PinIdsSize(m.slots[..], m.n, m.index[..]);
    NothingYet(ops, m.load, pairs, x, out0);
    var size := if m.cap < 1 then 1 else m.cap;
    var base := 0;
    while base < |pairs|
      invariant base <= |pairs| && m.Valid() && AllFilled(m.slots[..], m.n)
      invariant PinIds(m.slots[..], m.n) == pins && Pinned(m.slots[..], m.n) == pinned
      invariant RoundsFit(pairs, 0, size, pins, room) <==> RoundsFit(pairs, base, size, pins, room)
      invariant out[..] == Accumulated(ops, m.load, pairs, base, x, out0)
      invariant m.hits + m.misses == old(m.hits + m.misses) + KeptCount(pairs, base)
      decreases |pairs| - base
    {
      var end := RoundEnd(|pairs|, base, size);
      RoundsFitStep(pairs, base, size, pins, room);
      ok := RoundAt(m, ops, pairs, base, end, x, out, out0);
      if !ok {
        return;
      }
      base := end;
    }
    RoundsFitEnd(pairs, base, size, pins, room);
    ok := true;
  }

  lemma NothingYet(ops: Ops, load: int -> Row, pairs: seq<Pair>, x: seq<Row>, out: seq<Row>)
    requires |x| == |out| && TokensIn(pairs, |x|)
    ensures Accumulated(ops, load, pairs, 0, x, out) == out && KeptCount(pairs, 0) == 0
  {
  }

  lemma RoundsFitEnd(pairs: seq<Pair>, base: nat, size: nat, pins: set<int>, room: int)
    requires size > 0 && base >= |pairs|
    ensures RoundsFit(pairs, base, size, pins, room)
  {
  }

  lemma RoundsFitStep(pairs: seq<Pair>, base: nat, size: nat, pins: set<int>, room: int)
    requires size > 0 && base < |pairs|
    ensures var end := RoundEnd(|pairs|, base, size);
            RoundsFit(pairs, base, size, pins, room) <==>
            (|Demand(pairs[base..end], pins)| <= room && RoundsFit(pairs, end, size, pins, room))
  {
  }

  // ---------------------------------------------------------------- shared experts

  /** One batch of rows, each shared expert traversed once per batch. */
  method SharedBatch(ops: Ops, ns: nat, w: seq<seq<real>>, x: seq<Row>, out: array<Row>, base: nat, rows: nat)
    requires |w| == |x| == out.Length && base + rows <= out.Length && forall s :: 0 <= s < |w| ==> |w[s]| == ns
    modifies out
    ensures forall s :: 0 <= s < out.Length ==>
              out[s] == if base <= s < base + rows then SharedSum(ops, w[s], x[s], old(out[s]), ns) else old(out[s])
  {
    for j := 0 to ns
      invariant forall s :: 0 <= s < out.Length ==>
                  out[s] == if base <= s < base + rows then SharedSum(ops, w[s], x[s], old(out[s]), j) else old(out[s])
    {
      for r := 0 to rows
        invariant forall s :: 0 <= s < out.Length ==>
                    out[s] == if base <= s < base + r then SharedSum(ops, w[s], x[s], old(out[s]), j + 1)
                              else if base + r <= s < base + rows then SharedSum(ops, w[s], x[s], old(out[s]), j)
                              else old(out[s])
      {
        var s := base + r;
        out[s] := ops.axpy(out[s], w[s][j], ops.shared(j, x[s]));
      }
    }
  }

  /** shared_experts_cpu: the result does not depend on the batch size. */
  method SharedExperts(ops: Ops, ns: nat, w: seq<seq<real>>, x: seq<Row>, out: array<Row>, batch: nat)
    requires |w| == |x| == out.Length && batch > 0 && forall s :: 0 <= s < |w| ==> |w[s]| == ns
    modifies out
    ensures forall s :: 0 <= s < out.Length ==> out[s] == SharedSum(ops, w[s], x[s], old(out[s]), ns)
  {
    var base := 0;
    while base < out.Length
      invariant base <= out.Length
      invariant forall s :: 0 <= s < out.Length ==>
                  out[s] == if s < base then SharedSum(ops, w[s], x[s], old(out[s]), ns) else old(out[s])
      decreases out.Length - base
    {
      var rows := if out.Length - base < batch then out.Length - base else batch;
      SharedBatch(ops, ns, w, x, out, base, rows);
      base := base + rows;
    }
  }

  // ---------------------------------------------------------------- moe

  /** What the router decided: per token topK experts with weights, of which the first keff are kept,
      followed by the weights of the shared experts. */
  datatype Routing = Routing(topK: nat, ids: seq<int>, keff: seq<nat>, w: seq<seq<real>>, sharedW: seq<seq<real>>)

  ghost predicate Routed(r: Routing, count: nat, experts: nat, ns: nat) {
    |r.keff| == |r.w| == |r.sharedW| == count && |r.ids| == count * r.topK && (count > 0 ==> r.topK > 0) &&
    (forall t :: 0 <= t < |r.ids| ==> 0 <= r.ids[t] < experts) &&
    (forall s :: 0 <= s < count ==> |r.w[s]| == r.topK && |r.sharedW[s]| == ns)
  }

  lemma Rank(k: nat, count: nat, t: nat)
    requires k > 0 && t < count * k
    ensures t / k < count && t % k < k
  {
    var q := t / k;
    assert t == q * k + t % k;
    MulMonotone(k, count, q);
  }

  /** Pair t is rank t % topK of token t / topK. */
  function PairAt(r: Routing, count: nat, experts: nat, ns: nat, t: nat): (p: Pair)
    requires Routed(r, count, experts, ns) && t < |r.ids|
    ensures p.token < count && p.eid == r.ids[t]
  {
    Rank(r.topK, count, t);
    var s, rank := t / r.topK, t % r.topK;
    Pair(rank < r.keff[s], s, r.ids[t], r.w[s][rank])
  }

  function PairsOf(r: Routing, count: nat, experts: nat, ns: nat): (pairs: seq<Pair>)
    requires Routed(r, count, experts, ns)
    ensures |pairs| == |r.ids| && TokensIn(pairs, count) && InRange(pairs, experts)
  {
    seq(|r.ids|, t requires 0 <= t < |r.ids| => PairAt(r, count, experts, ns, t))
  }

  /** The experts of token s by rank. */
  function RankedIds(r: Routing, count: nat, experts: nat, ns: nat, s: nat): (ids: seq<int>)
    requires Routed(r, count, experts, ns) && s < count
    ensures |ids| == r.topK && s * r.topK + r.topK <= |r.ids|
  {
    MulMonotone(r.topK, s + 1, count);
    assert r.topK * (s + 1) == s * r.topK + r.topK;
    r.ids[s * r.topK..s * r.topK + r.topK]
  }

  /** How many ranks of token s lie among the first k pairs. */
  function RanksBefore(topK: nat, s: nat, k: nat): (j: nat)
    ensures j <= topK
  {
    if k <= s * topK then 0 else if k - s * topK > topK then topK else k - s * topK
  }

  lemma RankOf(topK: nat, s: nat, t: nat)
    requires topK > 0
    ensures t / topK == s <==> s * topK <= t < s * topK + topK
    ensures t / topK == s ==> t % topK == t - s * topK
  {
    var q := t / topK;
    assert t == q * topK + t % topK;
    MulMonotone(topK, q + 1, s);
    MulMonotone(topK, s + 1, q);
    assert topK * (q + 1) == q * topK + topK && topK * (s + 1) == s * topK + topK;
  }

  /** A token's sum over the pairs of the whole batch is its row's own sum: it does not depend on
      the other rows of the batch or on the token's place in it. */
  lemma {:induction false} TokenIsRow(ops: Ops, load: int -> Row, r: Routing, count: nat, experts: nat, ns: nat, k: nat,
                                      s: nat, xs: Row, acc: Row)
    requires Routed(r, count, experts, ns) && s < count && k <= |r.ids|
    ensures TokenSum(ops, load, PairsOf(r, count, experts, ns), k, s, xs, acc) ==
            RowSum(ops, load, RankedIds(r, count, experts, ns, s), r.keff[s], r.w[s], RanksBefore(r.topK, s, k), xs, acc)
  {
    hide Routed, PairsOf, RankedIds;
    if k > 0 {
      TokenIsRow(ops, load, r, count, experts, ns, k - 1, s, xs, acc);
      NextPair(r, count, experts, ns, k - 1, s);
    }
  }

  /** Pair t belongs to token s exactly when it is one of its ranks. */
  lemma NextPair(r: Routing, count: nat, experts: nat, ns: nat, t: nat, s: nat)
    requires Routed(r, count, experts, ns) && s < count && t < |r.ids|
    ensures var p := PairsOf(r, count, experts, ns)[t];
            var j := RanksBefore(r.topK, s, t);
            if p.token == s then
              j < r.topK && RanksBefore(r.topK, s, t + 1) == j + 1 && p.kept == (j < r.keff[s]) &&
              p.w == r.w[s][j] && p.eid == RankedIds(r, count, experts, ns, s)[j]
            else RanksBefore(r.topK, s, t + 1) == j
  {
    hide RankedIds, RanksBefore;
    RankOf(r.topK, s, t);
    RanksStep(r.topK, s, t);
    var p := PairAt(r, count, experts, ns, t);
    if p.token == s {
      RankedAt(r, count, experts, ns, s, t - s * r.topK);
    }
  }

  lemma RanksStep(topK: nat, s: nat, t: nat)
    ensures if s * topK <= t < s * topK + topK
            then RanksBefore(topK, s, t) == t - s * topK && RanksBefore(topK, s, t + 1) == t - s * topK + 1
            else RanksBefore(topK, s, t + 1) == RanksBefore(topK, s, t)
  {
  }

  lemma RankedAt(r: Routing, count: nat, experts: nat, ns: nat, s: nat, j: nat)
    requires Routed(r, count, experts, ns) && s < count && j < r.topK && s * r.topK + j < |r.ids|
    ensures RankedIds(r, count, experts, ns, s)[j] == r.ids[s * r.topK + j]
  {
    hide Routed;
    var ids := RankedIds(r, count, experts, ns, s);
    assert ids == r.ids[s * r.topK..s * r.topK + r.topK];
  }

  /** The routed part of token s: its own ranks. */
  function RoutedSum(ops: Ops, load: int -> Row, r: Routing, count: nat, experts: nat, ns: nat, s: nat, xs: Row, acc: Row): Row
    requires Routed(r, count, experts, ns) && s < count
  {
    RowSum(ops, load, RankedIds(r, count, experts, ns, s), r.keff[s], r.w[s], r.topK, xs, acc)
  }

  /** After all pairs, every token holds its own routed sum. */
  lemma AllTokens(ops: Ops, load: int -> Row, r: Routing, x: seq<Row>, experts: nat, ns: nat, out: seq<Row>, s: nat)
    requires Routed(r, |x|, experts, ns) && |x| == |out| && s < |x|
    ensures var pairs := PairsOf(r, |x|, experts, ns);
            Accumulated(ops, load, pairs, |pairs|, x, out)[s] == RoutedSum(ops, load, r, |x|, experts, ns, s, x[s], out[s])
  {
    hide RowSum, TokenSum, Accumulated, RanksBefore, RankedIds;
    var pairs := PairsOf(r, |x|, experts, ns);
    AccumulatedIsTokenSum(ops, load, pairs, |pairs|, x, out, s);
    TokenIsRow(ops, load, r, |x|, experts, ns, |pairs|, s, x[s], out[s]);
    AllRanks(r, |x|, experts, ns, s);
  }

  lemma AllRanks(r: Routing, count: nat, experts: nat, ns: nat, s: nat)
    requires Routed(r, count, experts, ns) && s < count
    ensures RanksBefore(r.topK, s, |r.ids|) == r.topK
  {
    MulMonotone(r.topK, s + 1, count);
    assert r.topK * (s + 1) == s * r.topK + r.topK;
  }

  /** moe(): out is, for every token, the sum over its kept experts in rank order and then over
      the shared experts, with every expert's own weights, for any cache state, capacity, round
      and batch size. The only other outcome is the exit, exactly when some round asks for more
      distinct unpinned experts than there are unpinned slots. */
  method MoeLayer(m: Cache, ops: Ops, r: Routing, ns: nat, x: seq<Row>, zero: Row, batch: nat)
      returns (ok: bool, out: array<Row>)
    requires m.Valid() && AllFilled(m.slots[..], m.n) && Routed(r, |x|, m.experts, ns) && batch > 0
    modifies m, m.slots, m.index
    ensures m.Valid() && BoundsOf(m) == old(BoundsOf(m))
    ensures ok <==> BatchFits(PairsOf(r, |x|, m.experts, ns), old(BoundsOf(m)))
    ensures ok ==> AllFilled(m.slots[..], m.n) && fresh(out) && out.Length == |x|
    ensures ok ==> forall s :: 0 <= s < |x| ==>
              out[s] == SharedSum(ops, r.sharedW[s], x[s],
                                  RoutedSum(ops, m.load, r, |x|, m.experts, ns, s, x[s], zero), ns)
    ensures ok ==> m.hits + m.misses == old(m.hits + m.misses) + KeptCount(PairsOf(r, |x|, m.experts, ns), |r.ids|)
  {
    hide Indexed, OwnWeights, Clocked, AllFilled, Accumulated, BatchFits, BoundsOf, RoutedSum;
    var pairs := PairsOf(r, |x|, m.experts, ns);
    out := new Row[|x|](_ => zero);
    ghost var out0 := out[..];
    ok := Rounds(m, ops, pairs, x, out);
    if !ok {
      return;
    }
    forall s | 0 <= s < |x|
      ensures out[s] == RoutedSum(ops, m.load, r, |x|, m.experts, ns, s, x[s], zero)
    {
      AllTokens(ops, m.load, r, x, m.experts, ns, out0, s);
    }
    SharedExperts(ops, ns, r.sharedW, x, out, batch);
  }

  // ---------------------------------------------------------------- a layer's feed-forward block

  /** The cache serves this block: it reads the same experts and is filled. */
  ghost predicate Serves(m: Cache, f: Feed)
    reads m, m.slots, m.index
  {
    m.Valid() && AllFilled(m.slots[..], m.n) &&
    (f.Mixture? ==> Sound(f.moe) && m.load == f.moe.load && m.experts == f.moe.experts)
  }

  /** Rank t % topK of row t / topK, as the router decides it. */
  ghost function WantAt(e: Sparse, x: seq<Row>, t: nat): (p: Pair)
    requires Sound(e) && t < |x| * e.topK
    ensures 0 <= p.eid < e.experts
  {
    Rank(e.topK, |x|, t);
    var c := e.route(x[t / e.topK]);
    assert ChoiceFits(e, c);
    Pair(t % e.topK < c.keff, t / e.topK, c.ids[t % e.topK], c.w[t % e.topK])
  }

  /** All pairs that the rows x ask for. */
  ghost function PairsFor(e: Sparse, x: seq<Row>): (pairs: seq<Pair>)
    requires Sound(e)
    ensures |pairs| == |x| * e.topK && InRange(pairs, e.experts)
  {
    seq(|x| * e.topK, t requires 0 <= t < |x| * e.topK => WantAt(e, x, t))
  }

  /** The block gets through the rows x; only moe() can fail to. */
  ghost predicate FeedFits(f: Feed, b: Bounds, x: seq<Row>) {
    f.Mixture? ==> Sound(f.moe) && BatchFits(PairsFor(f.moe, x), b)
  }

  /** No batch can make this layer exit: nothing is pinned, or every expert has a slot. */
  ghost predicate Roomy(f: Feed, b: Bounds) {
    f.Mixture? ==> Sound(f.moe) && b.cap > 0 && b.pins <= UpTo(f.moe.experts) && (b.pins == {} || f.moe.experts <= b.cap)
  }

  lemma RoomyFeed(f: Feed, b: Bounds, x: seq<Row>)
    requires Roomy(f, b)
    ensures FeedFits(f, b, x)
  {
    hide RoundsFit, Sound, UpTo, InRange, PairsFor;
    if f.Mixture? {
      RoomyFits(PairsFor(f.moe, x), 0, b.cap, f.moe.experts, b.pins);
    }
  }

  /** Pass 1 of moe(): every row's ranks, laid out one row after the other. */
  method RouteRows(e: Sparse, x: seq<Row>) returns (r: Routing)
    requires Sound(e)
    ensures r.topK == e.topK && Routed(r, |x|, e.experts, e.ns)
    ensures forall s :: 0 <= s < |x| ==>
              RankedIds(r, |x|, e.experts, e.ns, s) == e.route(x[s]).ids && r.keff[s] == e.route(x[s]).keff &&
              r.w[s] == e.route(x[s]).w && r.sharedW[s] == e.route(x[s]).sharedW
  {
    r := Routing(e.topK, [], [], [], []);
    for s := 0 to |x|
      invariant r.topK == e.topK && Routed(r, s, e.experts, e.ns)
      invariant forall i :: 0 <= i < s ==>
                  RankedIds(r, s, e.experts, e.ns, i) == e.route(x[i]).ids && r.keff[i] == e.route(x[i]).keff &&
                  r.w[i] == e.route(x[i]).w && r.sharedW[i] == e.route(x[i]).sharedW
    {
      var c := e.route(x[s]);
      assert ChoiceFits(e, c);
      ghost var was := r;
      r := Routing(r.topK, r.ids + c.ids, r.keff + [c.keff], r.w + [c.w], r.sharedW + [c.sharedW]);
      OneMoreRow(was, r, s, e, c);
    }
  }

  lemma OneMoreRow(was: Routing, r: Routing, s: nat, e: Sparse, c: Choice)
    requires was.topK == e.topK > 0 && Routed(was, s, e.experts, e.ns) && ChoiceFits(e, c)
    requires r == Routing(was.topK, was.ids + c.ids, was.keff + [c.keff], was.w + [c.w], was.sharedW + [c.sharedW])
    ensures Routed(r, s + 1, e.experts, e.ns) && RankedIds(r, s + 1, e.experts, e.ns, s) == c.ids
    ensures forall i :: 0 <= i < s ==> RankedIds(r, s + 1, e.experts, e.ns, i) == RankedIds(was, s, e.experts, e.ns, i)
  {
    assert (s + 1) * r.topK == s * r.topK + r.topK;
    forall i | 0 <= i < s
      ensures RankedIds(r, s + 1, e.experts, e.ns, i) == RankedIds(was, s, e.experts, e.ns, i)
    {
      EarlierRanks(was, r, s, e, c, i);
    }
  }

  lemma EarlierRanks(was: Routing, r: Routing, s: nat, e: Sparse, c: Choice, i: nat)
    requires Routed(was, s, e.experts, e.ns) && Routed(r, s + 1, e.experts, e.ns) && i < s
    requires r.topK == was.topK && r.ids == was.ids + c.ids
    ensures RankedIds(r, s + 1, e.experts, e.ns, i) == RankedIds(was, s, e.experts, e.ns, i)
  {
    hide Routed;
    var lo := i * r.topK;
    var ids := RankedIds(was, s, e.experts, e.ns, i);
    assert r.ids[lo..lo + r.topK] == was.ids[lo..lo + r.topK];
  }

  /** dense_mlp or moe() on a chunk: every row gets the block's own value, or the engine exits, and
      that exactly when some round of the chunk does not fit. */
  method FeedRows(f: Feed, m: Cache, x: seq<Row>, batch: nat) returns (ok: bool, out: seq<Row>)
    requires Serves(m, f) && batch > 0
    modifies m, m.slots, m.index
    ensures ok <==> FeedFits(f, old(BoundsOf(m)), x)
    ensures ok ==> Serves(m, f) && BoundsOf(m) == old(BoundsOf(m))
    ensures ok ==> |out| == |x| && forall s :: 0 <= s < |x| ==> out[s] == Block(f)(x[s])
  {
    match f
    case Dense(g) =>
      return true, seq(|x|, s requires 0 <= s < |x| => g(x[s]));
    case Mixture(e) =>
      ok, out := MixtureRows(e, m, x, batch);
  }

  method MixtureRows(e: Sparse, m: Cache, x: seq<Row>, batch: nat) returns (ok: bool, out: seq<Row>)
    requires Serves(m, Mixture(e)) && batch > 0
    modifies m, m.slots, m.index
    ensures ok <==> FeedFits(Mixture(e), old(BoundsOf(m)), x)
    ensures ok ==> Serves(m, Mixture(e)) && BoundsOf(m) == old(BoundsOf(m))
    ensures ok ==> |out| == |x| && forall s :: 0 <= s < |x| ==> out[s] == RowMoe(e, x[s])
  {
    hide Indexed, OwnWeights, Clocked, AllFilled, BatchFits, BoundsOf, RankedIds, RoutedSum, SharedSum, Sound, RowMoe,
      PairsOf, PairsFor;
    var r := RouteRows(e, x);
    PairsMatch(e, r, x);
    var arr;
    ok, arr := MoeLayer(m, e.ops, r, e.ns, x, e.zero, batch);
    if !ok {
      return false, [];
    }
    forall s | 0 <= s < |x|
      ensures arr[s] == RowMoe(e, x[s])
    {
      RowMatches(e, r, x, s);
    }
    out := arr[..];
  }

  /** The flat arrays hold the pairs that the rows ask for. */
  lemma PairsMatch(e: Sparse, r: Routing, x: seq<Row>)
    requires Sound(e) && r.topK == e.topK && Routed(r, |x|, e.experts, e.ns)
    requires forall s :: 0 <= s < |x| ==>
               RankedIds(r, |x|, e.experts, e.ns, s) == e.route(x[s]).ids && r.keff[s] == e.route(x[s]).keff &&
               r.w[s] == e.route(x[s]).w
    ensures PairsOf(r, |x|, e.experts, e.ns) == PairsFor(e, x)
  {
    hide Sound, RankedIds, Routed;
    assert |r.ids| == |x| * e.topK by { IdsLength(r, |x|, e.experts, e.ns); }
    forall t: nat | t < |r.ids|
      ensures PairAt(r, |x|, e.experts, e.ns, t) == WantAt(e, x, t)
    {
      PairMatches(e, r, x, t);
    }
  }

  lemma IdsLength(r: Routing, count: nat, experts: nat, ns: nat)
    requires Routed(r, count, experts, ns)
    ensures |r.ids| == count * r.topK
  {
  }

  lemma PairMatches(e: Sparse, r: Routing, x: seq<Row>, t: nat)
    requires Sound(e) && r.topK == e.topK && Routed(r, |x|, e.experts, e.ns) && t < |r.ids| == |x| * e.topK
    requires forall s :: 0 <= s < |x| ==>
               RankedIds(r, |x|, e.experts, e.ns, s) == e.route(x[s]).ids && r.keff[s] == e.route(x[s]).keff &&
               r.w[s] == e.route(x[s]).w
    ensures PairAt(r, |x|, e.experts, e.ns, t) == WantAt(e, x, t)
  {
    hide RankedIds;
    Rank(e.topK, |x|, t);
    var s := t / e.topK;
    RankOf(e.topK, s, t);
    RankedAt(r, |x|, e.experts, e.ns, s, t - s * e.topK);
  }

  /** The layer's sum for token s is the block's value on its row. */
  lemma RowMatches(e: Sparse, r: Routing, x: seq<Row>, s: nat)
    requires Sound(e) && s < |x| && r.topK == e.topK && Routed(r, |x|, e.experts, e.ns)
    requires RankedIds(r, |x|, e.experts, e.ns, s) == e.route(x[s]).ids && r.keff[s] == e.route(x[s]).keff
    requires r.w[s] == e.route(x[s]).w && r.sharedW[s] == e.route(x[s]).sharedW
    ensures SharedSum(e.ops, r.sharedW[s], x[s], RoutedSum(e.ops, e.load, r, |x|, e.experts, e.ns, s, x[s], e.zero), e.ns)
         == RowMoe(e, x[s])
  {
    hide RankedIds, RowSum, SharedSum;
    assert ChoiceFits(e, e.route(x[s]));
  }
}
