/** The routed and shared expert sums of moe(), driven through the slot cache in rounds, against
    a sum that has every expert at hand. */
module Moe {
  import opened Wrappers
  import opened ExpertCache

  /** One (token, expert) pair; `kept` is false when TOPP dropped it. */
  datatype Pair = Pair(kept: bool, token: nat, eid: int, w: real)

  /** The expert block, the weighted accumulation, and shared expert j, as arbitrary functions. */
  datatype Ops = Ops(expert: (Row, Row) -> Row, axpy: (Row, real, Row) -> Row, shared: (nat, Row) -> Row)

  ghost predicate TokensIn(pairs: seq<Pair>, count: nat) {
    forall t :: 0 <= t < |pairs| ==> pairs[t].token < count
  }

  // ---------------------------------------------------------------- the cacheless reference

  /** out after the first k pairs, every expert's weights taken straight from load. */
  function Accumulated(ops: Ops, load: int -> Row, pairs: seq<Pair>, k: nat, x: seq<Row>, out: seq<Row>): (r: seq<Row>)
    requires k <= |pairs| && |x| == |out| && TokensIn(pairs, |x|)
    ensures |r| == |out|
  {
    if k == 0 then out
    else
      var o := Accumulated(ops, load, pairs, k - 1, x, out);
      var p := pairs[k - 1];
      if p.kept then o[p.token := ops.axpy(o[p.token], p.w, ops.expert(load(p.eid), x[p.token]))] else o
  }

  /** The weighted sum of one token over its own kept pairs, in order. */
  function TokenSum(ops: Ops, load: int -> Row, pairs: seq<Pair>, k: nat, s: nat, xs: Row, acc: Row): Row
    requires k <= |pairs|
  {
    if k == 0 then acc
    else
      var a := TokenSum(ops, load, pairs, k - 1, s, xs, acc);
      var p := pairs[k - 1];
      if p.kept && p.token == s then ops.axpy(a, p.w, ops.expert(load(p.eid), xs)) else a
  }

  /** The weighted sum of one row over its first k ranks, of which the first keff are kept. */
  function RowSum(ops: Ops, load: int -> Row, ids: seq<int>, keff: nat, w: seq<real>, k: nat, xs: Row, acc: Row): Row
    requires k <= |ids| && k <= |w|
  {
    if k == 0 then acc
    else
      var a := RowSum(ops, load, ids, keff, w, k - 1, xs, acc);
      if k - 1 < keff then ops.axpy(a, w[k - 1], ops.expert(load(ids[k - 1]), xs)) else a
  }

  /** Shared experts 0..j added to one token's row. */
  function SharedSum(ops: Ops, w: seq<real>, xs: Row, acc: Row, j: nat): Row
    requires j <= |w|
  {
    if j == 0 then acc else ops.axpy(SharedSum(ops, w, xs, acc, j - 1), w[j - 1], ops.shared(j - 1, xs))
  }

  /** rows leads from acc to out: row k + 1 adds what expert k gives for xs to row k, with weight k. */
  ghost predicate SharedChain(ops: Ops, w: seq<real>, xs: Row, acc: Row, rows: seq<Row>, out: Row) {
    |rows| == |w| + 1 && rows[0] == acc && rows[|w|] == out &&
    forall k :: 0 <= k < |w| ==> rows[k + 1] == ops.axpy(rows[k], w[k], ops.shared(k, xs))
  }

  lemma {:induction false} SharedSteps(ops: Ops, w: seq<real>, xs: Row, acc: Row, j: nat) returns (rows: seq<Row>)
    requires j <= |w|
    ensures SharedChain(ops, w[..j], xs, acc, rows, SharedSum(ops, w, xs, acc, j))
  {
    if j == 0 {
      rows := [acc];
    } else {
      rows := SharedSteps(ops, w, xs, acc, j - 1);
      rows := rows + [SharedSum(ops, w, xs, acc, j)];
    }
  }

  /** The same for the ranks that are kept: expert ids[k] with weight w[k], others leave the row alone. */
  ghost predicate RankChain(ops: Ops, load: int -> Row, ids: seq<int>, keff: nat, w: seq<real>, xs: Row, acc: Row,
                            rows: seq<Row>, out: Row)
    requires |ids| == |w|
  {
    |rows| == |w| + 1 && rows[0] == acc && rows[|w|] == out &&
    forall k :: 0 <= k < |w| ==>
      rows[k + 1] == if k < keff then ops.axpy(rows[k], w[k], ops.expert(load(ids[k]), xs)) else rows[k]
  }

  lemma {:induction false} RankSteps(ops: Ops, load: int -> Row, ids: seq<int>, keff: nat, w: seq<real>, k: nat, xs: Row, acc: Row)
      returns (rows: seq<Row>)
    requires k <= |ids| && k <= |w|
    ensures RankChain(ops, load, ids[..k], keff, w[..k], xs, acc, rows, RowSum(ops, load, ids, keff, w, k, xs, acc))
  {
    if k == 0 {
      rows := [acc];
    } else {
      rows := RankSteps(ops, load, ids, keff, w, k - 1, xs, acc);
      rows := rows + [RowSum(ops, load, ids, keff, w, k, xs, acc)];
    }
  }

  /** What a sparse layer gives for a row: from zero over the kept ranks in order, then over the shared
      experts, each expert with its own weight. */
  lemma RowMoeSteps(e: Sparse, x: Row) returns (ranks: seq<Row>, mid: Row, shared: seq<Row>)
    ensures var c := e.route(x);
            RankChain(e.ops, e.load, c.ids, c.keff, c.w, x, e.zero, ranks, mid) &&
            SharedChain(e.ops, c.sharedW, x, mid, shared, RowMoe(e, x))
  {
    var c := e.route(x);
    ranks := RankSteps(e.ops, e.load, c.ids, c.keff, c.w, |c.ids|, x, e.zero);
    mid := RowSum(e.ops, e.load, c.ids, c.keff, c.w, |c.ids|, x, e.zero);
    shared := SharedSteps(e.ops, c.sharedW, x, mid, |c.sharedW|);
    assert c.ids[..|c.ids|] == c.ids && c.w[..|c.ids|] == c.w && c.sharedW[..|c.sharedW|] == c.sharedW;
  }

  lemma {:induction false} AccumulatedIsTokenSum(ops: Ops, load: int -> Row, pairs: seq<Pair>, k: nat, x: seq<Row>, out: seq<Row>, s: nat)
    requires k <= |pairs| && |x| == |out| && s < |x| && TokensIn(pairs, |x|)
    ensures Accumulated(ops, load, pairs, k, x, out)[s] == TokenSum(ops, load, pairs, k, s, x[s], out[s])
  {
    if k > 0 {
      AccumulatedIsTokenSum(ops, load, pairs, k - 1, x, out, s);
    }
  }

  lemma {:induction false} AccumulatedSplit(ops: Ops, load: int -> Row, pairs: seq<Pair>, base: nat, k: nat, x: seq<Row>, out: seq<Row>)
    requires base + k <= |pairs| && |x| == |out| && TokensIn(pairs, |x|)
    ensures Accumulated(ops, load, pairs, base + k, x, out)
         == Accumulated(ops, load, pairs[base..], k, x, Accumulated(ops, load, pairs, base, x, out))
  {
    if k > 0 {
      AccumulatedSplit(ops, load, pairs, base, k - 1, x, out);
    }
  }

  lemma {:induction false} AccumulatedPrefix(ops: Ops, load: int -> Row, pairs: seq<Pair>, n: nat, k: nat, x: seq<Row>, out: seq<Row>)
    requires k <= n <= |pairs| && |x| == |out| && TokensIn(pairs, |x|)
    ensures Accumulated(ops, load, pairs[..n], k, x, out) == Accumulated(ops, load, pairs, k, x, out)
  {
    if k > 0 {
      AccumulatedPrefix(ops, load, pairs, n, k - 1, x, out);
    }
  }

  function KeptCount(pairs: seq<Pair>, k: nat): nat
    requires k <= |pairs|
  {
    if k == 0 then 0 else KeptCount(pairs, k - 1) + if pairs[k - 1].kept then 1 else 0
  }

  ghost function KeptPlaces(pairs: seq<Pair>, k: nat): set<int>
    requires k <= |pairs|
  {
    set i | 0 <= i < k && pairs[i].kept
  }

  lemma {:induction false} KeptCounted(pairs: seq<Pair>, k: nat)
    requires k <= |pairs|
    ensures KeptCount(pairs, k) == |KeptPlaces(pairs, k)|
  {
    if k > 0 {
      KeptCounted(pairs, k - 1);
      assert KeptPlaces(pairs, k) == KeptPlaces(pairs, k - 1) + if pairs[k - 1].kept then {k - 1} else {};
    }
  }

  // ---------------------------------------------------------------- a layer's feed-forward block

  /** What the router decides for one row: experts by rank with their weights, how many ranks TOPP
      keeps, and the weights of the shared experts. */
  datatype Ranking = Ranking(ids: seq<int>, keff: nat, w: seq<real>, sharedW: seq<real>)

  type Choice = r: Ranking | |r.ids| == |r.w| witness Ranking([], 0, [], [])

  /** A sparse layer: its experts and its router, which looks at one row at a time. */
  datatype Sparse = Sparse(ops: Ops, load: int -> Row, experts: nat, topK: nat, ns: nat, zero: Row, route: Row -> Choice)

  /** dense_mlp or moe. */
  datatype Feed = Dense(f: Row -> Row) | Mixture(moe: Sparse)

  /** Every row gets topK experts in range and a weight for each shared expert. */
  ghost predicate Sound(e: Sparse) {
    e.topK > 0 && forall x: Row :: ChoiceFits(e, e.route(x))
  }

  ghost predicate ChoiceFits(e: Sparse, c: Choice) {
    |c.ids| == e.topK && |c.sharedW| == e.ns && forall i :: 0 <= i < e.topK ==> 0 <= c.ids[i] < e.experts
  }

  /** The cacheless output of a sparse layer on one row. */
  function RowMoe(e: Sparse, x: Row): Row {
    var c := e.route(x);
    SharedSum(e.ops, c.sharedW, x, RowSum(e.ops, e.load, c.ids, c.keff, c.w, |c.ids|, x, e.zero), |c.sharedW|)
  }

  /** The block as a function of one row. */
  function Block(f: Feed): Row -> Row {
    match f
    case Dense(g) => g
    case Mixture(e) => (x: Row) => RowMoe(e, x)
  }

  // ---------------------------------------------------------------- demand

  /** Experts of the kept pairs among the first k. */
  ghost function Seen(pairs: seq<Pair>, k: nat): (r: set<int>)
    requires k <= |pairs|
    ensures forall t :: 0 <= t < k && pairs[t].kept ==> pairs[t].eid in r
  {
    if k == 0 then {} else Seen(pairs, k - 1) + if pairs[k - 1].kept then {pairs[k - 1].eid} else {}
  }

  /** Distinct unpinned experts a round asks for. */
  ghost function Demand(pairs: seq<Pair>, pins: set<int>): set<int> {
    Seen(pairs, |pairs|) - pins
  }

  /** What the slots can serve without evicting: pins are fixed, the rest is evictable. */
  ghost predicate Fits(pairs: seq<Pair>, slots: seq<Slot>, n: nat)
    requires n <= |slots|
  {
    |Demand(pairs, PinIds(slots, n))| + |Pinned(slots, n)| <= |slots|
  }

  lemma {:induction false} SeenMonotone(pairs: seq<Pair>, j: nat, k: nat)
    requires j <= k <= |pairs|
    ensures Seen(pairs, j) <= Seen(pairs, k)
  {
    if j < k {
      SeenMonotone(pairs, j, k - 1);
    }
  }

  ghost function AnyOf<T>(a: set<T>): (i: T)
    requires a != {}
    ensures i in a
  {
    var i :| i in a; i
  }

  /** A one-to-one map into b cannot come from a larger set. */
  lemma {:induction false} InjectionSize(a: set<int>, f: int -> int, b: set<int>)
    requires forall i :: i in a ==> f(i) in b
    requires forall i, j :: i in a && j in a && i != j ==> f(i) != f(j)
    ensures |a| <= |b|
    decreases a
  {
    if a != {} {
      var i := AnyOf(a);
      InjectionSize(a - {i}, f, b - {f(i)});
    }
  }

  // ---------------------------------------------------------------- one round, on values

  /** The slots handed out so far were touched after c0, and what is not filled is queued. */
  ghost predicate HandedOut(pairs: seq<Pair>, use: seq<int>, fill: seq<nat>, slots: seq<Slot>, n: nat, c0: nat) {
    n <= |slots| && |use| <= |pairs| &&
    (forall t :: 0 <= t < |use| ==> if pairs[t].kept then 0 <= use[t] < n && slots[use[t]].used > c0 else use[t] == -1) &&
    (forall i :: 0 <= i < n && !slots[i].filled ==> i in fill) &&
    (forall j :: 0 <= j < |fill| ==> fill[j] < n)
  }

  /** Every handed-out slot still belongs to the expert it was handed out for. */
  ghost predicate NoEviction(pairs: seq<Pair>, use: seq<int>, slots: seq<Slot>) {
    |use| <= |pairs| &&
    forall t :: 0 <= t < |use| && pairs[t].kept ==> 0 <= use[t] < |slots| && slots[use[t]].eid == pairs[t].eid
  }

  /** Unpinned slots touched in this round belong to experts of this round. */
  ghost predicate TouchedSeen(pairs: seq<Pair>, k: nat, slots: seq<Slot>, n: nat, c0: nat)
    requires k <= |pairs| && n <= |slots|
  {
    forall i :: 0 <= i < n && !slots[i].pinned && slots[i].used > c0 ==> slots[i].eid in Seen(pairs, k)
  }

  lemma UnpinnedNotInPins(slots: seq<Slot>, n: nat, index: seq<int>, i: nat)
    requires Indexed(slots, n, index) && i < n && !slots[i].pinned
    ensures slots[i].eid !in PinIds(slots, n)
  {
  }

  lemma AbsentNotInPins(slots: seq<Slot>, n: nat, index: seq<int>, e: int)
    requires Indexed(slots, n, index) && 0 <= e < |index| && index[e] == -1
    ensures e !in PinIds(slots, n)
  {
  }

  lemma UnpinnedCount(slots: seq<Slot>, n: nat)
    requires n <= |slots|
    ensures |UpTo(n) - Pinned(slots, n)| == n - |Pinned(slots, n)|
  {
    assert Pinned(slots, n) <= UpTo(n);
  }

  /** Unpinned slots touched in this round. */
  ghost function Touched(slots: seq<Slot>, n: nat, c0: nat): set<int>
    requires n <= |slots|
  {
    set i: int | 0 <= i < n && !slots[i].pinned && slots[i].used > c0
  }

  /** While the demand fits and one of its experts is missing, some unpinned slot is untouched. */
  lemma FewTouched(pairs: seq<Pair>, k: nat, slots: seq<Slot>, n: nat, index: seq<int>, c0: nat)
    requires k < |pairs| && pairs[k].kept && n == |slots| && Indexed(slots, n, index)
    requires 0 <= pairs[k].eid < |index| && index[pairs[k].eid] == -1
    requires TouchedSeen(pairs, k, slots, n, c0) && Fits(pairs, slots, n)
    ensures |Touched(slots, n, c0)| < n - |Pinned(slots, n)|
  {
    hide PinIds, Pinned;
    var e := pairs[k].eid;
    var rest := Demand(pairs, PinIds(slots, n)) - {e};
    var ids := i => if 0 <= i < n then slots[i].eid else -1;
    SeenMonotone(pairs, k, |pairs|);
    AbsentNotInPins(slots, n, index, e);
    forall i | i in Touched(slots, n, c0)
      ensures ids(i) in rest
    {
      UnpinnedNotInPins(slots, n, index, i);
    }
    InjectionSize(Touched(slots, n, c0), ids, rest);
    assert e in Demand(pairs, PinIds(slots, n));
  }

  /** The heart of the rounds: when a round's demand fits, the victim for its next missing
      expert is a slot the round has not handed out. */
  lemma VictimUntouched(pairs: seq<Pair>, k: nat, slots: seq<Slot>, n: nat, index: seq<int>, c0: nat)
    requires k < |pairs| && pairs[k].kept && n == |slots| && Indexed(slots, n, index)
    requires 0 <= pairs[k].eid < |index| && index[pairs[k].eid] == -1
    requires TouchedSeen(pairs, k, slots, n, c0) && Fits(pairs, slots, n)
    ensures Victim(slots, n) >= 0 && slots[Victim(slots, n)].used <= c0
  {
    FewTouched(pairs, k, slots, n, index, c0);
    OldVictim(slots, n, c0);
  }

  lemma OldVictim(slots: seq<Slot>, n: nat, c0: nat)
    requires n <= |slots| && |Touched(slots, n, c0)| < n - |Pinned(slots, n)|
    ensures Victim(slots, n) >= 0 && slots[Victim(slots, n)].used <= c0
  {
    UnpinnedCount(slots, n);
    var unpinned := UpTo(n) - Pinned(slots, n);
    if forall i :: i in unpinned ==> slots[i].used > c0 {
      SubsetSize(unpinned, Touched(slots, n, c0));
      assert false;
    }
  }

  /** With every slot pinned no demand fits. */
  lemma AllPinnedMisfit(pairs: seq<Pair>, k: nat, slots: seq<Slot>, n: nat, index: seq<int>)
    requires k < |pairs| && pairs[k].kept && n == |slots| && Indexed(slots, n, index)
    requires 0 <= pairs[k].eid < |index| && index[pairs[k].eid] == -1 && Victim(slots, n) < 0
    ensures !Fits(pairs, slots, n)
  {
    AbsentNotInPins(slots, n, index, pairs[k].eid);
    assert Pinned(slots, n) == UpTo(n);
    assert pairs[k].eid in Demand(pairs, PinIds(slots, n));
  }

  /** A round whose slots all survived had a demand that fits. */
  lemma SurvivedFits(pairs: seq<Pair>, use: seq<int>, slots: seq<Slot>, n: nat, index: seq<int>)
    requires n <= |slots| && Indexed(slots, n, index) && NoEviction(pairs, use, slots) && |use| == |pairs|
    requires forall t :: 0 <= t < |use| && pairs[t].kept ==> 0 <= use[t] < n
    ensures Fits(pairs, slots, n)
  {
    var demand := Demand(pairs, PinIds(slots, n));
    var where := e => if 0 <= e < |index| then index[e] else -1;
    SeenWitness(pairs, use, slots, n, index, |pairs|);
    var unpinned := UpTo(n) - Pinned(slots, n);
    assert forall i :: i in Pinned(slots, n) ==> slots[i].eid in PinIds(slots, n);
    forall e | e in demand
      ensures where(e) in unpinned
    {
    }
    InjectionSize(demand, where, unpinned);
  }

  /** Every expert a round saw has a slot among the first n. */
  lemma {:induction false} SeenWitness(pairs: seq<Pair>, use: seq<int>, slots: seq<Slot>, n: nat, index: seq<int>, k: nat)
    requires n <= |slots| && Indexed(slots, n, index) && NoEviction(pairs, use, slots) && k <= |use| == |pairs|
    requires forall t :: 0 <= t < |use| && pairs[t].kept ==> 0 <= use[t] < n
    ensures forall e :: e in Seen(pairs, k) ==> 0 <= e < |index| && 0 <= index[e] < n && slots[index[e]].eid == e
  {
    if k > 0 {
      SeenWitness(pairs, use, slots, n, index, k - 1);
    }
  }

  /** A round asks for at most as many experts as it has pairs. */
  lemma {:induction false} SeenSize(pairs: seq<Pair>, k: nat)
    requires k <= |pairs|
    ensures |Seen(pairs, k)| <= k
  {
    if k > 0 {
      SeenSize(pairs, k - 1);
    }
  }
}
