/** Inkling's routed-expert slots for one layer: an LRU cache with pins and an id-to-slot index. */
module ExpertCache {
  import opened Wrappers

  /** `used` is the clock of the last touch; `weights` is meaningful once `filled`. */
  datatype Slot = Slot(eid: int, used: nat, pinned: bool, filled: bool, weights: Row)

  // ---------------------------------------------------------------- the victim

  /** The scan of slot_acquire: first unpinned slot with the smallest clock among the first n. */
  function Victim(slots: seq<Slot>, n: nat): (r: int)
    requires n <= |slots|
    ensures -1 <= r < n
    ensures r >= 0 ==> !slots[r].pinned && forall i :: 0 <= i < n && !slots[i].pinned ==> slots[r].used <= slots[i].used
    ensures r < 0 ==> forall i :: 0 <= i < n ==> slots[i].pinned
  {
    if n == 0 then -1
    else
      var lru := Victim(slots, n - 1);
      if !slots[n - 1].pinned && (lru < 0 || slots[n - 1].used < slots[lru].used) then n - 1 else lru
  }

  // ---------------------------------------------------------------- the invariant

  /** The index and the first n slots are inverse to each other. */
  ghost predicate Indexed(slots: seq<Slot>, n: nat, index: seq<int>) {
    n <= |slots| &&
    (forall i :: 0 <= i < n ==> 0 <= slots[i].eid < |index| && index[slots[i].eid] == i) &&
    (forall e :: 0 <= e < |index| ==> index[e] == -1 || (0 <= index[e] < n && slots[index[e]].eid == e))
  }

  /** A filled slot holds the weights of its own expert. */
  ghost predicate OwnWeights(slots: seq<Slot>, n: nat, load: int -> Row)
    requires n <= |slots|
  {
    forall i :: 0 <= i < n && slots[i].filled ==> slots[i].weights == load(slots[i].eid)
  }

  ghost predicate Clocked(slots: seq<Slot>, n: nat, clock: nat)
    requires n <= |slots|
  {
    forall i :: 0 <= i < n ==> slots[i].used <= clock
  }

  /** Slots that are evictable, and those that are pinned. */
  ghost function Pinned(slots: seq<Slot>, n: nat): set<int>
    requires n <= |slots|
  {
    set i: int | 0 <= i < n && slots[i].pinned
  }

  /** Experts of the pinned slots. */
  ghost function PinIds(slots: seq<Slot>, n: nat): set<int>
    requires n <= |slots|
  {
    set i | i in Pinned(slots, n) :: slots[i].eid
  }

  /** The index after slot i passes from expert was to expert eid. */
  function Moved(index: seq<int>, was: int, i: int, eid: int): (r: seq<int>)
    requires 0 <= eid < |index|
    ensures |r| == |index|
  {
    (if 0 <= was < |index| && index[was] == i then index[was := -1] else index)[eid := i]
  }

  /** A slot handed to expert eid: not filled yet, never pinned. */
  function Taken(s: Slot, eid: int, clock: nat): Slot {
    s.(eid := eid, used := clock, filled := false, pinned := false)
  }

  /** Handing slot i to expert eid keeps the whole invariant exactly when the expert has no other
      slot. Slot i is the next free one or one of the first n. */
  lemma Reassign(slots: seq<Slot>, n: nat, n2: nat, index: seq<int>, i: nat, eid: int, clock: nat, load: int -> Row)
    requires Indexed(slots, n, index) && OwnWeights(slots, n, load) && Clocked(slots, n, clock)
    requires 0 <= eid < |index| && i < n2 <= |slots|
    requires if i < n then n2 == n && !slots[i].pinned else i == n && n2 == n + 1
    ensures var slots2 := slots[i := Taken(slots[i], eid, clock + 1)];
            (Indexed(slots2, n2, Moved(index, slots[i].eid, i, eid)) <==> index[eid] == -1 || index[eid] == i) &&
            OwnWeights(slots2, n2, load) && Clocked(slots2, n2, clock + 1) && Pinned(slots2, n2) == Pinned(slots, n)
  {
    var slots2 := slots[i := Taken(slots[i], eid, clock + 1)];
    var index2 := Moved(index, slots[i].eid, i, eid);
    if index[eid] != -1 && index[eid] != i {
      assert slots2[index[eid]].eid == eid && index2[eid] == i;
      return;
    }
    forall k | 0 <= k < n2
      ensures 0 <= slots2[k].eid < |index2| && index2[slots2[k].eid] == k
    {
    }
    forall e | 0 <= e < |index2|
      ensures index2[e] == -1 || (0 <= index2[e] < n2 && slots2[index2[e]].eid == e)
    {
    }
  }

  ghost predicate AllPinned(slots: seq<Slot>, n: nat)
    requires n <= |slots|
  {
    forall i :: 0 <= i < n ==> slots[i].pinned
  }

  ghost predicate AllFilled(slots: seq<Slot>, n: nat)
    requires n <= |slots|
  {
    forall i :: 0 <= i < n ==> slots[i].filled
  }

  /** Experts with a slot. */
  ghost function Residents(index: seq<int>): set<int> {
    set e: int | 0 <= e < |index| && index[e] >= 0
  }

  /** The most used expert below n outside `taken`, the last one on ties, or -1 when all that is
      left was never used. */
  function LastBest(counts: seq<nat>, taken: set<int>, n: nat): (r: int)
    requires n <= |counts|
    ensures -1 <= r < n && (r >= 0 ==> r !in taken && counts[r] > 0)
    ensures forall e :: 0 <= e < n && e !in taken ==> if r < 0 then counts[e] == 0 else counts[e] <= counts[r]
  {
    if n == 0 then -1
    else
      var b := LastBest(counts, taken, n - 1);
      if n - 1 !in taken && counts[n - 1] > 0 && (b < 0 || counts[n - 1] >= counts[b]) then n - 1 else b
  }

  /** The experts pins_load pins when it pins `depth`. */
  function TopPins(counts: seq<nat>, depth: nat): (r: set<int>)
    ensures r <= UpTo(|counts|) && |r| <= depth
  {
    if depth == 0 then {}
    else
      var t := TopPins(counts, depth - 1);
      var b := LastBest(counts, t, |counts|);
      if b < 0 then t else t + {b}
  }

  lemma NoPinsYet(counts: seq<nat>)
    ensures TopPins(counts, 0) == {}
  {
  }

  lemma TopPinsNext(counts: seq<nat>, k: nat)
    ensures var b := LastBest(counts, TopPins(counts, k), |counts|);
            b >= 0 ==> TopPins(counts, k + 1) == TopPins(counts, k) + {b}
  {
  }

  /** Once nothing used is left, a greater depth pins no more. */
  lemma {:induction false} TopPinsDone(counts: seq<nat>, k: nat, depth: nat)
    requires k <= depth && LastBest(counts, TopPins(counts, k), |counts|) < 0
    ensures TopPins(counts, depth) == TopPins(counts, k)
  {
    if k < depth {
      TopPinsDone(counts, k, depth - 1);
    }
  }

  /** The pinned experts have been used, and none of the others more often. */
  ghost predicate MostUsed(counts: seq<nat>, pins: set<int>) {
    forall e, o :: e in pins && 0 <= o < |counts| && o !in pins ==>
      0 <= e < |counts| && counts[e] > 0 && counts[o] <= counts[e]
  }

  ghost predicate OthersUnused(counts: seq<nat>, pins: set<int>) {
    forall o :: 0 <= o < |counts| && o !in pins ==> counts[o] == 0
  }

  lemma OnePinMore(counts: seq<nat>, pins: set<int>)
    requires MostUsed(counts, pins)
    ensures var b := LastBest(counts, pins, |counts|);
            if b < 0 then OthersUnused(counts, pins) else MostUsed(counts, pins + {b}) && !OthersUnused(counts, pins)
  {
    hide LastBest;
  }

  /** pins_load pins the most used experts, and fewer than it may only when all others are unused. */
  lemma {:induction false} TopPinsMost(counts: seq<nat>, depth: nat)
    ensures MostUsed(counts, TopPins(counts, depth))
    ensures |TopPins(counts, depth)| < depth ==> OthersUnused(counts, TopPins(counts, depth))
  {
    hide MostUsed, OthersUnused, LastBest;
    if depth > 0 {
      TopPinsMost(counts, depth - 1);
      OnePinMore(counts, TopPins(counts, depth - 1));
    } else {
      NoneUsedMost(counts);
    }
  }

  lemma NoneUsedMost(counts: seq<nat>)
    ensures MostUsed(counts, {})
  {
  }

  /** With all slots pinned, the experts with a slot are the pinned ones. */
  lemma ResidentPins(slots: seq<Slot>, n: nat, index: seq<int>)
    requires n <= |slots| && Indexed(slots, n, index) && AllPinned(slots, n)
    ensures PinIds(slots, n) == Residents(index)
  {
    forall e | e in Residents(index)
      ensures e in PinIds(slots, n)
    {
      assert index[e] in Pinned(slots, n);
    }
  }

  lemma StartsEmpty(slots: seq<Slot>, n: nat, index: seq<int>)
    requires n == 0 && Indexed(slots, n, index)
    ensures AllPinned(slots, n) && Residents(index) == {}
  {
  }

  lemma OneMoreResident(slots: seq<Slot>, n: nat, index: seq<int>, e: int)
    requires n <= |slots| && Indexed(slots, n, index) && n < |slots| && 0 <= e < |index|
    ensures Residents(Moved(index, slots[n].eid, n, e)) == Residents(index) + {e}
    ensures e !in Residents(index) ==> index[e] < 0
  {
  }

  /** Pinning or filling a slot keeps the invariant. */
  lemma Marked(slots: seq<Slot>, n: nat, index: seq<int>, i: nat, s: Slot, clock: nat, load: int -> Row)
    requires n <= |slots| && i < n && Indexed(slots, n, index) && OwnWeights(slots, n, load) && Clocked(slots, n, clock)
    requires s.eid == slots[i].eid && s.used == slots[i].used
    requires s.filled ==> s.weights == load(s.eid)
    ensures Indexed(slots[i := s], n, index) && OwnWeights(slots[i := s], n, load) && Clocked(slots[i := s], n, clock)
  {
  }

  /** How many experts pins_load means to pin. */
  function PinDepth(cap: nat, pinN: Option<int>): nat {
    var want := if pinN.Some? then pinN.value else cap / 2;
    if want < 0 || cap < 8 then 0 else if want > cap - 8 then cap - 8 else want
  }

  /** At least 8 slots stay unpinned; within that, PIN_N experts are pinned, or as many as half the slots. */
  lemma PinDepthIs(cap: nat, pinN: Option<int>)
    ensures var depth := PinDepth(cap, pinN);
            (depth == 0 || depth + 8 <= cap) &&
            (pinN.Some? && 0 <= pinN.value && pinN.value + 8 <= cap ==> depth == pinN.value) &&
            (pinN.Some? && pinN.value > cap ==> depth == 0 || depth + 8 == cap) &&
            (pinN.None? && cap >= 15 ==> depth == cap / 2) &&
            (cap > 8 && (pinN.None? || pinN.value > 0) ==> depth > 0)
  {
  }

  class Cache {
    const cap: nat
    const experts: nat
    const load: int -> Row // what slot_fill reads for an expert of this layer
    const slots: array<Slot>
    const index: array<int> // slot_by_expert
    var n: nat
    var clock: nat
    var hits: nat
    var misses: nat

    ghost predicate Valid()
      reads this, slots, index
    {
      slots.Length == cap && index.Length == experts && n <= cap &&
      Indexed(slots[..], n, index[..]) && OwnWeights(slots[..], n, load) && Clocked(slots[..], n, clock)
    }

    /** Expert e has a slot. */
    ghost predicate Resident(e: int)
      reads this, index
    {
      0 <= e < index.Length && index[e] >= 0
    }

    /** model_init: zeroed slots, and an index of -1. */
    constructor (cap: nat, experts: nat, load: int -> Row)
      ensures Valid() && this.cap == cap && this.experts == experts && this.load == load
      ensures n == 0 && hits == 0 && misses == 0 && fresh(slots) && fresh(index)
      ensures forall e :: !Resident(e)
    {
      this.cap, this.experts, this.load := cap, experts, load;
      slots := new Slot[cap](_ => Slot(0, 0, false, false, []));
      index := new int[experts](_ => -1);
      n, clock, hits, misses := 0, 0, 0, 0;
    }

    /** slot_indexed: the slot of an expert, or -1; a stale entry would be a miss. */
    method Lookup(eid: int) returns (i: int)
      requires Valid()
      ensures i == if Resident(eid) then index[eid] else -1
      ensures i >= 0 ==> i < n && slots[i].eid == eid
    {
      if eid < 0 || eid >= experts {
        return -1;
      }
      i := index[eid];
      if i < 0 || i >= n || slots[i].eid != eid {
        return -1;
      }
    }

    /** slot_find: as above, and the hit is the most recently used slot from now on. */
    method Find(eid: int) returns (i: int)
      requires Valid()
      modifies this`clock, slots
      ensures Valid() && i == if Resident(eid) then index[eid] else -1
      ensures i < 0 ==> slots[..] == old(slots[..]) && clock == old(clock)
      ensures i >= 0 ==> i < n && clock == old(clock) + 1 && old(slots[i].eid) == eid &&
                         slots[..] == old(slots[..])[i := old(slots[i]).(used := clock)]
      ensures Pinned(slots[..], n) == old(Pinned(slots[..], n))
    {
      i := Lookup(eid);
      if i >= 0 {
        clock := clock + 1;
        slots[i] := slots[i].(used := clock);
      }
    }

    /** The second half of slot_acquire: slot i passes to expert eid. */
    method Assign(i: nat, eid: int)
      requires Valid() && 0 <= eid < experts
      requires if i < n then !slots[i].pinned else i == n < cap
      modifies this`n, this`clock, slots, index
      ensures n <= cap == slots.Length
      ensures Valid() <==> old(index[eid]) == -1 || old(index[eid]) == i
      ensures n == (if i < old(n) then old(n) else old(n) + 1) && clock == old(clock) + 1
      ensures slots[..] == old(slots[..])[i := Taken(old(slots[i]), eid, clock)]
      ensures index[..] == Moved(old(index[..]), old(slots[i].eid), i, eid)
      ensures Pinned(slots[..], n) == old(Pinned(slots[..], n))
    {
      if i == n { n := n + 1; }
      Reassign(slots[..], old(n), n, index[..], i, eid, clock, load);
      hide Indexed, OwnWeights, Clocked, Pinned, Moved;
      Reindex(slots[i].eid, i, eid);
      clock := clock + 1;
      slots[i] := Taken(slots[i], eid, clock);
      assert slots[..] == old(slots[..])[i := Taken(old(slots[i]), eid, clock)];
    }

    /** The index entries of the expert that leaves slot i and of the one that gets it. */
    method Reindex(was: int, i: nat, eid: int)
      requires 0 <= eid < index.Length
      modifies index
      ensures index[..] == Moved(old(index[..]), was, i, eid)
    {
      if 0 <= was < index.Length && index[was] == i {
        index[was] := -1;
      }
      index[eid] := i;
    }

    /** slot_acquire: a free slot, else the victim; -1 is the exit for an expert out of range or
        with every slot pinned. The cache invariant survives exactly when the expert had no slot,
        or is handed its own again. */
    method Acquire(eid: int) returns (i: int)
      requires Valid()
      modifies this`n, this`clock, slots, index
      ensures n <= cap == slots.Length && (i >= 0 ==> 0 <= eid < experts == index.Length)
      ensures Valid() <==> i < 0 || old(index[eid]) == -1 || old(index[eid]) == i
      ensures Pinned(slots[..], n) == old(Pinned(slots[..], n))
      ensures i == if eid < 0 || eid >= experts then -1 else if old(n) < cap then old(n) else old(Victim(slots[..], n))
      ensures i < 0 ==> n == old(n) && clock == old(clock) && slots[..] == old(slots[..]) && index[..] == old(index[..])
      ensures i >= 0 ==> i < cap && n == (if old(n) < cap then old(n) + 1 else old(n)) && clock == old(clock) + 1
      ensures i >= 0 ==> slots[..] == old(slots[..])[i := Taken(old(slots[i]), eid, clock)]
      ensures i >= 0 ==> index[..] == Moved(old(index[..]), old(slots[i].eid), i, eid)
    {
      hide OwnWeights, Clocked, Pinned;
      if eid < 0 || eid >= experts {
        return -1;
      }
      if n < cap {
        i := n;
      } else {
        i := FindVictim();
        if i < 0 {
          return;
        }
      }
      Assign(i, eid);
    }

    method FindVictim() returns (lru: int)
      requires slots.Length == cap && n <= cap
      ensures lru == Victim(slots[..], n)
    {
      lru := -1;
      for i := 0 to n
        invariant lru == Victim(slots[..], i)
      {
        if !slots[i].pinned && (lru < 0 || slots[i].used < slots[lru].used) {
          lru := i;
        }
      }
    }

    /** slot_fill: the bytes of the slot's own expert; identity and clock stay. */
    method Fill(i: nat)
      requires Valid() && i < n
      modifies slots
      ensures Valid()
      ensures slots[..] == old(slots[..])[i := old(slots[i]).(filled := true, weights := load(old(slots[i].eid)))]
      ensures Pinned(slots[..], n) == old(Pinned(slots[..], n))
    {
      slots[i] := slots[i].(filled := true, weights := load(slots[i].eid));
    }

    /** One round of the pin selection: the not yet resident expert with the largest count, the
        last such on ties, or -1 when no count is left. */
    method BestUnpinned(counts: seq<nat>) returns (best: int)
      requires Valid() && |counts| == experts
      ensures best == LastBest(counts, Residents(index[..]), |counts|)
    {
      best := -1;
      var bv := 0;
      for e := 0 to experts
        invariant -1 <= best < e && (best < 0 ==> bv == 0)
        invariant best >= 0 ==> counts[best] == bv > 0
        invariant best == LastBest(counts, Residents(index[..]), e)
      {
        var taken := Lookup(e);
        if taken < 0 && counts[e] >= bv && counts[e] > 0 {
          bv, best := counts[e], e;
        }
      }
    }

    /** The selection loop of pins_load: the most used experts get pinned slots. */
    method PinTop(counts: seq<nat>, npin: nat)
      requires Valid() && n == 0 && |counts| == experts && npin <= cap
      modifies this`n, this`clock, slots, index
      ensures Valid() && n <= npin && AllPinned(slots[..], n) && Residents(index[..]) == TopPins(counts, npin)
    {
      hide Indexed, OwnWeights, Clocked, AllPinned, Residents, Moved, TopPins, LastBest;
      NoPinsYet(counts);
      StartsEmpty(slots[..], n, index[..]);
      while n < npin
        invariant Valid() && n <= npin && AllPinned(slots[..], n) && Residents(index[..]) == TopPins(counts, n)
        decreases npin - n
      {
        var more := PinNext(counts);
        if !more {
          TopPinsDone(counts, n, npin);
          return;
        }
      }
    }

    /** One turn of it. */
    method PinNext(counts: seq<nat>) returns (more: bool)
      requires Valid() && n < cap && |counts| == experts && AllPinned(slots[..], n) && Residents(index[..]) == TopPins(counts, n)
      modifies this`n, this`clock, slots, index
      ensures Valid() && AllPinned(slots[..], n) && Residents(index[..]) == TopPins(counts, n)
      ensures more <==> LastBest(counts, TopPins(counts, old(n)), |counts|) >= 0
      ensures n == if more then old(n) + 1 else old(n)
    {
      hide Indexed, OwnWeights, Clocked, AllPinned, Residents, Moved, TopPins, LastBest;
      var best := BestUnpinned(counts);
      more := best >= 0;
      if more {
        TopPinsNext(counts, n);
        PinOne(best);
      }
    }

    method PinOne(best: int)
      requires Valid() && n < cap && 0 <= best < experts && best !in Residents(index[..]) && AllPinned(slots[..], n)
      modifies this`n, this`clock, slots, index
      ensures Valid() && n == old(n) + 1 && AllPinned(slots[..], n)
      ensures Residents(index[..]) == old(Residents(index[..])) + {best}
    {
      ghost var was := slots[..];
      OneMoreResident(was, n, index[..], best);
      var i := Acquire(best);
      Marked(slots[..], n, index[..], i, slots[i].(pinned := true), clock, load);
      hide Indexed, OwnWeights, Clocked;
      slots[i] := slots[i].(pinned := true);
      assert slots[..] == was[i := Taken(was[i], best, clock).(pinned := true)];
    }

    /** pins_load on a fresh cache: at most cap - 8 experts, the most used ones, are pinned and
        filled. `pinN` is PIN_N, by default cap / 2. */
    method PinsLoad(counts: seq<nat>, pinN: Option<int>) returns (npin: nat)
      requires Valid() && n == 0 && |counts| == experts
      modifies this`n, this`clock, slots, index
      ensures npin == PinDepth(cap, pinN)
      ensures Valid() && |Pinned(slots[..], n)| == n <= npin && (npin == 0 || npin + 8 <= cap)
      ensures AllPinned(slots[..], n) && AllFilled(slots[..], n) && PinIds(slots[..], n) == TopPins(counts, npin)
    {
      hide Indexed, OwnWeights, Clocked;
      var want := if pinN.Some? then pinN.value else cap / 2;
      if want > cap - 8 { want := cap - 8; }
      if want < 0 { want := 0; }
      npin := want;
      PinTop(counts, npin);
      FillAll();
      PinnedAll(slots[..], n);
      ResidentPins(slots[..], n, index[..]);
    }

    method FillAll()
      requires Valid() && AllPinned(slots[..], n)
      modifies slots
      ensures Valid() && AllPinned(slots[..], n) && AllFilled(slots[..], n)
    {
      hide Indexed, OwnWeights, Clocked, Pinned;
      for j := 0 to n
        invariant Valid() && AllFilled(slots[..], j)
        invariant AllPinned(slots[..], n)
      {
        Fill(j);
      }
    }
  }

  // ---------------------------------------------------------------- room for a victim

  function UpTo(n: nat): (r: set<int>)
    ensures |r| == n && forall i :: i in r <==> 0 <= i < n
  {
    if n == 0 then {} else UpTo(n - 1) + {n - 1}
  }

  lemma {:induction false} SubsetSize(a: set<int>, b: set<int>)
    requires a <= b
    ensures |a| <= |b|
  {
    assert b == a + (b - a);
  }

  lemma PinnedAll(slots: seq<Slot>, n: nat)
    requires n <= |slots| && AllPinned(slots, n)
    ensures |Pinned(slots, n)| == n
  {
    assert Pinned(slots, n) == UpTo(n);
  }

  /** With fewer pins than slots there is always a victim; with as many, never. */
  lemma VictimExists(slots: seq<Slot>, n: nat)
    requires n <= |slots|
    ensures Victim(slots, n) >= 0 <==> |Pinned(slots, n)| < n
  {
    if Victim(slots, n) < 0 {
      assert Pinned(slots, n) == UpTo(n);
    } else {
      SubsetSize(Pinned(slots, n), UpTo(n) - {Victim(slots, n)});
    }
  }

  /** pins_load leaves a cache whose pins never block it: at every later point (the pinned set
      is kept by every operation) a new expert gets a slot. */
  lemma PinsLeaveRoom(slots: seq<Slot>, n: nat, cap: nat, npin: nat)
    requires n <= cap == |slots| && |Pinned(slots, n)| <= npin && (npin == 0 || npin + 8 <= cap) && cap > 0
    ensures n < cap || Victim(slots, n) >= 0
  {
    VictimExists(slots, n);
  }
}
