/** c/gguf.h: the open-addressing index from tensor names to tensor numbers.
    The hash is an arbitrary function of the name. */
module GgufIndex {
  import opened Wrappers

  /** How far slot p lies after slot h going round a table of cap slots. */
  function Dist(h: nat, p: nat, cap: nat): (d: nat)
    requires h < cap && p < cap
    ensures d < cap
  {
    if p >= h then p - h else p + cap - h
  }

  function Next(h: nat, cap: nat): (r: nat)
    requires h < cap
    ensures r < cap
  {
    if h + 1 == cap then 0 else h + 1
  }

  /** The slot a name is looked for first; cap is a power of two, so masking is this remainder. */
  function Home(hash: string -> nat, name: string, cap: nat): nat
    requires cap > 0
  {
    hash(name) % cap
  }

  /** Slots hold -1 or one of the first n tensors, no tensor twice. */
  ghost predicate Slots(tab: seq<int>, n: nat) {
    (forall p :: 0 <= p < |tab| ==> -1 <= tab[p] < n) &&
    forall p, q :: 0 <= p < q < |tab| && tab[p] >= 0 ==> tab[p] != tab[q]
  }

  /** Everything a probe meets before reaching tensor tab[p] is a lower-numbered tensor. */
  ghost predicate Reached(names: seq<string>, hash: string -> nat, tab: seq<int>, p: nat)
    requires p < |tab| && tab[p] < |names|
  {
    tab[p] >= 0 ==>
      var home := Home(hash, names[tab[p]], |tab|);
      forall q: nat :: q < |tab| && Dist(home, q, |tab|) < Dist(home, p, |tab|) ==> 0 <= tab[q] < tab[p]
  }

  /** tab indexes exactly the first n names. */
  ghost predicate Indexes(names: seq<string>, hash: string -> nat, tab: seq<int>, n: nat) {
    n <= |names| && n < |tab| && Slots(tab, n) &&
    (forall i: nat :: i < n ==> i in tab) &&
    forall p: nat :: p < |tab| ==> Reached(names, hash, tab, p)
  }

  /** r is the lowest-numbered tensor called name, or nothing when there is none. */
  ghost predicate IsFirst(names: seq<string>, name: string, r: Option<nat>) {
    match r
    case None => name !in names
    case Some(i) => i < |names| && names[i] == name && name !in names[..i]
  }

  // ---------------------------------------------------------------- no full table

  /** Distinct numbers below n: at most n of them. */
  lemma {:induction false} Pigeonhole(s: seq<int>, n: nat)
    requires forall i :: 0 <= i < |s| ==> 0 <= s[i] < n
    requires forall i, j :: 0 <= i < j < |s| ==> s[i] != s[j]
    ensures |s| <= n
  {
    if s != [] {
      assert n > s[0] >= 0;
      if p :| 0 <= p < |s| && s[p] == n - 1 {
        Pigeonhole(s[..p] + s[p + 1..], n - 1);
      } else {
        Pigeonhole(s, n - 1);
      }
    }
  }

  /** A table larger than its load has an empty slot. */
  lemma EmptySlot(tab: seq<int>, n: nat) returns (e: nat)
    requires Slots(tab, n) && n < |tab|
    ensures e < |tab| && tab[e] == -1
  {
    if p: nat :| p < |tab| && tab[p] == -1 {
      e := p;
    } else {
      Pigeonhole(tab, n);
      assert false;
    }
  }

  // ---------------------------------------------------------------- one insertion

  /** Nothing empty lies between home and h. */
  ghost predicate Walked(tab: seq<int>, home: nat, h: nat)
    requires home < |tab| && h < |tab|
  {
    forall q: nat :: q < |tab| && Dist(home, q, |tab|) < Dist(home, h, |tab|) ==> tab[q] >= 0
  }

  /** A probe past an occupied slot moves one further from home: an empty slot e stops it
      before it comes round. */
  lemma StepOn(tab: seq<int>, home: nat, h: nat, e: nat)
    requires home < |tab| && h < |tab| && e < |tab| && tab[e] == -1
    requires Walked(tab, home, h) && tab[h] >= 0
    ensures Dist(home, Next(h, |tab|), |tab|) == Dist(home, h, |tab|) + 1 <= Dist(home, e, |tab|)
    ensures Walked(tab, home, Next(h, |tab|))
  {
  }

  lemma Insert(names: seq<string>, hash: string -> nat, tab: seq<int>, n: nat, h: nat)
    requires Indexes(names, hash, tab, n) && n < |names| && n + 1 < |tab| && h < |tab| && tab[h] == -1
    requires Walked(tab, Home(hash, names[n], |tab|), h)
    ensures Indexes(names, hash, tab[h := n], n + 1)
  {
    var t := tab[h := n];
    forall i: nat | i < n + 1
      ensures i in t
    {
      if i < n {
        assert i in tab;
        var p: nat :| p < |tab| && tab[p] == i;
        assert t[p] == i;
      } else {
        assert t[h] == i;
      }
    }
    forall p: nat | p < |t|
      ensures Reached(names, hash, t, p)
    {
      assert Reached(names, hash, tab, p);
    }
  }

  // ---------------------------------------------------------------- one lookup

  /** Every slot the probe for name met before h holds a tensor of another name. */
  ghost predicate Passed(names: seq<string>, hash: string -> nat, tab: seq<int>, name: string, h: nat)
    requires Indexes(names, hash, tab, |names|) && h < |tab|
  {
    var home := Home(hash, name, |tab|);
    forall q: nat :: q < |tab| && Dist(home, q, |tab|) < Dist(home, h, |tab|) ==> tab[q] >= 0 && names[tab[q]] != name
  }

  lemma Start(names: seq<string>, hash: string -> nat, tab: seq<int>, name: string)
    requires Indexes(names, hash, tab, |names|)
    ensures Passed(names, hash, tab, name, Home(hash, name, |tab|))
  {
  }

  lemma InRange(tab: seq<int>, n: nat, h: nat)
    requires Slots(tab, n) && h < |tab|
    ensures -1 <= tab[h] < n
  {
  }

  lemma PassOne(names: seq<string>, hash: string -> nat, tab: seq<int>, name: string, h: nat, e: nat)
    requires Indexes(names, hash, tab, |names|) && h < |tab| && Passed(names, hash, tab, name, h)
    requires tab[h] >= 0 && names[tab[h]] != name && e < |tab| && tab[e] == -1
    ensures var home := Home(hash, name, |tab|);
            Dist(home, Next(h, |tab|), |tab|) == Dist(home, h, |tab|) + 1 <= Dist(home, e, |tab|)
    ensures Passed(names, hash, tab, name, Next(h, |tab|))
  {
    hide Indexes;
    StepOn(tab, Home(hash, name, |tab|), h, e);
  }

  /** Stopping at an empty slot without a match: the name is not indexed. */
  lemma Missing(names: seq<string>, hash: string -> nat, tab: seq<int>, name: string, h: nat)
    requires Indexes(names, hash, tab, |names|) && h < |tab| && tab[h] == -1
    requires Passed(names, hash, tab, name, h)
    ensures IsFirst(names, name, None)
  {
    forall i: nat | i < |names|
      ensures names[i] != name
    {
      assert i in tab;
      var p: nat :| p < |tab| && tab[p] == i;
      assert Reached(names, hash, tab, p);
    }
  }

  /** The first match on the probe path is the lowest-numbered tensor of that name. */
  lemma Matched(names: seq<string>, hash: string -> nat, tab: seq<int>, name: string, h: nat)
    requires Indexes(names, hash, tab, |names|) && h < |tab| && tab[h] >= 0 && names[tab[h]] == name
    requires Passed(names, hash, tab, name, h)
    ensures IsFirst(names, name, Some(tab[h]))
  {
    forall i: nat | i < tab[h]
      ensures names[i] != name
    {
      assert i in tab;
      var p: nat :| p < |tab| && tab[p] == i;
      assert Reached(names, hash, tab, p) && Reached(names, hash, tab, h);
    }
  }

  // ---------------------------------------------------------------- the index

  /** Two to the e: the table sizes. */
  function TwoTo(e: nat): nat { if e == 0 then 1 else 2 * TwoTo(e - 1) }

  class Model {
    var names: seq<string>
    var hash: array?<int>
    const hashOf: string -> nat

    ghost predicate Ready()
      reads this, hash
    {
      hash != null && Indexes(names, hashOf, hash[..], |names|)
    }

    constructor (names: seq<string>, hashOf: string -> nat)
      ensures this.names == names && this.hashOf == hashOf && hash == null
    {
      this.names := names;
      this.hashOf := hashOf;
      hash := null;
    }

    /** gg_index: a table of at least twice as many slots as tensors, filled in order. */
    method Index()
      modifies this`hash
      ensures Ready() && fresh(hash)
      ensures exists e: nat :: hash.Length == TwoTo(e) && e >= 4
      ensures hash.Length >= 2 * |names|
    {
      var cap := Capacity(|names|);
      var tab := new int[cap](_ => -1);
      hash := tab;
      for i := 0 to |names|
        invariant hash == tab && fresh(tab)
        invariant Indexes(names, hashOf, tab[..], i)
      {
        var h := Probe(tab, names[i], i);
        Insert(names, hashOf, tab[..], i, h);
        ghost var was := tab[..];
        tab[h] := i;
        assert tab[..] == was[h := i];
      }
    }

    /** The doubling loop of gg_index. */
    static method Capacity(n: nat) returns (cap: nat)
      ensures cap >= 2 * n && cap >= 16 && (cap == 16 || cap < 4 * n)
      ensures exists e: nat :: cap == TwoTo(e) && e >= 4
    {
      cap := 16;
      ghost var e: nat := 4;
      assert TwoTo(4) == 16;
      while cap < n * 2
        invariant cap == TwoTo(e) && e >= 4 && cap >= 16 && (cap == 16 || cap < 4 * n)
        decreases n * 2 - cap
      {
        cap, e := cap * 2, e + 1;
      }
    }

    /** The inner loop of gg_index: the first empty slot from the name's home. */
    method Probe(tab: array<int>, name: string, ghost i: nat) returns (h: nat)
      requires Slots(tab[..], i) && i < tab.Length
      ensures h < tab.Length && tab[h] == -1 && Walked(tab[..], Home(hashOf, name, tab.Length), h)
    {
      ghost var e := EmptySlot(tab[..], i);
      h := Home(hashOf, name, tab.Length);
      while tab[h] != -1
        invariant h < tab.Length && Walked(tab[..], Home(hashOf, name, tab.Length), h)
        decreases tab.Length - Dist(Home(hashOf, name, tab.Length), h, tab.Length)
      {
        StepOn(tab[..], Home(hashOf, name, tab.Length), h, e);
        h := Next(h, tab.Length);
      }
    }

    /** gguf_find: nothing before the index is built; then the lowest-numbered tensor of that
        name, or nothing exactly when there is none. */
    method Find(name: string) returns (r: Option<nat>)
      requires hash != null ==> Ready()
      ensures hash == null ==> r.None?
      ensures hash != null ==> IsFirst(names, name, r)
    {
      hide Reached, Slots, Passed, IsFirst, Dist, Next;
      if hash == null {
        return None;
      }
      var tab := hash;
      ghost var e := EmptySlot(tab[..], |names|);
      var h: nat := Home(hashOf, name, tab.Length);
      assert Passed(names, hashOf, tab[..], name, h) by { Start(names, hashOf, tab[..], name); }
      while tab[h] != -1
        invariant h < tab.Length && Passed(names, hashOf, tab[..], name, h)
        decreases tab.Length - Dist(Home(hashOf, name, tab.Length), h, tab.Length)
      {
        InRange(tab[..], |names|, h);
        if names[tab[h]] == name {
          Matched(names, hashOf, tab[..], name, h);
          return Some(tab[h]);
        }
        PassOne(names, hashOf, tab[..], name, h, e);
        h := Next(h, tab.Length);
      }
      Missing(names, hashOf, tab[..], name, h);
      r := None;
    }
  }
}
