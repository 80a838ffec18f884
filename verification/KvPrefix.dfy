/** kv_prefix: the record of token ids the engine's state was built from. */
module KvPrefix {
  class Prefix {
    var fed: array?<int>
    var len: nat
    var cap: nat
    var tainted: bool

    ghost predicate Valid()
      reads this, fed
    {
      len <= cap && (if fed == null then cap == 0 else fed.Length == cap)
    }

    /** The ids at positions 0..len. */
    ghost function Ids(): (r: seq<int>)
      requires Valid()
      reads this, fed
      ensures |r| == len
    {
      if fed == null then [] else fed[..len]
    }

    /** The zero-initialised struct. */
    constructor ()
      ensures Valid() && fed == null && len == 0 && !tainted
    {
      fed, len, cap, tainted := null, 0, 0, false;
    }

    /** kv_prefix_alloc: a fresh, empty record; `haveMemory` is whether calloc succeeded. */
    method Alloc(newCap: nat, haveMemory: bool) returns (ok: bool)
      modifies this
      ensures Valid() && Ids() == [] && !tainted && ok == (newCap > 0 && haveMemory)
      ensures if ok then fed != null && fresh(fed) && cap == newCap else fed == null && cap == 0
    {
      fed := null;
      if newCap > 0 && haveMemory {
        fed := new int[newCap](_ => 0);
      }
      cap := if fed != null then newCap else 0;
      len, tainted := 0, false;
      ok := fed != null;
    }

    method Clear()
      requires Valid()
      modifies this
      ensures Valid() && fed == old(fed) && cap == old(cap) && len == 0 && !tainted
    {
      len, tainted := 0, false;
    }

    method Free()
      modifies this
      ensures Valid() && fed == null && len == 0 && !tainted
    {
      fed, cap, len, tainted := null, 0, 0, false;
    }

    /** kv_prefix_grow; `haveMemory` is whether calloc succeeded. */
    method Grow(newCap: nat, keep: nat, haveMemory: bool) returns (ok: bool)
      requires Valid()
      modifies this
      ensures Valid() && ok == (newCap > 0 && haveMemory)
      ensures ok ==> fed != null && fresh(fed) && cap == newCap && tainted == old(tainted) &&
                     Ids() == old(Ids())[..Kept(keep, old(len), newCap)]
      ensures !ok && newCap > 0 ==> fed == null && len == 0 && !tainted
      ensures newCap == 0 ==> unchanged(this)
    {
      if newCap == 0 {
        return false;
      }
      if !haveMemory {
        Free();
        return false;
      }
      var grown := new int[newCap](_ => 0);
      var k := keep;
      if k > len { k := len; }
      if k > newCap { k := newCap; }
      if k > 0 && fed != null {
        var src := fed;
        for i := 0 to k
          invariant unchanged(this) && src[..] == old(src[..])
          invariant grown[..i] == src[..i]
        {
          grown[i] := src[i];
        }
      }
      fed, cap, len := grown, newCap, k;
      ok := true;
    }

    /** kv_prefix_record. Every engine caller appends (pos0 == len), and then the record grows
        by exactly the ids fed; a write past the end drops it. */
    method Record(ids: seq<int>, pos0: nat)
      requires Valid()
      modifies this, fed
      ensures Valid() && fed == old(fed) && cap == old(cap) && tainted == old(tainted)
      ensures fed == null || ids == [] ==> len == old(len) && Ids() == old(Ids())
      ensures fed != null && ids != [] && pos0 + |ids| > cap ==> len == 0
      ensures fed != null && ids != [] && pos0 + |ids| <= cap && pos0 <= old(len) ==>
                Ids() == Recorded(old(Ids()), ids, pos0)
      ensures fed != null && pos0 + |ids| <= cap && pos0 == old(len) ==> Ids() == old(Ids()) + ids
      ensures fed != null && ids != [] && pos0 + |ids| <= cap && pos0 > old(len) ==>
                len == pos0 + |ids| && Ids()[..old(len)] == old(Ids()) && Ids()[pos0..] == ids
    {
      if fed == null || ids == [] {
        return;
      }
      if pos0 + |ids| > cap {
        len := 0;
        return;
      }
      CopyIn(fed, ids, pos0);
      if pos0 + |ids| > len { len := pos0 + |ids|; }
    }

    method Taint()
      requires Valid()
      modifies this
      ensures Valid() && tainted && fed == old(fed) && cap == old(cap) && len == old(len) && Ids() == old(Ids())
    {
      tainted := true;
    }

    /** kv_prefix_reuse: the whole record or nothing, and never the whole prompt. */
    method Reuse(ids: seq<int>) returns (r: nat)
      requires Valid()
      ensures r == if !tainted && 0 < len < |ids| && Ids() <= ids then len else 0
    {
      if fed == null || tainted || len == 0 || len >= |ids| {
        return 0;
      }
      if fed[..len] != ids[..len] {
        return 0;
      }
      r := len;
    }
  }

  /** memcpy of ids to offset pos0. */
  method CopyIn(dst: array<int>, ids: seq<int>, pos0: nat)
    requires pos0 + |ids| <= dst.Length
    modifies dst
    ensures dst[..] == old(dst[..pos0]) + ids + old(dst[pos0 + |ids|..])
  {
    forall i | 0 <= i < |ids| { dst[pos0 + i] := ids[i]; }
  }

  /** The smallest of the three. */
  function Kept(keep: nat, len: nat, cap: nat): (k: nat)
    ensures k <= keep && k <= len && k <= cap && k in {keep, len, cap}
  {
    var k := if keep > len then len else keep;
    if k > cap then cap else k
  }

  /** The record after ids are written at pos0 <= |was|: the length never shrinks. */
  function Recorded(was: seq<int>, ids: seq<int>, pos0: nat): seq<int>
    requires pos0 <= |was|
  {
    was[..pos0] + ids + if pos0 + |ids| < |was| then was[pos0 + |ids|..] else []
  }

  /** Feeding ids at pos0 makes the state one built from was[..pos0] + ids. The record says the
      same exactly when the write reaches the end of the old record. */
  lemma RecordFaithful(was: seq<int>, ids: seq<int>, pos0: nat)
    requires pos0 <= |was|
    ensures Recorded(was, ids, pos0) == was[..pos0] + ids <==> pos0 + |ids| >= |was|
  {
    if pos0 + |ids| < |was| {
      assert |Recorded(was, ids, pos0)| == |was| > |was[..pos0] + ids|;
    }
  }
}
