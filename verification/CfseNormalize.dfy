/** cfse_normalize: nibble counts to 12-bit frequencies that sum to exactly 4096. */
module CfseNormalize {
  import opened Wrappers
  import opened RansCore

  /** Number of symbols among the first n that occur. */
  function Used(cnt: seq<nat>, n: nat): (u: nat)
    requires n <= |cnt|
    ensures u <= n
  {
    if n == 0 then 0 else Used(cnt, n - 1) + if cnt[n - 1] > 0 then 1 else 0
  }

  /** Highest of the first n symbols that occurs, -1 if none does. */
  function LastUsed(cnt: seq<nat>, n: nat): (r: int)
    requires n <= |cnt|
    ensures -1 <= r < n
    ensures r >= 0 ==> cnt[r] > 0
    ensures r < 0 ==> forall i :: 0 <= i < n ==> cnt[i] == 0
  {
    if n == 0 then -1 else if cnt[n - 1] > 0 then n - 1 else LastUsed(cnt, n - 1)
  }

  /** A symbol's share of 4096, rounded down but never 0, leaving room for the others. */
  function Share(c: nat, tot: nat, used: nat): nat
    requires tot > 0 && 1 <= used <= 16
  {
    if c == 0 then 0
    else
      var f := if c * 4096 / tot == 0 then 1 else c * 4096 / tot;
      if f > 4096 - (used - 1) then 4096 - (used - 1) else f
  }

  function Shares(cnt: seq<nat>, tot: nat, used: nat): (r: seq<nat>)
    requires tot > 0 && 1 <= used <= 16
    ensures |r| == |cnt| && forall i :: 0 <= i < |cnt| ==> r[i] == Share(cnt[i], tot, used)
  {
    seq(|cnt|, i requires 0 <= i < |cnt| => Share(cnt[i], tot, used))
  }

  /** The scan for the most frequent symbol, started from big. */
  function Biggest(freq: seq<nat>, big: nat, n: nat): (r: nat)
    requires n <= |freq| && big < |freq|
    ensures r < |freq| && freq[r] >= freq[big] && forall i :: 0 <= i < n ==> freq[i] <= freq[r]
  {
    if n == 0 then big else
    var b := Biggest(freq, big, n - 1);
    if freq[n - 1] > freq[b] then n - 1 else b
  }

  /** Moves the largest frequency so that the sum becomes 4096; None is the -1 return. */
  function Corrected(f: seq<nat>, last: nat): Option<seq<nat>>
    requires last < |f|
  {
    var big := Biggest(f, last, |f|);
    var fixed := f[big] as int + 4096 - Cum(f, |f|);
    if fixed < 1 then None else Some(f[big := fixed])
  }

  /** The whole function. */
  function Normalized(cnt: seq<nat>): Option<seq<nat>>
    requires |cnt| == 16
  {
    var tot, used := Cum(cnt, |cnt|), Used(cnt, |cnt|);
    var last := LastUsed(cnt, |cnt|);
    if tot == 0 || used == 0 || last < 0 then None else Corrected(Shares(cnt, tot, used), last)
  }

  /** 2^64, where uint64_t wraps. */
  const WRAP: nat := 0x1_0000_0000_0000_0000

  /** A share as the code computes it: the product wraps. */
  function Share64(c: nat, tot: nat, used: nat): nat
    requires tot > 0 && 1 <= used <= 16
  {
    if c == 0 then 0
    else
      var q := c * 4096 % WRAP / tot;
      var f := if q == 0 then 1 else q;
      if f > 4096 - (used - 1) then 4096 - (used - 1) else f
  }

  function Shares64(cnt: seq<nat>, tot: nat, used: nat): (r: seq<nat>)
    requires tot > 0 && 1 <= used <= 16
    ensures |r| == |cnt| && forall i :: 0 <= i < |cnt| ==> r[i] == Share64(cnt[i], tot, used)
  {
    seq(|cnt|, i requires 0 <= i < |cnt| => Share64(cnt[i], tot, used))
  }

  /** The whole function on 64-bit counts: the total wraps too. */
  function Normalized64(cnt: seq<nat>): Option<seq<nat>>
    requires |cnt| == 16
  {
    var tot, used := Cum(cnt, |cnt|) % WRAP, Used(cnt, |cnt|);
    var last := LastUsed(cnt, |cnt|);
    if tot == 0 || used == 0 || last < 0 then None else Corrected(Shares64(cnt, tot, used), last)
  }

  // ---------------------------------------------------------------- 64-bit counts

  /** Whatever the counts, wrapped or not: a table that is returned sums to 4096 and has a frequency
      for exactly the symbols that occur. */
  lemma {:induction false} TableOrNothing(cnt: seq<nat>)
    requires |cnt| == 16 && Normalized64(cnt).Some?
    ensures var freq := Normalized64(cnt).value;
            Table(freq) && forall i :: 0 <= i < 16 ==> (freq[i] > 0 <==> cnt[i] > 0)
  {
    hide Share64;
    var tot, used := Cum(cnt, |cnt|) % WRAP, Used(cnt, |cnt|);
    var last := LastUsed(cnt, |cnt|);
    var f := Shares64(cnt, tot, used);
    forall i | 0 <= i < 16
      ensures f[i] > 0 <==> cnt[i] > 0
    {
      ShareSupport(cnt[i], tot, used);
    }
    var big := Biggest(f, last, |f|);
    CumReplace(f, big, f[big] + 4096 - Cum(f, |f|), |f|);
  }

  /** The others of the shares leave the largest one something. */
  ghost predicate LeavesRoom(f: seq<nat>) {
    exists i :: 0 <= i < |f| && (forall j :: 0 <= j < |f| ==> f[j] <= f[i]) && Cum(f, |f|) - f[i] < 4096
  }

  /** Exactly when there is a table: the wrapped total is not zero, and the shares other than a largest
      one add up to less than 4096. */
  lemma {:induction false} TableIff(cnt: seq<nat>)
    requires |cnt| == 16
    ensures var tot, used := Cum(cnt, |cnt|) % WRAP, Used(cnt, |cnt|);
            Normalized64(cnt).Some? <==> tot > 0 && used > 0 && LeavesRoom(Shares64(cnt, tot, used))
  {
    hide Share64, Shares64, Used;
    SomeUsed(cnt, |cnt|);
    var tot, used := Cum(cnt, |cnt|) % WRAP, Used(cnt, |cnt|);
    if tot > 0 && used > 0 {
      CorrectedIff(Shares64(cnt, tot, used), LastUsed(cnt, |cnt|));
    }
  }

  lemma CorrectedIff(f: seq<nat>, last: nat)
    requires last < |f|
    ensures Corrected(f, last).Some? <==> LeavesRoom(f)
  {
    hide Biggest;
    var big := Biggest(f, last, |f|);
    assert forall i :: 0 <= i < |f| && (forall j :: 0 <= j < |f| ==> f[j] <= f[i]) ==> f[i] == f[big];
  }

  /** Three symbols of which one occurs 2^64 - 3 times: the wrapped total is 1, and no table is made. */
  lemma WrapsToNothing(cnt: seq<nat>)
    requires |cnt| == 16 && cnt[0] == cnt[1] == 2 && cnt[2] == WRAP - 3 && forall i :: 3 <= i < 16 ==> cnt[i] == 0
    ensures Normalized64(cnt) == None
  {
    hide Corrected, Shares64;
    ThreeCounts(cnt, |cnt|);
    Unwrapped(1);
    var f := Shares64(cnt, 1, 3);
    ThreeShares(cnt[0], cnt[2]);
    ThreeCounts(f, |f|);
    CorrectedIff(f, 2);
  }

  lemma {:induction false} ThreeCounts(cnt: seq<nat>, n: nat)
    requires 3 <= n <= |cnt| && cnt[0] > 0 && cnt[1] > 0 && cnt[2] > 0 && forall i :: 3 <= i < |cnt| ==> cnt[i] == 0
    ensures Cum(cnt, n) == cnt[0] + cnt[1] + cnt[2] && Used(cnt, n) == 3 && LastUsed(cnt, n) == 2
  {
    if n > 3 {
      ThreeCounts(cnt, n - 1);
    } else {
      FirstCounts(cnt, n);
    }
  }

  lemma FirstCounts(cnt: seq<nat>, n: nat)
    requires n == 3 <= |cnt| && cnt[0] > 0 && cnt[1] > 0 && cnt[2] > 0
    ensures Cum(cnt, n) == cnt[0] + cnt[1] + cnt[2] && Used(cnt, n) == 3 && LastUsed(cnt, n) == 2
  {
    assert Cum(cnt, n - 2) == cnt[0] && Used(cnt, n - 2) == 1;
    assert Cum(cnt, n - 1) == cnt[0] + cnt[1] && Used(cnt, n - 1) == 2;
  }

  lemma ThreeShares(few: nat, many: nat)
    requires few == 2 && many == WRAP - 3
    ensures Share64(few, 1, 3) == 4094 && Share64(many, 1, 3) == 4094
  {
  }

  lemma ShareSupport(c: nat, tot: nat, used: nat)
    requires tot > 0 && 1 <= used <= 16
    ensures Share64(c, tot, used) > 0 <==> c > 0
  {
  }

  /** Without a wrap the two agree. */
  lemma {:induction false} NoWrap(cnt: seq<nat>)
    requires |cnt| == 16 && Cum(cnt, |cnt|) * 4096 < WRAP
    ensures Normalized64(cnt) == Normalized(cnt)
  {
    hide Corrected, Share, Share64, Used;
    SomeUsed(cnt, |cnt|);
    Unwrapped(Cum(cnt, |cnt|));
    var tot, used := Cum(cnt, |cnt|), Used(cnt, |cnt|);
    if tot > 0 {
      forall i | 0 <= i < 16
        ensures Share64(cnt[i], tot, used) == Share(cnt[i], tot, used)
      {
        PartOfSum(cnt, i, |cnt|);
        SameShare(cnt[i], tot, used);
      }
      assert Shares64(cnt, tot, used) == Shares(cnt, tot, used);
    }
  }

  lemma Unwrapped(n: nat)
    requires n < WRAP
    ensures n % WRAP == n
  {
  }

  lemma SameShare(c: nat, tot: nat, used: nat)
    requires c <= tot && 0 < tot && tot * 4096 < WRAP && 1 <= used <= 16
    ensures Share64(c, tot, used) == Share(c, tot, used)
  {
    Unwrapped(c * 4096);
  }

  lemma {:induction false} PartOfSum(cnt: seq<nat>, i: nat, n: nat)
    requires i < n <= |cnt|
    ensures cnt[i] <= Cum(cnt, n)
  {
    if i + 1 < n {
      PartOfSum(cnt, i, n - 1);
    }
  }

  // ---------------------------------------------------------------- it never fails

  lemma {:induction false} SomeUsed(cnt: seq<nat>, n: nat)
    requires n <= |cnt|
    ensures Cum(cnt, n) > 0 <==> Used(cnt, n) > 0
    ensures Cum(cnt, n) > 0 <==> LastUsed(cnt, n) >= 0
  {
    if n > 0 {
      SomeUsed(cnt, n - 1);
    }
  }

  lemma {:induction false} CumUpper(cnt: seq<nat>, n: nat, m: nat)
    requires n <= |cnt| && forall i :: 0 <= i < n ==> cnt[i] <= m
    ensures Cum(cnt, n) <= n * m
  {
    if n > 0 {
      CumUpper(cnt, n - 1, m);
    }
  }

  /** Some symbol holds at least a sixteenth of the total. */
  lemma LargeSymbol(cnt: seq<nat>) returns (i: nat)
    requires |cnt| == 16 && Cum(cnt, |cnt|) > 0
    ensures i < 16 && cnt[i] * 16 >= Cum(cnt, |cnt|)
  {
    var tot := Cum(cnt, |cnt|);
    if forall j :: 0 <= j < |cnt| ==> cnt[j] * 16 < tot {
      CumUpper(cnt, |cnt|, (tot - 1) / 16);
      assert false;
    }
    i :| 0 <= i < |cnt| && cnt[i] * 16 >= tot;
  }

  lemma {:induction false} QuotientBounds(c: nat, tot: nat)
    requires tot > 0
    ensures (c * 4096 / tot) * tot <= c * 4096
    ensures c * 16 >= tot ==> c * 4096 / tot >= 256
  {
    var q, x := c * 4096 / tot, c * 4096;
    assert q * tot + x % tot == x;
    if c * 16 >= tot && q < 256 {
      MulMonotone(tot, q + 1, 256);
      assert false;
    }
  }

  lemma {:induction false} ShareTimes(c: nat, tot: nat, used: nat)
    requires tot > 0 && 1 <= used <= 16
    ensures Share(c, tot, used) * tot <= c * 4096 + tot
  {
    var q := c * 4096 / tot;
    QuotientBounds(c, tot);
    MulMonotone(tot, Share(c, tot, used), q + 1);
  }

  lemma Distribute(a: int, b: int, t: int)
    ensures (a + b) * t == a * t + b * t
  {
  }

  /** Each share exceeds its exact quotient by at most 1, so the sum exceeds 4096 by at most n. */
  lemma {:induction false} SharesSum(cnt: seq<nat>, tot: nat, used: nat, n: nat)
    requires tot > 0 && 1 <= used <= 16 && n <= |cnt|
    ensures Cum(Shares(cnt, tot, used), n) * tot <= Cum(cnt, n) * 4096 + n * tot
  {
    if n > 0 {
      SharesSum(cnt, tot, used, n - 1);
      ShareTimes(cnt[n - 1], tot, used);
      Distribute(Cum(Shares(cnt, tot, used), n - 1), Share(cnt[n - 1], tot, used), tot);
      Distribute(n - 1, 1, tot);
    }
  }

  lemma {:induction false} CumReplace(f: seq<nat>, b: nat, v: nat, n: nat)
    requires b < |f| && n <= |f|
    ensures Cum(f[b := v], n) == if b < n then Cum(f, n) - f[b] + v else Cum(f, n)
    ensures b < n ==> f[b] <= Cum(f, n)
  {
    if n > 0 {
      CumReplace(f, b, v, n - 1);
    }
  }

  /** The one correction always fits: the largest share is at least 256 and the excess at most 16. */
  lemma RoomForCorrection(cnt: seq<nat>, tot: nat, used: nat, big: nat)
    requires |cnt| == 16 && tot == Cum(cnt, |cnt|) > 0 && 1 <= used <= 16
    requires big < 16 && forall i :: 0 <= i < 16 ==> Shares(cnt, tot, used)[i] <= Shares(cnt, tot, used)[big]
    ensures Shares(cnt, tot, used)[big] >= 256
    ensures Cum(Shares(cnt, tot, used), |cnt|) <= 4096 + 16
  {
    var i := LargeSymbol(cnt);
    QuotientBounds(cnt[i], tot);
    var s := Cum(Shares(cnt, tot, used), |cnt|);
    SharesSum(cnt, tot, used, |cnt|);
    assert s * tot <= (4096 + 16) * tot;
    MulMonotone(tot, 4096 + 16 + 1, s);
  }

  /** One share: within 1 of its exact value, up to the floor of 1 and the room kept for the others. */
  lemma ShareClose(c: nat, tot: nat, used: nat)
    requires 0 < c && tot > 0 && 1 <= used <= 16
    ensures var f := Share(c, tot, used);
            (f * tot <= c * 4096 || f == 1) && (c * 4096 < (f + 1) * tot || f == 4097 - used) && f <= 4097 - used
  {
    var q, x := c * 4096 / tot, c * 4096;
    assert x == q * tot + x % tot;
    assert (q + 1) * tot == q * tot + tot;
    QuotientBounds(c, tot);
    var f := Share(c, tot, used);
    MulMonotone(tot, f, q);
    MulMonotone(tot, q, f);
  }

  /** Every frequency but one is within 1 of its symbol's exact share of 4096, up to the floor of 1 and
      the room kept for the others. */
  lemma {:induction false} FrequenciesClose(cnt: seq<nat>) returns (big: nat)
    requires |cnt| == 16 && Normalized(cnt).Some?
    ensures var freq, tot, used := Normalized(cnt).value, Cum(cnt, |cnt|), Used(cnt, |cnt|);
            |freq| == 16 && big < 16 && cnt[big] > 0 && forall i :: 0 <= i < 16 && i != big && cnt[i] > 0 ==>
              (freq[i] * tot <= cnt[i] * 4096 || freq[i] == 1) &&
              (cnt[i] * 4096 < (freq[i] + 1) * tot || freq[i] == 4097 - used) && freq[i] <= 4097 - used
  {
    hide Share;
    var tot, used, last := Cum(cnt, |cnt|), Used(cnt, |cnt|), LastUsed(cnt, |cnt|);
    var f := Shares(cnt, tot, used);
    big := Biggest(f, last, |f|);
    SomeUsed(cnt, |cnt|);
    RoomForCorrection(cnt, tot, used, big);
    NothingShared(cnt[big], tot, used);
    forall i | 0 <= i < 16 && cnt[i] > 0
      ensures (f[i] * tot <= cnt[i] * 4096 || f[i] == 1) &&
              (cnt[i] * 4096 < (f[i] + 1) * tot || f[i] == 4097 - used) && f[i] <= 4097 - used
    {
      ShareClose(cnt[i], tot, used);
    }
  }

  lemma NothingShared(c: nat, tot: nat, used: nat)
    requires tot > 0 && 1 <= used <= 16
    ensures c == 0 ==> Share(c, tot, used) == 0
  {
  }

  /** Normalisation fails exactly on the empty histogram. Otherwise the table sums to 4096
      and a symbol has a frequency exactly when it occurs. */
  lemma {:induction false} NormalizedTable(cnt: seq<nat>)
    requires |cnt| == 16
    ensures Normalized(cnt).Some? <==> exists i :: 0 <= i < 16 && cnt[i] > 0
    ensures Normalized(cnt).Some? ==>
              var freq := Normalized(cnt).value;
              Table(freq) && forall i :: 0 <= i < 16 ==> (freq[i] > 0 <==> cnt[i] > 0)
  {
    var tot, used := Cum(cnt, |cnt|), Used(cnt, |cnt|);
    var last := LastUsed(cnt, |cnt|);
    SomeUsed(cnt, |cnt|);
    if tot > 0 {
      assert cnt[last] > 0;
      var f := Shares(cnt, tot, used);
      var big := Biggest(f, last, |f|);
      RoomForCorrection(cnt, tot, used, big);
      CumReplace(f, big, f[big] + 4096 - Cum(f, |f|), |f|);
    }
  }

  // ---------------------------------------------------------------- the loop over arrays

  method Tally(cnt: array<nat>) returns (tot: nat, used: nat)
    ensures tot == Cum(cnt[..], cnt.Length) % WRAP && used == Used(cnt[..], cnt.Length)
  {
    tot, used := 0, 0;
    for i := 0 to cnt.Length
      invariant tot == Cum(cnt[..], i) % WRAP && used == Used(cnt[..], i)
    {
      tot := (tot + cnt[i]) % WRAP;
      if cnt[i] > 0 { used := used + 1; }
    }
  }

  method FillShares(cnt: array<nat>, freq: array<nat>, tot: nat, used: nat) returns (sum: nat, last: int)
    requires cnt.Length == freq.Length && cnt != freq && tot > 0 && 1 <= used <= 16
    modifies freq
    ensures freq[..] == Shares64(cnt[..], tot, used)
    ensures sum == Cum(freq[..], freq.Length) && last == LastUsed(cnt[..], cnt.Length)
  {
    ghost var f := Shares64(cnt[..], tot, used);
    sum, last := 0, -1;
    for i := 0 to cnt.Length
      invariant forall k :: 0 <= k < i ==> freq[k] == f[k]
      invariant sum == Cum(f, i) && last == LastUsed(cnt[..], i)
    {
      if cnt[i] == 0 {
        freq[i] := 0;
      } else {
        var v := cnt[i] * 4096 % WRAP / tot;
        if v == 0 { v := 1; }
        if v > 4096 - (used - 1) { v := 4096 - (used - 1); }
        freq[i] := v;
        sum, last := sum + v, i;
      }
    }
    assert freq[..] == f;
  }

  method Correct(freq: array<nat>, sum: nat, last: nat) returns (rc: int)
    requires last < freq.Length && sum == Cum(freq[..], freq.Length)
    modifies freq
    ensures rc == if Corrected(old(freq[..]), last).Some? then 0 else -1
    ensures rc == 0 ==> freq[..] == Corrected(old(freq[..]), last).value
  {
    var big := last;
    for i := 0 to freq.Length
      invariant big == Biggest(freq[..], last, i) && freq[..] == old(freq[..])
    {
      if freq[i] > freq[big] { big := i; }
    }
    var diff := 4096 - sum;
    if freq[big] + diff < 1 {
      return -1;
    }
    freq[big] := freq[big] + diff;
    return 0;
  }

  /** cfse_normalize on its own arrays, for any 64-bit counts. */
  method Normalize(cnt: array<nat>, freq: array<nat>) returns (rc: int)
    requires cnt.Length == 16 && freq.Length == 16 && cnt != freq
    modifies freq
    ensures rc == if Normalized64(cnt[..]).Some? then 0 else -1
    ensures rc == 0 ==> freq[..] == Normalized64(cnt[..]).value
  {
    var tot, used := Tally(cnt);
    SomeUsed(cnt[..], cnt.Length);
    if tot == 0 {
      return -1;
    }
    var sum, last := FillShares(cnt, freq, tot, used);
    rc := Correct(freq, sum, last);
  }
}
