/** c/harness.h: the output of a shell command, kept as a head and the tail end of a ring. */
module CommandOutput {

  // ---------------------------------------------------------------- what is shown

  /** The stream without carriage returns. */
  function Stripped(s: string): string {
    if s == [] then [] else (if s[0] == '\r' then [] else [s[0]]) + Stripped(s[1..])
  }

  lemma {:induction false} StrippedJoin(a: string, b: string)
    ensures Stripped(a + b) == Stripped(a) + Stripped(b)
  {
    if a == [] {
      assert a + b == b;
    } else {
      assert (a + b)[1..] == a[1..] + b;
      StrippedJoin(a[1..], b);
    }
  }

  /** One past the first newline, or the end. */
  function AfterNewline(t: string): (n: nat)
    ensures n <= |t| && (t != [] ==> n > 0)
  {
    if t == [] then 0 else if t[0] == '\n' then 1 else 1 + AfterNewline(t[1..])
  }

  /** How many of the bytes past the head are cut. */
  function Cut(t: string, tcap: nat): (n: nat)
    ensures n <= |t|
  {
    if |t| < tcap then 0 else |t| - tcap + AfterNewline(t[|t| - tcap..])
  }

  /** Bytes of s that fit behind what out already holds. */
  function Head(before: nat, s: string, hcap: nat): (n: nat)
    ensures n <= |s|
  {
    var room := if before < hcap then hcap - before else 0;
    if |s| < room then |s| else room
  }

  /** The whole report on stream s: head, cut count, tail. */
  function Rendered(before: string, s: string, hcap: nat, tcap: nat, note: nat -> string): string {
    var h := Head(|before|, s, hcap);
    var cut := Cut(s[h..], tcap);
    before + s[..h] + (if cut > 0 then note(cut) else []) + s[h + cut..]
  }

  // ---------------------------------------------------------------- properties of the report

  /** Exactly the carriage returns go, and the rest keeps its order: runs without one stay as they are,
      and by StrippedJoin so does what they are joined to. */
  lemma {:induction false} StrippedMeans(s: string, c: char)
    ensures '\r' !in Stripped(s) && ('\r' !in s ==> Stripped(s) == s)
    ensures c != '\r' ==> multiset(Stripped(s))[c] == multiset(s)[c]
  {
    if s != [] {
      StrippedMeans(s[1..], c);
      assert s == [s[0]] + s[1..];
    }
  }

  /** Nothing is cut exactly when the stream stays short of head and ring together. */
  lemma CutNothing(before: nat, s: string, hcap: nat, tcap: nat)
    requires tcap > 0
    ensures Cut(s[Head(before, s, hcap)..], tcap) == 0 <==> |s| < Head(before, s, hcap) + tcap
  {
  }

  /** Conservation: head, the reported number of cut bytes, and tail make up the stream. The head fills
      up to hcap before anything else is kept or cut, the tail stays below tcap after a cut, and a stream
      short of head and ring is shown verbatim. */
  lemma Conserved(before: string, s: string, hcap: nat, tcap: nat, note: nat -> string)
    returns (head: string, lost: string, tail: string)
    requires tcap > 0
    ensures s == head + lost + tail
    ensures Rendered(before, s, hcap, tcap, note) == before + head + (if lost == [] then [] else note(|lost|)) + tail
    ensures head != [] ==> |before + head| <= hcap
    ensures lost + tail != [] ==> |before + head| >= hcap
    ensures lost != [] <==> |s| >= |head| + tcap
    ensures lost != [] ==> |tail| < tcap
    ensures lost == [] ==> Rendered(before, s, hcap, tcap, note) == before + s
  {
    var h := Head(|before|, s, hcap);
    var cut := Cut(s[h..], tcap);
    hide Cut, AfterNewline;
    CutNothing(|before|, s, hcap, tcap);
    CutKeeps(s[h..], tcap);
    head, lost, tail := s[..h], s[h..h + cut], s[h + cut..];
    InThree(before, s, h, cut);
  }

  /** Something cut: less than the ring is shown. */
  lemma CutKeeps(t: string, tcap: nat)
    requires tcap > 0
    ensures Cut(t, tcap) > 0 ==> |t| - Cut(t, tcap) < tcap
  {
  }

  lemma InThree(before: string, s: string, h: nat, cut: nat)
    requires h + cut <= |s|
    ensures s == s[..h] + s[h..h + cut] + s[h + cut..]
    ensures cut == 0 ==> before + s[..h] + [] + s[h + cut..] == before + s
  {
    if cut == 0 {
      assert s[..h] + s[h..] == s;
    }
  }

  lemma {:induction false} AfterNewlineLine(t: string)
    ensures var n := AfterNewline(t);
            (n == |t| || t[n - 1] == '\n') && (n > 0 ==> '\n' !in t[..n - 1])
  {
    if t != [] && t[0] != '\n' {
      AfterNewlineLine(t[1..]);
      var n := AfterNewline(t[1..]);
      if n > 0 {
        assert t[..n] == [t[0]] + t[1..][..n - 1];
      }
    }
  }

  /** A shown tail after a cut begins a line, and no earlier line of the last tcap bytes was
      available whole. */
  lemma TailIsLines(t: string, tcap: nat)
    requires |t| >= tcap > 0
    ensures var cut := Cut(t, tcap);
            |t| - tcap < cut && (cut == |t| || t[cut - 1] == '\n') && '\n' !in t[|t| - tcap..cut - 1]
  {
    var last := t[|t| - tcap..];
    AfterNewlineLine(last);
    var n := AfterNewline(last);
    assert last[..n - 1] == t[|t| - tcap..Cut(t, tcap) - 1];
  }

  // ---------------------------------------------------------------- the ring

  function Rotated(ring: string, rpos: nat): string
    requires rpos <= |ring|
  {
    ring[rpos..] + ring[..rpos]
  }

  function Least(a: nat, b: nat): nat { if a < b then a else b }

  /** The last n characters. */
  function Last(t: string, n: nat): string
    requires n <= |t|
  {
    t[|t| - n..]
  }

  /** The ring, read from its write position, ends with the last min(|t|, tcap) bytes of t. */
  ghost predicate RingHolds(ring: string, rpos: nat, t: string) {
    rpos < |ring| && (|t| < |ring| ==> rpos == |t|) &&
    Last(Rotated(ring, rpos), Least(|t|, |ring|)) == Last(t, Least(|t|, |ring|))
  }

  /** The ring after the copies that write q at rpos, wrapping. */
  function Written(ring: string, rpos: nat, q: string): string
    requires rpos < |ring| && |q| < |ring|
  {
    var first := Least(|ring| - rpos, |q|);
    if first == |q| then ring[..rpos] + q + ring[rpos + |q|..]
    else q[first..] + ring[|q| - first..rpos] + q[..first]
  }

  lemma Straight(a: string, b: string, c: string, q: string)
    requires |b| == |q|
    ensures Rotated(a + q + c, if c == [] then 0 else |a| + |q|) == Rotated(a + b + c, |a|)[|q|..] + q
  {
    assert (a + q + c)[|a| + |q|..] == c && (a + q + c)[..|a| + |q|] == a + q;
    assert (a + b + c)[|a|..] == b + c && (a + b + c)[..|a|] == a;
    assert (b + c + a)[|q|..] == c + a;
    assert c == [] ==> Rotated(a + q + c, 0) == a + q;
    assert c + a + q == c + (a + q);
  }

  lemma Wrapped(a: string, b: string, c: string, q1: string, q2: string)
    requires |a| == |q2| && |c| == |q1|
    ensures Rotated(q2 + b + q1, |q2|) == Rotated(a + b + c, |a| + |b|)[|q1 + q2|..] + (q1 + q2)
  {
    assert (q2 + b + q1)[|q2|..] == b + q1 && (q2 + b + q1)[..|q2|] == q2;
    assert (a + b + c)[|a| + |b|..] == c && (a + b + c)[..|a| + |b|] == a + b;
    assert (c + (a + b))[|q1 + q2|..] == b;
    assert b + q1 + q2 == b + (q1 + q2);
  }

  lemma RingPlace(ring: string, rpos: nat, t: string)
    requires RingHolds(ring, rpos, t)
    ensures rpos < |ring|
  {
  }

  /** Writing at rpos pushes out the oldest. */
  lemma {:induction false} WriteRotates(ring: string, rpos: nat, q: string)
    requires rpos < |ring| && |q| < |ring|
    ensures |Written(ring, rpos, q)| == |ring|
    ensures Rotated(Written(ring, rpos, q), (rpos + |q|) % |ring|) == Rotated(ring, rpos)[|q|..] + q
  {
    hide Rotated;
    WrapMod(rpos + |q|, |ring|);
    if |q| <= |ring| - rpos {
      Straight(ring[..rpos], ring[rpos..rpos + |q|], ring[rpos + |q|..], q);
      assert ring == ring[..rpos] + ring[rpos..rpos + |q|] + ring[rpos + |q|..];
    } else {
      var first := |ring| - rpos;
      Wrapped(ring[..|q| - first], ring[|q| - first..rpos], ring[rpos..], q[..first], q[first..]);
      assert ring == ring[..|q| - first] + ring[|q| - first..rpos] + ring[rpos..];
      assert q == q[..first] + q[first..];
    }
  }

  lemma WrapMod(x: nat, m: nat)
    requires x < 2 * m
    ensures x % m == if x < m then x else x - m
  {
  }

  /** The ring's promise survives pushing out the oldest. */
  lemma {:induction false} HoldsAfter(ring: string, rpos: nat, t: string, q: string)
    requires RingHolds(ring, rpos, t) && |q| < |ring|
    ensures RingHolds(Written(ring, rpos, q), (rpos + |q|) % |ring|, t + q)
  {
    hide Written, Rotated;
    WriteRotates(ring, rpos, q);
    WrapMod(rpos + |q|, |ring|);
    RotatedSize(ring, rpos);
    LastPushed(Rotated(ring, rpos), t, q);
  }

  lemma RotatedSize(ring: string, rpos: nat)
    requires rpos <= |ring|
    ensures |Rotated(ring, rpos)| == |ring|
  {
  }

  lemma LastPushed(r: string, t: string, q: string)
    requires |q| < |r| && Last(r, Least(|t|, |r|)) == Last(t, Least(|t|, |r|))
    ensures Last(r[|q|..] + q, Least(|t + q|, |r|)) == Last(t + q, Least(|t + q|, |r|))
  {
    var k := Least(|t + q|, |r|) - |q|;
    LastOfPush(r[|q|..], q, k);
    LastOfPush(t, q, k);
    LastOfLast(r, Least(|t|, |r|), k);
    LastOfLast(t, Least(|t|, |r|), k);
    LastOfLast(r, |r| - |q|, k);
  }

  lemma LastOfPush(t: string, q: string, k: nat)
    requires k <= |t|
    ensures Last(t + q, k + |q|) == Last(t, k) + q
  {
  }

  lemma LastOfLast(t: string, m: nat, k: nat)
    requires k <= m <= |t|
    ensures Last(Last(t, m), k) == Last(t, k)
  {
  }

  /** A chunk longer than the ring replaces it. */
  lemma HoldsAfresh(t: string, q: string, tcap: nat)
    requires 0 < tcap <= |q|
    ensures RingHolds(Last(q, tcap), 0, t + q)
  {
    LastOfPush(t, q, 0);
    LastOfLast(t + q, |q|, tcap);
    assert Rotated(Last(q, tcap), 0) == Last(q, tcap);
    LastOfLast(Last(q, tcap), tcap, tcap);
    assert Last(t, 0) + q == q;
  }

  // ---------------------------------------------------------------- the collector

  /** What head, ring and counters hold after stream s. */
  ghost predicate Holds(before: string, s: string, hcap: nat, out: string, ring: string, rpos: nat, seenTail: nat) {
    var h := Head(|before|, s, hcap);
    out == before + s[..h] && seenTail == |s| - h && RingHolds(ring, rpos, s[h..])
  }

  /** A further piece q of the stream first tops up the head. */
  lemma HeadTopsUp(before: string, s: string, hcap: nat, out: string, q: string)
    requires out == before + s[..Head(|before|, s, hcap)]
    ensures var take := if |out| < hcap then Least(hcap - |out|, |q|) else 0;
            var h, h' := Head(|before|, s, hcap), Head(|before|, s + q, hcap);
            h' == h + take && out + q[..take] == before + (s + q)[..h'] && (s + q)[h'..] == s[h..] + q[take..]
  {
  }

  /** Two copies write q at rpos, wrapping. */
  lemma TwoCopies(was: string, rpos: nat, q: string, first: nat, mid: string, ring: string)
    requires rpos < |was| && |q| < |was| && first == Least(|was| - rpos, |q|)
    requires mid == was[..rpos] + q[..first] + was[rpos + first..]
    requires ring == if |q| > first then mid[..0] + q[first..] + mid[|q| - first..] else mid
    ensures ring == Written(was, rpos, q)
  {
    if |q| > first {
      assert mid[|q| - first..] == was[|q| - first..rpos] + q[..first];
    } else {
      assert q[..first] == q;
    }
  }

  lemma TakeLast(q: string, n: nat)
    requires n <= |q|
    ensures Last(q, n) == q[|q| - n..]
  {
  }

  lemma StripNext(raw: string, i: nat)
    requires i <= |raw|
    ensures i == 0 ==> Stripped(raw[..i]) == []
    ensures i < |raw| ==> Stripped(raw[..i + 1]) == Stripped(raw[..i]) + (if raw[i] == '\r' then [] else [raw[i]])
  {
    if i < |raw| {
      assert raw[..i + 1] == raw[..i] + [raw[i]];
      StrippedJoin(raw[..i], [raw[i]]);
    }
  }

  /** What Finish shows of the ring's text t. */
  lemma ShownTail(s: string, h: nat, tcap: nat, t: string, at: nat)
    requires h <= |s| && t == Last(s[h..], Least(|s[h..]|, tcap))
    requires at == if |s[h..]| >= tcap then AfterNewline(t) else 0
    ensures at <= |t| && |s[h..]| - (|t| - at) == Cut(s[h..], tcap)
    ensures t[at..] == s[h + Cut(s[h..], tcap)..]
  {
    hide AfterNewline;
    var u := s[h..];
    var k := |u| - Least(|u|, tcap);
    assert t == u[k..];
    assert u[k..][at..] == u[k + at..];
    assert s[h..][k + at..] == s[h + k + at..];
  }

  class Output {
    const hcap: nat
    const tcap: nat
    const ring: array<char>
    var out: string
    var rpos: nat
    var seenTail: nat

    ghost predicate Valid(before: string, s: string)
      reads this, ring
    {
      ring.Length == tcap > 0 && Holds(before, s, hcap, out, ring[..], rpos, seenTail)
    }

    constructor (limit: nat, before: string)
      ensures Valid(before, []) && fresh(ring) && out == before
      ensures hcap == limit * 3 / 4 && tcap == if limit / 4 > 300 then limit / 4 - 200 else 256
    {
      var cap := if limit / 4 > 300 then limit / 4 - 200 else 256;
      hcap, tcap := limit * 3 / 4, cap;
      ring := new char[cap];
      out, rpos, seenTail := before, 0, 0;
    }

    /** The carriage returns of one read, squeezed out in place. */
    static method StripReturns(b: array<char>) returns (w: nat)
      modifies b
      ensures w <= b.Length && b[..w] == Stripped(old(b[..]))
    {
      hide Stripped;
      w := 0;
      ghost var raw := b[..];
      StripNext(raw, 0);
      for i := 0 to b.Length
        invariant w <= i && (forall j :: i <= j < b.Length ==> b[j] == raw[j])
        invariant b[..w] == Stripped(raw[..i])
      {
        StripNext(raw, i);
        if b[i] != '\r' {
          ghost var kept := b[..w];
          b[w] := b[i];
          w := w + 1;
          assert b[..w] == kept + [raw[i]];
        }
      }
      assert raw[..b.Length] == raw;
    }

    /** One filtered piece: top up the head, the rest goes to the ring. */
    method Keep(b: string, ghost before: string, ghost s: string)
      requires Valid(before, s)
      modifies this`out, this`rpos, this`seenTail, ring
      ensures Valid(before, s + b)
    {
      hide RingHolds, Head;
      HeadTopsUp(before, s, hcap, out, b);
      ghost var t := s[Head(|before|, s, hcap)..];
      var q := b;
      if |out| < hcap {
        var take := if hcap - |out| < |q| then hcap - |out| else |q|;
        out := out + q[..take];
        q := q[take..];
      }
      if q != [] {
        Store(q, t);
      } else {
        assert t + q == t;
      }
    }

    /** memcpy of q to index at. */
    static method CopyIn(dst: array<char>, at: nat, q: string)
      requires at + |q| <= dst.Length
      modifies dst
      ensures dst[..] == old(dst[..at]) + q + old(dst[at + |q|..])
    {
      forall i | 0 <= i < |q| {
        dst[at + i] := q[i];
      }
    }

    /** The two memcpy branches. */
    method Store(q: string, ghost t: string)
      requires q != [] && ring.Length == tcap > 0 && seenTail == |t| && RingHolds(ring[..], rpos, t)
      modifies this`rpos, this`seenTail, ring
      ensures seenTail == |t + q| && RingHolds(ring[..], rpos, t + q)
    {
      hide Last, Rotated, RingHolds;
      seenTail := seenTail + |q|;
      if |q| >= tcap {
        HoldsAfresh(t, q, tcap);
        CopyIn(ring, 0, q[|q| - tcap..]);
        TakeLast(q, tcap);
        assert ring[..] == q[|q| - tcap..];
        rpos := 0;
      } else {
        StoreShort(q, t);
      }
    }

    /** A piece shorter than the ring: behind rpos, then from the front. */
    method StoreShort(q: string, ghost t: string)
      requires |q| < ring.Length == tcap && RingHolds(ring[..], rpos, t)
      modifies this`rpos, ring
      ensures RingHolds(ring[..], rpos, t + q)
    {
      hide Written, RingHolds;
      ghost var was := ring[..];
      RingPlace(was, rpos, t);
      var first := if tcap - rpos < |q| then tcap - rpos else |q|;
      CopyIn(ring, rpos, q[..first]);
      ghost var mid := ring[..];
      if |q| > first {
        CopyIn(ring, 0, q[first..]);
      }
      TwoCopies(was, rpos, q, first, mid, ring[..]);
      HoldsAfter(was, rpos, t, q);
      rpos := (rpos + |q|) % tcap;
    }

    /** The scan past the first newline. */
    static method LineStart(t: string) returns (at: nat)
      ensures at == AfterNewline(t)
    {
      at := 0;
      while at < |t| && t[at] != '\n'
        invariant at <= |t| && at + AfterNewline(t[at..]) == AfterNewline(t)
      {
        assert t[at..][1..] == t[at + 1..];
        at := at + 1;
      }
      if at < |t| {
        at := at + 1;
      }
    }

    /** After the last read: the cut count and the tail from its first line start. */
    method Finish(note: nat -> string, ghost before: string, ghost s: string)
      requires Valid(before, s)
      modifies this`out
      ensures out == Rendered(before, s, hcap, tcap, note)
    {
      hide RingHolds, Head, Cut, AfterNewline, Last;
      ghost var h := Head(|before|, s, hcap);
      ghost var tail := s[h..];
      if seenTail > 0 {
        TailText(ring[..], rpos, tail);
        var t := if seenTail >= tcap then ring[rpos..] + ring[..rpos] else ring[..seenTail];
        var at: nat := 0;
        if seenTail >= tcap {
          at := LineStart(t);
        }
        ShownTail(s, h, tcap, t, at);
        if seenTail > |t| - at {
          out := out + note(seenTail - (|t| - at));
        }
        out := out + t[at..];
      }
    }
  }

  lemma TailText(ring: string, rpos: nat, t: string)
    requires RingHolds(ring, rpos, t)
    ensures rpos < |ring|
    ensures Last(t, Least(|t|, |ring|)) == if |t| >= |ring| then ring[rpos..] + ring[..rpos] else ring[..|t|]
  {
  }

  function Joined(pieces: seq<string>): string {
    if pieces == [] then [] else Joined(pieces[..|pieces| - 1]) + pieces[|pieces| - 1]
  }

  lemma {:induction false} JoinedJoin(a: seq<string>, b: seq<string>)
    ensures Joined(a + b) == Joined(a) + Joined(b) && (|b| == 1 ==> Joined(b) == b[0])
  {
    if b == [] {
      assert a + b == a;
    } else {
      assert (a + b)[..|a + b| - 1] == a + b[..|b| - 1];
      JoinedJoin(a, b[..|b| - 1]);
      JoinedLast(b);
    }
  }

  lemma JoinedLast(b: seq<string>)
    requires b != []
    ensures Joined(b) == Joined(b[..|b| - 1]) + b[|b| - 1]
    ensures |b| == 1 ==> Joined(b) == b[0]
  {
  }

  /** One turn of the reading loop. */
  method ReadOne(o: Output, piece: string, ghost before: string, ghost raw: string)
    requires o.Valid(before, Stripped(raw))
    modifies o, o.ring
    ensures o.Valid(before, Stripped(raw + piece))
  {
    hide Stripped, Holds;
    var b := new char[|piece|](j requires 0 <= j < |piece| => piece[j]);
    assert b[..] == piece;
    var w := Output.StripReturns(b);
    StrippedJoin(raw, piece);
    if w == 0 {
      assert Stripped(raw) + [] == Stripped(raw);
      return;
    }
    o.Keep(b[..w], before, Stripped(raw));
  }

  /** The reading loop of h_run: however the stream is cut into pieces, the report is the one of
      the whole stream. */
  method Collect(pieces: seq<string>, limit: nat, before: string, note: nat -> string) returns (report: string)
    ensures var hcap, tcap := limit * 3 / 4, if limit / 4 > 300 then limit / 4 - 200 else 256;
            report == Rendered(before, Stripped(Joined(pieces)), hcap, tcap, note)
  {
    hide Stripped, Holds, Rendered;
    var o := new Output(limit, before);
    ghost var raw := [];
    Empty(raw);
    for i := 0 to |pieces|
      invariant fresh(o) && fresh(o.ring) && raw == Joined(pieces[..i]) && o.Valid(before, Stripped(raw))
    {
      ReadOne(o, pieces[i], before, raw);
      raw := raw + pieces[i];
      assert pieces[..i + 1][..i] == pieces[..i];
    }
    assert pieces[..|pieces|] == pieces;
    o.Finish(note, before, Stripped(raw));
    report := o.out;
  }

  lemma Empty(raw: string)
    requires raw == []
    ensures Stripped(raw) == []
  {
  }
}
