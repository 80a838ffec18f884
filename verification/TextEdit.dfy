/** c/harness.h: exact-string replacement in a file, refused when the match is ambiguous. */
module TextEdit {

  // ---------------------------------------------------------------- matches

  predicate Occurs(b: string, os: string, i: nat) {
    i + |os| <= |b| && b[i..i + |os|] == os
  }

  /** The matches a left-to-right scan from i finds, each search resuming behind the last match. */
  function Greedy(b: string, os: string, i: nat): seq<nat>
    requires os != ""
    decreases |b| - i
  {
    if i + |os| > |b| then []
    else if Occurs(b, os, i) then [i] + Greedy(b, os, i + |os|)
    else Greedy(b, os, i + 1)
  }

  /** b from i on, with the n characters at each position of ps replaced. */
  function Splice(b: string, n: nat, ns: string, ps: seq<nat>, i: nat): string
    decreases |ps|
  {
    if i > |b| then ""
    else if ps == [] || ps[0] < i || ps[0] > |b| then b[i..]
    else b[i..ps[0]] + ns + Splice(b, n, ns, ps[1..], ps[0] + n)
  }

  /** All matches, or only the first. */
  function Chosen(b: string, os: string, i: nat, all: bool): seq<nat>
    requires os != ""
  {
    var ps := Greedy(b, os, i);
    if all || ps == [] then ps else ps[..1]
  }

  function Newlines(s: string): nat {
    if s == "" then 0 else Newlines(s[..|s| - 1]) + (if s[|s| - 1] == '\n' then 1 else 0)
  }

  /** The line of the first match, counted from 1; 0 without one. */
  function FirstLine(b: string, os: string): nat
    requires os != ""
  {
    var ps := Greedy(b, os, 0);
    if ps == [] || ps[0] > |b| then 0 else 1 + Newlines(b[..ps[0]])
  }

  // ---------------------------------------------------------------- what the scan finds

  ghost predicate Spaced(ps: seq<nat>, n: nat) {
    forall k, m :: 0 <= k < m < |ps| ==> ps[k] + n <= ps[m]
  }

  /** ps are occurrences from i on that do not overlap. */
  ghost predicate Found(b: string, os: string, i: nat, ps: seq<nat>) {
    (forall k :: 0 <= k < |ps| ==> i <= ps[k] && Occurs(b, os, ps[k])) && Spaced(ps, |os|)
  }

  /** The matches found are occurrences and do not overlap. */
  lemma {:induction false} GreedyOccurs(b: string, os: string, i: nat)
    requires os != ""
    ensures Found(b, os, i, Greedy(b, os, i))
    decreases |b| - i
  {
    hide Occurs, Found;
    FoundNone(b, os, i);
    if i + |os| <= |b| {
      if Occurs(b, os, i) {
        GreedyOccurs(b, os, i + |os|);
        FoundFirst(b, os, i, Greedy(b, os, i + |os|));
      } else {
        GreedyOccurs(b, os, i + 1);
        FoundLater(b, os, i, Greedy(b, os, i + 1));
      }
    }
  }

  lemma FoundNone(b: string, os: string, i: nat)
    ensures Found(b, os, i, [])
  {
  }

  lemma FoundFirst(b: string, os: string, i: nat, rest: seq<nat>)
    requires Occurs(b, os, i) && Found(b, os, i + |os|, rest)
    ensures Found(b, os, i, [i] + rest)
  {
    hide Occurs;
    var ps := [i] + rest;
    assert forall m :: 0 < m < |ps| ==> ps[m] == rest[m - 1];
  }

  lemma FoundLater(b: string, os: string, i: nat, ps: seq<nat>)
    requires Found(b, os, i + 1, ps)
    ensures Found(b, os, i, ps)
  {
    hide Occurs;
  }

  /** Every occurrence starts inside a match that was found. */
  lemma {:induction false} GreedyCovers(b: string, os: string, i: nat, j: nat) returns (k: nat)
    requires os != "" && i <= j && Occurs(b, os, j)
    ensures k < |Greedy(b, os, i)| && Greedy(b, os, i)[k] <= j < Greedy(b, os, i)[k] + |os|
    decreases |b| - i
  {
    if Occurs(b, os, i) {
      if j < i + |os| {
        k := 0;
      } else {
        var m := GreedyCovers(b, os, i + |os|, j);
        k := m + 1;
      }
    } else {
      k := GreedyCovers(b, os, i + 1, j);
    }
  }

  /** Exactly one hit is counted when there is an occurrence and every other one overlaps it. */
  lemma OneHit(b: string, os: string)
    requires os != ""
    ensures |Greedy(b, os, 0)| == 1 <==>
            exists p: nat :: Occurs(b, os, p) && forall j: nat :: Occurs(b, os, j) ==> p <= j < p + |os|
  {
    var ps := Greedy(b, os, 0);
    GreedyOccurs(b, os, 0);
    if |ps| == 1 {
      forall j: nat | Occurs(b, os, j)
        ensures ps[0] <= j < ps[0] + |os|
      {
        var k := GreedyCovers(b, os, 0, j);
      }
      assert Occurs(b, os, ps[0]);
    } else if p: nat :| Occurs(b, os, p) && forall j: nat :: Occurs(b, os, j) ==> p <= j < p + |os| {
      var k := GreedyCovers(b, os, 0, p);
      assert Occurs(b, os, ps[0]) && Occurs(b, os, ps[1]);
    }
  }

  ghost predicate Once(b: string, os: string) {
    exists p: nat :: Occurs(b, os, p) && forall j: nat :: Occurs(b, os, j) ==> j == p
  }

  /** A proper suffix of os is also its prefix. */
  ghost predicate SelfOverlaps(os: string) {
    exists d: nat :: 0 < d < |os| && OverlapsAt(os, d)
  }

  predicate OverlapsAt(os: string, d: nat)
    requires d <= |os|
  {
    os[d..] == os[..|os| - d]
  }

  /** Two occurrences closer than the length of os: os overlaps itself. */
  lemma CloseOccurrences(b: string, os: string, i: nat, j: nat)
    requires Occurs(b, os, i) && Occurs(b, os, j) && i < j < i + |os|
    ensures SelfOverlaps(os)
  {
    var d := j - i;
    assert os[d..] == b[i..i + |os|][d..] == b[j..i + |os|];
    assert os[..|os| - d] == b[j..j + |os|][..|os| - d] == b[j..i + |os|];
    assert OverlapsAt(os, d);
  }

  /** A single occurrence is always one hit. */
  lemma OnceIsOneHit(b: string, os: string)
    requires os != "" && Once(b, os)
    ensures |Greedy(b, os, 0)| == 1
  {
    OneHit(b, os);
    var p: nat :| Occurs(b, os, p) && forall j: nat :: Occurs(b, os, j) ==> j == p;
    assert Occurs(b, os, p) && forall j: nat :: Occurs(b, os, j) ==> p <= j < p + |os|;
  }

  /** For an old_string that does not overlap itself the count tells ambiguity exactly. */
  lemma OneHitIsOnce(b: string, os: string)
    requires os != "" && |Greedy(b, os, 0)| == 1 && !SelfOverlaps(os)
    ensures Once(b, os)
  {
    OneHit(b, os);
    var p: nat :| Occurs(b, os, p) && forall j: nat :: Occurs(b, os, j) ==> p <= j < p + |os|;
    forall j: nat | Occurs(b, os, j)
      ensures j == p
    {
      if j > p {
        CloseOccurrences(b, os, p, j);
      }
    }
  }

  /** For one that does, some file holds it twice and is still counted once. */
  lemma OverlapMiscounts(os: string) returns (b: string)
    requires SelfOverlaps(os)
    ensures |Greedy(b, os, 0)| == 1 && !Once(b, os)
  {
    var d: nat :| 0 < d < |os| && OverlapsAt(os, d);
    b := os[..d] + os;
    assert b[d..d + |os|] == os;
    assert b[0..|os|] == os[..d] + os[..|os| - d] == os[..d] + os[d..] == os;
    assert Occurs(b, os, 0) && Occurs(b, os, d);
    forall j: nat | Occurs(b, os, j)
      ensures 0 <= j < 0 + |os|
    {
    }
    OneHit(b, os);
  }

  /** The ambiguity check does what its comment says, on every file, exactly for those
      old_strings that do not overlap themselves. */
  lemma RefusesAmbiguityIff(os: string)
    requires os != ""
    ensures (forall b: string :: |Greedy(b, os, 0)| == 1 <==> Once(b, os)) <==> !SelfOverlaps(os)
  {
    if SelfOverlaps(os) {
      var b := OverlapMiscounts(os);
    } else {
      forall b: string
        ensures |Greedy(b, os, 0)| == 1 <==> Once(b, os)
      {
        if Once(b, os) {
          OnceIsOneHit(b, os);
        } else if |Greedy(b, os, 0)| == 1 {
          OneHitIsOnce(b, os);
        }
      }
    }
  }

  // ---------------------------------------------------------------- what the edit does

  /** Replacing old_string by itself changes nothing. */
  lemma {:induction false} SpliceIdentity(b: string, os: string, i: nat, ps: seq<nat>, lo: nat)
    requires os != "" && lo <= i <= |b| && ps == Greedy(b, os, i)
    ensures Splice(b, |os|, os, ps, lo) == b[lo..]
    decreases |b| - i
  {
    hide Occurs;
    if i + |os| <= |b| {
      if Occurs(b, os, i) {
        SpliceIdentity(b, os, i + |os|, ps[1..], i + |os|);
        Unspliced(b, os, lo, i);
      } else {
        SpliceIdentity(b, os, i + 1, ps, lo);
      }
    }
  }

  lemma Unspliced(b: string, os: string, lo: nat, i: nat)
    requires lo <= i && Occurs(b, os, i)
    ensures b[lo..i] + os + b[i + |os|..] == b[lo..]
  {
    assert b[lo..] == b[lo..i] + b[i..i + |os|] + b[i + |os|..];
  }

  /** Each replacement changes the size by the same amount. */
  lemma {:induction false} SpliceSize(b: string, n: nat, ns: string, ps: seq<nat>, i: nat)
    requires i <= |b| && (forall k :: 0 <= k < |ps| ==> i <= ps[k] && ps[k] + n <= |b|)
    requires Spaced(ps, n)
    ensures |Splice(b, n, ns, ps, i)| == |b| - i + |ps| * (|ns| - n)
    decreases |ps|
  {
    if ps != [] {
      var rest, d := |ps| - 1, |ns| - n;
      SpliceSize(b, n, ns, ps[1..], ps[0] + n);
      OneMore(|ps|, d);
      var r, whole := rest * d, |ps| * d;
      assert whole == r + d;
    }
  }

  lemma OneMore(k: nat, x: int)
    ensures k * x == (k - 1) * x + x
  {
  }

  /** A single edit splices at the first occurrence. */
  lemma SingleEdit(b: string, os: string, ns: string)
    requires os != "" && Greedy(b, os, 0) != []
    ensures var p := Greedy(b, os, 0)[0];
            Occurs(b, os, p) && (forall j: nat :: Occurs(b, os, j) ==> p <= j) &&
            Splice(b, |os|, ns, Chosen(b, os, 0, false), 0) == b[..p] + ns + b[p + |os|..]
  {
    var ps := Greedy(b, os, 0);
    var p := ps[0];
    GreedyOccurs(b, os, 0);
    forall j: nat | Occurs(b, os, j)
      ensures p <= j
    {
      var k := GreedyCovers(b, os, 0, j);
      assert k > 0 ==> ps[0] + |os| <= ps[k];
    }
    var one := Chosen(b, os, 0, false);
    assert one == [p] && one[1..] == [];
  }

  /** The pieces with sep between them. */
  function Between(pieces: seq<string>, sep: string): string
    requires pieces != []
  {
    if |pieces| == 1 then pieces[0] else pieces[0] + sep + Between(pieces[1..], sep)
  }

  /** No occurrence of os starts in the piece that stands before rest. */
  ghost predicate Clear(piece: string, rest: string, os: string) {
    forall j: nat :: j < |piece| ==> !Occurs(piece + rest, os, j)
  }

  /** Replacing all matches: the file is pieces with old_string between them, the result the same pieces
      with new_string between them, and no piece holds an occurrence, or begins one. */
  lemma {:induction false} ReplacedAll(b: string, os: string, ns: string) returns (pieces: seq<string>)
    requires os != ""
    ensures |pieces| == |Greedy(b, os, 0)| + 1
    ensures b == Between(pieces, os) && Splice(b, |os|, ns, Greedy(b, os, 0), 0) == Between(pieces, ns)
    ensures forall k :: 0 <= k < |pieces| ==> Clear(pieces[k], if k + 1 < |pieces| then os else "", os)
  {
    pieces := PiecesFrom(b, os, ns, 0, 0);
    assert b[0..] == b;
  }

  /** The pieces from lo on, nothing having been found between lo and i. */
  lemma {:induction false} PiecesFrom(b: string, os: string, ns: string, lo: nat, i: nat) returns (pieces: seq<string>)
    requires os != "" && lo <= i <= |b| && forall j :: lo <= j < i ==> !Occurs(b, os, j)
    ensures var ps := Greedy(b, os, i);
            |pieces| == |ps| + 1 && b[lo..] == Between(pieces, os) && Splice(b, |os|, ns, ps, lo) == Between(pieces, ns)
    ensures forall k :: 0 <= k < |pieces| ==> Clear(pieces[k], if k + 1 < |pieces| then os else "", os)
    decreases |b| - i
  {
    hide Clear, Between, Splice;
    if i + |os| > |b| {
      pieces := [b[lo..]];
      LastPiece(b, os, ns, lo, i);
    } else if Occurs(b, os, i) {
      var next := i + |os|;
      var rest := PiecesFrom(b, os, ns, next, next);
      pieces := [b[lo..i]] + rest;
      NextPiece(b, os, ns, lo, i, rest);
    } else {
      pieces := PiecesFrom(b, os, ns, lo, i + 1);
    }
  }

  lemma LastPiece(b: string, os: string, ns: string, lo: nat, i: nat)
    requires os != "" && lo <= i <= |b| && (forall j :: lo <= j < i ==> !Occurs(b, os, j)) && i + |os| > |b|
    ensures b[lo..] == Between([b[lo..]], os) && Splice(b, |os|, ns, [], lo) == Between([b[lo..]], ns)
    ensures Clear(b[lo..], "", os)
  {
    var piece := b[lo..];
    assert piece + "" == piece;
    forall j: nat | j < |piece|
      ensures !Occurs(piece + "", os, j)
    {
      if Occurs(piece + "", os, j) {
        Shifted(b, os, lo, |b|, piece + "", j);
      }
    }
  }

  lemma NextPiece(b: string, os: string, ns: string, lo: nat, i: nat, rest: seq<string>)
    requires os != "" && lo <= i <= |b| && (forall j :: lo <= j < i ==> !Occurs(b, os, j)) && Occurs(b, os, i)
    requires rest != [] && b[i + |os|..] == Between(rest, os)
    requires Splice(b, |os|, ns, Greedy(b, os, i + |os|), i + |os|) == Between(rest, ns)
    ensures b[lo..] == Between([b[lo..i]] + rest, os)
    ensures Splice(b, |os|, ns, Greedy(b, os, i), lo) == Between([b[lo..i]] + rest, ns)
    ensures Clear(b[lo..i], os, os)
  {
    hide Occurs, Clear;
    var ps := Greedy(b, os, i);
    assert ([b[lo..i]] + rest)[1..] == rest;
    Unspliced(b, os, lo, i);
    assert ps[0] == i && ps[1..] == Greedy(b, os, i + |os|);
    BeforeMatch(b, os, lo, i);
  }

  /** No occurrence starts before the first one found. */
  lemma BeforeMatch(b: string, os: string, lo: nat, i: nat)
    requires lo <= i <= |b| && (forall j :: lo <= j < i ==> !Occurs(b, os, j)) && Occurs(b, os, i)
    ensures Clear(b[lo..i], os, os)
  {
    var piece := b[lo..i];
    Slices(b, lo, i, i + |os|);
    forall j: nat | j < |piece|
      ensures !Occurs(piece + os, os, j)
    {
      if Occurs(piece + os, os, j) {
        Shifted(b, os, lo, i + |os|, piece + os, j);
      }
    }
  }

  lemma Slices(b: string, lo: nat, i: nat, hi: nat)
    requires lo <= i <= hi <= |b|
    ensures b[lo..i] + b[i..hi] == b[lo..hi]
  {
  }

  /** An occurrence in a part is one in the whole. */
  lemma Shifted(b: string, os: string, lo: nat, hi: nat, part: string, j: nat)
    requires lo <= hi <= |b| && part == b[lo..hi] && Occurs(part, os, j)
    ensures Occurs(b, os, lo + j)
  {
    forall k | 0 <= k < |os|
      ensures b[lo + j + k] == os[k]
    {
      assert part[j..j + |os|][k] == part[j + k];
    }
  }

  // ---------------------------------------------------------------- the line reported

  /** Where the newlines of the first n characters stand. */
  ghost function Breaks(b: string, n: nat): set<int>
    requires n <= |b|
  {
    set j | 0 <= j < n && b[j] == '\n'
  }

  /** The line reported is one more than the newlines before the first occurrence. */
  lemma {:induction false} LineOfFirst(b: string, os: string, p: nat)
    requires os != "" && Occurs(b, os, p) && forall j: nat :: Occurs(b, os, j) ==> p <= j
    ensures FirstLine(b, os) == 1 + |Breaks(b, p)|
  {
    hide Newlines, Breaks;
    var k := GreedyCovers(b, os, 0, p);
    GreedyOccurs(b, os, 0);
    FirstFound(b, os, p, k);
    NewlinesAre(b, p);
  }

  lemma FirstFound(b: string, os: string, p: nat, k: nat)
    requires os != "" && k < |Greedy(b, os, 0)| && Greedy(b, os, 0)[k] <= p && Found(b, os, 0, Greedy(b, os, 0))
    requires forall j: nat :: Occurs(b, os, j) ==> p <= j
    ensures Greedy(b, os, 0)[0] == p
  {
    hide Greedy, Occurs;
    var ps := Greedy(b, os, 0);
    assert Occurs(b, os, ps[0]) && Occurs(b, os, ps[k]);
  }

  lemma {:induction false} NewlinesAre(b: string, n: nat)
    requires n <= |b|
    ensures Newlines(b[..n]) == |Breaks(b, n)|
  {
    if n > 0 {
      NewlinesAre(b, n - 1);
      assert b[..n][..n - 1] == b[..n - 1];
      assert Breaks(b, n) == Breaks(b, n - 1) + if b[n - 1] == '\n' then {n - 1} else {};
    }
  }

  // ---------------------------------------------------------------- the tool

  datatype EditResult = NoOldString | NotFound | Ambiguous(hits: nat) | Edited(text: string, count: nat, line: nat)

  /** The first scan of t_edit. */
  method CountHits(b: string, os: string) returns (hits: nat)
    requires os != ""
    ensures hits == |Greedy(b, os, 0)|
  {
    hits := 0;
    var i := 0;
    while i + |os| <= |b|
      invariant hits + |Greedy(b, os, i)| == |Greedy(b, os, 0)|
      decreases |b| - i
    {
      if b[i..i + |os|] == os {
        hits, i := hits + 1, i + |os|;
      } else {
        i := i + 1;
      }
    }
  }

  /** What the second scan still has to replace. */
  ghost function Remaining(b: string, os: string, i: nat, all: bool, atLine: nat): seq<nat>
    requires os != ""
  {
    if all || atLine == 0 then Chosen(b, os, i, all) else []
  }

  /** The text the second scan still has to put. */
  ghost function Owed(b: string, os: string, ns: string, all: bool, i: nat, atLine: nat): string
    requires os != ""
  {
    Splice(b, |os|, ns, Remaining(b, os, i, all, atLine), i)
  }

  /** The state of the second scan at position i. */
  ghost predicate Midway(b: string, os: string, ns: string, all: bool, i: nat, out: string, line: nat, atLine: nat)
    requires os != ""
  {
    i <= |b| && line == 1 + Newlines(b[..i]) &&
    out + Owed(b, os, ns, all, i, atLine) == Splice(b, |os|, ns, Chosen(b, os, 0, all), 0) &&
    Marked(b, os, i, atLine)
  }

  /** No match before i and none marked, or the line of the first match marked. */
  ghost predicate Marked(b: string, os: string, i: nat, atLine: nat)
    requires os != ""
  {
    if atLine == 0 then Greedy(b, os, i) == Greedy(b, os, 0) else atLine == FirstLine(b, os)
  }

  /** The second scan of t_edit: the new text, and the line of the first replacement. */
  method Rewrite(b: string, os: string, ns: string, all: bool) returns (out: string, atLine: nat)
    requires os != ""
    ensures out == Splice(b, |os|, ns, Chosen(b, os, 0, all), 0)
    ensures atLine == FirstLine(b, os)
  {
    hide Midway, Greedy, Splice, Chosen, Newlines;
    out, atLine := "", 0;
    var line: nat, i: nat := 1, 0;
    AtStart(b, os, ns, all);
    while i < |b|
      invariant i <= |b| && Midway(b, os, ns, all, i, out, line, atLine)
      decreases |b| - i
    {
      if i + |os| <= |b| && b[i..i + |os|] == os && (all || atLine == 0) {
        HitStep(b, os, ns, all, i, out, line, atLine, if atLine == 0 then line else atLine);
        var lines := CountLines(os);
        if atLine == 0 {
          atLine := line;
        }
        out := out + ns;
        line := line + lines;
        i := i + |os|;
      } else {
        MissStep(b, os, ns, all, i, out, line, atLine);
        if b[i] == '\n' {
          line := line + 1;
        }
        out := out + [b[i]];
        i := i + 1;
      }
    }
    AtEnd(b, os, ns, all, i, out, line, atLine);
  }

  /** The inner loop over the replaced characters. */
  method CountLines(os: string) returns (lines: nat)
    ensures lines == Newlines(os)
  {
    lines := 0;
    for k := 0 to |os|
      invariant lines == Newlines(os[..k])
    {
      assert os[..k + 1][..k] == os[..k];
      if os[k] == '\n' {
        lines := lines + 1;
      }
    }
    assert os[..|os|] == os;
  }

  lemma AtStart(b: string, os: string, ns: string, all: bool)
    requires os != ""
    ensures Midway(b, os, ns, all, 0, "", 1, 0)
  {
    assert b[..0] == "";
    var whole := Splice(b, |os|, ns, Chosen(b, os, 0, all), 0);
    assert "" + whole == whole;
  }

  lemma AtEnd(b: string, os: string, ns: string, all: bool, i: nat, out: string, line: nat, atLine: nat)
    requires os != "" && Midway(b, os, ns, all, i, out, line, atLine) && i == |b|
    ensures out == Splice(b, |os|, ns, Chosen(b, os, 0, all), 0)
    ensures atLine == FirstLine(b, os)
  {
    assert Greedy(b, os, i) == [];
    assert out + b[i..] == out;
  }

  lemma {:induction false} NewlinesJoin(s: string, t: string)
    ensures Newlines(s + t) == Newlines(s) + Newlines(t)
  {
    if t == "" {
      assert s + t == s;
    } else {
      assert (s + t)[..|s + t| - 1] == s + t[..|t| - 1];
      NewlinesJoin(s, t[..|t| - 1]);
    }
  }

  /** A replaced match: ns is put, the scan resumes behind it. */
  lemma HitStep(b: string, os: string, ns: string, all: bool, i: nat, out: string, line: nat, atLine: nat, at: nat)
    requires os != "" && Midway(b, os, ns, all, i, out, line, atLine) && Occurs(b, os, i) && (all || atLine == 0)
    requires at == if atLine == 0 then line else atLine
    ensures Midway(b, os, ns, all, i + |os|, out + ns, line + Newlines(os), at)
  {
    hide *;
    Departs(b, os, ns, all, i, out, line, atLine);
    var j, put, lines := i + |os|, out + ns, line + Newlines(os);
    assert j <= |b| && lines == 1 + Newlines(b[..j]) by { HitLines(b, os, i); }
    assert Marked(b, os, j, at) by { HitFirst(b, os, i, line, atLine, at); }
    assert put + Owed(b, os, ns, all, j, at) == out + Owed(b, os, ns, all, i, atLine) by {
      HitSplice(b, os, ns, i, all, atLine, at);
      Append(out, ns, Owed(b, os, ns, all, j, at));
    }
    Arrived(b, os, ns, all, j, put, lines, at);
  }

  lemma HitLines(b: string, os: string, i: nat)
    requires Occurs(b, os, i)
    ensures i + |os| <= |b| && Newlines(b[..i + |os|]) == Newlines(b[..i]) + Newlines(os)
  {
    hide Newlines;
    NewlinesJoin(b[..i], os);
    assert b[..i + |os|] == b[..i] + os;
  }

  lemma HitFirst(b: string, os: string, i: nat, line: nat, atLine: nat, at: nat)
    requires os != "" && Occurs(b, os, i) && Marked(b, os, i, atLine) && line == 1 + Newlines(b[..i])
    requires at == if atLine == 0 then line else atLine
    ensures Marked(b, os, i + |os|, at)
  {
    hide Newlines;
  }

  lemma Departs(b: string, os: string, ns: string, all: bool, i: nat, out: string, line: nat, atLine: nat)
    requires os != "" && Midway(b, os, ns, all, i, out, line, atLine)
    ensures i <= |b| && line == 1 + Newlines(b[..i]) && Marked(b, os, i, atLine)
    ensures out + Owed(b, os, ns, all, i, atLine) == Splice(b, |os|, ns, Chosen(b, os, 0, all), 0)
  {
    hide Splice, Greedy, Chosen, Newlines, Owed, Marked;
  }

  lemma Arrived(b: string, os: string, ns: string, all: bool, i: nat, out: string, line: nat, atLine: nat)
    requires os != "" && i <= |b| && line == 1 + Newlines(b[..i]) && Marked(b, os, i, atLine)
    requires out + Owed(b, os, ns, all, i, atLine) == Splice(b, |os|, ns, Chosen(b, os, 0, all), 0)
    ensures Midway(b, os, ns, all, i, out, line, atLine)
  {
  }

  lemma Append(a: string, b: string, c: string)
    ensures a + b + c == a + (b + c)
  {
  }

  lemma HitSplice(b: string, os: string, ns: string, i: nat, all: bool, atLine: nat, at: nat)
    requires os != "" && Occurs(b, os, i) && (all || atLine == 0) && at > 0
    ensures Owed(b, os, ns, all, i, atLine) == ns + Owed(b, os, ns, all, i + |os|, at)
    ensures Greedy(b, os, i) != [] && Greedy(b, os, i)[0] == i
  {
    hide Splice;
    var ps := Chosen(b, os, i, all);
    assert ps[0] == i;
    assert ps[1..] == Remaining(b, os, i + |os|, all, at);
    SpliceHere(b, |os|, ns, ps);
  }

  lemma SpliceHere(b: string, n: nat, ns: string, ps: seq<nat>)
    requires ps != [] && ps[0] <= |b|
    ensures Splice(b, n, ns, ps, ps[0]) == ns + Splice(b, n, ns, ps[1..], ps[0] + n)
  {
    assert b[ps[0]..ps[0]] == "";
  }

  /** A copied character. */
  lemma MissStep(b: string, os: string, ns: string, all: bool, i: nat, out: string, line: nat, atLine: nat)
    requires os != "" && Midway(b, os, ns, all, i, out, line, atLine) && i < |b|
    requires !(Occurs(b, os, i) && (all || atLine == 0))
    ensures Midway(b, os, ns, all, i + 1, out + [b[i]], if b[i] == '\n' then line + 1 else line, atLine)
  {
    hide Splice;
    MissSplice(b, os, ns, i, all, atLine);
    assert b[..i + 1][..i] == b[..i];
    Append(out, [b[i]], Owed(b, os, ns, all, i + 1, atLine));
  }

  lemma MissSplice(b: string, os: string, ns: string, i: nat, all: bool, atLine: nat)
    requires os != "" && i < |b| && !(Occurs(b, os, i) && (all || atLine == 0))
    ensures Splice(b, |os|, ns, Remaining(b, os, i, all, atLine), i) ==
            [b[i]] + Splice(b, |os|, ns, Remaining(b, os, i + 1, all, atLine), i + 1)
    ensures atLine == 0 ==> Greedy(b, os, i) == Greedy(b, os, i + 1)
  {
    hide Greedy, Splice, Occurs;
    var ps := Remaining(b, os, i, all, atLine);
    if all || atLine == 0 {
      GreedyShort(b, os, i);
    }
    assert ps == Remaining(b, os, i + 1, all, atLine);
    GreedyOccurs(b, os, i + 1);
    SpliceLater(b, |os|, ns, ps, i);
  }

  lemma SpliceLater(b: string, n: nat, ns: string, ps: seq<nat>, i: nat)
    requires i < |b| && (ps != [] ==> i < ps[0])
    ensures Splice(b, n, ns, ps, i) == [b[i]] + Splice(b, n, ns, ps, i + 1)
  {
    assert b[i..] == [b[i]] + b[i + 1..];
    if ps != [] && ps[0] <= |b| {
      assert b[i..ps[0]] == [b[i]] + b[i + 1..ps[0]];
      Reassociate([b[i]], b[i + 1..ps[0]], ns, Splice(b, n, ns, ps[1..], ps[0] + n));
    }
  }

  lemma Reassociate(a: string, p: string, q: string, r: string)
    ensures a + p + q + r == a + (p + q + r)
  {
  }

  lemma GreedyShort(b: string, os: string, i: nat)
    requires os != "" && !Occurs(b, os, i)
    ensures Greedy(b, os, i) == Greedy(b, os, i + 1)
  {
  }

  /** t_edit on the file's bytes b. */
  method Edit(b: string, os: string, ns: string, all: bool) returns (r: EditResult)
    ensures os == "" <==> r.NoOldString?
    ensures r.NotFound? <==> os != "" && forall j: nat :: !Occurs(b, os, j)
    ensures r.Ambiguous? ==> !all && r.hits > 1 && r.hits == |Greedy(b, os, 0)|
    ensures r.Edited? ==>
              r.count == (if all then |Greedy(b, os, 0)| else 1) && r.count > 0 &&
              r.text == Splice(b, |os|, ns, Greedy(b, os, 0), 0) &&
              |r.text| == |b| + r.count * (|ns| - |os|) &&
              r.line == FirstLine(b, os)
    ensures r.Edited? && !all ==> |Greedy(b, os, 0)| == 1
  {
    if os == "" {
      return NoOldString;
    }
    var hits := CountHits(b, os);
    GreedyOccurs(b, os, 0);
    NoneFound(b, os);
    if hits == 0 {
      return NotFound;
    }
    if hits > 1 && !all {
      return Ambiguous(hits);
    }
    var out, line := Rewrite(b, os, ns, all);
    assert Chosen(b, os, 0, all) == Greedy(b, os, 0);
    SpliceSize(b, |os|, ns, Greedy(b, os, 0), 0);
    r := Edited(out, if all then hits else 1, line);
  }

  lemma NoneFound(b: string, os: string)
    requires os != ""
    ensures Greedy(b, os, 0) == [] <==> forall j: nat :: !Occurs(b, os, j)
  {
    if Greedy(b, os, 0) == [] {
      forall j: nat
        ensures !Occurs(b, os, j)
      {
        if Occurs(b, os, j) {
          var k := GreedyCovers(b, os, 0, j);
        }
      }
    } else {
      GreedyOccurs(b, os, 0);
      assert Occurs(b, os, Greedy(b, os, 0)[0]);
    }
  }
}
