/** c/harness.h: textual normalisation of paths, and the workspace fence. */
module Lexical {

  // ---------------------------------------------------------------- components

  /** Number of leading slashes. */
  function Slashes(s: string): (n: nat)
    ensures n <= |s| && (n < |s| ==> s[n] != '/')
  {
    if s != [] && s[0] == '/' then 1 + Slashes(s[1..]) else 0
  }

  /** Length of the leading run without a slash. */
  function SegLen(s: string): (n: nat)
    ensures n <= |s| && '/' !in s[..n] && (n < |s| ==> s[n] == '/')
    ensures s != [] && s[0] != '/' ==> n > 0
  {
    if s != [] && s[0] != '/' then
      assert s[..1 + SegLen(s[1..])] == [s[0]] + s[1..][..SegLen(s[1..])];
      1 + SegLen(s[1..])
    else 0
  }

  /** The components between slashes, empty ones dropped. */
  function Components(s: string): seq<string>
    decreases |s|
  {
    var t := s[Slashes(s)..];
    if t == [] then [] else [t[..SegLen(t)]] + Components(t[SegLen(t)..])
  }

  /** One component applied to the stack of components so far. */
  function Apply(stack: seq<string>, c: string): seq<string> {
    if c == "." then stack
    else if c == ".." then (if stack == [] then [] else stack[..|stack| - 1])
    else stack + [c]
  }

  /** All of them: the path meant. */
  function Fold(stack: seq<string>, cs: seq<string>): seq<string>
    decreases |cs|
  {
    if cs == [] then stack else Fold(Apply(stack, cs[0]), cs[1..])
  }

  function Text(stack: seq<string>): string {
    if stack == [] then "" else "/" + stack[0] + Text(stack[1..])
  }

  /** The text of a path; the root is a lone slash. */
  function Shown(stack: seq<string>): string {
    if stack == [] then "/" else Text(stack)
  }

  /** The component makes the text too long for a buffer of cap characters. */
  predicate Overflows(stack: seq<string>, c: string, cap: nat) {
    c != "." && c != ".." && |Text(stack)| + |c| + 1 >= cap - 1
  }

  /** Fold, giving up at the first component that would not fit. */
  function Capped(stack: seq<string>, cs: seq<string>, cap: nat): seq<string>
    decreases |cs|
  {
    if cs == [] || Overflows(stack, cs[0], cap) then stack else Capped(Apply(stack, cs[0]), cs[1..], cap)
  }

  /** What h_lexical computes. */
  function Normal(s: string, cap: nat): string {
    Shown(Capped([], Components(s), cap))
  }

  // ---------------------------------------------------------------- proper stacks

  predicate Segment(c: string) { c != "" && '/' !in c && '\0' !in c }

  ghost predicate Proper(stack: seq<string>) {
    forall i :: 0 <= i < |stack| ==> Segment(stack[i]) && stack[i] != "." && stack[i] != ".."
  }

  lemma {:induction false} TextPush(stack: seq<string>, c: string)
    ensures Text(stack + [c]) == Text(stack) + "/" + c
  {
    if stack == [] {
      assert (stack + [c])[1..] == [];
    } else {
      TextPush(stack[1..], c);
      assert (stack + [c])[1..] == stack[1..] + [c];
    }
  }

  lemma {:induction false} SlashesOf(s: string, t: string)
    requires t != [] ==> t[0] != '/'
    requires forall i :: 0 <= i < |s| ==> s[i] == '/'
    ensures Slashes(s + t) == |s|
  {
    if s == [] {
      assert s + t == t;
    } else {
      assert (s + t)[1..] == s[1..] + t;
      SlashesOf(s[1..], t);
    }
  }

  lemma {:induction false} SegLenOf(s: string, t: string)
    requires '/' !in s && (t != [] ==> t[0] == '/')
    ensures SegLen(s + t) == |s|
  {
    if s == [] {
      assert s + t == t;
    } else {
      assert (s + t)[1..] == s[1..] + t;
      SegLenOf(s[1..], t);
    }
  }

  /** Parsing the text of a proper stack gives the stack back. */
  lemma {:induction false} ComponentsOfText(stack: seq<string>)
    requires Proper(stack)
    ensures Components(Text(stack)) == stack
  {
    if stack != [] {
      var c, rest := stack[0], Text(stack[1..]);
      assert Segment(stack[0]);
      assert Text(stack) == "/" + (c + rest);
      SlashesOf("/", c + rest);
      assert Text(stack)[1..] == c + rest;
      SegLenOf(c, rest);
      assert (c + rest)[|c|..] == rest;
      ComponentsOfText(stack[1..]);
      assert stack == [c] + stack[1..];
    }
  }

  lemma {:induction false} ComponentsSegments(s: string)
    requires '\0' !in s
    ensures forall i :: 0 <= i < |Components(s)| ==> Segment(Components(s)[i])
    decreases |s|
  {
    hide Segment, Slashes, SegLen;
    var t := s[Slashes(s)..];
    if t != [] {
      FirstSegment(t);
      ComponentsSegments(t[SegLen(t)..]);
    }
  }

  lemma FirstSegment(t: string)
    requires t != [] && t[0] != '/' && '\0' !in t
    ensures SegLen(t) <= |t| && Segment(t[..SegLen(t)])
  {
  }

  lemma {:induction false} CappedProper(stack: seq<string>, cs: seq<string>, cap: nat)
    requires Proper(stack) && forall i :: 0 <= i < |cs| ==> Segment(cs[i])
    ensures Proper(Capped(stack, cs, cap))
    decreases |cs|
  {
    if cs != [] && !Overflows(stack, cs[0], cap) {
      CappedProper(Apply(stack, cs[0]), cs[1..], cap);
    }
  }

  // ---------------------------------------------------------------- capped and uncapped folds

  /** How much text components can come to. */
  function Weight(cs: seq<string>): nat {
    if cs == [] then 0 else |cs[0]| + 1 + Weight(cs[1..])
  }

  lemma {:induction false} ComponentsWeight(s: string)
    ensures Weight(Components(s)) <= |s| + 1
    ensures s != [] && s[0] == '/' ==> Weight(Components(s)) <= |s|
    decreases |s|
  {
    var t := s[Slashes(s)..];
    if t != [] {
      ComponentsWeight(t[SegLen(t)..]);
    }
  }

  lemma ApplyWeight(stack: seq<string>, c: string)
    ensures |Text(Apply(stack, c))| <= |Text(stack)| + |c| + 1
  {
    if c == ".." && stack != [] {
      TextPush(stack[..|stack| - 1], stack[|stack| - 1]);
      assert stack == stack[..|stack| - 1] + [stack[|stack| - 1]];
    } else if c != "." {
      TextPush(stack, c);
    }
  }

  /** Inputs the buffer has room for are folded whole. */
  lemma {:induction false} CappedIsFold(stack: seq<string>, cs: seq<string>, cap: nat)
    requires |Text(stack)| + Weight(cs) + 1 < cap
    ensures Capped(stack, cs, cap) == Fold(stack, cs)
    decreases |cs|
  {
    if cs != [] {
      ApplyWeight(stack, cs[0]);
      CappedIsFold(Apply(stack, cs[0]), cs[1..], cap);
    }
  }

  /** Whatever the input, the result is the fold of its first k components; k falls short only
      when component k does not fit. */
  lemma {:induction false} CappedIsPrefixFold(stack: seq<string>, cs: seq<string>, cap: nat) returns (k: nat)
    ensures k <= |cs| && Capped(stack, cs, cap) == Fold(stack, cs[..k])
    ensures k < |cs| ==> Overflows(Fold(stack, cs[..k]), cs[k], cap)
    decreases |cs|
  {
    if cs == [] || Overflows(stack, cs[0], cap) {
      k := 0;
    } else {
      var j := CappedIsPrefixFold(Apply(stack, cs[0]), cs[1..], cap);
      k := j + 1;
      assert cs[..k][1..] == cs[1..][..j];
    }
  }

  /** A path that is already in normal form and one character too long: its text and the terminator
      fill the buffer. */
  predicate Brimful(cs: seq<string>, cap: nat) {
    cs != [] && |Text(cs)| + 1 == cap && forall i :: 0 <= i < |cs| ==> cs[i] != "." && cs[i] != ".."
  }

  lemma {:induction false} WeightIsText(cs: seq<string>)
    ensures Weight(cs) == |Text(cs)|
  {
    if cs != [] {
      WeightIsText(cs[1..]);
    }
  }

  /** At the boundary the last component is lost, unless some "." or ".." made room before it. */
  lemma {:induction false} CappedNear(stack: seq<string>, cs: seq<string>, cap: nat)
    requires |Text(stack)| + Weight(cs) + 1 == cap
    ensures if cs != [] && forall i :: 0 <= i < |cs| ==> cs[i] != "." && cs[i] != ".."
            then Fold(stack, cs) == stack + cs && Capped(stack, cs, cap) == stack + cs[..|cs| - 1]
            else Capped(stack, cs, cap) == Fold(stack, cs)
    decreases |cs|
  {
    if cs != [] {
      var c, rest := cs[0], cs[1..];
      assert cs == [c] + rest;
      if c == "." || c == ".." {
        ApplyWeight(stack, c);
        Shrinks(stack, c);
        CappedIsFold(Apply(stack, c), rest, cap);
      } else if rest != [] {
        TextPush(stack, c);
        assert Weight(rest) > 0;
        CappedNear(stack + [c], rest, cap);
        assert stack + [c] + rest == stack + cs && stack + [c] + rest[..|rest| - 1] == stack + cs[..|cs| - 1];
      }
    }
  }

  lemma Shrinks(stack: seq<string>, c: string)
    requires c == "." || c == ".."
    ensures |Text(Apply(stack, c))| <= |Text(stack)|
  {
    if stack != [] {
      TextPush(stack[..|stack| - 1], stack[|stack| - 1]);
      assert stack == stack[..|stack| - 1] + [stack[|stack| - 1]];
    }
  }

  /** What normalisation gives for every path the buffer has room for. */
  lemma NormalStack(s: string, cap: nat)
    requires |s| + (if s != [] && s[0] == '/' then 0 else 1) < cap
    ensures var cs := Components(s);
            if Brimful(cs, cap) then Fold([], cs) == cs && Capped([], cs, cap) == cs[..|cs| - 1]
            else Capped([], cs, cap) == Fold([], cs)
  {
    hide Components, Capped, Fold, Weight;
    var cs := Components(s);
    ComponentsWeight(s);
    WeightIsText(cs);
    if Weight(cs) + 1 == cap {
      CappedNear([], cs, cap);
      assert [] + cs == cs && [] + cs[..|cs| - 1] == cs[..|cs| - 1];
    } else {
      CappedIsFold([], cs, cap);
    }
  }

  lemma {:induction false} ComponentsNonEmpty(s: string)
    ensures forall i :: 0 <= i < |Components(s)| ==> Components(s)[i] != ""
    decreases |s|
  {
    hide Slashes, SegLen, Components;
    var t := s[Slashes(s)..];
    if t == [] {
      SlashesCover(s);
      assert s + "" == s;
      OnlySlashes(s, "");
    } else {
      FirstComponent(s);
      ComponentsNonEmpty(t[SegLen(t)..]);
    }
  }

  /** For every path that fits, a relative one with the separator it gains, normalisation is the
      component fold, exactly unless the path already is a normal form that fills the buffer. */
  lemma {:induction false} NormalIsFold(s: string, cap: nat)
    requires |s| + (if s != [] && s[0] == '/' then 0 else 1) < cap
    ensures Normal(s, cap) == Shown(Fold([], Components(s))) <==> !Brimful(Components(s), cap)
  {
    hide Components, Capped, Fold;
    NormalStack(s, cap);
    ComponentsNonEmpty(s);
    var cs := Components(s);
    if Brimful(cs, cap) {
      LastShows(cs);
    }
  }

  lemma LastShows(cs: seq<string>)
    requires cs != [] && cs[|cs| - 1] != ""
    ensures Shown(cs[..|cs| - 1]) != Shown(cs)
  {
    var front, last := cs[..|cs| - 1], cs[|cs| - 1];
    assert cs == front + [last];
    TextPush(front, last);
  }

  // ---------------------------------------------------------------- "." and ".."

  /** A text cut where a slash follows has the components of its two parts. */
  lemma {:induction false} ComponentsJoin(a: string, b: string)
    requires b == "" || b[0] == '/'
    ensures Components(a + b) == Components(a) + Components(b)
    decreases |a|
  {
    hide Slashes, SegLen, Components;
    var t := a[Slashes(a)..];
    if t == [] {
      SlashesCover(a);
      OnlySlashes(a, b);
    } else {
      var n := SegLen(t);
      FirstComponent(a);
      ComponentsJoin(t[n..], b);
      SplitSlashes(a, b);
      SplitSegment(t, b);
      assert (a + b)[Slashes(a)..] == t + b && (t + b)[n..] == t[n..] + b && (t + b)[..n] == t[..n];
      FirstComponent(a + b);
    }
  }

  lemma FirstComponent(s: string)
    ensures var t := s[Slashes(s)..];
            t != [] ==> |t[SegLen(t)..]| < |s| && Components(s) == [t[..SegLen(t)]] + Components(t[SegLen(t)..])
  {
  }

  lemma SlashesCover(a: string)
    requires a[Slashes(a)..] == []
    ensures Slashes(a) == |a|
  {
  }

  /** Leading slashes do not matter. */
  lemma {:induction false} OnlySlashes(a: string, b: string)
    requires Slashes(a) == |a|
    ensures Components(a + b) == Components(b) && Components(a) == []
    decreases |a|
  {
    if a == [] {
      assert a + b == b;
    } else {
      assert (a + b)[1..] == a[1..] + b;
      OnlySlashes(a[1..], b);
      SkipOne(a + b);
      SkipOne(a);
    }
  }

  lemma SkipOne(s: string)
    requires s != [] && s[0] == '/'
    ensures Components(s) == Components(s[1..])
  {
    hide SegLen;
    assert s[1..][Slashes(s[1..])..] == s[Slashes(s)..];
  }

  lemma {:induction false} SplitSlashes(a: string, b: string)
    requires Slashes(a) < |a|
    ensures Slashes(a + b) == Slashes(a)
  {
    if a[0] == '/' {
      assert (a + b)[1..] == a[1..] + b;
      SplitSlashes(a[1..], b);
    }
  }

  lemma {:induction false} SplitSegment(t: string, b: string)
    requires b == "" || b[0] == '/'
    ensures SegLen(t + b) == SegLen(t)
  {
    if t == [] {
      assert t + b == b;
    } else if t[0] != '/' {
      assert (t + b)[1..] == t[1..] + b;
      SplitSegment(t[1..], b);
    }
  }

  /** A "." between two parts of a path changes no normal form, whatever the buffer. */
  lemma {:induction false} DotChangesNothing(a: string, b: string, cap: nat)
    requires b == "" || b[0] == '/'
    ensures Normal(a + "/." + b, cap) == Normal(a + b, cap)
  {
    hide Components, Capped;
    var dot := "/." + b;
    assert a + "/." + b == a + dot;
    ComponentsJoin(a, dot);
    ComponentsJoin("/.", b);
    ComponentsJoin(a, b);
    DotComponent();
    assert Components(dot) == ["."] + Components(b);
    CappedDot([], Components(a), Components(b), cap);
  }

  lemma DotComponent()
    ensures Components("/.") == ["."]
  {
    SlashesOf("/", ".");
    SegLenOf(".", "");
    assert "/" + "." == "/." && "/."[1..] == "." && "." + "" == ".";
    assert Components("") == [];
  }

  lemma {:induction false} CappedDot(stack: seq<string>, cs: seq<string>, ds: seq<string>, cap: nat)
    ensures Capped(stack, cs + (["."] + ds), cap) == Capped(stack, cs + ds, cap)
    decreases |cs|
  {
    if cs == [] {
      assert cs + (["."] + ds) == ["."] + ds && cs + ds == ds && (["."] + ds)[1..] == ds;
    } else {
      assert (cs + (["."] + ds))[1..] == cs[1..] + (["."] + ds) && (cs + ds)[1..] == cs[1..] + ds;
      CappedDot(Apply(stack, cs[0]), cs[1..], ds, cap);
    }
  }

  /** A component and ".." behind it go away together, and ".." at the root stays there. */
  lemma {:induction false} ParentUndoes(stack: seq<string>, cs: seq<string>, c: string, ds: seq<string>)
    requires c != "." && c != ".."
    ensures Fold(stack, cs + ([c, ".."] + ds)) == Fold(stack, cs + ds)
    ensures Fold([], [".."] + ds) == Fold([], ds)
    decreases |cs|
  {
    assert ([".."] + ds)[1..] == ds;
    if cs == [] {
      assert cs + ([c, ".."] + ds) == [c, ".."] + ds && cs + ds == ds;
      assert ([c, ".."] + ds)[1..] == [".."] + ds;
      assert (stack + [c])[..|stack|] == stack;
    } else {
      assert (cs + ([c, ".."] + ds))[1..] == cs[1..] + ([c, ".."] + ds) && (cs + ds)[1..] == cs[1..] + ds;
      ParentUndoes(Apply(stack, cs[0]), cs[1..], c, ds);
    }
  }

  // ---------------------------------------------------------------- idempotence

  lemma {:induction false} CappedFits(stack: seq<string>, cs: seq<string>, cap: nat)
    requires |Text(stack)| + 1 < cap
    ensures |Text(Capped(stack, cs, cap))| + 1 < cap
    decreases |cs|
  {
    if cs != [] && !Overflows(stack, cs[0], cap) {
      if cs[0] != "." && cs[0] != ".." {
        TextPush(stack, cs[0]);
      } else if stack != [] {
        TextPush(stack[..|stack| - 1], stack[|stack| - 1]);
        assert stack == stack[..|stack| - 1] + [stack[|stack| - 1]];
      }
      CappedFits(Apply(stack, cs[0]), cs[1..], cap);
    }
  }

  lemma {:induction false} TextAppend(a: seq<string>, b: seq<string>)
    ensures Text(a + b) == Text(a) + Text(b)
  {
    if a == [] {
      assert a + b == b;
    } else {
      assert (a + b)[1..] == a[1..] + b;
      TextAppend(a[1..], b);
    }
  }

  /** Folding a proper stack that fits just pushes it. */
  lemma {:induction false} CappedPushes(stack: seq<string>, cs: seq<string>, cap: nat)
    requires Proper(cs) && |Text(stack)| + |Text(cs)| + 1 < cap
    ensures Capped(stack, cs, cap) == stack + cs
    decreases |cs|
  {
    if cs != [] {
      TextPush(stack, cs[0]);
      assert Text(cs) == "/" + cs[0] + Text(cs[1..]);
      CappedPushes(stack + [cs[0]], cs[1..], cap);
      assert stack + [cs[0]] + cs[1..] == stack + cs;
    }
  }

  lemma ShownComponents(stack: seq<string>)
    requires Proper(stack)
    ensures Components(Shown(stack)) == stack
  {
    if stack == [] {
      SlashesOf("/", "");
    } else {
      ComponentsOfText(stack);
    }
  }

  /** Normalising twice is normalising once, whether or not the input fits. */
  lemma Idempotent(s: string, cap: nat)
    requires '\0' !in s && cap >= 2
    ensures Normal(Normal(s, cap), cap) == Normal(s, cap)
  {
    hide Capped, Components, Slashes, SegLen, Overflows;
    var root: seq<string>, cs := [], Components(s);
    var stack := Capped(root, cs, cap);
    ComponentsSegments(s);
    CappedProper(root, cs, cap);
    CappedFits(root, cs, cap);
    ShownComponents(stack);
    CappedPushes(root, stack, cap);
    assert root + stack == stack;
    assert Capped(root, Components(Shown(stack)), cap) == stack;
  }

  // ---------------------------------------------------------------- the fence

  /** h_in. An unset root is the empty string. */
  predicate In(abs: string, root: string) {
    root != "" && root <= abs && (|abs| == |root| || abs[|root|] == '/')
  }

  /** Text(rs) is a prefix of Text(ps) ending at a component boundary. */
  ghost predicate AtBoundary(ps: seq<string>, rs: seq<string>) {
    Text(rs) <= Text(ps) && (|Text(ps)| == |Text(rs)| || Text(ps)[|Text(rs)|] == '/')
  }

  lemma {:induction false} BoundaryIsPrefix(ps: seq<string>, rs: seq<string>)
    requires Proper(ps) && Proper(rs)
    ensures AtBoundary(ps, rs) <==> rs <= ps
  {
    if rs != [] && ps != [] {
      var r, p, rt, pt := rs[0], ps[0], Text(rs[1..]), Text(ps[1..]);
      assert Segment(rs[0]) && Segment(ps[0]);
      assert Text(rs) == "/" + r + rt && Text(ps) == "/" + p + pt;
      BoundaryIsPrefix(ps[1..], rs[1..]);
      assert rs == [r] + rs[1..] && ps == [p] + ps[1..];
      if r == p {
        PrefixCancel("/" + r, rt, pt);
      } else if AtBoundary(ps, rs) {
        HeadsAgree(r, p, rt, pt);
      }
    }
  }

  lemma PrefixCancel(h: string, a: string, b: string)
    ensures h + a <= h + b <==> a <= b
    ensures a <= b && |a| < |b| ==> (h + b)[|h + a|] == b[|a|]
  {
    if h + a <= h + b {
      assert forall i :: 0 <= i < |a| ==> a[i] == (h + a)[|h| + i] == (h + b)[|h| + i] == b[i];
    }
    if a <= b {
      assert h + b == h + a + b[|a|..];
    }
  }

  /** Two slash-free heads, one text a prefix of the other up to a boundary: same head. */
  lemma HeadsAgree(r: string, p: string, rt: string, pt: string)
    requires '/' !in r && '/' !in p && (rt != "" ==> rt[0] == '/') && (pt != "" ==> pt[0] == '/')
    requires var a, b := "/" + r + rt, "/" + p + pt; a <= b && (|a| == |b| || b[|a|] == '/')
    ensures r == p
  {
    var a, b := "/" + r + rt, "/" + p + pt;
    var rest := rt + b[|a|..];
    assert b == a + b[|a|..];
    assert r + rest == b[1..] == p + pt;
    SegLenOf(r, rest);
    SegLenOf(p, pt);
    assert r == (r + rest)[..|r|] && p == (p + pt)[..|p|];
  }

  /** For normal forms the fence is containment of component lists, except that nothing but "/"
      itself is inside the root "/". */
  lemma InIffPrefix(ps: seq<string>, rs: seq<string>)
    requires Proper(ps) && Proper(rs)
    ensures In(Shown(ps), Shown(rs)) <==> rs <= ps && (rs == [] ==> ps == [])
  {
    BoundaryIsPrefix(ps, rs);
    if rs == [] && ps != [] {
      assert Segment(ps[0]);
      assert Shown(ps)[1] == ps[0][0];
    }
  }

  /** The fence on a normalised path, for every path that fits: it admits only what lies inside the
      root, and all of that, except that "/" has nothing but itself inside and that a path filling
      the buffer is judged without its last component. */
  lemma {:induction false} Fence(s: string, cap: nat, rs: seq<string>)
    requires '\0' !in s && |s| + (if s != [] && s[0] == '/' then 0 else 1) < cap && Proper(rs)
    ensures var ps := Fold([], Components(s));
            In(Normal(s, cap), Shown(rs)) <==>
              rs <= ps && (rs == ps ==> !Brimful(ps, cap)) && (rs == [] ==> ps == [] || (|ps| == 1 && Brimful(ps, cap)))
    ensures In(Normal(s, cap), Shown(rs)) ==> rs <= Fold([], Components(s))
  {
    hide Components, Capped, Fold, In, Overflows, Text;
    var cs := Components(s);
    ComponentsSegments(s);
    CappedProper([], cs, cap);
    NormalStack(s, cap);
    InIffPrefix(Capped([], cs, cap), rs);
    if !Brimful(cs, cap) {
      TextOfNone();
      CappedFits([], cs, cap);
    } else {
      assert cs == cs[..|cs| - 1] + [cs[|cs| - 1]];
    }
  }

  /** A normal form comes back unchanged exactly when two characters of the buffer stay free: one
      for the terminator, and one the code asks for but never writes. */
  lemma {:induction false} NormalFormKept(stack: seq<string>, cap: nat)
    requires Proper(stack) && cap >= 2
    ensures Normal(Shown(stack), cap) == Shown(stack) <==> stack == [] || |Shown(stack)| + 1 < cap
  {
    hide Components, Capped, Slashes, SegLen, Overflows;
    ShownComponents(stack);
    if stack == [] {
      assert Capped([], stack, cap) == [] by { NothingToFold(stack, cap); }
    } else if |Shown(stack)| + 1 < cap {
      CappedPushes([], stack, cap);
      assert [] + stack == stack;
    } else {
      CappedFits([], stack, cap);
      ShownSize(Capped([], stack, cap));
    }
  }

  /** A normal form that would fill the buffer exactly loses its last component. */
  lemma {:induction false} LastComponentLost(stack: seq<string>, cap: nat)
    requires Proper(stack) && stack != [] && cap == |Shown(stack)| + 1
    ensures Normal(Shown(stack), cap) == Shown(stack[..|stack| - 1])
  {
    hide Components, Capped, Slashes, SegLen, Overflows, Text;
    ShownComponents(stack);
    WeightIsText(stack);
    TextOfNone();
    CappedNear([], stack, cap);
    assert [] + stack[..|stack| - 1] == stack[..|stack| - 1];
  }

  lemma TextOfNone()
    ensures Text([]) == ""
  {
  }

  lemma NothingToFold(cs: seq<string>, cap: nat)
    requires cs == []
    ensures Capped([], cs, cap) == []
  {
  }

  lemma ShownSize(stack: seq<string>)
    ensures |Shown(stack)| == if |Text(stack)| == 0 then 1 else |Text(stack)|
  {
  }

  // ---------------------------------------------------------------- in place

  /** The buffer holds the C string t. */
  predicate Spells(buf: seq<char>, t: string) {
    |t| < |buf| && buf[..|t|] == t && buf[|t|] == '\0' && '\0' !in t
  }

  method SkipSlashes(s: string, p: nat) returns (q: nat)
    requires p <= |s|
    ensures q == p + Slashes(s[p..])
  {
    q := p;
    while q < |s| && s[q] == '/'
      invariant p <= q <= |s| && q + Slashes(s[q..]) == p + Slashes(s[p..])
    {
      assert s[q..][1..] == s[q + 1..];
      q := q + 1;
    }
  }

  method SegmentEnd(s: string, p: nat) returns (e: nat)
    requires p <= |s|
    ensures e == p + SegLen(s[p..])
  {
    e := p;
    while e < |s| && s[e] != '/'
      invariant p <= e <= |s| && e + SegLen(s[e..]) == p + SegLen(s[p..])
    {
      assert s[e..][1..] == s[e + 1..];
      e := e + 1;
    }
  }

  lemma NulEnds(buf: seq<char>, t: string, i: nat)
    requires Spells(buf, t) && i <= |t| && buf[i] == '\0'
    ensures i == |t|
  {
    assert forall j :: 0 <= j < |t| ==> buf[j] == buf[..|t|][j] == t[j] && t[j] != '\0';
  }

  /** k is the place of t's last slash, or -1. */
  ghost predicate IsLastSlash(t: string, k: int) {
    -1 <= k < |t| && (k >= 0 ==> t[k] == '/') && '/' !in t[k + 1..]
  }

  /** strrchr(out, '/'), or -1. */
  method LastSlash(out: array<char>, ghost t: string) returns (k: int)
    requires Spells(out[..], t)
    ensures IsLastSlash(t, k)
  {
    k := -1;
    var i := 0;
    while out[i] != '\0'
      invariant i <= |t| && -1 <= k < i && (k >= 0 ==> t[k] == '/') && '/' !in t[k + 1..i]
      decreases |t| - i
    {
      assert out[i] == out[..][..|t|][i] == t[i];
      assert t[k + 1..i + 1] == t[k + 1..i] + [t[i]];
      if out[i] == '/' {
        k := i;
      }
      i := i + 1;
    }
    NulEnds(out[..], t, i);
    assert t[k + 1..i] == t[k + 1..];
  }

  method StrLen(out: array<char>, ghost t: string) returns (n: nat)
    requires Spells(out[..], t)
    ensures n == |t|
  {
    n := 0;
    while out[n] != '\0'
      invariant n <= |t|
      decreases |t| - n
    {
      assert n < |t|;
      n := n + 1;
    }
    NulEnds(out[..], t, n);
  }

  lemma {:induction false} TextClean(stack: seq<string>)
    requires Proper(stack)
    ensures '\0' !in Text(stack)
  {
    if stack != [] {
      assert Segment(stack[0]);
      TextClean(stack[1..]);
    }
  }

  lemma LastSlashOf(a: string, c: string, k: int)
    requires '/' !in c && IsLastSlash(a + "/" + c, k)
    ensures k == |a| && (a + "/" + c)[..k] == a
  {
    var t := a + "/" + c;
    assert forall j :: k < j < |t| ==> t[j] == t[k + 1..][j - k - 1] != '/';
    assert forall j :: |a| < j < |t| ==> t[j] == c[j - |a| - 1] != '/';
    assert t[|a|] == '/';
  }

  /** Cutting the text at its last slash drops the last component. */
  lemma {:induction false} CutAtSlash(stack: seq<string>, k: int)
    requires Proper(stack) && IsLastSlash(Text(stack), k)
    ensures if k >= 0 then Text(Apply(stack, "..")) == Text(stack)[..k] else stack == []
  {
    if stack != [] {
      var front, last, t := stack[..|stack| - 1], stack[|stack| - 1], Text(stack);
      assert stack == front + [last] && Segment(last);
      TextPush(front, last);
      LastSlashOf(Text(front), last, k);
    }
  }

  /** The ".." branch: pop one component. */
  method Pop(out: array<char>, ghost stack: seq<string>) returns (w: nat)
    requires Proper(stack) && Spells(out[..], Text(stack))
    modifies out
    ensures Spells(out[..], Text(Apply(stack, ".."))) && w == |Text(Apply(stack, ".."))| <= |Text(stack)|
    ensures Proper(Apply(stack, ".."))
  {
    ghost var was := out[..];
    var slash := LastSlash(out, Text(stack));
    CutAtSlash(stack, slash);
    if slash >= 0 {
      out[slash] := '\0';
      assert out[..][..slash] == was[..|Text(stack)|][..slash];
    } else {
      out[0] := '\0';
    }
    w := StrLen(out, Text(Apply(stack, "..")));
  }

  /** The last branch: a slash, then the component. */
  method Push(out: array<char>, w0: nat, ghost stack: seq<string>, seg: string) returns (w: nat)
    requires Proper(stack + [seg]) && Spells(out[..], Text(stack)) && w0 == |Text(stack)|
    requires w0 + |seg| + 1 < out.Length
    modifies out
    ensures Spells(out[..], Text(stack + [seg])) && w == |Text(stack + [seg])| == w0 + |seg| + 1
  {
    ghost var was := out[..];
    out[w0] := '/';
    for i := 0 to |seg|
      invariant out[..w0] == was[..w0] && out[w0] == '/'
      invariant out[w0 + 1..w0 + 1 + i] == seg[..i]
    {
      out[w0 + 1 + i] := seg[i];
      assert out[w0 + 1..w0 + 1 + i + 1] == out[w0 + 1..w0 + 1 + i] + [seg[i]];
    }
    w := w0 + 1 + |seg|;
    out[w] := '\0';
    TextPush(stack, seg);
    TextClean(stack + [seg]);
    assert out[..w] == out[..w0] + ['/'] + out[w0 + 1..w];
    assert seg[..|seg|] == seg;
  }

  /** Where the next component lies. */
  lemma {:induction false} NextComponent(s: string, p: nat, q: nat)
    requires p <= |s| && q == p + Slashes(s[p..])
    ensures q == |s| ==> Components(s[p..]) == []
    ensures q < |s| ==> var e := q + SegLen(s[q..]);
              q < e <= |s| && Components(s[p..]) == [s[q..e]] + Components(s[e..]) && '/' !in s[q..e]
  {
    hide Slashes, SegLen;
    var t := s[p..];
    assert t[Slashes(t)..] == s[q..];
    if q < |s| {
      var e := q + SegLen(s[q..]);
      assert s[q..][..SegLen(s[q..])] == s[q..e];
      assert s[q..][SegLen(s[q..])..] == s[e..];
    }
  }

  /** The loop's state: the buffer spells the stack, and the rest of the input leads from there to
      the answer. */
  ghost predicate Midway(s: string, p: nat, buf: seq<char>, w: nat, stack: seq<string>, all: seq<string>) {
    p <= |s| && Proper(stack) && Spells(buf, Text(stack)) && w == |Text(stack)| && w + 1 < |buf| &&
    Capped(stack, Components(s[p..]), |buf|) == all
  }

  /** Out of input: the stack is the answer. */
  lemma NoneLeft(s: string, p: nat, buf: seq<char>, w: nat, stack: seq<string>, all: seq<string>)
    requires Midway(s, p, buf, w, stack, all) && (p == |s| || Components(s[p..]) == [])
    ensures stack == all
  {
  }

  /** One component [q..e] consumed. */
  lemma Consume(s: string, p: nat, q: nat, e: nat, buf: seq<char>, w: nat, stack: seq<string>, all: seq<string>)
    requires Midway(s, p, buf, w, stack, all) && '\0' !in s
    requires q < e <= |s| && Components(s[p..]) == [s[q..e]] + Components(s[e..]) && '/' !in s[q..e]
    ensures Overflows(stack, s[q..e], |buf|) ==> stack == all
    ensures !Overflows(stack, s[q..e], |buf|) ==> Capped(Apply(stack, s[q..e]), Components(s[e..]), |buf|) == all
    ensures s[q..e] != "." && s[q..e] != ".." ==> Proper(stack + [s[q..e]])
  {
    hide Components, Capped, Overflows, Text, Spells;
    CappedStep(stack, s[q..e], Components(s[e..]), |buf|);
    assert Segment(s[q..e]);
  }

  lemma CappedStep(stack: seq<string>, c: string, rest: seq<string>, cap: nat)
    ensures Capped(stack, [c] + rest, cap) ==
            if Overflows(stack, c, cap) then stack else Capped(Apply(stack, c), rest, cap)
  {
    hide Overflows, Apply;
    assert ([c] + rest)[1..] == rest;
  }

  /** h_lexical: the buffer ends up spelling the normal form. */
  method Lexical(s: string, out: array<char>)
    requires '\0' !in s && out.Length >= 2
    modifies out
    ensures Spells(out[..], Normal(s, out.Length))
  {
    hide Components, Capped, Proper, Text, Spells;
    var w: nat, p: nat := 0, 0;
    out[w] := '\0';
    ghost var stack: seq<string>, cs := [], Components(s);
    ghost var all := Capped(stack, cs, out.Length);
    Begin(s, out[..]);
    while p < |s|
      invariant Midway(s, p, out[..], w, stack, all)
      decreases |s| - p
    {
      var q := SkipSlashes(s, p);
      NextComponent(s, p, q);
      if q == |s| {
        NoneLeft(s, p, out[..], w, stack, all);
        break;
      }
      var e := SegmentEnd(s, q);
      var seg := s[q..e];
      Consume(s, p, q, e, out[..], w, stack, all);
      p := e;
      if seg == ".." {
        w := Pop(out, stack);
        stack := Apply(stack, seg);
      } else if seg != "." {
        if w + |seg| + 1 >= out.Length - 1 {
          break;
        }
        w := Push(out, w, stack, seg);
        stack := stack + [seg];
      }
    }
    assert stack == all by {
      if p == |s| && Midway(s, p, out[..], w, stack, all) {
        NoneLeft(s, p, out[..], w, stack, all);
      }
    }
    RootIfEmpty(out, stack);
  }

  /** An empty result is the root. */
  method RootIfEmpty(out: array<char>, ghost stack: seq<string>)
    requires out.Length >= 2 && Spells(out[..], Text(stack))
    modifies out
    ensures Spells(out[..], Shown(stack))
  {
    if out[0] == '\0' {
      NulEnds(out[..], Text(stack), 0);
      out[0], out[1] := '/', '\0';
    }
  }

  lemma Begin(s: string, buf: seq<char>)
    requires |buf| >= 2 && buf[0] == '\0'
    ensures Midway(s, 0, buf, 0, [], Capped([], Components(s), |buf|))
  {
    assert s[0..] == s;
  }
}
