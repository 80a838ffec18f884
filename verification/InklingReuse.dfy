/** What prefix reuse can change in a session: for any start-up that pins and any lengths of the
    prompts of a growing conversation, a model on which the engine exits at the last prompt because of
    the reuse, and one on which it would exit without, unless the lengths fill whole rounds. */
module InklingReuse {
  import opened Wrappers
  import opened ExpertCache
  import opened InklingLayer
  import opened InklingReference
  import opened Moe
  import opened MoeReuse
  import opened MoeRounds
  import opened ReuseSteps
  import opened ReuseTables

  /** One sparse layer whose block sees token i as row [i]. */
  function OneLayer(e: Sparse): Layer {
    Layer(false, 0, (r: Row, h: nat) => r, [], [], (r: Row) => r,
          (r: Row) => r, (w: seq<Row>) => [], (r: Row) => r, (r: Row) => r, (w: seq<Row>) => [],
          (r: Row, q: nat, ks: seq<seq<Row>>, vs: seq<seq<Row>>) => r, (w: seq<Row>) => [],
          (r: Row) => r, Mixture(e), (w: seq<Row>) => [], (a: Row, r: Row) => a)
  }

  function OneLayerModel(e: Sparse, ctxMax: nat): Config {
    Config([OneLayer(e)], 0, 0, (t: Token) => [t.id as real], (n: nat) => 1, (r: Row) => [], false, 0, 0, ctxMax)
  }

  /** The prompt 0, 1, .., n - 1, with one token to generate. */
  function Prompt(n: nat): Request {
    Request(Counting(n), [], 1, (l: seq<real>, ids: seq<int>) => 1, (s: nat) => false, true)
  }

  function Counting(n: nat): (ids: seq<int>)
    ensures |ids| == n
  {
    seq(n, i => i)
  }

  lemma PassThrough(e: Sparse, window: int, p: nat, past: seq<Row>, xs: seq<Row>)
    ensures FeedInput(OneLayer(e), window, p, past, xs) == xs
  {
    var l := OneLayer(e);
    var all := past + xs;
    assert Run(l, window, p, all).mid == all;
    assert all[|past|..] == xs;
  }

  /** The embedded prompt. */
  lemma {:induction false} PromptTokens(c: Config, ids: seq<int>)
    requires !c.hasAudio
    ensures |Tokens(c, ids, [])| == |ids| && forall i :: 0 <= i < |ids| ==> Tokens(c, ids, [])[i] == Text(ids[i])
  {
    if ids != [] {
      PromptTokens(c, ids[1..]);
    }
  }

  /** With one layer a step fits exactly when that layer does. */
  lemma OneLayerStep(e: Sparse, b: Bounds, ctxMax: nat, past: seq<Token>, toks: seq<Token>)
    ensures var c := OneLayerModel(e, ctxMax);
            StepFits(c, [b], past, toks) <==> FeedFits(Mixture(e), b, Embeds(c, toks))
  {
    hide FeedFits, FeedInput;
    var c := OneLayerModel(e, ctxMax);
    assert Embeds(c, past + toks)[|past|..] == Embeds(c, toks);
    PassThrough(e, 0, 0, Embeds(c, past), Embeds(c, toks));
    FirstInput(c, past);
    FirstInput(c, past + toks);
    var i: nat := |past| - |past|;
    assert LayerFits(c, b, i, past, toks) <==> FeedFits(Mixture(e), b, Embeds(c, toks));
    assert [b][i] == b;
  }

  lemma FirstInput(c: Config, toks: seq<Token>)
    ensures At(c, toks, 0) == Embeds(c, toks)
  {
  }

  /** The last tokens of a prompt, as they reach the layer. */
  lemma PromptRows(e: Sparse, ctxMax: nat, n: nat, k: nat)
    requires k <= n
    ensures var c := OneLayerModel(e, ctxMax);
            var all := Tokens(c, Counting(n), []);
            |all| == n && Embeds(c, all[k..]) == Numbered(n)[k..] && IdsOf(all) == Counting(n)
  {
    var c := OneLayerModel(e, ctxMax);
    PromptTokens(c, Counting(n));
  }

  /** The prompt of n tokens is admitted, and its one generated token is not fed back. */
  lemma PromptOnly(c: Config, bs: seq<Bounds>, n: nat)
    requires 0 < n < c.ctxMax && !c.hasAudio
    ensures var r := Prompt(n);
            !Refused(c, r) && r.ids == Counting(n) && r.frames == [] && r.haveMemory &&
            GenerateFits(c, bs, r, Tokens(c, r.ids, []), [], 0) &&
            Consumed(c, r, Tokens(c, r.ids, []), [], 0) == Tokens(c, r.ids, [])
  {
  }

  /** Whether it gets through when the first k of its tokens are known, and what it leaves. */
  lemma PromptServed(e: Sparse, b: Bounds, ctxMax: nat, n: nat, k: nat, mem: Memory)
    requires k < n < ctxMax && mem.known == Counting(k) && (mem.maxT == 0 || mem.recorded)
    ensures RequestFits(OneLayerModel(e, ctxMax), [b], mem, Prompt(n)) <==> FeedFits(Mixture(e), b, Numbered(n)[k..])
    ensures var after := After(OneLayerModel(e, ctxMax), mem, Prompt(n)); after.recorded && after.known == Counting(n)
  {
    hide Tokens, FeedFits, StepFits, GenerateFits, Consumed, Refused, IdsOf, Embeds, OneLayerModel;
    var c := OneLayerModel(e, ctxMax);
    var all := Tokens(c, Counting(n), []);
    ModelShape(e, ctxMax);
    PromptOnly(c, [b], n);
    PromptRows(e, ctxMax, n, k);
    OneLayerStep(e, b, ctxMax, all[..k], all[k..]);
    assert Counting(k) <= Counting(n);
    assert Reusable(Opened(mem, Prompt(n)).known, Counting(n), []) == k;
  }

  lemma ModelShape(e: Sparse, ctxMax: nat)
    ensures OneLayerModel(e, ctxMax).ctxMax == ctxMax && !OneLayerModel(e, ctxMax).hasAudio
  {
  }

  lemma NothingKnown()
    ensures Fresh.known == Counting(0) && Fresh.maxT == 0
  {
  }

  // ---------------------------------------------------------------- a growing conversation

  /** Every prompt is longer than the one before. */
  ghost predicate Rising(ends: seq<nat>) {
    forall i :: 0 <= i < |ends| ==> From(ends, i) < ends[i]
  }

  /** The prompts of these lengths, one after the other. */
  function Prompts(ends: seq<nat>): (rs: seq<Request>)
    ensures |rs| == |ends|
  {
    seq(|ends|, i requires 0 <= i < |ends| => Prompt(ends[i]))
  }

  lemma NumberedSlice(n: nat, lo: nat, hi: nat)
    requires lo <= hi <= n
    ensures Numbered(hi)[lo..] == Numbered(n)[lo..hi]
  {
  }

  /** From prompt i on: the earlier prompts are all answered, the last one if what is left of it fits. */
  lemma {:induction false} Conversation(e: Sparse, b: Bounds, ends: seq<nat>, n: nat, i: nat, mem: Memory)
    requires Rising(ends) && Reused(ends) < n && Fed(e, b, Numbered(n), ends) && i <= |ends|
    requires mem.known == Counting(From(ends, i)) && (mem.maxT == 0 || mem.recorded)
    ensures Answered(OneLayerModel(e, n + 1), [b], mem, (Prompts(ends) + [Prompt(n)])[i..]) ==
            |ends| - i + if FeedFits(Mixture(e), b, Numbered(n)[Reused(ends)..]) then 1 else 0
    decreases |ends| - i
  {
    hide RequestFits, After, FeedFits, OneLayerModel, Prompt, Numbered, Fed, Answered, Ordered;
    var c, rs := OneLayerModel(e, n + 1), Prompts(ends) + [Prompt(n)];
    AnsweredNext(c, [b], mem, rs, i);
    if i < |ends| {
      var from, end := From(ends, i), ends[i];
      assert Ordered(ends) && end <= Reused(ends) by {
        FedOrdered(e, b, Numbered(n), ends);
        StepsBefore(ends, i + 1, |ends|);
      }
      PromptServed(e, b, n + 1, end, from, mem);
      NumberedSlice(n, from, end);
      StepFed(e, b, Numbered(n), ends, i);
      Conversation(e, b, ends, n, i + 1, After(c, mem, rs[i]));
    } else {
      PromptServed(e, b, n + 1, n, Reused(ends), mem);
      AnsweredAll(c, [b], After(c, mem, rs[i]), rs);
    }
  }

  lemma FedOrdered(e: Sparse, b: Bounds, x: seq<Row>, ends: seq<nat>)
    requires Fed(e, b, x, ends)
    ensures Ordered(ends)
  {
  }

  lemma StepFed(e: Sparse, b: Bounds, x: seq<Row>, ends: seq<nat>, i: nat)
    requires Fed(e, b, x, ends) && i < |ends|
    ensures From(ends, i) <= ends[i] <= |x| && FeedFits(Mixture(e), b, x[From(ends, i)..ends[i]])
  {
  }

  lemma NothingFed(e: Sparse, b: Bounds, x: seq<Row>)
    ensures Fed(e, b, x, []) && Reused([]) == 0
  {
  }

  /** A prompt alone, and at the end of a conversation whose earlier prompts it continues. */
  lemma TwoSessions(e: Sparse, b: Bounds, ends: seq<nat>, n: nat)
    requires Rising(ends) && Reused(ends) < n && Fed(e, b, Numbered(n), ends)
    ensures var c := OneLayerModel(e, n + 1);
            Answered(c, [b], Fresh, [Prompt(n)]) == (if FeedFits(Mixture(e), b, Numbered(n)) then 1 else 0) &&
            Answered(c, [b], Fresh, Prompts(ends) + [Prompt(n)]) ==
              |ends| + if FeedFits(Mixture(e), b, Numbered(n)[Reused(ends)..]) then 1 else 0
  {
    hide FeedFits, OneLayerModel, Prompt, Numbered, Fed, Answered;
    var none: seq<nat> := ends[..0];
    NothingKnown();
    NothingFed(e, b, Numbered(n));
    assert none == [];
    Conversation(e, b, none, n, 0, Fresh);
    Conversation(e, b, ends, n, 0, Fresh);
    assert (Prompts(none) + [Prompt(n)])[0..] == [Prompt(n)];
    assert (Prompts(ends) + [Prompt(n)])[0..] == Prompts(ends) + [Prompt(n)];
    assert Numbered(n)[0..] == Numbered(n);
  }

  // ---------------------------------------------------------------- from a start-up that pins

  /** What a start-up that pins guarantees. */
  ghost predicate Pinning(u: Startup, counts: seq<nat>) {
    u.counts == [counts] && |counts| > u.cap && PinDepth(u.cap, u.pinN) > 0 && exists i :: 0 <= i < |counts| && counts[i] > 0
  }

  lemma PinningBounds(u: Startup, counts: seq<nat>) returns (b: Bounds)
    requires Pinning(u, counts)
    ensures b == Bounds(u.cap, TopPins(counts, PinDepth(u.cap, u.pinN)))
    ensures b.pins <= UpTo(|counts|) && |b.pins| <= b.cap && 0 < b.cap && !Easy(b, |counts|)
  {
    hide TopPins;
    var depth := PinDepth(u.cap, u.pinN);
    b := Bounds(u.cap, TopPins(counts, depth));
    SomePinned(counts, depth);
  }

  lemma StartsWith(e: Sparse, u: Startup, counts: seq<nat>, ctxMax: nat, b: Bounds)
    requires Pinning(u, counts) && Sound(e) && e.experts == |counts|
    requires b == Bounds(u.cap, TopPins(counts, PinDepth(u.cap, u.pinN)))
    ensures var c := OneLayerModel(e, ctxMax); Startable(c, u) && StartBounds(c, u) == [b]
  {
    hide TopPins, Sound, PinDepth;
    assert StartBounds(OneLayerModel(e, ctxMax), u) == [b];
  }

  /** Each prompt has the length given, and begins the last one. */
  ghost predicate Chained(first: seq<Request>, last: Request, ends: seq<nat>) {
    |first| == |ends| && forall i :: 0 <= i < |ends| ==> |first[i].ids| == ends[i] && first[i].ids <= last.ids
  }

  lemma PromptsContinue(ends: seq<nat>, n: nat)
    requires Ordered(ends) && Reused(ends) <= n
    ensures Chained(Prompts(ends), Prompt(n), ends)
  {
    hide Ordered;
    forall i | 0 <= i < |ends|
      ensures |Prompt(ends[i]).ids| == ends[i] && Prompt(ends[i]).ids <= Prompt(n).ids
    {
      StepsBefore(ends, i + 1, |ends|);
    }
  }

  lemma RisingOrdered(ends: seq<nat>)
    requires Rising(ends)
    ensures Ordered(ends)
  {
  }

  /** Reuse ends a session that would not have ended without: the last prompt is answered alone, and
      not at the end of the conversation. */
  lemma {:induction false} ReuseEndsSession(u: Startup, counts: seq<nat>, topK: nat, ends: seq<nat>)
      returns (c: Config, first: seq<Request>, last: Request)
    requires Pinning(u, counts) && 0 < topK <= |counts| && Rising(ends) && (Reused(ends) * topK) % u.cap != 0
    ensures Startable(c, u) && Chained(first, last, ends)
    ensures Answered(c, StartBounds(c, u), Fresh, [last]) == 1
    ensures Answered(c, StartBounds(c, u), Fresh, first + [last]) == |first|
  {
    hide Pinning, TopPins, PinDepth, UpTo, FeedFits, Fed, Startable, StartBounds, OneLayerModel, Answered, Prompt, Numbered,
      Sound, Easy, Chained, Ordered, Rising;
    var b := PinningBounds(u, counts);
    RisingOrdered(ends);
    var e, x := ReuseExits(b, |counts|, topK, ends);
    var n := Reused(ends) + b.cap;
    c, first, last := OneLayerModel(e, n + 1), Prompts(ends), Prompt(n);
    StartsWith(e, u, counts, n + 1, b);
    PromptsContinue(ends, n);
    TwoSessions(e, b, ends, n);
  }

  /** And it lets a session go on that would have ended without, also when all the tokens reused fill
      whole rounds, as long as some prompt on the way ended inside one. */
  lemma {:induction false} ReuseKeepsSession(u: Startup, counts: seq<nat>, topK: nat, ends: seq<nat>)
      returns (c: Config, first: seq<Request>, last: Request)
    requires Pinning(u, counts) && 0 < topK <= |counts| && Rising(ends)
    requires exists i :: 0 <= i < |ends| && (ends[i] * topK) % u.cap != 0
    ensures Startable(c, u) && Chained(first, last, ends)
    ensures Answered(c, StartBounds(c, u), Fresh, [last]) == 0
    ensures Answered(c, StartBounds(c, u), Fresh, first + [last]) == |first| + 1
  {
    hide Pinning, TopPins, PinDepth, UpTo, FeedFits, Fed, Startable, StartBounds, OneLayerModel, Answered, Prompt, Numbered,
      Sound, Easy, Chained, Ordered, Rising;
    var b := PinningBounds(u, counts);
    RisingOrdered(ends);
    var e, x := ReuseSaves(b, |counts|, topK, ends);
    var n := Reused(ends) + b.cap;
    c, first, last := OneLayerModel(e, n + 1), Prompts(ends), Prompt(n);
    StartsWith(e, u, counts, n + 1, b);
    PromptsContinue(ends, n);
    TwoSessions(e, b, ends, n);
  }
}
