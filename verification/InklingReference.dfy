/** What the Inkling engine should answer, as a function of the request alone, and which requests
    of a session it answers before a sparse layer makes it exit. */
module InklingReference {
  import opened Wrappers
  import opened ExpertCache
  import opened InklingLayer
  import opened Moe
  import opened MoeRounds

  /** What a position was built from: a token id, or an audio frame behind the one audio id. */
  datatype Token = Text(id: int) | Audio(id: int, frame: seq<nat>)

  datatype Config = Config(
    layers: seq<Layer>,
    window: int,
    p: nat,                        // conv_k - 1
    embed: Token -> Row,
    sharedRows: nat -> nat,        // rows per shared-expert batch
    logits: Row -> seq<real>,      // final norm, scaling and lm_head of one row
    hasAudio: bool, audioTok: int, // audio tower present, id of <|audio|>
    eos: int,
    ctxMax: int)

  /** One SUBMIT. `sample` picks the next token from the logits and the ids so far (it carries
      temperature, penalties and the random draws); `cancel(s)` is whether CANCEL arrived while
      token s was being emitted; `haveMemory` is whether growing the record would succeed. */
  datatype Request = Request(ids: seq<int>, frames: seq<seq<nat>>, maxTok: nat,
                             sample: (seq<real>, seq<int>) -> int, cancel: nat -> bool, haveMemory: bool)

  datatype Reply = Rejected | Emitted(tokens: seq<int>)

  // ---------------------------------------------------------------- the reference

  /** The placeholders of ids consume the frames left to right; once they run out the rest is text. */
  function Tokens(c: Config, ids: seq<int>, frames: seq<seq<nat>>): (r: seq<Token>)
    ensures |r| == |ids| && forall i :: 0 <= i < |ids| ==> r[i].id == ids[i]
  {
    if ids == [] then []
    else if frames != [] && c.hasAudio && ids[0] == c.audioTok then
      [Audio(ids[0], frames[0])] + Tokens(c, ids[1..], frames[1..])
    else
      [Text(ids[0])] + Tokens(c, ids[1..], frames)
  }

  function Embeds(c: Config, toks: seq<Token>): (r: seq<Row>)
    ensures |r| == |toks|
  {
    seq(|toks|, i requires 0 <= i < |toks| => c.embed(toks[i]))
  }

  /** Input of layer i for the whole token sequence. */
  function At(c: Config, toks: seq<Token>, i: nat): (r: seq<Row>)
    requires i <= |c.layers|
    ensures |r| == |toks|
  {
    Depth(c.layers, c.window, c.p, Embeds(c, toks), i)
  }

  /** Per-position outputs of the whole stack. */
  function Outputs(c: Config, toks: seq<Token>): (r: seq<Row>)
    ensures |r| == |toks|
  {
    At(c, toks, |c.layers|)
  }

  function CountAudio(c: Config, ids: seq<int>): nat {
    if ids == [] || !c.hasAudio then 0
    else (if ids[0] == c.audioTok then 1 else 0) + CountAudio(c, ids[1..])
  }

  predicate Refused(c: Config, r: Request) {
    r.ids == [] || |r.ids| + r.maxTok > c.ctxMax || CountAudio(c, r.ids) != |r.frames|
  }

  /** Token s onwards, given everything consumed so far. */
  function Generate(c: Config, r: Request, toks: seq<Token>, emitted: seq<int>, s: nat): seq<int>
    requires toks != []
    decreases r.maxTok - s
  {
    if s >= r.maxTok then emitted
    else
      var tk := r.sample(c.logits(Outputs(c, toks)[|toks| - 1]), r.ids + emitted);
      if tk == c.eos then emitted
      else if r.cancel(s) || s + 1 == r.maxTok then emitted + [tk]
      else Generate(c, r, toks + [Text(tk)], emitted + [tk], s + 1)
  }

  /** The reply of an engine that starts from nothing for every request. */
  function Reference(c: Config, r: Request): Reply {
    if Refused(c, r) then Rejected else Emitted(Generate(c, r, Tokens(c, r.ids, r.frames), [], 0))
  }

  ghost predicate AllText(toks: seq<Token>) {
    forall i :: 0 <= i < |toks| ==> toks[i].Text?
  }

  function IdsOf(toks: seq<Token>): (r: seq<int>)
    ensures |r| == |toks|
  {
    seq(|toks|, i requires 0 <= i < |toks| => toks[i].id)
  }

  lemma {:induction false} TextTokens(c: Config, ids: seq<int>)
    ensures AllText(Tokens(c, ids, [])) && IdsOf(Tokens(c, ids, [])) == ids
  {
    if ids != [] {
      TextTokens(c, ids[1..]);
    }
  }

  /** Text is determined by its ids; this is what makes a record of ids sufficient. */
  lemma SameIds(a: seq<Token>, b: seq<Token>)
    requires AllText(a) && AllText(b) && IdsOf(a) == IdsOf(b)
    ensures a == b
  {
    forall i | 0 <= i < |a|
      ensures a[i] == b[i]
    {
      assert IdsOf(a)[i] == IdsOf(b)[i];
    }
  }

  lemma IdsOfJoin(a: seq<Token>, b: seq<Token>)
    ensures IdsOf(a + b) == IdsOf(a) + IdsOf(b)
  {
  }

  /** A history that ends with the tokens of ids has those ids at its end, and is text as far as
      both parts are. */
  lemma Continued(c: Config, hist: seq<Token>, pos0: nat, ids: seq<int>, frames: seq<seq<nat>>)
    requires pos0 <= |hist| && hist[pos0..] == Tokens(c, ids, frames)
    ensures IdsOf(hist) == IdsOf(hist[..pos0]) + ids
    ensures frames == [] && AllText(hist[..pos0]) ==> AllText(hist)
  {
    var toks := Tokens(c, ids, frames);
    assert hist == hist[..pos0] + toks;
    IdsOfJoin(hist[..pos0], toks);
    assert IdsOf(toks) == ids;
    if frames == [] {
      TextTokens(c, ids);
    }
  }

  /** A text-only history whose ids begin the prompt is the prompt's own beginning. */
  lemma ReusedPrefix(c: Config, toks: seq<Token>, ids: seq<int>)
    requires AllText(toks) && IdsOf(toks) <= ids
    ensures toks + Tokens(c, ids[|toks|..], []) == Tokens(c, ids, [])
  {
    var tail := Tokens(c, ids[|toks|..], []);
    TextTokens(c, ids);
    TextTokens(c, ids[|toks|..]);
    IdsOfJoin(toks, tail);
    assert ids == ids[..|toks|] + ids[|toks|..];
    SameIds(toks + tail, Tokens(c, ids, []));
  }

  lemma AtExtends(c: Config, a: seq<Token>, b: seq<Token>, i: nat)
    requires i <= |c.layers|
    ensures At(c, a + b, i) == At(c, a, i) + At(c, a + b, i)[|a|..]
  {
    assert Embeds(c, a + b) == Embeds(c, a) + Embeds(c, b);
    DepthExtends(c.layers, c.window, c.p, Embeds(c, a), Embeds(c, b), i);
  }

  // ---------------------------------------------------------------- when the engine exits

  /** Layer i gets through the tokens toks after the tokens past. */
  ghost predicate LayerFits(c: Config, b: Bounds, i: nat, past: seq<Token>, toks: seq<Token>)
    requires i < |c.layers|
  {
    FeedFits(c.layers[i].feed, b, FeedInput(c.layers[i], c.window, c.p, At(c, past, i), At(c, past + toks, i)[|past|..]))
  }

  /** One step over toks after past: no layer makes the engine exit. */
  ghost predicate StepFits(c: Config, bs: seq<Bounds>, past: seq<Token>, toks: seq<Token>) {
    |bs| == |c.layers| && forall i :: 0 <= i < |c.layers| ==> LayerFits(c, bs[i], i, past, toks)
  }

  /** The steps of Generate, each over one token. */
  ghost predicate GenerateFits(c: Config, bs: seq<Bounds>, r: Request, toks: seq<Token>, emitted: seq<int>, s: nat)
    requires toks != []
    decreases r.maxTok - s
  {
    if s >= r.maxTok then true
    else
      var tk := r.sample(c.logits(Outputs(c, toks)[|toks| - 1]), r.ids + emitted);
      if tk == c.eos || r.cancel(s) || s + 1 == r.maxTok then true
      else StepFits(c, bs, toks, [Text(tk)]) && GenerateFits(c, bs, r, toks + [Text(tk)], emitted + [tk], s + 1)
  }

  /** What Generate has fed to the engine when it stops. */
  function Consumed(c: Config, r: Request, toks: seq<Token>, emitted: seq<int>, s: nat): seq<Token>
    requires toks != []
    decreases r.maxTok - s
  {
    if s >= r.maxTok then toks
    else
      var tk := r.sample(c.logits(Outputs(c, toks)[|toks| - 1]), r.ids + emitted);
      if tk == c.eos || r.cancel(s) || s + 1 == r.maxTok then toks
      else Consumed(c, r, toks + [Text(tk)], emitted + [tk], s + 1)
  }

  /** What a request leaves for later ones: the size of the buffers, whether there is a record, and
      the ids that a later prompt may start with to be a continuation. */
  datatype Memory = Memory(maxT: nat, recorded: bool, known: seq<int>)

  /** How many tokens of the prompt need not be fed again. */
  function Reusable(known: seq<int>, ids: seq<int>, frames: seq<seq<nat>>): (k: nat)
    ensures k > 0 ==> k < |ids|
  {
    if frames == [] && |known| < |ids| && known <= ids then |known| else 0
  }

  function Grown(mem: Memory, newMax: nat, haveMemory: bool): Memory {
    if newMax <= mem.maxT then mem
    else if haveMemory then Memory(newMax, true, mem.known)
    else Memory(newMax, false, [])
  }

  /** The state once the buffers have room for r. */
  function Opened(mem: Memory, r: Request): Memory { Grown(mem, |r.ids| + r.maxTok + 8, r.haveMemory) }

  /** The buffers then hold the prompt, the reply and 8 more, and never shrink. What is known of earlier
      prompts survives, unless they have to grow and there is no memory for the record. */
  lemma OpenedRoom(mem: Memory, r: Request)
    ensures var m, need := Opened(mem, r), |r.ids| + r.maxTok + 8;
            m.maxT >= mem.maxT && m.maxT >= need && m.maxT in {mem.maxT, need} &&
            m.known == (if need > mem.maxT && !r.haveMemory then [] else mem.known) &&
            (m.recorded <==> if need > mem.maxT then r.haveMemory else mem.recorded)
  {
  }

  /** The state once r is answered. */
  function Left(c: Config, mem: Memory, r: Request): Memory
    requires r.ids != []
  {
    Memory(mem.maxT, mem.recorded,
           if mem.recorded && r.frames == [] then IdsOf(Consumed(c, r, Tokens(c, r.ids, r.frames), [], 0)) else [])
  }

  function After(c: Config, mem: Memory, r: Request): Memory {
    if Refused(c, r) then mem else Left(c, Opened(mem, r), r)
  }

  /** The prompt's tokens that are not reused go through in one batch, the generated ones one by one. */
  ghost predicate TurnFits(c: Config, bs: seq<Bounds>, known: seq<int>, r: Request)
    requires r.ids != []
  {
    var all := Tokens(c, r.ids, r.frames);
    var k := Reusable(known, r.ids, r.frames);
    StepFits(c, bs, all[..k], all[k..]) && GenerateFits(c, bs, r, all, [], 0)
  }

  /** The request is answered. */
  ghost predicate RequestFits(c: Config, bs: seq<Bounds>, mem: Memory, r: Request) {
    Refused(c, r) || TurnFits(c, bs, Opened(mem, r).known, r)
  }

  /** How many of the requests are answered before the engine exits. */
  ghost function Answered(c: Config, bs: seq<Bounds>, mem: Memory, rs: seq<Request>): (n: nat)
    ensures n <= |rs|
    decreases |rs|
  {
    if rs == [] || !RequestFits(c, bs, mem, rs[0]) then 0 else 1 + Answered(c, bs, After(c, mem, rs[0]), rs[1..])
  }

  /** One more token fed back. */
  lemma GenerateOn(c: Config, bs: seq<Bounds>, r: Request, toks: seq<Token>, emitted: seq<int>, s: nat, tk: int)
    requires toks != [] && s + 1 < r.maxTok && tk == r.sample(c.logits(Outputs(c, toks)[|toks| - 1]), r.ids + emitted)
    requires tk != c.eos && !r.cancel(s)
    ensures var more := toks + Tokens(c, [tk], []);
            Generate(c, r, toks, emitted, s) == Generate(c, r, more, emitted + [tk], s + 1) &&
            Consumed(c, r, toks, emitted, s) == Consumed(c, r, more, emitted + [tk], s + 1) &&
            (GenerateFits(c, bs, r, toks, emitted, s) <==>
             StepFits(c, bs, toks, Tokens(c, [tk], [])) && GenerateFits(c, bs, r, more, emitted + [tk], s + 1))
  {
    hide StepFits, Outputs;
    assert Tokens(c, [tk], []) == [Text(tk)];
  }

  lemma AnsweredNext(c: Config, bs: seq<Bounds>, mem: Memory, rs: seq<Request>, i: nat)
    requires i < |rs|
    ensures Answered(c, bs, mem, rs[i..]) ==
            if RequestFits(c, bs, mem, rs[i]) then 1 + Answered(c, bs, After(c, mem, rs[i]), rs[i + 1..]) else 0
  {
    hide RequestFits, After;
    assert rs[i..][1..] == rs[i + 1..];
  }

  lemma AnsweredAll(c: Config, bs: seq<Bounds>, mem: Memory, rs: seq<Request>)
    ensures Answered(c, bs, mem, rs[|rs|..]) == 0
  {
  }

  // ---------------------------------------------------------------- the reply, token by token

  function Texts(ids: seq<int>): (r: seq<Token>)
    ensures |r| == |ids|
  {
    seq(|ids|, i requires 0 <= i < |ids| => Text(ids[i]))
  }

  /** What is sampled after the prompt toks and the tokens `out` of the reply. */
  function NextToken(c: Config, r: Request, toks: seq<Token>, out: seq<int>): int
    requires toks != []
  {
    r.sample(c.logits(Outputs(c, toks + Texts(out))[|toks| + |out| - 1]), r.ids + out)
  }

  /** A reply: every token is what is sampled after those before it, none is the end token and none
      but the last was cancelled; it stops at the limit, before an end token, or at a cancellation. */
  ghost predicate IsReply(c: Config, r: Request, toks: seq<Token>, out: seq<int>)
    requires toks != []
  {
    |out| <= r.maxTok &&
    (forall i :: 0 <= i < |out| ==> out[i] == NextToken(c, r, toks, out[..i]) && out[i] != c.eos) &&
    (forall i :: 0 <= i < |out| - 1 ==> !r.cancel(i)) &&
    (|out| == r.maxTok || NextToken(c, r, toks, out) == c.eos || (out != [] && r.cancel(|out| - 1)))
  }

  /** So far the reply goes on. */
  ghost predicate Begins(c: Config, r: Request, toks: seq<Token>, out: seq<int>)
    requires toks != []
  {
    |out| <= r.maxTok &&
    (forall i :: 0 <= i < |out| ==> out[i] == NextToken(c, r, toks, out[..i]) && out[i] != c.eos && !r.cancel(i))
  }

  /** One more token of a reply. */
  lemma Spoken(c: Config, r: Request, toks: seq<Token>, out: seq<int>, tk: int)
    requires toks != [] && Begins(c, r, toks, out) && |out| < r.maxTok
    requires tk == NextToken(c, r, toks, out) && tk != c.eos
    ensures toks + Texts(out + [tk]) == toks + Texts(out) + [Text(tk)]
    ensures if r.cancel(|out|) || |out| + 1 == r.maxTok then IsReply(c, r, toks, out + [tk])
            else Begins(c, r, toks, out + [tk])
  {
    hide NextToken;
    var more := out + [tk];
    assert forall i :: 0 <= i < |out| ==> more[i] == out[i] && more[..i] == out[..i];
    assert more[..|out|] == out;
  }

  lemma {:induction false} GeneratedFrom(c: Config, r: Request, toks: seq<Token>, out: seq<int>)
    requires toks != [] && Begins(c, r, toks, out) && (out == [] || |out| < r.maxTok)
    ensures IsReply(c, r, toks, Generate(c, r, toks + Texts(out), out, |out|))
    decreases r.maxTok - |out|
  {
    hide Outputs, Begins, IsReply, Texts;
    if |out| < r.maxTok {
      var tk := NextToken(c, r, toks, out);
      if tk == c.eos {
        StopsBeforeEnd(c, r, toks, out);
      } else {
        Spoken(c, r, toks, out, tk);
        if !r.cancel(|out|) && |out| + 1 < r.maxTok {
          GeneratedFrom(c, r, toks, out + [tk]);
        }
      }
    } else {
      NothingAskedFor(c, r, toks, out);
    }
  }

  lemma StopsBeforeEnd(c: Config, r: Request, toks: seq<Token>, out: seq<int>)
    requires toks != [] && Begins(c, r, toks, out) && NextToken(c, r, toks, out) == c.eos
    ensures IsReply(c, r, toks, out)
  {
    hide NextToken;
  }

  lemma NothingAskedFor(c: Config, r: Request, toks: seq<Token>, out: seq<int>)
    requires toks != [] && Begins(c, r, toks, out) && |out| >= r.maxTok && out == []
    ensures IsReply(c, r, toks, out)
  {
  }

  /** Two replies to the same prompt are the same. */
  lemma {:induction false} OneReply(c: Config, r: Request, toks: seq<Token>, a: seq<int>, b: seq<int>, k: nat)
    requires toks != [] && IsReply(c, r, toks, a) && IsReply(c, r, toks, b) && k <= |a| && k <= |b|
    ensures a[..k] == b[..k]
  {
    hide NextToken;
    if k > 0 {
      OneReply(c, r, toks, a, b, k - 1);
      assert a[..k] == a[..k - 1] + [a[k - 1]] && b[..k] == b[..k - 1] + [b[k - 1]];
    }
  }

  lemma NotShorter(c: Config, r: Request, toks: seq<Token>, a: seq<int>, b: seq<int>)
    requires toks != [] && IsReply(c, r, toks, a) && IsReply(c, r, toks, b)
    ensures |a| >= |b|
  {
    hide NextToken;
    var k := if |a| < |b| then |a| else |b|;
    OneReply(c, r, toks, a, b, k);
    assert k == |a| ==> b[..k] == a;
  }

  /** What the engine generates is the one reply there is. */
  lemma {:induction false} GenerateIsReply(c: Config, r: Request, toks: seq<Token>, out: seq<int>)
    requires toks != []
    ensures IsReply(c, r, toks, out) <==> out == Generate(c, r, toks, [], 0)
  {
    hide IsReply, Generate;
    var none: seq<int> := [];
    GeneratedFrom(c, r, toks, none);
    assert toks + Texts(none) == toks;
    var g := Generate(c, r, toks, none, |none|);
    if IsReply(c, r, toks, out) {
      NotShorter(c, r, toks, out, g);
      NotShorter(c, r, toks, g, out);
      OneReply(c, r, toks, out, g, |g|);
      assert out[..|g|] == out && g[..|g|] == g;
    }
  }

  /** The reply to a request that is not refused. */
  lemma ReferenceReply(c: Config, r: Request, out: seq<int>)
    ensures Reference(c, r) == Emitted(out) <==>
            !Refused(c, r) && IsReply(c, r, Tokens(c, r.ids, r.frames), out)
  {
    hide IsReply, Generate, Tokens;
    if !Refused(c, r) {
      GenerateIsReply(c, r, Tokens(c, r.ids, r.frames), out);
    }
  }

  /** How many tokens of a reply were fed back: all before an end token, otherwise all but the last. */
  function FedBack(r: Request, out: seq<int>): (k: nat)
    ensures k <= |out|
  {
    if out == [] then 0 else if |out| == r.maxTok || r.cancel(|out| - 1) then |out| - 1 else |out|
  }

  /** Generation has fed back these tokens, and gets through exactly when each of their steps does. */
  lemma {:induction false} FedBackFrom(c: Config, bs: seq<Bounds>, r: Request, toks: seq<Token>, out: seq<int>, s: nat)
    requires toks != [] && IsReply(c, r, toks, out) && s <= FedBack(r, out)
    ensures Consumed(c, r, toks + Texts(out[..s]), out[..s], s) == toks + Texts(out[..FedBack(r, out)])
    ensures GenerateFits(c, bs, r, toks + Texts(out[..s]), out[..s], s) <==>
            forall i :: s <= i < FedBack(r, out) ==> StepFits(c, bs, toks + Texts(out[..i]), [Text(out[i])])
    decreases |out| - s
  {
    hide Outputs, StepFits;
    var k, hist := FedBack(r, out), toks + Texts(out[..s]);
    var tk := NextToken(c, r, toks, out[..s]);
    if s < k {
      assert out[s] == tk;
      assert out[..s + 1] == out[..s] + [tk];
      assert toks + Texts(out[..s + 1]) == hist + [Text(tk)];
      FedBackFrom(c, bs, r, toks, out, s + 1);
    } else if s == |out| {
      assert out[..s] == out;
    } else {
      assert out[s] == tk;
    }
  }

  lemma {:induction false} GenerationFeeds(c: Config, bs: seq<Bounds>, r: Request, toks: seq<Token>)
    requires toks != []
    ensures var out := Generate(c, r, toks, [], 0);
            Consumed(c, r, toks, [], 0) == toks + Texts(out[..FedBack(r, out)]) &&
            (GenerateFits(c, bs, r, toks, [], 0) <==>
             forall i :: 0 <= i < FedBack(r, out) ==> StepFits(c, bs, toks + Texts(out[..i]), [Text(out[i])]))
  {
    hide IsReply, Generate, Consumed, GenerateFits, StepFits;
    var out := Generate(c, r, toks, [], 0);
    GenerateIsReply(c, r, toks, out);
    FedBackFrom(c, bs, r, toks, out, 0);
    assert out[..0] == [] && toks + Texts(out[..0]) == toks;
  }

  // ---------------------------------------------------------------- the prompt, token by token

  /** Where the prompt asks for a frame. */
  ghost function Placeholders(c: Config, ids: seq<int>): set<int> {
    set i | 0 <= i < |ids| && c.hasAudio && ids[i] == c.audioTok
  }

  lemma {:induction false} CountIsPlaceholders(c: Config, ids: seq<int>)
    ensures CountAudio(c, ids) == |Placeholders(c, ids)|
  {
    if ids == [] || !c.hasAudio {
      assert Placeholders(c, ids) == {};
    } else {
      CountIsPlaceholders(c, ids[1..]);
      ShiftedSize(Placeholders(c, ids[1..]), Placeholders(c, ids), ids[0] == c.audioTok);
    }
  }

  /** b is a moved up by one, and 0 if asked for. */
  lemma ShiftedSize(a: set<int>, b: set<int>, zero: bool)
    requires (forall i :: i in a ==> i >= 0 && i + 1 in b) && (forall i :: i in b && i != 0 ==> i > 0 && i - 1 in a)
    requires 0 in b <==> zero
    ensures |b| == |a| + if zero then 1 else 0
  {
    InjectionSize(a, i => i + 1, b - {0});
    InjectionSize(b - {0}, i => i - 1, a);
    if zero {
      assert b == (b - {0}) + {0};
    } else {
      assert b == b - {0};
    }
  }

  /** A request is refused exactly when its prompt is empty, it asks for more than the context holds,
      or its placeholders and frames are not as many. */
  lemma RefusedWhen(c: Config, r: Request)
    ensures Refused(c, r) <==>
            r.ids == [] || |r.ids| + r.maxTok > c.ctxMax || |Placeholders(c, r.ids)| != |r.frames|
  {
    CountIsPlaceholders(c, r.ids);
  }

  /** Token i of a prompt: a placeholder takes the frame of its own number, while there is one. */
  lemma {:induction false} TokenAt(c: Config, ids: seq<int>, frames: seq<seq<nat>>, i: nat)
    requires i < |ids|
    ensures var n := |Placeholders(c, ids[..i])|;
            Tokens(c, ids, frames)[i] ==
            if i in Placeholders(c, ids) && n < |frames| then Audio(ids[i], frames[n]) else Text(ids[i])
  {
    CountIsPlaceholders(c, ids[..i]);
    TokenCounted(c, ids, frames, i);
  }

  lemma {:induction false} TokenCounted(c: Config, ids: seq<int>, frames: seq<seq<nat>>, i: nat)
    requires i < |ids|
    ensures var n := CountAudio(c, ids[..i]);
            Tokens(c, ids, frames)[i] ==
            if c.hasAudio && ids[i] == c.audioTok && n < |frames| then Audio(ids[i], frames[n]) else Text(ids[i])
  {
    hide Tokens, CountAudio;
    NextEmbedded(c, ids, frames);
    if i == 0 {
      NoneCounted(c, ids[..i]);
    } else {
      assert ids[..i][1..] == ids[1..][..i - 1] && ids[..i][0] == ids[0];
      TokenCounted(c, ids[1..], Unused(c, ids[0], frames), i - 1);
      if c.hasAudio {
        NextCounted(c, ids[..i]);
      }
    }
  }

  /** The frames left after one token. */
  function Unused(c: Config, id: int, frames: seq<seq<nat>>): seq<seq<nat>> {
    if frames != [] && c.hasAudio && id == c.audioTok then frames[1..] else frames
  }

  lemma NextEmbedded(c: Config, ids: seq<int>, frames: seq<seq<nat>>)
    requires ids != []
    ensures Tokens(c, ids, frames)[0] ==
            if c.hasAudio && ids[0] == c.audioTok && frames != [] then Audio(ids[0], frames[0]) else Text(ids[0])
    ensures Tokens(c, ids, frames)[1..] == Tokens(c, ids[1..], Unused(c, ids[0], frames))
  {
  }

  lemma NextCounted(c: Config, ids: seq<int>)
    requires ids != [] && c.hasAudio
    ensures CountAudio(c, ids) == CountAudio(c, ids[1..]) + if ids[0] == c.audioTok then 1 else 0
  {
  }

  lemma NoneCounted(c: Config, ids: seq<int>)
    requires ids == [] || !c.hasAudio
    ensures CountAudio(c, ids) == 0
  {
  }

  // ---------------------------------------------------------------- start-up

  /** What the engine is started with: expert slots per layer, usage counts, PIN_N. */
  datatype Startup = Startup(cap: nat, counts: seq<seq<nat>>, pinN: Option<int>)

  ghost predicate Startable(c: Config, u: Startup) {
    |u.counts| == |c.layers| &&
    forall i :: 0 <= i < |c.layers| && c.layers[i].feed.Mixture? ==>
      Sound(c.layers[i].feed.moe) && |u.counts[i]| == c.layers[i].feed.moe.experts
  }

  /** Slots and pins of one layer: the most used experts of a sparse layer are pinned. */
  function LayerBounds(l: Layer, u: Startup, counts: seq<nat>): Bounds {
    Bounds(u.cap, if l.feed.Dense? then {} else TopPins(counts, PinDepth(u.cap, u.pinN)))
  }

  function StartBounds(c: Config, u: Startup): (bs: seq<Bounds>)
    requires |u.counts| == |c.layers|
    ensures |bs| == |c.layers|
  {
    seq(|c.layers|, i requires 0 <= i < |c.layers| => LayerBounds(c.layers[i], u, u.counts[i]))
  }

  const Fresh := Memory(0, false, [])

  // ---------------------------------------------------------------- sessions without an exit

  /** No layer can make the engine exit. */
  ghost predicate AllRoomy(c: Config, bs: seq<Bounds>) {
    |bs| == |c.layers| && forall i :: 0 <= i < |bs| ==> Roomy(c.layers[i].feed, bs[i])
  }

  lemma RoomySteps(c: Config, bs: seq<Bounds>, past: seq<Token>, toks: seq<Token>)
    requires AllRoomy(c, bs)
    ensures StepFits(c, bs, past, toks)
  {
    hide Roomy, FeedFits;
    forall i | 0 <= i < |c.layers|
      ensures LayerFits(c, bs[i], i, past, toks)
    {
      RoomyFeed(c.layers[i].feed, bs[i],
                FeedInput(c.layers[i], c.window, c.p, At(c, past, i), At(c, past + toks, i)[|past|..]));
    }
  }

  lemma {:induction false} RoomyGenerates(c: Config, bs: seq<Bounds>, r: Request, toks: seq<Token>, emitted: seq<int>, s: nat)
    requires AllRoomy(c, bs) && toks != []
    ensures GenerateFits(c, bs, r, toks, emitted, s)
    decreases r.maxTok - s
  {
    hide AllRoomy, StepFits, Outputs;
    if s < r.maxTok {
      var tk := r.sample(c.logits(Outputs(c, toks)[|toks| - 1]), r.ids + emitted);
      RoomySteps(c, bs, toks, [Text(tk)]);
      RoomyGenerates(c, bs, r, toks + [Text(tk)], emitted + [tk], s + 1);
    }
  }

  /** With nothing pinned or a slot for every expert, in every sparse layer, all is answered. */
  lemma {:induction false} RoomyAnswers(c: Config, bs: seq<Bounds>, mem: Memory, rs: seq<Request>)
    requires AllRoomy(c, bs)
    ensures Answered(c, bs, mem, rs) == |rs|
    decreases |rs|
  {
    hide AllRoomy, StepFits, GenerateFits, After;
    if rs != [] {
      var r := rs[0];
      if !Refused(c, r) {
        var all := Tokens(c, r.ids, r.frames);
        var k := Reusable(Opened(mem, r).known, r.ids, r.frames);
        RoomySteps(c, bs, all[..k], all[k..]);
        RoomyGenerates(c, bs, r, all, [], 0);
      }
      RoomyAnswers(c, bs, After(c, mem, r), rs[1..]);
    }
  }

  /** Start-up choices under which no batch can make layer i exit. */
  ghost predicate NoExitFrom(l: Layer, u: Startup, counts: seq<nat>) {
    l.feed.Dense? || (u.cap > 0 && (TopPins(counts, PinDepth(u.cap, u.pinN)) == {} || l.feed.moe.experts <= u.cap))
  }

  lemma RoomyStart(c: Config, u: Startup)
    requires Startable(c, u) && forall i :: 0 <= i < |c.layers| ==> NoExitFrom(c.layers[i], u, u.counts[i])
    ensures AllRoomy(c, StartBounds(c, u))
  {
    hide Sound, PinDepth, TopPins;
    forall i | 0 <= i < |c.layers|
      ensures Roomy(c.layers[i].feed, StartBounds(c, u)[i])
    {
      assert NoExitFrom(c.layers[i], u, u.counts[i]);
    }
  }
}
