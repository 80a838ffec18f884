/** The Inkling engine's incremental state over a whole serve session: kv_alloc, state_reset,
    step_mm and serve_one, proved against a stateless reference. */
module Inkling {
  import opened Wrappers
  import opened KvRing
  import opened InklingLayer
  import opened InklingReference
  import opened InklingStep
  import opened KvPrefix
  import opened ExpertCache
  import opened Moe
  import opened MoeRounds

  // ---------------------------------------------------------------- the engine

  /** No two buffers of the model are the same array. */
  ghost predicate Distinct(ks: seq<array<Row>>, vs: seq<array<Row>>) {
    |ks| == |vs| &&
    (forall i, j :: 0 <= i < |ks| && 0 <= j < |ks| ==> ks[i] != vs[j]) &&
    (forall i, j :: 0 <= i < j < |ks| ==> ks[i] != ks[j] && vs[i] != vs[j])
  }

  /** Every buffer has its layer's size for maxT positions. */
  ghost predicate Sized(c: Config, maxT: nat, ks: seq<array<Row>>, vs: seq<array<Row>>) {
    |ks| == |vs| == |c.layers| &&
    forall i :: 0 <= i < |ks| ==>
      ks[i].Length == vs[i].Length == c.layers[i].heads * Rows(c.layers[i].local, c.window, maxT)
  }

  /** Layer i's buffers and states are those of the history toks. */
  ghost predicate LayerIs(c: Config, maxT: nat, i: nat, k: array<Row>, v: array<Row>, t: Tails, toks: seq<Token>)
    requires i < |c.layers|
    reads k, v
  {
    LayerHolds(c.layers[i], c.window, c.p, maxT, k, v, t, At(c, toks, i))
  }

  /** All layers: the state refines the full history, nothing a later query can reach is missing. */
  ghost predicate StackIs(c: Config, maxT: nat, ks: seq<array<Row>>, vs: seq<array<Row>>, ts: seq<Tails>, toks: seq<Token>)
    reads ks, vs
  {
    |ks| == |vs| == |ts| == |c.layers| &&
    forall i :: 0 <= i < |c.layers| ==> LayerIs(c, maxT, i, ks[i], vs[i], ts[i], toks)
  }

  method EmptyBuffers(c: Config) returns (ks: seq<array<Row>>, vs: seq<array<Row>>)
    ensures Distinct(ks, vs) && Sized(c, 0, ks, vs)
    ensures forall i :: 0 <= i < |ks| ==> fresh(ks[i]) && fresh(vs[i])
  {
    ks, vs := [], [];
    for n := 0 to |c.layers|
      invariant |ks| == |vs| == n && Distinct(ks, vs)
      invariant forall i :: 0 <= i < n ==> fresh(ks[i]) && fresh(vs[i]) && ks[i].Length == vs[i].Length == 0
    {
      var k, v := new Row[0], new Row[0];
      ks, vs := ks + [k], vs + [v];
    }
  }

  /** The embedding loop of step_mm. */
  method EmbedChunk(c: Config, ids: seq<int>, frames: seq<seq<nat>>) returns (x: seq<Row>)
    ensures x == Embeds(c, Tokens(c, ids, frames))
  {
    hide Tokens;
    ghost var toks := Tokens(c, ids, frames);
    assert ids[0..] == ids && frames[0..] == frames;
    x := [];
    var aidx := 0;
    for s := 0 to |ids|
      invariant aidx <= |frames| && toks[s..] == Tokens(c, ids[s..], frames[aidx..])
      invariant |x| == s && forall i :: 0 <= i < s ==> x[i] == c.embed(toks[i])
    {
      TokensFirst(c, ids, s, frames, aidx);
      assert toks[s..][0] == toks[s] && toks[s..][1..] == toks[s + 1..];
      if frames != [] && c.hasAudio && ids[s] == c.audioTok && aidx < |frames| {
        x := x + [c.embed(Audio(ids[s], frames[aidx]))];
        aidx := aidx + 1;
      } else {
        x := x + [c.embed(Text(ids[s]))];
      }
    }
  }

  lemma TokensFirst(c: Config, ids: seq<int>, s: nat, frames: seq<seq<nat>>, a: nat)
    requires s < |ids| && a <= |frames|
    ensures Tokens(c, ids[s..], frames[a..]) ==
            if a < |frames| && c.hasAudio && ids[s] == c.audioTok
            then [Audio(ids[s], frames[a])] + Tokens(c, ids[s + 1..], frames[a + 1..])
            else [Text(ids[s])] + Tokens(c, ids[s + 1..], frames[a..])
  {
    assert ids[s..][1..] == ids[s + 1..];
    if a < |frames| {
      assert frames[a..][1..] == frames[a + 1..];
    }
  }

  // ---------------------------------------------------------------- the expert caches

  /** Every object of the expert caches. */
  ghost function Foot(caches: seq<Cache>): set<object> {
    (set i | 0 <= i < |caches| :: caches[i] as object) + (set i | 0 <= i < |caches| :: caches[i].slots as object) +
    (set i | 0 <= i < |caches| :: caches[i].index as object)
  }

  lemma FootHas(caches: seq<Cache>, i: nat)
    requires i < |caches|
    ensures caches[i] in Foot(caches) && caches[i].slots in Foot(caches) && caches[i].index in Foot(caches)
  {
  }

  /** No two layers share a cache or its arrays. */
  ghost predicate Separate(caches: seq<Cache>) {
    forall i, j :: 0 <= i < j < |caches| ==>
      caches[i] != caches[j] && caches[i].slots != caches[j].slots && caches[i].index != caches[j].index
  }

  /** Every layer's cache serves its block, with the slots and pins given in bs. */
  ghost predicate Stocked(c: Config, caches: seq<Cache>, bs: seq<Bounds>)
    reads Foot(caches)
  {
    |caches| == |bs| == |c.layers| &&
    forall i :: 0 <= i < |caches| ==> Serves(caches[i], c.layers[i].feed) && BoundsOf(caches[i]) == bs[i]
  }

  /** Layer i of step_mm on the buffers, states and cache of that layer. */
  method RunLayer(c: Config, maxT: nat, i: nat, k: array<Row>, v: array<Row>, t0: Tails, x0: seq<Row>, pos0: nat,
                  m: Cache, ghost past: seq<Token>, ghost toks: seq<Token>)
      returns (ok: bool, x: seq<Row>, t: Tails)
    requires i < |c.layers| && k != v && LayerIs(c, maxT, i, k, v, t0, past)
    requires pos0 == |past| && pos0 + |toks| <= maxT && x0 == At(c, past + toks, i)[pos0..]
    requires Serves(m, c.layers[i].feed) && {k as object, v} !! {m.slots as object, m.index}
    modifies k, v, m, m.slots, m.index
    ensures ok <==> LayerFits(c, old(BoundsOf(m)), i, past, toks)
    ensures ok ==> Serves(m, c.layers[i].feed) && BoundsOf(m) == old(BoundsOf(m))
    ensures ok ==> LayerIs(c, maxT, i, k, v, t, past + toks) && x == At(c, past + toks, i + 1)[pos0..]
  {
    hide LayerHolds, Serves, BoundsOf, FeedFits;
    AtExtends(c, past, toks, i);
    var batch := c.sharedRows(|x0|);
    ok, x, t := LayerStep(c.layers[i], c.window, c.p, maxT, k, v, t0, x0, pos0, m, if batch > 0 then batch else 1, At(c, past, i));
  }

  /** The first i layers have seen all of the history, the others its past. */
  ghost predicate Stage(c: Config, maxT: nat, ks: seq<array<Row>>, vs: seq<array<Row>>, ts: seq<Tails>,
                        past: seq<Token>, all: seq<Token>, i: nat)
    reads ks, vs
  {
    |ks| == |vs| == |ts| == |c.layers| &&
    forall j :: 0 <= j < |c.layers| ==> LayerIs(c, maxT, j, ks[j], vs[j], ts[j], if j < i then all else past)
  }

  /** Objects of foot belong to the caches, not to the buffers. */
  ghost predicate Apart(ks: seq<array<Row>>, vs: seq<array<Row>>, caches: seq<Cache>, foot: set<object>) {
    Distinct(ks, vs) && Separate(caches) && foot == Foot(caches) &&
    forall i :: 0 <= i < |ks| ==> ks[i] !in foot && vs[i] !in foot
  }

  /** One turn of the layer loop. */
  method RunNext(c: Config, maxT: nat, ks: seq<array<Row>>, vs: seq<array<Row>>, ts0: seq<Tails>, x0: seq<Row>, pos0: nat,
                 caches: seq<Cache>, ghost bs: seq<Bounds>, ghost foot: set<object>,
                 ghost past: seq<Token>, ghost toks: seq<Token>, i: nat)
      returns (ok: bool, x: seq<Row>, ts: seq<Tails>)
    requires i < |c.layers| && Apart(ks, vs, caches, foot) && Stocked(c, caches, bs)
    requires Stage(c, maxT, ks, vs, ts0, past, past + toks, i)
    requires pos0 == |past| && pos0 + |toks| <= maxT && x0 == At(c, past + toks, i)[pos0..]
    modifies ks, vs, foot
    ensures ok <==> LayerFits(c, bs[i], i, past, toks)
    ensures ok ==> Stocked(c, caches, bs)
    ensures ok ==> Stage(c, maxT, ks, vs, ts, past, past + toks, i + 1) && x == At(c, past + toks, i + 1)[pos0..]
  {
    hide LayerIs, Serves, BoundsOf, LayerFits, Foot, At;
    FootHas(caches, i);
    var t;
    ok, x, t := RunLayer(c, maxT, i, ks[i], vs[i], ts0[i], x0, pos0, caches[i], past, toks);
    ts := if ok then ts0[i := t] else ts0;
  }

  /** The layer loop of step_mm: outputs for the new positions, every layer's state advanced, or
      the exit of some sparse layer. */
  method RunLayers(c: Config, maxT: nat, ks: seq<array<Row>>, vs: seq<array<Row>>, ts0: seq<Tails>, x0: seq<Row>, pos0: nat,
                   caches: seq<Cache>, ghost bs: seq<Bounds>, ghost foot: set<object>,
                   ghost past: seq<Token>, ghost toks: seq<Token>)
      returns (ok: bool, x: seq<Row>, ts: seq<Tails>)
    requires StackIs(c, maxT, ks, vs, ts0, past) && Apart(ks, vs, caches, foot) && Stocked(c, caches, bs)
    requires pos0 == |past| && x0 == Embeds(c, toks) && pos0 + |toks| <= maxT
    modifies ks, vs, foot
    ensures ok <==> StepFits(c, bs, past, toks)
    ensures ok ==> Stocked(c, caches, bs)
    ensures ok ==> |ts| == |c.layers| && StackIs(c, maxT, ks, vs, ts, past + toks) && x == Outputs(c, past + toks)[pos0..]
  {
    hide LayerIs, Stage, Apart, Stocked, LayerFits;
    assert |bs| == |c.layers| by { StockedSize(c, caches, bs); }
    ghost var all := past + toks;
    assert Embeds(c, all)[pos0..] == x0;
    ok, x, ts := true, x0, ts0;
    StageEnds(c, maxT, ks, vs, ts, past, all);
    for i := 0 to |c.layers|
      invariant Stocked(c, caches, bs) && forall j :: 0 <= j < i ==> LayerFits(c, bs[j], j, past, toks)
      invariant Stage(c, maxT, ks, vs, ts, past, all, i) && x == At(c, all, i)[pos0..]
    {
      ok, x, ts := RunNext(c, maxT, ks, vs, ts, x, pos0, caches, bs, foot, past, toks, i);
      if !ok {
        return;
      }
    }
    StageEnds(c, maxT, ks, vs, ts, past, all);
  }

  lemma StockedSize(c: Config, caches: seq<Cache>, bs: seq<Bounds>)
    requires Stocked(c, caches, bs)
    ensures |caches| == |bs| == |c.layers|
  {
  }

  lemma StageEnds(c: Config, maxT: nat, ks: seq<array<Row>>, vs: seq<array<Row>>, ts: seq<Tails>,
                  past: seq<Token>, all: seq<Token>)
    ensures Stage(c, maxT, ks, vs, ts, past, all, 0) <==> StackIs(c, maxT, ks, vs, ts, past)
    ensures Stage(c, maxT, ks, vs, ts, past, all, |c.layers|) <==> StackIs(c, maxT, ks, vs, ts, all)
  {
    hide LayerIs;
  }

  /** kv_alloc on layer i. What it keeps is known to be the history toks, or nothing is kept. */
  method GrowOne(c: Config, oldMax: nat, maxT: nat, i: nat, k: array<Row>, v: array<Row>, keep: nat,
                 ghost known: bool, ghost t: Tails, ghost toks: seq<Token>)
      returns (k2: array<Row>, v2: array<Row>)
    requires i < |c.layers| && k != v && oldMax < maxT && keep <= oldMax
    requires k.Length == v.Length == c.layers[i].heads * Rows(c.layers[i].local, c.window, oldMax)
    requires if known then keep == |toks| && LayerIs(c, oldMax, i, k, v, t, toks) else keep == 0
    ensures k2 != v2 && ((k2 == k && v2 == v) || (fresh(k2) && fresh(v2)))
    ensures k2.Length == v2.Length == c.layers[i].heads * Rows(c.layers[i].local, c.window, maxT)
    ensures known ==> LayerIs(c, maxT, i, k2, v2, t, toks)
  {
    ghost var run := Run(c.layers[i], c.window, c.p, At(c, toks, i));
    k2, v2 := GrowLayer(c.layers[i], c.window, oldMax, maxT, k, v, keep,
                        if known then run.k else [], if known then run.v else []);
  }

  /** kv_alloc's loop over the layers; `made` are the buffers allocated on the way. */
  method GrowBuffers(c: Config, oldMax: nat, maxT: nat, ks: seq<array<Row>>, vs: seq<array<Row>>, keep: nat,
                     ghost known: bool, ghost ts: seq<Tails>, ghost toks: seq<Token>)
      returns (ks2: seq<array<Row>>, vs2: seq<array<Row>>, ghost made: set<object>)
    requires Distinct(ks, vs) && Sized(c, oldMax, ks, vs) && |ts| == |c.layers| && oldMax < maxT && keep <= oldMax
    requires if known then keep == |toks| && StackIs(c, oldMax, ks, vs, ts, toks) else keep == 0
    ensures Distinct(ks2, vs2) && Sized(c, maxT, ks2, vs2) && fresh(made)
    ensures forall i :: 0 <= i < |ks2| ==> FromOr(ks2[i], ks, made) && FromOr(vs2[i], vs, made)
    ensures known ==> StackIs(c, maxT, ks2, vs2, ts, toks)
  {
    hide LayerIs;
    ks2, vs2, made := [], [], {};
    for i := 0 to |c.layers|
      invariant |ks2| == |vs2| == i && Distinct(ks2, vs2) && fresh(made)
      invariant forall j :: 0 <= j < i ==>
        (ks2[j] == ks[j] && vs2[j] == vs[j]) || (ks2[j] in made && vs2[j] in made)
      invariant forall j :: 0 <= j < i ==>
        ks2[j].Length == vs2[j].Length == c.layers[j].heads * Rows(c.layers[j].local, c.window, maxT)
      invariant known ==> forall j :: 0 <= j < i ==> LayerIs(c, maxT, j, ks2[j], vs2[j], ts[j], toks)
    {
      var k, v := GrowOne(c, oldMax, maxT, i, ks[i], vs[i], keep, known, ts[i], toks);
      ks2, vs2 := ks2 + [k], vs2 + [v];
      if k != ks[i] {
        made := made + {k, v};
      }
    }
  }

  ghost predicate FromOr(a: array<Row>, olds: seq<array<Row>>, made: set<object>) {
    a in olds || a in made
  }

  class Model {
    const c: Config
    const kvp: Prefix
    const caches: seq<Cache> // expert cache of each layer
    ghost const bounds: seq<Bounds> // its slots and pins
    ghost const foot: set<object>
    var kBufs: seq<array<Row>> // per layer; kv_alloc not yet called is maxT == 0 with empty buffers
    var vBufs: seq<array<Row>>
    var tails: seq<Tails>
    var kvLen: nat
    var maxT: nat
    ghost var hist: seq<Token> // what was consumed since the last reset
    ghost var Repr: set<object>

    ghost predicate Shape()
      reads this, Repr
    {
      this in Repr && kvp in Repr && (kvp.fed != null ==> kvp.fed in Repr) && kvp.Valid() &&
      |tails| == |c.layers| && |kBufs| == |vBufs| && Distinct(kBufs, vBufs) && Sized(c, maxT, kBufs, vBufs) &&
      foot == Foot(caches) && Repr !! foot && Separate(caches) &&
      forall i :: 0 <= i < |kBufs| ==>
        kBufs[i] in Repr && vBufs[i] in Repr && kBufs[i] as object != kvp.fed && vBufs[i] as object != kvp.fed
    }

    ghost predicate Represents(toks: seq<Token>)
      reads this, Repr
    {
      Shape() && kvLen == |toks| && StackIs(c, maxT, kBufs, vBufs, tails, toks)
    }

    /** The record names the consumed ids, and untainted means that all of them were text. */
    ghost predicate Recorded()
      reads this, kvp, kvp.fed
    {
      kvp.Valid() && kvp.len == kvLen == |hist| && kvp.Ids() == IdsOf(hist) && (kvp.tainted || AllText(hist))
    }

    ghost predicate Valid()
      reads this, Repr
    {
      Shape() && (kvp.fed != null ==> kvp.cap == maxT) && kvLen <= maxT &&
      (kvLen == |hist| || kvLen == 0) &&
      (kvLen == |hist| ==> Represents(hist)) &&
      (kvp.len > 0 ==> Recorded())
    }

    /** What later requests find. */
    ghost function Remembered(): Memory
      reads this, kvp, kvp.fed
    {
      Memory(maxT, kvp.fed != null, if kvp.Valid() && !kvp.tainted then kvp.Ids() else [])
    }

    /** A model around a zeroed record and empty buffers. */
    constructor (c: Config, kvp: Prefix, ks: seq<array<Row>>, vs: seq<array<Row>>, caches: seq<Cache>,
                 ghost bounds: seq<Bounds>)
      requires kvp.Valid() && kvp.fed == null && kvp.len == 0
      requires Distinct(ks, vs) && Sized(c, 0, ks, vs) && Separate(caches)
      requires ({kvp as object} + (set a | a in ks) + (set a | a in vs)) !! Foot(caches)
      ensures this.c == c && this.caches == caches && this.bounds == bounds && foot == Foot(caches)
      ensures Valid() && hist == [] && kvLen == 0 && maxT == 0 && kvp.fed == null
      ensures Repr == {this, kvp} + (set a | a in ks) + (set a | a in vs)
    {
      hide StackIs, Sized;
      this.c, this.kvp, this.caches, this.bounds, foot := c, kvp, caches, bounds, Foot(caches);
      kBufs, vBufs, kvLen, maxT, hist := ks, vs, 0, 0, [];
      tails := seq(|c.layers|, i requires 0 <= i < |c.layers| => ZeroTails(c.layers[i], c.p));
      Repr := {this, kvp} + (set a | a in ks) + (set a | a in vs);
      new;
      EmptyState();
    }

    /** With zeroed conv states the buffers represent the empty history, whatever they contain. */
    lemma EmptyState()
      requires Shape() && kvLen == 0
      requires forall j :: 0 <= j < |c.layers| ==> tails[j] == ZeroTails(c.layers[j], c.p)
      ensures Represents([])
    {
      forall i | 0 <= i < |c.layers|
        ensures LayerIs(c, maxT, i, kBufs[i], vBufs[i], tails[i], [])
      {
        var l := c.layers[i];
        assert At(c, [], i) == [];
        var run := Run(l, c.window, c.p, []);
        assert TailsAfter(ZeroTails(l, c.p), run) == ZeroTails(l, c.p);
      }
    }

    /** state_reset. */
    method Reset()
      requires Valid()
      modifies Repr
      ensures Valid() && Repr == old(Repr) && hist == [] && kvLen == 0 && Recorded() && maxT == old(maxT)
      ensures kvp.fed == old(kvp.fed) && !kvp.tainted
    {
      hide StackIs, Sized;
      kvLen, hist := 0, [];
      kvp.Clear();
      tails := seq(|c.layers|, i requires 0 <= i < |c.layers| => ZeroTails(c.layers[i], c.p));
      EmptyState();
    }

    /** The two record calls at the end of step_mm. */
    method NoteFed(ids: seq<int>, pos0: nat, frames: seq<seq<nat>>, ghost toks: seq<Token>)
      requires Represents(hist) && toks == Tokens(c, ids, frames) && kvLen == pos0 + |ids| <= maxT
      requires kvp.fed != null ==> kvp.cap == maxT && kvp.len == pos0
      requires kvp.fed == null ==> kvp.len == 0
      requires pos0 <= |hist| && hist[pos0..] == toks
      requires kvp.fed != null ==> kvp.Ids() == IdsOf(hist[..pos0]) && (kvp.tainted || AllText(hist[..pos0]))
      modifies kvp, kvp.fed
      ensures Represents(hist) && kvp.fed == old(kvp.fed) && kvp.cap == old(kvp.cap)
      ensures if kvp.fed == null then kvp.len == 0 else Recorded()
      ensures kvp.tainted == (old(kvp.tainted) || frames != [])
    {
      hide StackIs, Sized, Separate, Foot, Distinct, IdsOf, AllText, Tokens;
      Continued(c, hist, pos0, ids, frames);
      kvp.Record(ids, pos0);
      if frames != [] {
        kvp.Taint();
      }
    }

    /** step_mm on a chunk that starts where the state ends; not ok is the exit inside moe(). */
    method Step(ids: seq<int>, pos0: nat, frames: seq<seq<nat>>) returns (ok: bool, x: seq<Row>)
      requires Valid() && kvLen == |hist| == pos0 && pos0 + |ids| <= maxT
      requires kvp.fed != null ==> Recorded()
      requires Stocked(c, caches, bounds)
      modifies Repr, foot
      ensures ok <==> StepFits(c, bounds, old(hist), Tokens(c, ids, frames))
      ensures ok ==> Stocked(c, caches, bounds)
      ensures ok ==> Valid() && Repr == old(Repr) && maxT == old(maxT) && kvp.fed == old(kvp.fed)
      ensures ok ==> hist == old(hist) + Tokens(c, ids, frames) && kvLen == |hist|
      ensures ok && kvp.fed != null ==> Recorded()
      ensures ok ==> kvp.tainted == (old(kvp.tainted) || frames != [])
      ensures ok ==> x == Outputs(c, hist)[pos0..]
    {
      hide StackIs, Sized, Outputs, Embeds, Stocked, StepFits, Separate, Foot, Distinct, IdsOf, AllText, Tokens;
      ghost var toks := Tokens(c, ids, frames);
      var x0 := EmbedChunk(c, ids, frames);
      var ts;
      ok, x, ts := RunLayers(c, maxT, kBufs, vBufs, tails, x0, pos0, caches, bounds, foot, hist, toks);
      if !ok {
        return;
      }
      tails := ts;
      kvLen := pos0 + |ids|;
      hist := hist + toks;
      assert hist[..pos0] == old(hist) && hist[pos0..] == toks;
      NoteFed(ids, pos0, frames, toks);
    }

    /** The buffer half of kv_alloc. */
    method GrowKv(newMax: nat, keep: nat)
      requires Valid() && maxT < newMax && keep == kvLen
      modifies this`kBufs, this`vBufs, this`maxT, this`Repr
      ensures Shape() && fresh(Repr - old(Repr)) && maxT == newMax
      ensures kvLen == |hist| ==> StackIs(c, maxT, kBufs, vBufs, tails, hist)
    {
      hide StackIs, Sized;
      var ks, vs;
      ghost var made;
      ks, vs, made := GrowBuffers(c, maxT, newMax, kBufs, vBufs, keep, kvLen == |hist|, tails, hist);
      kBufs, vBufs, maxT := ks, vs, newMax;
      Repr := Repr + made;
    }

    /** The record half, with the length the engine goes on with. */
    method GrowRecord(keep: nat, haveMemory: bool)
      requires Shape() && maxT > 0 && keep == kvLen <= maxT && (kvLen == |hist| || kvLen == 0)
      requires kvLen == |hist| ==> StackIs(c, maxT, kBufs, vBufs, tails, hist)
      requires kvp.len > 0 ==> Recorded()
      modifies this`kvLen, this`Repr, kvp
      ensures Valid() && fresh(Repr - old(Repr))
      ensures haveMemory ==> kvLen == old(kvLen) && kvp.len == old(kvp.len) && kvp.tainted == old(kvp.tainted) && kvp.fed != null
      ensures !haveMemory ==> kvLen == 0 && kvp.fed == null
    {
      hide StackIs, Sized;
      var ok := kvp.Grow(maxT, keep, haveMemory);
      if ok {
        kvLen := keep;
        Repr := Repr + {kvp.fed};
      } else {
        kvLen := 0;
      }
    }

    /** kv_alloc. A larger request re-lays-out the buffers and keeps the state and its record; a
        failed record allocation keeps neither, and reuse simply stops. Where the two lengths agreed
        as far as there was a record, growth leaves them in agreement except in one case: a record is
        created for a state that has positions but had no record. */
    method KvAlloc(newMax: nat, haveMemory: bool)
      requires Valid()
      modifies Repr
      ensures Valid() && fresh(Repr - old(Repr)) && hist == old(hist)
      ensures maxT == if newMax <= old(maxT) then old(maxT) else newMax
      ensures newMax <= old(maxT) ==> kvp.fed == old(kvp.fed)
      ensures newMax <= old(maxT) || haveMemory ==>
                kvLen == old(kvLen) && kvp.len == old(kvp.len) && kvp.tainted == old(kvp.tainted)
      ensures newMax > old(maxT) && haveMemory ==> kvp.fed != null
      ensures newMax > old(maxT) && !haveMemory ==> kvLen == 0 && kvp.fed == null
      ensures Remembered() == Grown(old(Remembered()), newMax, haveMemory)
      ensures newMax > old(maxT) && old(kvp.fed != null ==> kvLen == kvp.len) ==>
                (kvLen == kvp.len <==> !(haveMemory && old(kvp.fed == null && kvLen > 0)))
    {
      if newMax <= maxT {
        return;
      }
      hide StackIs, Sized;
      var keep := if kvLen > 0 && kvLen <= newMax then kvLen else 0;
      GrowKv(newMax, keep);
      GrowRecord(keep, haveMemory);
    }

    /** The reuse decision of serve_one: the state is that of the first `reused` tokens, what is left
        continues it to the prompt. */
    method ReuseOrReset(ids: seq<int>, frames: seq<seq<nat>>) returns (reused: nat)
      requires Valid() && ids != [] && |ids| <= maxT
      modifies Repr
      ensures Valid() && Repr == old(Repr) && maxT == old(maxT) && (kvp.fed != null ==> Recorded())
      ensures reused == Reusable(old(Remembered()).known, ids, frames) && kvLen == |hist| == reused < |ids|
      ensures hist == Tokens(c, ids, frames)[..reused] && Tokens(c, ids[reused..], frames) == Tokens(c, ids, frames)[reused..]
      ensures kvp.fed == old(kvp.fed) && !kvp.tainted
      ensures reused > 0 ==> frames == [] && !old(kvp.tainted) && old(AllText(hist)) && old(IdsOf(hist)) == ids[..reused]
      ensures frames == [] && old(kvp.len) > 0 && !old(kvp.tainted) && |old(hist)| < |ids| && old(IdsOf(hist)) <= ids ==>
                reused == |old(hist)|
    {
      hide StackIs, Sized, Separate, Foot, Distinct;
      if frames != [] {
        kvp.Taint();
      }
      reused := kvp.Reuse(ids);
      if reused == 0 {
        Reset();
        assert ids[reused..] == ids && hist + Tokens(c, ids, frames) == Tokens(c, ids, frames);
      } else {
        ReusedPrefix(c, hist, ids);
      }
    }

    /** The prefill of what is left. Whatever was in the state, the result is the state and the
        outputs of prefilling the whole prompt. */
    method Prefill(ids: seq<int>, frames: seq<seq<nat>>) returns (ok: bool, x: seq<Row>, reused: nat)
      requires Valid() && ids != [] && |ids| <= maxT && Stocked(c, caches, bounds)
      modifies Repr, foot
      ensures reused == Reusable(old(Remembered()).known, ids, frames)
      ensures ok <==> StepFits(c, bounds, Tokens(c, ids, frames)[..reused], Tokens(c, ids, frames)[reused..])
      ensures ok ==> Stocked(c, caches, bounds)
      ensures ok ==> Valid() && Repr == old(Repr) && maxT == old(maxT)
      ensures ok ==> kvp.fed == old(kvp.fed) && kvp.tainted == (frames != [])
      ensures ok ==> hist == Tokens(c, ids, frames) && kvLen == |hist| && (kvp.fed != null ==> Recorded())
      ensures reused < |ids| && (ok ==> x == Outputs(c, hist)[reused..])
      ensures ok ==> |x| > 0 && x[|x| - 1] == Outputs(c, hist)[|hist| - 1]
      ensures reused > 0 ==> frames == [] && !old(kvp.tainted) && old(AllText(hist)) && old(IdsOf(hist)) == ids[..reused]
      ensures frames == [] && old(kvp.len) > 0 && !old(kvp.tainted) && |old(hist)| < |ids| && old(IdsOf(hist)) <= ids ==>
                reused == |old(hist)|
    {
      hide StackIs, Sized, Outputs, Stocked, Separate, Foot, Distinct, AllText, IdsOf, Tokens;
      reused := ReuseOrReset(ids, frames);
      ok, x := Step(ids[reused..], reused, frames);
    }

    /** serve_one: the reply is the one a stateless engine would give, unless the engine exits. */
    method ServeOne(r: Request) returns (ok: bool, reply: Reply)
      requires Valid() && Stocked(c, caches, bounds)
      modifies Repr, foot
      ensures ok <==> RequestFits(c, bounds, old(Remembered()), r)
      ensures ok ==> Stocked(c, caches, bounds)
      ensures ok ==> Valid() && fresh(Repr - old(Repr)) && reply == Reference(c, r)
      ensures ok ==> Remembered() == After(c, old(Remembered()), r)
      ensures ok && old(kvp.fed != null ==> Recorded()) ==> (kvp.fed != null ==> Recorded())
      ensures ok && reply.Emitted? ==> (kvp.fed != null ==> Recorded())
    {
      hide StackIs, Sized, Outputs, Stocked, Separate, Foot, Distinct, TurnFits, Generate, Left, Recorded;
      if r.ids == [] || |r.ids| + r.maxTok > c.ctxMax || CountAudio(c, r.ids) != |r.frames| {
        return true, Rejected;
      }
      KvAlloc(|r.ids| + r.maxTok + 8, r.haveMemory);
      var emitted;
      ok, emitted := Turn(r);
      reply := if ok then Emitted(emitted) else Rejected;
    }

    /** An admitted request: the prompt, then the generation. */
    method Turn(r: Request) returns (ok: bool, emitted: seq<int>)
      requires Valid() && Stocked(c, caches, bounds) && r.ids != [] && |r.ids| + r.maxTok <= maxT
      modifies Repr, foot
      ensures ok <==> TurnFits(c, bounds, old(Remembered()).known, r)
      ensures ok ==> Stocked(c, caches, bounds)
      ensures ok ==> Valid() && Repr == old(Repr) && Remembered() == Left(c, old(Remembered()), r)
      ensures ok ==> (kvp.fed != null ==> Recorded()) && emitted == Generate(c, r, Tokens(c, r.ids, r.frames), [], 0)
    {
      hide StackIs, Sized, Outputs, Stocked, StepFits, GenerateFits, Generate, Consumed, IdsOf, AllText, Separate, Foot, Distinct;
      var x, reused;
      ok, x, reused := Prefill(r.ids, r.frames);
      if !ok {
        return false, [];
      }
      ok, emitted := Decode(r, x[|x| - 1]);
    }

    /** The generation loop: sample, stop on eos, cancel or the limit, feed the token back. */
    method Decode(r: Request, row0: Row) returns (ok: bool, emitted: seq<int>)
      requires Valid() && hist != [] && kvLen == |hist| && |hist| + r.maxTok <= maxT
      requires kvp.fed != null ==> Recorded()
      requires row0 == Outputs(c, hist)[|hist| - 1] && Stocked(c, caches, bounds)
      modifies Repr, foot
      ensures ok <==> GenerateFits(c, bounds, r, old(hist), [], 0)
      ensures ok ==> Stocked(c, caches, bounds) && maxT == old(maxT) && kvp.fed == old(kvp.fed) && kvp.tainted == old(kvp.tainted)
      ensures ok ==> hist == Consumed(c, r, old(hist), [], 0)
      ensures ok ==> Valid() && Repr == old(Repr) && (kvp.fed != null ==> Recorded())
      ensures ok ==> emitted == Generate(c, r, old(hist), [], 0)
    {
      hide StackIs, Sized, Outputs, Stocked, Separate, Foot, Distinct;
      ok, emitted := true, [];
      var row, s := row0, 0;
      ghost var want, fits, fed := Generate(c, r, hist, [], 0), GenerateFits(c, bounds, r, hist, [], 0), Consumed(c, r, hist, [], 0);
      while s < r.maxTok
        invariant s <= r.maxTok && Valid() && Repr == old(Repr) && maxT == old(maxT)
        invariant Stocked(c, caches, bounds)
        invariant |emitted| == s && hist != [] && kvLen == |hist| == |old(hist)| + s && (kvp.fed != null ==> Recorded())
        invariant row == Outputs(c, hist)[|hist| - 1]
        invariant want == Generate(c, r, hist, emitted, s)
        invariant fits <==> GenerateFits(c, bounds, r, hist, emitted, s)
        invariant fed == Consumed(c, r, hist, emitted, s)
        invariant kvp.fed == old(kvp.fed) && kvp.tainted == old(kvp.tainted)
      {
        var tk := r.sample(c.logits(row), r.ids + emitted);
        if tk == c.eos {
          return;
        }
        emitted := emitted + [tk];
        if r.cancel(s) || s + 1 == r.maxTok {
          return;
        }
        GenerateOn(c, bounds, r, hist, emitted[..s], s, tk);
        var x;
        ok, x := Step([tk], kvLen, []);
        if !ok {
          return;
        }
        row, s := x[|x| - 1], s + 1;
      }
    }

    /** Whole runs: any list of requests, with growth, failed growth, audio, refusals, cancels and
        reuse in any order, is answered request by request as if the engine had no state. Only an
        exit inside moe() ends the session early, and none does when every sparse layer's cache is
        unpinned or has a slot for every expert. */
    method Serve(rs: seq<Request>) returns (ok: bool, replies: seq<Reply>)
      requires Valid() && Stocked(c, caches, bounds)
      modifies Repr, foot
      ensures |replies| == Answered(c, bounds, old(Remembered()), rs) && (ok <==> |replies| == |rs|)
      ensures ok ==> Valid() && fresh(Repr - old(Repr)) && Stocked(c, caches, bounds)
      ensures forall i :: 0 <= i < |replies| ==> replies[i] == Reference(c, rs[i])
    {
      hide *;
      ok, replies := true, [];
      assert rs[0..] == rs;
      for i := 0 to |rs|
        invariant Valid() && fresh(Repr - old(Repr)) && Stocked(c, caches, bounds)
        invariant Answered(c, bounds, old(Remembered()), rs) == i + Answered(c, bounds, Remembered(), rs[i..])
        invariant |replies| == i && forall j :: 0 <= j < i ==> replies[j] == Reference(c, rs[j])
      {
        AnsweredNext(c, bounds, Remembered(), rs, i);
        var reply;
        ok, reply := ServeOne(rs[i]);
        if !ok {
          return;
        }
        replies := replies + [reply];
      }
      AnsweredAll(c, bounds, Remembered(), rs);
    }
  }

  /** The agreement of kv_len with the grown record does fail in that one case: growth without
      memory, a turn, then a growth with memory leaves kv_len at 1 and the record empty. */
  method Disagreement(m: Model) returns (kvLen: nat, recorded: nat)
    requires m.Valid() && m.maxT == 0 && Stocked(m.c, m.caches, m.bounds)
    requires StepFits(m.c, m.bounds, [], Tokens(m.c, [7], []))
    modifies m.Repr, m.foot
    ensures kvLen == 1 && recorded == 0 && m.kvLen == kvLen && m.kvp.len == recorded
  {
    hide StackIs, Sized, Outputs, Stocked, Separate, Foot, Distinct;
    m.KvAlloc(9, false);
    m.Reset();
    var ok, x := m.Step([7], 0, []);
    m.KvAlloc(20, true);
    kvLen, recorded := m.kvLen, m.kvp.len;
  }

  // ---------------------------------------------------------------- from start-up on

  /** One layer's cache: made, and pinned from the usage history on a sparse layer. */
  method StartCache(l: Layer, u: Startup, counts: seq<nat>) returns (m: Cache)
    requires l.feed.Mixture? ==> Sound(l.feed.moe) && |counts| == l.feed.moe.experts
    ensures fresh(m) && fresh(m.slots) && fresh(m.index) && Serves(m, l.feed)
    ensures BoundsOf(m) == LayerBounds(l, u, counts)
  {
    match l.feed
    case Dense(g) =>
      m := new Cache(u.cap, 0, _ => []);
    case Mixture(e) =>
      m := new Cache(u.cap, e.experts, e.load);
      var npin := m.PinsLoad(counts, u.pinN);
  }

  method StartCaches(c: Config, u: Startup) returns (caches: seq<Cache>, ghost foot: set<object>)
    requires Startable(c, u)
    ensures Stocked(c, caches, StartBounds(c, u)) && Separate(caches) && foot == Foot(caches) && fresh(foot)
  {
    hide Serves, BoundsOf, LayerBounds;
    caches := [];
    for i := 0 to |c.layers|
      invariant |caches| == i && Separate(caches)
      invariant forall j :: 0 <= j < i ==> fresh(caches[j]) && fresh(caches[j].slots) && fresh(caches[j].index)
      invariant forall j :: 0 <= j < i ==> Serves(caches[j], c.layers[j].feed)
      invariant forall j :: 0 <= j < i ==> BoundsOf(caches[j]) == LayerBounds(c.layers[j], u, u.counts[j])
    {
      var m := StartCache(c.layers[i], u, u.counts[i]);
      caches := caches + [m];
    }
    foot := Foot(caches);
  }

  /** A whole session from start-up: every reply given is the stateless engine's, the session ends
      exactly at the first request that does not fit, and with no pins or with a slot for every
      expert all requests are answered. */
  method Session(c: Config, u: Startup, rs: seq<Request>) returns (ok: bool, replies: seq<Reply>)
    requires Startable(c, u)
    ensures |replies| == Answered(c, StartBounds(c, u), Fresh, rs) && (ok <==> |replies| == |rs|)
    ensures forall i :: 0 <= i < |replies| ==> replies[i] == Reference(c, rs[i])
    ensures (forall i :: 0 <= i < |c.layers| ==> NoExitFrom(c.layers[i], u, u.counts[i])) ==> ok
  {
    hide StackIs, Sized, Stocked, Separate, Foot, Distinct, Answered, Reference, NoExitFrom, AllRoomy, LayerBounds, StartBounds, Sound;
    var caches;
    ghost var foot;
    caches, foot := StartCaches(c, u);
    var kvp := new Prefix();
    var ks, vs := EmptyBuffers(c);
    var m := new Model(c, kvp, ks, vs, caches, StartBounds(c, u));
    if forall i :: 0 <= i < |c.layers| ==> NoExitFrom(c.layers[i], u, u.counts[i]) {
      RoomyStart(c, u);
      RoomyAnswers(c, StartBounds(c, u), Fresh, rs);
    }
    ok, replies := m.Serve(rs);
  }
}
