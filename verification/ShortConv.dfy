/** sconv_apply: a causal convolution whose state is the last P inputs. */
module ShortConv {
  import opened Wrappers

  /** n consecutive elements from t on. */
  function Window<T>(a: seq<T>, t: nat, n: nat): seq<T>
    requires t + n <= |a|
  {
    a[t..t + n]
  }

  /** Outputs for xs when the P inputs before it were tail; f sees P + 1 consecutive inputs. */
  function Filtered<T>(f: seq<T> -> T, tail: seq<T>, xs: seq<T>): (r: seq<T>)
    ensures |r| == |xs|
  {
    seq(|xs|, t requires 0 <= t < |xs| => f(Window(tail + xs, t, |tail| + 1)))
  }

  /** The state afterwards: the last P inputs, reaching back into the old state if xs is short. */
  function TailAfter<T>(tail: seq<T>, xs: seq<T>): (r: seq<T>)
    ensures |r| == |tail|
  {
    (tail + xs)[|xs|..]
  }

  lemma WindowPrefix<T>(a: seq<T>, b: seq<T>, t: nat, n: nat)
    requires t + n <= |a|
    ensures Window(a + b, t, n) == Window(a, t, n)
  {
  }

  lemma WindowDrop<T>(a: seq<T>, k: nat, t: nat, n: nat)
    requires k + t + n <= |a|
    ensures Window(a, k + t, n) == Window(a[k..], t, n)
  {
  }

  /** Streaming: two consecutive chunks of any lengths act as their concatenation. */
  lemma Streaming<T>(f: seq<T> -> T, tail: seq<T>, xs: seq<T>, ys: seq<T>)
    ensures Filtered(f, tail, xs + ys) == Filtered(f, tail, xs) + Filtered(f, TailAfter(tail, xs), ys)
    ensures TailAfter(tail, xs + ys) == TailAfter(TailAfter(tail, xs), ys)
  {
    var all, mid, n := tail + (xs + ys), TailAfter(tail, xs), |tail| + 1;
    assert all == (tail + xs) + ys;
    assert all[|xs|..] == mid + ys;
    forall t | 0 <= t < |xs|
      ensures Window(all, t, n) == Window(tail + xs, t, n)
    {
      WindowPrefix(tail + xs, ys, t, n);
    }
    forall t | 0 <= t < |ys|
      ensures Window(all, |xs| + t, n) == Window(mid + ys, t, n)
    {
      WindowDrop(all, |xs|, t, n);
    }
  }

  /** Any split: feeding the chunks one after another equals feeding everything at once. */
  function Flatten<T>(chunks: seq<seq<T>>): seq<T> {
    if chunks == [] then [] else chunks[0] + Flatten(chunks[1..])
  }

  function Streamed<T>(f: seq<T> -> T, tail: seq<T>, chunks: seq<seq<T>>): (seq<T>, seq<T>)
    decreases |chunks|
  {
    if chunks == [] then ([], tail)
    else
      var (out, last) := Streamed(f, TailAfter(tail, chunks[0]), chunks[1..]);
      (Filtered(f, tail, chunks[0]) + out, last)
  }

  lemma {:induction false} StreamingChunks<T>(f: seq<T> -> T, tail: seq<T>, chunks: seq<seq<T>>)
    decreases |chunks|
    ensures Streamed(f, tail, chunks) == (Filtered(f, tail, Flatten(chunks)), TailAfter(tail, Flatten(chunks)))
  {
    if chunks == [] {
      assert tail + [] == tail;
    } else {
      StreamingChunks(f, TailAfter(tail, chunks[0]), chunks[1..]);
      Streaming(f, tail, chunks[0], Flatten(chunks[1..]));
    }
  }

  // ---------------------------------------------------------------- the array loops

  /** The inner product, accumulated left to right. */
  function Accumulate(w: seq<real>, win: seq<real>, n: nat): real
    requires n <= |w| && n <= |win|
  {
    if n == 0 then 0.0 else Accumulate(w, win, n - 1) + w[n - 1] * win[n - 1]
  }

  /** One output of one channel: the inner product plus the current input. */
  function Tap(w: seq<real>, win: seq<real>): real {
    if |win| != |w| || win == [] then 0.0 else Accumulate(w, win, |w|) + win[|win| - 1]
  }

  function Kernel(w: seq<real>): seq<real> -> real { win => Tap(w, win) }

  lemma {:induction false} OneTap(w: seq<real>, win: seq<real>, n: nat, k: int)
    requires n <= |w| && n <= |win| && forall j :: 0 <= j < |win| && j != k ==> win[j] == 0.0
    ensures Accumulate(w, win, n) == if 0 <= k < n then w[k] * win[k] else 0.0
  {
    if n > 0 {
      OneTap(w, win, n - 1, k);
    }
  }

  /** One input a at time u, with zeros before and after: it comes out under the last weight at once,
      under the one before it a step later, and so on, and itself once on top. */
  lemma Impulse(w: seq<real>, tail: seq<real>, xs: seq<real>, u: nat, a: real, t: nat)
    requires |w| == |tail| + 1 && u < |xs| && t < |xs| && xs[u] == a
    requires (forall j :: 0 <= j < |tail| ==> tail[j] == 0.0) && forall j :: 0 <= j < |xs| && j != u ==> xs[j] == 0.0
    ensures Filtered(Kernel(w), tail, xs)[t] ==
            (if u <= t <= u + |tail| then w[|tail| - (t - u)] * a else 0.0) + if t == u then a else 0.0
  {
    var win := Window(tail + xs, t, |w|);
    forall j | 0 <= j < |win|
      ensures win[j] == if t + j == |tail| + u then a else 0.0
    {
      assert win[j] == (tail + xs)[t + j];
    }
    OneTap(w, win, |w|, |tail| + u - t);
  }

  /** Offset of channel ch at time t in a time-major [n][c] buffer; also of element t of band
      ch in a channel-major one, with the roles of the arguments exchanged. */
  function At(c: nat, t: nat, ch: nat): nat { t * c + ch }

  lemma {:induction false} AtBound(n: nat, c: nat, t: nat, ch: nat)
    requires t < n && ch < c
    ensures At(c, t, ch) < n * c
  {
    assert (t + 1) * c <= n * c;
  }

  lemma {:induction false} AtDistinct(c: nat, t: nat, ch: nat, t2: nat, ch2: nat)
    requires ch < c && ch2 < c && At(c, t, ch) == At(c, t2, ch2)
    ensures t == t2 && ch == ch2
  {
    var d := t - t2;
    assert d * c == ch2 - ch;
    Scale(c, d);
  }

  /** Channel ch of a time-major buffer. */
  function Column(a: seq<real>, n: nat, c: nat, ch: nat): (r: seq<real>)
    requires ch < c && |a| == n * c
    ensures |r| == n
  {
    seq(n, t requires 0 <= t < n => AtBound(n, c, t, ch); a[At(c, t, ch)])
  }

  /** Channel ch of a channel-major [c][p] buffer. */
  function Band(a: seq<real>, c: nat, p: nat, ch: nat): (r: seq<real>)
    requires ch < c && |a| == c * p
    ensures |r| == p
  {
    seq(p, j requires 0 <= j < p => AtBound(c, p, ch, j); a[At(p, ch, j)])
  }

  method LoadChannel(x: array<real>, s: nat, c: nat, ch: nat, state: array<real>, p: nat) returns (col: array<real>)
    requires ch < c && x.Length == s * c && state.Length == c * p
    ensures fresh(col) && col[..] == Band(state[..], c, p, ch) + Column(x[..], s, c, ch)
  {
    col := new real[p + s];
    for j := 0 to p
      invariant col[..j] == Band(state[..], c, p, ch)[..j]
    {
      AtBound(c, p, ch, j);
      col[j] := state[At(p, ch, j)];
    }
    for t := 0 to s
      invariant col[..p] == Band(state[..], c, p, ch)
      invariant forall k :: 0 <= k < t ==> col[p + k] == Column(x[..], s, c, ch)[k]
    {
      AtBound(s, c, t, ch);
      col[p + t] := x[At(c, t, ch)];
    }
    assert col[..] == col[..p] + col[p..];
    assert col[p..] == Column(x[..], s, c, ch);
  }

  method Dot(w: seq<real>, col: array<real>, t: nat) returns (acc: real)
    requires t + |w| <= col.Length
    ensures acc == Accumulate(w, Window(col[..], t, |w|), |w|)
  {
    ghost var win := Window(col[..], t, |w|);
    acc := 0.0;
    for j := 0 to |w|
      invariant acc == Accumulate(w, win, j)
    {
      assert win[j] == col[t + j];
      acc := acc + w[j] * col[t + j];
    }
  }

  method WriteOutputs(x: array<real>, s: nat, c: nat, ch: nat, w: seq<real>, col: array<real>, p: nat)
    requires ch < c && x.Length == s * c && |w| == p + 1 && x != col && col.Length == p + s
    modifies x
    ensures Column(x[..], s, c, ch) == Filtered(Kernel(w), col[..p], col[p..])
    ensures forall k :: 0 <= k < c && k != ch ==> Column(x[..], s, c, k) == old(Column(x[..], s, c, k))
  {
    ghost var was, want := x[..], Filtered(Kernel(w), col[..p], col[p..]);
    assert col[..p] + col[p..] == col[..];
    for t := 0 to s
      invariant forall k :: 0 <= k < t ==> Column(x[..], s, c, ch)[k] == want[k]
      invariant forall k :: 0 <= k < c && k != ch ==> Column(x[..], s, c, k) == Column(was, s, c, k)
    {
      var acc := Dot(w, col, t);
      assert Window(col[..], t, p + 1)[p] == col[p + t];
      assert want[t] == acc + col[p + t];
      ghost var before := x[..];
      AtBound(s, c, t, ch);
      x[At(c, t, ch)] := acc + col[p + t];
      Overwrite(before, x[..], s, c, t, ch);
    }
  }

  /** Writing one cell changes one element of one column. */
  lemma {:induction false} Overwrite(a: seq<real>, b: seq<real>, n: nat, c: nat, t: nat, ch: nat)
    requires t < n && ch < c && |a| == |b| == n * c && At(c, t, ch) < |a|
    requires b == a[At(c, t, ch) := b[At(c, t, ch)]]
    ensures Column(b, n, c, ch) == Column(a, n, c, ch)[t := b[At(c, t, ch)]]
    ensures forall k :: 0 <= k < c && k != ch ==> Column(b, n, c, k) == Column(a, n, c, k)
  {
    forall t2, k | 0 <= t2 < n && 0 <= k < c && (t2 != t || k != ch)
      ensures At(c, t2, k) < |a| && a[At(c, t2, k)] == b[At(c, t2, k)]
    {
      AtBound(n, c, t2, k);
      if At(c, t2, k) == At(c, t, ch) {
        AtDistinct(c, t, ch, t2, k);
      }
    }
  }

  method StoreTail(state: array<real>, c: nat, p: nat, ch: nat, col: array<real>, s: nat)
    requires ch < c && state.Length == c * p && col.Length == p + s && state != col
    modifies state
    ensures Band(state[..], c, p, ch) == col[s..]
    ensures forall k :: 0 <= k < c && k != ch ==> Band(state[..], c, p, k) == old(Band(state[..], c, p, k))
  {
    ghost var was := state[..];
    for j := 0 to p
      invariant forall i :: 0 <= i < j ==> Band(state[..], c, p, ch)[i] == col[s + i]
      invariant forall k :: 0 <= k < c && k != ch ==> Band(state[..], c, p, k) == Band(was, c, p, k)
    {
      ghost var before := state[..];
      AtBound(c, p, ch, j);
      state[At(p, ch, j)] := col[s + j];
      OverwriteBand(before, state[..], c, p, ch, j);
    }
  }

  lemma {:induction false} OverwriteBand(a: seq<real>, b: seq<real>, c: nat, p: nat, ch: nat, j: nat)
    requires ch < c && j < p && |a| == |b| == c * p && At(p, ch, j) < |a|
    requires b == a[At(p, ch, j) := b[At(p, ch, j)]]
    ensures Band(b, c, p, ch) == Band(a, c, p, ch)[j := b[At(p, ch, j)]]
    ensures forall k :: 0 <= k < c && k != ch ==> Band(b, c, p, k) == Band(a, c, p, k)
  {
    forall k, i | 0 <= k < c && 0 <= i < p && (k != ch || i != j)
      ensures At(p, k, i) < |a| && a[At(p, k, i)] == b[At(p, k, i)]
    {
      AtBound(c, p, k, i);
      if At(p, k, i) == At(p, ch, j) {
        AtDistinct(p, ch, j, k, i);
      }
    }
  }

  /** The weights of channel ch in the [c][k] kernel buffer. */
  function Weights(w: seq<real>, c: nat, k: nat, ch: nat): (r: seq<real>)
    requires ch < c && |w| == c * k
    ensures |r| == k
  {
    Band(w, c, k, ch)
  }

  /** sconv_apply: every channel is filtered over its own history, in place, and its state
      becomes its new tail. */
  method Apply(x: array<real>, s: nat, c: nat, w: seq<real>, state: array<real>, p: nat)
    requires x.Length == s * c && state.Length == c * p && |w| == c * (p + 1) && x != state
    modifies x, state
    ensures forall ch :: 0 <= ch < c ==>
              Column(x[..], s, c, ch) ==
              Filtered(Kernel(Weights(w, c, p + 1, ch)), old(Band(state[..], c, p, ch)), old(Column(x[..], s, c, ch)))
    ensures forall ch :: 0 <= ch < c ==>
              Band(state[..], c, p, ch) == TailAfter(old(Band(state[..], c, p, ch)), old(Column(x[..], s, c, ch)))
  {
    ghost var x0, st0 := x[..], state[..];
    for ch := 0 to c
      invariant forall k :: 0 <= k < ch ==>
                  Column(x[..], s, c, k) ==
                  Filtered(Kernel(Weights(w, c, p + 1, k)), Band(st0, c, p, k), Column(x0, s, c, k))
      invariant forall k :: 0 <= k < ch ==> Band(state[..], c, p, k) == TailAfter(Band(st0, c, p, k), Column(x0, s, c, k))
      invariant forall k :: ch <= k < c ==> Column(x[..], s, c, k) == Column(x0, s, c, k)
      invariant forall k :: ch <= k < c ==> Band(state[..], c, p, k) == Band(st0, c, p, k)
    {
      var col := LoadChannel(x, s, c, ch, state, p);
      ghost var tail, xs := Band(st0, c, p, ch), Column(x0, s, c, ch);
      assert col[..p] == tail && col[p..] == xs && col[s..] == TailAfter(tail, xs);
      WriteOutputs(x, s, c, ch, Weights(w, c, p + 1, ch), col, p);
      StoreTail(state, c, p, ch, col, s);
    }
  }

  // ---------------------------------------------------------------- rows instead of channels

  /** Channel ch of a list of rows. */
  function Chan(rows: seq<seq<real>>, ch: nat): (r: seq<real>)
    ensures |r| == |rows|
  {
    seq(|rows|, t requires 0 <= t < |rows| => if ch < |rows[t]| then rows[t][ch] else 0.0)
  }

  /** All channels of one output row as one function of the window of rows. */
  function Depthwise(w: seq<real>, c: nat, k: nat): seq<seq<real>> -> seq<real>
    requires |w| == c * k
  {
    win => seq(c, ch requires 0 <= ch < c => Tap(Weights(w, c, k, ch), Chan(win, ch)))
  }

  lemma ChanJoin(a: seq<seq<real>>, b: seq<seq<real>>, ch: nat)
    ensures Chan(a + b, ch) == Chan(a, ch) + Chan(b, ch)
  {
  }

  lemma ChanWindow(a: seq<seq<real>>, t: nat, n: nat, ch: nat)
    requires t + n <= |a|
    ensures Chan(Window(a, t, n), ch) == Window(Chan(a, ch), t, n)
  {
  }

  /** Filtering rows depthwise is what Apply does channel by channel. */
  lemma RowsAreChannels(w: seq<real>, c: nat, tail: seq<seq<real>>, xs: seq<seq<real>>, ch: nat)
    requires |w| == c * (|tail| + 1) && ch < c
    ensures Chan(Filtered(Depthwise(w, c, |tail| + 1), tail, xs), ch)
         == Filtered(Kernel(Weights(w, c, |tail| + 1, ch)), Chan(tail, ch), Chan(xs, ch))
    ensures Chan(TailAfter(tail, xs), ch) == TailAfter(Chan(tail, ch), Chan(xs, ch))
  {
    ChanJoin(tail, xs, ch);
    var n := |tail| + 1;
    var rows := Chan(Filtered(Depthwise(w, c, n), tail, xs), ch);
    var chan := Filtered(Kernel(Weights(w, c, n, ch)), Chan(tail, ch), Chan(xs, ch));
    forall t | 0 <= t < |xs|
      ensures rows[t] == chan[t]
    {
      ChanWindow(tail + xs, t, n, ch);
    }
  }
}
