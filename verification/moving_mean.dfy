/**
 * The moving-window mean accumulator as a state machine over immutable states.
 *
 * The factory validates a window size `W` and returns a closure over five pieces of state:
 * a circular buffer of `W` doubles (initially zeros), a running mean (initially 0), a count
 * (initially 0), a cursor (initially -1) and `W` itself. Calling the closure with no
 * argument queries the mean; calling it with a sample folds the sample in. Here the state is
 * the datatype `Acc`, and query and update are functions from one state to the next.
 */
module MovingMean {
  import opened Wrappers
  import opened Validate
  import opened Samples

  /** The closure's state. */
  datatype Acc = Acc(window: nat, buffer: seq<Sample>, mean: Sample, count: nat, cursor: int)

  /** The shape every reachable state has. */
  predicate Wf(a: Acc) {
    && a.window > 0
    && |a.buffer| == a.window
    && -1 <= a.cursor < a.window
    && a.count <= a.window
  }

  /** The slot after `c` in a circular buffer of `W` slots (slot 0 after slot -1 and `W - 1`). */
  function Succ(c: int, W: nat): nat
    requires W > 0
  {
    (c + 1) % W
  }

  /** The slot the next sample is written to, which is also the slot it evicts. */
  function Next(a: Acc): nat
    requires Wf(a)
  {
    Succ(a.cursor, a.window)
  }

  /** The factory's failure: a `TypeError` reporting the rejected window size. */
  datatype Error = TypeError(value: JsValue)

  /** The state right after construction. */
  function Init(W: nat): Acc
    requires W > 0
  {
    Acc(W, Zeros(W), Num(0.0), 0, -1)
  }

  /**
   * The factory: throws unless the window size is a positive primitive integer, and
   * otherwise starts with an all-zero buffer, mean 0, count 0 and cursor -1, a state
   * that stands for the empty history.
   */
  function Create(v: JsValue): (r: Result<Acc, Error>)
    ensures r.Success? <==> IsPositivePrimitiveInteger(v)
    ensures r.Failure? ==> r.error == TypeError(v)
    ensures r.Success? ==> && r.value.window as real == v.num.r
                           && r.value.buffer == Zeros(r.value.window)
                           && r.value.count == 0 && r.value.cursor == -1
                           && r.value.mean == Num(0.0)
                           && Tracks(r.value, [])
  {
    if IsPositivePrimitiveInteger(v) then Success(Init(v.num.r.Floor as nat))
    else Failure(TypeError(v))
  }

  /** A call with no argument: `null` while nothing has been absorbed, else the mean. */
  function Query(a: Acc): Option<Sample> {
    if a.count == 0 then None else Some(a.mean)
  }

  /**
   * What the recovery rescan computes, in closed form: the new sample and every stored
   * slot except the one being overwritten, averaged over the window, or NaN as soon as one
   * of those slots holds NaN. `Closure.Rescan` proves the source's incremental loop equal
   * to this.
   */
  function Recovered(b: seq<Sample>, n: nat, o: real): Sample
    requires n < |b|
  {
    var rest := Others(b, n);
    if NaN in rest then NaN else Num((o + Sum(rest)) / |b| as real)
  }

  /**
   * A call with one sample `o`. The cursor advances circularly and `o` is stored at the new
   * cursor; before that, the count and mean change by one of four rules:
   * a NaN sample poisons (count := W, mean := NaN); while filling, the incremental mean;
   * when the slot being overwritten holds NaN, the recovery rescan; otherwise the sliding
   * update `mean + (o - evicted) / W`, skipped while the mean is NaN.
   * The closure returns the new mean.
   */
  function Update(a: Acc, o: Sample): (r: Acc)
    requires Wf(a)
    ensures Wf(r) && r.window == a.window
    ensures r.cursor == Next(a) && r.buffer == a.buffer[r.cursor := o]
    ensures 1 <= r.count && a.count <= r.count
    ensures o.Num? && a.count < a.window ==> r.count == a.count + 1
    ensures o.NaN? ==> r.count == a.window && r.mean == NaN
  {
    var W := a.window;
    var n := Next(a);
    var b := a.buffer[n := o];
    if o.NaN? then
      Acc(W, b, NaN, W, n)
    else if a.count < W then
      var k := a.count + 1;
      var t := if a.mean.NaN? then NaN else Num(a.mean.v + (o.v - a.mean.v) / k as real);
      Acc(W, b, t, k, n)
    else if a.buffer[n].NaN? then
      Acc(W, b, Recovered(a.buffer, n, o.v), W, n)
    else if a.mean.NaN? then
      Acc(W, b, NaN, a.count, n)
    else
      Acc(W, b, Num(a.mean.v + (o.v - a.buffer[n].v) / W as real), a.count, n)
  }

  /**
   * `a` is the state the accumulator reaches after absorbing the history `h`:
   * - the cursor is where `|h|` circular advances from -1 lead;
   * - the count is `W` once the window has filled or a NaN has arrived, else `|h|`;
   * - while filling, the buffer holds the history followed by zeros; afterwards, read
   *   circularly from the slot after the cursor, it holds the last `W` samples in order;
   * - the mean is the reference window mean (0 before any sample).
   */
  ghost predicate Tracks(a: Acc, h: seq<Sample>) {
    && Wf(a)
    && a.cursor == CursorAfter(|h|, a.window)
    && a.count == (if |h| >= a.window || NaN in h then a.window else |h|)
    && BufferHolds(a.buffer, a.cursor, h)
    && a.mean == (if |h| == 0 then Num(0.0) else WindowMean(h, a.window))
  }

  /** The freshly constructed state stands for the empty history. */
  lemma InitTracksNothing(W: nat)
    requires W > 0
    ensures Tracks(Init(W), [])
  {
    assert Init(W).buffer == [] + Zeros(W);
  }

  /**
   * The buffer clause of `Tracks`: while filling, the history followed by zeros; once full,
   * read circularly from the slot after cursor `c`, exactly the last `|B|` samples.
   */
  ghost predicate BufferHolds(B: seq<Sample>, c: int, h: seq<Sample>)
    requires 0 < |B| && -1 <= c < |B|
  {
    if |h| < |B| then B == h + Zeros(|B| - |h|)
    else Rotate(B, Succ(c, |B|)) == h[|h| - |B|..]
  }

  /** A query answers `null` exactly before the first sample and the window mean after. */
  lemma QueryReportsWindowMean(a: Acc, h: seq<Sample>)
    requires Tracks(a, h)
    ensures Query(a) == None <==> |h| == 0
    ensures |h| > 0 ==> Query(a) == Some(WindowMean(h, a.window))
  {
  }

  // ---------------------------------------------------------------------------------
  // Arithmetic facts

  /** The cursor after `m` updates: -1 at first, then advancing circularly by one slot. */
  function CursorAfter(m: nat, W: nat): (c: int)
    requires W > 0
    ensures -1 <= c < W
  {
    if m == 0 then -1 else Succ(CursorAfter(m - 1, W), W)
  }

  /** Advancing the cursor by one slot: the next slot, or slot 0 after the last one. */
  lemma Advance(c: int, W: nat)
    requires W > 0 && -1 <= c < W
    ensures Succ(c, W) == if c + 1 == W then 0 else c + 1
  {
  }

  /** Until the window has filled once, the cursor is the index of the last sample. */
  lemma {:induction false} CursorWhileFilling(m: nat, W: nat)
    requires 0 < W && m <= W
    ensures CursorAfter(m, W) == m - 1
  {
    if m > 0 {
      CursorWhileFilling(m - 1, W);
      Advance(m - 2, W);
    }
  }

  /** One step of the incremental mean turns `t * k` into `t * k + x`. */
  lemma IncrementalStep(t: real, k: nat, x: real)
    ensures (t + (x - t) / (k + 1) as real) * (k + 1) as real == t * k as real + x
  {
    var d := (x - t) / (k + 1) as real;
    assert d * (k + 1) as real == x - t;
  }

  /** The sliding step turns the mean `s / W` into the mean `(s - e + x) / W`. */
  lemma SlidingStep(t: real, s: real, W: nat, e: real, x: real)
    requires W > 0 && t == s / W as real
    ensures t + (x - e) / W as real == (s - e + x) / W as real
  {
    var d := (x - e) / W as real;
    assert d * W as real == x - e;
    assert t * W as real == s;
    MeanOf(t + d, s - e + x, W);
  }

  /** The incremental step turns the mean of `k` values into the mean of those and `x`. */
  lemma IncrementalMean(t: real, s: real, k: nat, x: real)
    requires t * k as real == s
    ensures t + (x - t) / (k + 1) as real == (s + x) / (k + 1) as real
  {
    IncrementalStep(t, k, x);
    MeanOf(t + (x - t) / (k + 1) as real, s + x, k + 1);
  }

  /** A mean given as `s / k` is the `t` with `t * k == s`. */
  lemma MeanOf(t: real, s: real, k: nat)
    requires k > 0
    ensures t * k as real == s <==> t == s / k as real
  {
  }

  // ---------------------------------------------------------------------------------
  // The update keeps the abstraction

  /** While filling, the sample goes right after the history, ahead of the zeros. */
  lemma BufferFills(B: seq<Sample>, h: seq<Sample>, o: Sample)
    requires |h| < |B| && B == h + Zeros(|B| - |h|)
    ensures var B', h' := B[|h| := o], h + [o];
            if |h'| < |B| then B' == h' + Zeros(|B| - |h'|) else B' == h'
  {
  }

  /**
   * Once full, overwriting the oldest slot `s` with `o` turns the buffer read from `s` into
   * the buffer read from the following slot, with the oldest sample dropped and `o` added.
   */
  lemma BufferSlides(B: seq<Sample>, s: nat, o: Sample)
    requires s < |B|
    ensures var s' := if s + 1 == |B| then 0 else s + 1;
            Rotate(B[s := o], s') == Rotate(B, s)[1..] + [o]
  {
    var B' := B[s := o];
    if s + 1 < |B| {
      assert Rotate(B, s)[1..] == B[s + 1..] + B[..s];
      assert B'[s + 1..] == B[s + 1..];
      assert B'[..s + 1] == B[..s] + [o];
    } else {
      assert Rotate(B, s)[1..] == B[..s];
      assert B' == B[..s] + [o];
    }
  }

  /** The buffer and cursor clauses of `Tracks` survive writing a sample at the next slot. */
  lemma BufferAdvances(B: seq<Sample>, c: int, h: seq<Sample>, o: Sample)
    requires 0 < |B| && -1 <= c < |B| && c == CursorAfter(|h|, |B|)
    requires BufferHolds(B, c, h)
    ensures var s := Succ(c, |B|);
            s == CursorAfter(|h| + 1, |B|) && BufferHolds(B[s := o], s, h + [o])
  {
    if |h| < |B| {
      FillingAdvances(B, c, h, o);
    } else {
      FullAdvances(B, c, h, o);
    }
  }

  /** While filling, the next sample lands right after the history. */
  lemma FillingAdvances(B: seq<Sample>, c: int, h: seq<Sample>, o: Sample)
    requires |h| < |B| && c == CursorAfter(|h|, |B|) && B == h + Zeros(|B| - |h|)
    ensures BufferHolds(B[Succ(c, |B|) := o], Succ(c, |B|), h + [o])
  {
    var W, m, h' := |B|, |h|, h + [o];
    assert c == m - 1 by {
      CursorWhileFilling(m, W);
    }
    assert Succ(c, W) == m by {
      Advance(c, W);
    }
    BufferFills(B, h, o);
    if m + 1 == W {
      assert Succ(m, W) == 0 by {
        Advance(m, W);
      }
      assert Rotate(h', 0) == h'[0..];
    }
  }

  /** Once full, the next sample overwrites the oldest one and the window slides by one. */
  lemma FullAdvances(B: seq<Sample>, c: int, h: seq<Sample>, o: Sample)
    requires 0 < |B| <= |h| && -1 <= c < |B| && Rotate(B, Succ(c, |B|)) == h[|h| - |B|..]
    ensures BufferHolds(B[Succ(c, |B|) := o], Succ(c, |B|), h + [o])
  {
    var W, m, s := |B|, |h|, Succ(c, |B|);
    var s' := if s + 1 == W then 0 else s + 1;
    assert Succ(s, W) == s' by {
      Advance(s, W);
    }
    BufferSlides(B, s, o);
    assert (h + [o])[m + 1 - W..] == h[m - W..][1..] + [o];
  }

  /** Absorbing a NaN makes the window mean NaN. */
  lemma PoisonedWindow(h: seq<Sample>, W: nat)
    requires W > 0
    ensures WindowMean(h + [NaN], W) == NaN
  {
    var h' := h + [NaN];
    assert h'[|h'| - 1] == NaN;
    if |h'| > W {
      assert Window(h', W)[W - 1] == NaN;
    }
  }

  /** The filling branch: the incremental mean is the mean of the whole history. */
  lemma FillingMean(a: Acc, h: seq<Sample>, o: Sample)
    requires Tracks(a, h) && o.Num? && a.count < a.window
    ensures a.mean.Num?
    ensures Num(a.mean.v + (o.v - a.mean.v) / (a.count + 1) as real) == WindowMean(h + [o], a.window)
  {
    var W, m, h' := a.window, |h|, h + [o];
    assert m < W && NaN !in h && a.count == m;
    assert a.mean.Num? && a.mean.v * m as real == Sum(h) by {
      if m > 0 {
        MeanOf(a.mean.v, Sum(h), m);
      }
    }
    assert WindowMean(h', W) == Num((Sum(h) + o.v) / (m + 1) as real) by {
      assert Window(h', W) == h';
      SumSnoc(h, o);
      assert NaN !in h';
    }
    IncrementalMean(a.mean.v, Sum(h), m, o.v);
  }

  /** Once the count has reached `W`, a finite mean means the window has filled. */
  lemma FullWhenFinite(a: Acc, h: seq<Sample>)
    requires Tracks(a, h) && a.count == a.window && a.mean.Num?
    ensures |h| >= a.window
  {
  }

  /** The window after one more sample is the old window minus its oldest element plus `o`. */
  lemma SlideWindow(h: seq<Sample>, W: nat, o: Sample)
    requires W > 0 && |h| >= W
    ensures Window(h + [o], W) == Window(h, W)[1..] + [o]
    ensures Window(h, W) == [Window(h, W)[0]] + Window(h, W)[1..]
  {
  }

  /**
   * The recovery rescan over a full buffer whose slot `n` holds the oldest sample yields the
   * reference mean of the window after `o` arrives.
   */
  lemma RecoveredIsWindowMean(B: seq<Sample>, n: nat, h: seq<Sample>, o: real)
    requires n < |B| <= |h| && Rotate(B, n) == h[|h| - |B|..]
    ensures Recovered(B, n, o) == WindowMean(h + [Num(o)], |B|)
  {
    var W, rest := |B|, Rotate(B, n)[1..];
    var w := rest + [Num(o)];
    assert Window(h + [Num(o)], W) == w by {
      SlideWindow(h, W, Num(o));
    }
    assert Sum(rest) == Sum(Others(B, n)) && (NaN in rest <==> NaN in Others(B, n)) by {
      RotationSplit(B, n);
    }
    assert Sum(w) == Sum(rest) + o by {
      SumSnoc(rest, Num(o));
    }
    assert NaN in w <==> NaN in rest;
  }

  /**
   * The sliding step over a full buffer whose slot `n` holds the oldest sample turns the
   * window mean before `o` arrives into the window mean after.
   */
  lemma SlidingIsWindowMean(B: seq<Sample>, W: nat, n: nat, h: seq<Sample>, t: real, o: Sample)
    requires |B| == W && n < W <= |h| && Rotate(B, n) == h[|h| - W..]
    requires B[n].Num? && o.Num? && WindowMean(h, W) == Num(t)
    ensures Num(t + (o.v - B[n].v) / W as real) == WindowMean(h + [o], W)
  {
    var w := Window(h, W);
    var w' := w[1..] + [o];
    assert Window(h + [o], W) == w' by {
      SlideWindow(h, W, o);
    }
    assert w[0] == B[n] by {
      RotationSplit(B, n);
    }
    assert Sum(w') == Sum(w) - B[n].v + o.v by {
      SumSlide(w, o);
    }
    assert NaN !in w';
    SlidingStep(t, Sum(w), W, B[n].v, o.v);
  }

  /**
   * A NaN mean stays NaN when the evicted sample is not NaN: the NaN that caused it is still
   * inside the window.
   */
  lemma PoisonPersists(B: seq<Sample>, n: nat, h: seq<Sample>, o: Sample)
    requires 0 < |B| && n < |B| && |h| > 0 && WindowMean(h, |B|) == NaN
    requires |h| >= |B| ==> Rotate(B, n) == h[|h| - |B|..] && B[n].Num?
    ensures WindowMean(h + [o], |B|) == NaN
  {
    var W := |B|;
    if |h| < W {
      assert Window(h, W) == h && Window(h + [o], W) == h + [o];
    } else {
      SlideWindow(h, W, o);
      assert NaN in Window(h, W)[1..];
    }
  }

  /** Once the window has filled, the slot after the cursor holds the oldest sample. */
  lemma OldestAtNext(a: Acc, h: seq<Sample>)
    requires Tracks(a, h) && |h| >= a.window
    ensures Rotate(a.buffer, Next(a)) == h[|h| - a.window..]
  {
    assert BufferHolds(a.buffer, a.cursor, h);
  }

  /** The recovery branch: the rescan yields the mean of the new window. */
  lemma RecoveryMean(a: Acc, h: seq<Sample>, o: Sample)
    requires Tracks(a, h) && o.Num? && a.count == a.window
    requires a.buffer[Next(a)].NaN?
    ensures Recovered(a.buffer, Next(a), o.v) == WindowMean(h + [o], a.window)
  {
    var W, m := a.window, |h|;
    if m < W {
      CursorWhileFilling(m, W);
      Advance(a.cursor, W);
      assert false;
    }
    RecoveredIsWindowMean(a.buffer, Next(a), h, o.v);
  }

  /** The steady branch with a NaN mean: the mean stays NaN, as the window still has a NaN. */
  lemma SteadyPoisoned(a: Acc, h: seq<Sample>, o: Sample)
    requires Tracks(a, h) && o.Num? && a.count == a.window
    requires a.buffer[Next(a)].Num? && a.mean.NaN?
    ensures WindowMean(h + [o], a.window) == NaN
  {
    if |h| >= a.window {
      OldestAtNext(a, h);
    }
    PoisonPersists(a.buffer, Next(a), h, o);
  }

  /** The steady branch with a finite mean: the sliding update yields the new window mean. */
  lemma SteadyFinite(a: Acc, h: seq<Sample>, o: Sample)
    requires Tracks(a, h) && o.Num? && a.count == a.window
    requires a.buffer[Next(a)].Num? && a.mean.Num?
    ensures Num(a.mean.v + (o.v - a.buffer[Next(a)].v) / a.window as real) == WindowMean(h + [o], a.window)
  {
    var W, n := a.window, Next(a);
    assert |h| >= W by {
      FullWhenFinite(a, h);
    }
    assert Rotate(a.buffer, n) == h[|h| - W..] by {
      OldestAtNext(a, h);
    }
    assert WindowMean(h, W) == Num(a.mean.v);
    SlidingIsWindowMean(a.buffer, W, n, h, a.mean.v, o);
  }

  /**
   * The mean an update computes, branch by branch. This only unfolds `Update`, one
   * implication per branch, so that the branch lemmas below can be stated without it.
   */
  lemma UpdateMean(a: Acc, o: Sample)
    requires Wf(a)
    ensures o.NaN? ==> Update(a, o).mean == NaN
    ensures o.Num? && a.count < a.window && a.mean.Num? ==>
              Update(a, o).mean == Num(a.mean.v + (o.v - a.mean.v) / (a.count + 1) as real)
    ensures o.Num? && a.count == a.window && a.buffer[Next(a)].NaN? ==>
              Update(a, o).mean == Recovered(a.buffer, Next(a), o.v)
    ensures o.Num? && a.count == a.window && a.buffer[Next(a)].Num? && a.mean.NaN? ==>
              Update(a, o).mean == NaN
    ensures o.Num? && a.count == a.window && a.buffer[Next(a)].Num? && a.mean.Num? ==>
              Update(a, o).mean == Num(a.mean.v + (o.v - a.buffer[Next(a)].v) / a.window as real)
  {
  }

  /** Whichever branch an update takes, it returns the reference mean of the new window. */
  lemma UpdateReturnsWindowMean(a: Acc, h: seq<Sample>, o: Sample)
    requires Tracks(a, h)
    ensures Update(a, o).mean == WindowMean(h + [o], a.window)
  {
    UpdateMean(a, o);
    if o.NaN? {
      PoisonedWindow(h, a.window);
    } else if a.count < a.window {
      FillingMean(a, h, o);
    } else if a.buffer[Next(a)].NaN? {
      RecoveryMean(a, h, o);
    } else if a.mean.NaN? {
      SteadyPoisoned(a, h, o);
    } else {
      SteadyFinite(a, h, o);
    }
  }

  /**
   * The central invariant: an update maps the state of history `h` to the state of history
   * `h + [o]`, and the value it returns is the reference mean of the last `W` samples.
   */
  lemma UpdateTracksWindow(a: Acc, h: seq<Sample>, o: Sample)
    requires Tracks(a, h)
    ensures Tracks(Update(a, o), h + [o])
    ensures Update(a, o).mean == WindowMean(h + [o], a.window)
  {
    var r, h' := Update(a, o), h + [o];
    BufferAdvances(a.buffer, a.cursor, h, o);
    UpdateCounts(a, h, o);
    UpdateReturnsWindowMean(a, h, o);
    TracksIntro(r, h');
  }

  /** `Tracks`, clause by clause. */
  lemma TracksIntro(r: Acc, h: seq<Sample>)
    requires Wf(r) && r.cursor == CursorAfter(|h|, r.window)
    requires r.count == (if |h| >= r.window || NaN in h then r.window else |h|)
    requires BufferHolds(r.buffer, r.cursor, h)
    requires |h| > 0 && r.mean == WindowMean(h, r.window)
    ensures Tracks(r, h)
  {
  }

  /** `UpdateTracksWindow` for a history given with its last sample. */
  lemma UpdateTracksLast(a: Acc, h: seq<Sample>)
    requires |h| > 0 && Tracks(a, h[..|h| - 1])
    ensures Tracks(Update(a, h[|h| - 1]), h)
  {
    SplitLast(h);
    UpdateTracksWindow(a, h[..|h| - 1], h[|h| - 1]);
  }

  /** The count clause of `Tracks` survives an update. */
  lemma UpdateCounts(a: Acc, h: seq<Sample>, o: Sample)
    requires Wf(a) && a.count == (if |h| >= a.window || NaN in h then a.window else |h|)
    ensures var h' := h + [o];
            Update(a, o).count == (if |h'| >= a.window || NaN in h' then a.window else |h'|)
  {
    assert NaN in h ==> NaN in h + [o];
  }
}
