/**
 * Whole-stream properties of the accumulator: feeding a stream of samples into a fresh
 * accumulator, what every call returns.
 */
module Properties {
  import opened Wrappers
  import opened Samples
  import opened MovingMean

  /** The state after feeding the samples `s`, in order, to a fresh accumulator of window `W`. */
  function Run(W: nat, s: seq<Sample>): (a: Acc)
    requires W > 0
    ensures Wf(a) && a.window == W
    decreases |s|
  {
    if |s| == 0 then Init(W) else Update(Run(W, s[..|s| - 1]), s[|s| - 1])
  }

  /** What each of the calls returns when the samples `s` are fed in order. */
  function Outputs(W: nat, s: seq<Sample>): seq<Sample>
    requires W > 0
  {
    seq(|s|, i requires 0 <= i < |s| => Run(W, s[..i + 1]).mean)
  }

  /** The state after any stream is the state its history leads to. */
  lemma {:induction false} RunTracksHistory(W: nat, s: seq<Sample>)
    requires W > 0
    ensures Tracks(Run(W, s), s)
    decreases |s|
  {
    if |s| == 0 {
      InitTracksNothing(W);
    } else {
      RunTracksHistory(W, s[..|s| - 1]);
      RunStep(W, s);
    }
  }

  /** Feeding one more sample moves the tracked history along by that sample. */
  lemma RunStep(W: nat, s: seq<Sample>)
    requires W > 0 && |s| > 0 && Tracks(Run(W, s[..|s| - 1]), s[..|s| - 1])
    ensures Tracks(Run(W, s), s)
  {
    UpdateTracksLast(Run(W, s[..|s| - 1]), s);
  }

  /**
   * After `m >= 1` updates the count lies in `[1, W]`, and the mean is NaN exactly when one of
   * the last `min(m, W)` samples is NaN; otherwise it is their arithmetic mean.
   */
  lemma RunReportsWindowMean(W: nat, s: seq<Sample>)
    requires W > 0 && |s| > 0
    ensures 1 <= Run(W, s).count <= W
    ensures Run(W, s).mean == WindowMean(s, W)
    ensures Run(W, s).mean == NaN <==> NaN in Window(s, W)
    ensures NaN !in Window(s, W) ==> Run(W, s).mean == Num(Sum(Window(s, W)) / |Window(s, W)| as real)
  {
    RunTracksHistory(W, s);
  }

  /** A query answers `null` before any sample and a number (finite or NaN) afterwards. */
  lemma {:induction false} QueryNullOnlyBeforeFirstSample(W: nat, s: seq<Sample>)
    requires W > 0
    ensures Query(Run(W, s)) == None <==> |s| == 0
  {
    RunTracksHistory(W, s);
    QueryReportsWindowMean(Run(W, s), s);
  }

  /** While the window is filling with numbers, the mean is the mean of every sample so far. */
  lemma {:induction false} FillingAveragesEverything(W: nat, s: seq<Sample>)
    requires 0 < |s| <= W && NaN !in s
    ensures Run(W, s).count == |s|
    ensures Run(W, s).mean == Num(Sum(s) / |s| as real)
  {
    RunTracksHistory(W, s);
  }

  /** With a window of one, every update returns the sample itself. */
  lemma {:induction false} WindowOfOnePassesThrough(s: seq<Sample>)
    requires |s| > 0
    ensures Run(1, s).mean == s[|s| - 1]
  {
    RunReportsWindowMean(1, s);
    var w := Window(s, 1);
    assert w == [s[|s| - 1]];
    assert w[..0] == [];
  }

  /** A NaN at position `k` makes every call from `k` to `k + W - 1` return NaN. */
  lemma PoisonLastsOneWindow(W: nat, s: seq<Sample>, k: nat, j: nat)
    requires W > 0 && k <= j < |s| && j < k + W && s[k] == NaN
    ensures Run(W, s[..j + 1]).mean == NaN
  {
    var h := s[..j + 1];
    RunReportsWindowMean(W, h);
    if |h| <= W {
      assert h[k] == NaN;
    } else {
      assert Window(h, W)[k - (|h| - W)] == NaN;
    }
  }

  /**
   * `W` calls after a NaN, the NaN has left the window: absent further NaNs, the call returns
   * the mean of the last `W` samples again.
   */
  lemma PoisonClearsAfterOneWindow(W: nat, s: seq<Sample>, k: nat)
    requires W > 0 && k + W < |s| && s[k] == NaN && NaN !in s[k + 1..k + W + 1]
    ensures Run(W, s[..k + W + 1]).mean == Num(Sum(s[k + 1..k + W + 1]) / W as real)
  {
    var h := s[..k + W + 1];
    RunReportsWindowMean(W, h);
    assert Window(h, W) == s[k + 1..k + W + 1];
  }

  /** The `i`-th call returns the reference mean of the first `i + 1` samples' window. */
  lemma OutputIsWindowMean(W: nat, s: seq<Sample>, i: nat)
    requires W > 0 && i < |s|
    ensures |Outputs(W, s)| == |s|
    ensures Outputs(W, s)[i] == WindowMean(s[..i + 1], W)
  {
    RunReportsWindowMean(W, s[..i + 1]);
  }

  /** The sum of a short literal sequence of numbers. */
  lemma SumOfThree(x: real, y: real, z: real)
    ensures Sum([Num(x)]) == x
    ensures Sum([Num(x), Num(y)]) == x + y
    ensures Sum([Num(x), Num(y), Num(z)]) == x + y + z
  {
    var s1, s2, s3 := [Num(x)], [Num(x), Num(y)], [Num(x), Num(y), Num(z)];
    assert s1[..0] == [];
    assert Sum(s1) == x;
    assert s2[..1] == s1;
    assert Sum(s2) == x + y;
    assert s3[..2] == s2;
  }

  /** The reference means of the prefixes of the stream 1, 2, 3, 4 with window 3. */
  lemma SlidingScenarioMeans(s: seq<Sample>)
    requires s == [Num(1.0), Num(2.0), Num(3.0), Num(4.0)]
    ensures WindowMean(s[..1], 3) == Num(1.0)
    ensures WindowMean(s[..2], 3) == Num(1.5)
    ensures WindowMean(s[..3], 3) == Num(2.0)
    ensures WindowMean(s[..4], 3) == Num(3.0)
  {
    assert Window(s[..1], 3) == [Num(1.0)];
    assert Window(s[..2], 3) == [Num(1.0), Num(2.0)];
    assert Window(s[..3], 3) == [Num(1.0), Num(2.0), Num(3.0)];
    assert s[..4] == s;
    assert Window(s, 3) == [Num(2.0), Num(3.0), Num(4.0)];
    SumOfThree(1.0, 2.0, 3.0);
    SumOfThree(2.0, 3.0, 4.0);
  }

  /** With window 3, feeding 1, 2, 3, 4 returns 1, 1.5, 2, 3. */
  lemma ScenarioSlidingWindow(s: seq<Sample>)
    requires s == [Num(1.0), Num(2.0), Num(3.0), Num(4.0)]
    ensures Outputs(3, s) == [Num(1.0), Num(1.5), Num(2.0), Num(3.0)]
  {
    SlidingScenarioMeans(s);
    OutputIsWindowMean(3, s, 0);
    OutputIsWindowMean(3, s, 1);
    OutputIsWindowMean(3, s, 2);
    OutputIsWindowMean(3, s, 3);
  }

  /** The reference means of the prefixes of the stream 1, NaN, 5 with window 2. */
  lemma PoisonScenarioMeans(s: seq<Sample>)
    requires s == [Num(1.0), NaN, Num(5.0)]
    ensures WindowMean(s[..1], 2) == Num(1.0)
    ensures WindowMean(s[..2], 2) == NaN
    ensures WindowMean(s[..3], 2) == NaN
  {
    assert Window(s[..1], 2) == [Num(1.0)];
    assert [Num(1.0)][..0] == [];
    assert Window(s[..2], 2)[1] == NaN;
    assert s[..3] == s;
    assert Window(s, 2)[0] == NaN;
  }

  /** With window 2, feeding 1, NaN, 5 returns 1, NaN, NaN: the NaN is still in the window. */
  lemma ScenarioPoison(s: seq<Sample>)
    requires s == [Num(1.0), NaN, Num(5.0)]
    ensures Outputs(2, s) == [Num(1.0), NaN, NaN]
  {
    PoisonScenarioMeans(s);
    OutputIsWindowMean(2, s, 0);
    OutputIsWindowMean(2, s, 1);
    OutputIsWindowMean(2, s, 2);
  }
}
