/**
 * Samples and the reference definition of a moving-window mean.
 *
 * Samples are doubles seen through exact arithmetic: a real number or NaN. The reference
 * definitions here say what the accumulator is meant to report, independently of how it
 * computes it: the mean of the most recent `W` samples, or NaN when one of them is NaN.
 */
module Samples {

  /** A sample or a mean: a real number standing for a finite double, or NaN. */
  datatype Sample = Num(v: real) | NaN

  /** `k` zero samples: the contents of a freshly allocated `Float64Array`. */
  function Zeros(k: nat): seq<Sample> {
    seq(k, _ => Num(0.0))
  }

  /** What a sample adds to a sum; sums are only read of NaN-free sequences. */
  function Val(x: Sample): real {
    if x.Num? then x.v else 0.0
  }

  /** The sum of the values of a sequence of samples. */
  function Sum(s: seq<Sample>): real
    decreases |s|
  {
    if |s| == 0 then 0.0 else Sum(s[..|s| - 1]) + Val(s[|s| - 1])
  }

  /** The most recent `min(|h|, W)` samples of the history `h`, oldest first. */
  function Window(h: seq<Sample>, W: nat): seq<Sample>
    requires W > 0
  {
    if |h| <= W then h else h[|h| - W..]
  }

  /**
   * The reference moving-window mean of a non-empty history: NaN when the window holds a
   * NaN, otherwise the arithmetic mean of the window.
   */
  function WindowMean(h: seq<Sample>, W: nat): Sample
    requires W > 0 && |h| > 0
  {
    var w := Window(h, W);
    if NaN in w then NaN else Num(Sum(w) / |w| as real)
  }

  /** The sequence `s` read circularly starting at index `k`. */
  function Rotate(s: seq<Sample>, k: nat): seq<Sample>
    requires k <= |s|
  {
    s[k..] + s[..k]
  }

  /** All slots of the buffer `b` except slot `n`, in buffer order. */
  function Others(b: seq<Sample>, n: nat): seq<Sample>
    requires n < |b|
  {
    b[..n] + b[n + 1..]
  }

  /** Sums distribute over concatenation. */
  lemma {:induction false} SumAppend(a: seq<Sample>, b: seq<Sample>)
    ensures Sum(a + b) == Sum(a) + Sum(b)
    decreases |b|
  {
    if |b| == 0 {
      assert a + b == a;
    } else {
      var b' := b[..|b| - 1];
      assert (a + b)[..|a + b| - 1] == a + b';
      SumAppend(a, b');
    }
  }

  /** The order in which two blocks are summed does not matter. */
  lemma SumSwap(a: seq<Sample>, b: seq<Sample>)
    ensures Sum(a + b) == Sum(b + a)
  {
    SumAppend(a, b);
    SumAppend(b, a);
  }

  /** Summing one more sample. */
  lemma SumSnoc(s: seq<Sample>, x: Sample)
    ensures Sum(s + [x]) == Sum(s) + Val(x)
  {
    assert (s + [x])[..|s|] == s;
  }

  /** Summing a leading element. */
  lemma SumCons(x: Sample, s: seq<Sample>)
    ensures Sum([x] + s) == Val(x) + Sum(s)
  {
    SumAppend([x], s);
    assert [x][..0] == [];
  }

  /** Dropping the first sample and appending `x` changes the sum by `x` minus that sample. */
  lemma SumSlide(w: seq<Sample>, x: Sample)
    requires |w| > 0
    ensures Sum(w[1..] + [x]) == Sum(w) - Val(w[0]) + Val(x)
  {
    assert [w[0]] + w[1..] == w;
    SumCons(w[0], w[1..]);
    SumSnoc(w[1..], x);
  }

  /**
   * The oldest element of a rotation is the slot it starts at, and the rest of the rotation
   * is, block-swapped, the buffer without that slot: same sum, same NaN content.
   */
  lemma RotationSplit(b: seq<Sample>, n: nat)
    requires n < |b|
    ensures Rotate(b, n)[0] == b[n]
    ensures Sum(Rotate(b, n)[1..]) == Sum(Others(b, n))
    ensures NaN in Rotate(b, n)[1..] <==> NaN in Others(b, n)
  {
    assert Rotate(b, n)[1..] == b[n + 1..] + b[..n];
    SumSwap(b[n + 1..], b[..n]);
  }

  /** A non-empty sequence is its prefix followed by its last element. */
  lemma SplitLast(s: seq<Sample>)
    requires |s| > 0
    ensures s[..|s| - 1] + [s[|s| - 1]] == s
  {
  }
}
