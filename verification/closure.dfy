/**
 * The accumulator as the source shapes it: an object holding a `Float64Array`-like buffer
 * and the running count, cursor and mean, mutated in place by each call. Every call is
 * proved to move the object's state exactly as `MovingMean.Update` does, and a ghost
 * history records the samples absorbed so far.
 */
module Closure {
  import opened Wrappers
  import opened Validate
  import opened Samples
  import opened MovingMean

  /** The part of buffer `b` that the rescan has folded in once it reaches index `c`. */
  function Visited(b: seq<Sample>, n: nat, c: nat): seq<Sample>
    requires n < |b| && c <= |b|
  {
    if c <= n then b[..c] else b[..n] + b[n + 1..c]
  }

  /** Moving the rescan past index `c` folds in `b[c]`, unless `c` is the skipped slot. */
  lemma VisitNext(b: seq<Sample>, n: nat, c: nat)
    requires n < |b| && c < |b|
    ensures c == n ==> Visited(b, n, c + 1) == Visited(b, n, c)
    ensures c != n ==> Visited(b, n, c + 1) == Visited(b, n, c) + [b[c]]
  {
    if c < n {
      assert b[..c + 1] == b[..c] + [b[c]];
    } else if c > n {
      assert b[n + 1..c + 1] == b[n + 1..c] + [b[c]];
    }
  }

  /** A slot other than `n` is among the `Others`. */
  lemma OtherSlot(b: seq<Sample>, n: nat, c: nat)
    requires n < |b| && c < |b| && c != n
    ensures b[c] in Others(b, n)
  {
    if c < n {
      assert b[c] == b[..n][c];
    } else {
      assert b[c] == b[n + 1..][c - n - 1];
    }
  }

  /** `t` is the mean of `k` values adding up to `total`. */
  ghost predicate IsMeanOf(t: real, k: nat, total: real) {
    t * k as real == total
  }

  /**
   * One step of the rescan over a finite slot `c` other than `n`: the count grows by one,
   * no NaN has been met, and `t` stays the mean of `o` and the slots folded in.
   */
  lemma FoldOne(B: seq<Sample>, n: nat, c: nat, k: nat, t: real, o: real)
    requires n < |B| && c < |B| && c != n && B[c].Num?
    requires k == 1 + |Visited(B, n, c)| && NaN !in Visited(B, n, c)
    requires IsMeanOf(t, k, o + Sum(Visited(B, n, c)))
    ensures k + 1 == 1 + |Visited(B, n, c + 1)| && NaN !in Visited(B, n, c + 1)
    ensures IsMeanOf(t + (B[c].v - t) / (k + 1) as real, k + 1, o + Sum(Visited(B, n, c + 1)))
  {
    VisitNext(B, n, c);
    IncrementalStep(t, k, B[c].v);
    SumSnoc(Visited(B, n, c), B[c]);
  }

  /**
   * The recovery rescan, run when the slot `n` about to be overwritten holds NaN: start from
   * the new sample `o` with count 1, then fold every other slot, in buffer order, into the
   * incremental mean; on meeting another NaN, stop with count `W` and mean NaN. With exact
   * arithmetic the result is the closed form `Recovered`.
   */
  method Rescan(buffer: array<Sample>, n: nat, o: real) returns (count: nat, mean: Sample)
    requires n < buffer.Length
    ensures count == buffer.Length
    ensures mean == Recovered(buffer[..], n, o)
  {
    ghost var B := buffer[..];
    count := 1;
    var t := o;
    var c := 0;
    assert Visited(B, n, c) == [];
    while c < buffer.Length
      invariant 0 <= c <= buffer.Length
      invariant count == 1 + |Visited(B, n, c)|
      invariant NaN !in Visited(B, n, c)
      invariant IsMeanOf(t, count, o + Sum(Visited(B, n, c)))
    {
      if c == n {
        VisitNext(B, n, c);
      } else if buffer[c].NaN? {
        OtherSlot(B, n, c);
        count, mean := buffer.Length, NaN;
        return;
      } else {
        FoldOne(B, n, c, count, t, o);
        count := count + 1;
        t := t + (buffer[c].v - t) / count as real;
      }
      c := c + 1;
    }
    assert Visited(B, n, c) == Others(B, n);
    MeanOf(t, o + Sum(Others(B, n)), count);
    mean := Num(t);
  }

  /**
   * The count-and-mean half of an update, on the state's fields: the four branches of the
   * source, with the recovery branch running the rescan loop over the buffer.
   */
  method Absorb(buffer: array<Sample>, window: nat, count: nat, mean: Sample, cursor: int, o: Sample)
    returns (count': nat, mean': Sample)
    requires Wf(Acc(window, buffer[..], mean, count, cursor))
    ensures var next := MovingMean.Update(Acc(window, buffer[..], mean, count, cursor), o);
            count' == next.count && mean' == next.mean
  {
    var n := (cursor + 1) % window;
    if o.NaN? {
      count', mean' := window, NaN;
    } else if count < window {
      count' := count + 1;
      mean' := if mean.NaN? then NaN else Num(mean.v + (o.v - mean.v) / count' as real);
    } else if buffer[n].NaN? {
      count', mean' := Rescan(buffer, n, o.v);
    } else if !mean.NaN? {
      count', mean' := count, Num(mean.v + (o.v - buffer[n].v) / window as real);
    } else {
      count', mean' := count, mean;
    }
  }

  /** The accumulator object. */
  class Accumulator {
    const window: nat
    const buffer: array<Sample>
    var mean: Sample
    var count: nat
    var cursor: int
    /** The samples absorbed so far, oldest first. */
    ghost var history: seq<Sample>

    /** The object's state as a value. */
    function State(): Acc
      reads this, buffer
    {
      Acc(window, buffer[..], mean, count, cursor)
    }

    /** The object is in the state its history leads to. */
    ghost predicate Valid()
      reads this, buffer
    {
      buffer.Length == window && Tracks(State(), history)
    }

    /** A fresh accumulator: all-zero buffer, mean 0, count 0, cursor -1, empty history. */
    constructor (W: nat)
      requires W > 0
      ensures Valid() && fresh(buffer)
      ensures window == W && history == []
      ensures State() == Init(W)
    {
      window := W;
      buffer := new Sample[W](_ => Num(0.0));
      mean := Num(0.0);
      count := 0;
      cursor := -1;
      history := [];
      new;
      assert buffer[..] == [] + Zeros(W);
    }

    /**
     * Folds in a sample and returns the new mean, which is the reference mean of the last
     * `W` samples; the state moves exactly as `MovingMean.Update` says.
     */
    method Update(o: Sample) returns (r: Sample)
      requires Valid()
      modifies this, buffer
      ensures Valid() && history == old(history) + [o]
      ensures State() == MovingMean.Update(old(State()), o)
      ensures r == mean && r == WindowMean(history, window)
    {
      ghost var before := State();
      var n := (cursor + 1) % window;
      count, mean := Absorb(buffer, window, count, mean, cursor, o);
      cursor := n;
      buffer[cursor] := o;
      history := history + [o];
      ghost var after := MovingMean.Update(before, o);
      assert buffer[..] == after.buffer;
      assert State() == after;
      UpdateTracksWindow(before, old(history), o);
      r := mean;
    }

    /** Reports the mean without changing anything: `None` before the first sample. */
    method Query() returns (r: Option<Sample>)
      requires Valid()
      ensures r == None <==> history == []
      ensures history != [] ==> r == Some(WindowMean(history, window))
    {
      QueryReportsWindowMean(State(), history);
      r := MovingMean.Query(State());
    }
  }

  /** The factory: a `TypeError` unless the window size passes the guard. */
  method NewAccumulator(v: JsValue) returns (r: Result<Accumulator, Error>)
    ensures r.Success? <==> IsPositivePrimitiveInteger(v)
    ensures r.Failure? ==> r.error == TypeError(v)
    ensures r.Success? ==> && fresh(r.value) && fresh(r.value.buffer) && r.value.Valid() && r.value.history == []
                           && r.value.window as real == v.num.r
  {
    var created := MovingMean.Create(v);
    if created.Failure? {
      return Failure(created.error);
    }
    var acc := new Accumulator(created.value.window);
    return Success(acc);
  }
}
