/**
 * The Monte-Carlo search of main.cc `run`: random weight vectors are
 * normalised to sum to one, scored by their variance `wᵀCw` and expected
 * return `wᵀμ`, kept when the expected final capital reaches the target,
 * and the index of the smallest kept variance is reported.
 *
 * The OpenMP threads run one after another here: thread `t` performs
 * trials `t * (nsim / threads)` up to `(t + 1) * (nsim / threads)` on a
 * supplied sequence of draws (standing in for the Mersenne twister) and
 * then appends its thread-local results to the caller's three vectors.
 */
module Simulation {
  import opened RealSeq
  import opened MatrixOps

  /** One scored weight vector: the weights, `wᵀCw` and `wᵀμ`. */
  datatype Trial = Trial(weights: seq<real>, variance: real, ret: real)

  /** A draw of `ncol` numbers from [0, 1) whose sum is positive, so it can be normalised. */
  predicate ValidDraw(d: seq<real>, ncol: nat)
  {
    |d| == ncol && (forall k :: 0 <= k < |d| ==> 0.0 <= d[k] < 1.0) && Sum(d) > 0.0
  }

  predicate AllValid(draws: seq<seq<real>>, ncol: nat)
  {
    forall i :: 0 <= i < |draws| ==> ValidDraw(draws[i], ncol)
  }

  /** Non-negative weights that sum to one. */
  predicate OnSimplex(w: seq<real>)
  {
    (forall k :: 0 <= k < |w| ==> w[k] >= 0.0) && Sum(w) == 1.0
  }

  /** `C w` for a matrix with `|w|` columns. */
  function MatVec(c: seq<seq<real>>, w: seq<real>): seq<real>
    requires IsMatrix(c, |w|)
  {
    seq(|c|, r requires 0 <= r < |c| => Dot(c[r], w))
  }

  /** `w.transpose() * C * w`. */
  function QuadForm(w: seq<real>, c: seq<seq<real>>): real
    requires IsSquare(c, |w|)
  {
    Dot(w, MatVec(c, w))
  }

  /** A draw divided by its sum lies on the simplex. */
  lemma NormalisedOnSimplex(d: seq<real>)
    requires Sum(d) > 0.0 && forall k :: 0 <= k < |d| ==> d[k] >= 0.0
    ensures OnSimplex(Divided(d, Sum(d)))
  {
    var s := Sum(d);
    var w := Divided(d, s);
    assert s / s == 1.0;
    forall k | 0 <= k < |w| ensures w[k] >= 0.0 {
      QuotientNonNegative(d[k], s);
    }
    SumDivided(d, s);
  }

  lemma QuotientNonNegative(a: real, b: real)
    requires a >= 0.0 && b > 0.0
    ensures a / b >= 0.0
  {
  }

  /**
   * A trial as `run` records it: `|μ|` weights on the simplex, with the
   * portfolio variance `wᵀ C w` and expected return `w · μ` that belong to them.
   */
  predicate Evaluated(t: Trial, c: seq<seq<real>>, mu: seq<real>)
  {
    && |t.weights| == |mu| && OnSimplex(t.weights)
    && IsSquare(c, |mu|) && t.variance == QuadForm(t.weights, c)
    && t.ret == Dot(t.weights, mu)
  }

  /** The trial a draw gives: the normalised weights with their variance and expected return. */
  function Evaluate(d: seq<real>, c: seq<seq<real>>, mu: seq<real>): (t: Trial)
    requires ValidDraw(d, |mu|) && IsSquare(c, |mu|)
    ensures Evaluated(t, c, mu)
  {
    NormalisedOnSimplex(d);
    var w := Divided(d, Sum(d));
    Trial(w, QuadForm(w, c), Dot(w, mu))
  }

  /** The acceptance test: expected final capital `(μ + 1) · capital` reaches `minReturn`. */
  predicate Feasible(t: Trial, minReturn: real, capital: real)
  {
    (t.ret + 1.0) * capital >= minReturn
  }

  /**
   * The trials kept from a sequence of draws, in draw order: every one has
   * `|μ|` weights on the simplex and passes the acceptance test, and a
   * draw whose trial passes the test is never dropped.
   */
  function Accepted(draws: seq<seq<real>>, c: seq<seq<real>>, mu: seq<real>,
                    minReturn: real, capital: real): (ts: seq<Trial>)
    requires AllValid(draws, |mu|) && IsSquare(c, |mu|)
    ensures |ts| <= |draws|
    ensures forall i :: 0 <= i < |ts| ==> Evaluated(ts[i], c, mu) && Feasible(ts[i], minReturn, capital)
    ensures draws != [] && Feasible(Evaluate(draws[|draws| - 1], c, mu), minReturn, capital) ==>
              ts != [] && ts[|ts| - 1] == Evaluate(draws[|draws| - 1], c, mu)
  {
    if draws == [] then []
    else
      var prev := Accepted(draws[..|draws| - 1], c, mu, minReturn, capital);
      var t := Evaluate(draws[|draws| - 1], c, mu);
      if Feasible(t, minReturn, capital) then prev + [t] else prev
  }

  /** Filtering two batches of draws one after the other is filtering them together. */
  lemma {:induction false} AcceptedAppend(a: seq<seq<real>>, b: seq<seq<real>>, c: seq<seq<real>>,
                                          mu: seq<real>, minReturn: real, capital: real)
    requires AllValid(a, |mu|) && AllValid(b, |mu|) && IsSquare(c, |mu|)
    ensures AllValid(a + b, |mu|)
    ensures Accepted(a + b, c, mu, minReturn, capital)
         == Accepted(a, c, mu, minReturn, capital) + Accepted(b, c, mu, minReturn, capital)
  {
    AllValidAppend(a, b, |mu|);
    if b == [] {
      assert a + b == a;
    } else {
      var b' := b[..|b| - 1];
      var ab := a + b;
      var t := Evaluate(b[|b| - 1], c, mu);
      assert ab[..|ab| - 1] == a + b';
      assert ab[|ab| - 1] == b[|b| - 1];
      AcceptedLast(ab, c, mu, minReturn, capital);
      AcceptedLast(b, c, mu, minReturn, capital);
      AcceptedAppend(a, b', c, mu, minReturn, capital);
      SnocStep(Accepted(a, c, mu, minReturn, capital), Accepted(b', c, mu, minReturn, capital), t,
               Feasible(t, minReturn, capital), Accepted(ab, c, mu, minReturn, capital),
               Accepted(b, c, mu, minReturn, capital));
    }
  }

  /** The last draw is kept exactly when its trial is feasible. */
  lemma AcceptedLast(draws: seq<seq<real>>, c: seq<seq<real>>, mu: seq<real>,
                     minReturn: real, capital: real)
    requires draws != [] && AllValid(draws, |mu|) && IsSquare(c, |mu|)
    ensures AllValid(draws[..|draws| - 1], |mu|)
    ensures var t := Evaluate(draws[|draws| - 1], c, mu);
            var prev := Accepted(draws[..|draws| - 1], c, mu, minReturn, capital);
            Accepted(draws, c, mu, minReturn, capital) == if Feasible(t, minReturn, capital) then prev + [t] else prev
  {
  }

  /** Appending an optional last element on both sides keeps a concatenation. */
  lemma SnocStep<T>(x: seq<T>, y: seq<T>, t: T, keep: bool, xy: seq<T>, y1: seq<T>)
    requires xy == (if keep then (x + y) + [t] else x + y)
    requires y1 == (if keep then y + [t] else y)
    ensures xy == x + y1
  {
  }

  /** Two batches of valid draws make a batch of valid draws. */
  lemma AllValidAppend(a: seq<seq<real>>, b: seq<seq<real>>, n: nat)
    requires AllValid(a, n) && AllValid(b, n)
    ensures AllValid(a + b, n)
  {
    forall i | 0 <= i < |a + b| ensures ValidDraw((a + b)[i], n) {
      if i >= |a| {
        assert (a + b)[i] == b[i - |a|];
      }
    }
  }

  /** The weights of each trial, in order. */
  function WeightsOf(ts: seq<Trial>): (r: seq<seq<real>>)
    ensures |r| == |ts| && forall i :: 0 <= i < |ts| ==> r[i] == ts[i].weights
  {
    seq(|ts|, i requires 0 <= i < |ts| => ts[i].weights)
  }

  /** The variance of each trial, in order. */
  function VariancesOf(ts: seq<Trial>): (r: seq<real>)
    ensures |r| == |ts| && forall i :: 0 <= i < |ts| ==> r[i] == ts[i].variance
  {
    seq(|ts|, i requires 0 <= i < |ts| => ts[i].variance)
  }

  /** The expected return of each trial, in order. */
  function ReturnsOf(ts: seq<Trial>): (r: seq<real>)
    ensures |r| == |ts| && forall i :: 0 <= i < |ts| ==> r[i] == ts[i].ret
  {
    seq(|ts|, i requires 0 <= i < |ts| => ts[i].ret)
  }

  /** The caller's three result vectors: `weights`, `variances` and `returns` (here `expectedReturns`). */
  class TrialLog {
    var weights: seq<seq<real>>
    var variances: seq<real>
    var expectedReturns: seq<real>

    constructor ()
      ensures weights == [] && variances == [] && expectedReturns == []
    {
      weights, variances, expectedReturns := [], [], [];
    }

    /** The three `clear()` calls. */
    method Clear()
      modifies this
      ensures weights == [] && variances == [] && expectedReturns == []
    {
      weights, variances, expectedReturns := [], [], [];
    }

    /** The critical section of `run`: one thread's vectors appended to the three vectors. */
    method Append(w: seq<seq<real>>, v: seq<real>, r: seq<real>)
      modifies this
      ensures weights == old(weights) + w
      ensures variances == old(variances) + v
      ensures expectedReturns == old(expectedReturns) + r
    {
      weights := weights + w;
      variances := variances + v;
      expectedReturns := expectedReturns + r;
    }
  }

  /**
   * One trial's normalisation: the draws and their running sum first,
   * then every weight divided by the sum.
   */
  method Normalise(d: seq<real>) returns (w: seq<real>)
    requires Sum(d) > 0.0
    ensures w == Divided(d, Sum(d))
  {
    var ncol := |d|;
    w := Zeros(ncol);
    var sum := 0.0;
    var k := 0;
    while k < ncol
      invariant 0 <= k <= ncol && |w| == ncol
      invariant sum == Sum(d[..k])
      invariant forall j :: 0 <= j < k ==> w[j] == d[j]
    {
      assert d[..k + 1][..k] == d[..k];
      w := w[k := d[k]];
      sum := sum + d[k];
      k := k + 1;
    }
    assert d[..ncol] == d;
    k := 0;
    while k < ncol
      invariant 0 <= k <= ncol && |w| == ncol
      invariant forall j :: 0 <= j < k ==> w[j] == d[j] / sum
      invariant forall j :: k <= j < ncol ==> w[j] == d[j]
    {
      w := w[k := w[k] / sum];
      k := k + 1;
    }
  }

  /** The projections distribute over concatenation. */
  lemma ProjectionsAppend(a: seq<Trial>, b: seq<Trial>)
    ensures WeightsOf(a + b) == WeightsOf(a) + WeightsOf(b)
    ensures VariancesOf(a + b) == VariancesOf(a) + VariancesOf(b)
    ensures ReturnsOf(a + b) == ReturnsOf(a) + ReturnsOf(b)
  {
  }

  /** Three parallel vectors hold the weights, variances and expected returns of `ts`. */
  predicate Logs(w: seq<seq<real>>, v: seq<real>, r: seq<real>, ts: seq<Trial>)
  {
    w == WeightsOf(ts) && v == VariancesOf(ts) && r == ReturnsOf(ts)
  }

  /** Appending logged batches logs the concatenated batch. */
  lemma LogsAppend(w1: seq<seq<real>>, v1: seq<real>, r1: seq<real>, ts1: seq<Trial>,
                   w2: seq<seq<real>>, v2: seq<real>, r2: seq<real>, ts2: seq<Trial>)
    requires Logs(w1, v1, r1, ts1) && Logs(w2, v2, r2, ts2)
    ensures Logs(w1 + w2, v1 + v2, r1 + r2, ts1 + ts2)
  {
    ProjectionsAppend(ts1, ts2);
  }

  /** One more draw: its trial is appended exactly when it passes the acceptance test. */
  lemma AcceptedSnoc(draws: seq<seq<real>>, i: nat, c: seq<seq<real>>, mu: seq<real>,
                     minReturn: real, capital: real)
    requires i < |draws| && AllValid(draws, |mu|) && IsSquare(c, |mu|)
    ensures AllValid(draws[..i], |mu|) && AllValid(draws[..i + 1], |mu|)
    ensures var t := Evaluate(draws[i], c, mu);
            var prev := Accepted(draws[..i], c, mu, minReturn, capital);
            Accepted(draws[..i + 1], c, mu, minReturn, capital)
              == if Feasible(t, minReturn, capital) then prev + [t] else prev
  {
    assert draws[..i + 1][..i] == draws[..i];
  }

  /**
   * The draws of one call of `run`: one batch of `nsim / threads` valid
   * draws per thread (each thread has its own generator).
   */
  predicate RoundDraws(batches: seq<seq<seq<real>>>, threads: int, nsim: int, ncol: nat)
  {
    && threads >= 1 && |batches| == threads
    && forall t :: 0 <= t < |batches| ==> |batches[t]| == nsim / threads && AllValid(batches[t], ncol)
  }

  /** Every batch is a sequence of valid draws. */
  predicate AllBatchesValid(batches: seq<seq<seq<real>>>, ncol: nat)
  {
    forall t :: 0 <= t < |batches| ==> AllValid(batches[t], ncol)
  }

  /**
   * The trials of all threads in the order their critical sections append
   * them (thread 0 first): each thread's accepted trials, one thread after another.
   */
  function Pooled(batches: seq<seq<seq<real>>>, c: seq<seq<real>>, mu: seq<real>,
                  minReturn: real, capital: real): (ts: seq<Trial>)
    requires AllBatchesValid(batches, |mu|) && IsSquare(c, |mu|)
    ensures forall i :: 0 <= i < |ts| ==> Evaluated(ts[i], c, mu) && Feasible(ts[i], minReturn, capital)
  {
    if batches == [] then []
    else
      var last := |batches| - 1;
      Pooled(batches[..last], c, mu, minReturn, capital) + Accepted(batches[last], c, mu, minReturn, capital)
  }

  /** All batches one after another. */
  function Flatten(batches: seq<seq<seq<real>>>): seq<seq<real>>
  {
    if batches == [] then [] else Flatten(batches[..|batches| - 1]) + batches[|batches| - 1]
  }

  /**
   * Splitting the draws among threads changes nothing: the pooled trials are
   * exactly those a single thread would accept from all the draws in turn.
   */
  lemma {:induction false} PooledIsSequential(batches: seq<seq<seq<real>>>, c: seq<seq<real>>, mu: seq<real>,
                                              minReturn: real, capital: real)
    requires AllBatchesValid(batches, |mu|) && IsSquare(c, |mu|)
    ensures AllValid(Flatten(batches), |mu|)
    ensures Pooled(batches, c, mu, minReturn, capital) == Accepted(Flatten(batches), c, mu, minReturn, capital)
  {
    if batches != [] {
      var last := |batches| - 1;
      PooledIsSequential(batches[..last], c, mu, minReturn, capital);
      AcceptedAppend(Flatten(batches[..last]), batches[last], c, mu, minReturn, capital);
    }
  }

  /** One more batch: its accepted trials follow the pooled ones. */
  lemma PooledSnoc(batches: seq<seq<seq<real>>>, t: nat, c: seq<seq<real>>, mu: seq<real>,
                   minReturn: real, capital: real)
    requires t < |batches| && AllBatchesValid(batches, |mu|) && IsSquare(c, |mu|)
    ensures AllBatchesValid(batches[..t], |mu|) && AllBatchesValid(batches[..t + 1], |mu|)
    ensures Pooled(batches[..t + 1], c, mu, minReturn, capital)
              == Pooled(batches[..t], c, mu, minReturn, capital) + Accepted(batches[t], c, mu, minReturn, capital)
  {
    assert batches[..t + 1][..t] == batches[..t];
  }

  /**
   * `run`, sequentialised. A negative capital returns -1 at once and leaves
   * the vectors alone. Otherwise each thread filters its batch of
   * `nsim / threads` draws into thread-local vectors that are then appended
   * to the caller's, and the result is the position of the first smallest
   * variance in the whole `variances` vector, or -1 when it is empty.
   */
  method Run(c: seq<seq<real>>, mu: seq<real>, nsim: int, threads: int,
             minReturn: real, capital: real, draws: seq<seq<seq<real>>>, log: TrialLog)
    returns (found: int)
    requires IsSquare(c, |mu|) && RoundDraws(draws, threads, nsim, |mu|)
    modifies log
    ensures capital < 0.0 ==> found == -1 && unchanged(log)
    ensures capital >= 0.0 ==>
              var acc := Pooled(draws, c, mu, minReturn, capital);
              && log.weights == old(log.weights) + WeightsOf(acc)
              && log.variances == old(log.variances) + VariancesOf(acc)
              && log.expectedReturns == old(log.expectedReturns) + ReturnsOf(acc)
    ensures capital >= 0.0 ==> found == (if log.variances == [] then -1 else MinElement(log.variances))
  {
    if capital < 0.0 {
      return -1;
    }
    var t := 0;
    ghost var acc: seq<Trial> := [];
    ghost var gw: seq<seq<real>>, gv: seq<real>, gr: seq<real> := [], [], [];
    while t < threads
      invariant 0 <= t <= threads && AllBatchesValid(draws[..t], |mu|)
      invariant acc == Pooled(draws[..t], c, mu, minReturn, capital)
      invariant Logs(gw, gv, gr, acc)
      invariant log.weights == old(log.weights) + gw
      invariant log.variances == old(log.variances) + gv
      invariant log.expectedReturns == old(log.expectedReturns) + gr
    {
      var tlWeights, tlVariances, tlReturns := Thread(c, mu, minReturn, capital, draws[t]);
      ghost var mine := Accepted(draws[t], c, mu, minReturn, capital);
      PooledSnoc(draws, t, c, mu, minReturn, capital);
      LogsAppend(gw, gv, gr, acc, tlWeights, tlVariances, tlReturns, mine);
      log.Append(tlWeights, tlVariances, tlReturns);
      AppendAssoc(old(log.weights), gw, tlWeights);
      AppendAssoc(old(log.variances), gv, tlVariances);
      AppendAssoc(old(log.expectedReturns), gr, tlReturns);
      acc, gw, gv, gr := acc + mine, gw + tlWeights, gv + tlVariances, gr + tlReturns;
      t := t + 1;
    }
    assert draws[..t] == draws;
    if |log.variances| == 0 {
      found := -1;
    } else {
      found := MinElement(log.variances);
    }
  }

  /**
   * Regrouping a concatenation. Kept as a lemma: stated inline, the equality
   * is proved in the whole context of `Run`'s loop body and costs several
   * times more.
   */
  lemma AppendAssoc<T>(a: seq<T>, b: seq<T>, c: seq<T>)
    ensures (a + b) + c == a + (b + c)
  {
  }

  /** One trial: the draw normalised into weights, then the portfolio's variance and expected return. */
  method EvaluateDraw(d: seq<real>, c: seq<seq<real>>, mu: seq<real>)
    returns (w: seq<real>, variance: real, ret: real)
    requires ValidDraw(d, |mu|) && IsSquare(c, |mu|)
    ensures Trial(w, variance, ret) == Evaluate(d, c, mu)
  {
    w := Normalise(d);
    variance := QuadForm(w, c);
    ret := Dot(w, mu);
  }

  /** One iteration of a thread's loop: evaluate the draw and append the trial when it is feasible. */
  method KeepIfFeasible(c: seq<seq<real>>, mu: seq<real>, minReturn: real, capital: real, d: seq<real>,
                w0: seq<seq<real>>, v0: seq<real>, r0: seq<real>, ghost acc: seq<Trial>)
    returns (w1: seq<seq<real>>, v1: seq<real>, r1: seq<real>)
    requires ValidDraw(d, |mu|) && IsSquare(c, |mu|) && Logs(w0, v0, r0, acc)
    ensures var t := Evaluate(d, c, mu);
            Logs(w1, v1, r1, if Feasible(t, minReturn, capital) then acc + [t] else acc)
  {
    var w, variance, ret := EvaluateDraw(d, c, mu);
    var t := Trial(w, variance, ret);
    w1, v1, r1 := w0, v0, r0;
    if Feasible(t, minReturn, capital) {
      LogsAppend(w0, v0, r0, acc, [w], [variance], [ret], [t]);
      w1, v1, r1 := w0 + [w], v0 + [variance], r0 + [ret];
    }
  }

  /** One thread's trials: evaluate each draw of its chunk and keep the feasible ones. */
  method Thread(c: seq<seq<real>>, mu: seq<real>, minReturn: real, capital: real,
                chunk: seq<seq<real>>)
    returns (tlWeights: seq<seq<real>>, tlVariances: seq<real>, tlReturns: seq<real>)
    requires IsSquare(c, |mu|) && AllValid(chunk, |mu|)
    ensures Logs(tlWeights, tlVariances, tlReturns, Accepted(chunk, c, mu, minReturn, capital))
  {
    tlWeights, tlVariances, tlReturns := [], [], [];
    ghost var acc: seq<Trial> := [];
    var i := 0;
    while i < |chunk|
      invariant 0 <= i <= |chunk| && AllValid(chunk[..i], |mu|)
      invariant acc == Accepted(chunk[..i], c, mu, minReturn, capital)
      invariant Logs(tlWeights, tlVariances, tlReturns, acc)
    {
      AcceptedSnoc(chunk, i, c, mu, minReturn, capital);
      tlWeights, tlVariances, tlReturns := KeepIfFeasible(c, mu, minReturn, capital, chunk[i],
                                                  tlWeights, tlVariances, tlReturns, acc);
      acc := Accepted(chunk[..i + 1], c, mu, minReturn, capital);
      i := i + 1;
    }
    assert chunk[..|chunk|] == chunk;
  }
}
