/**
 * The elimination loop of main.cc (lines 703-755): starting from the weekly
 * returns R of every stock, the covariance C (scaled by 100) and the mean
 * returns μ, repeatedly run the Monte Carlo search and drop one stock, until
 * two remain. An infeasible round drops the stock with the lowest mean
 * return; a feasible round records the best portfolio seen so far (strict
 * improvement only) and drops the stock with the smallest weight in that
 * best portfolio.
 *
 * The random draws are supplied: `draws[k][t]` is the batch thread `t`
 * draws from in round `k`.
 */
module Elimination {
  import opened RealSeq
  import opened MatrixOps
  import opened Statistics
  import opened Simulation

  /** `min_var`'s starting value (main.cc:710). */
  const InitialMinVar: real := 10000000.0

  /** The number of trials `run` is asked for in each round (main.cc:719). */
  const Trials: nat := 3000

  /** The covariance matrix is multiplied by this before the loop (main.cc:705). */
  const CovScale: real := 100.0

  /** `optimal_nstocks`, `optimal_weights`, `exp_returns`, `min_var` and `optimal_tickers`. */
  datatype Best = Best(nstocks: nat, weights: seq<real>, expReturns: seq<real>, minVar: real,
                       tickers: seq<string>)

  /** How the loop ends: normally, or at a `tickers.erase` past the end (undefined behaviour in C++). */
  datatype Outcome = Finished | TickerEraseOutOfRange(index: nat, size: nat)

  /** The capital a round is run with: the initial capital less one transaction cost per stock. */
  function Capital(initialCapital: real, tcost: real, cols: nat): (c: real)
    ensures cols == 0 ==> c == initialCapital
    ensures tcost >= 0.0 ==> c <= initialCapital
  {
    initialCapital - (cols as real) * tcost
  }

  /** The final capital a portfolio must reach: `initial_capital * (min_return + 1)`. */
  function Target(initialCapital: real, minReturn: real): (t: real)
    ensures minReturn == 0.0 ==> t == initialCapital
    ensures initialCapital >= 0.0 && minReturn >= 0.0 ==> t >= initialCapital
  {
    initialCapital * (minReturn + 1.0)
  }

  /** With a non-negative transaction cost, dropping stocks never lowers the capital a round starts with. */
  lemma CapitalGrowsAsStocksDrop(initialCapital: real, tcost: real, fewer: nat, more: nat)
    requires tcost >= 0.0 && fewer <= more
    ensures Capital(initialCapital, tcost, more) <= Capital(initialCapital, tcost, fewer)
  {
    assert (more as real) * tcost - (fewer as real) * tcost == ((more - fewer) as real) * tcost;
  }

  /**
   * With no transaction cost and positive capital, the acceptance test of a
   * round says exactly that the portfolio's expected return reaches `min_return`.
   */
  lemma FeasibleMeansReturn(t: Trial, initialCapital: real, minReturn: real, cols: nat)
    requires initialCapital > 0.0
    ensures Feasible(t, Target(initialCapital, minReturn), Capital(initialCapital, 0.0, cols))
        <==> t.ret >= minReturn
  {
    var c := Capital(initialCapital, 0.0, cols);
    assert c == initialCapital;
    assert (t.ret + 1.0) * c - Target(initialCapital, minReturn) == (t.ret - minReturn) * initialCapital;
    if t.ret < minReturn {
      assert (t.ret - minReturn) * initialCapital < 0.0;
    } else {
      assert (t.ret - minReturn) * initialCapital >= 0.0;
    }
  }

  /** `C.array() * 100.0`: every entry multiplied by `k`, shape kept. */
  function Scaled(c: seq<seq<real>>, k: real): (r: seq<seq<real>>)
    ensures |r| == |c| && forall i :: 0 <= i < |c| ==> |r[i]| == |c[i]|
    ensures forall i, j :: 0 <= i < |c| && 0 <= j < |c[i]| ==> r[i][j] == k * c[i][j]
  {
    seq(|c|, i requires 0 <= i < |c| => seq(|c[i]|, j requires 0 <= j < |c[i]| => k * c[i][j]))
  }

  /**
   * The loop's data agree: R has `cols` columns and more than one row, C is
   * the scaled sample covariance of R's columns, and μ holds R's column means.
   */
  predicate Aligned(r: seq<seq<real>>, cols: nat, c: seq<seq<real>>, mu: seq<real>)
  {
    && |r| > 1 && IsMatrix(r, cols) && IsSquare(c, cols) && |mu| == cols
    && (forall i, k :: 0 <= i < cols && 0 <= k < cols ==> c[i][k] == CovScale * SampleCov(r, i, k))
    && (forall j :: 0 <= j < cols ==> mu[j] == ColMean(r, j))
  }

  /**
   * Erasing the same index from R's columns, from C's rows and columns and
   * from μ keeps them aligned: the loop never has to recompute C or μ.
   */
  lemma AlignedErase(r: seq<seq<real>>, cols: nat, c: seq<seq<real>>, mu: seq<real>, i: nat)
    requires Aligned(r, cols, c, mu) && cols > 0
    ensures IsMatrix(Erase(c, i), cols)
    ensures Aligned(EraseCol(r, cols, i), cols - 1, EraseCol(Erase(c, i), cols, i), Erase(mu, i))
  {
    var r', c', mu' := EraseCol(r, cols, i), EraseCol(Erase(c, i), cols, i), Erase(mu, i);
    forall a, b | 0 <= a < cols - 1 && 0 <= b < cols - 1
      ensures c'[a][b] == CovScale * SampleCov(r', a, b)
    {
      StatisticsAfterErase(r, cols, i, a, b);
    }
    forall a | 0 <= a < cols - 1
      ensures mu'[a] == ColMean(r', a)
    {
      StatisticsAfterErase(r, cols, i, a, a);
    }
  }

  /** `weights`, `variances` and `returns` are all empty. */
  predicate LogEmpty(log: TrialLog)
    reads log
  {
    log.weights == [] && log.variances == [] && log.expectedReturns == []
  }

  /** The record kept so far is either the initial one or a feasible portfolio of `nstocks` stocks. */
  predicate BestInv(b: Best, initialCapital: real, minReturn: real, tcost: real)
  {
    && b.minVar <= InitialMinVar
    && (b.minVar == InitialMinVar ==> b.weights == [])
    && (b.minVar < InitialMinVar ==>
          && |b.weights| == b.nstocks && |b.expReturns| == b.nstocks && b.nstocks <= |b.tickers|
          && OnSimplex(b.weights)
          && (Dot(b.weights, b.expReturns) + 1.0) * Capital(initialCapital, tcost, b.nstocks)
               >= Target(initialCapital, minReturn))
  }

  /** The record before the loop: no weights, `min_var` at its starting value. */
  function InitialBest(cols: nat): (b: Best)
    ensures forall initialCapital, minReturn, tcost :: BestInv(b, initialCapital, minReturn, tcost)
  {
    Best(cols, [], [], InitialMinVar, [])
  }

  /** The trials one round records: none when the capital is negative, else the feasible ones. */
  function RoundTrials(c: seq<seq<real>>, mu: seq<real>, draws: seq<seq<seq<real>>>,
                       initialCapital: real, minReturn: real, tcost: real): (ts: seq<Trial>)
    requires IsSquare(c, |mu|) && AllBatchesValid(draws, |mu|)
    ensures forall j :: 0 <= j < |ts| ==>
              Evaluated(ts[j], c, mu)
              && Feasible(ts[j], Target(initialCapital, minReturn), Capital(initialCapital, tcost, |mu|))
  {
    var capital := Capital(initialCapital, tcost, |mu|);
    if capital < 0.0 then [] else Pooled(draws, c, mu, Target(initialCapital, minReturn), capital)
  }

  /**
   * The update of a feasible round (main.cc:735-742): the trial with the
   * first smallest variance replaces the record only when its variance is
   * strictly below `min_var`. The new `min_var` is then at most the old one
   * and at most every variance of the round, and the record changes only on
   * a strict improvement, to that trial with the round's μ and tickers.
   */
  function Record(b: Best, ts: seq<Trial>, mu: seq<real>, tickers: seq<string>): (r: Best)
    requires ts != []
    ensures r.minVar <= b.minVar
    ensures forall j :: 0 <= j < |ts| ==> r.minVar <= ts[j].variance
    ensures var k := MinElement(VariancesOf(ts));
            r == b || (r.minVar < b.minVar && r == Best(|mu|, ts[k].weights, mu, ts[k].variance, tickers))
  {
    var k := MinElement(VariancesOf(ts));
    if ts[k].variance < b.minVar then Best(|mu|, ts[k].weights, mu, ts[k].variance, tickers) else b
  }

  /** A recorded trial of the round keeps the record a feasible portfolio. */
  lemma RecordKeepsInvariant(b: Best, ts: seq<Trial>, c: seq<seq<real>>, mu: seq<real>, tickers: seq<string>,
                             initialCapital: real, minReturn: real, tcost: real)
    requires ts != [] && BestInv(b, initialCapital, minReturn, tcost) && |tickers| >= |mu|
    requires forall j :: 0 <= j < |ts| ==>
               Evaluated(ts[j], c, mu)
               && Feasible(ts[j], Target(initialCapital, minReturn), Capital(initialCapital, tcost, |mu|))
    ensures BestInv(Record(b, ts, mu, tickers), initialCapital, minReturn, tcost)
  {
    var r := Record(b, ts, mu, tickers);
    if r != b {
      var t := ts[MinElement(VariancesOf(ts))];
      RecordedTrial(t, c, mu, tickers, initialCapital, minReturn, tcost);
    }
  }

  /** A feasible trial below the starting `min_var`, recorded with its μ and tickers, is a feasible record. */
  lemma RecordedTrial(t: Trial, c: seq<seq<real>>, mu: seq<real>, tickers: seq<string>,
                      initialCapital: real, minReturn: real, tcost: real)
    requires Evaluated(t, c, mu) && |tickers| >= |mu| && t.variance < InitialMinVar
    requires Feasible(t, Target(initialCapital, minReturn), Capital(initialCapital, tcost, |mu|))
    ensures BestInv(Best(|mu|, t.weights, mu, t.variance, tickers), initialCapital, minReturn, tcost)
  {
    var capital := Capital(initialCapital, tcost, |mu|);
    assert (Dot(t.weights, mu) + 1.0) * capital == (t.ret + 1.0) * capital;
  }

  /** The index a round removes: the lowest mean return if infeasible, else the smallest weight of the record. */
  function Removed(mu: seq<real>, ts: seq<Trial>, best: Best): (i: nat)
    ensures ts == [] && mu != [] ==> i < |mu| && forall j :: 0 <= j < |mu| ==> mu[i] <= mu[j]
    ensures ts == [] && mu != [] ==> forall j :: 0 <= j < i ==> mu[i] < mu[j]
    ensures ts != [] && best.weights != [] ==>
              i < |best.weights| && forall j :: 0 <= j < |best.weights| ==> best.weights[i] <= best.weights[j]
    ensures ts != [] && best.weights != [] ==> forall j :: 0 <= j < i ==> best.weights[i] < best.weights[j]
    ensures ts != [] && best.weights == [] ==> i == 0
  {
    if ts == [] then MinElement(mu) else MinElement(best.weights)
  }

  /**
   * One round of the loop (main.cc:719-754). R, C and μ each lose exactly
   * one column (and C one row) at the index `Removed` names, and stay
   * aligned; an infeasible round leaves the tickers and the record alone; a
   * feasible round applies `Record` and erases the same index from the
   * tickers, which is an error when that index is past their end.
   */
  method Round(R: Matrix, C: Matrix, mu: Vector, log: TrialLog, tickers: seq<string>, best: Best,
               initialCapital: real, minReturn: real, tcost: real, threads: int, draws: seq<seq<seq<real>>>)
    returns (outcome: Outcome, tickers': seq<string>, best': Best)
    requires R != C && R.Valid() && C.Valid() && C.cols == R.cols && R.cols > 2
    requires Aligned(R.cells, R.cols, C.cells, mu.elems) && LogEmpty(log)
    requires RoundDraws(draws, threads, Trials, R.cols)
    modifies R, C, mu, log
    ensures R.Valid() && C.Valid() && C.cols == R.cols == old(R.cols) - 1
    ensures Aligned(R.cells, R.cols, C.cells, mu.elems)
    ensures var ts := RoundTrials(old(C.cells), old(mu.elems), draws, initialCapital, minReturn, tcost);
            var i := Removed(old(mu.elems), ts, best');
            && best' == (if ts == [] then best else Record(best, ts, old(mu.elems), tickers))
            && R.cells == EraseCol(old(R.cells), old(R.cols), i)
            && C.cells == EraseCol(Erase(old(C.cells), i), old(C.cols), i)
            && mu.elems == Erase(old(mu.elems), i)
            && (ts == [] ==> outcome == Finished && tickers' == tickers && LogEmpty(log))
            && (ts != [] && i >= |tickers| ==> outcome == TickerEraseOutOfRange(i, |tickers|))
            && (ts != [] && i < |tickers| ==> outcome == Finished && tickers' == Erase(tickers, i) && LogEmpty(log))
  {
    ghost var c0, mu0 := C.cells, mu.elems;
    ghost var ts := RoundTrials(c0, mu0, draws, initialCapital, minReturn, tcost);
    var capital := Capital(initialCapital, tcost, C.cols);
    var found := Run(C.cells, mu.elems, Trials, threads, Target(initialCapital, minReturn), capital, draws, log);
    outcome, tickers', best' := Finished, tickers, best;
    var i: nat;
    if found == -1 {
      assert ts == [];
      i := MinElement(mu.elems);
    } else {
      assert ts != [] && Logs(log.weights, log.variances, log.expectedReturns, ts);
      best' := Improve(best, log, found, mu.elems, tickers, ts);
      i := MinElement(best'.weights);
    }
    RemoveAt(R, C, mu, i);
    if found == -1 {
      return;
    }
    if i >= |tickers| {
      outcome := TickerEraseOutOfRange(i, |tickers|);
      return;
    }
    tickers' := Erase(tickers, i);
    log.Clear();
  }

  /** main.cc:735-742: the trial at `found` replaces the record when its variance is strictly smaller. */
  method Improve(best: Best, log: TrialLog, found: int, mu: seq<real>, tickers: seq<string>,
                 ghost ts: seq<Trial>) returns (best': Best)
    requires ts != [] && Logs(log.weights, log.variances, log.expectedReturns, ts)
    requires found == MinElement(log.variances)
    ensures best' == Record(best, ts, mu, tickers)
  {
    assert log.variances[found] == ts[found].variance && log.weights[found] == ts[found].weights;
    best' := best;
    if log.variances[found] < best.minVar {
      best' := Best(|mu|, log.weights[found], mu, log.variances[found], tickers);
    }
  }

  /**
   * `eigen_vector_erase`, `rmcol(R)`, `rmrow(C)` and `rmcol(C)` at the same
   * index, which keeps the three aligned.
   */
  method RemoveAt(R: Matrix, C: Matrix, mu: Vector, i: nat)
    requires R != C && R.Valid() && C.Valid() && C.cols == R.cols && R.cols > 0
    requires Aligned(R.cells, R.cols, C.cells, mu.elems)
    modifies R, C, mu
    ensures R.Valid() && C.Valid() && C.cols == R.cols == old(R.cols) - 1
    ensures R.cells == EraseCol(old(R.cells), old(R.cols), i)
    ensures C.cells == EraseCol(Erase(old(C.cells), i), old(C.cols), i)
    ensures mu.elems == Erase(old(mu.elems), i)
    ensures Aligned(R.cells, R.cols, C.cells, mu.elems)
  {
    AlignedErase(R.cells, R.cols, C.cells, mu.elems, i);
    VectorErase(mu, i);
    RemoveCol(R, i);
    RemoveRow(C, i);
    RemoveCol(C, i);
  }

  /*
   * The whole loop: which rounds were played, on which returns matrix, and
   * how the record relates to all of them.
   */

  /** The matrix C holds while the loop runs: 100 times the sample covariance of R's columns. */
  function ScaledCov(r: seq<seq<real>>, cols: nat): (c: seq<seq<real>>)
    requires |r| > 1 && IsMatrix(r, cols)
    ensures IsSquare(c, cols)
    ensures forall i, k :: 0 <= i < cols && 0 <= k < cols ==> c[i][k] == CovScale * SampleCov(r, i, k)
  {
    seq(cols, i requires 0 <= i < cols => seq(cols, k requires 0 <= k < cols => CovScale * SampleCov(r, i, k)))
  }

  /** C and μ never carry information of their own: aligned with R, they are R's scaled covariance and column means. */
  lemma AlignedDetermined(r: seq<seq<real>>, cols: nat, c: seq<seq<real>>, mu: seq<real>)
    requires Aligned(r, cols, c, mu)
    ensures c == ScaledCov(r, cols) && mu == ColMeans(r, cols)
  {
    var s := ScaledCov(r, cols);
    forall i | 0 <= i < cols
      ensures c[i] == s[i]
    {
      assert |c[i]| == |s[i]| == cols;
    }
  }

  /** `r` after its columns were erased one after another at the indices `removed`, starting from `cols` columns. */
  function EraseCols(r: seq<seq<real>>, cols: nat, removed: seq<nat>): (m: seq<seq<real>>)
    requires |removed| <= cols && IsMatrix(r, cols)
    ensures |m| == |r| && IsMatrix(m, cols - |removed|)
    decreases |removed|
  {
    if removed == [] then r
    else
      var last := |removed| - 1;
      EraseCol(EraseCols(r, cols, removed[..last]), cols - last, removed[last])
  }

  /**
   * What a round with trials `ts` does to the record, the index it removes
   * and the tickers (main.cc:722-750): an infeasible round keeps record and
   * tickers and removes the lowest mean return; a feasible one applies
   * `Record`, removes the smallest weight of the new record and erases that
   * ticker.
   */
  predicate RoundUpdate(best: Best, tickers: seq<string>, mu: seq<real>, ts: seq<Trial>,
                        best': Best, i: nat, tickers': seq<string>)
  {
    && |tickers| >= |mu| > 2
    && best' == (if ts == [] then best else Record(best, ts, mu, tickers))
    && i == Removed(mu, ts, best')
    && tickers' == (if ts == [] then tickers else Erase(tickers, i))
  }

  /**
   * One round played on the returns matrix `r0` with the columns `done`
   * erased, more than two stocks being left: C and μ are computed from that
   * matrix, the round records the trials `ts`, and it takes the record from
   * `best` to `best'` and the tickers from `tickers` to `tickers'`,
   * removing column `i`.
   */
  predicate RoundFacts(r0: seq<seq<real>>, cols0: nat, done: seq<nat>, draws: seq<seq<seq<real>>>,
                       initialCapital: real, minReturn: real, tcost: real, ts: seq<Trial>,
                       best: Best, tickers: seq<string>, best': Best, i: nat, tickers': seq<string>)
  {
    && |r0| > 1 && IsMatrix(r0, cols0) && |done| + 2 < cols0
    && var m := EraseCols(r0, cols0, done);
       var mu := ColMeans(m, cols0 - |done|);
       && AllBatchesValid(draws, cols0 - |done|)
       && ts == RoundTrials(ScaledCov(m, cols0 - |done|), mu, draws, initialCapital, minReturn, tcost)
       && RoundUpdate(best, tickers, mu, ts, best', i, tickers')
  }

  /**
   * Round `k` of the loop was played: it ran on `r0` with the columns
   * `removed[..k]` erased, recorded the trials `history[k]`, took the record
   * from `records[k]` to `records[k + 1]` and the tickers from
   * `tickerHist[k]` to `tickerHist[k + 1]`, and removed column `removed[k]`.
   */
  predicate RoundPlayed(r0: seq<seq<real>>, cols0: nat, removed: seq<nat>, history: seq<seq<Trial>>,
                        records: seq<Best>, tickerHist: seq<seq<string>>,
                        draws: seq<seq<seq<seq<real>>>>, initialCapital: real, minReturn: real, tcost: real,
                        k: nat)
  {
    && k < |history| && k < |removed| && k < |draws| && k + 1 < |records| && k + 1 < |tickerHist|
    && RoundFacts(r0, cols0, removed[..k], draws[k], initialCapital, minReturn, tcost, history[k],
                  records[k], tickerHist[k], records[k + 1], removed[k], tickerHist[k + 1])
  }

  /** Every round of `history` was played as `RoundPlayed` says. */
  predicate Played(r0: seq<seq<real>>, cols0: nat, removed: seq<nat>, history: seq<seq<Trial>>,
                   records: seq<Best>, tickerHist: seq<seq<string>>,
                   draws: seq<seq<seq<seq<real>>>>, initialCapital: real, minReturn: real, tcost: real)
  {
    && |r0| > 1 && IsMatrix(r0, cols0) && |removed| == |history| <= cols0 && |history| <= |draws|
    && |records| == |tickerHist| == |history| + 1
    && forall k: nat :: k < |history| ==>
         RoundPlayed(r0, cols0, removed, history, records, tickerHist, draws, initialCapital, minReturn, tcost, k)
  }

  /**
   * Whether an earlier round was played does not change when the account
   * grows at its end.
   */
  lemma RoundPlayedExtend(r0: seq<seq<real>>, cols0: nat, removed: seq<nat>, history: seq<seq<Trial>>,
                          records: seq<Best>, tickerHist: seq<seq<string>>,
                          draws: seq<seq<seq<seq<real>>>>, initialCapital: real, minReturn: real, tcost: real,
                          removed': seq<nat>, history': seq<seq<Trial>>, records': seq<Best>,
                          tickerHist': seq<seq<string>>, k: nat)
    requires k < |history| && k < |removed| && k + 1 < |records| && k + 1 < |tickerHist|
    requires |removed| <= |removed'| && |history| <= |history'|
    requires |records| <= |records'| && |tickerHist| <= |tickerHist'|
    requires removed'[..|removed|] == removed && history'[..|history|] == history
    requires records'[..|records|] == records && tickerHist'[..|tickerHist|] == tickerHist
    ensures RoundPlayed(r0, cols0, removed', history', records', tickerHist', draws, initialCapital, minReturn, tcost, k)
         == RoundPlayed(r0, cols0, removed, history, records, tickerHist, draws, initialCapital, minReturn, tcost, k)
  {
    assert removed'[..k] == removed[..k];
    assert history'[k] == history[k] && removed'[k] == removed[k];
    assert records'[k] == records[k] && records'[k + 1] == records[k + 1];
    assert tickerHist'[k] == tickerHist[k] && tickerHist'[k + 1] == tickerHist[k + 1];
  }

  /** One more round, played on the current matrix and removing column `i`. */
  lemma PlayedSnoc(r0: seq<seq<real>>, cols0: nat, removed: seq<nat>, history: seq<seq<Trial>>,
                   records: seq<Best>, tickerHist: seq<seq<string>>,
                   draws: seq<seq<seq<seq<real>>>>, initialCapital: real, minReturn: real, tcost: real,
                   ts: seq<Trial>, best': Best, i: nat, tickers': seq<string>,
                   removed': seq<nat>, history': seq<seq<Trial>>, records': seq<Best>, tickerHist': seq<seq<string>>)
    requires Played(r0, cols0, removed, history, records, tickerHist, draws, initialCapital, minReturn, tcost)
    requires |history| < |draws|
    requires RoundFacts(r0, cols0, removed, draws[|history|], initialCapital, minReturn, tcost, ts,
                        records[|history|], tickerHist[|history|], best', i, tickers')
    requires removed' == removed + [i] && history' == history + [ts]
    requires records' == records + [best'] && tickerHist' == tickerHist + [tickers']
    ensures Played(r0, cols0, removed', history', records', tickerHist', draws, initialCapital, minReturn, tcost)
  {
    assert removed'[..|removed|] == removed && history'[..|history|] == history;
    assert records'[..|records|] == records && tickerHist'[..|tickerHist|] == tickerHist;
    forall k: nat | k < |history'|
      ensures RoundPlayed(r0, cols0, removed', history', records', tickerHist', draws,
                          initialCapital, minReturn, tcost, k)
    {
      if k < |history| {
        assert RoundPlayed(r0, cols0, removed, history, records, tickerHist, draws, initialCapital, minReturn, tcost, k);
        RoundPlayedExtend(r0, cols0, removed, history, records, tickerHist, draws, initialCapital, minReturn, tcost,
                          removed', history', records', tickerHist', k);
      } else {
        assert removed'[..k] == removed;
      }
    }
  }

  /** The round about to be played, on the matrix the earlier rounds left, satisfies `RoundFacts`. */
  lemma RoundFactsHold(r0: seq<seq<real>>, cols0: nat, removed: seq<nat>, draws: seq<seq<seq<real>>>,
                       initialCapital: real, minReturn: real, tcost: real, cols: nat,
                       m: seq<seq<real>>, c: seq<seq<real>>, mu: seq<real>, ts: seq<Trial>,
                       best: Best, tickers: seq<string>, best': Best, i: nat, tickers': seq<string>)
    requires |r0| > 1 && IsMatrix(r0, cols0) && |removed| + 2 < cols0 && cols == cols0 - |removed|
    requires m == EraseCols(r0, cols0, removed) && AllBatchesValid(draws, cols)
    requires c == ScaledCov(m, cols) && mu == ColMeans(m, cols)
    requires ts == RoundTrials(c, mu, draws, initialCapital, minReturn, tcost)
    requires RoundUpdate(best, tickers, mu, ts, best', i, tickers')
    ensures RoundFacts(r0, cols0, removed, draws, initialCapital, minReturn, tcost, ts, best, tickers, best', i, tickers')
    ensures EraseCols(r0, cols0, removed + [i]) == EraseCol(m, cols, i)
  {
    assert (removed + [i])[..|removed|] == removed;
  }

  /** `min_var` is at most every variance of every round of `history`. */
  predicate BelowAll(best: Best, history: seq<seq<Trial>>)
  {
    forall k, j :: 0 <= k < |history| && 0 <= j < |history[k]| ==> best.minVar <= history[k][j].variance
  }

  /**
   * Where the record comes from: the initial record (`at == -1`) or the
   * first cheapest trial of round `at`, on that round's `cols0 - at` stocks,
   * with that round's mean returns and tickers.
   */
  predicate SetBy(best: Best, r0: seq<seq<real>>, cols0: nat, removed: seq<nat>, history: seq<seq<Trial>>,
                  tickerHist: seq<seq<string>>, at: int)
  {
    && |r0| > 1 && IsMatrix(r0, cols0) && -1 <= at < |history| <= |removed| <= cols0 && |history| < |tickerHist|
    && (at == -1 ==> best == InitialBest(cols0))
    && (at >= 0 ==>
          && history[at] != []
          && var t := history[at][MinElement(VariancesOf(history[at]))];
          && best.weights == t.weights && best.minVar == t.variance && best.nstocks == cols0 - at
          && best.expReturns == ColMeans(EraseCols(r0, cols0, removed[..at]), cols0 - at)
          && best.tickers == tickerHist[at])
  }

  /**
   * The record after the rounds of `history`: no worse than any trial of any
   * round, and set by the round `at` (or initial).
   */
  predicate BestOf(best: Best, r0: seq<seq<real>>, cols0: nat, removed: seq<nat>, history: seq<seq<Trial>>,
                   tickerHist: seq<seq<string>>, at: int)
  {
    BelowAll(best, history) && SetBy(best, r0, cols0, removed, history, tickerHist, at)
  }

  /** A round's update keeps `min_var` below every variance seen. */
  lemma BelowAllStep(best: Best, history: seq<seq<Trial>>, ts: seq<Trial>, mu: seq<real>, tickers: seq<string>,
                     best': Best, history': seq<seq<Trial>>)
    requires BelowAll(best, history)
    requires best' == (if ts == [] then best else Record(best, ts, mu, tickers)) && history' == history + [ts]
    ensures BelowAll(best', history')
  {
    forall k, j | 0 <= k < |history'| && 0 <= j < |history'[k]|
      ensures best'.minVar <= history'[k][j].variance
    {
      if k < |history| {
        assert history'[k] == history[k];
      }
    }
  }

  /** A round's update keeps the record traced to the round that set it. */
  lemma SetByStep(best: Best, r0: seq<seq<real>>, cols0: nat, removed: seq<nat>, history: seq<seq<Trial>>,
                  tickerHist: seq<seq<string>>, at: int, cols: nat, ts: seq<Trial>, mu: seq<real>, i: nat,
                  tickers': seq<string>, best': Best, removed': seq<nat>, history': seq<seq<Trial>>,
                  tickerHist': seq<seq<string>>, at': int)
    requires SetBy(best, r0, cols0, removed, history, tickerHist, at)
    requires |removed| == |history| < cols0 && cols == cols0 - |history| && |tickerHist| == |history| + 1
    requires mu == ColMeans(EraseCols(r0, cols0, removed), cols)
    requires best' == (if ts == [] then best else Record(best, ts, mu, tickerHist[|history|]))
    requires removed' == removed + [i] && history' == history + [ts] && tickerHist' == tickerHist + [tickers']
    requires at' == (if best' == best then at else |history|)
    ensures SetBy(best', r0, cols0, removed', history', tickerHist', at')
  {
    if best' == best {
      if at >= 0 {
        assert history'[at] == history[at] && removed'[..at] == removed[..at] && tickerHist'[at] == tickerHist[at];
      }
    } else {
      assert removed'[..|history|] == removed && tickerHist'[|history|] == tickerHist[|history|];
    }
  }

  /**
   * What one round adds to the ghost account of the loop, stated on the
   * values before the round: the trials `ts` the round records, the record
   * `best'` and tickers `tickers'` it leaves and the column `i` it removes
   * extend the account; the record stays a feasible one, R loses column `i`,
   * and the record is still the best of all rounds so far.
   */
  lemma RoundBookkeeping(r1: seq<seq<real>>, c1: seq<seq<real>>, mu1: seq<real>, tickers: seq<string>, best: Best,
                         initialCapital: real, minReturn: real, tcost: real, threads: int,
                         draws: seq<seq<seq<seq<real>>>>, r0: seq<seq<real>>, cols0: nat, cols: nat,
                         history: seq<seq<Trial>>, removed: seq<nat>, records: seq<Best>,
                         tickerHist: seq<seq<string>>, bestRound: int)
    returns (ts: seq<Trial>, best': Best, i: nat, tickers': seq<string>,
             history': seq<seq<Trial>>, removed': seq<nat>, records': seq<Best>,
             tickerHist': seq<seq<string>>, bestRound': int)
    requires |history| == |removed| < cols0 && |history| < |draws| && cols == cols0 - |history| && cols > 2
    requires Aligned(r1, cols, c1, mu1) && |tickers| >= |mu1|
    requires RoundDraws(draws[|history|], threads, Trials, cols)
    requires BestInv(best, initialCapital, minReturn, tcost)
    requires Played(r0, cols0, removed, history, records, tickerHist, draws, initialCapital, minReturn, tcost)
    requires best == records[|history|] && tickers == tickerHist[|history|]
    requires r1 == EraseCols(r0, cols0, removed) && BestOf(best, r0, cols0, removed, history, tickerHist, bestRound)
    ensures ts == RoundTrials(c1, mu1, draws[|history|], initialCapital, minReturn, tcost)
    ensures best' == (if ts == [] then best else Record(best, ts, mu1, tickers))
    ensures i == Removed(mu1, ts, best') && tickers' == (if ts == [] then tickers else Erase(tickers, i))
    ensures history' == history + [ts] && removed' == removed + [i]
    ensures records' == records + [best'] && tickerHist' == tickerHist + [tickers']
    ensures BestInv(best', initialCapital, minReturn, tcost)
    ensures Played(r0, cols0, removed', history', records', tickerHist', draws, initialCapital, minReturn, tcost)
    ensures EraseCols(r0, cols0, removed') == EraseCol(r1, cols, i)
    ensures BestOf(best', r0, cols0, removed', history', tickerHist', bestRound')
  {
    assert AllBatchesValid(draws[|history|], cols);
    ts := RoundTrials(c1, mu1, draws[|history|], initialCapital, minReturn, tcost);
    best' := if ts == [] then best else Record(best, ts, mu1, tickers);
    i := Removed(mu1, ts, best');
    tickers' := if ts == [] then tickers else Erase(tickers, i);
    history', removed' := history + [ts], removed + [i];
    records', tickerHist' := records + [best'], tickerHist + [tickers'];
    bestRound' := if best' == best then bestRound else |history|;
    AlignedDetermined(r1, cols, c1, mu1);
    if ts != [] {
      RecordKeepsInvariant(best, ts, c1, mu1, tickers, initialCapital, minReturn, tcost);
    }
    assert RoundUpdate(best, tickers, mu1, ts, best', i, tickers');
    RoundFactsHold(r0, cols0, removed, draws[|history|], initialCapital, minReturn, tcost, cols, r1, c1, mu1, ts,
                   best, tickers, best', i, tickers');
    PlayedSnoc(r0, cols0, removed, history, records, tickerHist, draws, initialCapital, minReturn, tcost,
               ts, best', i, tickers', removed', history', records', tickerHist');
    BelowAllStep(best, history, ts, mu1, tickers, best', history');
    SetByStep(best, r0, cols0, removed, history, tickerHist, bestRound, cols, ts, mu1, i, tickers',
              best', removed', history', tickerHist', bestRound');
  }

  /**
   * One iteration of the loop in `Optimise`: `Round`, together with what it
   * adds to the loop's account of the rounds played and of the record.
   */
  method Step(R: Matrix, C: Matrix, mu: Vector, log: TrialLog, tickers: seq<string>, best: Best,
              initialCapital: real, minReturn: real, tcost: real, threads: int,
              draws: seq<seq<seq<seq<real>>>>, rounds: nat, ghost r0: seq<seq<real>>, ghost cols0: nat,
              ghost history: seq<seq<Trial>>, ghost removed: seq<nat>, ghost records: seq<Best>,
              ghost tickerHist: seq<seq<string>>, ghost bestRound: int)
    returns (outcome: Outcome, tickers': seq<string>, best': Best,
             ghost history': seq<seq<Trial>>, ghost removed': seq<nat>, ghost records': seq<Best>,
             ghost tickerHist': seq<seq<string>>, ghost bestRound': int)
    requires R != C && R.Valid() && C.Valid() && C.cols == R.cols && R.cols > 2 && R.cols == cols0 - rounds
    requires Aligned(R.cells, R.cols, C.cells, mu.elems) && LogEmpty(log)
    requires |tickers| >= R.cols && BestInv(best, initialCapital, minReturn, tcost)
    requires rounds < |draws| && RoundDraws(draws[rounds], threads, Trials, R.cols)
    requires |history| == |removed| == rounds
    requires Played(r0, cols0, removed, history, records, tickerHist, draws, initialCapital, minReturn, tcost)
    requires best == records[rounds] && tickers == tickerHist[rounds]
    requires R.cells == EraseCols(r0, cols0, removed)
    requires BestOf(best, r0, cols0, removed, history, tickerHist, bestRound)
    modifies R, C, mu, log
    ensures R.Valid() && C.Valid() && C.cols == R.cols == old(R.cols) - 1
    ensures Aligned(R.cells, R.cols, C.cells, mu.elems) && BestInv(best', initialCapital, minReturn, tcost)
    ensures |history'| == |removed'| == rounds + 1
    ensures Played(r0, cols0, removed', history', records', tickerHist', draws, initialCapital, minReturn, tcost)
    ensures history' == history + [history'[rounds]] && removed' == removed + [removed'[rounds]]
    ensures records' == records + [best'] && tickerHist' == tickerHist + [tickerHist'[rounds + 1]]
    ensures outcome == Finished ==> LogEmpty(log) && |tickers'| >= R.cols && tickers' == tickerHist'[rounds + 1]
    ensures R.cells == EraseCols(r0, cols0, removed')
    ensures BestOf(best', r0, cols0, removed', history', tickerHist', bestRound')
  {
    ghost var ts, best1, i, tickers1;
    ts, best1, i, tickers1, history', removed', records', tickerHist', bestRound' :=
      RoundBookkeeping(R.cells, C.cells, mu.elems, tickers, best, initialCapital, minReturn, tcost, threads, draws,
                       r0, cols0, R.cols, history, removed, records, tickerHist, bestRound);
    outcome, tickers', best' := Round(R, C, mu, log, tickers, best, initialCapital, minReturn, tcost,
                                      threads, draws[rounds]);
    assert best' == best1;
  }

  /**
   * The loop at main.cc:718-755, from R, C and μ aligned and the starting
   * tickers: rounds run while more than two stocks remain, each removing
   * exactly one, at most `cols - 2` of them. Round `k` is played on R with
   * the columns `removed[..k]` erased, records the trials `history[k]`, and
   * takes the record from `records[k]` to `records[k + 1]` and the tickers
   * from `tickerHist[k]` to `tickerHist[k + 1]` by the rule `RoundUpdate`
   * states, which also fixes the column `removed[k]` it drops. R ends with
   * all of `removed` erased, and the returned record is the last of
   * `records`. It is no worse than any trial of any round, and it is the
   * initial record or the first cheapest trial of round `bestRound`, with
   * that round's mean returns and tickers: the minimum-variance feasible
   * portfolio over the whole loop. A run that does not stop at a bad
   * `tickers.erase` ends with two stocks (or the starting number, if that
   * was at most two).
   */
  method Eliminate(R: Matrix, C: Matrix, mu: Vector, log: TrialLog, tickers0: seq<string>,
                   initialCapital: real, minReturn: real, tcost: real, threads: int,
                   draws: seq<seq<seq<seq<real>>>>, ghost r0: seq<seq<real>>, ghost cols0: nat)
    returns (outcome: Outcome, best: Best, rounds: nat,
             ghost history: seq<seq<Trial>>, ghost removed: seq<nat>, ghost records: seq<Best>,
             ghost tickerHist: seq<seq<string>>, ghost bestRound: int)
    requires R != C && R.Valid() && C.Valid() && C.cols == R.cols == cols0 && R.cells == r0
    requires Aligned(R.cells, R.cols, C.cells, mu.elems) && LogEmpty(log) && |tickers0| == cols0
    requires |draws| >= cols0 - 2
    requires forall k :: 0 <= k < |draws| && k < cols0 ==> RoundDraws(draws[k], threads, Trials, cols0 - k)
    modifies R, C, mu, log
    ensures R.Valid() && rounds <= cols0 && R.cols == cols0 - rounds
    ensures cols0 > 2 ==> rounds <= cols0 - 2
    ensures outcome == Finished ==> R.cols == (if cols0 > 2 then 2 else cols0)
    ensures outcome == Finished ==> rounds == (if cols0 > 2 then cols0 - 2 else 0)
    ensures |history| == |removed| == rounds
    ensures Played(r0, cols0, removed, history, records, tickerHist, draws, initialCapital, minReturn, tcost)
    ensures records[0] == InitialBest(cols0) && tickerHist[0] == tickers0 && best == records[rounds]
    ensures R.cells == EraseCols(r0, cols0, removed)
    ensures BestOf(best, r0, cols0, removed, history, tickerHist, bestRound)
    ensures BestInv(best, initialCapital, minReturn, tcost)
  {
    var tickers := tickers0;
    best := InitialBest(C.cols);
    outcome := Finished;
    rounds := 0;
    history, removed, bestRound := [], [], -1;
    records, tickerHist := [best], [tickers];
    while C.cols > 2
      invariant R.Valid() && C.Valid() && C.cols == R.cols && R.cols == cols0 - rounds
      invariant Aligned(R.cells, R.cols, C.cells, mu.elems) && LogEmpty(log)
      invariant |tickers| >= R.cols && BestInv(best, initialCapital, minReturn, tcost)
      invariant if cols0 > 2 then R.cols >= 2 else rounds == 0
      invariant |history| == |removed| == rounds
      invariant Played(r0, cols0, removed, history, records, tickerHist, draws, initialCapital, minReturn, tcost)
      invariant records[0] == InitialBest(cols0) && tickerHist[0] == tickers0
      invariant best == records[rounds] && tickers == tickerHist[rounds]
      invariant R.cells == EraseCols(r0, cols0, removed)
      invariant BestOf(best, r0, cols0, removed, history, tickerHist, bestRound)
      decreases C.cols
    {
      assert rounds < |draws| && RoundDraws(draws[rounds], threads, Trials, cols0 - rounds);
      outcome, tickers, best, history, removed, records, tickerHist, bestRound :=
        Step(R, C, mu, log, tickers, best, initialCapital, minReturn, tcost, threads, draws, rounds,
             r0, cols0, history, removed, records, tickerHist, bestRound);
      rounds := rounds + 1;
      if outcome != Finished {
        return;
      }
    }
  }

  /**
   * main.cc:703-755: C is the sample covariance of R scaled by 100 and μ the
   * column means (main.cc:703-713); then the loop runs as `Eliminate`
   * states, from the record `InitialBest` and the given tickers.
   */
  method Optimise(R: Matrix, tickers0: seq<string>, initialCapital: real, minReturn: real, tcost: real,
                  threads: int, draws: seq<seq<seq<seq<real>>>>)
    returns (outcome: Outcome, best: Best, rounds: nat,
             ghost history: seq<seq<Trial>>, ghost removed: seq<nat>, ghost records: seq<Best>,
             ghost tickerHist: seq<seq<string>>, ghost bestRound: int)
    requires R.Valid() && |R.cells| > 1 && |tickers0| == R.cols
    requires |draws| >= R.cols - 2
    requires forall k :: 0 <= k < |draws| && k < R.cols ==> RoundDraws(draws[k], threads, Trials, R.cols - k)
    modifies R
    ensures R.Valid() && rounds <= old(R.cols) && R.cols == old(R.cols) - rounds
    ensures old(R.cols) > 2 ==> rounds <= old(R.cols) - 2
    ensures outcome == Finished ==> R.cols == (if old(R.cols) > 2 then 2 else old(R.cols))
    ensures outcome == Finished ==> rounds == (if old(R.cols) > 2 then old(R.cols) - 2 else 0)
    ensures |history| == |removed| == rounds
    ensures Played(old(R.cells), old(R.cols), removed, history, records, tickerHist, draws,
                   initialCapital, minReturn, tcost)
    ensures records[0] == InitialBest(old(R.cols)) && tickerHist[0] == tickers0 && best == records[rounds]
    ensures R.cells == EraseCols(old(R.cells), old(R.cols), removed)
    ensures BestOf(best, old(R.cells), old(R.cols), removed, history, tickerHist, bestRound)
    ensures BestInv(best, initialCapital, minReturn, tcost)
    ensures best.minVar < InitialMinVar ==>
              OnSimplex(best.weights) && |best.weights| == best.nstocks <= |best.tickers|
  {
    var cov := Cov(R.cells);
    var C := new Matrix(Scaled(cov, CovScale), R.cols);
    var mu := new Vector(ColMeans(R.cells, R.cols));
    var log := new TrialLog();
    outcome, best, rounds, history, removed, records, tickerHist, bestRound :=
      Eliminate(R, C, mu, log, tickers0, initialCapital, minReturn, tcost, threads, draws, R.cells, R.cols);
  }
}
