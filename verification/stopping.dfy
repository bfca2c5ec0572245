/**
 The epoch control of `EnglishRecognition.train` (src/engRecognition.py):
 after every epoch the summary lists grow by one entry each, the
 character error rate is compared strictly against the best so far
 (initially +infinity), an improvement saves the model and resets the
 stall counter, and training stops once the counter reaches the
 early-stopping bound. The neural network's contribution to an epoch is
 its report: the batch losses, the character error rate and the word
 accuracy, or the error that ended it.
 */
module EarlyStopping {
  import opened Results

  /** `best_char_error_rate`, which starts as `float('inf')`. */
  datatype Best = Infinity | Finite(cer: real)

  /** The strict improvement test `char_error_rate < best_char_error_rate`. */
  predicate Improves(cer: real, best: Best) {
    best.Infinity? || cer < best.cer
  }

  predicate AtMost(a: Best, b: Best) {
    b.Infinity? || (a.Finite? && a.cer <= b.cer)
  }

  /** The three lists written to the summary file after every epoch. */
  datatype Summary = Summary(averageTrainLoss: seq<real>, charErrorRates: seq<real>, wordAccuracies: seq<real>)

  /** The loop state; `saves` counts the calls of `model.save()`. */
  datatype Control = Control(epoch: nat, best: Best, noImprovementSince: nat, summary: Summary, saves: nat)

  const Start: Control := Control(0, Infinity, 0, Summary([], [], []), 0)

  /** What one epoch of training and validation produced. */
  datatype EpochReport = EpochReport(losses: seq<real>, charErrorRate: real, wordAccuracy: real)

  datatype Outcome = Stopped(control: Control) | Failed(error: Error) | Unfinished(control: Control)

  function Sum(xs: seq<real>): real {
    if |xs| == 0 then 0.0 else Sum(xs[..|xs| - 1]) + xs[|xs| - 1]
  }

  /** `sum(xs) / len(xs)`, which fails on an epoch without training batches. */
  function Mean(xs: seq<real>): (r: Result<real>)
    ensures r.Err? <==> |xs| == 0
    ensures r.Err? ==> r.error == DivisionByZero
    ensures r.Ok? ==> r.value * |xs| as real == Sum(xs)
  {
    if |xs| == 0 then Err(DivisionByZero) else Ok(Sum(xs) / |xs| as real)
  }

  /** The bookkeeping at the end of one epoch; the flag says whether the
      model is saved. */
  function AfterEpoch(c: Control, rep: EpochReport): (r: Result<(Control, bool)>)
    ensures r.Err? <==> |rep.losses| == 0
    ensures r.Err? ==> r.error == DivisionByZero
    ensures r.Ok? ==> var (d, save) := r.value;
              && d.epoch == c.epoch + 1
              && d.summary.charErrorRates == c.summary.charErrorRates + [rep.charErrorRate]
              && d.summary.wordAccuracies == c.summary.wordAccuracies + [rep.wordAccuracy]
              && d.summary.averageTrainLoss == c.summary.averageTrainLoss + [Mean(rep.losses).value]
              && (save <==> Improves(rep.charErrorRate, c.best))
              && AtMost(d.best, c.best)
              && d.saves == c.saves + (if save then 1 else 0)
              && (save ==> d.noImprovementSince == 0 && d.best == Finite(rep.charErrorRate))
              && (!save ==> d.noImprovementSince == c.noImprovementSince + 1 && d.best == c.best)
  {
    var avg :- Mean(rep.losses);
    var s := c.summary;
    var summary := Summary(s.averageTrainLoss + [avg], s.charErrorRates + [rep.charErrorRate],
                           s.wordAccuracies + [rep.wordAccuracy]);
    if Improves(rep.charErrorRate, c.best) then
      Ok((Control(c.epoch + 1, Finite(rep.charErrorRate), 0, summary, c.saves + 1), true))
    else
      Ok((Control(c.epoch + 1, c.best, c.noImprovementSince + 1, summary, c.saves), false))
  }

  /** The `while True` loop over the reports of successive epochs: it stops
      right after the first epoch whose stall counter reaches
      `earlyStopping`, fails with the first failing epoch, and is
      unfinished when the reports run out first. */
  function Run(earlyStopping: int, c: Control, reports: seq<Result<EpochReport>>): Outcome
    decreases |reports|
  {
    if |reports| == 0 then Unfinished(c)
    else
      match reports[0]
      case Err(e) => Failed(e)
      case Ok(rep) =>
        match AfterEpoch(c, rep)
        case Err(e) => Failed(e)
        case Ok((d, _)) =>
          if d.noImprovementSince >= earlyStopping then Stopped(d)
          else Run(earlyStopping, d, reports[1..])
  }

  /** A stop happens only at the bound and after at least one epoch; an
      unfinished run has gone through every report. */
  lemma {:induction false} RunEpochs(earlyStopping: int, c: Control, reports: seq<Result<EpochReport>>)
    ensures var o := Run(earlyStopping, c, reports);
            && (o.Stopped? ==> o.control.noImprovementSince >= earlyStopping)
            && (o.Stopped? || o.Unfinished? ==>
                  c.epoch + (if o.Stopped? then 1 else 0) <= o.control.epoch <= c.epoch + |reports|)
            && (o.Unfinished? ==> o.control.epoch == c.epoch + |reports|)
    decreases |reports|
  {
    if |reports| > 0 && reports[0].Ok? && AfterEpoch(c, reports[0].value).Ok? {
      var d := AfterEpoch(c, reports[0].value).value.0;
      RunEpochs(earlyStopping, d, reports[1..]);
    }
  }

  // ----- reference: the history of character error rates -----------------

  /** The least value of a history, `Infinity` for an empty one. */
  function MinOf(xs: seq<real>): (r: Best)
    ensures r.Infinity? <==> |xs| == 0
    ensures r.Finite? ==> r.cer in xs && forall i :: 0 <= i < |xs| ==> r.cer <= xs[i]
  {
    if |xs| == 0 then Infinity
    else
      var init := xs[..|xs| - 1];
      var x := xs[|xs| - 1];
      assert forall i :: 0 <= i < |xs| - 1 ==> xs[i] == init[i];
      match MinOf(init)
      case Infinity => Finite(x)
      case Finite(m) => if x < m then Finite(x) else Finite(m)
  }

  /** Epoch `i` (0-based) set a record: it is strictly below every earlier one. */
  predicate IsRecord(xs: seq<real>, i: nat)
    requires i < |xs|
  {
    forall j :: 0 <= j < i ==> xs[i] < xs[j]
  }

  /** The record-setting epochs of a history. */
  ghost function Records(xs: seq<real>): set<nat> {
    set i: nat | i < |xs| && IsRecord(xs, i)
  }

  /** Number of epochs since the last record. */
  function Stall(xs: seq<real>): nat {
    if |xs| == 0 || IsRecord(xs, |xs| - 1) then 0 else 1 + Stall(xs[..|xs| - 1])
  }

  /** The loop state agrees with its history: the summary lists have one
      entry per epoch, the best is the minimum so far, the saves are the
      records, and the counter counts the epochs since the last record. */
  ghost predicate Invariant(c: Control) {
    var xs := c.summary.charErrorRates;
    && |xs| == c.epoch
    && |c.summary.wordAccuracies| == c.epoch
    && |c.summary.averageTrainLoss| == c.epoch
    && c.best == MinOf(xs)
    && c.saves == |Records(xs)|
    && c.noImprovementSince == Stall(xs)
  }

  lemma StartInvariant()
    ensures Invariant(Start)
  {
    assert Records([]) == {};
  }

  /** An epoch improves exactly when it sets a record in the history. */
  lemma {:induction false} ImprovesIffRecord(xs: seq<real>, x: real)
    ensures Improves(x, MinOf(xs)) <==> IsRecord(xs + [x], |xs|)
  {
    var ys := xs + [x];
    assert forall j :: 0 <= j < |xs| ==> ys[j] == xs[j];
  }

  lemma RecordsAppend(xs: seq<real>, x: real)
    ensures Records(xs + [x]) == Records(xs) + (if IsRecord(xs + [x], |xs|) then {|xs|} else {})
    ensures |xs| !in Records(xs)
  {
    var ys := xs + [x];
    forall i | 0 <= i < |xs|
      ensures IsRecord(ys, i) <==> IsRecord(xs, i)
    {
      assert forall j :: 0 <= j < i ==> ys[j] == xs[j];
    }
  }

  /** Every completed epoch keeps the loop state in step with its history. */
  lemma {:induction false} AfterEpochInvariant(c: Control, rep: EpochReport)
    requires Invariant(c) && AfterEpoch(c, rep).Ok?
    ensures Invariant(AfterEpoch(c, rep).value.0)
  {
    var xs := c.summary.charErrorRates;
    var x := rep.charErrorRate;
    var ys := xs + [x];
    var d := AfterEpoch(c, rep).value.0;
    ImprovesIffRecord(xs, x);
    RecordsAppend(xs, x);
    assert ys[..|ys| - 1] == xs;
    assert d.summary.charErrorRates == ys;
  }

  /** What a run establishes from a state in step with its history: the
      outcome's state is in step with its history as well, it extends the
      starting history, and the counter stayed below the bound at every
      epoch before a stop (and at every epoch of an unfinished run). */
  lemma {:induction false} RunInvariant(es: int, c: Control, reports: seq<Result<EpochReport>>)
    requires Invariant(c)
    ensures var o := Run(es, c, reports);
            (o.Stopped? || o.Unfinished?) ==>
              var d := o.control;
              var ys := d.summary.charErrorRates;
              && Invariant(d)
              && c.epoch <= d.epoch <= c.epoch + |reports|
              && ys[..c.epoch] == c.summary.charErrorRates
              && (o.Stopped? ==> d.epoch > c.epoch && d.noImprovementSince >= es)
              && (forall j :: c.epoch < j < d.epoch ==> Stall(ys[..j]) < es)
              && (o.Unfinished? ==> d.epoch == c.epoch + |reports| && (d.epoch > c.epoch ==> Stall(ys) < es))
    decreases |reports|
  {
    if |reports| > 0 && reports[0].Ok? && AfterEpoch(c, reports[0].value).Ok? {
      var d := AfterEpoch(c, reports[0].value).value.0;
      AfterEpochInvariant(c, reports[0].value);
      if d.noImprovementSince < es {
        RunInvariant(es, d, reports[1..]);
        var o := Run(es, c, reports);
        assert o == Run(es, d, reports[1..]);
        if o.Stopped? || o.Unfinished? {
          var e := o.control;
          var ys := e.summary.charErrorRates;
          assert ys[..d.epoch] == d.summary.charErrorRates;
          assert ys[..c.epoch] == ys[..d.epoch][..c.epoch];
          assert d.summary.charErrorRates[..c.epoch] == c.summary.charErrorRates;
          forall j | c.epoch < j < e.epoch
            ensures Stall(ys[..j]) < es
          {
            if j == d.epoch {
              assert ys[..j] == d.summary.charErrorRates;
            }
          }
        }
      } else {
        assert d.summary.charErrorRates[..c.epoch] == c.summary.charErrorRates;
      }
    }
  }

  /** The best starts at +infinity, so the first completed epoch always
      improves, saves and resets the counter. */
  lemma FirstEpochSaves(rep: EpochReport)
    requires |rep.losses| > 0
    ensures var (d, save) := AfterEpoch(Start, rep).value;
            save && d.noImprovementSince == 0 && d.saves == 1 && d.best == Finite(rep.charErrorRate)
  {
  }

  /** A report that completes: it has training batches. */
  predicate Completes(r: Result<EpochReport>) {
    r.Ok? && |r.value.losses| > 0
  }

  /** With a bound of at most 0 the loop stops after the first epoch. */
  lemma NonPositiveBoundStopsAtOnce(es: int, reports: seq<Result<EpochReport>>)
    requires es <= 0 && |reports| > 0 && Completes(reports[0])
    ensures Run(es, Start, reports).Stopped? && Run(es, Start, reports).control.epoch == 1
  {
  }

  /** If no epoch after the first improves on it, a positive bound `es`
      makes the loop run exactly `1 + es` epochs. */
  lemma NeverImprovingRunsBoundPlusOne(es: int, reports: seq<Result<EpochReport>>)
    requires es >= 1 && |reports| >= 1 + es
    requires Completes(reports[0])
    requires forall i :: 1 <= i < |reports| ==>
               Completes(reports[i]) && reports[i].value.charErrorRate >= reports[0].value.charErrorRate
    ensures Run(es, Start, reports).Stopped?
    ensures Run(es, Start, reports).control.epoch == 1 + es
  {
    var first := reports[0].value;
    var d := AfterEpoch(Start, first).value.0;
    StallsUntilBound(es, d, reports[1..], first.charErrorRate);
  }

  lemma {:induction false} StallsUntilBound(es: int, c: Control, reports: seq<Result<EpochReport>>, b: real)
    requires c.best == Finite(b) && c.noImprovementSince < es
    requires |reports| >= es - c.noImprovementSince
    requires forall i :: 0 <= i < |reports| ==> Completes(reports[i]) && reports[i].value.charErrorRate >= b
    ensures Run(es, c, reports).Stopped?
    ensures Run(es, c, reports).control.epoch == c.epoch + es - c.noImprovementSince
    decreases es - c.noImprovementSince
  {
    var d := AfterEpoch(c, reports[0].value).value.0;
    if d.noImprovementSince < es {
      StallsUntilBound(es, d, reports[1..], b);
    }
  }
}
