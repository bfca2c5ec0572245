/**
 The validation metrics of src/engRecognition.py (`validate`): per word,
 the edit distance between recognition and ground truth is added to the
 character error count, the ground-truth length to the character total,
 and an exact match to the word-correct count; at the end the two rates
 are ratios of these counters. The edit distance is Levenshtein's,
 defined here as a reference in place of the `editdistance` library.
 */
module Metrics {
  import opened Results
  import opened Labels

  // ----- edit distance --------------------------------------------------

  function Min3(a: nat, b: nat, c: nat): (m: nat)
    ensures m <= a && m <= b && m <= c
    ensures m == a || m == b || m == c
  {
    if a <= b && a <= c then a else if b <= c then b else c
  }

  /** Levenshtein distance: the fewest single-character insertions,
      deletions and substitutions turning `a` into `b`. It is at least the
      difference of the lengths and at most the longer length. */
  function Lev(a: string, b: string): (r: nat)
    ensures |a| - |b| <= r && |b| - |a| <= r
    ensures r <= if |a| >= |b| then |a| else |b|
    decreases |a| + |b|
  {
    if |a| == 0 then |b|
    else if |b| == 0 then |a|
    else if a[0] == b[0] then Lev(a[1..], b[1..])
    else 1 + Min3(Lev(a[1..], b), Lev(a, b[1..]), Lev(a[1..], b[1..]))
  }

  /** The distance is zero exactly between equal strings. */
  lemma {:induction false} LevZeroIff(a: string, b: string)
    ensures Lev(a, b) == 0 <==> a == b
    decreases |a| + |b|
  {
    if |a| > 0 && |b| > 0 && a[0] == b[0] {
      LevZeroIff(a[1..], b[1..]);
      if a[1..] == b[1..] {
        assert a == [a[0]] + a[1..] && b == [b[0]] + b[1..];
      }
    }
  }

  /** The distance does not depend on which string is the recognition. */
  lemma {:induction false} LevSymmetric(a: string, b: string)
    ensures Lev(a, b) == Lev(b, a)
    decreases |a| + |b|
  {
    if |a| > 0 && |b| > 0 {
      LevSymmetric(a[1..], b[1..]);
      if a[0] != b[0] {
        LevSymmetric(a[1..], b);
        LevSymmetric(a, b[1..]);
      }
    }
  }

  // ----- counters -------------------------------------------------------

  datatype Counters = Counters(charErr: nat, charTotal: nat, wordOk: nat, wordTotal: nat)

  const Zero := Counters(0, 0, 0, 0)

  /** What `validate` keeps true of its counters: no more exact words than
      words, and no character error exactly when every word was exact. */
  predicate Consistent(c: Counters) {
    c.wordOk <= c.wordTotal && (c.charErr == 0 <==> c.wordOk == c.wordTotal)
  }

  /** Counters added up field by field. */
  function Plus(a: Counters, b: Counters): Counters {
    Counters(a.charErr + b.charErr, a.charTotal + b.charTotal, a.wordOk + b.wordOk, a.wordTotal + b.wordTotal)
  }

  /** What one recognised word contributes: its edit distance to the
      ground truth, the ground truth's length, one exact match or none, and
      one word. */
  function Score(gt: string, rec: string): Counters {
    Counters(Lev(rec, gt), |gt|, if gt == rec then 1 else 0, 1)
  }

  /** The reference sum of the scores of each recognition against the
      ground truth at the same position. */
  function ScoreAll(gts: seq<string>, recs: seq<string>): Counters
    requires |recs| <= |gts|
    decreases |recs|
  {
    if |recs| == 0 then Zero
    else
      var n := |recs| - 1;
      Plus(ScoreAll(gts, recs[..n]), Score(gts[n], recs[n]))
  }

  /** The summed scores count the words, the ground-truth characters and
      the exact matches; their edit distances add up to 0 exactly when
      every word is exact; and they are consistent. */
  lemma {:induction false} ScoreAllMeaning(gts: seq<string>, recs: seq<string>)
    requires |recs| <= |gts|
    ensures var s := ScoreAll(gts, recs);
            && s.wordTotal == |recs|
            && s.charTotal == TotalLength(gts[..|recs|])
            && s.wordOk == |Matches(gts, recs, |recs|)|
            && (s.charErr == 0 <==> forall i :: 0 <= i < |recs| ==> recs[i] == gts[i])
            && Consistent(s)
    decreases |recs|
  {
    if |recs| == 0 {
      assert gts[..0] == [];
    } else {
      var n := |recs| - 1;
      ScoreAllMeaning(gts, recs[..n]);
      LevZeroIff(recs[n], gts[n]);
      TallyStep(gts, recs, n);
    }
  }

  /** Scoring a second run of words after a first adds their scores. */
  lemma {:induction false} ScoreAllConcat(g1: seq<string>, r1: seq<string>, g2: seq<string>, r2: seq<string>)
    requires |r1| == |g1| && |r2| <= |g2|
    ensures ScoreAll(g1 + g2, r1 + r2) == Plus(ScoreAll(g1, r1), ScoreAll(g2, r2))
    decreases |r2|
  {
    if |r2| == 0 {
      assert r1 + r2 == r1;
      ScoreAllExtendGts(g1, g2, r1);
    } else {
      var n := |r2| - 1;
      var init := r2[..n];
      assert r1 + r2 == (r1 + init) + [r2[n]];
      assert r2 == init + [r2[n]];
      var front := ScoreAll(g1 + g2, r1 + init);
      assert front == Plus(ScoreAll(g1, r1), ScoreAll(g2, init)) by {
        ScoreAllConcat(g1, r1, g2, init);
      }
      assert ScoreAll(g1 + g2, r1 + r2) == Plus(front, Score(g2[n], r2[n])) by {
        ScoreAllSnoc(g1 + g2, r1 + init, r2[n]);
        assert (g1 + g2)[|r1 + init|] == g2[n];
      }
      assert ScoreAll(g2, r2) == Plus(ScoreAll(g2, init), Score(g2[n], r2[n])) by {
        ScoreAllSnoc(g2, init, r2[n]);
      }
      PlusAssoc(ScoreAll(g1, r1), ScoreAll(g2, init), Score(g2[n], r2[n]));
    }
  }

  lemma PlusAssoc(a: Counters, b: Counters, c: Counters)
    ensures Plus(Plus(a, b), c) == Plus(a, Plus(b, c))
  {
  }

  lemma ScoreAllSnoc(gts: seq<string>, recs: seq<string>, x: string)
    requires |recs| < |gts|
    ensures ScoreAll(gts, recs + [x]) == Plus(ScoreAll(gts, recs), Score(gts[|recs|], x))
  {
    assert (recs + [x])[..|recs|] == recs;
  }

  /** Ground truths past the last recognition do not matter. */
  lemma {:induction false} ScoreAllExtendGts(g1: seq<string>, g2: seq<string>, recs: seq<string>)
    requires |recs| <= |g1|
    ensures ScoreAll(g1 + g2, recs) == ScoreAll(g1, recs)
    decreases |recs|
  {
    if |recs| > 0 {
      var n := |recs| - 1;
      ScoreAllExtendGts(g1, g2, recs[..n]);
      assert (g1 + g2)[n] == g1[n];
    }
  }

  /** Positions among the first `n` where recognition and ground truth agree. */
  ghost function Matches(gts: seq<string>, recs: seq<string>, n: nat): set<nat>
    requires n <= |gts| && n <= |recs|
  {
    set i: nat | i < n && gts[i] == recs[i]
  }

  /** The inner loop of `validate` over one batch: for each recognition,
      the ground truth at the same position. A ground-truth list shorter
      than the recognitions fails on the missing entry. */
  function Tally(c: Counters, gts: seq<string>, recs: seq<string>): (r: Result<Counters>)
    ensures r.Ok? <==> |recs| <= |gts|
    ensures r.Err? ==> r.error == IndexOutOfRange
    ensures r.Ok? ==> var d := r.value;
              && d.wordTotal == c.wordTotal + |recs|
              && d.charTotal == c.charTotal + TotalLength(gts[..|recs|])
              && d.wordOk == c.wordOk + |Matches(gts, recs, |recs|)|
              && d.charErr >= c.charErr
              && (d.charErr == c.charErr <==> forall i :: 0 <= i < |recs| ==> recs[i] == gts[i])
              && (Consistent(c) ==> Consistent(d))
              && d == Plus(c, ScoreAll(gts, recs))
    decreases |recs|
  {
    if |recs| == 0 then
      assert gts[..0] == [];
      Ok(c)
    else if |recs| > |gts| then Err(IndexOutOfRange)
    else
      var n := |recs| - 1;
      match Tally(c, gts, recs[..n])
      case Err(e) => Err(e)
      case Ok(p) =>
        var dist := Lev(recs[n], gts[n]);
        LevZeroIff(recs[n], gts[n]);
        TallyStep(gts, recs, n);
        Ok(Counters(p.charErr + dist, p.charTotal + |gts[n]|,
                    p.wordOk + (if gts[n] == recs[n] then 1 else 0), p.wordTotal + 1))
  }

  /** One more word adds its length to the character total, and one
      match exactly when it is recognised exactly. */
  lemma TallyStep(gts: seq<string>, recs: seq<string>, n: nat)
    requires n < |recs| && n < |gts|
    ensures TotalLength(gts[..n + 1]) == TotalLength(gts[..n]) + |gts[n]|
    ensures |Matches(gts, recs, n + 1)| == |Matches(gts, recs[..n], n)| + (if gts[n] == recs[n] then 1 else 0)
    ensures (forall i :: 0 <= i < n + 1 ==> recs[i] == gts[i])
            <==> (forall i :: 0 <= i < n ==> recs[..n][i] == gts[i]) && recs[n] == gts[n]
  {
    assert gts[..n + 1][..n] == gts[..n];
    MatchesStep(gts, recs, n);
    AllExactStep(gts, recs, n);
  }

  lemma MatchesStep(gts: seq<string>, recs: seq<string>, n: nat)
    requires n < |recs| && n < |gts|
    ensures |Matches(gts, recs, n + 1)| == |Matches(gts, recs[..n], n)| + (if gts[n] == recs[n] then 1 else 0)
  {
    var before := Matches(gts, recs[..n], n);
    assert before == Matches(gts, recs, n);
    if gts[n] == recs[n] {
      assert Matches(gts, recs, n + 1) == before + {n};
    } else {
      assert Matches(gts, recs, n + 1) == before;
    }
  }

  lemma AllExactStep(gts: seq<string>, recs: seq<string>, n: nat)
    requires n < |recs| && n < |gts|
    ensures (forall i :: 0 <= i < n + 1 ==> recs[i] == gts[i])
            <==> (forall i :: 0 <= i < n ==> recs[..n][i] == gts[i]) && recs[n] == gts[n]
  {
  }

  /** The two rates: character error rate and word accuracy, each a
      division that fails on a zero total (character total first). */
  function Rates(c: Counters): (r: Result<(real, real)>)
    ensures r.Err? <==> c.charTotal == 0 || c.wordTotal == 0
    ensures r.Err? ==> r.error == DivisionByZero
    ensures r.Ok? ==> var (cer, acc) := r.value;
              && cer * c.charTotal as real == c.charErr as real
              && acc * c.wordTotal as real == c.wordOk as real
              && 0.0 <= cer && 0.0 <= acc
              && (c.wordOk <= c.wordTotal ==> acc <= 1.0)
              && (Consistent(c) ==> (cer == 0.0 <==> acc == 1.0))
  {
    if c.charTotal == 0 || c.wordTotal == 0 then Err(DivisionByZero)
    else
      var cer := c.charErr as real / c.charTotal as real;
      var acc := c.wordOk as real / c.wordTotal as real;
      assert cer * c.charTotal as real == c.charErr as real;
      assert acc * c.wordTotal as real == c.wordOk as real;
      assert cer == 0.0 <==> c.charErr == 0;
      assert acc == 1.0 <==> c.wordOk == c.wordTotal;
      Ok((cer, acc))
  }

  /** When every word is recognised exactly, the character error rate is 0
      and the word accuracy is 1, provided there is a character at all. */
  lemma PerfectRecognition(gts: seq<string>)
    requires TotalLength(gts) > 0
    ensures Tally(Zero, gts, gts).Ok?
    ensures Rates(Tally(Zero, gts, gts).value) == Ok((0.0, 1.0))
  {
    assert gts[..|gts|] == gts;
    var t := Tally(Zero, gts, gts);
    assert t.Ok?;
    var d := t.value;
    assert d.charErr == 0;
    assert Consistent(d);
    assert d.charTotal > 0 && d.wordTotal > 0;
    var (cer, acc) := Rates(d).value;
    assert cer == 0.0;
  }
}
