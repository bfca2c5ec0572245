/**
 `EnglishRecognition` (src/engRecognition.py): the training loop and the
 validation pass, driving the data loader and the model, and the rule for
 the alphabet saved when training starts. The preprocessor is a
 per-image function (one for training, with its augmentation, one for
 validation); the random draws of every epoch's shuffle are a parameter,
 one draw sequence per epoch, and their supply bounds the otherwise
 endless loop.
 */
module Recognition {
  import opened Results
  import opened Arith
  import opened Manifest
  import opened Loader
  import opened Labels
  import opened Network
  import opened Metrics
  import opened EarlyStopping

  /** `preprocessor.process_batch`: every image goes through `prep`; the
      transcriptions and the size are kept. */
  function Preprocess(prep: Image -> Image, b: Batch<Image>): (r: Batch<Image>)
    ensures |r.imgs| == |b.imgs| && r.gtTexts == b.gtTexts && r.batchSize == b.batchSize
    ensures forall i :: 0 <= i < |b.imgs| ==> r.imgs[i] == prep(b.imgs[i])
  {
    Batch(seq(|b.imgs|, i requires 0 <= i < |b.imgs| => prep(b.imgs[i])), b.gtTexts, b.batchSize)
  }

  /** Every transcription character of a list of samples is in `alphabet`. */
  predicate Covers(alphabet: seq<char>, samples: seq<Sample>) {
    forall s, c :: s in samples && c in s.gtText ==> c in alphabet
  }

  /** The sample at position `i` of a window is one of the active samples. */
  lemma WindowInActive(ld: Loader, i: nat)
    requires i < |Window(ld)|
    ensures Window(ld)[i] in ld.Active()
  {
    assert Window(ld)[i] == ld.Active()[ld.cursor + i];
  }

  /** In training mode, while `has_next` holds the next batch is full. */
  lemma TrainWindowFull(ld: Loader)
    requires ld.mode.TrainMode? && HasNext(ld)
    ensures |Window(ld)| == ld.batchSize
  {
  }

  lemma AppendAssoc<T>(a: seq<T>, b: seq<T>, c: seq<T>)
    ensures (a + b) + c == a + (b + c)
  {
  }

  /** One more element taken off the front of the rest keeps the part
      taken a prefix of the whole. */
  lemma PrefixGrows<T>(whole: seq<T>, done: seq<T>, rest: seq<T>, x: T, tail: seq<T>)
    requires whole == done + rest && rest == [x] + tail
    ensures done + [x] <= whole
  {
    assert whole == (done + [x]) + tail;
  }

  /** One step of a pass: the batch taken is the head of the rest of the drain. */
  lemma DrainStep(ld: Loader, l: Loader, read: string -> Image, done: seq<Batch<Image>>)
    requires ld.batchSize > 0 && l.batchSize == ld.batchSize && HasNext(l)
    requires Drain(ld, read) == done + Drain(l, read)
    ensures Drain(ld, read) == (done + [GetNext(l, read).1]) + Drain(GetNext(l, read).0, read)
  {
    var (next, b) := GetNext(l, read);
    assert Drain(l, read) == [b] + Drain(next, read);
    AppendAssoc(done, [b], Drain(next, read));
  }

  /** A batch taken from samples the alphabet covers only holds covered texts. */
  lemma BatchCovered(alphabet: seq<char>, l: Loader, read: string -> Image)
    requires Covers(alphabet, l.Active())
    ensures forall t, c :: t in GetNext(l, read).1.gtTexts && c in t ==> c in alphabet
  {
    var b := GetNext(l, read).1;
    forall t, c | t in b.gtTexts && c in t
      ensures c in alphabet
    {
      var i :| 0 <= i < |b.gtTexts| && b.gtTexts[i] == t;
      WindowInActive(l, i);
    }
  }

  /** Training on a list of batches, batch after batch: each batch is
      preprocessed and fed to `train_batch` on the model the previous batch
      left; the losses are collected in order, and the first failing batch
      fails. */
  function Trained<P>(m: Model<P>, batches: seq<Batch<Image>>, prep: Image -> Image,
                      step: (P, Feed) -> (P, real)): Result<(Model<P>, seq<real>)>
    decreases |batches|
  {
    if |batches| == 0 then Ok((m, []))
    else
      var n := |batches| - 1;
      match Trained(m, batches[..n], prep, step)
      case Err(e) => Err(e)
      case Ok((prev, losses)) =>
        match Step(prev, Preprocess(prep, batches[n]), step)
        case Err(e) => Err(e)
        case Ok((next, loss)) => Ok((next, losses + [loss]))
  }

  /** Once training fails, later batches do not change the outcome. */
  lemma {:induction false} TrainedPrefixErr<P>(m: Model<P>, a: seq<Batch<Image>>, b: seq<Batch<Image>>,
                                               prep: Image -> Image, step: (P, Feed) -> (P, real))
    requires Trained(m, a, prep, step).Err?
    ensures Trained(m, a + b, prep, step) == Trained(m, a, prep, step)
    decreases |b|
  {
    if |b| == 0 {
      assert a + b == a;
    } else {
      var n := |b| - 1;
      TrainedPrefixErr(m, a, b[..n], prep, step);
      assert (a + b)[..|a + b| - 1] == a + b[..n];
    }
  }

  /** Training on one more batch is a step from the model trained so far. */
  lemma TrainedSnoc<P>(m: Model<P>, done: seq<Batch<Image>>, b: Batch<Image>, prep: Image -> Image,
                       step: (P, Feed) -> (P, real))
    requires Trained(m, done, prep, step).Ok?
    ensures var (model, losses) := Trained(m, done, prep, step).value;
            Trained(m, done + [b], prep, step)
            == match Step(model, Preprocess(prep, b), step)
               case Err(e) => Err(e)
               case Ok((next, loss)) => Ok((next, losses + [loss]))
  {
    assert (done + [b])[..|done|] == done && (done + [b])[|done|] == b;
  }

  /** The training half of an epoch (`train_set` has just run): train on
      every batch while `has_next` holds. The outcome is that of training
      on the drained batches in order, so the parameters are those `step`
      produced batch after batch and the losses are its losses. On success
      there is one loss per full batch, the batch counter grew by as many,
      and the alphabet, snapshot id and restore flag are unchanged; an
      alphabet covering the training samples means the pass cannot fail. */
  method TrainPass<P>(m: Model<P>, ld: Loader, read: string -> Image, prep: Image -> Image,
                      step: (P, Feed) -> (P, real))
    returns (r: Result<(Model<P>, seq<real>)>, ld': Loader)
    requires ld.batchSize > 0 && ld.mode.TrainMode? && ld.cursor == 0
    ensures ld' == ld.(cursor := ld'.cursor)
    ensures r == Trained(m, Drain(ld, read), prep, step)
    ensures r.Ok? ==> var (m', losses) := r.value;
              && |losses| == |ld.trainSamples| / ld.batchSize
              && m'.batchesTrained == m.batchesTrained + |losses|
              && m'.snapId == m.snapId && m'.charList == m.charList && m'.mustRestore == m.mustRestore
    ensures r.Err? ==> r.error.UnknownChar? && r.error.c !in m.charList
    ensures Covers(m.charList, ld.trainSamples) ==> r.Ok?
  {
    TrainPassConsumes(ld, read);
    var l := ld;
    var model := m;
    var losses: seq<real> := [];
    ghost var done: seq<Batch<Image>> := [];
    while HasNext(l)
      invariant l == ld.(cursor := l.cursor)
      invariant Drain(ld, read) == done + Drain(l, read)
      invariant |losses| == |done|
      invariant model.batchesTrained == m.batchesTrained + |done|
      invariant model.snapId == m.snapId && model.charList == m.charList && model.mustRestore == m.mustRestore
      invariant Trained(m, done, prep, step) == Ok((model, losses))
      decreases |l.Active()| - l.cursor
    {
      DrainStep(ld, l, read, done);
      TrainWindowFull(l);
      if Covers(m.charList, ld.trainSamples) {
        BatchCovered(m.charList, l, read);
      }
      var (next, b) := GetNext(l, read);
      var t := TrainBatch(model, Preprocess(prep, b), step);
      assert t == Step(model, Preprocess(prep, b), step);
      TrainedSnoc(m, done, b, prep, step);
      if t.Err? {
        TrainedPrefixErr(m, done + [b], Drain(next, read), prep, step);
        r, ld' := Err(t.error), next;
        return;
      }
      model := t.value.0;
      losses := losses + [t.value.1];
      done := done + [b];
      l := next;
    }
    assert done == Drain(ld, read);
    r, ld' := Ok((model, losses)), l;
  }

  /** `validate` asks for no probabilities. */
  function NoProbability<P>(params: P, feed: Feed): seq<real> {
    []
  }

  /** The recognitions of a list of batches, batch after batch: each batch
      is preprocessed and recognised; the first failing batch fails. */
  function Recognized<P>(m: Model<P>, batches: seq<Batch<Image>>, prep: Image -> Image,
                         decode: (P, seq<Image>, seq<nat>) -> Sparse): Result<seq<string>>
    decreases |batches|
  {
    if |batches| == 0 then Ok([])
    else
      var n := |batches| - 1;
      match Recognized(m, batches[..n], prep, decode)
      case Err(e) => Err(e)
      case Ok(prev) =>
        match Infer(m, Preprocess(prep, batches[n]), false, decode, NoProbability)
        case Err(e) => Err(e)
        case Ok((texts, _)) => Ok(prev + texts)
  }

  /** Once recognition fails, later batches do not change the outcome. */
  lemma {:induction false} RecognizedPrefixErr<P>(m: Model<P>, a: seq<Batch<Image>>, b: seq<Batch<Image>>,
                                                  prep: Image -> Image, decode: (P, seq<Image>, seq<nat>) -> Sparse)
    requires Recognized(m, a, prep, decode).Err?
    ensures Recognized(m, a + b, prep, decode) == Recognized(m, a, prep, decode)
    decreases |b|
  {
    if |b| == 0 {
      assert a + b == a;
    } else {
      var n := |b| - 1;
      RecognizedPrefixErr(m, a, b[..n], prep, decode);
      assert (a + b)[..|a + b| - 1] == a + b[..n];
    }
  }

  /** Batches with one image per transcription are recognised into one
      text per transcription. */
  lemma {:induction false} RecognizedLength<P>(m: Model<P>, batches: seq<Batch<Image>>, prep: Image -> Image,
                                               decode: (P, seq<Image>, seq<nat>) -> Sparse)
    requires Shaped(batches)
    ensures Recognized(m, batches, prep, decode).Ok? ==>
              |Recognized(m, batches, prep, decode).value| == |AllTexts(batches)|
    decreases |batches|
  {
    if |batches| > 0 {
      var n := |batches| - 1;
      var init, b := batches[..n], batches[n];
      assert batches == init + [b];
      assert Shaped(init) by {
        assert forall k :: 0 <= k < n ==> init[k] == batches[k];
      }
      RecognizedLength(m, init, prep, decode);
      InferMeaning(m, Preprocess(prep, b), false, decode, NoProbability);
      AllTextsConcat(init, [b]);
      assert AllTexts([b]) == b.gtTexts + AllTexts([b][1..]);
    }
  }

  /** What `validate` computes for the model `m` on the validation part of
      `ld`: the error of the first batch that cannot be recognised, or else
      the rates of the summed scores of all recognitions against the
      validation transcriptions. */
  function Validated<P>(m: Model<P>, ld: Loader, read: string -> Image, prep: Image -> Image,
                        decode: (P, seq<Image>, seq<nat>) -> Sparse): Result<(real, real)>
    requires ld.batchSize > 0
  {
    var batches := Drain(ValidationSet(ld), read);
    match Recognized(m, batches, prep, decode)
    case Err(e) => Err(e)
    case Ok(recs) =>
      RecognizedValidationLength(m, ld, read, prep, decode);
      Rates(ScoreAll(Texts(ld.validationSamples), recs))
  }

  /** The validation part is recognised into one text per sample. */
  lemma RecognizedValidationLength<P>(m: Model<P>, ld: Loader, read: string -> Image, prep: Image -> Image,
                                      decode: (P, seq<Image>, seq<nat>) -> Sparse)
    requires ld.batchSize > 0
    ensures var recs := Recognized(m, Drain(ValidationSet(ld), read), prep, decode);
            recs.Ok? ==> |recs.value| == |ld.validationSamples|
  {
    ValidationPassCovers(ld, read);
    BatchesShaped(ld.validationSamples, 0, ld.batchSize, false, read);
    RecognizedLength(m, Drain(ValidationSet(ld), read), prep, decode);
  }

  /** `validate`: switch the loader to the validation part, recognise every
      batch, count, and divide. When it succeeds, every validation sample
      was recognised, and the counters are the summed scores of the
      recognitions against the validation transcriptions: the word total
      is the number of samples, the character total their summed length,
      the word-correct count the exact matches and the character error
      count the summed edit distances. A zero error rate goes with a word
      accuracy of one. A non-empty validation part without empty
      transcriptions never divides by zero. */
  method Validate<P>(m: Model<P>, ld: Loader, read: string -> Image, prep: Image -> Image,
                     decode: (P, seq<Image>, seq<nat>) -> Sparse)
    returns (r: Result<(real, real)>, counters: Counters, ld': Loader)
    requires ld.batchSize > 0
    ensures ld' == ld.(mode := ValidationMode, cursor := ld'.cursor)
    ensures r == Validated(m, ld, read, prep, decode)
    ensures r.Ok? ==> var recs := Recognized(m, Drain(ValidationSet(ld), read), prep, decode);
                      && recs.Ok? && |recs.value| == |ld.validationSamples|
                      && counters == ScoreAll(Texts(ld.validationSamples), recs.value)
    ensures r.Ok? ==> && Consistent(counters)
                      && counters.wordTotal == |ld.validationSamples|
                      && counters.charTotal == TotalLength(Texts(ld.validationSamples))
                      && r == Rates(counters)
                      && (r.value.0 == 0.0 <==> r.value.1 == 1.0)
    ensures r.Err? ==> r.error == IndexOutOfRange || r.error == DivisionByZero
    ensures |ld.validationSamples| > 0 && (forall s :: s in ld.validationSamples ==> |s.gtText| > 0)
            ==> r.Ok? || r.error != DivisionByZero
  {
    var v := ValidationSet(ld);
    var pass;
    pass, ld' := ValidationPass(m, v, read, prep, decode);
    if pass.Err? {
      r, counters := Err(pass.error), Zero;
      return;
    }
    counters := pass.value;
    ValidationPassCovers(ld, read);
    ghost var recs := Recognized(m, Drain(v, read), prep, decode).value;
    assert AllTexts(Drain(v, read)) == Texts(ld.validationSamples);
    ScoreAllMeaning(Texts(ld.validationSamples), recs);
    assert Texts(ld.validationSamples)[..|recs|] == Texts(ld.validationSamples);
    r := Rates(counters);
    if |ld.validationSamples| > 0 && (forall s :: s in ld.validationSamples ==> |s.gtText| > 0) {
      var ts := Texts(ld.validationSamples);
      assert ts[|ts| - 1] == ld.validationSamples[|ts| - 1].gtText;
      assert TotalLength(ts) >= |ts[|ts| - 1]|;
    }
  }

  /** Recognising one more batch appends its texts to those so far. */
  lemma RecognizedSnoc<P>(m: Model<P>, done: seq<Batch<Image>>, b: Batch<Image>, prep: Image -> Image,
                          decode: (P, seq<Image>, seq<nat>) -> Sparse)
    requires Recognized(m, done, prep, decode).Ok?
    ensures Recognized(m, done + [b], prep, decode)
            == match Infer(m, Preprocess(prep, b), false, decode, NoProbability)
               case Err(e) => Err(e)
               case Ok((texts, _)) => Ok(Recognized(m, done, prep, decode).value + texts)
  {
    assert (done + [b])[..|done|] == done && (done + [b])[|done|] == b;
  }

  /** The loop of `validate` over the batches of the validation part:
      recognise each batch and count it. It fails with the first batch the
      model cannot recognise; otherwise the counters are the summed scores
      of all recognitions against all transcriptions handed out. */
  method ValidationPass<P>(m: Model<P>, v: Loader, read: string -> Image, prep: Image -> Image,
                           decode: (P, seq<Image>, seq<nat>) -> Sparse)
    returns (res: Result<Counters>, v': Loader)
    requires v.batchSize > 0
    ensures v' == v.(cursor := v'.cursor)
    ensures res.Err? ==> res.error == IndexOutOfRange
    ensures var recs := Recognized(m, Drain(v, read), prep, decode);
            && (recs.Err? ==> res == Err(recs.error))
            && (recs.Ok? ==> |recs.value| == |AllTexts(Drain(v, read))|
                             && res == Ok(ScoreAll(AllTexts(Drain(v, read)), recs.value)))
    ensures res.Ok? ==> var recs := Recognized(m, Drain(v, read), prep, decode);
                        && recs.Ok? && |recs.value| == |AllTexts(Drain(v, read))|
                        && res.value == ScoreAll(AllTexts(Drain(v, read)), recs.value)
  {
    var l := v;
    var c := Zero;
    ghost var done: seq<Batch<Image>> := [];
    ghost var recs: seq<string> := [];
    while HasNext(l)
      invariant l == v.(cursor := l.cursor)
      invariant Drain(v, read) == done + Drain(l, read)
      invariant Recognized(m, done, prep, decode) == Ok(recs)
      invariant |recs| == |AllTexts(done)| && c == ScoreAll(AllTexts(done), recs)
      decreases |l.Active()| - l.cursor
    {
      DrainStep(v, l, read, done);
      var (next, b) := GetNext(l, read);
      var inferred := InferBatch(m, Preprocess(prep, b), false, decode, NoProbability);
      assert inferred == Infer(m, Preprocess(prep, b), false, decode, NoProbability);
      RecognizedSnoc(m, done, b, prep, decode);
      if inferred.Err? {
        RecognizedPrefixErr(m, done + [b], Drain(next, read), prep, decode);
        res, v' := Err(inferred.error), next;
        return;
      }
      c := TallyBatch(c, done, recs, b, inferred.value.0);
      done := done + [b];
      recs := recs + inferred.value.0;
      l := next;
    }
    assert done == Drain(v, read);
    res, v' := Ok(c), l;
  }

  /** Counting one recognised batch extends the summed scores over the
      batches so far by the scores of this batch. */
  function TallyBatch(c: Counters, ghost done: seq<Batch<Image>>, ghost sofar: seq<string>, b: Batch<Image>,
                      recs: seq<string>): (d: Counters)
    requires |recs| == |b.gtTexts|
    requires |sofar| == |AllTexts(done)| && c == ScoreAll(AllTexts(done), sofar)
    ensures |sofar + recs| == |AllTexts(done + [b])| && d == ScoreAll(AllTexts(done + [b]), sofar + recs)
  {
    var t := Tally(c, b.gtTexts, recs);
    AllTextsConcat(done, [b]);
    assert AllTexts([b]) == b.gtTexts + AllTexts([b][1..]);
    assert AllTexts([b]) == b.gtTexts;
    ScoreAllConcat(AllTexts(done), sofar, b.gtTexts, recs);
    t.value
  }

  /** A run that has neither stopped nor failed continues with the next report. */
  lemma {:induction false} RunExtends(es: int, reports: seq<Result<EpochReport>>, c: Control,
                                      next: Result<EpochReport>)
    requires Run(es, Start, reports) == Unfinished(c)
    ensures Run(es, Start, reports + [next]) == Run(es, c, [next])
  {
    RunExtendsFrom(es, Start, reports, c, next);
  }

  lemma {:induction false} RunExtendsFrom(es: int, c0: Control, reports: seq<Result<EpochReport>>, c: Control,
                                          next: Result<EpochReport>)
    requires Run(es, c0, reports) == Unfinished(c)
    ensures Run(es, c0, reports + [next]) == Run(es, c, [next])
    decreases |reports|
  {
    if |reports| > 0 {
      var d := AfterEpoch(c0, reports[0].value).value.0;
      assert (reports + [next])[1..] == reports[1..] + [next];
      RunExtendsFrom(es, d, reports[1..], c, next);
    }
  }

  /** Every transcription character of a reordering of covered samples is
      covered. */
  lemma CoversReordered(alphabet: seq<char>, a: seq<Sample>, b: seq<Sample>)
    requires multiset(a) == multiset(b) && Covers(alphabet, a)
    ensures Covers(alphabet, b)
  {
    forall s, ch | s in b && ch in s.gtText
      ensures ch in alphabet
    {
      assert s in multiset(a);
    }
  }

  /** What one epoch does to the model `m`, once `train_set` has turned
      the loader into `t`: the report and the model afterwards. The model
      is trained on every batch of the reshuffled training part; a failing
      batch fails the epoch and leaves the model as it was. Otherwise the
      trained model is validated, and the report is the validation error
      or the training losses with the two rates. With a batch size of 0
      the first `get_iterator_info` of the training pass divides by zero. */
  function EpochOf<P>(m: Model<P>, t: Loader, read: string -> Image, trainPrep: Image -> Image,
                      validPrep: Image -> Image, step: (P, Feed) -> (P, real),
                      decode: (P, seq<Image>, seq<nat>) -> Sparse)
    : (Result<EpochReport>, Model<P>)
  {
    if t.batchSize == 0 then (Err(DivisionByZero), m)
    else
      match Trained(m, Drain(t, read), trainPrep, step)
      case Err(e) => (Err(e), m)
      case Ok((trained, losses)) =>
        match Validated(trained, t, read, validPrep, decode)
        case Err(e) => (Err(e), trained)
        case Ok((cer, accuracy)) => (Ok(EpochReport(losses, cer, accuracy)), trained)
  }

  /** The body of one epoch of `train`: `train_set` with this epoch's
      draws, the training pass, then `validate`. The report and the model
      are those of `EpochOf`: the losses of training on every batch in
      order and the rates of validating the model so trained, or the first
      error. The loader is the reshuffled one, only its mode and cursor
      moved. The training samples are only reordered, the snapshot id does
      not move, and a successful epoch trained one batch per full batch of
      training samples. With an alphabet covering the training samples, no
      error is an unknown character. */
  method Epoch<P>(model: Model<P>, l: Loader, read: string -> Image, trainPrep: Image -> Image,
                  validPrep: Image -> Image, step: (P, Feed) -> (P, real),
                  decode: (P, seq<Image>, seq<nat>) -> Sparse, draws: seq<nat>)
    returns (report: Result<EpochReport>, model': Model<P>, l': Loader)
    requires l.batchSize > 0
    ensures var t := TrainSet(l, draws);
            && (report, model') == EpochOf(model, t, read, trainPrep, validPrep, step, decode)
            && l' == t.(mode := l'.mode, cursor := l'.cursor)
    ensures model'.snapId == model.snapId && model'.charList == model.charList
    ensures model'.mustRestore == model.mustRestore
    ensures report.Ok? ==> model'.batchesTrained == model.batchesTrained + |l.trainSamples| / l.batchSize
    ensures l'.batchSize == l.batchSize && multiset(l'.trainSamples) == multiset(l.trainSamples)
    ensures |l'.trainSamples| == |l.trainSamples|
    ensures Covers(model.charList, l.trainSamples) ==> Covers(model.charList, l'.trainSamples)
    ensures Covers(model.charList, l.trainSamples) && report.Err? ==> !report.error.UnknownChar?
  {
    var t := TrainSet(l, draws);
    assert |t.trainSamples| == |l.trainSamples| by {
      assert |multiset(t.trainSamples)| == |multiset(l.trainSamples)|;
    }
    if Covers(model.charList, l.trainSamples) {
      CoversReordered(model.charList, l.trainSamples, t.trainSamples);
    }
    var trained, afterTrain := TrainPass(model, t, read, trainPrep, step);
    if trained.Err? {
      report, model', l' := Err(trained.error), model, afterTrain;
      return;
    }
    model' := trained.value.0;
    var losses := trained.value.1;
    var rates, _, afterValidate := Validate(model', afterTrain, read, validPrep, decode);
    assert ValidationSet(afterTrain) == ValidationSet(t);
    l' := afterValidate;
    if rates.Err? {
      report := Err(rates.error);
    } else {
      report := Ok(EpochReport(losses, rates.value.0, rates.value.1));
    }
  }

  /** What the run makes of one more report after an unfinished run: a
      failed epoch or epoch bookkeeping fails it; otherwise it stops at the
      bound or stays unfinished with the new state. */
  lemma RunStep(es: int, reports: seq<Result<EpochReport>>, c: Control, next: Result<EpochReport>)
    requires Run(es, Start, reports) == Unfinished(c)
    ensures next.Err? ==> Run(es, Start, reports + [next]) == Failed(next.error)
    ensures next.Ok? && AfterEpoch(c, next.value).Err? ==>
              Run(es, Start, reports + [next]) == Failed(AfterEpoch(c, next.value).error)
    ensures next.Ok? && AfterEpoch(c, next.value).Ok? ==>
              var d := AfterEpoch(c, next.value).value.0;
              Run(es, Start, reports + [next]) == if d.noImprovementSince >= es then Stopped(d) else Unfinished(d)
  {
    RunExtends(es, reports, c, next);
    assert [next][1..] == [];
  }

  /** No epoch failed on a character outside the alphabet. */
  predicate NoUnknownChar(reports: seq<Result<EpochReport>>) {
    forall k :: 0 <= k < |reports| && reports[k].Err? ==> !reports[k].error.UnknownChar?
  }

  lemma NoUnknownCharAppend(reports: seq<Result<EpochReport>>, next: Result<EpochReport>)
    requires NoUnknownChar(reports) && (next.Err? ==> !next.error.UnknownChar?)
    ensures NoUnknownChar(reports + [next])
  {
    var all := reports + [next];
    forall k | 0 <= k < |all| && all[k].Err?
      ensures !all[k].error.UnknownChar?
    {
      if k < |reports| {
        assert all[k] == reports[k];
      }
    }
  }

  /** One epoch as the loop of `train` sees it: from the model and the
      reshuffled loader to the report and the model afterwards. */
  type EpochFn<!P> = (Model<P>, Loader) -> (Result<EpochReport>, Model<P>)

  /** The epoch of `train`: `EpochOf` with the loop's fixed arguments. */
  function EpochRun<P>(read: string -> Image, trainPrep: Image -> Image, validPrep: Image -> Image,
                       step: (P, Feed) -> (P, real), decode: (P, seq<Image>, seq<nat>) -> Sparse): EpochFn<P>
  {
    (model: Model<P>, t: Loader) => EpochOf(model, t, read, trainPrep, validPrep, step, decode)
  }

  /** Where a chain of epochs ends: the reports of its epochs, the model
      after the last of them and the latest checkpoint. */
  datatype Ran<P> = Ran(reports: seq<Result<EpochReport>>, model: Model<P>, saved: Option<Checkpoint<P>>)

  /** The chain `r`, with the reports `done` of earlier epochs in front. */
  function After<P>(done: seq<Result<EpochReport>>, r: Ran<P>): Ran<P> {
    r.(reports := done + r.reports)
  }

  /** The loop of `train` as a chain of epochs `run` from model `m`,
      loader `l`, bookkeeping `c` and latest checkpoint `saved`, the `k`-th
      epoch drawing `shuffles[k]`. Each epoch runs on the model the
      previous one left and on the reshuffled loader; when the error rate
      improved, the trained model is saved and the new checkpoint holds its
      parameters. The chain ends with a failed epoch or failed bookkeeping,
      with the epoch whose stall counter reaches `earlyStopping`, or when
      the draws run out. */
  function Epochs<P>(run: EpochFn<P>, earlyStopping: int, m: Model<P>, l: Loader, c: Control,
                     saved: Option<Checkpoint<P>>, shuffles: seq<seq<nat>>): Ran<P>
    decreases |shuffles|
  {
    if |shuffles| == 0 then Ran([], m, saved)
    else
      var t := TrainSet(l, shuffles[0]);
      var (report, trained) := run(m, t);
      match report
      case Err(_) => Ran([report], trained, saved)
      case Ok(rep) =>
        match AfterEpoch(c, rep)
        case Err(_) => Ran([report], trained, saved)
        case Ok((d, save)) =>
          var next := if save then Save(trained).0 else trained;
          var saved' := if save then Some(Save(trained).1) else saved;
          if d.noImprovementSince >= earlyStopping then Ran([report], next, saved')
          else After([report], Epochs(run, earlyStopping, next, t, d, saved', shuffles[1..]))
  }

  /** The epochs depend on the loader's samples, not on its mode or cursor. */
  lemma EpochsIgnoreCursor<P>(run: EpochFn<P>, earlyStopping: int, m: Model<P>, l: Loader, l': Loader, c: Control,
                              saved: Option<Checkpoint<P>>, shuffles: seq<seq<nat>>)
    requires l' == l.(mode := l'.mode, cursor := l'.cursor)
    ensures Epochs(run, earlyStopping, m, l', c, saved, shuffles)
            == Epochs(run, earlyStopping, m, l, c, saved, shuffles)
  {
    if |shuffles| > 0 {
      assert TrainSet(l', shuffles[0]) == TrainSet(l, shuffles[0]);
    }
  }

  /** One epoch of the chain: a failed epoch or failed bookkeeping ends it
      with the epoch's model; otherwise the trained model is saved when it
      improved, and the chain ends there when the stall counter reached the
      bound, or goes on from that model and from the epoch's loader,
      whatever mode and cursor that has. */
  lemma EpochsStep<P>(run: EpochFn<P>, earlyStopping: int, m: Model<P>, l: Loader, next: Loader, c: Control,
                      saved: Option<Checkpoint<P>>, shuffles: seq<seq<nat>>, report: Result<EpochReport>,
                      trained: Model<P>)
    requires |shuffles| > 0
    requires var t := TrainSet(l, shuffles[0]);
             (report, trained) == run(m, t) && next == t.(mode := next.mode, cursor := next.cursor)
    ensures report.Err? || AfterEpoch(c, report.value).Err? ==>
              Epochs(run, earlyStopping, m, l, c, saved, shuffles) == Ran([report], trained, saved)
    ensures report.Ok? && AfterEpoch(c, report.value).Ok? ==>
              var (d, save) := AfterEpoch(c, report.value).value;
              var model := if save then Save(trained).0 else trained;
              var saved' := if save then Some(Save(trained).1) else saved;
              Epochs(run, earlyStopping, m, l, c, saved, shuffles)
              == if d.noImprovementSince >= earlyStopping then Ran([report], model, saved')
                 else After([report], Epochs(run, earlyStopping, model, next, d, saved', shuffles[1..]))
  {
    if report.Ok? && AfterEpoch(c, report.value).Ok? {
      var (d, save) := AfterEpoch(c, report.value).value;
      EpochsIgnoreCursor(run, earlyStopping, if save then Save(trained).0 else trained, TrainSet(l, shuffles[0]),
                         next, d, if save then Some(Save(trained).1) else saved, shuffles[1..]);
    }
  }

  /** What an epoch with its bookkeeping and save promises of the state,
      from `model` and `l` with bookkeeping `c`: the loader keeps its
      batch size and its number of training samples, an alphabet covering
      them still covers them and rules out an unknown character, the
      alphabet and the restore flag stay. After a completed epoch the
      model trained `perEpoch` more batches and was saved exactly when the
      bookkeeping asked for it, the checkpoint holding the new snapshot
      and the model's parameters. */
  ghost predicate Stepped<P>(model: Model<P>, l: Loader, c: Control, perEpoch: nat, report: Result<EpochReport>,
                             model': Model<P>, next: Loader, checkpoint: Option<Checkpoint<P>>)
  {
    && next.batchSize == l.batchSize && |next.trainSamples| == |l.trainSamples|
    && (Covers(model.charList, l.trainSamples) ==> Covers(model.charList, next.trainSamples))
    && (Covers(model.charList, l.trainSamples) && report.Err? ==> !report.error.UnknownChar?)
    && model'.charList == model.charList && model'.mustRestore == model.mustRestore
    && (report.Ok? && AfterEpoch(c, report.value).Ok? ==>
          var save := AfterEpoch(c, report.value).value.1;
          && model'.batchesTrained == model.batchesTrained + perEpoch
          && model'.snapId == model.snapId + (if save then 1 else 0)
          && (checkpoint.Some? <==> save)
          && (checkpoint.Some? ==>
                checkpoint.value.step == model'.snapId && checkpoint.value.params == model'.params))
  }

  /** Where an epoch leaves the chain of epochs from `model`, `l`,
      bookkeeping `c` and latest checkpoint `saved`: it ends with this
      report, the returned model and the latest checkpoint, or goes on
      from the returned model and loader. */
  ghost predicate Chained<P>(run: EpochFn<P>, earlyStopping: int, model: Model<P>, l: Loader, c: Control,
                             saved: Option<Checkpoint<P>>, shuffles: seq<seq<nat>>, report: Result<EpochReport>,
                             model': Model<P>, next: Loader, checkpoint: Option<Checkpoint<P>>)
    requires |shuffles| > 0
  {
    var saved' := if checkpoint.Some? then checkpoint else saved;
    && (report.Err? || AfterEpoch(c, report.value).Err? ==>
          Epochs(run, earlyStopping, model, l, c, saved, shuffles) == Ran([report], model', saved))
    && (report.Ok? && AfterEpoch(c, report.value).Ok? ==>
          var d := AfterEpoch(c, report.value).value.0;
          Epochs(run, earlyStopping, model, l, c, saved, shuffles)
          == if d.noImprovementSince >= earlyStopping then Ran([report], model', saved')
             else After([report], Epochs(run, earlyStopping, model', next, d, saved', shuffles[1..])))
  }

  /** An epoch, then the bookkeeping, and a save of the model when its
      error rate improved: the epoch of `train`, each completed epoch
      training one batch per full batch of training samples. */
  method EpochAndSave<P>(model: Model<P>, l: Loader, read: string -> Image, trainPrep: Image -> Image,
                         validPrep: Image -> Image, step: (P, Feed) -> (P, real),
                         decode: (P, seq<Image>, seq<nat>) -> Sparse, earlyStopping: int, c: Control,
                         saved: Option<Checkpoint<P>>, shuffles: seq<seq<nat>>)
    returns (report: Result<EpochReport>, model': Model<P>, next: Loader, checkpoint: Option<Checkpoint<P>>)
    requires l.batchSize > 0 && |shuffles| > 0
    ensures Stepped(model, l, c, |l.trainSamples| / l.batchSize, report, model', next, checkpoint)
    ensures Chained(EpochRun(read, trainPrep, validPrep, step, decode), earlyStopping, model, l, c, saved, shuffles,
                    report, model', next, checkpoint)
  {
    var trained;
    report, trained, next := Epoch(model, l, read, trainPrep, validPrep, step, decode, shuffles[0]);
    var run := EpochRun(read, trainPrep, validPrep, step, decode);
    assert run(model, TrainSet(l, shuffles[0]))
        == EpochOf(model, TrainSet(l, shuffles[0]), read, trainPrep, validPrep, step, decode);
    EpochsStep(run, earlyStopping, model, l, next, c, saved, shuffles, report, trained);
    model', checkpoint := trained, None;
    if report.Ok? {
      var after := AfterEpoch(c, report.value);
      if after.Ok? && after.value.1 {
        var (saveModel, cp) := Save(trained);
        model', checkpoint := saveModel, Some(cp);
      }
    }
  }

  /** The state of the loop of `train`: the model, the loader, the epoch
      bookkeeping, the reports so far and the latest checkpoint. */
  datatype Progress<P> = Progress(model: Model<P>, l: Loader, c: Control, reports: seq<Result<EpochReport>>,
                                  saved: Option<Checkpoint<P>>)

  /** The state of the loop of `train` while it runs, from model `m` and
      loader `ld`: the state machine is unfinished on the reports so far,
      one epoch per report; the model was saved once per improving epoch
      and trained `perEpoch` batches per epoch. */
  ghost predicate Running<P>(m: Model<P>, ld: Loader, earlyStopping: int, perEpoch: nat, s: Progress<P>)
  {
    && Run(earlyStopping, Start, s.reports) == Unfinished(s.c)
    && s.c.epoch == |s.reports|
    && s.l.batchSize == ld.batchSize && |s.l.trainSamples| == |ld.trainSamples|
    && (Covers(m.charList, ld.trainSamples) ==> Covers(m.charList, s.l.trainSamples) && NoUnknownChar(s.reports))
    && s.model.snapId == m.snapId + s.c.saves
    && s.model.batchesTrained == m.batchesTrained + Times(s.c.epoch, perEpoch)
    && s.model.charList == m.charList && s.model.mustRestore == m.mustRestore
    && (s.saved.Some? <==> s.c.saves > 0)
    && (s.saved.Some? ==> s.saved.value.step == s.model.snapId)
  }

  /** The reports so far, followed by the chain of epochs from the current
      state, make the chain from the start. */
  ghost predicate OnChain<P>(run: EpochFn<P>, m: Model<P>, ld: Loader, earlyStopping: int, shuffles: seq<seq<nat>>,
                             s: Progress<P>)
  {
    && |s.reports| <= |shuffles|
    && Epochs(run, earlyStopping, m, ld, Start, None, shuffles)
       == After(s.reports, Epochs(run, earlyStopping, s.model, s.l, s.c, s.saved, shuffles[|s.reports|..]))
  }

  /** What holds of the loop of `train` while it runs. */
  ghost predicate InLoop<P>(run: EpochFn<P>, m: Model<P>, ld: Loader, earlyStopping: int, shuffles: seq<seq<nat>>,
                            perEpoch: nat, s: Progress<P>)
  {
    Running(m, ld, earlyStopping, perEpoch, s) && OnChain(run, m, ld, earlyStopping, shuffles, s)
  }

  /** The state once the loop of `train` is over, with outcome `o`. */
  ghost predicate Ended<P>(m: Model<P>, ld: Loader, earlyStopping: int, perEpoch: nat, o: Outcome, s: Progress<P>)
  {
    && o == Run(earlyStopping, Start, s.reports)
    && (o.Stopped? || o.Unfinished? ==>
          && |s.reports| == o.control.epoch
          && s.model.snapId == m.snapId + o.control.saves
          && s.model.batchesTrained == m.batchesTrained + Times(o.control.epoch, perEpoch)
          && (s.saved.Some? <==> o.control.saves > 0)
          && (s.saved.Some? ==> s.saved.value.step == s.model.snapId))
    && (Covers(m.charList, ld.trainSamples) ==> NoUnknownChar(s.reports))
  }

  /** What `train` promises once its loop is over, with outcome `o` and
      final state `s`. */
  ghost predicate Outcomes<P>(run: EpochFn<P>, m: Model<P>, ld: Loader, earlyStopping: int, shuffles: seq<seq<nat>>,
                              perEpoch: nat, o: Outcome, s: Progress<P>)
  {
    && Ended(m, ld, earlyStopping, perEpoch, o, s)
    && Epochs(run, earlyStopping, m, ld, Start, None, shuffles) == Ran(s.reports, s.model, s.saved)
    && |s.reports| <= |shuffles|
    && (o.Unfinished? ==> |s.reports| == |shuffles|)
  }

  /** The state after a completed epoch: its model and loader, the new
      bookkeeping, one more report, and the new checkpoint if it saved. */
  function Advanced<P>(s: Progress<P>, report: Result<EpochReport>, model: Model<P>, next: Loader,
                       checkpoint: Option<Checkpoint<P>>): (r: Progress<P>)
    requires report.Ok? && AfterEpoch(s.c, report.value).Ok?
    ensures r.reports == s.reports + [report] && r.c == AfterEpoch(s.c, report.value).value.0
    ensures r.model == model && r.l == next && r.saved == if checkpoint.Some? then checkpoint else s.saved
  {
    Progress(model, next, AfterEpoch(s.c, report.value).value.0, s.reports + [report],
             if checkpoint.Some? then checkpoint else s.saved)
  }

  /** A completed epoch that leaves the stall counter under the bound
      keeps the loop running. */
  lemma LoopContinues<P>(m: Model<P>, ld: Loader, earlyStopping: int, perEpoch: nat, s: Progress<P>,
                         report: Result<EpochReport>, model: Model<P>, next: Loader,
                         checkpoint: Option<Checkpoint<P>>)
    requires Running(m, ld, earlyStopping, perEpoch, s)
    requires Stepped(s.model, s.l, s.c, perEpoch, report, model, next, checkpoint)
    requires report.Ok? && AfterEpoch(s.c, report.value).Ok?
    requires AfterEpoch(s.c, report.value).value.0.noImprovementSince < earlyStopping
    ensures Running(m, ld, earlyStopping, perEpoch, Advanced(s, report, model, next, checkpoint))
  {
    RunStep(earlyStopping, s.reports, s.c, report);
    if Covers(m.charList, ld.trainSamples) {
      NoUnknownCharAppend(s.reports, report);
    }
  }

  /** A completed epoch that brings the stall counter to the bound stops
      the loop. */
  lemma LoopStops<P>(m: Model<P>, ld: Loader, earlyStopping: int, perEpoch: nat, s: Progress<P>,
                     report: Result<EpochReport>, model: Model<P>, next: Loader, checkpoint: Option<Checkpoint<P>>)
    requires Running(m, ld, earlyStopping, perEpoch, s)
    requires Stepped(s.model, s.l, s.c, perEpoch, report, model, next, checkpoint)
    requires report.Ok? && AfterEpoch(s.c, report.value).Ok?
    requires AfterEpoch(s.c, report.value).value.0.noImprovementSince >= earlyStopping
    ensures Ended(m, ld, earlyStopping, perEpoch, Stopped(AfterEpoch(s.c, report.value).value.0),
                  Advanced(s, report, model, next, checkpoint))
  {
    RunStep(earlyStopping, s.reports, s.c, report);
    if Covers(m.charList, ld.trainSamples) {
      NoUnknownCharAppend(s.reports, report);
    }
  }

  /** A failed epoch, or failed bookkeeping, ends the loop with the
      failure. */
  lemma LoopFails<P>(m: Model<P>, ld: Loader, earlyStopping: int, perEpoch: nat, s: Progress<P>,
                     report: Result<EpochReport>, model: Model<P>, next: Loader, checkpoint: Option<Checkpoint<P>>)
    requires Running(m, ld, earlyStopping, perEpoch, s)
    requires Stepped(s.model, s.l, s.c, perEpoch, report, model, next, checkpoint)
    requires report.Err? || AfterEpoch(s.c, report.value).Err?
    ensures var s' := Progress(model, next, s.c, s.reports + [report], s.saved);
            Run(earlyStopping, Start, s'.reports).Failed?
            && Ended(m, ld, earlyStopping, perEpoch, Run(earlyStopping, Start, s'.reports), s')
  {
    RunStep(earlyStopping, s.reports, s.c, report);
    if Covers(m.charList, ld.trainSamples) {
      NoUnknownCharAppend(s.reports, report);
    }
  }

  /** An epoch after which the chain goes on keeps the loop on it. */
  lemma ChainGoes<P>(run: EpochFn<P>, m: Model<P>, ld: Loader, earlyStopping: int, shuffles: seq<seq<nat>>,
                     s: Progress<P>, report: Result<EpochReport>, s': Progress<P>)
    requires OnChain(run, m, ld, earlyStopping, shuffles, s) && |s.reports| < |shuffles|
    requires s'.reports == s.reports + [report]
    requires Epochs(run, earlyStopping, s.model, s.l, s.c, s.saved, shuffles[|s.reports|..])
             == After([report], Epochs(run, earlyStopping, s'.model, s'.l, s'.c, s'.saved,
                                       shuffles[|s.reports|..][1..]))
    ensures OnChain(run, m, ld, earlyStopping, shuffles, s')
  {
    var e := |s.reports|;
    assert shuffles[e..][1..] == shuffles[e + 1..];
    var rest := Epochs(run, earlyStopping, s'.model, s'.l, s'.c, s'.saved, shuffles[e + 1..]);
    AppendAssoc(s.reports, [report], rest.reports);
  }

  /** An epoch with which the chain ends leaves the loop at the end of the
      chain from the start. */
  lemma ChainEnds<P>(run: EpochFn<P>, m: Model<P>, ld: Loader, earlyStopping: int, shuffles: seq<seq<nat>>,
                     s: Progress<P>, report: Result<EpochReport>, s': Progress<P>)
    requires OnChain(run, m, ld, earlyStopping, shuffles, s) && |s.reports| < |shuffles|
    requires s'.reports == s.reports + [report]
    requires Epochs(run, earlyStopping, s.model, s.l, s.c, s.saved, shuffles[|s.reports|..])
             == Ran([report], s'.model, s'.saved)
    ensures Epochs(run, earlyStopping, m, ld, Start, None, shuffles) == Ran(s'.reports, s'.model, s'.saved)
    ensures |s'.reports| <= |shuffles|
  {
  }

  /** One round of the loop of `train`: the next epoch with its draws,
      the bookkeeping, and a save when the error rate improved. The loop
      goes on with one more report, or its outcome is final. */
  method Round<P>(m: Model<P>, ld: Loader, read: string -> Image, trainPrep: Image -> Image,
                  validPrep: Image -> Image, step: (P, Feed) -> (P, real),
                  decode: (P, seq<Image>, seq<nat>) -> Sparse, earlyStopping: int,
                  shuffles: seq<seq<nat>>, perEpoch: nat, s: Progress<P>)
    returns (s': Progress<P>, o: Outcome)
    requires ld.batchSize > 0 && |s.reports| < |shuffles| && perEpoch == |ld.trainSamples| / ld.batchSize
    requires InLoop(EpochRun(read, trainPrep, validPrep, step, decode), m, ld, earlyStopping, shuffles, perEpoch, s)
    ensures |s'.reports| == |s.reports| + 1
    ensures o.Unfinished? ==>
              && o == Unfinished(s'.c)
              && InLoop(EpochRun(read, trainPrep, validPrep, step, decode), m, ld, earlyStopping, shuffles,
                        perEpoch, s')
    ensures !o.Unfinished? ==>
              Outcomes(EpochRun(read, trainPrep, validPrep, step, decode), m, ld, earlyStopping, shuffles,
                       perEpoch, o, s')
  {
    var run := EpochRun(read, trainPrep, validPrep, step, decode);
    var e := |s.reports|;
    var report, model, next, checkpoint := EpochAndSave(s.model, s.l, read, trainPrep, validPrep, step, decode,
                                                        earlyStopping, s.c, s.saved, shuffles[e..]);
    if report.Err? || AfterEpoch(s.c, report.value).Err? {
      s' := Progress(model, next, s.c, s.reports + [report], s.saved);
      LoopFails(m, ld, earlyStopping, perEpoch, s, report, model, next, checkpoint);
      ChainEnds(run, m, ld, earlyStopping, shuffles, s, report, s');
      o := Run(earlyStopping, Start, s'.reports);
      return;
    }
    var d := AfterEpoch(s.c, report.value).value.0;
    s' := Advanced(s, report, model, next, checkpoint);
    if d.noImprovementSince >= earlyStopping {
      LoopStops(m, ld, earlyStopping, perEpoch, s, report, model, next, checkpoint);
      ChainEnds(run, m, ld, earlyStopping, shuffles, s, report, s');
      o := Stopped(d);
    } else {
      LoopContinues(m, ld, earlyStopping, perEpoch, s, report, model, next, checkpoint);
      ChainGoes(run, m, ld, earlyStopping, shuffles, s, report, s');
      o := Unfinished(d);
    }
  }

  /** `train`: epochs of a training pass and a validation pass, then the
      epoch bookkeeping and a save on improvement, until the
      early-stopping bound is reached; the `e`-th epoch shuffles with
      `shuffles[e]`. The reports, the final model and the latest
      checkpoint are exactly where the chain of epochs from the start ends,
      so the checkpoint holds the parameters of the model trained in the
      last improving epoch; the outcome is the epoch state machine run over
      the reports, so every property of `Run` holds of it. The model was
      saved once per improving epoch, there is one report per epoch run,
      and it trained `floor(n / bs)` batches in every completed epoch. An
      alphabet covering the training samples rules out a failing training
      pass. */
  method Train<P>(m: Model<P>, ld: Loader, read: string -> Image, trainPrep: Image -> Image,
                  validPrep: Image -> Image, step: (P, Feed) -> (P, real),
                  decode: (P, seq<Image>, seq<nat>) -> Sparse, earlyStopping: int, shuffles: seq<seq<nat>>)
    returns (o: Outcome, m': Model<P>, reports: seq<Result<EpochReport>>, saved: Option<Checkpoint<P>>)
    requires ld.batchSize > 0
    ensures o == Run(earlyStopping, Start, reports)
    ensures Epochs(EpochRun(read, trainPrep, validPrep, step, decode), earlyStopping, m, ld, Start, None, shuffles)
            == Ran(reports, m', saved)
    ensures |reports| <= |shuffles|
    ensures o.Unfinished? ==> |reports| == |shuffles|
    ensures o.Stopped? || o.Unfinished? ==>
              && |reports| == o.control.epoch
              && m'.snapId == m.snapId + o.control.saves
              && m'.batchesTrained == m.batchesTrained + o.control.epoch * (|ld.trainSamples| / ld.batchSize)
              && (saved.Some? <==> o.control.saves > 0)
              && (saved.Some? ==> saved.value.step == m'.snapId)
    ensures Covers(m.charList, ld.trainSamples) ==> NoUnknownChar(reports)
  {
    var run := EpochRun(read, trainPrep, validPrep, step, decode);
    var perEpoch: nat := |ld.trainSamples| / ld.batchSize;
    var s := Progress(m, ld, Start, [], None);
    assert shuffles[0..] == shuffles;
    o := Unfinished(Start);
    while o.Unfinished? && |s.reports| < |shuffles|
      invariant |s.reports| <= |shuffles|
      invariant o.Unfinished? ==> o == Unfinished(s.c) && InLoop(run, m, ld, earlyStopping, shuffles, perEpoch, s)
      invariant !o.Unfinished? ==> Outcomes(run, m, ld, earlyStopping, shuffles, perEpoch, o, s)
      decreases |shuffles| - |s.reports|
    {
      s, o := Round(m, ld, read, trainPrep, validPrep, step, decode, earlyStopping, shuffles, perEpoch, s);
    }
    if o.Unfinished? {
      assert shuffles[|shuffles|..] == [] && s.reports + [] == s.reports;
    }
    if o.Stopped? || o.Unfinished? {
      TimesIsProduct(o.control.epoch, perEpoch);
    }
    m', reports, saved := s.model, s.reports, s.saved;
  }

  // ----- the alphabet saved for training ---------------------------------

  /** `main` in training mode: the loader's alphabet with a space put in
      front when it has none. The result holds a space and exactly the
      loader's characters besides, keeps their order after its first
      entry, and stays strictly sorted when every character sorts above
      the space. */
  function SavedAlphabet(charList: seq<char>): (r: seq<char>)
    ensures ' ' in r && forall c :: c in r <==> c in charList || c == ' '
    ensures |charList| <= |r| <= |charList| + 1 && r[|r| - |charList|..] == charList
    ensures ' ' in charList ==> r == charList
    ensures StrictlySorted(charList) && (forall c :: c in charList ==> ' ' < c) ==> StrictlySorted(r)
  {
    if ' ' in charList then charList
    else
      var r := [' '] + charList;
      assert r[1..] == charList;
      PrependSpaceSorted(charList);
      r
  }

  lemma PrependSpaceSorted(charList: seq<char>)
    ensures StrictlySorted(charList) && (forall c :: c in charList ==> ' ' < c) ==> StrictlySorted([' '] + charList)
  {
    var r := [' '] + charList;
    if StrictlySorted(charList) && (forall c :: c in charList ==> ' ' < c) {
      forall i, j | 0 <= i < j < |r|
        ensures r[i] < r[j]
      {
        assert r[j] == charList[j - 1] && charList[j - 1] in charList;
        if i > 0 {
          assert r[i] == charList[i - 1];
        }
      }
    }
  }

  /** The alphabet saved for training covers every sample the loader holds,
      before and after any number of reshuffles; so no training pass fails
      on an unknown character. */
  lemma SavedAlphabetCoversLoader(dataDir: string, batchSize: nat, lines: seq<string>, draws: seq<nat>,
                                  trainSamples: seq<Sample>)
    requires New(dataDir, batchSize, lines, draws).Ok?
    requires multiset(trainSamples) == multiset(New(dataDir, batchSize, lines, draws).value.trainSamples)
    ensures var ld := New(dataDir, batchSize, lines, draws).value;
            var alphabet := SavedAlphabet(ld.charList);
            Covers(alphabet, trainSamples) && Covers(alphabet, ld.validationSamples)
  {
    var ld := New(dataDir, batchSize, lines, draws).value;
    var samples := Parse(dataDir, lines).value;
    var k := SplitIndex(|samples|);
    forall s, c | (s in trainSamples || s in ld.validationSamples) && c in s.gtText
      ensures c in SavedAlphabet(ld.charList)
    {
      if s in trainSamples {
        assert s in multiset(samples[..k]);
        assert s in samples[..k];
      }
      var i :| 0 <= i < |samples| && samples[i] == s;
      TextCharsInCharList(samples, i, c);
    }
  }

  /** A loader built from a manifest with at least one sample has a
      non-empty validation part without empty transcriptions, so its
      validation never divides by zero. */
  lemma LoadedValidationHasCharacters(dataDir: string, batchSize: nat, lines: seq<string>, draws: seq<nat>)
    requires New(dataDir, batchSize, lines, draws).Ok?
    requires |Parse(dataDir, lines).value| > 0
    ensures var ld := New(dataDir, batchSize, lines, draws).value;
            |ld.validationSamples| > 0 && forall s :: s in ld.validationSamples ==> |s.gtText| > 0
  {
    var samples := Parse(dataDir, lines).value;
    ValidationNonEmpty(|samples|);
    ParsedTextsNonEmpty(dataDir, lines);
  }
}
