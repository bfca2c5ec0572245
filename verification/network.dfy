/**
 The bookkeeping of the recognition model around its neural network
 (src/model.py): construction with or without a stored checkpoint, the
 sequence lengths fed with every batch, what a training step and an
 inference step hand to the network and take back, and the two counters.
 The network itself (the CNN, the LSTM, the CTC loss and decoder, the
 optimiser) is a set of function parameters over abstract parameters `P`.
 */
module Network {
  import opened Results
  import opened Labels
  import opened Loader

  /** A preprocessed image; only its extent matters here. `width` is the
      first array dimension, the horizontal axis the network downsizes by 4
      into time steps. Pixel values are not modelled. */
  datatype Image = Image(width: nat, height: nat)

  /** A stored snapshot. The saver keeps a single one (`max_to_keep=1`), so
      the store is at most one checkpoint: the latest. */
  datatype Checkpoint<P> = Checkpoint(step: nat, params: P)

  datatype Model<P> = Model(charList: seq<char>, mustRestore: bool, params: P, snapId: nat, batchesTrained: nat)

  /** What is fed to the network for one batch: the images, the labels as a
      sparse tensor, and one sequence length per image. */
  datatype Feed = Feed(imgs: seq<Image>, labels: Sparse, seqLen: seq<nat>)

  /** `Model(charList, must_restore)`: the latest checkpoint is restored
      when there is one; a required restore without one fails; otherwise the
      parameters are freshly initialised. Both counters start at 0. */
  function NewModel<P>(charList: seq<char>, mustRestore: bool, latest: Option<Checkpoint<P>>, init: P): (r: Result<Model<P>>)
    ensures r.Err? <==> mustRestore && latest.None?
    ensures r.Err? ==> r.error == NoSavedModel
    ensures r.Ok? ==> r.value.charList == charList && r.value.snapId == 0 && r.value.batchesTrained == 0
    ensures r.Ok? && latest.Some? ==> r.value.params == latest.value.params
    ensures r.Ok? && latest.None? ==> r.value.params == init
  {
    if mustRestore && latest.None? then Err(NoSavedModel)
    else
      var params := if latest.Some? then latest.value.params else init;
      Ok(Model(charList, mustRestore, params, 0, 0))
  }

  /** The `seq_len` fed with a batch: `imgs[0].shape[0] // 4` once per
      image; an empty batch has no `imgs[0]`. */
  function SeqLen(imgs: seq<Image>): (r: Result<seq<nat>>)
    ensures r.Err? <==> |imgs| == 0
    ensures r.Err? ==> r.error == IndexOutOfRange
    ensures r.Ok? ==> |r.value| == |imgs|
    ensures r.Ok? ==> forall i :: 0 <= i < |r.value| ==>
              4 * r.value[i] <= imgs[0].width < 4 * r.value[i] + 4
  {
    if |imgs| == 0 then Err(IndexOutOfRange)
    else Ok(seq(|imgs|, _ => imgs[0].width / 4))
  }

  /** The feed of `train_batch`: it fails on an empty batch, then on the
      first transcription character outside the alphabet; the labels fed
      are the exact sparse form of the transcriptions. */
  function TrainFeed(charList: seq<char>, batch: Batch<Image>): (r: Result<Feed>)
    ensures r.Ok? <==> |batch.imgs| > 0 && forall t, c :: t in batch.gtTexts && c in t ==> c in charList
    ensures |batch.imgs| == 0 ==> r == Err(IndexOutOfRange)
    ensures |batch.imgs| > 0 && r.Err? ==> r.error.UnknownChar? && r.error.c !in charList
    ensures r.Ok? ==> r.value.imgs == batch.imgs && Ok(r.value.seqLen) == SeqLen(batch.imgs)
    ensures r.Ok? ==> Ok(r.value.labels) == ToSparse(charList, batch.gtTexts)
    ensures r.Ok? ==> DecoderOutputToText(charList, r.value.labels, |batch.gtTexts|) == Ok(batch.gtTexts)
  {
    FedMeaning(charList, batch);
    Fed(charList, batch)
  }

  /** The steps of the training feed: sequence lengths, then the labels. */
  function Fed(charList: seq<char>, batch: Batch<Image>): Result<Feed> {
    var seqLen :- SeqLen(batch.imgs);
    var labels :- EncodeBatch(charList, batch.gtTexts);
    Ok(Feed(batch.imgs, labels, seqLen))
  }

  lemma FedMeaning(charList: seq<char>, batch: Batch<Image>)
    ensures var r := Fed(charList, batch);
            && (r.Ok? <==> |batch.imgs| > 0 && forall t, c :: t in batch.gtTexts && c in t ==> c in charList)
            && (|batch.imgs| == 0 ==> r == Err(IndexOutOfRange))
            && (|batch.imgs| > 0 && r.Err? ==> r.error.UnknownChar? && r.error.c !in charList)
            && (r.Ok? ==> r.value.imgs == batch.imgs && Ok(r.value.seqLen) == SeqLen(batch.imgs))
            && (r.Ok? ==> Ok(r.value.labels) == ToSparse(charList, batch.gtTexts))
            && (r.Ok? ==> DecoderOutputToText(charList, r.value.labels, |batch.gtTexts|) == Ok(batch.gtTexts))
  {
    assert ToSparse(charList, batch.gtTexts) == EncodeBatch(charList, batch.gtTexts);
    if |batch.imgs| > 0 {
      if ToSparse(charList, batch.gtTexts).Err? {
        ToSparseError(charList, batch.gtTexts);
      } else {
        EncodeDecodeRoundTrip(charList, batch.gtTexts);
      }
    }
  }

  /** `train_batch`: one optimiser step on the batch, given as `step`
      returning the new parameters and the loss. Only the parameters and the
      batch counter change, the counter by exactly one. */
  function TrainBatch<P>(m: Model<P>, batch: Batch<Image>, step: (P, Feed) -> (P, real)): (r: Result<(Model<P>, real)>)
    ensures r.Ok? <==> TrainFeed(m.charList, batch).Ok?
    ensures r.Err? ==> r.error == TrainFeed(m.charList, batch).error
    ensures r.Ok? ==> var (m', loss) := r.value;
              && m'.batchesTrained == m.batchesTrained + 1
              && m'.charList == m.charList && m'.snapId == m.snapId && m'.mustRestore == m.mustRestore
              && (m'.params, loss) == step(m.params, TrainFeed(m.charList, batch).value)
  {
    FedMeaning(m.charList, batch);
    Step(m, batch, step)
  }

  /** The steps of `train_batch`: the feed, then one optimiser step. */
  function Step<P>(m: Model<P>, batch: Batch<Image>, step: (P, Feed) -> (P, real)): Result<(Model<P>, real)> {
    var feed :- Fed(m.charList, batch);
    var (params, loss) := step(m.params, feed);
    Ok((m.(params := params, batchesTrained := m.batchesTrained + 1), loss))
  }

  /** `infer_batch`: `decode` stands for the network with its greedy CTC
      decoder, `probability` for the network's per-element CTC loss turned
      into a probability. The recognised texts are one per image; when
      probabilities are asked for, re-encoding the recognised texts cannot
      fail, since every character they hold comes from the alphabet. */
  function InferBatch<P>(m: Model<P>, batch: Batch<Image>, calcProbability: bool,
                         decode: (P, seq<Image>, seq<nat>) -> Sparse,
                         probability: (P, Feed) -> seq<real>): (r: Result<(seq<string>, Option<seq<real>>)>)
    ensures r.Err? ==> r.error == IndexOutOfRange
    ensures r.Ok? <==> |batch.imgs| > 0
                       && DecoderOutputToText(m.charList, decode(m.params, batch.imgs, SeqLen(batch.imgs).value),
                                              |batch.imgs|).Ok?
    ensures r.Ok? ==> var (texts, probs) := r.value;
              && Ok(texts) == DecoderOutputToText(m.charList, decode(m.params, batch.imgs, SeqLen(batch.imgs).value),
                                                  |batch.imgs|)
              && |texts| == |batch.imgs|
              && (forall t, c :: t in texts && c in t ==> c in m.charList)
              && (probs.Some? <==> calcProbability)
  {
    InferMeaning(m, batch, calcProbability, decode, probability);
    Infer(m, batch, calcProbability, decode, probability)
  }

  /** The steps of `infer_batch`: sequence lengths, decoding, grouping
      into texts, then the optional probabilities of the recognised texts. */
  function Infer<P>(m: Model<P>, batch: Batch<Image>, calcProbability: bool,
                    decode: (P, seq<Image>, seq<nat>) -> Sparse,
                    probability: (P, Feed) -> seq<real>): Result<(seq<string>, Option<seq<real>>)>
  {
    var seqLen :- SeqLen(batch.imgs);
    var decoded := decode(m.params, batch.imgs, seqLen);
    var texts :- DecoderOutputToText(m.charList, decoded, |batch.imgs|);
    if calcProbability then
      if EncodeBatch(m.charList, texts).Ok? then
        var labels := EncodeBatch(m.charList, texts).value;
        Ok((texts, Some(probability(m.params, Feed(batch.imgs, labels, seqLen)))))
      else Err(EncodeBatch(m.charList, texts).error)
    else
      Ok((texts, None))
  }

  lemma InferMeaning<P>(m: Model<P>, batch: Batch<Image>, calcProbability: bool,
                        decode: (P, seq<Image>, seq<nat>) -> Sparse,
                        probability: (P, Feed) -> seq<real>)
    ensures var r := Infer(m, batch, calcProbability, decode, probability);
            && (r.Err? ==> r.error == IndexOutOfRange)
            && (r.Ok? <==> |batch.imgs| > 0
                           && DecoderOutputToText(m.charList, decode(m.params, batch.imgs, SeqLen(batch.imgs).value),
                                                  |batch.imgs|).Ok?)
            && (r.Ok? ==> var (texts, probs) := r.value;
                  && Ok(texts) == DecoderOutputToText(m.charList, decode(m.params, batch.imgs, SeqLen(batch.imgs).value),
                                                      |batch.imgs|)
                  && |texts| == |batch.imgs|
                  && (forall t, c :: t in texts && c in t ==> c in m.charList)
                  && (probs.Some? <==> calcProbability))
  {
    if |batch.imgs| > 0 {
      var decoded := decode(m.params, batch.imgs, SeqLen(batch.imgs).value);
      if DecoderOutputToText(m.charList, decoded, |batch.imgs|).Ok? {
        DecodedTextsOverAlphabet(m.charList, decoded, |batch.imgs|);
        EncodeBatchSparse(m.charList, DecoderOutputToText(m.charList, decoded, |batch.imgs|).value);
      }
    }
  }

  /** `save`: the snapshot id moves up by exactly one and the store then
      holds only the checkpoint of the current parameters under that id. */
  function Save<P>(m: Model<P>): (r: (Model<P>, Checkpoint<P>))
    ensures r.0.snapId == m.snapId + 1 && r.0 == m.(snapId := r.0.snapId)
    ensures r.1.step == r.0.snapId && r.1.params == m.params
  {
    var m' := m.(snapId := m.snapId + 1);
    (m', Checkpoint(m'.snapId, m.params))
  }

  /** Restoring after a save gets the saved parameters back, even when a
      restore is required. */
  lemma RestoreAfterSave<P>(m: Model<P>, mustRestore: bool, init: P)
    ensures var r := NewModel(m.charList, mustRestore, Some(Save(m).1), init);
            r.Ok? && r.value.params == m.params && r.value.charList == m.charList
  {
  }
}
