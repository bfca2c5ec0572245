/**
 The IAM data loader (src/dataloaderIAM.py): the 95 % / 5 % split of the
 parsed samples, the epoch shuffle of the training part, and the batch
 cursor with its two modes. Images are opaque values produced by a `read`
 function standing for `cv2.imread`; the random stream behind
 `random.shuffle` is a parameter sequence of draws.
 */
module Loader {
  import opened Results
  import opened Manifest
  import opened Arith

  /** What `get_next` hands out: the images, their transcriptions, and how many. */
  datatype Batch<I> = Batch(imgs: seq<I>, gtTexts: seq<string>, batchSize: nat)

  datatype Mode = TrainMode | ValidationMode

  /** The loader's state. `Active()` is the list `DataLoaderIAM` keeps in
      `self.samples`, which aliases one of the two partitions. */
  datatype Loader = Loader(
    batchSize: nat,
    trainSamples: seq<Sample>,
    validationSamples: seq<Sample>,
    trainWords: seq<string>,
    validationWords: seq<string>,
    charList: seq<char>,
    mode: Mode,
    cursor: nat)
  {
    function Active(): seq<Sample> {
      if mode.TrainMode? then trainSamples else validationSamples
    }
  }

  /** The transcriptions of a list of samples, in order. */
  function Texts(samples: seq<Sample>): (r: seq<string>)
    ensures |r| == |samples|
    ensures forall i :: 0 <= i < |samples| ==> r[i] == samples[i].gtText
  {
    seq(|samples|, i requires 0 <= i < |samples| => samples[i].gtText)
  }

  lemma TextsConcat(a: seq<Sample>, b: seq<Sample>)
    ensures Texts(a + b) == Texts(a) + Texts(b)
  {
  }

  // ----- split --------------------------------------------------------

  /** `int(0.95 * n)`, taken as exact rational arithmetic: the largest `k`
      with `k <= 0.95 n`. */
  function SplitIndex(n: nat): (k: nat)
    ensures k <= n
    ensures 100 * k <= 95 * n < 100 * (k + 1)
  {
    95 * n / 100
  }

  /** The two partitions are consecutive slices of the parse order: together
      they are exactly the parsed samples, the training part first. */
  lemma PartitionsCoverSamples(samples: seq<Sample>)
    ensures var k := SplitIndex(|samples|);
            && samples[..k] + samples[k..] == samples
            && |samples[..k]| + |samples[k..]| == |samples|
            && |samples[..k]| == k
  {
  }

  /** The training part is empty exactly for manifests of at most one
      sample: a single sample lands in the validation part. */
  lemma SplitIndexZeroIff(n: nat)
    ensures SplitIndex(n) == 0 <==> n <= 1
  {
  }

  /** A non-empty manifest always leaves at least one validation sample. */
  lemma ValidationNonEmpty(n: nat)
    requires n >= 1
    ensures SplitIndex(n) < n
  {
  }

  // ----- shuffle ------------------------------------------------------

  /** Exchanges positions `i` and `j`. */
  function Swap<T>(s: seq<T>, i: nat, j: nat): (r: seq<T>)
    requires i < |s| && j < |s|
    ensures |r| == |s| && multiset(r) == multiset(s)
    ensures r[i] == s[j] && r[j] == s[i]
    ensures forall k :: 0 <= k < |s| && k != i && k != j ==> r[k] == s[k]
  {
    s[i := s[j]][j := s[i]]
  }

  /** The `k`-th value of the random stream reduced to `0..i`, as
      `randbelow(i + 1)`; a missing draw leaves position `i` in place. */
  function Draw(draws: seq<nat>, k: nat, i: nat): (j: nat)
    ensures j <= i
  {
    if k < |draws| then draws[k] % (i + 1) else i
  }

  /** Python's `random.shuffle`: for `i` from the last index down to 1,
      swap position `i` with a drawn position `j <= i`. */
  function Shuffle<T>(s: seq<T>, draws: seq<nat>): (r: seq<T>)
    ensures |r| == |s| && multiset(r) == multiset(s)
  {
    ShuffleBelow(s, draws, |s|)
  }

  function ShuffleBelow<T>(s: seq<T>, draws: seq<nat>, top: nat): (r: seq<T>)
    requires top <= |s|
    ensures |r| == |s| && multiset(r) == multiset(s)
    decreases top
  {
    if top <= 1 then s
    else
      var i := top - 1;
      ShuffleBelow(Swap(s, i, Draw(draws, |s| - top, i)), draws, top - 1)
  }

  // ----- construction and mode switches ---------------------------------

  /** The constructor: parse, split at `SplitIndex`, record the words of both
      partitions in parse order, switch to (and so shuffle) the training
      part, and compute the alphabet over all kept samples. */
  function New(dataDir: string, batchSize: nat, lines: seq<string>, draws: seq<nat>): (r: Result<Loader>)
    ensures r.Ok? <==> Parse(dataDir, lines).Ok?
    ensures r.Ok? ==>
              var samples := Parse(dataDir, lines).value;
              var k := SplitIndex(|samples|);
              && r.value.batchSize == batchSize
              && multiset(r.value.trainSamples) == multiset(samples[..k])
              && r.value.validationSamples == samples[k..]
              && r.value.trainWords == Texts(samples[..k]) && r.value.validationWords == Texts(samples[k..])
              && r.value.trainWords + r.value.validationWords == Texts(samples)
              && r.value.charList == CharList(samples)
              && r.value.mode == TrainMode && r.value.cursor == 0
  {
    match Parse(dataDir, lines)
    case Err(e) => Err(e)
    case Ok(samples) =>
      var k := SplitIndex(|samples|);
      PartitionsCoverSamples(samples);
      TextsConcat(samples[..k], samples[k..]);
      var ld := Loader(batchSize, samples[..k], samples[k..], Texts(samples[..k]), Texts(samples[k..]),
                       CharList(samples), TrainMode, 0);
      Ok(TrainSet(ld, draws))
  }

  /** `train_set`: rewind, reshuffle the training part in place, make it active. */
  function TrainSet(ld: Loader, draws: seq<nat>): (r: Loader)
    ensures r.mode == TrainMode && r.cursor == 0
    ensures multiset(r.trainSamples) == multiset(ld.trainSamples)
    ensures r.validationSamples == ld.validationSamples
    ensures r.batchSize == ld.batchSize && r.charList == ld.charList
    ensures r.trainWords == ld.trainWords && r.validationWords == ld.validationWords
  {
    ld.(trainSamples := Shuffle(ld.trainSamples, draws), mode := TrainMode, cursor := 0)
  }

  /** `validation_set`: rewind and make the (never shuffled) validation part active. */
  function ValidationSet(ld: Loader): (r: Loader)
    ensures r.mode == ValidationMode && r.cursor == 0
    ensures r.Active() == ld.validationSamples
    ensures r.trainSamples == ld.trainSamples && r.validationSamples == ld.validationSamples
    ensures r.batchSize == ld.batchSize && r.charList == ld.charList
  {
    ld.(mode := ValidationMode, cursor := 0)
  }

  // ----- iteration ------------------------------------------------------

  /** `has_next`: a full batch remains in training mode, any sample remains
      in validation mode. */
  function HasNext(ld: Loader): (r: bool)
    ensures ld.mode.TrainMode? ==> (r <==> ld.cursor + ld.batchSize <= |ld.Active()|)
    ensures ld.mode.ValidationMode? ==> (r <==> ld.cursor < |ld.Active()|)
  {
    More(|ld.Active()|, ld.cursor, ld.batchSize, ld.mode.TrainMode?)
  }

  /** `has_next` over `n` samples at cursor `c`: a full batch remains when
      only full batches are taken, any sample remains otherwise. */
  predicate More(n: nat, c: nat, bs: nat, fullOnly: bool) {
    if fullOnly then c + bs <= n else c < n
  }

  /** The batch numbers of a pass over `n` samples in batches of `bs`, the
      cursor at `cursor`: the 1-based number of the batch the cursor falls
      in, and the number of batches, only full ones when `fullOnly`. */
  function BatchNumbers(cursor: nat, n: nat, bs: nat, fullOnly: bool): (r: Option<(nat, nat)>)
    ensures r.Some? <==> bs > 0
    ensures r.Some? ==> var (cur, count) := r.value;
              && cur >= 1 && (cur - 1) * bs <= cursor < cur * bs
              && (fullOnly ==> count * bs <= n < (count + 1) * bs)
              && (!fullOnly ==> (count - 1) * bs < n <= count * bs)
  {
    if bs == 0 then None
    else
      var cur := cursor / bs + 1;
      BatchNumber(cursor, bs, cur);
      if fullOnly then
        var count := n / bs;
        FloorBounds(n, bs);
        Some((cur, count))
      else
        var count := (n + bs - 1) / bs;
        CeilBounds(n, bs);
        Some((cur, count))
  }

  /** `get_iterator_info`: the 1-based number of the batch at the cursor and
      the number of batches of the pass, only full ones in training mode; a
      zero batch size divides by zero. */
  function IteratorInfo(ld: Loader): (r: Result<(nat, nat)>)
    ensures r.Ok? <==> ld.batchSize > 0
    ensures r.Ok? ==> var (cur, count) := r.value; var bs, n := ld.batchSize, |ld.Active()|;
              && cur >= 1 && (cur - 1) * bs <= ld.cursor < cur * bs
              && (ld.mode.TrainMode? ==> count * bs <= n < (count + 1) * bs)
              && (ld.mode.ValidationMode? ==> (count - 1) * bs < n <= count * bs)
  {
    match BatchNumbers(ld.cursor, |ld.Active()|, ld.batchSize, ld.mode.TrainMode?)
    case None => Err(DivisionByZero)
    case Some(info) => Ok(info)
  }

  /** The samples `get_next` takes: `range(cursor, min(cursor + bs, len))`. */
  function Window(ld: Loader): (w: seq<Sample>)
    ensures |w| <= ld.batchSize
    ensures ld.cursor + ld.batchSize <= |ld.Active()| ==> w == ld.Active()[ld.cursor..ld.cursor + ld.batchSize]
    ensures ld.cursor < |ld.Active()| <= ld.cursor + ld.batchSize ==> w == ld.Active()[ld.cursor..]
    ensures |ld.Active()| <= ld.cursor ==> w == []
  {
    Take(ld.Active(), ld.cursor, ld.batchSize)
  }

  /** Up to `bs` samples of `s` from position `c` on. */
  function Take(s: seq<Sample>, c: nat, bs: nat): (w: seq<Sample>)
    ensures |w| <= bs
    ensures c + bs <= |s| ==> w == s[c..c + bs]
    ensures c < |s| <= c + bs ==> w == s[c..]
    ensures |s| <= c ==> w == []
  {
    if c >= |s| then [] else s[c..if c + bs <= |s| then c + bs else |s|]
  }

  /** The batch of a window: its images read in order, its transcriptions,
      and its size. */
  function MakeBatch<I>(w: seq<Sample>, read: string -> I): (b: Batch<I>)
    ensures b.gtTexts == Texts(w) && b.batchSize == |b.imgs| == |w|
    ensures forall i :: 0 <= i < |w| ==> b.imgs[i] == read(w[i].filePath)
  {
    var imgs := seq(|w|, i requires 0 <= i < |w| => read(w[i].filePath));
    Batch(imgs, Texts(w), |imgs|)
  }

  /** `get_next`: the batch of the window, images read in order, its size the
      number of samples actually taken; the cursor always moves by `batchSize`. */
  function GetNext<I>(ld: Loader, read: string -> I): (r: (Loader, Batch<I>))
    ensures var (ld', b) := r;
            && ld' == ld.(cursor := ld.cursor + ld.batchSize)
            && b.gtTexts == Texts(Window(ld))
            && b.batchSize == |b.imgs| == |Window(ld)|
            && forall i :: 0 <= i < |b.imgs| ==> b.imgs[i] == read(Window(ld)[i].filePath)
  {
    (ld.(cursor := ld.cursor + ld.batchSize), MakeBatch(Window(ld), read))
  }

  /** Every batch handed out while `HasNext` holds, in order. */
  function Drain<I>(ld: Loader, read: string -> I): (r: seq<Batch<I>>)
    requires ld.batchSize > 0
    ensures |r| > 0 <==> HasNext(ld)
    ensures |r| > 0 ==> r[0] == GetNext(ld, read).1
  {
    Batches(ld.Active(), ld.cursor, ld.batchSize, ld.mode.TrainMode?, read)
  }

  /** The batches of `s` from cursor `c` on, taken while `More` holds. */
  function Batches<I>(s: seq<Sample>, c: nat, bs: nat, fullOnly: bool, read: string -> I): seq<Batch<I>>
    requires bs > 0
    decreases |s| - c
  {
    if More(|s|, c, bs, fullOnly) then [MakeBatch(Take(s, c, bs), read)] + Batches(s, c + bs, bs, fullOnly, read)
    else []
  }

  /** Every batch of the list has one image per transcription. */
  predicate Shaped<I>(batches: seq<Batch<I>>) {
    forall k :: 0 <= k < |batches| ==> |batches[k].imgs| == |batches[k].gtTexts|
  }

  /** Every batch handed out has one image per transcription. */
  lemma {:induction false} BatchesShaped<I>(s: seq<Sample>, c: nat, bs: nat, fullOnly: bool, read: string -> I)
    requires bs > 0
    ensures Shaped(Batches(s, c, bs, fullOnly, read))
    decreases |s| - c
  {
    if More(|s|, c, bs, fullOnly) {
      var rest := Batches(s, c + bs, bs, fullOnly, read);
      var all := [MakeBatch(Take(s, c, bs), read)] + rest;
      assert Batches(s, c, bs, fullOnly, read) == all;
      forall k | 0 <= k < |all|
        ensures |all[k].imgs| == |all[k].gtTexts|
      {
        if k > 0 {
          BatchesShaped(s, c + bs, bs, fullOnly, read);
          assert all[k] == rest[k - 1];
        }
      }
    }
  }

  /** All transcriptions of a list of batches, batch after batch. */
  function AllTexts<I>(bs: seq<Batch<I>>): seq<string> {
    if |bs| == 0 then [] else bs[0].gtTexts + AllTexts(bs[1..])
  }

  lemma AllTextsConcat<I>(a: seq<Batch<I>>, b: seq<Batch<I>>)
    ensures AllTexts(a + b) == AllTexts(a) + AllTexts(b)
  {
    if |a| > 0 {
      assert (a + b)[1..] == a[1..] + b;
      assert (a + b)[0] == a[0];
      AllTextsConcat(a[1..], b);
    } else {
      assert a + b == b;
    }
  }

  /** While `has_next` holds, the drain is the next batch followed by the
      drain from the advanced cursor. */
  lemma DrainHead<I>(ld: Loader, read: string -> I)
    requires ld.batchSize > 0 && HasNext(ld)
    ensures Drain(ld, read) == [GetNext(ld, read).1] + Drain(ld.(cursor := ld.cursor + ld.batchSize), read)
  {
    assert ld.(cursor := ld.cursor + ld.batchSize).Active() == ld.Active();
  }

  lemma AllTextsCons<I>(b: Batch<I>, rest: seq<Batch<I>>)
    ensures AllTexts([b] + rest) == b.gtTexts + AllTexts(rest)
  {
    assert ([b] + rest)[1..] == rest;
  }

  lemma TextsSplit(s: seq<Sample>, i: nat, j: nat, k: nat)
    requires i <= j <= k <= |s|
    ensures Texts(s[i..k]) == Texts(s[i..j]) + Texts(s[j..k])
  {
    assert s[i..k] == s[i..j] + s[j..k];
    TextsConcat(s[i..j], s[j..k]);
  }

  /** Taking only full batches from `c` yields one batch of `bs` per `bs`
      remaining samples, whose transcriptions are the samples from `c` on
      up to the last full batch. */
  lemma FullBatchesCover<I>(s: seq<Sample>, c: nat, bs: nat, read: string -> I)
    requires bs > 0 && c <= |s|
    ensures var batches := Batches(s, c, bs, true, read);
            && |batches| == FullBatches(|s| - c, bs)
            && (forall k :: 0 <= k < |batches| ==> batches[k].batchSize == bs)
            && c + FullPart(|s| - c, bs) <= |s|
            && AllTexts(batches) == Texts(s[c..c + FullPart(|s| - c, bs)])
  {
    FullBatchesCount(s, c, bs, read);
    FullBatchesTexts(s, c, bs, read);
  }

  lemma {:induction false} FullBatchesCount<I>(s: seq<Sample>, c: nat, bs: nat, read: string -> I)
    requires bs > 0 && c <= |s|
    ensures var batches := Batches(s, c, bs, true, read);
            && |batches| == FullBatches(|s| - c, bs)
            && (forall k :: 0 <= k < |batches| ==> batches[k].batchSize == bs)
    decreases |s| - c
  {
    if c + bs <= |s| {
      var b := MakeBatch(Take(s, c, bs), read);
      var rest := Batches(s, c + bs, bs, true, read);
      var all := [b] + rest;
      assert Batches(s, c, bs, true, read) == all;
      assert |s| - c - bs == |s| - (c + bs);
      assert FullBatches(|s| - c, bs) == 1 + FullBatches(|s| - (c + bs), bs);
      assert b.batchSize == bs by {
        WindowBatch(s, c, bs, read);
      }
      assert |rest| == FullBatches(|s| - (c + bs), bs) && forall k :: 0 <= k < |rest| ==> rest[k].batchSize == bs by {
        FullBatchesCount(s, c + bs, bs, read);
      }
      forall k | 0 <= k < |all|
        ensures all[k].batchSize == bs
      {
        if k > 0 {
          assert all[k] == rest[k - 1];
        }
      }
    } else {
      assert Batches(s, c, bs, true, read) == [];
    }
  }

  lemma FullBatchesTexts<I>(s: seq<Sample>, c: nat, bs: nat, read: string -> I)
    requires bs > 0 && c <= |s|
    ensures c + FullPart(|s| - c, bs) <= |s|
    ensures AllTexts(Batches(s, c, bs, true, read)) == Texts(s[c..c + FullPart(|s| - c, bs)])
  {
    FullBatchesTextsUpTo(s, c, bs, c + FullPart(|s| - c, bs), read);
  }

  lemma {:induction false} FullBatchesTextsUpTo<I>(s: seq<Sample>, c: nat, bs: nat, e: nat, read: string -> I)
    requires bs > 0 && c <= |s| && e == c + FullPart(|s| - c, bs)
    ensures e <= |s|
    ensures AllTexts(Batches(s, c, bs, true, read)) == Texts(s[c..e])
    decreases |s| - c
  {
    if c + bs <= |s| {
      assert |s| - c - bs == |s| - (c + bs);
      assert FullPart(|s| - c, bs) == bs + FullPart(|s| - (c + bs), bs);
      assert e <= |s| && AllTexts(Batches(s, c + bs, bs, true, read)) == Texts(s[c + bs..e]) by {
        FullBatchesTextsUpTo(s, c + bs, bs, e, read);
      }
      BatchesTextsStep(s, c, bs, e, true, read);
    } else {
      assert e == c;
      assert Batches(s, c, bs, true, read) == [];
      assert Texts(s[c..c]) == [];
    }
  }

  /** One full batch in front of batches covering `s[c + bs..e]` covers
      `s[c..e]`. */
  lemma BatchesTextsStep<I>(s: seq<Sample>, c: nat, bs: nat, e: nat, fullOnly: bool, read: string -> I)
    requires bs > 0 && c + bs <= e <= |s|
    requires AllTexts(Batches(s, c + bs, bs, fullOnly, read)) == Texts(s[c + bs..e])
    ensures AllTexts(Batches(s, c, bs, fullOnly, read)) == Texts(s[c..e])
  {
    var b := MakeBatch(Take(s, c, bs), read);
    var rest := Batches(s, c + bs, bs, fullOnly, read);
    assert AllTexts(Batches(s, c, bs, fullOnly, read)) == b.gtTexts + AllTexts(rest) by {
      assert More(|s|, c, bs, fullOnly);
      assert Batches(s, c, bs, fullOnly, read) == [b] + rest;
      AllTextsCons(b, rest);
    }
    assert b.gtTexts == Texts(s[c..c + bs]) by {
      assert Take(s, c, bs) == s[c..c + bs];
    }
    assert Texts(s[c..e]) == Texts(s[c..c + bs]) + Texts(s[c + bs..e]) by {
      TextsSplit(s, c, c + bs, e);
    }
  }

  /** Taking batches of at most `bs` from `c` covers every remaining sample
      in order; all batches but the last are full, and the last holds what
      the full ones leave. */
  lemma AllBatchesCover<I>(s: seq<Sample>, c: nat, bs: nat, read: string -> I)
    requires bs > 0 && c <= |s|
    ensures var batches := Batches(s, c, bs, false, read);
            && |batches| == AllBatches(|s| - c, bs)
            && AllTexts(batches) == Texts(s[c..])
            && (forall k :: 0 <= k < |batches| - 1 ==> batches[k].batchSize == bs)
            && (|batches| > 0 ==> batches[|batches| - 1].batchSize == LastBatch(|s| - c, bs))
  {
    AllBatchesCount(s, c, bs, read);
    AllBatchesTexts(s, c, bs, read);
  }

  lemma {:induction false} AllBatchesCount<I>(s: seq<Sample>, c: nat, bs: nat, read: string -> I)
    requires bs > 0 && c <= |s|
    ensures |Batches(s, c, bs, false, read)| == AllBatches(|s| - c, bs)
    ensures FullButLast(Batches(s, c, bs, false, read), bs, LastBatch(|s| - c, bs))
    decreases |s| - c
  {
    if c < |s| {
      var b := MakeBatch(Take(s, c, bs), read);
      var rest := Batches(s, c + bs, bs, false, read);
      assert Batches(s, c, bs, false, read) == [b] + rest;
      if c + bs < |s| {
        assert |s| - c - bs == |s| - (c + bs);
        assert AllBatches(|s| - c, bs) == 1 + AllBatches(|s| - (c + bs), bs);
        assert LastBatch(|s| - c, bs) == LastBatch(|s| - (c + bs), bs);
        assert b.batchSize == bs by {
          WindowBatch(s, c, bs, read);
        }
        assert |rest| == AllBatches(|s| - (c + bs), bs) && FullButLast(rest, bs, LastBatch(|s| - (c + bs), bs)) by {
          AllBatchesCount(s, c + bs, bs, read);
        }
        BatchSizesCons(b, rest, bs, LastBatch(|s| - c, bs));
      } else {
        assert rest == [];
        assert b.batchSize == LastBatch(|s| - c, bs) by {
          WindowBatch(s, c, bs, read);
        }
        assert FullButLast([b], bs, LastBatch(|s| - c, bs));
      }
    }
  }

  /** Every batch but the last holds `bs` samples, and the last `last`. */
  predicate FullButLast<I>(batches: seq<Batch<I>>, bs: nat, last: nat) {
    && (forall k :: 0 <= k < |batches| - 1 ==> batches[k].batchSize == bs)
    && (|batches| > 0 ==> batches[|batches| - 1].batchSize == last)
  }

  /** The batch taken at a cursor inside the samples holds the next `bs`
      samples, or all that remain when fewer are left. */
  lemma WindowBatch<I>(s: seq<Sample>, c: nat, bs: nat, read: string -> I)
    requires c < |s|
    ensures var e := if c + bs <= |s| then c + bs else |s|;
            var b := MakeBatch(Take(s, c, bs), read);
            b.batchSize == e - c && b.gtTexts == Texts(s[c..e])
  {
  }

  /** A full batch in front keeps all but the last batch full. */
  lemma BatchSizesCons<I>(b: Batch<I>, rest: seq<Batch<I>>, bs: nat, last: nat)
    requires b.batchSize == bs && |rest| > 0 && FullButLast(rest, bs, last)
    ensures FullButLast([b] + rest, bs, last)
  {
    var all := [b] + rest;
    forall k | 0 <= k < |all| - 1
      ensures all[k].batchSize == bs
    {
      if k > 0 {
        assert all[k] == rest[k - 1];
      }
    }
    assert all[|all| - 1] == rest[|rest| - 1];
  }

  lemma AllBatchesTexts<I>(s: seq<Sample>, c: nat, bs: nat, read: string -> I)
    requires bs > 0 && c <= |s|
    ensures AllTexts(Batches(s, c, bs, false, read)) == Texts(s[c..])
  {
    AllBatchesTextsToEnd(s, c, bs, read);
    assert s[c..|s|] == s[c..];
  }

  lemma {:induction false} AllBatchesTextsToEnd<I>(s: seq<Sample>, c: nat, bs: nat, read: string -> I)
    requires bs > 0 && c <= |s|
    ensures AllTexts(Batches(s, c, bs, false, read)) == Texts(s[c..|s|])
    decreases |s| - c
  {
    if c + bs < |s| {
      assert AllTexts(Batches(s, c + bs, bs, false, read)) == Texts(s[c + bs..|s|]) by {
        AllBatchesTextsToEnd(s, c + bs, bs, read);
      }
      BatchesTextsStep(s, c, bs, |s|, false, read);
    } else if c < |s| {
      var b := MakeBatch(Take(s, c, bs), read);
      var rest := Batches(s, c + bs, bs, false, read);
      assert rest == [];
      assert Batches(s, c, bs, false, read) == [b] + rest;
      AllTextsCons(b, rest);
      assert b.gtTexts == Texts(s[c..|s|]) by {
        WindowBatch(s, c, bs, read);
      }
      assert b.gtTexts + [] == b.gtTexts;
    } else {
      assert s[c..|s|] == [];
    }
  }

  lemma TextsSplitSuffix(s: seq<Sample>, i: nat, j: nat)
    requires i <= j <= |s|
    ensures Texts(s[i..]) == Texts(s[i..j]) + Texts(s[j..])
  {
    assert s[i..] == s[i..j] + s[j..];
    TextsConcat(s[i..j], s[j..]);
  }

  /** Draining training mode from cursor `c` yields one full batch per
      `bs` remaining samples, whose transcriptions are the samples from `c`
      on, in order, up to the last full batch; a partial batch is dropped. */
  lemma DrainTrain<I>(ld: Loader, read: string -> I)
    requires ld.batchSize > 0 && ld.mode.TrainMode? && ld.cursor <= |ld.Active()|
    ensures var n, c, bs := |ld.Active()|, ld.cursor, ld.batchSize;
            var batches := Drain(ld, read);
            && |batches| == FullBatches(n - c, bs)
            && (forall k :: 0 <= k < |batches| ==> batches[k].batchSize == bs)
            && AllTexts(batches) == Texts(ld.Active()[c..c + FullPart(n - c, bs)])
  {
    var s, c, bs := ld.Active(), ld.cursor, ld.batchSize;
    FullBatchesCount(s, c, bs, read);
    FullBatchesTexts(s, c, bs, read);
    assert Drain(ld, read) == Batches(s, c, bs, true, read);
  }

  /** A training pass (`train_set` then `get_next` while `has_next`)
      consumes exactly `floor(n / bs) * bs` samples of the freshly shuffled
      training part, in `floor(n / bs)` full batches. */
  lemma TrainPassConsumes<I>(ld: Loader, read: string -> I)
    requires ld.batchSize > 0 && ld.mode.TrainMode? && ld.cursor == 0
    ensures var n, bs := |ld.trainSamples|, ld.batchSize;
            var batches := Drain(ld, read);
            && |batches| == n / bs
            && |AllTexts(batches)| == (n / bs) * bs
            && AllTexts(batches) == Texts(ld.trainSamples[..(n / bs) * bs])
  {
    var n, bs := |ld.trainSamples|, ld.batchSize;
    DrainTrain(ld, read);
    FullBatchesIsFloor(n, bs);
    FullPartIsProduct(n, bs);
    var p := FullPart(n, bs);
    assert ld.Active()[0..p] == ld.trainSamples[..p];
  }

  /** Draining validation mode from cursor `c` covers every remaining sample
      in order; all batches but the last are full. */
  lemma DrainValidation<I>(ld: Loader, read: string -> I)
    requires ld.batchSize > 0 && ld.mode.ValidationMode? && ld.cursor <= |ld.Active()|
    ensures var n, c, bs := |ld.Active()|, ld.cursor, ld.batchSize;
            var batches := Drain(ld, read);
            && |batches| == AllBatches(n - c, bs)
            && AllTexts(batches) == Texts(ld.Active()[c..])
            && (forall k :: 0 <= k < |batches| - 1 ==> batches[k].batchSize == bs)
            && (|batches| > 0 ==> batches[|batches| - 1].batchSize == LastBatch(n - c, bs))
  {
    assert Drain(ld, read) == Batches(ld.Active(), ld.cursor, ld.batchSize, false, read);
    AllBatchesCount(ld.Active(), ld.cursor, ld.batchSize, read);
    AllBatchesTexts(ld.Active(), ld.cursor, ld.batchSize, read);
  }

  /** Draining validation mode from the start covers every validation
      sample in `ceil(n / bs)` batches, the last holding
      `n - bs * (ceil(n / bs) - 1)` samples. */
  lemma ValidationPassCovers<I>(ld: Loader, read: string -> I)
    requires ld.batchSize > 0
    ensures var v := ValidationSet(ld);
            var n, bs := |ld.validationSamples|, ld.batchSize;
            var batches := Drain(v, read);
            && AllTexts(batches) == Texts(ld.validationSamples)
            && |batches| == (n + bs - 1) / bs
            && (forall k :: 0 <= k < |batches| - 1 ==> batches[k].batchSize == bs)
            && (n > 0 ==> batches[|batches| - 1].batchSize == n - bs * (|batches| - 1))
  {
    var v := ValidationSet(ld);
    DrainValidation(v, read);
    assert v.Active()[0..] == v.Active();
    AllBatchesIsCeil(|ld.validationSamples|, ld.batchSize);
  }

}
