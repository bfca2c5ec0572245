# English handwriting recogniser core, modelled in Dafny

This project models the deterministic core of an English handwritten-word recogniser. The recogniser is a CNN + BiLSTM + CTC network trained on the IAM words dataset. The model has three parts:

- **The IAM data loader** (`src/dataloaderIAM.py`):
  - parsing the `words.txt` manifest line by line: strip the line, skip blank lines and comments, demand 9 fields, derive the image path from the id, drop the two known-broken ids, and join the transcription;
  - the sorted alphabet;
  - the 95 % / 5 % split;
  - the Fisher–Yates shuffle of the training part;
  - the batch cursor with its training and validation modes.
- **Label encoding around CTC** (`src/model.py`):
  - `to_sparse`, and its inverse `decoder_output_to_text`;
  - the sequence lengths fed with a batch;
  - model construction and restore, and the batch and snapshot counters.
  - The network is a set of function parameters over abstract parameters.
- **The training and validation loops** (`src/engRecognition.py`):
  - the validation counters and rates, with Levenshtein distance as the reference edit distance;
  - the early-stopping state machine and its summary lists;
  - `train` and `validate` as methods driving the loader and the model;
  - the "space first if missing" rule for the saved alphabet.

Python exceptions become values of one `Error` datatype in a `Result` (`results.dfy`). Python's `str.strip`, `str.split(' ')` and `' '.join` are modelled in `pytext.dfy`.

## Model

| member | source | states |
|---|---|---|
| PyText.Strip | src/dataloaderIAM.py:69 | the result is the infix left after dropping only whitespace (Python's `isspace` set) at both ends, and neither starts nor ends with whitespace |
| PyText.StripIdempotent | src/dataloaderIAM.py:69 | stripping a stripped line changes nothing |
| PyText.StripEmptyIff | src/dataloaderIAM.py:69-71 | a line strips to nothing exactly when it is all whitespace |
| PyText.Split | src/dataloaderIAM.py:73 | `split(' ')` keeps empty pieces: one more piece than separators, and no piece holds a separator |
| PyText.JoinSplit | src/dataloaderIAM.py:73-88 | joining the pieces of a split with the same separator gives the line back |
| PyText.SplitJoin | src/dataloaderIAM.py:73-88 | splitting a join of separator-free pieces gives the pieces back |
| Manifest.ImagePath | src/dataloaderIAM.py:77-81 | a path exists exactly when the id contains '-'; an id without one fails with a missing-segment error, as `file_name_split[1]` does |
| Manifest.ImagePathOfSegments | src/dataloaderIAM.py:77-81 | for an id `a-b…` the path is `dataDir/img/a/a-b/<id>.png` |
| Manifest.TranscriptionIsLineSuffix | src/dataloaderIAM.py:73-88 | the transcription is exactly the text after the eighth separator, whatever spaces it holds |
| Manifest.ParseLine | src/dataloaderIAM.py:67-92 | skip exactly for blank and '#' lines; a data line fails exactly when it has fewer than 9 fields (the assert) or its id has no '-' (the subscript), with the matching error; a kept line's transcription is fields 8 onward; a broken or kept line's path comes from its id, and it is broken exactly when the id is in the fixed list |
| Manifest.ShortLineFails | src/dataloaderIAM.py:73-74 | a data line with fewer than 9 fields fails; it is not skipped |
| Manifest.KeptTextNonEmpty | src/dataloaderIAM.py:69-88 | a kept line's transcription is never empty |
| Manifest.Parse | src/dataloaderIAM.py:64-92 | the manifest parses exactly when no line fails |
| Manifest.Collect | src/dataloaderIAM.py:67-92 | the parse loop keeps at most one sample per line; it fails with the error of the first failing line, every earlier line having been kept or skipped, and succeeds exactly when no line fails |
| Manifest.WellFormedManifestParses | src/dataloaderIAM.py:67-92 | a manifest loads exactly when every line is blank, a comment, or has at least 9 fields and a hyphenated id |
| Manifest.ShortLineFailsParse | src/dataloaderIAM.py:73-74 | one short data line anywhere makes the whole parse fail |
| Manifest.ParseConcat | src/dataloaderIAM.py:67-92 | parsing two parts of a manifest and concatenating gives the parse of the whole, in order |
| Manifest.NoiseContributesNothing | src/dataloaderIAM.py:66-85 | a blank, comment or broken-id line can be removed without changing the parse |
| Manifest.KeptLineContributesSample | src/dataloaderIAM.py:88-92 | a kept line contributes exactly its sample, in place |
| Manifest.CollectedAreKept | src/dataloaderIAM.py:92 | every sample comes from a kept line |
| Manifest.ParsedTextsNonEmpty | src/dataloaderIAM.py:69-92 | every parsed sample has a non-empty transcription |
| Manifest.Insert | src/dataloaderIAM.py:89 | adding a character keeps the list strictly sorted, with exactly the old characters and the new one |
| Manifest.InsertAll | src/dataloaderIAM.py:89 | adding a text's characters keeps the list strictly sorted, with exactly the old characters and the text's |
| Manifest.CharList | src/dataloaderIAM.py:65-105 | the alphabet is strictly sorted and holds exactly the characters of the kept transcriptions |
| Manifest.TextCharsInCharList | src/dataloaderIAM.py:89-105 | every transcription character is in the alphabet |
| Manifest.SortedListUnique | src/dataloaderIAM.py:105 | a strictly sorted list is determined by its elements, so the alphabet is the one sorted listing of the character set |
| Loader.SplitIndex | src/dataloaderIAM.py:95 | `k` is the integer part of 0.95·N: `100k <= 95N < 100(k+1)` |
| Loader.PartitionsCoverSamples | src/dataloaderIAM.py:95-97 | the two partitions are `samples[:k]` and `samples[k:]`: their lengths sum to N and their concatenation is the parse order |
| Loader.SplitIndexZeroIff | src/dataloaderIAM.py:95 | the training part is empty exactly when N <= 1 |
| Loader.ValidationNonEmpty | src/dataloaderIAM.py:95-97 | with at least one sample the validation part is not empty |
| Loader.Swap | src/dataloaderIAM.py:109 | a swap exchanges two positions and keeps the multiset |
| Loader.Draw | src/dataloaderIAM.py:109 | a shuffle draw for position `i` picks an index at most `i` |
| Loader.Shuffle | src/dataloaderIAM.py:109 | the shuffle only permutes: same length, same multiset |
| Loader.ShuffleBelow | src/dataloaderIAM.py:109 | each Fisher–Yates round only permutes |
| Loader.New | src/dataloaderIAM.py:55-105 | construction succeeds exactly when the parse does; the training part is a permutation of `samples[:k]` and the validation part is `samples[k:]`; the training words are the transcriptions of `samples[:k]` and the validation words those of `samples[k:]`, both in parse order; the alphabet is `CharList`; training mode at cursor 0 |
| Loader.TrainSet | src/dataloaderIAM.py:107-111 | rewind to 0 in training mode, permuting only the training part |
| Loader.ValidationSet | src/dataloaderIAM.py:113-116 | rewind to 0 in validation mode on the unshuffled validation part |
| Loader.IteratorInfo | src/dataloaderIAM.py:118-124 | the current batch number is `cursor // bs + 1`; the count is the floor of n/bs in training mode and the ceiling in validation mode; a zero batch size fails |
| Loader.Window | src/dataloaderIAM.py:133 | the window is `samples[cursor:min(cursor+bs, len)]`: a full slice when `bs` samples remain, the rest otherwise, nothing past the end |
| Loader.GetNext | src/dataloaderIAM.py:132-139 | the batch is the window's images and transcriptions, in order, and its size is the count taken; the cursor always moves by `bs` |
| Loader.HasNext | src/dataloaderIAM.py:126-130 | in training mode a full batch remains (`cursor + bs <= len`); in validation mode any sample remains (`cursor < len`) |
| Loader.Drain | src/dataloaderIAM.py:126-139 | the batches a `while has_next(): get_next()` loop hands out: none exactly when `has_next` fails at once, and `get_next`'s batch first |
| Loader.FullBatchesCover | src/dataloaderIAM.py:126-139 | taking only full batches from cursor `c` yields `floor((n-c)/bs)` batches of exactly `bs`, whose transcriptions are the samples from `c` up to the last full batch, in order |
| Loader.AllBatchesCover | src/dataloaderIAM.py:126-139 | taking batches of at most `bs` from cursor `c` yields `ceil((n-c)/bs)` batches covering every remaining sample in order; all but the last are full and the last holds what the full ones leave |
| Loader.DrainTrain | src/dataloaderIAM.py:126-139 | draining training mode yields only full batches, one per `bs` remaining samples, covering them in order up to the last full batch |
| Loader.TrainPassConsumes | src/dataloaderIAM.py:107-139 | a training pass consumes exactly `floor(n/bs)·bs` samples of the shuffled part, in `floor(n/bs)` batches |
| Loader.DrainValidation | src/dataloaderIAM.py:126-139 | draining validation mode covers every remaining sample in order; all batches but the last are full |
| Loader.BatchesShaped | src/dataloaderIAM.py:132-139 | every batch handed out has one image per transcription |
| Loader.ValidationPassCovers | src/dataloaderIAM.py:113-139 | a validation pass covers every validation sample in `ceil(n/bs)` batches, the last one of size `n - bs·(ceil(n/bs)-1)` |
| Arith.FullBatchesIsFloor | src/dataloaderIAM.py:120 | the number of full batches equals `floor(n/bs)` |
| Arith.AllBatchesIsCeil | src/dataloaderIAM.py:122 | the number of batches, the last possibly short, equals `ceil(n/bs)` |
| Labels.IndexOf | src/model.py:198 | `list.index`: the first position of the character, absent exactly when the character is |
| Labels.Encode | src/model.py:198 | a text's label string has one entry per character, each the first alphabet position of that character; a character outside the alphabet fails |
| Labels.MaxLength | src/model.py:193-201 | the second shape entry bounds every text length and is reached, or is 0 |
| Labels.ToSparse | src/model.py:189-207 | succeeds exactly when every character is in the alphabet; one index and one value per character; indices in strict row-major, position-ascending order and inside the texts; each value names the character at its index; shape is `(len(texts), max length)` |
| Labels.ToSparseError | src/model.py:198 | encoding fails only on a character outside the alphabet |
| Labels.PyIndex | src/model.py:222 | Python subscripting, counting from the end for negative subscripts, defined exactly on `[-n, n)` |
| Labels.GroupRows | src/model.py:216-222 | there are exactly `bs` label lists, and the only failure is a subscript out of range |
| Labels.GroupRowsCollects | src/model.py:216-222 | each row collects exactly the values addressed to it, in entry order; rows nobody addresses stay empty |
| Labels.GroupRowsOkIff | src/model.py:219-222 | grouping succeeds exactly when every entry has a value and a row subscript inside the batch |
| Labels.LabelsToText | src/model.py:225 | one character per label, each the alphabet entry the label addresses; it fails exactly on a label outside the alphabet |
| Labels.RowsToTexts | src/model.py:225 | one text per row, each the decoding of that row |
| Labels.DecoderOutputToText | src/model.py:209-225 | exactly `bs` strings, and the only failure is a subscript out of range |
| Labels.ToSparseRows | src/model.py:196-205 | in the encoding of a batch, row `b` holds exactly text `b`'s label string |
| Labels.LabelsToTextOfEncode | src/model.py:198-225 | the labels of a text decode to the text |
| Labels.EncodeDecodeRoundTrip | src/model.py:189-225 | decoding `to_sparse(texts)` with `bs = len(texts)` gives `texts` back, for any texts over the alphabet |
| Labels.DecoderOutputDecodes | src/model.py:209-225 | decoder output with values below the blank class and rows inside the batch always decodes |
| Labels.DecodedTextsOverAlphabet | src/model.py:225 | every character of a decoded text comes from the alphabet |
| Network.NewModel | src/model.py:164-187 | restore the latest checkpoint when there is one; a required restore without one fails; both counters start at 0 |
| Network.SeqLen | src/model.py:229-234 | one sequence length per image, each the first image's width `// 4`; an empty batch fails on `imgs[0]` |
| Network.TrainFeed | src/model.py:227-234 | the training feed fails exactly on an empty batch or an unknown character; its labels are `to_sparse` of the transcriptions, and they decode back to the transcriptions |
| Network.TrainBatch | src/model.py:227-237 | a training step raises the batch counter by exactly one and changes nothing else but the parameters |
| Network.InferBatch | src/model.py:239-280 | one recognised text per image, the decoding of the decoder output, all over the alphabet; it fails exactly on an empty batch or a subscript out of range; probabilities exactly when asked for |
| Network.Save | src/model.py:282-285 | a save raises the snapshot id by exactly one and stores the current parameters under it |
| Network.RestoreAfterSave | src/model.py:171-185 | with one checkpoint kept, a restore after a save gets the saved parameters back, even when restore is required |
| Metrics.Min3 | src/engRecognition.py:136 | the minimum of three distances |
| Metrics.LevZeroIff | src/engRecognition.py:136 | the edit distance is zero exactly between equal strings |
| Metrics.LevSymmetric | src/engRecognition.py:136 | the edit distance does not depend on argument order |
| Metrics.Lev | src/engRecognition.py:136 | the edit distance lies between the difference of the lengths and the longer length |
| Metrics.Tally | src/engRecognition.py:133-138 | per batch, the counters grow by exactly the summed scores of the recognitions: the word total by their number, the character total by the ground-truth lengths, the word-correct count by the exact matches, the character error count by the sum of the edit distances (unchanged exactly when every word matches); the counters stay consistent; a missing ground truth fails |
| Metrics.ScoreAllMeaning | src/engRecognition.py:133-138 | the summed scores count the words, the ground-truth characters and the exact matches; their edit distances sum to 0 exactly when every word is exact |
| Metrics.ScoreAllConcat | src/engRecognition.py:125-138 | scoring one run of words after another adds the two scores, so the batches of a pass can be counted one at a time |
| Metrics.TallyStep | src/engRecognition.py:133-138 | one more word adds its length, and adds one match exactly when it is exact |
| Metrics.Rates | src/engRecognition.py:143-144 | the rates are the ratios of the counters; a zero total fails; accuracy is at most 1; on consistent counters CER is 0 exactly when accuracy is 1 |
| Metrics.PerfectRecognition | src/engRecognition.py:133-144 | identical recognitions give CER 0 and word accuracy 1 |
| EarlyStopping.Mean | src/engRecognition.py:92 | the average loss times the count is the sum; no batches fails |
| EarlyStopping.AfterEpoch | src/engRecognition.py:87-108 | one entry appended to each summary list; save exactly on a strict improvement over the best; the best never rises; the counter resets on improvement and otherwise grows by one; an epoch without batches fails |
| EarlyStopping.RunEpochs | src/engRecognition.py:71-113 | the loop stops only once the counter reaches the bound, after at least one epoch and within the reports available; an unfinished run has consumed every report |
| EarlyStopping.MinOf | src/engRecognition.py:68-103 | the least CER of a history, +infinity for none |
| EarlyStopping.StartInvariant | src/engRecognition.py:60-69 | the initial state agrees with the empty history |
| EarlyStopping.ImprovesIffRecord | src/engRecognition.py:101 | an epoch improves exactly when its CER is strictly below every earlier one |
| EarlyStopping.RecordsAppend | src/engRecognition.py:101-105 | a new epoch adds itself to the record epochs exactly when it sets a record |
| EarlyStopping.AfterEpochInvariant | src/engRecognition.py:87-108 | each epoch keeps the state in step with the CER history: lists of epoch length, best = minimum, saves = records, counter = epochs since the last record |
| EarlyStopping.RunInvariant | src/engRecognition.py:71-113 | a run keeps that agreement, extends the history, and had the counter below the bound at every earlier epoch; a stop has it at or above the bound |
| EarlyStopping.FirstEpochSaves | src/engRecognition.py:68-105 | the first completed epoch always saves and resets the counter |
| EarlyStopping.NonPositiveBoundStopsAtOnce | src/engRecognition.py:101-113 | a bound of at most 0 stops after the first epoch |
| EarlyStopping.NeverImprovingRunsBoundPlusOne | src/engRecognition.py:71-113 | if no epoch after the first improves and the bound `es >= 1`, exactly `1 + es` epochs run |
| EarlyStopping.StallsUntilBound | src/engRecognition.py:106-113 | without improvement, the loop stops after exactly as many epochs as the counter lacks to reach the bound |
| Recognition.Preprocess | src/engRecognition.py:129 | preprocessing maps every image and keeps the transcriptions and the size |
| Recognition.TrainPass | src/engRecognition.py:76-84 | the pass is exactly training on the drained batches in order (`Recognition.Trained`): the parameters are those `train_batch` produced batch after batch and the losses are its losses, or the first failing batch's error; on success one loss per full batch (`floor(n/bs)`) and the batch counter raised by as many; it can fail only on a character outside the alphabet, and cannot fail when the alphabet covers the training samples |
| Recognition.TrainedPrefixErr | src/engRecognition.py:78-84 | once a training batch fails, the batches after it do not change the outcome of the pass |
| Recognition.Epoch | src/engRecognition.py:71-87 | one epoch (reshuffle, training pass, validation) gives the report and model of `Recognition.EpochOf`: a failed training pass reports its error and keeps the model; otherwise the model is the trained one and the report is validation's error or the losses with the two rates. It leaves the alphabet and snapshot id alone, only reorders the training samples, and cannot fail on an unknown character when the alphabet covers them |
| Recognition.EpochsStep | src/engRecognition.py:71-113 | one link of the chain of epochs: a failed epoch or failed bookkeeping ends it with the epoch's model and the old checkpoint; otherwise the trained model is saved when its error rate improved (the new checkpoint holding its parameters), and the chain ends there when the stall counter reached the bound, or goes on from that model and the reshuffled loader, whatever its mode and cursor |
| Recognition.EpochAndSave | src/engRecognition.py:71-108 | an epoch with its bookkeeping and save is one link of the chain of epochs: the chain ends with this report, the returned model and the latest checkpoint, or goes on from the returned model and loader; a completed epoch trains `floor(n/bs)` batches, and the snapshot id and checkpoint move exactly when the error rate improved, the checkpoint holding the trained parameters |
| Recognition.Round | src/engRecognition.py:71-113 | one iteration of the `while True` loop adds one report; the loop either keeps its invariant (the reports so far followed by the chain from the current model, loader and checkpoint make the chain from the start; one save per improving epoch; `floor(n/bs)` batches per epoch) or ends where the chain from the start ends, with the outcome `train` promises |
| Recognition.TallyBatch | src/engRecognition.py:133-138 | counting one batch turns the summed scores of the recognitions so far into those of the recognitions including this batch, against the transcriptions of all batches so far |
| Recognition.ValidationPass | src/engRecognition.py:125-138 | the loop fails exactly when recognising the drained batches in order fails (`Recognition.Recognized`), with that first error (a subscript out of range); otherwise it returns the summed scores (edit distances, exact matches, lengths, words) of those recognitions against the transcriptions handed out |
| Recognition.RecognizedPrefixErr | src/engRecognition.py:125-130 | once a batch cannot be recognised, the batches after it do not change the outcome of the pass |
| Recognition.RecognizedLength | src/engRecognition.py:130-138 | batches with one image per transcription are recognised into one text per transcription |
| Recognition.Validate | src/engRecognition.py:116-146 | the result is `Recognition.Validated`: the first recognition error of the validation pass, or else the rates of the summed scores of all recognitions against the validation transcriptions (word total the sample count, character total their summed length, word-correct count the exact matches, character errors the summed edit distances); CER 0 goes with accuracy 1; a non-empty validation part without empty texts never divides by zero |
| Recognition.RunExtends | src/engRecognition.py:71-113 | a run that has not ended continues with the next epoch's report |
| Recognition.Train | src/engRecognition.py:57-113 | the reports, the final model and the latest checkpoint are exactly where the chain of epochs from the start ends (`Recognition.Epochs` over `Recognition.EpochOf`, stopping where early stopping stops), so the checkpoint holds the parameters trained in the last improving epoch; every draw is used when the loop is unfinished; the outcome is the epoch state machine run on the reports, one report per epoch; one save per improving epoch, with the latest snapshot kept; `floor(n/bs)` batches trained per completed epoch; no unknown-character failure when the alphabet covers the training samples |
| Recognition.SavedAlphabet | src/engRecognition.py:169-172 | the saved alphabet holds a space and exactly the loader's characters besides; it is unchanged when a space is present, and stays sorted when every character sorts above the space |
| Recognition.PrependSpaceSorted | src/engRecognition.py:171-172 | putting the space in front keeps a sorted alphabet sorted when all characters sort above it |
| Recognition.SavedAlphabetCoversLoader | src/engRecognition.py:167-182 | the saved alphabet covers every training sample (after any reshuffle) and every validation sample |
| Recognition.LoadedValidationHasCharacters | src/engRecognition.py:143-144 | a loaded dataset with at least one sample has a non-empty validation part without empty texts, so validating it never divides by zero |

Two edge cases of the split:

- For a single sample, `int(0.95 * 1) == 0`. The training part is then empty and the sample goes to validation (`Loader.SplitIndexZeroIff`).
- The training loop then runs no batch, and the epoch average `sum/len` fails with a division by zero (`EarlyStopping.Mean`).

## Left out

- The neural network itself is not modelled: the CNN, the bidirectional LSTM, the CTC loss, the greedy decoder, the Adam step and `sess.run`. They are the function parameters `step`, `decode` and `probability` over abstract parameters `P`.
- Checkpoint files are not modelled. The store is at most one `Checkpoint`, matching `max_to_keep=1`.
- Probabilities `np.exp(-loss)` and float arithmetic are not modelled. Rates and losses are exact reals, and CER rounding is not modelled.
- `Loader.SplitIndex`: models `int(0.95 * N)` as `95 * N / 100`. A binary floating-point product can round below an integer for some N.
- `cv2.imread` is not modelled. It is the `read` parameter, and images are opaque values.
- The `Preprocessor` (`src/engRecognition.py:8`) is a per-image function parameter, because its source is not part of this model. Its data-augmentation randomness is folded into that function.
- `Recognition.Preprocess`: `process_batch` also pads every image to the widest image of its batch. That batch-level padding is not modelled, since images are opaque values; the widths `Network.SeqLen` reads are those the per-image function gives.
- `random.shuffle` is not modelled directly. It is Python's Fisher–Yates with the random stream supplied as a sequence of draws (`j = draw % (i + 1)`; a missing draw swaps nothing). Only the permutation property is relied upon.
- `Recognition.Train`: the `while True` loop has no bound of its own. The model bounds it by the number of per-epoch draw sequences, and an unfinished outcome stands for "still running".
- `Recognition.TrainPass`, `Recognition.ValidationPass`, `Recognition.Validate`, `Recognition.Epoch`, `Recognition.EpochAndSave`, `Recognition.Round` and `Recognition.Train` require a batch size of at least 1, the loader's own contract, and negative batch sizes are not modelled. With batch size 0 the Python recogniser fails at once: `has_next` holds on the first iteration of the training loop, and on that of the validation loop unless the validation part is empty, and `get_iterator_info` (`src/engRecognition.py:79` and `:126`) then divides by zero; an empty validation part fails at the division of line 143 instead. `Loader.IteratorInfo` models that failure, and `Recognition.EpochOf` reports it as `DivisionByZero` for a batch size of 0; the loops do not call `Loader.IteratorInfo`, since its result only feeds console output.
- `Metrics.Lev`: `editdistance.eval` is a foreign library, so it is modelled by the reference Levenshtein definition.
- File I/O is not modelled:
  - opening the manifest (the lines are a parameter), and `assert data_dir.exists()`;
  - path normalisation of `Path` joins (paths are plain strings joined with '/');
  - the JSON summary and the character-list and corpus files written in `main` (only the lists they hold are modelled);
  - `fileCharList`.
- Console output is not modelled.
- The `infer` method and the `validate`/`infer` modes of `main` only restore a model and call the operations modelled above.
- The Ukrainian recogniser, the GUI, the database table and the controller are outside the recogniser core.
