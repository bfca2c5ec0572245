/**
 The sparse label encoding fed to the CTC loss and the grouping of the CTC
 decoder's sparse output back into one string per batch row
 (src/model.py, `Model.to_sparse` and `Model.decoder_output_to_text`).
 */
module Labels {
  import opened Results

  /** A sparse tensor: `(row, position)` pairs, one value per pair, and the
      dense shape. Integers are unbounded here; `to_sparse` feeds them as
      64-bit indices and 32-bit values. */
  datatype Sparse = Sparse(indices: seq<(int, int)>, values: seq<int>, shape: (int, int))

  /** `charList.index(c)`: the first position of `c`, if any. */
  function IndexOf(xs: seq<char>, c: char): (r: Option<nat>)
    ensures r.Some? <==> c in xs
    ensures r.Some? ==> r.value < |xs| && xs[r.value] == c
                        && forall k :: 0 <= k < r.value ==> xs[k] != c
  {
    if |xs| == 0 then None
    else if xs[0] == c then Some(0)
    else match IndexOf(xs[1..], c)
      case None => None
      case Some(k) => Some(k + 1)
  }

  /** The label string of one text: the alphabet position of each
      character; the first character missing from the alphabet fails. */
  function Encode(charList: seq<char>, text: string): (r: Result<seq<int>>)
    ensures r.Ok? <==> forall c :: c in text ==> c in charList
    ensures r.Err? ==> exists c :: c in text && c !in charList && r.error == UnknownChar(c)
    ensures r.Ok? ==> |r.value| == |text|
    ensures r.Ok? ==> forall i :: 0 <= i < |text| ==>
              0 <= r.value[i] < |charList| && charList[r.value[i]] == text[i]
              && forall k :: 0 <= k < r.value[i] ==> charList[k] != text[i]
  {
    EncodeLabelsMeaning(charList, text);
    EncodeLabels(charList, text)
  }

  /** The list comprehension of `to_sparse`, character after character. */
  function EncodeLabels(charList: seq<char>, text: string): Result<seq<int>>
    decreases |text|
  {
    if |text| == 0 then Ok([])
    else
      match IndexOf(charList, text[0])
      case None => Err(UnknownChar(text[0]))
      case Some(k) =>
        match EncodeLabels(charList, text[1..])
        case Err(e) => Err(e)
        case Ok(rest) => Ok([k as int] + rest)
  }

  lemma {:induction false} EncodeLabelsMeaning(charList: seq<char>, text: string)
    ensures var r := EncodeLabels(charList, text);
            && (r.Ok? <==> forall c :: c in text ==> c in charList)
            && (r.Err? ==> exists c :: c in text && c !in charList && r.error == UnknownChar(c))
            && (r.Ok? ==> |r.value| == |text|)
            && (r.Ok? ==> forall i :: 0 <= i < |text| ==>
                  0 <= r.value[i] < |charList| && charList[r.value[i]] == text[i]
                  && forall k :: 0 <= k < r.value[i] ==> charList[k] != text[i])
    decreases |text|
  {
    if |text| > 0 {
      EncodeLabelsMeaning(charList, text[1..]);
      assert forall c :: c in text <==> c == text[0] || c in text[1..];
      var r := EncodeLabels(charList, text);
      if r.Ok? {
        var rest := EncodeLabels(charList, text[1..]).value;
        forall i | 1 <= i < |text|
          ensures r.value[i] == rest[i - 1] && text[i] == text[1..][i - 1]
        {
        }
      }
    }
  }

  /** Total number of characters in a batch of texts. */
  function TotalLength(texts: seq<string>): nat {
    if |texts| == 0 then 0 else TotalLength(texts[..|texts| - 1]) + |texts[|texts| - 1]|
  }

  lemma {:induction false} TotalLengthConcat(a: seq<string>, b: seq<string>)
    ensures TotalLength(a + b) == TotalLength(a) + TotalLength(b)
    decreases |b|
  {
    if |b| > 0 {
      var n := |b| - 1;
      assert (a + b)[..|a| + n] == a + b[..n];
      TotalLengthConcat(a, b[..n]);
    } else {
      assert a + b == a;
    }
  }

  /** Length of the longest text, 0 for a batch of empty texts or no texts. */
  function MaxLength(texts: seq<string>): (m: nat)
    ensures forall i :: 0 <= i < |texts| ==> |texts[i]| <= m
    ensures m == 0 || exists i :: 0 <= i < |texts| && |texts[i]| == m
  {
    if |texts| == 0 then 0
    else
      var m := MaxLength(texts[..|texts| - 1]);
      var l := |texts[|texts| - 1]|;
      assert forall i :: 0 <= i < |texts| - 1 ==> texts[..|texts| - 1][i] == texts[i];
      if l > m then l else m
  }

  /** Row-major, position-ascending order of sparse indices. */
  predicate Before(a: (int, int), b: (int, int)) {
    a.0 < b.0 || (a.0 == b.0 && a.1 < b.1)
  }

  /** The entries `(row, i)` for a label string placed in row `row`. */
  function RowEntries(row: int, n: nat): (r: seq<(int, int)>)
    ensures |r| == n && forall i :: 0 <= i < n ==> r[i] == (row, i)
  {
    seq(n, i requires 0 <= i < n => (row, i))
  }

  /** What `to_sparse` promises of its result for a batch: one index and
      one value per character of every text; each index inside the texts and
      its value the first alphabet position naming the character there;
      indices in strict row-major order; the shape the batch size by the
      longest text. */
  predicate SparseOf(charList: seq<char>, texts: seq<string>, sp: Sparse) {
    && |sp.indices| == |sp.values| == TotalLength(texts)
    && sp.shape == (|texts|, MaxLength(texts))
    && Placed(charList, texts, sp.indices, sp.values)
    && RowMajor(sp.indices)
  }

  /** Every index lies inside the texts, and its value is an alphabet
      position naming the character there. */
  predicate Placed(charList: seq<char>, texts: seq<string>, indices: seq<(int, int)>, values: seq<int>) {
    forall k :: 0 <= k < |indices| ==>
      var (row, pos) := indices[k];
      && k < |values| && 0 <= row < |texts| && 0 <= pos < |texts[row]|
      && 0 <= values[k] < |charList| && charList[values[k]] == texts[row][pos]
  }

  /** Strict row-major, position-ascending order. */
  predicate RowMajor(indices: seq<(int, int)>) {
    forall j, k :: 0 <= j < k < |indices| ==> Before(indices[j], indices[k])
  }

  /** `to_sparse`: one index and one value per character of every text, in
      row-major order; the shape is the batch size by the longest text. */
  function ToSparse(charList: seq<char>, texts: seq<string>): (r: Result<Sparse>)
    ensures r.Ok? <==> forall t, c :: t in texts && c in t ==> c in charList
    ensures r.Ok? ==> SparseOf(charList, texts, r.value)
  {
    EncodeBatchSparse(charList, texts);
    EncodeBatch(charList, texts)
  }

  /** The loop of `to_sparse`, text after text: the entries of the last text
      follow those of the others, and the shape's second dimension is the
      longest label string so far. */
  function EncodeBatch(charList: seq<char>, texts: seq<string>): Result<Sparse>
    decreases |texts|
  {
    if |texts| == 0 then Ok(Sparse([], [], (0, 0)))
    else
      var n := |texts| - 1;
      match EncodeBatch(charList, texts[..n])
      case Err(e) => Err(e)
      case Ok(prev) =>
        match EncodeLabels(charList, texts[n])
        case Err(e) => Err(e)
        case Ok(labels) =>
          var shape1 := if |labels| > prev.shape.1 then |labels| else prev.shape.1;
          Ok(Sparse(prev.indices + RowEntries(n, |labels|), prev.values + labels, (|texts|, shape1)))
  }

  lemma {:induction false} EncodeBatchSparse(charList: seq<char>, texts: seq<string>)
    ensures var r := EncodeBatch(charList, texts);
            && (r.Ok? <==> forall t, c :: t in texts && c in t ==> c in charList)
            && (r.Ok? ==> SparseOf(charList, texts, r.value))
    decreases |texts|
  {
    if |texts| > 0 {
      var n := |texts| - 1;
      var init := texts[..n];
      assert forall t :: t in texts <==> t in init || t == texts[n];
      EncodeBatchSparse(charList, init);
      if EncodeBatch(charList, init).Ok? && Encode(charList, texts[n]).Ok? {
        ToSparseStep(charList, texts, EncodeBatch(charList, init).value, Encode(charList, texts[n]).value);
      }
    }
  }

  /** Appending the last text's entries to the encoding of the others
      encodes the whole batch. */
  lemma ToSparseStep(charList: seq<char>, texts: seq<string>, prev: Sparse, labels: seq<int>)
    requires |texts| > 0
    requires SparseOf(charList, texts[..|texts| - 1], prev)
    requires Encode(charList, texts[|texts| - 1]) == Ok(labels)
    ensures var n := |texts| - 1;
            var shape1 := if |labels| > prev.shape.1 then |labels| else prev.shape.1;
            SparseOf(charList, texts, Sparse(prev.indices + RowEntries(n, |labels|), prev.values + labels, (|texts|, shape1)))
  {
    var n := |texts| - 1;
    var init := texts[..n];
    assert TotalLength(texts) == TotalLength(init) + |texts[n]|;
    PlacedAppend(charList, texts, prev.indices, prev.values, labels);
    forall k | 0 <= k < |prev.indices|
      ensures prev.indices[k].0 < n
    {
      assert Placed(charList, init, prev.indices, prev.values);
    }
    RowMajorAppend(prev.indices, n, |labels|);
  }

  lemma PlacedAppend(charList: seq<char>, texts: seq<string>, indices: seq<(int, int)>, values: seq<int>,
                     labels: seq<int>)
    requires |texts| > 0 && |indices| == |values|
    requires Placed(charList, texts[..|texts| - 1], indices, values)
    requires Encode(charList, texts[|texts| - 1]) == Ok(labels)
    ensures Placed(charList, texts, indices + RowEntries(|texts| - 1, |labels|), values + labels)
  {
    var n := |texts| - 1;
    var ents := RowEntries(n, |labels|);
    var idx, vs := indices + ents, values + labels;
    var m := |indices|;
    forall k | 0 <= k < |idx|
      ensures var (row, pos) := idx[k];
              && k < |vs| && 0 <= row < |texts| && 0 <= pos < |texts[row]|
              && 0 <= vs[k] < |charList| && charList[vs[k]] == texts[row][pos]
    {
      if k < m {
        assert idx[k] == indices[k] && vs[k] == values[k];
        assert texts[indices[k].0] == texts[..n][indices[k].0];
      } else {
        assert idx[k] == (n, k - m) && vs[k] == labels[k - m];
      }
    }
  }

  lemma RowMajorAppend(indices: seq<(int, int)>, row: int, len: nat)
    requires RowMajor(indices)
    requires forall k :: 0 <= k < |indices| ==> indices[k].0 < row
    ensures RowMajor(indices + RowEntries(row, len))
  {
    var ents := RowEntries(row, len);
    var idx := indices + ents;
    var m := |indices|;
    forall j, k | 0 <= j < k < |idx|
      ensures Before(idx[j], idx[k])
    {
      if k < m {
        assert idx[j] == indices[j] && idx[k] == indices[k];
      } else if j < m {
        assert idx[j] == indices[j] && idx[k] == ents[k - m];
      } else {
        assert idx[j] == ents[j - m] && idx[k] == ents[k - m];
      }
    }
  }

  /** The encoding fails only on a character outside the alphabet. */
  lemma ToSparseError(charList: seq<char>, texts: seq<string>)
    requires ToSparse(charList, texts).Err?
    ensures ToSparse(charList, texts).error.UnknownChar?
    ensures ToSparse(charList, texts).error.c !in charList
  {
    EncodeBatchError(charList, texts);
  }

  lemma {:induction false} EncodeBatchError(charList: seq<char>, texts: seq<string>)
    requires EncodeBatch(charList, texts).Err?
    ensures EncodeBatch(charList, texts).error.UnknownChar?
    ensures EncodeBatch(charList, texts).error.c !in charList
    decreases |texts|
  {
    var n := |texts| - 1;
    if EncodeBatch(charList, texts[..n]).Err? {
      EncodeBatchError(charList, texts[..n]);
    } else {
      assert Encode(charList, texts[n]) == EncodeLabels(charList, texts[n]);
    }
  }

  // ----- decoding -------------------------------------------------------

  /** Python list subscripting: `-n <= i < 0` counts from the end. */
  function PyIndex(i: int, n: nat): (r: Option<nat>)
    ensures r.Some? <==> -(n as int) <= i < n
    ensures r.Some? ==> r.value < n && (r.value == i || r.value == n + i)
  {
    if 0 <= i < n then Some(i) else if -(n as int) <= i < 0 then Some(n + i) else None
  }

  /** The loop of `decoder_output_to_text` over the first `m` entries:
      append each value to the label list of its row. */
  function GroupRows(decoded: Sparse, m: nat, batchSize: nat): (r: Result<seq<seq<int>>>)
    requires m <= |decoded.indices|
    ensures r.Ok? ==> |r.value| == batchSize
    ensures r.Err? ==> r.error == IndexOutOfRange
    decreases m
  {
    if m == 0 then Ok(seq(batchSize, _ => []))
    else
      match GroupRows(decoded, m - 1, batchSize)
      case Err(e) => Err(e)
      case Ok(rows) =>
        if m - 1 >= |decoded.values| then Err(IndexOutOfRange)
        else
          match PyIndex(decoded.indices[m - 1].0, batchSize)
          case None => Err(IndexOutOfRange)
          case Some(b) => Ok(rows[b := rows[b] + [decoded.values[m - 1]]])
  }

  /** `''.join([charList[c] for c in labels])`. */
  function LabelsToText(charList: seq<char>, labels: seq<int>): (r: Result<string>)
    ensures r.Ok? <==> forall i :: 0 <= i < |labels| ==> PyIndex(labels[i], |charList|).Some?
    ensures r.Err? ==> r.error == IndexOutOfRange
    ensures r.Ok? ==> |r.value| == |labels|
    ensures r.Ok? ==> forall i :: 0 <= i < |labels| ==> r.value[i] == charList[PyIndex(labels[i], |charList|).value]
    decreases |labels|
  {
    if |labels| == 0 then Ok("")
    else
      match PyIndex(labels[0], |charList|)
      case None => Err(IndexOutOfRange)
      case Some(k) =>
        match LabelsToText(charList, labels[1..])
        case Err(e) => Err(e)
        case Ok(rest) =>
          assert forall i :: 1 <= i < |labels| ==> labels[1..][i - 1] == labels[i];
          Ok([charList[k]] + rest)
  }

  function RowsToTexts(charList: seq<char>, rows: seq<seq<int>>): (r: Result<seq<string>>)
    ensures r.Ok? ==> |r.value| == |rows|
    ensures r.Ok? ==> forall b :: 0 <= b < |rows| ==> LabelsToText(charList, rows[b]) == Ok(r.value[b])
    ensures r.Err? ==> r.error == IndexOutOfRange
    decreases |rows|
  {
    if |rows| == 0 then Ok([])
    else
      match LabelsToText(charList, rows[0])
      case Err(e) => Err(e)
      case Ok(t) =>
        match RowsToTexts(charList, rows[1..])
        case Err(e) => Err(e)
        case Ok(rest) => Ok([t] + rest)
  }

  /** `decoder_output_to_text(decoded, batchSize)`. */
  function DecoderOutputToText(charList: seq<char>, decoded: Sparse, batchSize: nat): (r: Result<seq<string>>)
    ensures r.Ok? ==> |r.value| == batchSize
    ensures r.Err? ==> r.error == IndexOutOfRange
  {
    match GroupRows(decoded, |decoded.indices|, batchSize)
    case Err(e) => Err(e)
    case Ok(rows) => RowsToTexts(charList, rows)
  }

  // ----- reference: the labels of one row --------------------------------

  /** The values of the entries whose row subscript selects row `b`, in
      entry order. */
  function RowLabels(indices: seq<(int, int)>, values: seq<int>, batchSize: nat, b: nat): seq<int>
    requires |indices| <= |values|
    decreases |indices|
  {
    if |indices| == 0 then []
    else
      var n := |indices| - 1;
      RowLabels(indices[..n], values, batchSize, b)
        + (if PyIndex(indices[n].0, batchSize) == Some(b) then [values[n]] else [])
  }

  /** The grouping loop collects, for every row, exactly the values of the
      entries addressed to it, in entry order; rows nobody addresses stay empty. */
  lemma {:induction false} GroupRowsCollects(decoded: Sparse, m: nat, batchSize: nat)
    requires m <= |decoded.indices| && m <= |decoded.values|
    requires GroupRows(decoded, m, batchSize).Ok?
    ensures var rows := GroupRows(decoded, m, batchSize).value;
            forall b :: 0 <= b < batchSize ==>
              rows[b] == RowLabels(decoded.indices[..m], decoded.values, batchSize, b)
    decreases m
  {
    if m > 0 {
      GroupRowsCollects(decoded, m - 1, batchSize);
      var idx := decoded.indices[..m];
      assert idx[..m - 1] == decoded.indices[..m - 1];
    }
  }

  /** The grouping succeeds exactly when every entry has a value and a row
      subscript within the batch. */
  lemma {:induction false} GroupRowsOkIff(decoded: Sparse, m: nat, batchSize: nat)
    requires m <= |decoded.indices|
    ensures GroupRows(decoded, m, batchSize).Ok?
            <==> m <= |decoded.values|
                 && forall k :: 0 <= k < m ==> PyIndex(decoded.indices[k].0, batchSize).Some?
    decreases m
  {
    if m > 0 {
      GroupRowsOkIff(decoded, m - 1, batchSize);
    }
  }

  lemma {:induction false} RowLabelsAppend(i1: seq<(int, int)>, v1: seq<int>, i2: seq<(int, int)>, v2: seq<int>,
                                           batchSize: nat, b: nat)
    requires |i1| == |v1| && |i2| == |v2|
    ensures RowLabels(i1 + i2, v1 + v2, batchSize, b)
            == RowLabels(i1, v1, batchSize, b) + RowLabels(i2, v2, batchSize, b)
    decreases |i2|
  {
    if |i2| == 0 {
      assert i1 + i2 == i1;
      RowLabelsValues(i1, v1, v1 + v2, batchSize, b);
    } else {
      var n := |i2| - 1;
      assert (i1 + i2)[..|i1| + n] == i1 + i2[..n];
      RowLabelsAppend(i1, v1, i2[..n], v2[..n], batchSize, b);
      RowLabelsValues(i1 + i2[..n], v1 + v2[..n], v1 + v2, batchSize, b);
      RowLabelsValues(i2[..n], v2[..n], v2, batchSize, b);
      var lhs := RowLabels(i1 + i2, v1 + v2, batchSize, b);
      assert (v1 + v2)[|i1| + n] == v2[n];
      assert lhs == RowLabels(i1 + i2[..n], v1 + v2, batchSize, b)
                    + (if PyIndex(i2[n].0, batchSize) == Some(b) then [v2[n]] else []);
    }
  }

  /** Only the values paired with an index matter. */
  lemma {:induction false} RowLabelsValues(indices: seq<(int, int)>, v: seq<int>, w: seq<int>, batchSize: nat, b: nat)
    requires |indices| <= |v| && |indices| <= |w|
    requires forall k :: 0 <= k < |indices| ==> v[k] == w[k]
    ensures RowLabels(indices, v, batchSize, b) == RowLabels(indices, w, batchSize, b)
    decreases |indices|
  {
    if |indices| > 0 {
      RowLabelsValues(indices[..|indices| - 1], v, w, batchSize, b);
    }
  }

  /** A label string placed in row `row` contributes to that row only. */
  lemma {:induction false} RowLabelsOfRow(row: nat, labels: seq<int>, batchSize: nat, b: nat)
    requires row < batchSize
    ensures RowLabels(RowEntries(row, |labels|), labels, batchSize, b) == if b == row then labels else []
    decreases |labels|
  {
    if |labels| > 0 {
      var n := |labels| - 1;
      var e := RowEntries(row, |labels|);
      var front := RowEntries(row, n);
      assert e[..n] == front;
      assert e[n].0 == row;
      assert PyIndex(row, batchSize) == Some(row);
      var last: seq<int> := if b == row then [labels[n]] else [];
      assert RowLabels(e, labels, batchSize, b) == RowLabels(front, labels, batchSize, b) + last;
      RowLabelsOfRow(row, labels[..n], batchSize, b);
      RowLabelsValues(front, labels[..n], labels, batchSize, b);
      if b == row {
        assert labels[..n] + [labels[n]] == labels;
      }
    }
  }

  /** Each row of an encoded batch holds that text's label string. */
  lemma ToSparseRows(charList: seq<char>, texts: seq<string>, batchSize: nat, b: nat)
    requires ToSparse(charList, texts).Ok? && |texts| <= batchSize && b < batchSize
    ensures var sp := ToSparse(charList, texts).value;
            && |sp.indices| == |sp.values|
            && Ok(RowLabels(sp.indices, sp.values, batchSize, b))
               == if b < |texts| then Encode(charList, texts[b]) else Ok([])
  {
    EncodeBatchRows(charList, texts, batchSize, b);
    if b < |texts| {
      assert Encode(charList, texts[b]) == EncodeLabels(charList, texts[b]);
    }
  }

  lemma {:induction false} EncodeBatchRows(charList: seq<char>, texts: seq<string>, batchSize: nat, b: nat)
    requires EncodeBatch(charList, texts).Ok? && |texts| <= batchSize && b < batchSize
    ensures var sp := EncodeBatch(charList, texts).value;
            && |sp.indices| == |sp.values|
            && Ok(RowLabels(sp.indices, sp.values, batchSize, b))
               == if b < |texts| then EncodeLabels(charList, texts[b]) else Ok([])
    decreases |texts|
  {
    if |texts| > 0 {
      var n := |texts| - 1;
      var init := texts[..n];
      var prev := EncodeBatch(charList, init).value;
      var labels := EncodeLabels(charList, texts[n]).value;
      var sp := EncodeBatch(charList, texts).value;
      assert EncodeLabels(charList, texts[n]) == Ok(labels);
      assert sp.indices == prev.indices + RowEntries(n, |labels|) && sp.values == prev.values + labels;
      assert |prev.indices| == |prev.values|
             && Ok(RowLabels(prev.indices, prev.values, batchSize, b))
                == if b < n then EncodeLabels(charList, init[b]) else Ok([]) by {
        EncodeBatchRows(charList, init, batchSize, b);
      }
      var before := RowLabels(prev.indices, prev.values, batchSize, b);
      assert RowLabels(sp.indices, sp.values, batchSize, b) == before + if b == n then labels else [] by {
        RowsAfterAppend(prev.indices, prev.values, labels, n, batchSize, b);
      }
      if b < n {
        assert init[b] == texts[b];
        assert before + [] == before;
      } else if b == n {
        assert before == [];
        assert [] + labels == labels;
      } else {
        assert before == [] && before + [] == [];
      }
    }
  }

  /** Appending the entries of row `row` leaves every other row as it was
      and puts `labels` after the empty row `row` held before. */
  lemma RowsAfterAppend(indices: seq<(int, int)>, values: seq<int>, labels: seq<int>, row: nat, batchSize: nat, b: nat)
    requires |indices| == |values| && row < batchSize
    ensures RowLabels(indices + RowEntries(row, |labels|), values + labels, batchSize, b)
            == RowLabels(indices, values, batchSize, b) + if b == row then labels else []
  {
    RowLabelsAppend(indices, values, RowEntries(row, |labels|), labels, batchSize, b);
    RowLabelsOfRow(row, labels, batchSize, b);
  }

  /** The labels of a text map back to the text. */
  lemma LabelsToTextOfEncode(charList: seq<char>, text: string)
    requires Encode(charList, text).Ok?
    ensures LabelsToText(charList, Encode(charList, text).value) == Ok(text)
  {
    var labels := Encode(charList, text).value;
    forall i | 0 <= i < |labels|
      ensures PyIndex(labels[i], |charList|) == Some(labels[i] as nat)
    {
    }
    var r := LabelsToText(charList, labels);
    assert r.Ok?;
    forall i | 0 <= i < |text|
      ensures r.value[i] == text[i]
    {
    }
    assert r.value == text;
  }

  /** Round trip: decoding the sparse encoding of a batch, with the batch
      size as row count, gives the batch back, for any texts over the alphabet. */
  lemma EncodeDecodeRoundTrip(charList: seq<char>, texts: seq<string>)
    requires forall t, c :: t in texts && c in t ==> c in charList
    ensures ToSparse(charList, texts).Ok?
    ensures DecoderOutputToText(charList, ToSparse(charList, texts).value, |texts|) == Ok(texts)
  {
    var sp := ToSparse(charList, texts).value;
    var n := |texts|;
    GroupRowsOkIff(sp, |sp.indices|, n);
    var rows := GroupRows(sp, |sp.indices|, n).value;
    GroupRowsCollects(sp, |sp.indices|, n);
    assert sp.indices[..|sp.indices|] == sp.indices;
    forall b | 0 <= b < n
      ensures LabelsToText(charList, rows[b]) == Ok(texts[b])
    {
      ToSparseRows(charList, texts, n, b);
      assert texts[b] in texts;
      LabelsToTextOfEncode(charList, texts[b]);
    }
    RowsToTextsOk(charList, rows, texts);
  }

  lemma {:induction false} RowsToTextsOk(charList: seq<char>, rows: seq<seq<int>>, texts: seq<string>)
    requires |rows| == |texts|
    requires forall b :: 0 <= b < |rows| ==> LabelsToText(charList, rows[b]) == Ok(texts[b])
    ensures RowsToTexts(charList, rows) == Ok(texts)
    decreases |rows|
  {
    if |rows| > 0 {
      RowsToTextsOk(charList, rows[1..], texts[1..]);
      assert [texts[0]] + texts[1..] == texts;
    }
  }

  /** A greedy CTC decoder only emits class indices below the blank class
      `|charList|`, with rows inside the batch; such output always decodes. */
  lemma DecoderOutputDecodes(charList: seq<char>, decoded: Sparse, batchSize: nat)
    requires |decoded.values| == |decoded.indices|
    requires forall k :: 0 <= k < |decoded.indices| ==> 0 <= decoded.indices[k].0 < batchSize
    requires forall k :: 0 <= k < |decoded.values| ==> 0 <= decoded.values[k] < |charList|
    ensures DecoderOutputToText(charList, decoded, batchSize).Ok?
  {
    var m := |decoded.indices|;
    GroupRowsOkIff(decoded, m, batchSize);
    var rows := GroupRows(decoded, m, batchSize).value;
    GroupRowsCollects(decoded, m, batchSize);
    assert decoded.indices[..m] == decoded.indices;
    forall b | 0 <= b < batchSize
      ensures LabelsToText(charList, rows[b]).Ok?
    {
      RowLabelsInRange(decoded.indices, decoded.values, batchSize, b, |charList|);
    }
    RowsToTextsDefined(charList, rows);
  }

  lemma {:induction false} RowLabelsInRange(indices: seq<(int, int)>, values: seq<int>, batchSize: nat, b: nat, bound: nat)
    requires |indices| <= |values|
    requires forall k :: 0 <= k < |values| ==> 0 <= values[k] < bound
    ensures forall i :: 0 <= i < |RowLabels(indices, values, batchSize, b)| ==>
              0 <= RowLabels(indices, values, batchSize, b)[i] < bound
    decreases |indices|
  {
    if |indices| > 0 {
      RowLabelsInRange(indices[..|indices| - 1], values, batchSize, b, bound);
    }
  }

  lemma {:induction false} RowsToTextsDefined(charList: seq<char>, rows: seq<seq<int>>)
    requires forall b :: 0 <= b < |rows| ==> LabelsToText(charList, rows[b]).Ok?
    ensures RowsToTexts(charList, rows).Ok?
    decreases |rows|
  {
    if |rows| > 0 {
      RowsToTextsDefined(charList, rows[1..]);
    }
  }

  /** Every character of a decoded text comes from the alphabet. */
  lemma DecodedTextsOverAlphabet(charList: seq<char>, decoded: Sparse, batchSize: nat)
    requires DecoderOutputToText(charList, decoded, batchSize).Ok?
    ensures forall t, c :: t in DecoderOutputToText(charList, decoded, batchSize).value && c in t ==> c in charList
  {
    var texts := DecoderOutputToText(charList, decoded, batchSize).value;
    var rows := GroupRows(decoded, |decoded.indices|, batchSize).value;
    forall t, c | t in texts && c in t
      ensures c in charList
    {
      var b :| 0 <= b < |texts| && texts[b] == t;
      var i :| 0 <= i < |t| && t[i] == c;
      assert LabelsToText(charList, rows[b]) == Ok(t);
    }
  }
}
