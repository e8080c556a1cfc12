/**
 * `get_mnist_op_dataset`: examples made of `n` MNIST images whose label is
 * `op` applied to the `n` digit labels, optionally resampled with
 * `add_overlap`, then taken, shuffled and batched like the plain data set.
 */
module OpDataset {
  import opened Outcomes
  import opened Seqs
  import opened Pipeline
  import opened MnistData
  import opened Operands
  import opened Overlap

  /** One example: the operand images in operand order, and the derived label. */
  datatype OpExample<I, L> = OpExample(operands: seq<I>, result: L)

  /** `img_per_operand` and `label_result` of one split. */
  datatype OpSplit<I, L> = OpSplit(images: seq<seq<I>>, labels: seq<L>)

  /** The random choices made for one split: the `add_overlap` draws and the `tf.data` shuffle. */
  datatype SplitDraws = SplitDraws(resample: Resample, order: seq<nat>)

  predicate ValidDraws(d: SplitDraws, n: nat, count: nat, overlap: bool)
  {
    && (overlap ==> ValidResample(d.resample, n * count))
    && IsPermutation(d.order, count)
  }

  /** Which of the two splits a failure concerns. */
  datatype SplitName = Training | Testing

  /** The failures of `get_mnist_op_dataset`. */
  datatype OpError =
    | InvalidCount(reason: CountError)
      /** `np.apply_along_axis` raises `ValueError` on a split of zero examples. */
    | NoExamples(split: SplitName)
      /** `add_overlap` reads past the end of its shuffled index list: `IndexError`. */
    | IndexOverrun(split: SplitName)

  /**
   * The stride-2 reads of `add_overlap` stay inside the shuffled index list
   * of a split of `n` operands of `count` rows.
   */
  predicate OverlapFits(n: nat, count: nat, draw: Resample)
  {
    ReadsInBounds(2, n, count, n * count + |draw.extras|)
  }

  /**
   * With two or more operands the reads always fit. With one operand they
   * fit exactly when the split has fewer than `extra + 2` rows.
   */
  lemma OverlapFitsExactly(n: nat, count: nat, draw: Resample)
    requires n >= 1 && count >= 1
    ensures n >= 2 ==> OverlapFits(n, count, draw)
    ensures n == 1 ==> (OverlapFits(n, count, draw) <==> count < |draw.extras| + 2)
  {
    if n >= 2 {
      StrideTwoFits(n, count);
    }
  }

  /**
   * The operand arrays and result labels of one split: the first
   * `n * count` rows cut into `n` slices, resampled with `add_overlap` as
   * written (stride 2) when overlap is requested, and the result labels
   * derived from the (possibly resampled) operand labels.
   */
  function OperandSplit<I, L>(
    split: Split<I, L>, n: nat, count: nat, op: seq<L> -> L, overlap: bool, draw: Resample
  ): (r: OpSplit<I, L>)
    requires n >= 1
    requires |split.images| == |split.labels|
    requires n * count <= |split.images|
    requires overlap ==> count >= 1 && ValidResample(draw, n * count) && OverlapFits(n, count, draw)
    ensures |r.images| == n && Rectangular(r.images, count)
    ensures |r.labels| == count
  {
    var parts := OperandLists(Partition(split.images, n, count), Partition(split.labels, n, count));
    PartitionRows(split.images, n, count);
    PartitionRows(split.labels, n, count);
    FlattenRectangularLength(parts.images, count);
    var final := if overlap then AddOverlap(parts, draw) else parts;
    OpSplit(final.images, ApplyAlongOperands(op, final.labels, count))
  }

  /** `from_tensor_slices(tuple(images) + (labels,))`: row `k` takes entry `k` of every array. */
  function OpRows<I, L>(s: OpSplit<I, L>, count: nat): (r: seq<OpExample<I, L>>)
    requires Rectangular(s.images, count) && |s.labels| == count
    ensures |r| == count
    ensures forall k :: 0 <= k < count ==> r[k] == OpExample(Column(s.images, k), s.labels[k])
  {
    seq(count, k requires 0 <= k < count => OpExample(Column(s.images, k), s.labels[k]))
  }

  /** One split of the op data set, taken, shuffled and batched. */
  function OpSplitDataset<I, L>(
    split: Split<I, L>, n: nat, count: nat, op: seq<L> -> L, overlap: bool, draws: SplitDraws, batchSize: nat
  ): (r: seq<seq<OpExample<I, L>>>)
    requires n >= 1
    requires |split.images| == |split.labels|
    requires n * count <= |split.images|
    requires overlap ==> count >= 1 && OverlapFits(n, count, draws.resample)
    requires ValidDraws(draws, n, count, overlap)
    requires batchSize >= 1
    ensures multiset(Flatten(r)) == multiset(OpRows(OperandSplit(split, n, count, op, overlap, draws.resample), count))
    ensures |Flatten(r)| == count
    ensures forall b :: 0 <= b < |r| ==> 1 <= |r[b]| <= batchSize
  {
    var rows := OpRows(OperandSplit(split, n, count, op, overlap, draws.resample), count);
    var taken := Take(rows, count);
    assert taken == rows;
    ShufflePermutes(taken, draws.order);
    Batch(Shuffle(taken, draws.order), batchSize)
  }

  /**
   * `get_mnist_op_dataset`. The count checks come first. Then the label
   * derivation of each split fails on an empty split, the training split
   * first. With overlap requested (a positive `overlap_resample_proportion`)
   * each split is resampled by `add_overlap`, which can read past its index
   * list, again the training split first. Otherwise each split is cut into
   * `n` operand slices of `count` rows, labelled with `op`, and turned into a
   * shuffled, batched data set.
   */
  function GetMnistOpDataset<I, L>(
    data: Mnist<I, L>, countTrain: nat, countTest: nat, batchSize: nat,
    n: nat, op: seq<L> -> L, overlap: bool, trainDraws: SplitDraws, testDraws: SplitDraws
  ): (r: Result<Datasets<OpExample<I, L>>, OpError>)
    requires WellFormed(data)
    requires batchSize >= 1
    requires n >= 1
    requires ValidDraws(trainDraws, n, countTrain, overlap) && ValidDraws(testDraws, n, countTest, overlap)
    ensures r.Ok? <==>
              && countTrain * n <= TrainSize && countTest * n <= TestSize
              && countTrain >= 1 && countTest >= 1
              && (overlap ==> OverlapFits(n, countTrain, trainDraws.resample) && OverlapFits(n, countTest, testDraws.resample))
    ensures countTrain * n > TrainSize ==> r == Err(InvalidCount(TooManyTraining(countTrain, n)))
    ensures countTrain * n <= TrainSize && countTest * n > TestSize ==> r == Err(InvalidCount(TooManyTesting(countTest, n)))
    ensures countTrain * n <= TrainSize && countTest * n <= TestSize ==>
              && (countTrain == 0 ==> r == Err(NoExamples(Training)))
              && (countTrain >= 1 && countTest == 0 ==> r == Err(NoExamples(Testing)))
    ensures countTrain * n <= TrainSize && countTest * n <= TestSize && countTrain >= 1 && countTest >= 1 && overlap ==>
              && (!OverlapFits(n, countTrain, trainDraws.resample) ==> r == Err(IndexOverrun(Training)))
              && (OverlapFits(n, countTrain, trainDraws.resample) && !OverlapFits(n, countTest, testDraws.resample)
                  ==> r == Err(IndexOverrun(Testing)))
    ensures r.Ok? ==> |Flatten(r.value.train)| == countTrain && |Flatten(r.value.test)| == countTest
    ensures r.Ok? ==>
              && multiset(Flatten(r.value.train))
                 == multiset(OpRows(OperandSplit(data.train, n, countTrain, op, overlap, trainDraws.resample), countTrain))
              && multiset(Flatten(r.value.test))
                 == multiset(OpRows(OperandSplit(data.test, n, countTest, op, overlap, testDraws.resample), countTest))
    ensures r.Ok? ==>
              && (forall b :: 0 <= b < |r.value.train| ==> 1 <= |r.value.train[b]| <= batchSize)
              && (forall b :: 0 <= b < |r.value.test| ==> 1 <= |r.value.test[b]| <= batchSize)
  {
    match CheckCounts(countTrain, countTest, n)
    case Fail(e) => Err(InvalidCount(e))
    case Pass =>
      if countTrain == 0 then Err(NoExamples(Training))
      else if countTest == 0 then Err(NoExamples(Testing))
      else if overlap && !OverlapFits(n, countTrain, trainDraws.resample) then Err(IndexOverrun(Training))
      else if overlap && !OverlapFits(n, countTest, testDraws.resample) then Err(IndexOverrun(Testing))
      else
        Ok(Datasets(
             OpSplitDataset(data.train, n, countTrain, op, overlap, trainDraws, batchSize),
             OpSplitDataset(data.test, n, countTest, op, overlap, testDraws, batchSize)))
  }

  /**
   * With two or more operands resampling never overruns, so the call
   * succeeds exactly when both count checks pass and both counts are positive.
   */
  lemma OpDatasetSucceedsForSeveralOperands<I, L>(
    data: Mnist<I, L>, countTrain: nat, countTest: nat, batchSize: nat,
    n: nat, op: seq<L> -> L, overlap: bool, trainDraws: SplitDraws, testDraws: SplitDraws)
    requires WellFormed(data)
    requires batchSize >= 1
    requires n >= 2
    requires ValidDraws(trainDraws, n, countTrain, overlap) && ValidDraws(testDraws, n, countTest, overlap)
    ensures GetMnistOpDataset(data, countTrain, countTest, batchSize, n, op, overlap, trainDraws, testDraws).Ok? <==>
              countTrain * n <= TrainSize && countTest * n <= TestSize && countTrain >= 1 && countTest >= 1
  {
    if countTrain >= 1 && countTest >= 1 {
      OverlapFitsExactly(n, countTrain, trainDraws.resample);
      OverlapFitsExactly(n, countTest, testDraws.resample);
    }
  }

  /** The loader's labels are the ground truth of the images beside them. */
  ghost predicate LabelledBy<I, L>(split: Split<I, L>, truth: I -> L)
  {
    && |split.images| == |split.labels|
    && forall k :: 0 <= k < |split.images| ==> split.labels[k] == truth(split.images[k])
  }

  /** The promise of the docstring: the label of an example is `op` of its operands' digits. */
  ghost predicate Consistent<I, L>(e: OpExample<I, L>, op: seq<L> -> L, truth: I -> L)
  {
    e.result == op(MapSeq(truth, e.operands))
  }

  lemma OperandSplitConsistent<I, L>(
    split: Split<I, L>, n: nat, count: nat, op: seq<L> -> L, overlap: bool, draw: Resample, truth: I -> L)
    requires n >= 1
    requires LabelledBy(split, truth)
    requires n * count <= |split.images|
    requires overlap ==> count >= 1 && ValidResample(draw, n * count) && OverlapFits(n, count, draw)
    ensures forall k :: 0 <= k < count ==>
              && |OpRows(OperandSplit(split, n, count, op, overlap, draw), count)[k].operands| == n
              && Consistent(OpRows(OperandSplit(split, n, count, op, overlap, draw), count)[k], op, truth)
  {
    var parts := OperandLists(Partition(split.images, n, count), Partition(split.labels, n, count));
    PartitionRows(split.images, n, count);
    PartitionRows(split.labels, n, count);
    FlattenRectangularLength(parts.images, count);
    PartitionLabelled(split.images, split.labels, n, count, truth);
    var final := if overlap then AddOverlap(parts, draw) else parts;
    if overlap {
      ResampledPreservesLabelling(parts, draw, 2, truth);
    }
    assert Labelled(final, truth) && Shaped(final, n, count);
    DerivedLabelsMatchImages(op, truth, final, n, count);
  }

  lemma OpSplitDatasetConsistent<I, L>(
    split: Split<I, L>, n: nat, count: nat, op: seq<L> -> L, overlap: bool, draws: SplitDraws,
    batchSize: nat, truth: I -> L)
    requires n >= 1
    requires LabelledBy(split, truth)
    requires n * count <= |split.images|
    requires overlap ==> count >= 1 && OverlapFits(n, count, draws.resample)
    requires ValidDraws(draws, n, count, overlap)
    requires batchSize >= 1
    ensures forall b, k :: 0 <= b < |OpSplitDataset(split, n, count, op, overlap, draws, batchSize)|
                           && 0 <= k < |OpSplitDataset(split, n, count, op, overlap, draws, batchSize)[b]| ==>
              var e := OpSplitDataset(split, n, count, op, overlap, draws, batchSize)[b][k];
              |e.operands| == n && Consistent(e, op, truth)
  {
    var batches: seq<seq<OpExample<I, L>>> := OpSplitDataset(split, n, count, op, overlap, draws, batchSize);
    var rows := OpRows(OperandSplit(split, n, count, op, overlap, draws.resample), count);
    OperandSplitConsistent(split, n, count, op, overlap, draws.resample, truth);
    forall b, k | 0 <= b < |batches| && 0 <= k < |batches[b]|
      ensures |batches[b][k].operands| == n && Consistent(batches[b][k], op, truth)
    {
      FlattenContains(batches, b, k);
      assert batches[b][k] in multiset(rows);
      var idx :| 0 <= idx < |rows| && rows[idx] == batches[b][k];
    }
  }

  /**
   * Every example of both data sets, with or without resampling, has `n`
   * operand images and carries `op` applied to their digits as its label.
   */
  lemma OpDatasetLabelsAgreeWithImages<I, L>(
    data: Mnist<I, L>, countTrain: nat, countTest: nat, batchSize: nat,
    n: nat, op: seq<L> -> L, overlap: bool, trainDraws: SplitDraws, testDraws: SplitDraws, truth: I -> L)
    requires WellFormed(data)
    requires batchSize >= 1
    requires n >= 1
    requires ValidDraws(trainDraws, n, countTrain, overlap) && ValidDraws(testDraws, n, countTest, overlap)
    requires LabelledBy(data.train, truth) && LabelledBy(data.test, truth)
    ensures var r := GetMnistOpDataset(data, countTrain, countTest, batchSize, n, op, overlap, trainDraws, testDraws);
            r.Ok? ==>
              && (forall b, k :: 0 <= b < |r.value.train| && 0 <= k < |r.value.train[b]| ==>
                    |r.value.train[b][k].operands| == n && Consistent(r.value.train[b][k], op, truth))
              && (forall b, k :: 0 <= b < |r.value.test| && 0 <= k < |r.value.test[b]| ==>
                    |r.value.test[b][k].operands| == n && Consistent(r.value.test[b][k], op, truth))
  {
    var r := GetMnistOpDataset(data, countTrain, countTest, batchSize, n, op, overlap, trainDraws, testDraws);
    if r.Ok? {
      OpSplitDatasetConsistent(data.train, n, countTrain, op, overlap, trainDraws, batchSize, truth);
      OpSplitDatasetConsistent(data.test, n, countTest, op, overlap, testDraws, batchSize, truth);
    }
  }

  /**
   * Without resampling, example `k` has rows `k`, `count + k`, ...,
   * `(n - 1) * count + k` of the split as its operands, and `op` of the
   * labels of those same rows, in operand order, as its label.
   */
  lemma OperandSplitWithoutOverlap<I, L>(split: Split<I, L>, n: nat, count: nat, op: seq<L> -> L, draw: Resample)
    requires n >= 1
    requires |split.images| == |split.labels|
    requires n * count <= |split.images|
    ensures forall k :: 0 <= k < count ==>
              OpRows(OperandSplit(split, n, count, op, false, draw), count)[k]
              == OpExample(StridedRows(split.images, n, count, k), op(StridedRows(split.labels, n, count, k)))
  {
    var rows := OpRows(OperandSplit(split, n, count, op, false, draw), count);
    forall k | 0 <= k < count
      ensures rows[k] == OpExample(StridedRows(split.images, n, count, k), op(StridedRows(split.labels, n, count, k)))
    {
      ColumnOfPartition(split.images, n, count, k);
      ColumnOfPartition(split.labels, n, count, k);
    }
  }

  lemma OperandSplitDrawAt<I, L>(split: Split<I, L>, n: nat, count: nat, op: seq<L> -> L, draw: Resample, j: nat, i: nat)
    returns (d: nat)
    requires n >= 1
    requires |split.images| == |split.labels|
    requires n * count <= |split.images|
    requires count >= 1 && ValidResample(draw, n * count) && OverlapFits(n, count, draw)
    requires j < n && i < count
    ensures d < n * count && OperandSplit(split, n, count, op, true, draw).images[j][i] == split.images[d]
  {
    var parts := OperandLists(Partition(split.images, n, count), Partition(split.labels, n, count));
    PartitionRows(split.images, n, count);
    PartitionRows(split.labels, n, count);
    FlattenRectangularLength(parts.images, count);
    PartitionCoversPrefix(split.images, n, count);
    ResampledAt(parts, draw, 2, j, i);
    d := ShuffledIndexes(|Flatten(parts.images)|, draw)[Slot(2, i, j)];
    assert Flatten(parts.images)[d] == split.images[d];
  }

  /**
   * With resampling, every operand image is one of the first `n * count`
   * rows of the split: resampling never reaches past the requested rows.
   */
  lemma OperandSplitDrawsFromPrefix<I, L>(split: Split<I, L>, n: nat, count: nat, op: seq<L> -> L, draw: Resample)
    requires n >= 1
    requires |split.images| == |split.labels|
    requires n * count <= |split.images|
    requires count >= 1 && ValidResample(draw, n * count) && OverlapFits(n, count, draw)
    ensures forall j, i :: 0 <= j < n && 0 <= i < count ==>
              OperandSplit(split, n, count, op, true, draw).images[j][i] in split.images[..n * count]
  {
    forall j, i | 0 <= j < n && 0 <= i < count
      ensures OperandSplit(split, n, count, op, true, draw).images[j][i] in split.images[..n * count]
    {
      var d := OperandSplitDrawAt(split, n, count, op, draw, j, i);
      assert split.images[..n * count][d] == split.images[d];
    }
  }
}
