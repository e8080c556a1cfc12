/**
 * The MNIST splits as the loader hands them over, the request-size checks,
 * and the plain (image, label) datasets of `get_mnist_dataset`.
 */
module MnistData {
  import opened Outcomes
  import opened Seqs
  import opened Pipeline

  /** Number of examples in the MNIST training split. */
  const TrainSize: nat := 60000
  /** Number of examples in the MNIST test split. */
  const TestSize: nat := 10000

  /** One split of the data set: parallel arrays of images and their labels. */
  datatype Split<I, L> = Split(images: seq<I>, labels: seq<L>)

  /** Both splits, as returned by the loader. */
  datatype Mnist<I, L> = Mnist(train: Split<I, L>, test: Split<I, L>)

  /** The shape the loader delivers: parallel arrays of 60000 and 10000 examples. */
  predicate WellFormed<I, L>(m: Mnist<I, L>)
  {
    && |m.train.images| == |m.train.labels| == TrainSize
    && |m.test.images| == |m.test.labels| == TestSize
  }

  /** The `ValueError`s raised for oversized requests; `operands` is 1 for the plain data set. */
  datatype CountError =
    | TooManyTraining(count: nat, operands: nat)
    | TooManyTesting(count: nat, operands: nat)

  /**
   * The checks that open both data set builders: the training request is
   * checked first, then the test request; a request is rejected only when it
   * asks for strictly more rows than the split holds.
   */
  function CheckCounts(countTrain: nat, countTest: nat, operands: nat): (r: Outcome<CountError>)
    ensures r.Pass? <==> countTrain * operands <= TrainSize && countTest * operands <= TestSize
    ensures r == Fail(TooManyTraining(countTrain, operands)) <==> countTrain * operands > TrainSize
    ensures (r == Fail(TooManyTesting(countTest, operands)))
        <==> (countTrain * operands <= TrainSize && countTest * operands > TestSize)
  {
    if countTrain * operands > TrainSize then Fail(TooManyTraining(countTrain, operands))
    else if countTest * operands > TestSize then Fail(TooManyTesting(countTest, operands))
    else Pass
  }

  /** Training and test data sets, each a sequence of batches. */
  datatype Datasets<T> = Datasets(train: seq<seq<T>>, test: seq<seq<T>>)

  /** `from_tensor_slices((images, labels)).take(count).shuffle(..).batch(batchSize)`. */
  function PairDataset<I, L>(split: Split<I, L>, count: nat, order: seq<nat>, batchSize: nat): (r: seq<seq<(I, L)>>)
    requires |split.images| == |split.labels|
    requires count <= |split.images|
    requires IsPermutation(order, count)
    requires batchSize >= 1
    ensures multiset(Flatten(r)) == multiset(Zip(split.images, split.labels)[..count])
    ensures |Flatten(r)| == count
    ensures forall b :: 0 <= b < |r| ==> 1 <= |r[b]| <= batchSize
  {
    var taken := Take(Zip(split.images, split.labels), count);
    ShufflePermutes(taken, order);
    Batch(Shuffle(taken, order), batchSize)
  }

  /**
   * `get_mnist_dataset`: after the count checks, the first `countTrain`
   * training pairs and the first `countTest` test pairs, each shuffled by the
   * given permutation and cut into batches. The loader is not modelled; its
   * output is the parameter `data`.
   */
  function GetMnistDataset<I, L>(
    data: Mnist<I, L>, countTrain: nat, countTest: nat, batchSize: nat,
    trainOrder: seq<nat>, testOrder: seq<nat>
  ): (r: Result<Datasets<(I, L)>, CountError>)
    requires WellFormed(data)
    requires batchSize >= 1
    requires IsPermutation(trainOrder, countTrain) && IsPermutation(testOrder, countTest)
    ensures r.Ok? <==> countTrain <= TrainSize && countTest <= TestSize
    ensures countTrain > TrainSize ==> r == Err(TooManyTraining(countTrain, 1))
    ensures countTrain <= TrainSize && countTest > TestSize ==> r == Err(TooManyTesting(countTest, 1))
    ensures r.Ok? ==>
              && multiset(Flatten(r.value.train)) == multiset(Zip(data.train.images, data.train.labels)[..countTrain])
              && multiset(Flatten(r.value.test)) == multiset(Zip(data.test.images, data.test.labels)[..countTest])
    ensures r.Ok? ==> |Flatten(r.value.train)| == countTrain && |Flatten(r.value.test)| == countTest
  {
    match CheckCounts(countTrain, countTest, 1)
    case Fail(e) => Err(e)
    case Pass =>
      Ok(Datasets(
           PairDataset(data.train, countTrain, trainOrder, batchSize),
           PairDataset(data.test, countTest, testOrder, batchSize)))
  }
}
