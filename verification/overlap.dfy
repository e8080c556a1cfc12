/**
 * `add_overlap`: the resampling step. All digits of all operands
 * are pooled, `extra` randomly drawn pool positions are appended to the list
 * of pool positions, the list is shuffled, and the output operands are read
 * from the shuffled list. The random draws are parameters: `extras` holds the
 * appended positions and `perm` is the shuffle.
 */
module Overlap {
  import opened Seqs
  import opened Operands

  /** The random choices of one call: the appended positions and the shuffle. */
  datatype Resample = Resample(extras: seq<nat>, perm: seq<nat>)

  /**
   * What the random draws can be: every appended position is drawn from the
   * pool (`np.random.randint(0, num_digits)` excludes its upper bound), and
   * the shuffle is a permutation of the whole index list.
   */
  predicate ValidResample(draw: Resample, numDigits: nat)
  {
    && (forall e :: 0 <= e < |draw.extras| ==> draw.extras[e] < numDigits)
    && IsPermutation(draw.perm, numDigits + |draw.extras|)
  }

  /** `list(range(num_digits))` followed by the appended draws, then shuffled. */
  function ShuffledIndexes(numDigits: nat, draw: Resample): (r: seq<nat>)
    requires ValidResample(draw, numDigits)
    ensures |r| == numDigits + |draw.extras|
    ensures forall q :: 0 <= q < |r| ==> r[q] < numDigits
    ensures multiset(r) == multiset(Range(numDigits)) + multiset(draw.extras)
    ensures forall d :: 0 <= d < numDigits ==> d in r
    ensures forall q :: 0 <= q < |r| ==> r[q] == (Range(numDigits) + draw.extras)[draw.perm[q]]
  {
    var indexes := Range(numDigits) + draw.extras;
    ShufflePermutes(indexes, draw.perm);
    var r := Shuffle(indexes, draw.perm);
    IndexesCoverPool(numDigits, draw.extras, r);
    r
  }

  lemma IndexesCoverPool(numDigits: nat, extras: seq<nat>, shuffled: seq<nat>)
    requires multiset(shuffled) == multiset(Range(numDigits) + extras)
    ensures forall d :: 0 <= d < numDigits ==> d in shuffled
  {
    var indexes := Range(numDigits) + extras;
    forall d | 0 <= d < numDigits
      ensures d in shuffled
    {
      assert indexes[d] == d;
      assert d in multiset(indexes);
    }
  }

  /**
   * Every read stays inside the index list. Output operand `j` of pair `i`
   * is read from position `i * stride + j`; the last read, for pair
   * `numPairs - 1` and operand `n - 1`, is at `(numPairs - 1) * stride + n - 1`.
   */
  predicate ReadsInBounds(stride: nat, n: nat, numPairs: nat, total: nat)
  {
    numPairs == 0 || (numPairs - 1) * stride + n - 1 < total
  }

  /** Position `i * stride + j` of the shuffled index list: output operand `j` of pair `i`. */
  function Slot(stride: nat, i: nat, j: nat): nat
  {
    i * stride + j
  }

  lemma ReadFits(stride: nat, n: nat, numPairs: nat, total: nat, i: nat, j: nat)
    requires ReadsInBounds(stride, n, numPairs, total)
    requires i < numPairs && j < n
    ensures Slot(stride, i, j) < total
  {
    assert (numPairs - 1) * stride == (numPairs - 1 - i) * stride + i * stride;
  }

  lemma AllReadsFit(stride: nat, n: nat, numPairs: nat, total: nat)
    requires ReadsInBounds(stride, n, numPairs, total)
    ensures forall i: nat, j: nat :: i < numPairs && j < n ==> Slot(stride, i, j) < total
  {
    forall i: nat, j: nat | i < numPairs && j < n
      ensures Slot(stride, i, j) < total
    {
      ReadFits(stride, n, numPairs, total, i, j);
    }
  }

  /** The pool position that output operand `j` of pair `i` is read from. */
  function SourceIndex(indexes: seq<nat>, stride: nat, i: nat, j: nat): nat
    requires Slot(stride, i, j) < |indexes|
  {
    indexes[Slot(stride, i, j)]
  }

  /**
   * The array one output operand is built from: entry `i` is the pooled
   * entry at shuffled position `i * stride + j`.
   */
  function ReadOperand<T>(pool: seq<T>, indexes: seq<nat>, stride: nat, j: nat, numPairs: nat): (r: seq<T>)
    requires forall q :: 0 <= q < |indexes| ==> indexes[q] < |pool|
    requires forall i: nat :: i < numPairs ==> Slot(stride, i, j) < |indexes|
    ensures |r| == numPairs
    ensures forall i: nat :: i < numPairs ==> r[i] == pool[SourceIndex(indexes, stride, i, j)]
  {
    seq(numPairs, i requires 0 <= i < numPairs => pool[SourceIndex(indexes, stride, i, j)])
  }

  /**
   * The body of `add_overlap` with the stride of its reads as a parameter.
   * The number of operands is the number of image arrays and the number of
   * pairs is the length of the first one; output operand `j` of pair `i` is
   * the pooled digit at position `i * stride + j` of the shuffled index list.
   */
  function Resampled<I, L>(ol: OperandLists<I, L>, draw: Resample, stride: nat): (r: OperandLists<I, L>)
    requires |ol.images| >= 1
    requires SameShape(ol.images, ol.labels)
    requires ValidResample(draw, |Flatten(ol.images)|)
    requires ReadsInBounds(stride, |ol.images|, |ol.images[0]|, |Flatten(ol.images)| + |draw.extras|)
    ensures Shaped(r, |ol.images|, |ol.images[0]|)
    ensures |Flatten(ol.labels)| == |Flatten(ol.images)|
    ensures forall j :: 0 <= j < |ol.images| ==>
              && r.images[j] == ReadOperand(Flatten(ol.images), ShuffledIndexes(|Flatten(ol.images)|, draw), stride, j, |ol.images[0]|)
              && r.labels[j] == ReadOperand(Flatten(ol.labels), ShuffledIndexes(|Flatten(ol.images)|, draw), stride, j, |ol.images[0]|)
  {
    var n := |ol.images|;
    var numPairs := |ol.images[0]|;
    var images := Flatten(ol.images);
    var labels := Flatten(ol.labels);
    FlattenSameShape(ol.images, ol.labels);
    var indexes := ShuffledIndexes(|images|, draw);
    AllReadsFit(stride, n, numPairs, |indexes|);
    OperandLists(
      seq(n, j requires 0 <= j < n => ReadOperand(images, indexes, stride, j, numPairs)),
      seq(n, j requires 0 <= j < n => ReadOperand(labels, indexes, stride, j, numPairs)))
  }

  /** Output operand `j` of pair `i` is the pooled (image, label) pair at shuffled slot `Slot(stride, i, j)`. */
  lemma ResampledAt<I, L>(ol: OperandLists<I, L>, draw: Resample, stride: nat, j: nat, i: nat)
    requires |ol.images| >= 1
    requires SameShape(ol.images, ol.labels)
    requires ValidResample(draw, |Flatten(ol.images)|)
    requires ReadsInBounds(stride, |ol.images|, |ol.images[0]|, |Flatten(ol.images)| + |draw.extras|)
    requires j < |ol.images| && i < |ol.images[0]|
    ensures Slot(stride, i, j) < |ShuffledIndexes(|Flatten(ol.images)|, draw)|
    ensures ShuffledIndexes(|Flatten(ol.images)|, draw)[Slot(stride, i, j)] < |Flatten(ol.images)| == |Flatten(ol.labels)|
    ensures Resampled(ol, draw, stride).images[j][i]
            == Flatten(ol.images)[ShuffledIndexes(|Flatten(ol.images)|, draw)[Slot(stride, i, j)]]
    ensures Resampled(ol, draw, stride).labels[j][i]
            == Flatten(ol.labels)[ShuffledIndexes(|Flatten(ol.images)|, draw)[Slot(stride, i, j)]]
  {
    var indexes := ShuffledIndexes(|Flatten(ol.images)|, draw);
    ReadFits(stride, |ol.images|, |ol.images[0]|, |indexes|, i, j);
    FlattenSameShape(ol.images, ol.labels);
  }

  /**
   * `add_overlap` as written: output operand `j` of pair `i` is read from
   * `indexes[i * 2 + j]`, a stride of 2 whatever the number of operands.
   * At least one pair is needed: `np.stack` raises on an empty list.
   */
  function AddOverlap<I, L>(ol: OperandLists<I, L>, draw: Resample): (r: OperandLists<I, L>)
    requires |ol.images| >= 1
    requires |ol.images[0]| >= 1
    requires SameShape(ol.images, ol.labels)
    requires ValidResample(draw, |Flatten(ol.images)|)
    requires ReadsInBounds(2, |ol.images|, |ol.images[0]|, |Flatten(ol.images)| + |draw.extras|)
    ensures Shaped(r, |ol.images|, |ol.images[0]|)
  {
    Resampled(ol, draw, 2)
  }

  /**
   * `add_overlap` with the stride it evidently intends: consecutive groups of
   * `n` shuffled positions, one group per output example.
   */
  function AddOverlapStrided<I, L>(ol: OperandLists<I, L>, draw: Resample): (r: OperandLists<I, L>)
    requires |ol.images| >= 1
    requires |ol.images[0]| >= 1
    requires SameShape(ol.images, ol.labels)
    requires ValidResample(draw, |Flatten(ol.images)|)
    requires |ol.images| * |ol.images[0]| <= |Flatten(ol.images)| + |draw.extras|
    ensures Shaped(r, |ol.images|, |ol.images[0]|)
  {
    StridedReadsInBounds(|ol.images|, |ol.images[0]|, |Flatten(ol.images)| + |draw.extras|);
    Resampled(ol, draw, |ol.images|)
  }

  /** With stride `n`, the last of the `numPairs * n` reads is at position `numPairs * n - 1`. */
  lemma StridedReadsInBounds(n: nat, numPairs: nat, total: nat)
    requires n * numPairs <= total
    ensures ReadsInBounds(n, n, numPairs, total)
  {
    if numPairs > 0 {
      assert (numPairs - 1) * n + n == numPairs * n;
    }
  }

  /** For two operands, the stride-`n` reading is the source's stride-2 reading. */
  lemma StridedIsAsWrittenForTwo<I, L>(ol: OperandLists<I, L>, draw: Resample)
    requires |ol.images| == 2
    requires |ol.images[0]| >= 1
    requires SameShape(ol.images, ol.labels)
    requires ValidResample(draw, |Flatten(ol.images)|)
    requires 2 * |ol.images[0]| <= |Flatten(ol.images)| + |draw.extras|
    ensures ReadsInBounds(2, 2, |ol.images[0]|, |Flatten(ol.images)| + |draw.extras|)
    ensures AddOverlapStrided(ol, draw) == AddOverlap(ol, draw)
  {
  }

  /** `(image, digit)` sits at one common position of the pooled images and labels. */
  ghost predicate PooledPair<I, L>(image: I, digit: L, images: seq<I>, labels: seq<L>)
  {
    exists d :: 0 <= d < |images| && d < |labels| && image == images[d] && digit == labels[d]
  }

  /**
   * Every output (image, label) pair is one pooled (image, label) pair: the
   * image and the label of an output slot are read through the same index.
   */
  lemma ResampledKeepsPairs<I, L>(ol: OperandLists<I, L>, draw: Resample, stride: nat)
    requires |ol.images| >= 1
    requires SameShape(ol.images, ol.labels)
    requires ValidResample(draw, |Flatten(ol.images)|)
    requires ReadsInBounds(stride, |ol.images|, |ol.images[0]|, |Flatten(ol.images)| + |draw.extras|)
    ensures forall j, i :: 0 <= j < |ol.images| && 0 <= i < |ol.images[0]| ==>
              PooledPair(Resampled(ol, draw, stride).images[j][i], Resampled(ol, draw, stride).labels[j][i],
                         Flatten(ol.images), Flatten(ol.labels))
  {
    forall j, i | 0 <= j < |ol.images| && 0 <= i < |ol.images[0]|
      ensures PooledPair(Resampled(ol, draw, stride).images[j][i], Resampled(ol, draw, stride).labels[j][i],
                         Flatten(ol.images), Flatten(ol.labels))
    {
      ResampledAt(ol, draw, stride, j, i);
    }
  }

  /** Resampling correctly labelled operands leaves them correctly labelled. */
  lemma ResampledPreservesLabelling<I, L>(ol: OperandLists<I, L>, draw: Resample, stride: nat, truth: I -> L)
    requires |ol.images| >= 1
    requires SameShape(ol.images, ol.labels)
    requires ValidResample(draw, |Flatten(ol.images)|)
    requires ReadsInBounds(stride, |ol.images|, |ol.images[0]|, |Flatten(ol.images)| + |draw.extras|)
    requires Labelled(ol, truth)
    ensures Labelled(Resampled(ol, draw, stride), truth)
  {
    LabelledFlatten(ol, truth);
    ResampledKeepsPairs(ol, draw, stride);
  }

  /** Pool position `d` is the source of some (pair, operand) slot of the output. */
  ghost predicate ReadBySomeSlot(indexes: seq<nat>, stride: nat, numPairs: nat, n: nat, d: nat)
  {
    exists i: nat, j: nat :: i < numPairs && j < n && Slot(stride, i, j) < |indexes|
      && SourceIndex(indexes, stride, i, j) == d
  }

  lemma SplitSlot(stride: nat, numPairs: nat, q: nat) returns (i: nat, j: nat)
    requires q < numPairs * stride
    ensures i < numPairs && j < stride && Slot(stride, i, j) == q
  {
    i := q / stride;
    j := q % stride;
    assert q == i * stride + j;
    if i >= numPairs {
      MulGap(stride, numPairs - 1, i);
    }
  }

  lemma SlotInjective(stride: nat, i: nat, j: nat, i': nat, j': nat)
    requires j < stride && j' < stride
    requires Slot(stride, i, j) == Slot(stride, i', j')
    ensures i == i' && j == j'
  {
    if i < i' {
      MulGap(stride, i, i');
    } else if i' < i {
      MulGap(stride, i', i);
    }
  }

  /**
   * With equally long operands and no appended draws, the stride-`n` reading
   * uses every pooled digit exactly once: each pool position is the source of
   * exactly one (pair, operand) slot of the output.
   */
  lemma StridedReadsEachDigitOnce<I, L>(ol: OperandLists<I, L>, draw: Resample)
    requires |ol.images| >= 1
    requires Rectangular(ol.images, |ol.images[0]|)
    requires draw.extras == []
    requires ValidResample(draw, |Flatten(ol.images)|)
    ensures |Flatten(ol.images)| == |ol.images| * |ol.images[0]|
    ensures forall i: nat, j: nat :: i < |ol.images[0]| && j < |ol.images| ==>
              Slot(|ol.images|, i, j) < |ShuffledIndexes(|Flatten(ol.images)|, draw)|
    ensures forall d: nat :: d < |Flatten(ol.images)| ==>
              ReadBySomeSlot(ShuffledIndexes(|Flatten(ol.images)|, draw), |ol.images|, |ol.images[0]|, |ol.images|, d)
    ensures forall i: nat, j: nat, i': nat, j': nat ::
              i < |ol.images[0]| && j < |ol.images| && i' < |ol.images[0]| && j' < |ol.images|
              && SourceIndex(ShuffledIndexes(|Flatten(ol.images)|, draw), |ol.images|, i, j)
                 == SourceIndex(ShuffledIndexes(|Flatten(ol.images)|, draw), |ol.images|, i', j')
              ==> i == i' && j == j'
  {
    var n := |ol.images|;
    var numPairs := |ol.images[0]|;
    FlattenRectangularLength(ol.images, numPairs);
    var total := |Flatten(ol.images)|;
    var indexes := ShuffledIndexes(total, draw);
    StridedReadsInBounds(n, numPairs, total);
    AllReadsFit(n, n, numPairs, total);
    assert Range(total) + draw.extras == Range(total);
    forall d: nat | d < total
      ensures ReadBySomeSlot(indexes, n, numPairs, n, d)
    {
      assert d in indexes;
      var q :| 0 <= q < |indexes| && indexes[q] == d;
      var i, j := SplitSlot(n, numPairs, q);
      assert SourceIndex(indexes, n, i, j) == d;
    }
    forall i: nat, j: nat, i': nat, j': nat |
      i < numPairs && j < n && i' < numPairs && j' < n
      && SourceIndex(indexes, n, i, j) == SourceIndex(indexes, n, i', j')
      ensures i == i' && j == j'
    {
      var a, b := Slot(n, i, j), Slot(n, i', j');
      assert indexes[a] == draw.perm[a] && indexes[b] == draw.perm[b];
      SlotInjective(n, i, j, i', j');
    }
  }

  /**
   * The source's stride-2 reading, for two equally long operands and no
   * appended draws, uses every pooled digit exactly once.
   */
  lemma TwoOperandsReadEachDigitOnce<I, L>(ol: OperandLists<I, L>, draw: Resample)
    requires |ol.images| == 2
    requires Rectangular(ol.images, |ol.images[0]|)
    requires draw.extras == []
    requires ValidResample(draw, |Flatten(ol.images)|)
    ensures forall i: nat, j: nat :: i < |ol.images[0]| && j < 2 ==>
              Slot(2, i, j) < |ShuffledIndexes(|Flatten(ol.images)|, draw)|
    ensures forall d: nat :: d < |Flatten(ol.images)| ==>
              ReadBySomeSlot(ShuffledIndexes(|Flatten(ol.images)|, draw), 2, |ol.images[0]|, 2, d)
    ensures forall i: nat, j: nat, i': nat, j': nat ::
              i < |ol.images[0]| && j < 2 && i' < |ol.images[0]| && j' < 2
              && SourceIndex(ShuffledIndexes(|Flatten(ol.images)|, draw), 2, i, j)
                 == SourceIndex(ShuffledIndexes(|Flatten(ol.images)|, draw), 2, i', j')
              ==> i == i' && j == j'
  {
    StridedReadsEachDigitOnce(ol, draw);
  }

  /**
   * The source's stride-2 reads stay inside the index list whenever there are
   * at least two operands of equal length, whatever the number of appended draws.
   */
  lemma StrideTwoInBoundsForEqualOperands<I, L>(ol: OperandLists<I, L>, extraCount: nat)
    requires |ol.images| >= 2
    requires Rectangular(ol.images, |ol.images[0]|)
    ensures ReadsInBounds(2, |ol.images|, |ol.images[0]|, |Flatten(ol.images)| + extraCount)
  {
    FlattenRectangularLength(ol.images, |ol.images[0]|);
    StrideTwoFits(|ol.images|, |ol.images[0]|);
  }

  lemma StrideTwoFits(n: nat, numPairs: nat)
    requires n >= 2
    ensures numPairs == 0 || (numPairs - 1) * 2 + n - 1 < n * numPairs
  {
    if numPairs > 0 {
      var a, b := n - 2, numPairs - 1;
      assert a * b >= 0;
      assert n * numPairs == a * b + 2 * b + a + 2;
    }
  }

  /**
   * With a single operand of two or more digits and too few appended draws,
   * the source's stride-2 reads run past the end of the index list.
   */
  lemma SingleOperandOverruns<I, L>(ol: OperandLists<I, L>, extraCount: nat)
    requires |ol.images| == 1
    requires |ol.images[0]| >= extraCount + 2
    ensures !ReadsInBounds(2, 1, |ol.images[0]|, |Flatten(ol.images)| + extraCount)
  {
    assert Flatten(ol.images) == ol.images[0] + Flatten([]);
  }

  /**
   * With three or more operands, the source's stride-2 reads hand the same
   * shuffled slot to operand 2 of the first pair and to operand 0 of the
   * second pair, so those two output slots always hold the same digit.
   */
  lemma StrideTwoSharesSlots<I, L>(ol: OperandLists<I, L>, draw: Resample)
    requires |ol.images| >= 3
    requires |ol.images[0]| >= 2
    requires SameShape(ol.images, ol.labels)
    requires ValidResample(draw, |Flatten(ol.images)|)
    requires ReadsInBounds(2, |ol.images|, |ol.images[0]|, |Flatten(ol.images)| + |draw.extras|)
    ensures AddOverlap(ol, draw).images[2][0] == AddOverlap(ol, draw).images[0][1]
    ensures AddOverlap(ol, draw).labels[2][0] == AddOverlap(ol, draw).labels[0][1]
  {
    ResampledAt(ol, draw, 2, 2, 0);
    ResampledAt(ol, draw, 2, 0, 1);
    assert Slot(2, 0, 2) == 2 == Slot(2, 1, 0);
  }
}
