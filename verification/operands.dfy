/**
 * The operand lists of `get_mnist_op_dataset`: how one split is cut into
 * `n` consecutive, equally long groups of rows (one group per operand), and
 * how the result label of example `k` is derived from the `k`-th label of
 * every operand with `np.apply_along_axis(op, 0, ...)`.
 */
module Operands {
  import opened Seqs

  /** `n` image arrays and `n` label arrays, one of each per operand. */
  datatype OperandLists<I, L> = OperandLists(images: seq<seq<I>>, labels: seq<seq<L>>)

  /** `n` operands, every image and label array holding `width` entries. */
  predicate Shaped<I, L>(ol: OperandLists<I, L>, n: nat, width: nat)
  {
    && |ol.images| == n
    && Rectangular(ol.images, width)
    && SameShape(ol.images, ol.labels)
  }

  /** Every label of every operand is the ground-truth label of the image beside it. */
  ghost predicate Labelled<I, L>(ol: OperandLists<I, L>, truth: I -> L)
  {
    && SameShape(ol.images, ol.labels)
    && forall j, i :: 0 <= j < |ol.images| && 0 <= i < |ol.images[j]| ==> ol.labels[j][i] == truth(ol.images[j][i])
  }

  /** Concatenating correctly labelled operands keeps every pooled label beside its image. */
  lemma {:induction false} LabelledFlatten<I, L>(ol: OperandLists<I, L>, truth: I -> L)
    requires Labelled(ol, truth)
    ensures Flatten(ol.labels) == MapSeq(truth, Flatten(ol.images))
    decreases |ol.images|
  {
    if |ol.images| > 0 {
      var tail := OperandLists(ol.images[1..], ol.labels[1..]);
      assert Labelled(tail, truth) by {
        forall j, i | 0 <= j < |tail.images| && 0 <= i < |tail.images[j]|
          ensures tail.labels[j][i] == truth(tail.images[j][i])
        {
          assert tail.images[j] == ol.images[j + 1];
        }
      }
      LabelledFlatten(tail, truth);
      assert ol.labels[0] == MapSeq(truth, ol.images[0]);
      assert MapSeq(truth, ol.images[0] + Flatten(tail.images))
             == MapSeq(truth, ol.images[0]) + MapSeq(truth, Flatten(tail.images));
    }
  }

  /** Row `k` of the split belongs to the slice of operand `i`. */
  predicate InSlice(k: int, i: int, count: nat)
  {
    i * count <= k < i * count + count
  }

  /** `[s[i*count : i*count+count] for i in range(n)]`. */
  function Partition<T>(s: seq<T>, n: nat, count: nat): (r: seq<seq<T>>)
    ensures |r| == n
    ensures forall i :: 0 <= i < n ==> |r[i]| <= count
    ensures forall i, k :: 0 <= i < n && 0 <= k < |r[i]| ==> i * count + k < |s| && r[i][k] == s[i * count + k]
    ensures n * count <= |s| ==> Rectangular(r, count)
  {
    assert n * count <= |s| ==> forall i :: 0 <= i < n ==> i * count + count <= |s| by {
      forall i | 0 <= i < n
        ensures i * count + count <= n * count
      {
        SliceEndFits(n, count, i);
      }
    }
    seq(n, i requires 0 <= i < n => Slice(s, i * count, i * count + count))
  }

  lemma SliceEndFits(n: nat, count: nat, i: nat)
    requires i < n
    ensures i * count + count <= n * count
  {
    assert (n - i) * count >= count by {
      assert (n - i) * count == (n - i - 1) * count + count;
    }
  }

  /**
   * When the split holds `n * count` rows, slice `i` has exactly `count`
   * entries, and its entry `k` is row `i * count + k` of the split.
   */
  lemma PartitionRows<T>(s: seq<T>, n: nat, count: nat)
    requires n * count <= |s|
    ensures Rectangular(Partition(s, n, count), count)
    ensures forall i, k :: 0 <= i < n && 0 <= k < count ==> Partition(s, n, count)[i][k] == s[i * count + k]
  {
    forall i | 0 <= i < n
      ensures |Partition(s, n, count)[i]| == count
    {
      SliceEndFits(n, count, i);
    }
  }

  lemma PartitionStep<T>(s: seq<T>, m: nat, count: nat)
    ensures Partition(s, m + 1, count) == Partition(s, m, count) + [Slice(s, m * count, m * count + count)]
  {
  }

  lemma MulStep(m: nat, count: nat)
    ensures (m + 1) * count == m * count + count
  {
  }

  /** Appending one slice that continues the prefix extends the prefix. */
  lemma PrefixStep<T>(s: seq<T>, covered: seq<T>, lo: nat, count: nat)
    requires lo + count <= |s|
    requires covered == s[..lo]
    ensures covered + Flatten([Slice(s, lo, lo + count)]) == s[..lo + count]
  {
    SliceInBounds(s, lo, lo + count);
    assert Flatten([Slice(s, lo, lo + count)]) == s[lo..lo + count] + Flatten([]);
    assert s[..lo + count] == s[..lo] + s[lo..lo + count];
  }

  /** The slices, read in operand order, are exactly the first `n * count` rows of the split. */
  lemma {:induction false} PartitionCoversPrefix<T>(s: seq<T>, n: nat, count: nat)
    requires n * count <= |s|
    ensures Flatten(Partition(s, n, count)) == s[..n * count]
    decreases n
  {
    if n == 0 {
      assert Partition(s, n, count) == [];
    } else {
      var m := n - 1;
      MulStep(m, count);
      var lo := m * count;
      PartitionStep(s, m, count);
      FlattenConcat(Partition(s, m, count), [Slice(s, lo, lo + count)]);
      PartitionCoversPrefix(s, m, count);
      PrefixStep(s, Flatten(Partition(s, m, count)), lo, count);
    }
  }

  /** The operand whose slice holds row `k`. */
  function OwnerOf(k: nat, count: nat): nat
  {
    if count == 0 then 0 else k / count
  }

  lemma OwnerInSlice(n: nat, count: nat, k: nat)
    requires k < n * count
    ensures OwnerOf(k, count) < n && InSlice(k, OwnerOf(k, count), count)
  {
    var i := k / count;
    assert k == i * count + k % count;
  }

  lemma SliceOwnerUnique(count: nat, k: int, i: int, i': int)
    requires InSlice(k, i, count) && InSlice(k, i', count)
    ensures i == i'
  {
    if i < i' {
      MulGap(count, i, i');
    } else if i' < i {
      MulGap(count, i', i);
    }
  }

  /**
   * The slices are pairwise disjoint and together cover the prefix: each of
   * the first `n * count` rows is held by the slice of exactly one operand,
   * at offset `k - i * count` of that slice, and no slice reaches past the
   * prefix.
   */
  lemma PartitionSlicesAreDisjoint<T>(s: seq<T>, n: nat, count: nat)
    requires n * count <= |s|
    ensures forall k :: 0 <= k < n * count ==>
              && OwnerOf(k, count) < n && InSlice(k, OwnerOf(k, count), count)
              && Partition(s, n, count)[OwnerOf(k, count)][k - OwnerOf(k, count) * count] == s[k]
    ensures forall k, i, i' :: InSlice(k, i, count) && InSlice(k, i', count) ==> i == i'
    ensures forall k, i :: 0 <= i < n && InSlice(k, i, count) ==> 0 <= k < n * count
  {
    PartitionRows(s, n, count);
    forall k | 0 <= k < n * count
      ensures && OwnerOf(k, count) < n && InSlice(k, OwnerOf(k, count), count)
              && Partition(s, n, count)[OwnerOf(k, count)][k - OwnerOf(k, count) * count] == s[k]
    {
      OwnerInSlice(n, count, k);
      var i, off := OwnerOf(k, count), k - OwnerOf(k, count) * count;
      assert Partition(s, n, count)[i][off] == s[i * count + off];
    }
    forall k, i, i' | InSlice(k, i, count) && InSlice(k, i', count)
      ensures i == i'
    {
      SliceOwnerUnique(count, k, i, i');
    }
    forall k, i | 0 <= i < n && InSlice(k, i, count)
      ensures 0 <= k < n * count
    {
      SliceEndFits(n, count, i);
    }
  }

  /** Slicing images and labels with the same bounds keeps every image beside its own label. */
  lemma PartitionKeepsPairs<I, L>(images: seq<I>, labels: seq<L>, n: nat, count: nat)
    requires |images| == |labels|
    ensures SameShape(Partition(images, n, count), Partition(labels, n, count))
    ensures forall i :: 0 <= i < n ==>
              Zip(Partition(images, n, count)[i], Partition(labels, n, count)[i])
              == Partition(Zip(images, labels), n, count)[i]
  {
    forall i | 0 <= i < n
      ensures |Partition(images, n, count)[i]| == |Partition(labels, n, count)[i]|
      ensures Zip(Partition(images, n, count)[i], Partition(labels, n, count)[i])
              == Partition(Zip(images, labels), n, count)[i]
    {
      var lo := i * count;
      assert Partition(images, n, count)[i] == Slice(images, lo, lo + count);
      assert Partition(labels, n, count)[i] == Slice(labels, lo, lo + count);
      assert Partition(Zip(images, labels), n, count)[i] == Slice(Zip(images, labels), lo, lo + count);
      SliceZip(images, labels, lo, lo + count);
    }
  }

  /** A correctly labelled split gives correctly labelled operand lists. */
  lemma PartitionLabelled<I, L>(images: seq<I>, labels: seq<L>, n: nat, count: nat, truth: I -> L)
    requires |images| == |labels|
    requires forall k :: 0 <= k < |images| ==> labels[k] == truth(images[k])
    ensures Labelled(OperandLists(Partition(images, n, count), Partition(labels, n, count)), truth)
  {
    PartitionKeepsPairs(images, labels, n, count);
    var ims, lbs := Partition(images, n, count), Partition(labels, n, count);
    forall j, i | 0 <= j < |ims| && 0 <= i < |ims[j]|
      ensures lbs[j][i] == truth(ims[j][i])
    {
      var lo := j * count;
      assert ims[j] == Slice(images, lo, lo + count) && lbs[j] == Slice(labels, lo, lo + count);
      assert ims[j][i] == images[lo + i] && lbs[j][i] == labels[lo + i];
    }
  }

  /**
   * Rows `k`, `count + k`, `2 * count + k`, ... of the split: the rows that
   * become example `k` when the split is cut into `n` slices of `count`.
   */
  function StridedRows<T>(s: seq<T>, n: nat, count: nat, k: nat): (r: seq<T>)
    requires n * count <= |s| && k < count
    ensures |r| == n
  {
    seq(n, j requires 0 <= j < n => SliceEndFits(n, count, j); s[j * count + k])
  }

  /** Column `k` of the operand slices is the strided selection of rows for example `k`. */
  lemma ColumnOfPartition<T>(s: seq<T>, n: nat, count: nat, k: nat)
    requires n * count <= |s| && k < count
    ensures Rectangular(Partition(s, n, count), count)
    ensures Column(Partition(s, n, count), k) == StridedRows(s, n, count, k)
  {
    PartitionRows(s, n, count);
  }

  /** The `k`-th entry of every row, in row order. */
  function Column<L>(rows: seq<seq<L>>, k: nat): (c: seq<L>)
    requires forall j :: 0 <= j < |rows| ==> k < |rows[j]|
    ensures |c| == |rows|
    ensures forall j :: 0 <= j < |rows| ==> c[j] == rows[j][k]
  {
    seq(|rows|, j requires 0 <= j < |rows| => rows[j][k])
  }

  /**
   * `np.apply_along_axis(op, 0, rows)` on an `n` by `width` array: one result
   * per column, the column handed to `op` in operand order.
   */
  function ApplyAlongOperands<L>(op: seq<L> -> L, rows: seq<seq<L>>, width: nat): (r: seq<L>)
    requires |rows| >= 1
    requires Rectangular(rows, width)
    ensures |r| == width
    ensures forall k :: 0 <= k < width ==> r[k] == op(Column(rows, k))
  {
    seq(width, k requires 0 <= k < width => op(Column(rows, k)))
  }

  /**
   * When every label is the ground truth of its image, result label `k` is
   * `op` applied to the ground truths of the `k`-th image of each operand.
   */
  lemma DerivedLabelsMatchImages<I, L>(op: seq<L> -> L, truth: I -> L, ol: OperandLists<I, L>, n: nat, width: nat)
    requires n >= 1
    requires Shaped(ol, n, width)
    requires Labelled(ol, truth)
    ensures forall k :: 0 <= k < width ==>
              ApplyAlongOperands(op, ol.labels, width)[k] == op(MapSeq(truth, Column(ol.images, k)))
  {
    forall k | 0 <= k < width
      ensures ApplyAlongOperands(op, ol.labels, width)[k] == op(MapSeq(truth, Column(ol.images, k)))
    {
      assert Column(ol.labels, k) == MapSeq(truth, Column(ol.images, k));
    }
  }
}
