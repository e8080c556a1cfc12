# MNIST operand data sets, modelled in Dafny

This project models the dataset-assembly code of the MNIST examples in
`examples/mnist/data.py`. That code builds data sets whose examples are
`n_operands` MNIST digit images with one derived label, `op(digit_1, ..., digit_n)`.
The default `op` adds two digits. The model covers five things:

- the request-size checks of `get_mnist_dataset` and `get_mnist_op_dataset`;
- the cutting of a split into `n_operands` consecutive slices of `count` rows, with images and labels cut identically;
- the column-wise label derivation `np.apply_along_axis(op, 0, ...)`;
- the overlap resampling `add_overlap`: the pooled index list, the appended random draws, the shuffle, and the stride-2 reading of output pairs;
- the final `tf.data` steps `take`, `shuffle` and `batch`, each stated abstractly.

Images and labels are type parameters `I` and `L`, and `op` is a function
`seq<L> -> L`. Every random choice is an explicit parameter:

- the positions appended by `np.random.randint` are a sequence of naturals, each below the pool size;
- `np.random.shuffle` and `Dataset.shuffle` are permutations, given as sequences of distinct positions;
- the float product `int(overlap_resample_proportion * num_digits)` becomes the length of the appended-positions sequence;
- the test `overlap_resample_proportion > 0` becomes a boolean `overlap`.

The loaded MNIST arrays are a parameter. `MnistData.WellFormed` gives their
shape: parallel arrays of 60000 training and 10000 test examples.

Modules, one file each:

- `Outcomes` (`outcomes.dfy`): result values for the `ValueError` paths.
- `Seqs` (`seqs.dfy`): Python slicing, `np.concatenate` (`Flatten`), `zip`, and permutations. Includes the proof that a shuffle keeps the multiset of its input.
- `Pipeline` (`pipeline.dfy`): `take` as a prefix, and `batch` without `drop_remainder`.
- `MnistData` (`mnist_data.dfy`): the split sizes, the count checks, and `get_mnist_dataset`.
- `Operands` (`operands.dfy`): the operand slices and the label derivation.
- `Overlap` (`overlap.dfy`): `add_overlap` as written (stride 2), and the stride-`n_operands` reading it evidently intends.
- `OpDataset` (`op_dataset.dfy`): `get_mnist_op_dataset` from start to finish, and the statement that every example's label is `op` of its digits.

## Model

| member | source | states |
|---|---|---|
| `MnistData.CheckCounts` | examples/mnist/data.py:83-88 | A request passes exactly when `count_train * n_operands <= 60000` and `count_test * n_operands <= 10000`. So 60000 and 10000 themselves are accepted. An oversized training request is reported before the test request is looked at. |
| `MnistData.PairDataset` | examples/mnist/data.py:28-31 | The batches of one split hold exactly the first `count` (image, label) pairs, each once and in some order. Every batch has between 1 and `batch_size` pairs. |
| `MnistData.GetMnistDataset` | examples/mnist/data.py:13-32 | Succeeds if and only if `count_train <= 60000` and `count_test <= 10000`; otherwise it returns the training error or the test error, in the source's order. On success, each split holds exactly `count` pairs drawn from the prefix of that split. |
| `Seqs.Slice` | examples/mnist/data.py:92-93 | Python slicing with clamped bounds: the length is `min(hi, len) - lo` or 0, and entry `k` is entry `lo + k` of the input. |
| `Seqs.Range` | examples/mnist/data.py:43 | `list(range(n))`: `n` entries, and entry `k` is `k`. Every shuffle of it contains every position below `n` (`Seqs.PermutationCovers`). |
| `Seqs.Flatten` | examples/mnist/data.py:39-40 | `np.concatenate`: the first array leads the result, and every entry of the result is an entry of one of the arrays. `Seqs.FlattenRectangularLength` and `Seqs.FlattenRectangularAt` state its layout. |
| `Seqs.FlattenContains` | examples/mnist/data.py:39-40 | Every entry of every array is an entry of the concatenation. |
| `Seqs.Zip` | examples/mnist/data.py:28-31 | The (image, label) pairing of `from_tensor_slices((img, label))`: entry `k` is the pair of entry `k` of each array. |
| `Seqs.Shuffle` | examples/mnist/data.py:47 | Reordering by a permutation, for `np.random.shuffle` and for `Dataset.shuffle` (`data.py:29-31`, `data.py:108-110`): entry `k` is entry `perm[k]` of the input, and the multiset is unchanged (`Seqs.ShufflePermutes`). |
| `Seqs.ShufflePermutes` | examples/mnist/data.py:47 | Reordering a sequence by a permutation keeps every element with its multiplicity. |
| `Seqs.PermutationCovers` | examples/mnist/data.py:47 | A permutation of `range(n)` contains every position below `n`. |
| `Seqs.FlattenRectangularLength` | examples/mnist/data.py:39-40 | Concatenating `n` arrays of `w` entries gives `n * w` entries. |
| `Seqs.FlattenRectangularAt` | examples/mnist/data.py:39-40 | After concatenation, entry `i` of array `j` sits at position `j * w + i`. |
| `Seqs.FlattenSameShape` | examples/mnist/data.py:39-40 | Concatenating same-shaped image and label lists gives pools of the same length, so every image position is also a label position. |
| `Pipeline.Take` | examples/mnist/data.py:28-29 | `take(count)` yields a prefix of length `min(count, len)`. |
| `Pipeline.Batch` | examples/mnist/data.py:28-29 | The batches, concatenated, give back the input. Each batch has between 1 and `size` elements, and every batch but the last has exactly `size`. The number of batches is the input length divided by `size`, rounded up. |
| `Operands.Partition` | examples/mnist/data.py:92-93 | `n` slices, one per operand. Slice `i` has at most `count` entries, and its entry `k` is row `i * count + k` of the split. When the split holds `n * count` rows, every slice has exactly `count` entries. |
| `Operands.PartitionRows` | examples/mnist/data.py:92-93 | If the split holds `n * count` rows, slice `i` has exactly `count` entries, and its entry `k` is row `i * count + k`. |
| `Operands.PartitionCoversPrefix` | examples/mnist/data.py:92-93 | Read in operand order, the slices are exactly the first `n * count` rows of the split. |
| `Operands.PartitionSlicesAreDisjoint` | examples/mnist/data.py:92-93 | Row `k` of the first `n * count` rows is entry `k - i * count` of the slice `i` that owns it. No row lies in two slices, and no slice holds a row past that prefix. |
| `Operands.PartitionKeepsPairs` | examples/mnist/data.py:92-93 | Cutting images and labels with the same bounds is the same as cutting the zipped (image, label) pairs. So every image keeps its own label. |
| `Operands.PartitionLabelled` | examples/mnist/data.py:92-93 | If every label of the split is the true label of its image, every operand slice has the same property. |
| `Operands.LabelledFlatten` | examples/mnist/data.py:39-40 | Pooling correctly labelled operands leaves every pooled label beside its own image. |
| `Operands.ColumnOfPartition` | examples/mnist/data.py:92-94 | Column `k` of the operand slices is rows `k`, `count + k`, ..., `(n - 1) * count + k` of the split. |
| `Operands.ApplyAlongOperands` | examples/mnist/data.py:94 | One result per column: result `k` is `op` applied to the `k`-th label of every operand, in operand order. |
| `Operands.DerivedLabelsMatchImages` | examples/mnist/data.py:98 | If the operand labels are the true labels of their images, result label `k` is `op` of the true labels of the `k`-th images. |
| `Overlap.ShuffledIndexes` | examples/mnist/data.py:42-47 | The shuffled index list has `num_digits + extra` entries, each below `num_digits`. Its multiset is `range(num_digits)` plus the draws. Every position of the pool still occurs in it. |
| `Overlap.IndexesCoverPool` | examples/mnist/data.py:43-47 | Any reordering of `range(num_digits)` plus the draws contains every pool position. |
| `Overlap.ReadOperand` | examples/mnist/data.py:52-55 | One output operand: entry `i` is the pooled entry that the shuffled list names at position `i * stride + j`. |
| `Overlap.Resampled` | examples/mnist/data.py:34-61 | The output has `n_operands` image lists and `n_operands` label lists, each of length `len(img_per_operand[0])`. The image and the label of a slot are read through the same shuffled index, which lies inside the pool. |
| `Overlap.ResampledAt` | examples/mnist/data.py:52-55 | Output operand `j` of pair `i` is the pooled (image, label) pair at shuffled position `i * stride + j`, and that read is in bounds. |
| `Overlap.AddOverlap` | examples/mnist/data.py:34-61 | `add_overlap` as written. It returns `n_operands` image and label lists of `num_pairs` entries each. It requires the stride-2 reads to stay inside the index list: `2 * (num_pairs - 1) + n_operands - 1 < num_digits + extra`. |
| `Overlap.AddOverlapStrided` | examples/mnist/data.py:52-55 | The stride-`n_operands` reading. Its only bounds requirement is `n_operands * num_pairs <= num_digits + extra`. |
| `Overlap.StridedIsAsWrittenForTwo` | examples/mnist/data.py:52-55 | For two operands, whenever the stride-`n_operands` reading is in bounds, the source's stride-2 reading is in bounds too, and both give the same output. |
| `Overlap.ResampledKeepsPairs` | examples/mnist/data.py:54-55 | Every output (image, label) pair is one pooled (image, label) pair. |
| `Overlap.ResampledPreservesLabelling` | examples/mnist/data.py:49-59 | Resampling correctly labelled operands leaves every output image with its true label. |
| `Overlap.StridedReadsEachDigitOnce` | examples/mnist/data.py:42-55 | For equally long operands and no extra draws, the stride-`n_operands` reading takes every pool position exactly once: some slot reads it, and no two slots read the same one. |
| `Overlap.TwoOperandsReadEachDigitOnce` | examples/mnist/data.py:42-55 | For two equally long operands and no extra draws, the source's stride-2 reading takes every source digit exactly once across the two outputs. |
| `Overlap.StrideTwoInBoundsForEqualOperands` | examples/mnist/data.py:36-37 | For two or more operands of equal length, the stride-2 reads stay in bounds whatever the number of extra draws. |
| `Overlap.SingleOperandOverruns` | examples/mnist/data.py:52-55 | For one operand of at least `extra + 2` digits, the stride-2 reads run past the end of the index list. |
| `Overlap.StrideTwoSharesSlots` | examples/mnist/data.py:52-55 | For three or more operands and two or more pairs, the source gives operand 2 of pair 0 and operand 0 of pair 1 the same image and the same label. |
| `OpDataset.OperandSplit` | examples/mnist/data.py:92-105 | One split becomes `n_operands` image arrays of `count` entries and `count` result labels, whether or not it is resampled. Resampling uses the source's stride-2 `add_overlap` and needs its reads to fit. |
| `OpDataset.OverlapFitsExactly` | examples/mnist/data.py:52-55 | For a non-empty split, the stride-2 reads always fit with two or more operands. With one operand they fit exactly when `count < extra + 2`. |
| `OpDataset.OpRows` | examples/mnist/data.py:107-110 | Example `k` takes entry `k` of every operand array, in operand order, and result label `k`. |
| `OpDataset.OpSplitDataset` | examples/mnist/data.py:107-110 | The batches of one split hold exactly the `count` examples, each once and in some order, in batches of 1 to `batch_size`. `take(count)` removes nothing. |
| `OpDataset.GetMnistOpDataset` | examples/mnist/data.py:64-112 | Succeeds if and only if both `count * n_operands` checks pass, both counts are positive, and, when resampling, the stride-2 reads of both splits fit. Failures come in the source's order: the training count check, the test count check, an empty training split and then an empty test split (`apply_along_axis`), and a training overrun and then a test overrun (`IndexError` in `add_overlap`). On success, each split holds exactly the `count` examples that `from_tensor_slices` builds from its operand arrays and result labels, each once, in batches of 1 to `batch_size`. |
| `OpDataset.OpDatasetSucceedsForSeveralOperands` | examples/mnist/data.py:83-105 | With two or more operands, the call succeeds exactly when both count checks pass and both counts are positive, with or without resampling. |
| `OpDataset.OperandSplitConsistent` | examples/mnist/data.py:92-105 | If the split is correctly labelled, every example has `n_operands` images, and its label is `op` of their true digits. This holds both without resampling and with the source's stride-2 resampling. |
| `OpDataset.OpSplitDatasetConsistent` | examples/mnist/data.py:107-110 | After `take`, `shuffle` and `batch`, every example in every batch still has label equal to `op` of its digits. |
| `OpDataset.OpDatasetLabelsAgreeWithImages` | examples/mnist/data.py:72-74 | The docstring's promise `op(image_x1, ..., image_xn) = label` holds for every example of both returned data sets, whether or not they were resampled by the source's stride-2 `add_overlap`. |
| `OpDataset.OperandSplitWithoutOverlap` | examples/mnist/data.py:92-98 | Without resampling, example `k` has operands at rows `k`, `count + k`, ..., `(n - 1) * count + k`. Its label is `op` of those rows' labels, in operand order. |
| `OpDataset.OperandSplitDrawAt` | examples/mnist/data.py:100-101 | With stride-2 resampling, one given operand image is a row below `n_operands * count`. |
| `OpDataset.OperandSplitDrawsFromPrefix` | examples/mnist/data.py:100-105 | With resampling, every operand image is one of the first `n_operands * count` rows of the split. |

## Findings

| source | as written | input that shows it | evidently intended | confidence | as-written member | corrected member |
|---|---|---|---|---|---|---|
| examples/mnist/data.py:52-55 | output operand `j` of pair `i` reads `indexes[i * 2 + j]`, a stride of 2 for any `n_operands` | `n_operands = 3` with two or more pairs: operand 2 of pair 0 and operand 0 of pair 1 both read `indexes[2]`, so the same digit is used twice. `n_operands = 1` with two digits and no extra draws: `indexes[2]` is read from a list of length 2 | read `indexes[i * n_operands + j]`, so each example gets its own group of shuffled positions | medium (the default `n_operands` is 2, where both readings agree); not executed | `Overlap.AddOverlap` with `Overlap.StrideTwoSharesSlots` and `Overlap.SingleOperandOverruns` | `Overlap.AddOverlapStrided` with `Overlap.StridedReadsEachDigitOnce` |

`OpDataset` follows the code as written: it resamples with `Overlap.AddOverlap`,
and it reports the overrun that raises `IndexError` as `OpError.IndexOverrun`.
`Overlap.AddOverlapStrided` is the corrected reading.
`Overlap.StridedIsAsWrittenForTwo` proves that the two agree whenever
`n_operands` is 2, the default.

## Left out

- `get_mnist_data_as_numpy` (`data.py:4-11`) downloads MNIST through Keras, divides pixel values by 255.0 and adds a channel axis. That is I/O and floating point. Its output is the parameter `data`, with the shape `MnistData.WellFormed` describes.
- `tf.data` internals are not modelled. `Dataset.shuffle(buffer_size)` is an arbitrary permutation supplied by the caller. Which permutations a given buffer size can produce is not modelled. `batch` and `take` are modelled as sequence functions, not as lazy streams.
- `np.random.randint` and `np.random.shuffle` are the parameters `Resample.extras` and `Resample.perm`. They are constrained only to the ranges those calls can produce.
- `int(overlap_resample_proportion * num_digits)` (floating point) is the length of `Resample.extras`, and `overlap_resample_proportion > 0` is the boolean `overlap`.
- The training loop in `examples/mnist/commons.py` is not modelled. It runs opaque callbacks, Keras metrics, wall-clock timing, float formatting, file I/O and printing.
- Python would accept negative counts and slice them with negative bounds. Counts are naturals here.
- `n_operands = 0` passes the count checks, but the call then fails. The model requires at least one operand.
- `batch_size = 0` makes `tf.data` raise. The model requires a positive batch size.
- `buffer_size` is not a parameter of the model: the shuffle is the caller's permutation. `Dataset.shuffle` raises for `buffer_size = 0`. So the success conditions of `MnistData.GetMnistDataset` and `OpDataset.GetMnistOpDataset` hold only for a positive buffer size.
- `Overlap.AddOverlap`: reads past the end of the index list raise `IndexError` in the source. The function makes in-bounds reads a precondition. `OpDataset.GetMnistOpDataset` checks that precondition and returns `IndexOverrun` when it fails.
- `Overlap.AddOverlap`: `np.stack` of an empty list raises, so at least one pair is required. In `get_mnist_op_dataset` that case cannot arise: an empty split has already failed in `apply_along_axis`, which `OpDataset.GetMnistOpDataset` reports as `NoExamples`.
- `Overlap.AddOverlap`: the label lists must have the same shape as the image lists. The source assumes this silently, and its only caller guarantees it.
- `op` is a total function from label sequences to labels. An `op` that raises, or that returns an array so that `apply_along_axis` builds a higher-dimensional result, is not modelled.
- In the source, `label_result` is computed once before resampling and then overwritten after it (`data.py:94`, `data.py:102`). The model computes only the final value. The first computation matters only through its `ValueError` on an empty split, and the model keeps that error as `NoExamples`.
- `add_overlap` does not keep every pooled example. It reads `n_operands * num_pairs` slots at positions `i * 2 + j`, so which shuffled positions it reads depends on `n_operands`. With two operands it reads the first `2 * num_pairs` positions and never the last `extra`. With one operand it reads only positions 0, 2, ..., `2 * (num_pairs - 1)`. With three or more it reads only positions up to `2 * num_pairs + n_operands - 3`, some of them twice when there are two or more pairs (`Overlap.StrideTwoSharesSlots`). So pooled digits can be missing from the output while others appear twice. The model follows the code. With two operands and no extra draws every digit is used exactly once (`Overlap.TwoOperandsReadEachDigitOnce`).
