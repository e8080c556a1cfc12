/**
 * The `tf.data` steps the dataset code chains after `from_tensor_slices`:
 * `take(count)`, `shuffle(buffer_size)` and `batch(batch_size)`.
 * `take` keeps a prefix; `shuffle` is some permutation of its input, passed
 * in by the caller (which permutation depends on the buffer size and the
 * random seed, neither of which is modelled); `batch` cuts the sequence into
 * consecutive groups and keeps the final, shorter group.
 */
module Pipeline {
  import opened Seqs

  /** `dataset.take(count)`: the first `count` elements, or all of them if there are fewer. */
  function Take<T>(s: seq<T>, count: nat): (r: seq<T>)
    ensures |r| == Min(count, |s|)
    ensures r <= s
  {
    s[..Min(count, |s|)]
  }

  /** `dataset.batch(size)` without `drop_remainder`. */
  function Batch<T>(s: seq<T>, size: nat): (r: seq<seq<T>>)
    requires size >= 1
    ensures Flatten(r) == s
    ensures forall b :: 0 <= b < |r| ==> 1 <= |r[b]| <= size
    ensures forall b :: 0 <= b < |r| - 1 ==> |r[b]| == size
    ensures |s| == 0 ==> |r| == 0
    ensures |s| > 0 ==> (|r| - 1) * size < |s| <= |r| * size
    decreases |s|
  {
    if |s| == 0 then []
    else
      var k := Min(size, |s|);
      var rest := Batch(s[k..], size);
      assert ([s[..k]] + rest)[1..] == rest;
      assert |rest| * size + size == (|rest| + 1) * size;
      [s[..k]] + rest
  }
}
