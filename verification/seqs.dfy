/**
 * Sequence vocabulary shared by the dataset code: Python's slicing and
 * `range`, NumPy's `concatenate`, pairing of parallel arrays, and
 * permutations (the model of every random shuffle).
 */
module Seqs {

  function Min(a: int, b: int): int
  {
    if a <= b then a else b
  }

  /** Multiples of `m` at distinct factors lie at least `m` apart. */
  lemma MulGap(m: nat, i: int, i': int)
    requires i < i'
    ensures i * m + m <= i' * m
  {
    var d := i' - i - 1;
    assert d * m >= 0;
    assert i' * m == d * m + i * m + m;
  }

  /** Python's `list(range(n))`. */
  function Range(n: nat): (r: seq<nat>)
    ensures |r| == n
    ensures forall k :: 0 <= k < n ==> r[k] == k
  {
    seq(n, (k: int) requires 0 <= k < n => k as nat)
  }

  /**
   * Python's `s[lo:hi]` for non-negative bounds: both bounds are clamped to
   * the length of `s`, and an empty range gives an empty sequence.
   */
  function Slice<T>(s: seq<T>, lo: nat, hi: nat): (r: seq<T>)
    ensures |r| == if lo < hi && lo < |s| then Min(hi, |s|) - lo else 0
    ensures forall k :: 0 <= k < |r| ==> r[k] == s[lo + k]
  {
    var a := Min(lo, |s|);
    var b := Min(hi, |s|);
    if a < b then s[a..b] else []
  }

  lemma SliceInBounds<T>(s: seq<T>, lo: nat, hi: nat)
    requires lo <= hi <= |s|
    ensures Slice(s, lo, hi) == s[lo..hi]
  {
  }

  /** `x` is an entry of one of the arrays of `ss`. */
  ghost predicate InSomeArray<T>(x: T, ss: seq<seq<T>>)
  {
    exists j :: 0 <= j < |ss| && x in ss[j]
  }

  /**
   * NumPy's `concatenate` of a list of arrays. The first array leads, and
   * the result holds nothing but entries of the arrays (the converse is
   * `FlattenContains`).
   */
  function Flatten<T>(ss: seq<seq<T>>): (r: seq<T>)
    ensures |ss| > 0 ==> ss[0] <= r
    ensures forall x :: x in r ==> InSomeArray(x, ss)
  {
    if |ss| == 0 then []
    else
      var rest := Flatten(ss[1..]);
      assert forall x :: x in rest ==> InSomeArray(x, ss) by {
        forall x | x in rest
          ensures InSomeArray(x, ss)
        {
          var j' :| 0 <= j' < |ss[1..]| && x in ss[1..][j'];
          assert x in ss[j' + 1];
        }
      }
      ss[0] + rest
  }

  /** Every row of `ss` has `width` entries (a two-dimensional array). */
  predicate Rectangular<T>(ss: seq<seq<T>>, width: nat)
  {
    forall j :: 0 <= j < |ss| ==> |ss[j]| == width
  }

  /** `a` and `b` have the same number of rows, and row `j` of each has the same length. */
  predicate SameShape<A, B>(a: seq<seq<A>>, b: seq<seq<B>>)
  {
    |a| == |b| && forall j :: 0 <= j < |a| ==> |a[j]| == |b[j]|
  }

  lemma {:induction false} FlattenConcat<T>(a: seq<seq<T>>, b: seq<seq<T>>)
    ensures Flatten(a + b) == Flatten(a) + Flatten(b)
    decreases |a|
  {
    if |a| == 0 {
      assert a + b == b;
    } else {
      assert (a + b)[0] == a[0];
      assert (a + b)[1..] == a[1..] + b;
      FlattenConcat(a[1..], b);
    }
  }

  /** Every entry of every array is an entry of the concatenation. */
  lemma {:induction false} FlattenContains<T>(ss: seq<seq<T>>, b: nat, k: nat)
    requires b < |ss| && k < |ss[b]|
    ensures ss[b][k] in Flatten(ss)
    decreases b
  {
    if b > 0 {
      FlattenContains(ss[1..], b - 1, k);
    }
  }

  /** Concatenating same-shaped lists of arrays gives arrays of the same length. */
  lemma {:induction false} FlattenSameShape<A, B>(a: seq<seq<A>>, b: seq<seq<B>>)
    requires SameShape(a, b)
    ensures |Flatten(a)| == |Flatten(b)|
    decreases |a|
  {
    if |a| > 0 {
      FlattenSameShape(a[1..], b[1..]);
    }
  }

  /** Concatenating `n` arrays of `width` entries gives `n * width` entries. */
  lemma {:induction false} FlattenRectangularLength<T>(ss: seq<seq<T>>, width: nat)
    requires Rectangular(ss, width)
    ensures |Flatten(ss)| == |ss| * width
    decreases |ss|
  {
    if |ss| > 0 {
      FlattenRectangularLength(ss[1..], width);
    }
  }

  /** Entry `i` of array `j` lands at position `j * width + i` of the concatenation. */
  lemma {:induction false} FlattenRectangularAt<T>(ss: seq<seq<T>>, width: nat, j: nat, i: nat)
    requires Rectangular(ss, width)
    requires j < |ss| && i < width
    ensures j * width + i < |Flatten(ss)|
    ensures Flatten(ss)[j * width + i] == ss[j][i]
    decreases j
  {
    FlattenRectangularLength(ss, width);
    if j > 0 {
      FlattenRectangularAt(ss[1..], width, j - 1, i);
      assert j * width + i == width + ((j - 1) * width + i);
    }
  }

  /** Pairs up two parallel arrays, as `zip` does. */
  function Zip<A, B>(a: seq<A>, b: seq<B>): (r: seq<(A, B)>)
    requires |a| == |b|
    ensures |r| == |a|
    ensures forall k :: 0 <= k < |r| ==> r[k] == (a[k], b[k])
  {
    seq(|a|, k requires 0 <= k < |a| => (a[k], b[k]))
  }

  /** Slicing two parallel arrays with the same bounds keeps entry `k` of one paired with entry `k` of the other. */
  lemma SliceZip<A, B>(a: seq<A>, b: seq<B>, lo: nat, hi: nat)
    requires |a| == |b|
    ensures |Slice(a, lo, hi)| == |Slice(b, lo, hi)|
    ensures Zip(Slice(a, lo, hi), Slice(b, lo, hi)) == Slice(Zip(a, b), lo, hi)
  {
  }

  /** Applies `f` to every element, in order. */
  function MapSeq<A, B>(f: A -> B, xs: seq<A>): (r: seq<B>)
    ensures |r| == |xs|
    ensures forall k :: 0 <= k < |xs| ==> r[k] == f(xs[k])
  {
    seq(|xs|, k requires 0 <= k < |xs| => f(xs[k]))
  }

  /**
   * `perm` lists each of the positions `0 .. n-1` once: it is a permutation of
   * `range(n)`.
   */
  predicate IsPermutation(perm: seq<nat>, n: nat)
  {
    && |perm| == n
    && (forall k :: 0 <= k < n ==> perm[k] < n)
    && (forall a, b :: 0 <= a < b < n ==> perm[a] != perm[b])
  }

  /** Reorders `s` so that entry `k` of the result is entry `perm[k]` of `s`. */
  function Shuffle<T>(s: seq<T>, perm: seq<nat>): (r: seq<T>)
    requires IsPermutation(perm, |s|)
    ensures |r| == |s|
    ensures forall k :: 0 <= k < |r| ==> r[k] == s[perm[k]]
  {
    seq(|s|, k requires 0 <= k < |s| => s[perm[k]])
  }

  /** A shuffle by a permutation keeps every element, with its multiplicity. */
  lemma {:induction false} ShufflePermutes<T>(s: seq<T>, perm: seq<nat>)
    requires IsPermutation(perm, |s|)
    ensures multiset(Shuffle(s, perm)) == multiset(s)
    decreases |s|
  {
    if |s| > 0 {
      var n := |s| - 1;
      var m := perm[n];
      // Drop the element the last slot reads, and renumber the positions above it.
      var rest := s[..m] + s[m + 1..];
      var perm': seq<nat> := seq(n, k requires 0 <= k < n => if perm[k] <= m then perm[k] else perm[k] - 1);
      forall k | 0 <= k < n
        ensures perm'[k] < n
        ensures rest[perm'[k]] == s[perm[k]]
      {
        assert perm[k] != m;
      }
      assert IsPermutation(perm', n);
      ShufflePermutes(rest, perm');
      assert Shuffle(s, perm) == Shuffle(rest, perm') + [s[m]];
      assert s == s[..m] + [s[m]] + s[m + 1..];
    }
  }

  /** Every position `0 .. n-1` occurs in a permutation of `range(n)`. */
  lemma PermutationCovers(perm: seq<nat>, n: nat)
    requires IsPermutation(perm, n)
    ensures forall v :: 0 <= v < n ==> v in perm
  {
    ShufflePermutes(Range(n), perm);
    assert Shuffle(Range(n), perm) == perm;
    forall v | 0 <= v < n
      ensures v in perm
    {
      assert Range(n)[v] == v;
      assert v in multiset(Range(n));
    }
  }
}
