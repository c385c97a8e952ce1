/** Sequence vocabulary shared by the batching models: concatenation of a
    list of batches, consecutive fixed-size slicing (the
    `for pos in range(0, n, size): s[pos:pos + size]` idiom every generator
    uses), index permutations and order-preserving sub-sequences. */
module Seqs {

  function Min(a: int, b: int): int
  {
    if a <= b then a else b
  }

  /** Concatenation of a list of batches, in order. */
  function Flatten<T>(ss: seq<seq<T>>): seq<T>
  {
    if |ss| == 0 then [] else ss[0] + Flatten(ss[1..])
  }

  lemma {:induction false} FlattenAppend<T>(ss: seq<seq<T>>, s: seq<T>)
    ensures Flatten(ss + [s]) == Flatten(ss) + s
  {
    if |ss| == 0 {
      assert ss + [s] == [s];
      assert Flatten([s]) == s + Flatten([s][1..]);
    } else {
      assert (ss + [s])[1..] == ss[1..] + [s];
      FlattenAppend(ss[1..], s);
    }
  }

  lemma {:induction false} FlattenConcat<T>(a: seq<seq<T>>, b: seq<seq<T>>)
    ensures Flatten(a + b) == Flatten(a) + Flatten(b)
  {
    if |a| == 0 {
      assert a + b == b;
    } else {
      assert (a + b)[1..] == a[1..] + b;
      FlattenConcat(a[1..], b);
    }
  }

  /** `s` cut into consecutive slices of `size` elements; only the last
      slice may be shorter, and no slice is empty. */
  function Slices<T>(s: seq<T>, size: nat): (r: seq<seq<T>>)
    requires size > 0
    ensures forall k :: 0 <= k < |r| ==> 0 < |r[k]| <= size
    ensures forall k :: 0 <= k < |r| - 1 ==> |r[k]| == size
    decreases |s|
  {
    if |s| == 0 then []
    else if |s| <= size then [s]
    else [s[..size]] + Slices(s[size..], size)
  }

  /** The slices concatenate back to `s`: every element lands in exactly
      one slice, in order. */
  lemma {:induction false} SlicesFlatten<T>(s: seq<T>, size: nat)
    requires size > 0
    ensures Flatten(Slices(s, size)) == s
    decreases |s|
  {
    if |s| == 0 {
    } else if |s| <= size {
      assert Flatten([s]) == s + Flatten([s][1..]);
    } else {
      var rest := Slices(s[size..], size);
      SlicesFlatten(s[size..], size);
      assert ([s[..size]] + rest)[1..] == rest;
      assert s[..size] + s[size..] == s;
    }
  }

  /** The number of slices is the ceiling of `|s| / size`, stated without
      division: the slices hold at least `|s|` places and one fewer slice
      would not. */
  lemma {:induction false} SlicesCount<T>(s: seq<T>, size: nat)
    requires size > 0
    ensures (|Slices(s, size)| - 1) * size < |s| <= |Slices(s, size)| * size
    decreases |s|
  {
    if |s| == 0 {
    } else if |s| <= size {
    } else {
      var m := |Slices(s[size..], size)|;
      SlicesCount(s[size..], size);
      assert |Slices(s, size)| == m + 1;
      assert (m + 1) * size == m * size + size;
    }
  }

  lemma MulSucc(a: int, b: int)
    ensures (a + 1) * b == a * b + b
  {
  }

  /** Slice `k` is exactly the source's `s[k*size : k*size + size]`
      (Python clamps the upper end to `|s|`). */
  lemma {:induction false} SliceAt<T>(s: seq<T>, size: nat, k: nat)
    requires size > 0
    requires k < |Slices(s, size)|
    ensures k * size < |s|
    ensures Slices(s, size)[k] == s[k * size .. Min(k * size + size, |s|)]
    decreases k
  {
    if k == 0 {
      SliceFirst(s, size);
    } else {
      SliceNext(s, size, k);
      SliceAt(s[size..], size, k - 1);
      MulPred(k, size);
      SliceAtShift(s, size, (k - 1) * size, k * size);
    }
  }

  lemma SliceFirst<T>(s: seq<T>, size: nat)
    requires size > 0 && 0 < |Slices(s, size)|
    ensures 0 < |s|
    ensures Slices(s, size)[0] == s[.. Min(size, |s|)]
  {
    if |s| > size {
      SlicesUnfold(s, size);
    }
  }

  /** Slice `k > 0` of `s` is slice `k - 1` of `s` without its first slice. */
  lemma SliceNext<T>(s: seq<T>, size: nat, k: nat)
    requires size > 0 && 0 < k < |Slices(s, size)|
    ensures size < |s|
    ensures k - 1 < |Slices(s[size..], size)|
    ensures Slices(s, size)[k] == Slices(s[size..], size)[k - 1]
  {
    SlicesUnfold(s, size);
  }

  lemma MulPred(k: nat, size: nat)
    requires k > 0
    ensures k * size == (k - 1) * size + size
  {
  }

  /** The step of `SliceAt`: a clamped slice of `s[size..]` starting at
      `lo` is the clamped slice of `s` starting at `lo + size`. */
  lemma SliceAtShift<T>(s: seq<T>, size: nat, lo: nat, m: nat)
    requires size < |s| && lo < |s| - size && m == lo + size
    ensures m < |s|
    ensures s[size..][lo .. Min(lo + size, |s| - size)] == s[m .. Min(m + size, |s|)]
  {
    DropThenSlice(s, size, lo, Min(lo + size, |s| - size));
  }

  lemma SlicesUnfold<T>(s: seq<T>, size: nat)
    requires size > 0 && |s| > size
    ensures Slices(s, size) == [s[..size]] + Slices(s[size..], size)
  {
  }

  lemma DropThenSlice<T>(s: seq<T>, d: nat, lo: nat, hi: nat)
    requires d <= |s| && lo <= hi <= |s| - d
    ensures s[d..][lo .. hi] == s[d + lo .. d + hi]
  {
  }

  /** Element `i` of slice `k` is element `k*size + i` of `s`. */
  lemma SliceElement<T>(s: seq<T>, size: nat, k: nat, i: nat)
    requires size > 0
    requires k < |Slices(s, size)| && i < |Slices(s, size)[k]|
    ensures k * size + i < |s|
    ensures Slices(s, size)[k][i] == s[k * size + i]
  {
    SliceAt(s, size, k);
  }

  /** The batches a generator yields when `full_batch` is set: those of
      exactly `size` elements, in order. */
  function FullOnly<T>(ss: seq<seq<T>>, size: nat): (r: seq<seq<T>>)
    ensures forall k :: 0 <= k < |r| ==> |r[k]| == size
    ensures |r| <= |ss|
  {
    if |ss| == 0 then []
    else (if |ss[0]| == size then [ss[0]] else []) + FullOnly(ss[1..], size)
  }

  /** The batches yielded in one epoch: every slice, or with `full_batch`
      only the full ones. */
  function Yielded<T>(s: seq<T>, size: nat, fullBatch: bool): seq<seq<T>>
    requires size > 0
  {
    if fullBatch then FullOnly(Slices(s, size), size) else Slices(s, size)
  }

  lemma {:induction false} FullOnlyAllFull<T>(ss: seq<seq<T>>, size: nat)
    requires forall k :: 0 <= k < |ss| ==> |ss[k]| == size
    ensures FullOnly(ss, size) == ss
  {
    if |ss| > 0 {
      FullOnlyAllFull(ss[1..], size);
      assert [ss[0]] + ss[1..] == ss;
    }
  }

  /** With `full_batch`, exactly the short tail is dropped: the yielded
      batches are a prefix of the slices, they cover `s` up to a multiple of
      `size`, and what is left over is shorter than one batch. */
  lemma FullBatchDropsTail<T>(s: seq<T>, size: nat)
    requires size > 0
    ensures var y := Yielded(s, size, true);
      var sl := Slices(s, size);
      && |sl| - 1 <= |y| <= |sl|
      && y == sl[..|y|]
      && |y| * size <= |s|
      && Flatten(y) == s[..|y| * size]
      && |s| - |y| * size < size
  {
    SlicesFlatten(s, size);
    FullOnlyPrefix(s, size, Slices(s, size));
  }

  /** `FullBatchDropsTail` for any batching of `s` whose batches are
      non-empty and at most `size` long, all but the last full. */
  lemma FullOnlyPrefix<T>(s: seq<T>, size: nat, sl: seq<seq<T>>)
    requires size > 0
    requires Flatten(sl) == s
    requires forall k :: 0 <= k < |sl| ==> 0 < |sl[k]| <= size
    requires forall k :: 0 <= k < |sl| - 1 ==> |sl[k]| == size
    ensures var y := FullOnly(sl, size);
      && |sl| - 1 <= |y| <= |sl|
      && y == sl[..|y|]
      && |y| * size <= |s|
      && Flatten(y) == s[..|y| * size]
      && |s| - |y| * size < size
  {
    if |sl| > 0 {
      var init := sl[..|sl| - 1];
      var last := sl[|sl| - 1];
      assert sl == init + [last];
      FlattenAppend(init, last);
      FullOnlyAllFull(init, size);
      FullOnlyConcat(init, [last], size);
      assert FullOnly([last], size) == (if |last| == size then [last] else []) + FullOnly([], size);
      DropsTail(s, size, init, last, FullOnly(sl, size));
    }
  }

  /** The arithmetic of `FullBatchDropsTail`: full batches followed by a
      last batch that is kept only when full. */
  lemma DropsTail<T>(s: seq<T>, size: nat, init: seq<seq<T>>, last: seq<T>, y: seq<seq<T>>)
    requires size > 0
    requires forall k :: 0 <= k < |init| ==> |init[k]| == size
    requires 0 < |last| <= size
    requires Flatten(init) + last == s
    requires y == init + (if |last| == size then [last] else [])
    ensures |y| * size <= |s|
    ensures Flatten(y) == s[..|y| * size]
    ensures |s| - |y| * size < size
  {
    FlattenFull(init, size);
    if |last| == size {
      FlattenAppend(init, last);
      MulSucc(|init|, size);
      assert s[..|s|] == s;
    } else {
      assert y == init;
      assert s[..|Flatten(init)|] == Flatten(init);
    }
  }

  lemma {:induction false} FullOnlyConcat<T>(a: seq<seq<T>>, b: seq<seq<T>>, size: nat)
    ensures FullOnly(a + b, size) == FullOnly(a, size) + FullOnly(b, size)
  {
    if |a| == 0 {
      assert a + b == b;
    } else {
      assert (a + b)[1..] == a[1..] + b;
      FullOnlyConcat(a[1..], b, size);
    }
  }

  lemma {:induction false} FlattenFull<T>(ss: seq<seq<T>>, size: nat)
    requires forall k :: 0 <= k < |ss| ==> |ss[k]| == size
    ensures |Flatten(ss)| == |ss| * size
  {
    if |ss| > 0 {
      FlattenFull(ss[1..], size);
      assert (|ss| - 1) * size + size == |ss| * size;
    }
  }

  /** Element `r` of full batch `q` sits at `q*size + r` of the
      concatenation. */
  lemma {:induction false} FlattenFullAt<T>(ss: seq<seq<T>>, size: nat, q: nat, r: nat)
    requires forall k :: 0 <= k < |ss| ==> |ss[k]| == size
    requires q < |ss| && r < size
    ensures q * size + r < |Flatten(ss)|
    ensures Flatten(ss)[q * size + r] == ss[q][r]
    decreases q
  {
    FlattenFull(ss, size);
    FlattenFull(ss[1..], size);
    assert Flatten(ss) == ss[0] + Flatten(ss[1..]);
    if q > 0 {
      FlattenFullAt(ss[1..], size, q - 1, r);
      MulSucc(q - 1, size);
      assert ss[1..][q - 1] == ss[q];
    }
  }

  /** Slicing a concatenation of full batches followed by one short, non-empty
      batch gives those batches back. */
  lemma {:induction false} SlicesOfBatches<T>(full: seq<seq<T>>, tail: seq<T>, size: nat)
    requires size > 0
    requires forall k :: 0 <= k < |full| ==> |full[k]| == size
    requires |tail| < size
    ensures Slices(Flatten(full) + tail, size) == full + (if |tail| == 0 then [] else [tail])
  {
    if |full| == 0 {
      assert Flatten(full) + tail == tail;
    } else {
      var rest := Flatten(full[1..]) + tail;
      var s := Flatten(full) + tail;
      assert s == full[0] + rest;
      if |full| == 1 {
        assert rest == tail;
        if |tail| == 0 {
          assert s == full[0];
        } else {
          assert s[..size] == full[0];
          assert s[size..] == tail;
        }
      } else {
        assert Flatten(full[1..]) == full[1] + Flatten(full[2..]);
        assert s[..size] == full[0];
        assert s[size..] == rest;
        SlicesOfBatches(full[1..], tail, size);
        assert full == [full[0]] + full[1..];
      }
    }
  }

  /** A stream cut into full batches plus a short tail: with `full_batch`
      the tail is not yielded. */
  lemma YieldedOfBatches<T>(full: seq<seq<T>>, tail: seq<T>, size: nat)
    requires size > 0
    requires forall k :: 0 <= k < |full| ==> |full[k]| == size
    requires |tail| < size
    ensures Yielded(Flatten(full) + tail, size, true) == full
  {
    SlicesOfBatches(full, tail, size);
    var rest: seq<seq<T>> := if |tail| == 0 then [] else [tail];
    FullOnlyConcat(full, rest, size);
    FullOnlyAllFull(full, size);
    assert FullOnly(rest, size) == [];
    assert full + [] == full;
  }

  function Range(n: nat): (r: seq<nat>)
    ensures |r| == n
    ensures forall i :: 0 <= i < n ==> r[i] == i
  {
    seq(n, i => i)
  }

  /** `p` lists every index `0..n-1` exactly once: what a shuffle of
      `np.arange(n)` returns. */
  predicate IsPermutation(p: seq<nat>, n: nat)
  {
    && |p| == n
    && (forall i :: 0 <= i < |p| ==> p[i] < n)
    && (forall k :: 0 <= k < n ==> k in p)
    && (forall i, j :: 0 <= i < j < |p| ==> p[i] != p[j])
  }

  /** The index order of one epoch: `np.arange(n)`, shuffled in place when
      `random` is set (the shuffle's result is the input `shuffled`). */
  function EpochOrder(n: nat, random: bool, shuffled: seq<nat>): (r: seq<nat>)
    requires random ==> IsPermutation(shuffled, n)
    ensures IsPermutation(r, n)
    ensures !random ==> forall i :: 0 <= i < n ==> r[i] == i
  {
    if random then shuffled
    else
      var r := Range(n);
      forall k | 0 <= k < n
        ensures k in r
      {
        assert r[k] == k;
      }
      r
  }

  /** The elements of `s` at the indices `idx`, in index order. */
  function Gather<T>(s: seq<T>, idx: seq<nat>): (r: seq<T>)
    requires forall i :: 0 <= i < |idx| ==> idx[i] < |s|
    ensures |r| == |idx|
    ensures forall i :: 0 <= i < |idx| ==> r[i] == s[idx[i]]
  {
    seq(|idx|, i requires 0 <= i < |idx| => s[idx[i]])
  }

  /** `a` is `b` with some elements removed, the rest in their order. */
  predicate IsSubsequence<T(==)>(a: seq<T>, b: seq<T>)
    decreases |b|
  {
    if |a| == 0 then true
    else if |b| == 0 then false
    else if a[0] == b[0] then IsSubsequence(a[1..], b[1..])
    else IsSubsequence(a, b[1..])
  }

  lemma {:induction false} SubsequenceRefl<T>(a: seq<T>)
    ensures IsSubsequence(a, a)
  {
    if |a| > 0 {
      SubsequenceRefl(a[1..]);
    }
  }

  lemma {:induction false} SubsequenceLength<T>(a: seq<T>, b: seq<T>)
    requires IsSubsequence(a, b)
    ensures |a| <= |b|
    decreases |b|
  {
    if |a| > 0 {
      if a[0] == b[0] {
        SubsequenceLength(a[1..], b[1..]);
      } else {
        SubsequenceLength(a, b[1..]);
      }
    }
  }

  /** Dropping the element at `i` keeps the others in order. */
  lemma {:induction false} RemoveAtIsSubsequence<T>(b: seq<T>, i: nat)
    requires i < |b|
    ensures IsSubsequence(b[..i] + b[i + 1..], b)
    decreases |b|
  {
    if i == 0 {
      assert b[..0] + b[1..] == b[1..];
      SubsequenceRefl(b[1..]);
      SubsequenceDropFront(b[1..], b);
    } else {
      RemoveAtIsSubsequence(b[1..], i - 1);
      assert (b[..i] + b[i + 1..])[1..] == b[1..][..i - 1] + b[1..][i..];
    }
  }

  /** A sub-sequence of `b[1..]` is a sub-sequence of `b`. */
  lemma {:induction false} SubsequenceDropFront<T>(a: seq<T>, b: seq<T>)
    requires |b| > 0
    requires IsSubsequence(a, b[1..])
    ensures IsSubsequence(a, b)
    decreases |b|, 0
  {
    if |a| > 0 && a[0] == b[0] {
      // a[1..] is a sub-sequence of a's own tail, which sits in b[1..]
      SubsequenceTail(a, b[1..]);
    }
  }

  /** Removing the head of a sub-sequence keeps it a sub-sequence. */
  lemma {:induction false} SubsequenceTail<T>(a: seq<T>, b: seq<T>)
    requires |a| > 0
    requires IsSubsequence(a, b)
    ensures IsSubsequence(a[1..], b)
    decreases |b|, 1
  {
    assert |b| > 0;
    if a[0] == b[0] {
      SubsequenceDropFront(a[1..], b);
    } else {
      SubsequenceTail(a, b[1..]);
      SubsequenceDropFront(a[1..], b);
    }
  }

  lemma {:induction false} SubsequenceTrans<T>(a: seq<T>, b: seq<T>, c: seq<T>)
    requires IsSubsequence(a, b) && IsSubsequence(b, c)
    ensures IsSubsequence(a, c)
    decreases |c|
  {
    if |a| == 0 {
    } else {
      assert |b| > 0;
      assert |c| > 0;
      if b[0] == c[0] {
        if a[0] == b[0] {
          SubsequenceTrans(a[1..], b[1..], c[1..]);
        } else {
          SubsequenceTrans(a, b[1..], c[1..]);
          SubsequenceDropFront(a, c);
        }
      } else {
        SubsequenceTrans(a, b, c[1..]);
        SubsequenceDropFront(a, c);
      }
    }
  }
}
