/** Batch composition of `CandidatesLunaPropsDataGenerator.generate`: two
    shuffled index streams, patients with annotated nodules and patients
    without, are consumed side by side. Batch `k` takes the `k`-th slice of
    `nPositive` positive patients followed by the `k`-th window of
    `batchSize - nPositive` negative patients; the number of batches is set
    by the positive stream alone. */
module TwoStreamBatches {

  import opened Seqs

  /** The patient indices of one batch: positive-stream first, then
      negative-stream. */
  datatype MixedBatch = MixedBatch(positives: seq<nat>, negatives: seq<nat>)

  /** `negOrder[k*w : (k+1)*w]`, with Python's clamping of both ends. */
  function NegWindow(negOrder: seq<nat>, k: nat, w: nat): (r: seq<nat>)
    ensures |r| <= w
    ensures |r| == w <==> k * w + w <= |negOrder|
    ensures forall i :: 0 <= i < |r| ==> k * w + i < |negOrder| && r[i] == negOrder[k * w + i]
  {
    negOrder[Min(k * w, |negOrder|) .. Min(k * w + w, |negOrder|)]
  }

  /** All batches of one epoch, before the `full_batch` filter. */
  function MixedBatches(posOrder: seq<nat>, negOrder: seq<nat>, batchSize: nat, nPositive: nat): (r: seq<MixedBatch>)
    requires 0 < nPositive <= batchSize
    ensures |r| == |Slices(posOrder, nPositive)|
    ensures forall k :: 0 <= k < |r| ==> |r[k].positives| + |r[k].negatives| <= batchSize
    ensures forall k :: 0 <= k < |r| ==> 0 < |r[k].positives|
    // every batch but the last carries a full positive part
    ensures forall k :: 0 <= k < |r| - 1 ==> |r[k].positives| == nPositive
    // a batch is full exactly when both of its parts are
    ensures forall k :: 0 <= k < |r| ==>
      (|r[k].positives| + |r[k].negatives| == batchSize <==>
       |r[k].positives| == nPositive && |r[k].negatives| == batchSize - nPositive)
    // the negative part is full exactly when the negative stream reaches past its window
    ensures forall k :: 0 <= k < |r| ==>
      (|r[k].negatives| == batchSize - nPositive <==> k * (batchSize - nPositive) + (batchSize - nPositive) <= |negOrder|)
  {
    var ps := Slices(posOrder, nPositive);
    seq(|ps|, k requires 0 <= k < |ps| => MixedBatch(ps[k], NegWindow(negOrder, k, batchSize - nPositive)))
  }

  function Size(b: MixedBatch): nat
  {
    |b.positives| + |b.negatives|
  }

  /** The batches one epoch yields: all of them, or with `full_batch` those
      of exactly `batchSize` patients. */
  function YieldedMixed(bs: seq<MixedBatch>, batchSize: nat, fullBatch: bool): (r: seq<MixedBatch>)
    ensures fullBatch ==> forall k :: 0 <= k < |r| ==> Size(r[k]) == batchSize
    ensures !fullBatch ==> r == bs
    ensures |r| <= |bs|
  {
    if !fullBatch || |bs| == 0 then bs
    else (if Size(bs[0]) == batchSize then [bs[0]] else []) + YieldedMixed(bs[1..], batchSize, fullBatch)
  }

  /** The patient ids of one batch, as `generate` lists them. */
  function BatchPids(posPids: seq<string>, negPids: seq<string>, b: MixedBatch): (r: seq<string>)
    requires forall i :: 0 <= i < |b.positives| ==> b.positives[i] < |posPids|
    requires forall i :: 0 <= i < |b.negatives| ==> b.negatives[i] < |negPids|
    ensures |r| == Size(b)
    ensures forall i :: 0 <= i < |b.positives| ==> r[i] == posPids[b.positives[i]]
    ensures forall i :: 0 <= i < |b.negatives| ==> r[|b.positives| + i] == negPids[b.negatives[i]]
  {
    Gather(posPids, b.positives) + Gather(negPids, b.negatives)
  }

  /** Batch `k` of the epoch lists the ids of positive patients
      `posOrder[k*p : k*p + p]`, then those of negative patients
      `negOrder[k*w : (k+1)*w]`, both slices clamped as in Python. */
  lemma MixedBatchPids(posPids: seq<string>, negPids: seq<string>, posOrder: seq<nat>, negOrder: seq<nat>,
                       batchSize: nat, nPositive: nat, k: nat)
    requires 0 < nPositive <= batchSize
    requires forall i :: 0 <= i < |posOrder| ==> posOrder[i] < |posPids|
    requires forall i :: 0 <= i < |negOrder| ==> negOrder[i] < |negPids|
    requires k < |MixedBatches(posOrder, negOrder, batchSize, nPositive)|
    ensures k * nPositive < |posOrder|
    ensures var b := MixedBatches(posOrder, negOrder, batchSize, nPositive)[k];
      var w := batchSize - nPositive;
      var lo := Min(k * w, |negOrder|);
      b.positives == posOrder[k * nPositive .. Min(k * nPositive + nPositive, |posOrder|)]
      && b.negatives == negOrder[lo .. Min(k * w + w, |negOrder|)]
      && BatchPids(posPids, negPids, b)
         == Gather(posPids, posOrder[k * nPositive .. Min(k * nPositive + nPositive, |posOrder|)])
          + Gather(negPids, negOrder[lo .. Min(k * w + w, |negOrder|)])
  {
    var b := MixedBatches(posOrder, negOrder, batchSize, nPositive)[k];
    SliceAt(posOrder, nPositive, k);
    assert b.negatives == NegWindow(negOrder, k, batchSize - nPositive);
  }

  function PosParts(bs: seq<MixedBatch>): (r: seq<seq<nat>>)
    ensures |r| == |bs|
  {
    seq(|bs|, k requires 0 <= k < |bs| => bs[k].positives)
  }

  function NegParts(bs: seq<MixedBatch>): (r: seq<seq<nat>>)
    ensures |r| == |bs|
  {
    seq(|bs|, k requires 0 <= k < |bs| => bs[k].negatives)
  }

  /** The positive stream is consumed exactly once per epoch, in order. */
  lemma PositivesConsumedOnce(posOrder: seq<nat>, negOrder: seq<nat>, batchSize: nat, nPositive: nat)
    requires 0 < nPositive <= batchSize
    ensures Flatten(PosParts(MixedBatches(posOrder, negOrder, batchSize, nPositive))) == posOrder
  {
    var bs := MixedBatches(posOrder, negOrder, batchSize, nPositive);
    assert PosParts(bs) == Slices(posOrder, nPositive);
    SlicesFlatten(posOrder, nPositive);
  }

  /** The negative stream is consumed as a prefix: as many windows as there
      are positive slices, so negatives beyond `m * (batchSize - nPositive)`
      are never used in the epoch. */
  lemma NegativesArePrefix(posOrder: seq<nat>, negOrder: seq<nat>, batchSize: nat, nPositive: nat)
    requires 0 < nPositive <= batchSize
    ensures var bs := MixedBatches(posOrder, negOrder, batchSize, nPositive);
      Flatten(NegParts(bs)) == negOrder[..Min(|bs| * (batchSize - nPositive), |negOrder|)]
  {
    var bs := MixedBatches(posOrder, negOrder, batchSize, nPositive);
    var w := batchSize - nPositive;
    assert NegParts(bs) == Windows(negOrder, w, |bs|);
    FlattenWindows(negOrder, w, |bs|);
  }

  function Windows(negOrder: seq<nat>, w: nat, m: nat): (r: seq<seq<nat>>)
    ensures |r| == m
  {
    seq(m, k requires 0 <= k < m => NegWindow(negOrder, k, w))
  }

  lemma {:induction false} FlattenWindows(negOrder: seq<nat>, w: nat, m: nat)
    ensures Flatten(Windows(negOrder, w, m)) == negOrder[..Min(m * w, |negOrder|)]
  {
    if m > 0 {
      FlattenWindows(negOrder, w, m - 1);
      WindowsSnoc(negOrder, w, m);
      FlattenAppend(Windows(negOrder, w, m - 1), NegWindow(negOrder, m - 1, w));
      MulPred(m, w);
      PrefixThenWindow(negOrder, (m - 1) * w, m * w, w);
    }
  }

  lemma WindowsSnoc(negOrder: seq<nat>, w: nat, m: nat)
    requires m > 0
    ensures Windows(negOrder, w, m) == Windows(negOrder, w, m - 1) + [NegWindow(negOrder, m - 1, w)]
  {
    assert forall k :: 0 <= k < m ==> Windows(negOrder, w, m)[k] == (Windows(negOrder, w, m - 1) + [NegWindow(negOrder, m - 1, w)])[k];
  }

  lemma PrefixThenWindow(negOrder: seq<nat>, a: nat, b: nat, w: nat)
    requires b == a + w
    ensures negOrder[..Min(a, |negOrder|)] + negOrder[Min(a, |negOrder|) .. Min(a + w, |negOrder|)]
         == negOrder[..Min(b, |negOrder|)]
  {
  }

  /** Fullness is closed downwards: once a batch is full, so is every
      batch before it. */
  predicate FullDownClosed(bs: seq<MixedBatch>, batchSize: nat)
  {
    forall j, k :: 0 <= j < k < |bs| && Size(bs[k]) == batchSize ==> Size(bs[j]) == batchSize
  }

  lemma {:induction false} YieldedPrefix(bs: seq<MixedBatch>, batchSize: nat)
    requires FullDownClosed(bs, batchSize)
    ensures var r := YieldedMixed(bs, batchSize, true);
      r == bs[..|r|] && forall k :: 0 <= k < |bs| ==> (Size(bs[k]) == batchSize <==> k < |r|)
  {
    if |bs| > 0 {
      var r := YieldedMixed(bs, batchSize, true);
      var t := YieldedMixed(bs[1..], batchSize, true);
      assert FullDownClosed(bs[1..], batchSize) by {
        forall j, k | 0 <= j < k < |bs[1..]| && Size(bs[1..][k]) == batchSize
          ensures Size(bs[1..][j]) == batchSize
        {
          assert bs[1..][k] == bs[k + 1] && bs[1..][j] == bs[j + 1];
        }
      }
      YieldedPrefix(bs[1..], batchSize);
      if Size(bs[0]) == batchSize {
        assert r == [bs[0]] + t;
        assert r == bs[..|r|];
      } else {
        assert r == [];
      }
    }
  }

  lemma MulMono(j: nat, k: nat, w: nat)
    requires j <= k
    ensures j * w <= k * w
  {
  }

  lemma MixedBatchesDownClosed(posOrder: seq<nat>, negOrder: seq<nat>, batchSize: nat, nPositive: nat)
    requires 0 < nPositive <= batchSize
    ensures FullDownClosed(MixedBatches(posOrder, negOrder, batchSize, nPositive), batchSize)
  {
    var bs := MixedBatches(posOrder, negOrder, batchSize, nPositive);
    var w := batchSize - nPositive;
    forall j, k | 0 <= j < k < |bs| && Size(bs[k]) == batchSize
      ensures Size(bs[j]) == batchSize
    {
      assert bs[k].negatives == NegWindow(negOrder, k, w);
      assert bs[j].negatives == NegWindow(negOrder, j, w);
      NegWindowFullBefore(negOrder, j, k, w);
    }
  }

  /** A full negative window is preceded only by full windows. */
  lemma NegWindowFullBefore(negOrder: seq<nat>, j: nat, k: nat, w: nat)
    requires j <= k
    requires |NegWindow(negOrder, k, w)| == w
    ensures |NegWindow(negOrder, j, w)| == w
  {
    MulMono(j, k, w);
  }

  /** With `full_batch`, the props generator yields a prefix of the epoch's
      batches: it stops at the first short batch (whether the positives or
      the negatives ran out), and every batch before it is yielded. */
  lemma FullBatchesArePrefix(posOrder: seq<nat>, negOrder: seq<nat>, batchSize: nat, nPositive: nat)
    requires 0 < nPositive <= batchSize
    ensures var bs := MixedBatches(posOrder, negOrder, batchSize, nPositive);
      var r := YieldedMixed(bs, batchSize, true);
      r == bs[..|r|] && forall k :: 0 <= k < |bs| ==> (Size(bs[k]) == batchSize <==> k < |r|)
  {
    MixedBatchesDownClosed(posOrder, negOrder, batchSize, nPositive);
    YieldedPrefix(MixedBatches(posOrder, negOrder, batchSize, nPositive), batchSize);
  }

  /** A full batch `k` has used the first `k + 1` slices of both streams in
      full: neither stream was exhausted before it. */
  lemma FullBatchUsesBothStreams(posOrder: seq<nat>, negOrder: seq<nat>, batchSize: nat, nPositive: nat, k: nat)
    requires 0 < nPositive <= batchSize
    requires k < |MixedBatches(posOrder, negOrder, batchSize, nPositive)|
    requires Size(MixedBatches(posOrder, negOrder, batchSize, nPositive)[k]) == batchSize
    ensures (k + 1) * nPositive <= |posOrder|
    ensures (k + 1) * (batchSize - nPositive) <= |negOrder|
  {
    var bs := MixedBatches(posOrder, negOrder, batchSize, nPositive);
    var w := batchSize - nPositive;
    assert |bs[k].positives| == nPositive && |bs[k].negatives| == w;
    SliceAt(posOrder, nPositive, k);
    MulSucc(k, nPositive);
    MulSucc(k, w);
  }
}
