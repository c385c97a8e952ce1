/** `BalancedDSBPatientsDataGenerator`: patients are split by their cancer
    label; one epoch walks a shuffled list of the cancer-free patients, and
    before each of them a fair coin may insert a randomly chosen patient with
    cancer. The epoch ends when every cancer-free patient has been drawn.

    The coin flips, the `rng.choice` picks and the shuffle are inputs:
    `coins[j]` is the `j`-th flip (true: take a patient with cancer),
    `picks[j]` the index `rng.choice` returned at that flip, and `negOrder`
    the shuffled `np.arange(n_neg_ids)`. */
module BalancedSampler {

  import opened Wrappers
  import opened Seqs

  datatype SamplerError =
    /** `rng.choice` on the empty list of patients with cancer. */
    | NoPositivePatients

  /** `__init__`: the patients with cancer and those without, each in the
      order of `patient_ids`; a patient missing from the label file raises
      a KeyError, reported here with its id. A label counts as cancer when
      it is non-zero (Python truthiness of the integer label). */
  function SplitByLabel(ids: seq<string>, labels: map<string, int>): (r: Result<(seq<string>, seq<string>), string>)
    ensures r.Ok? <==> forall i :: 0 <= i < |ids| ==> ids[i] in labels
    ensures r.Err? ==> exists i :: 0 <= i < |ids| && ids[i] == r.error && ids[i] !in labels &&
                                (forall j :: 0 <= j < i ==> ids[j] in labels)
    ensures r.Ok? ==> |r.value.0| + |r.value.1| == |ids|
    ensures r.Ok? ==> forall i :: 0 <= i < |r.value.0| ==> r.value.0[i] in labels && labels[r.value.0[i]] != 0
    ensures r.Ok? ==> forall i :: 0 <= i < |r.value.1| ==> r.value.1[i] in labels && labels[r.value.1[i]] == 0
    ensures r.Ok? ==> IsSubsequence(r.value.0, ids) && IsSubsequence(r.value.1, ids)
  {
    if |ids| == 0 then Ok(([], []))
    else if ids[0] !in labels then Err(ids[0])
    else match SplitByLabel(ids[1..], labels)
      case Err(e) =>
        assert forall j :: 0 <= j < |ids| - 1 ==> ids[1..][j] == ids[j + 1];
        Err(e)
      case Ok((pos, neg)) =>
        assert forall j :: 1 <= j < |ids| ==> ids[j] == ids[1..][j - 1];
        if labels[ids[0]] != 0 then
          SubsequenceDropFront(neg, ids);
          assert ([ids[0]] + pos)[1..] == pos;
          Ok(([ids[0]] + pos, neg))
        else
          SubsequenceDropFront(pos, ids);
          assert ([ids[0]] + neg)[1..] == neg;
          Ok((pos, [ids[0]] + neg))
  }

  /** `prepare_batch`: the candidates file of every drawn patient, in batch
      order. The constructor keeps in `patient_paths` only the ids that have
      a candidates file, but draws from `pos_ids` and `neg_ids`, which are
      not filtered; a drawn id without a file raises a KeyError, reported
      here with the first such id of the batch. */
  function PrepareBatch(batch: seq<string>, candidatesPath: map<string, string>): (r: Result<seq<string>, string>)
    ensures r.Ok? <==> forall i :: 0 <= i < |batch| ==> batch[i] in candidatesPath
    ensures r.Ok? ==> |r.value| == |batch| && forall i :: 0 <= i < |batch| ==> r.value[i] == candidatesPath[batch[i]]
    ensures r.Err? ==> exists i :: 0 <= i < |batch| && batch[i] == r.error && batch[i] !in candidatesPath &&
                                (forall j :: 0 <= j < i ==> batch[j] in candidatesPath)
  {
    if |batch| == 0 then Ok([])
    else if batch[0] !in candidatesPath then Err(batch[0])
    else match PrepareBatch(batch[1..], candidatesPath)
      case Err(e) =>
        assert forall j :: 0 <= j < |batch| - 1 ==> batch[1..][j] == batch[j + 1];
        Err(e)
      case Ok(rest) =>
        assert forall j :: 1 <= j < |batch| ==> batch[j] == batch[1..][j - 1];
        Ok([candidatesPath[batch[0]]] + rest)
  }

  /** A labelled cancer-free patient without a candidates file passes the
      constructor, is drawn by the first flip of an epoch, and makes
      `prepare_batch` raise. */
  lemma UnfilteredDrawFails(ids: seq<string>, labels: map<string, int>, candidatesPath: map<string, string>)
    requires ids == ["a"] && labels == map["a" := 0] && candidatesPath == map[]
    ensures SplitByLabel(ids, labels) == Ok(([], ["a"]))
    ensures Fits([], ["a"], [0], [false], [0], 1)
    ensures Stream([], ["a"], [0], [false], [0], 1) == ["a"]
    ensures PrepareBatch(Stream([], ["a"], [0], [false], [0], 1), candidatesPath) == Err("a")
  {
    assert ids[1..] == [];
    assert SplitByLabel(ids[1..], labels) == Ok(([], []));
    assert ids[0] in labels && labels[ids[0]] == 0;
    assert SplitByLabel(ids, labels) == Ok(([], [ids[0]] + []));
    assert [ids[0]] + [] == ["a"];
    assert CountFalse([false][..0]) == 0;
  }

  /** Number of cancer-free draws among the coin flips. */
  function CountFalse(coins: seq<bool>): (r: nat)
    ensures r <= |coins|
  {
    if |coins| == 0 then 0
    else CountFalse(coins[..|coins| - 1]) + (if coins[|coins| - 1] then 0 else 1)
  }

  lemma {:induction false} CountFalseMonotone(coins: seq<bool>, i: nat, j: nat)
    requires i <= j <= |coins|
    ensures CountFalse(coins[..i]) <= CountFalse(coins[..j])
    decreases j
  {
    if i < j {
      CountFalseMonotone(coins, i, j - 1);
      assert coins[..j][..j - 1] == coins[..j - 1];
    }
  }

  /** The flips of a whole epoch: exactly `n` cancer-free draws, the last
      flip being one of them (the loop stops right after the `n`-th). */
  predicate EndsEpoch(coins: seq<bool>, n: nat)
  {
    CountFalse(coins) == n && (|coins| > 0 ==> !coins[|coins| - 1])
  }

  /** Before the last flip, some cancer-free patient is still to come: the
      loop condition `neg_rand_idxs_ptr < n_neg_ids` holds exactly while
      flips remain. */
  lemma EpochRunsToEnd(coins: seq<bool>, n: nat, i: nat)
    requires EndsEpoch(coins, n)
    requires i <= |coins|
    ensures i < |coins| <==> CountFalse(coins[..i]) < n
  {
    if i < |coins| {
      CountFalseMonotone(coins, i, |coins| - 1);
    } else {
      assert coins[..i] == coins;
    }
  }

  /** The inputs of one epoch fit each other up to flip `n`. */
  predicate Fits(posIds: seq<string>, negIds: seq<string>, negOrder: seq<nat>,
                 coins: seq<bool>, picks: seq<nat>, n: nat)
  {
    && n <= |coins|
    && |picks| == |coins|
    && IsPermutation(negOrder, |negIds|)
    && EndsEpoch(coins, |negIds|)
    && (forall j :: 0 <= j < n && coins[j] ==> picks[j] < |posIds|)
  }

  /** The patient drawn at flip `j`: the picked patient with cancer, or the
      next cancer-free patient of the shuffled order, whose position is the
      number of cancer-free draws before `j`. */
  function DrawAt(posIds: seq<string>, negIds: seq<string>, negOrder: seq<nat>,
                  coins: seq<bool>, picks: seq<nat>, j: nat): (r: string)
    requires Fits(posIds, negIds, negOrder, coins, picks, j + 1)
    ensures coins[j] ==> r in posIds
    ensures !coins[j] ==> r in negIds
  {
    if coins[j] then posIds[picks[j]]
    else
      EpochRunsToEnd(coins, |negIds|, j);
      negIds[negOrder[CountFalse(coins[..j])]]
  }

  /** The first `n` patients of the epoch, before batching. */
  function Stream(posIds: seq<string>, negIds: seq<string>, negOrder: seq<nat>,
                  coins: seq<bool>, picks: seq<nat>, n: nat): (r: seq<string>)
    requires Fits(posIds, negIds, negOrder, coins, picks, n)
    ensures |r| == n
  {
    seq(n, j requires 0 <= j < n => DrawAt(posIds, negIds, negOrder, coins, picks, j))
  }

  /** Flip `j` decides which group the `j`-th patient of the stream comes
      from. */
  lemma StreamFollowsFlips(posIds: seq<string>, negIds: seq<string>, negOrder: seq<nat>,
                           coins: seq<bool>, picks: seq<nat>, n: nat)
    requires Fits(posIds, negIds, negOrder, coins, picks, n)
    ensures var r := Stream(posIds, negIds, negOrder, coins, picks, n);
      forall j :: 0 <= j < n ==> (coins[j] ==> r[j] in posIds) && (!coins[j] ==> r[j] in negIds)
  {
    var r := Stream(posIds, negIds, negOrder, coins, picks, n);
    forall j | 0 <= j < n
      ensures (coins[j] ==> r[j] in posIds) && (!coins[j] ==> r[j] in negIds)
    {
      assert Fits(posIds, negIds, negOrder, coins, picks, j + 1);
      assert r[j] == DrawAt(posIds, negIds, negOrder, coins, picks, j);
    }
  }

  lemma StreamStep(posIds: seq<string>, negIds: seq<string>, negOrder: seq<nat>,
                   coins: seq<bool>, picks: seq<nat>, i: nat)
    requires Fits(posIds, negIds, negOrder, coins, picks, i + 1)
    ensures CountFalse(coins[..i + 1]) == CountFalse(coins[..i]) + (if coins[i] then 0 else 1)
    ensures Stream(posIds, negIds, negOrder, coins, picks, i + 1)
      == Stream(posIds, negIds, negOrder, coins, picks, i) + [DrawAt(posIds, negIds, negOrder, coins, picks, i)]
  {
    assert coins[..i + 1][..i] == coins[..i];
  }

  /** A flip the loop survives keeps the inputs fitting one flip further. */
  lemma FitsStep(posIds: seq<string>, negIds: seq<string>, negOrder: seq<nat>,
                 coins: seq<bool>, picks: seq<nat>, i: nat)
    requires Fits(posIds, negIds, negOrder, coins, picks, i)
    requires i < |coins|
    requires forall j :: 0 <= j < |coins| && coins[j] && |posIds| > 0 ==> picks[j] < |posIds|
    requires !(coins[i] && |posIds| == 0)
    ensures Fits(posIds, negIds, negOrder, coins, picks, i + 1)
  {
  }

  /** The loop body appends the draw of flip `i` to the stream and moves
      the position in the cancer-free order past it when it was used. */
  lemma DrawStep(posIds: seq<string>, negIds: seq<string>, negOrder: seq<nat>,
                 coins: seq<bool>, picks: seq<nat>, i: nat, ptr: nat, prefix: seq<string>)
    requires Fits(posIds, negIds, negOrder, coins, picks, i + 1)
    requires ptr == CountFalse(coins[..i])
    requires prefix == Stream(posIds, negIds, negOrder, coins, picks, i)
    ensures CountFalse(coins[..i + 1]) == ptr + (if coins[i] then 0 else 1)
    ensures !coins[i] ==> ptr < |negOrder|
    ensures coins[i] ==> picks[i] < |posIds|
    ensures prefix + [if coins[i] then posIds[picks[i]] else negIds[negOrder[ptr]]]
         == Stream(posIds, negIds, negOrder, coins, picks, i + 1)
  {
    StreamStep(posIds, negIds, negOrder, coins, picks, i);
    EpochRunsToEnd(coins, |negIds|, i);
  }

  /** Index of the first flip that asks for a patient with cancer, or
      `|coins|` when there is none. */
  function FirstTrue(coins: seq<bool>): (r: nat)
    ensures r <= |coins|
    ensures forall j :: 0 <= j < r ==> !coins[j]
    ensures r < |coins| ==> coins[r]
  {
    if |coins| == 0 || coins[0] then 0 else 1 + FirstTrue(coins[1..])
  }

  /** One epoch of `generate`: full batches are yielded as soon as they
      fill up, the half-filled last batch after the loop. With no patient
      with cancer, the first flip that asks for one raises; the batches
      yielded until then are returned with the failure. A batch size of 0
      never fills, so the whole epoch comes out as one batch. */
  method Generate(posIds: seq<string>, negIds: seq<string>, negOrder: seq<nat>,
                  coins: seq<bool>, picks: seq<nat>, batchSize: nat)
    returns (batches: seq<seq<string>>, failure: Option<SamplerError>)
    requires |picks| == |coins|
    requires IsPermutation(negOrder, |negIds|)
    requires EndsEpoch(coins, |negIds|)
    requires forall j :: 0 <= j < |coins| && coins[j] && |posIds| > 0 ==> picks[j] < |posIds|
    ensures failure.Some? <==> |posIds| == 0 && true in coins
    ensures failure.None? ==> Fits(posIds, negIds, negOrder, coins, picks, |coins|)
    ensures failure.None? && batchSize > 0 ==>
      batches == Slices(Stream(posIds, negIds, negOrder, coins, picks, |coins|), batchSize)
    ensures failure.None? && batchSize == 0 ==>
      batches == (if |coins| == 0 then [] else [Stream(posIds, negIds, negOrder, coins, picks, |coins|)])
    ensures failure.Some? ==> Fits(posIds, negIds, negOrder, coins, picks, FirstTrue(coins))
    ensures failure.Some? && batchSize > 0 ==>
      batches == Yielded(Stream(posIds, negIds, negOrder, coins, picks, FirstTrue(coins)), batchSize, true)
    ensures failure.Some? && batchSize == 0 ==> batches == []
  {
    var filled, batch, failed := Walk(posIds, negIds, negOrder, coins, picks, batchSize);
    if failed {
      batches := filled;
      failure := Some(NoPositivePatients);
      return;
    }
    Finish(posIds, negIds, negOrder, coins, picks, |coins|, filled, batch, batchSize);
    batches := filled;
    if |batch| > 0 {
      FlattenAppend(filled, batch);
      batches := filled + [batch];
    }
    failure := None;
  }

  /** The loop of `generate`: the full batches it yields and the batch left
      half-filled at the end, or the full batches yielded before the first
      flip for cancer when there is no patient with cancer. */
  method Walk(posIds: seq<string>, negIds: seq<string>, negOrder: seq<nat>,
              coins: seq<bool>, picks: seq<nat>, batchSize: nat)
    returns (batches: seq<seq<string>>, batch: seq<string>, failed: bool)
    requires |picks| == |coins|
    requires IsPermutation(negOrder, |negIds|)
    requires EndsEpoch(coins, |negIds|)
    requires forall j :: 0 <= j < |coins| && coins[j] && |posIds| > 0 ==> picks[j] < |posIds|
    ensures failed <==> |posIds| == 0 && true in coins
    ensures failed ==> Fits(posIds, negIds, negOrder, coins, picks, FirstTrue(coins))
    ensures failed && batchSize > 0 ==>
      batches == Yielded(Stream(posIds, negIds, negOrder, coins, picks, FirstTrue(coins)), batchSize, true)
    ensures failed && batchSize == 0 ==> batches == []
    ensures !failed ==> Walked(posIds, negIds, negOrder, coins, picks, batchSize, |coins|, |negIds|, batches, batch)
  {
    var ptr := 0;
    var i := 0;
    batch := [];
    batches := [];
    EpochRunsToEnd(coins, |negIds|, 0);
    while ptr < |negIds|
      invariant Walked(posIds, negIds, negOrder, coins, picks, batchSize, i, ptr, batches, batch)
      decreases |coins| - i
    {
      if coins[i] && |posIds| == 0 {
        FailEarly(posIds, negIds, negOrder, coins, picks, i, batches, batch, batchSize);
        failed := true;
        return;
      }
      WalkStep(posIds, negIds, negOrder, coins, picks, batchSize, i, ptr, batches, batch);
      var drawn := if coins[i] then posIds[picks[i]] else negIds[negOrder[ptr]];
      batch := batch + [drawn];
      if !coins[i] {
        ptr := ptr + 1;
      }
      i := i + 1;
      if |batch| == batchSize {
        batches := batches + [batch];
        batch := [];
      }
    }
    assert coins[..i] == coins;
    failed := false;
  }


  /** The state of `generate` after `i` flips: `ptr` cancer-free patients
      drawn, the inputs fitting so far, no flip for cancer yet when there is
      no patient with cancer, and the batches holding the stream drawn. */
  ghost predicate Walked(posIds: seq<string>, negIds: seq<string>, negOrder: seq<nat>,
                         coins: seq<bool>, picks: seq<nat>, batchSize: nat,
                         i: nat, ptr: nat, batches: seq<seq<string>>, batch: seq<string>)
  {
    && i <= |coins|
    && ptr == CountFalse(coins[..i])
    && (i < |coins| <==> ptr < |negIds|)
    && Fits(posIds, negIds, negOrder, coins, picks, i)
    && (|posIds| == 0 ==> forall j :: 0 <= j < i ==> !coins[j])
    && Batched(batches, batch, batchSize, Stream(posIds, negIds, negOrder, coins, picks, i))
  }

  /** One iteration of the loop of `generate` keeps `Walked`. */
  lemma WalkStep(posIds: seq<string>, negIds: seq<string>, negOrder: seq<nat>,
                 coins: seq<bool>, picks: seq<nat>, batchSize: nat,
                 i: nat, ptr: nat, batches: seq<seq<string>>, batch: seq<string>)
    requires Walked(posIds, negIds, negOrder, coins, picks, batchSize, i, ptr, batches, batch)
    requires i < |coins|
    requires forall j :: 0 <= j < |coins| && coins[j] && |posIds| > 0 ==> picks[j] < |posIds|
    requires !(coins[i] && |posIds| == 0)
    ensures coins[i] ==> picks[i] < |posIds|
    ensures !coins[i] ==> ptr < |negOrder| && negOrder[ptr] < |negIds|
    ensures var drawn := if coins[i] then posIds[picks[i]] else negIds[negOrder[ptr]];
      var next := if coins[i] then ptr else ptr + 1;
      var b := batch + [drawn];
      && (|b| == batchSize ==> Walked(posIds, negIds, negOrder, coins, picks, batchSize, i + 1, next, batches + [b], []))
      && (|b| != batchSize ==> Walked(posIds, negIds, negOrder, coins, picks, batchSize, i + 1, next, batches, b))
  {
    FitsStep(posIds, negIds, negOrder, coins, picks, i);
    var before := Flatten(batches) + batch;
    DrawStep(posIds, negIds, negOrder, coins, picks, i, ptr, before);
    var drawn := if coins[i] then posIds[picks[i]] else negIds[negOrder[ptr]];
    PushDraw(batches, batch, batchSize, before, drawn);
    EpochRunsToEnd(coins, |negIds|, i + 1);
  }

  /** The batches filled so far and the one being filled hold `stream`,
      in order; all filled batches are full. */
  ghost predicate Batched(batches: seq<seq<string>>, batch: seq<string>, batchSize: nat, stream: seq<string>)
  {
    && Flatten(batches) + batch == stream
    && (batchSize > 0 ==> |batch| < batchSize)
    && (forall k :: 0 <= k < |batches| ==> |batches[k]| == batchSize)
    && (batchSize == 0 ==> batches == [])
  }

  /** Appending one patient to the current batch, and yielding the batch
      once it is full, keeps the batching invariant. */
  lemma PushDraw(batches: seq<seq<string>>, batch: seq<string>, batchSize: nat, stream: seq<string>, x: string)
    requires Batched(batches, batch, batchSize, stream)
    ensures |batch + [x]| == batchSize ==> Batched(batches + [batch + [x]], [], batchSize, stream + [x])
    ensures |batch + [x]| != batchSize ==> Batched(batches, batch + [x], batchSize, stream + [x])
  {
    var b := batch + [x];
    assert Flatten(batches) + b == stream + [x];
    if |b| == batchSize {
      FlattenAppend(batches, b);
      assert Flatten(batches + [b]) + [] == Flatten(batches + [b]);
    }
  }

  /** The state when the first flip asking for a patient with cancer finds
      none: the full batches filled so far are what was yielded. */
  lemma FailEarly(posIds: seq<string>, negIds: seq<string>, negOrder: seq<nat>,
                  coins: seq<bool>, picks: seq<nat>, i: nat,
                  batches: seq<seq<string>>, batch: seq<string>, batchSize: nat)
    requires i < |coins| && coins[i] && |posIds| == 0
    requires Fits(posIds, negIds, negOrder, coins, picks, i)
    requires forall j :: 0 <= j < i ==> !coins[j]
    requires Flatten(batches) + batch == Stream(posIds, negIds, negOrder, coins, picks, i)
    requires batchSize > 0 ==> |batch| < batchSize
    requires forall k :: 0 <= k < |batches| ==> |batches[k]| == batchSize
    ensures true in coins
    ensures FirstTrue(coins) == i
    ensures batchSize > 0 ==>
      batches == Yielded(Stream(posIds, negIds, negOrder, coins, picks, FirstTrue(coins)), batchSize, true)
  {
    FirstTrueIs(coins, i);
    if batchSize > 0 {
      YieldedOfBatches(batches, batch, batchSize);
    }
  }

  lemma {:induction false} FirstTrueIs(coins: seq<bool>, i: nat)
    requires i < |coins| && coins[i]
    requires forall j :: 0 <= j < i ==> !coins[j]
    ensures FirstTrue(coins) == i
    decreases i
  {
    if i > 0 {
      FirstTrueIs(coins[1..], i - 1);
    }
  }

  /** The state after the loop: all flips used, no failure possible. */
  lemma Finish(posIds: seq<string>, negIds: seq<string>, negOrder: seq<nat>,
               coins: seq<bool>, picks: seq<nat>, i: nat,
               batches: seq<seq<string>>, batch: seq<string>, batchSize: nat)
    requires i == |coins|
    requires Fits(posIds, negIds, negOrder, coins, picks, i)
    requires |posIds| == 0 ==> forall j :: 0 <= j < i ==> !coins[j]
    requires Flatten(batches) + batch == Stream(posIds, negIds, negOrder, coins, picks, i)
    requires batchSize > 0 ==> |batch| < batchSize
    requires forall k :: 0 <= k < |batches| ==> |batches[k]| == batchSize
    requires batchSize == 0 ==> batches == []
    ensures !(|posIds| == 0 && true in coins)
    ensures batchSize > 0 ==>
      Slices(Stream(posIds, negIds, negOrder, coins, picks, i), batchSize)
        == batches + (if |batch| == 0 then [] else [batch])
    ensures batchSize == 0 ==> batch == Stream(posIds, negIds, negOrder, coins, picks, i)
  {
    if batchSize > 0 {
      SlicesOfBatches(batches, batch, batchSize);
    }
  }

  /** Cancer-free draws of the first `n` flips, in order. */
  function NegativeDraws(coins: seq<bool>, s: seq<string>, n: nat): (r: seq<string>)
    requires n <= |coins| && n <= |s|
    ensures |r| == CountFalse(coins[..n])
  {
    if n == 0 then []
    else
      assert coins[..n][..n - 1] == coins[..n - 1];
      NegativeDraws(coins, s, n - 1) + (if coins[n - 1] then [] else [s[n - 1]])
  }

  /** Over a whole epoch the cancer-free patients come out in the shuffled
      order, each exactly once. */
  lemma {:induction false} NegativesInShuffledOrder(posIds: seq<string>, negIds: seq<string>, negOrder: seq<nat>,
                                                    coins: seq<bool>, picks: seq<nat>, n: nat)
    requires Fits(posIds, negIds, negOrder, coins, picks, n)
    ensures CountFalse(coins[..n]) <= |negOrder|
    ensures var d := NegativeDraws(coins, Stream(posIds, negIds, negOrder, coins, picks, n), n);
      forall k :: 0 <= k < |d| ==> d[k] == negIds[negOrder[k]]
    decreases n
  {
    EpochRunsToEnd(coins, |negIds|, n);
    CountFalseMonotone(coins, n, |coins|);
    assert coins[..|coins|] == coins;
    if n > 0 {
      NegativesInShuffledOrder(posIds, negIds, negOrder, coins, picks, n - 1);
      var d' := NegativeDraws(coins, Stream(posIds, negIds, negOrder, coins, picks, n - 1), n - 1);
      NegativeDrawsStep(posIds, negIds, negOrder, coins, picks, n);
      var extra := if coins[n - 1] then [] else [DrawAt(posIds, negIds, negOrder, coins, picks, n - 1)];
      if !coins[n - 1] {
        EpochRunsToEnd(coins, |negIds|, n - 1);
        assert extra[0] == negIds[negOrder[|d'|]];
      }
      InOrderExtend(d', extra, negIds, negOrder);
    }
  }

  /** The cancer-free draws of one more flip. */
  lemma NegativeDrawsStep(posIds: seq<string>, negIds: seq<string>, negOrder: seq<nat>,
                          coins: seq<bool>, picks: seq<nat>, n: nat)
    requires Fits(posIds, negIds, negOrder, coins, picks, n) && n > 0
    ensures NegativeDraws(coins, Stream(posIds, negIds, negOrder, coins, picks, n), n)
      == NegativeDraws(coins, Stream(posIds, negIds, negOrder, coins, picks, n - 1), n - 1)
         + (if coins[n - 1] then [] else [DrawAt(posIds, negIds, negOrder, coins, picks, n - 1)])
  {
    var s := Stream(posIds, negIds, negOrder, coins, picks, n);
    var s' := Stream(posIds, negIds, negOrder, coins, picks, n - 1);
    assert s'[..n - 1] == s[..n - 1];
    NegativeDrawsPrefix(coins, s, s', n - 1);
  }

  /** One more draw keeps the cancer-free patients in the shuffled order. */
  lemma InOrderExtend(d: seq<string>, extra: seq<string>, negIds: seq<string>, negOrder: seq<nat>)
    requires IsPermutation(negOrder, |negIds|)
    requires |d| + |extra| <= |negOrder| && |extra| <= 1
    requires forall k :: 0 <= k < |d| ==> d[k] == negIds[negOrder[k]]
    requires |extra| == 1 ==> extra[0] == negIds[negOrder[|d|]]
    ensures forall k :: 0 <= k < |d + extra| ==> (d + extra)[k] == negIds[negOrder[k]]
  {
  }

  lemma {:induction false} NegativeDrawsPrefix(coins: seq<bool>, s: seq<string>, t: seq<string>, n: nat)
    requires n <= |coins| && n <= |s| && n <= |t|
    requires s[..n] == t[..n]
    ensures NegativeDraws(coins, s, n) == NegativeDraws(coins, t, n)
    decreases n
  {
    if n > 0 {
      assert s[..n - 1] == t[..n - 1] by {
        assert s[..n][..n - 1] == s[..n - 1] && t[..n][..n - 1] == t[..n - 1];
      }
      assert s[n - 1] == s[..n][n - 1];
      NegativeDrawsPrefix(coins, s, t, n - 1);
    }
  }

  /** An epoch that completes draws every cancer-free patient exactly once. */
  lemma EveryNegativeOnce(posIds: seq<string>, negIds: seq<string>, negOrder: seq<nat>,
                          coins: seq<bool>, picks: seq<nat>)
    requires Fits(posIds, negIds, negOrder, coins, picks, |coins|)
    ensures var d := NegativeDraws(coins, Stream(posIds, negIds, negOrder, coins, picks, |coins|), |coins|);
      |d| == |negIds| &&
      forall k :: 0 <= k < |negIds| ==> exists i :: 0 <= i < |d| && d[i] == negIds[k]
  {
    var d := NegativeDraws(coins, Stream(posIds, negIds, negOrder, coins, picks, |coins|), |coins|);
    assert coins[..|coins|] == coins;
    NegativesInShuffledOrder(posIds, negIds, negOrder, coins, picks, |coins|);
    forall k | 0 <= k < |negIds|
      ensures exists i :: 0 <= i < |d| && d[i] == negIds[k]
    {
      assert k in negOrder;
      var i :| 0 <= i < |negOrder| && negOrder[i] == k;
      assert d[i] == negIds[k];
    }
  }
}
