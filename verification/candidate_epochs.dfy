/** One epoch of the LUNA candidate training generators
    (`CandidatesLunaDataGenerator`, the second definition, which shadows the
    first, and `CandidatesLunaSizeBinDataGenerator`): the patient indices are
    permuted, cut into batches, and slot `i` of every batch draws one
    candidate of its patient, from the positive annotations when `i` is below
    the positive quota and from the negative candidates otherwise. Scan
    loading and patch extraction are left out; the permutation and the
    `randint` results are inputs. */
module CandidateEpochs {

  import opened Wrappers
  import opened Seqs
  import opened Labels

  /** A training patient with its annotations (positives) and its negative
      candidates. */
  datatype Patient = Patient(pid: string, positives: seq<Candidate>, negatives: seq<Candidate>)

  /** One batch entry: the patient, the drawn patch centre and its target. */
  datatype Sample = Sample(pid: string, center: Candidate, target: real)

  /** `randint(0)` raises: the slot's pool was empty. */
  datatype EpochError = NoCandidates(pid: string, slot: nat)

  function PatientPids(ps: seq<Patient>): (r: seq<string>)
    ensures |r| == |ps|
    ensures forall i :: 0 <= i < |ps| ==> r[i] == ps[i].pid
  {
    seq(|ps|, i requires 0 <= i < |ps| => ps[i].pid)
  }

  /** How many of `ids` have positive annotations (repeats counted). */
  function CountAnnotated(ids: seq<string>, posAnn: map<string, seq<Candidate>>): nat
  {
    if |ids| == 0 then 0
    else (if ids[0] in posAnn then 1 else 0) + CountAnnotated(ids[1..], posAnn)
  }

  /** Who fills the patients list at construction: every requested id that
      has positive annotations, in request order. Looking up its negative
      candidates fails (a `KeyError`) when there are none on record, and the
      first such id in request order is the one reported. */
  function TrainPatients(ids: seq<string>, posAnn: map<string, seq<Candidate>>,
                         negAnn: map<string, seq<Candidate>>): (r: Result<seq<Patient>, string>)
    ensures r.Ok? <==> forall k :: 0 <= k < |ids| && ids[k] in posAnn ==> ids[k] in negAnn
    ensures r.Err? ==> exists k :: 0 <= k < |ids| && r.error == ids[k] && ids[k] in posAnn && ids[k] !in negAnn &&
                          forall j :: 0 <= j < k && ids[j] in posAnn ==> ids[j] in negAnn
    ensures r.Ok? ==> forall p :: p in r.value ==>
      p.pid in posAnn && p.pid in negAnn && p.positives == posAnn[p.pid] && p.negatives == negAnn[p.pid]
    ensures r.Ok? ==> forall k :: 0 <= k < |ids| && ids[k] in posAnn ==> exists p :: p in r.value && p.pid == ids[k]
  {
    if |ids| == 0 then Ok([])
    else
      var pid := ids[0];
      assert forall k :: 1 <= k < |ids| ==> ids[k] == ids[1..][k - 1];
      if pid !in posAnn then TrainPatients(ids[1..], posAnn, negAnn)
      else if pid !in negAnn then Err(pid)
      else
        match TrainPatients(ids[1..], posAnn, negAnn)
        case Err(e) => Err(e)
        case Ok(rest) => Ok([Patient(pid, posAnn[pid], negAnn[pid])] + rest)
  }

  /** The patients are the requested ids with nodules, each as often as it
      was requested, in request order. */
  lemma {:induction false} TrainPatientsInRequestOrder(ids: seq<string>, posAnn: map<string, seq<Candidate>>,
                                                       negAnn: map<string, seq<Candidate>>)
    requires TrainPatients(ids, posAnn, negAnn).Ok?
    ensures var ps := TrainPatients(ids, posAnn, negAnn).value;
      IsSubsequence(PatientPids(ps), ids) && |ps| == CountAnnotated(ids, posAnn)
  {
    if |ids| > 0 {
      var ps := TrainPatients(ids, posAnn, negAnn).value;
      var rest := TrainPatients(ids[1..], posAnn, negAnn).value;
      TrainPatientsInRequestOrder(ids[1..], posAnn, negAnn);
      if ids[0] in posAnn {
        assert ps == [Patient(ids[0], posAnn[ids[0]], negAnn[ids[0]])] + rest;
        assert PatientPids(ps)[1..] == PatientPids(rest);
      } else {
        SubsequenceDropFront(PatientPids(rest), ids);
      }
    }
  }

  /** The candidates slot `slot` of a batch draws from. */
  function Pool(p: Patient, slot: nat, nPositive: nat): seq<Candidate>
  {
    if slot < nPositive then p.positives else p.negatives
  }

  /** The `randint(len(pool))` results of one batch: in range for every slot
      whose pool is not empty. */
  predicate DrawsFit(patients: seq<Patient>, idxs: seq<nat>, nPositive: nat, draws: seq<nat>)
  {
    && |draws| == |idxs|
    && (forall i :: 0 <= i < |idxs| ==> idxs[i] < |patients|)
    && (forall i :: 0 <= i < |idxs| ==>
          |Pool(patients[idxs[i]], i, nPositive)| > 0 ==> draws[i] < |Pool(patients[idxs[i]], i, nPositive)|)
  }

  /** Slot `i` of a batch: the `draws[i]`-th candidate of the slot's pool,
      with its target. */
  function SlotSample(patients: seq<Patient>, idxs: seq<nat>, nPositive: nat, kind: TargetKind,
                      draws: seq<nat>, i: nat): Sample
    requires DrawsFit(patients, idxs, nPositive, draws)
    requires i < |idxs| && |Pool(patients[idxs[i]], i, nPositive)| > 0
  {
    var pool := Pool(patients[idxs[i]], i, nPositive);
    Sample(patients[idxs[i]].pid, pool[draws[i]], Target(kind, pool[draws[i]]))
  }

  /** Fill one batch, slots `from..` of it. The first slot whose pool is
      empty aborts the batch. */
  function AssembleFrom(patients: seq<Patient>, idxs: seq<nat>, nPositive: nat, kind: TargetKind,
                        draws: seq<nat>, from: nat): (r: Result<seq<Sample>, EpochError>)
    requires DrawsFit(patients, idxs, nPositive, draws)
    requires from <= |idxs|
    ensures r.Ok? <==> forall i :: from <= i < |idxs| ==> |Pool(patients[idxs[i]], i, nPositive)| > 0
    ensures r.Ok? ==> |r.value| == |idxs| - from
    ensures r.Ok? ==> forall i :: from <= i < |idxs| ==> r.value[i - from] == SlotSample(patients, idxs, nPositive, kind, draws, i)
    ensures r.Err? ==> exists i :: (from <= i < |idxs| && |Pool(patients[idxs[i]], i, nPositive)| == 0
      && r.error == NoCandidates(patients[idxs[i]].pid, i)
      && forall j :: from <= j < i ==> |Pool(patients[idxs[j]], j, nPositive)| > 0)
    decreases |idxs| - from
  {
    if from == |idxs| then Ok([])
    else
      var p := patients[idxs[from]];
      var pool := Pool(p, from, nPositive);
      if |pool| == 0 then Err(NoCandidates(p.pid, from))
      else
        match AssembleFrom(patients, idxs, nPositive, kind, draws, from + 1)
        case Err(e) => Err(e)
        case Ok(rest) =>
          var c := pool[draws[from]];
          var r := [Sample(p.pid, c, Target(kind, c))] + rest;
          assert forall j :: 1 <= j < |r| ==> r[j] == rest[j - 1];
          Ok(r)
  }

  function AssembleBatch(patients: seq<Patient>, idxs: seq<nat>, nPositive: nat, kind: TargetKind,
                         draws: seq<nat>): Result<seq<Sample>, EpochError>
    requires DrawsFit(patients, idxs, nPositive, draws)
  {
    AssembleFrom(patients, idxs, nPositive, kind, draws, 0)
  }

  /** What a consumer receives from one pass of the generator: the batches
      yielded, and the error that ended the pass early, if any. */
  datatype EpochRun = EpochRun(batches: seq<seq<Sample>>, failure: Option<EpochError>)

  predicate BatchDrawsFit(patients: seq<Patient>, slices: seq<seq<nat>>, nPositive: nat, draws: seq<seq<nat>>)
  {
    && |draws| == |slices|
    && forall k :: 0 <= k < |slices| ==> DrawsFit(patients, slices[k], nPositive, draws[k])
  }

  /** Walk the batches in order: assemble each, yield it unless `full_batch`
      is set and it is short, stop at the first error. */
  function RunBatches(patients: seq<Patient>, slices: seq<seq<nat>>, batchSize: nat, nPositive: nat,
                      fullBatch: bool, kind: TargetKind, draws: seq<seq<nat>>): (r: EpochRun)
    requires BatchDrawsFit(patients, slices, nPositive, draws)
    ensures |r.batches| <= |slices|
    // without `full_batch`, a pass that meets no empty pool yields every slice
    ensures !fullBatch && r.failure.None? ==> |r.batches| == |slices|
    decreases |slices|
  {
    if |slices| == 0 then EpochRun([], None)
    else
      match AssembleBatch(patients, slices[0], nPositive, kind, draws[0])
      case Err(e) => EpochRun([], Some(e))
      case Ok(b) =>
        var rest := RunBatches(patients, slices[1..], batchSize, nPositive, fullBatch, kind, draws[1..]);
        if !fullBatch || |slices[0]| == batchSize then EpochRun([b] + rest.batches, rest.failure)
        else rest
  }

  /** One epoch of `generate`: the order is `np.arange(n)`, or its shuffle
      `shuffled` when `random` is set, and `draws[k][i]` is the `randint`
      result of slot `i` of batch `k`. */
  function Epoch(patients: seq<Patient>, random: bool, shuffled: seq<nat>, batchSize: nat, nPositive: nat,
                 fullBatch: bool, kind: TargetKind, draws: seq<seq<nat>>): (r: EpochRun)
    requires batchSize > 0
    requires random ==> IsPermutation(shuffled, |patients|)
    requires BatchDrawsFit(patients, Slices(EpochOrder(|patients|, random, shuffled), batchSize), nPositive, draws)
    ensures |r.batches| <= |Slices(EpochOrder(|patients|, random, shuffled), batchSize)|
    ensures !fullBatch && r.failure.None? ==> |r.batches| == |Slices(EpochOrder(|patients|, random, shuffled), batchSize)|
  {
    RunBatches(patients, Slices(EpochOrder(|patients|, random, shuffled), batchSize), batchSize, nPositive,
               fullBatch, kind, draws)
  }

  /** Every index of every slice names a patient. */
  predicate InRange(slices: seq<seq<nat>>, n: nat)
  {
    forall k, i :: 0 <= k < |slices| && 0 <= i < |slices[k]| ==> slices[k][i] < n
  }

  lemma {:induction false} BatchDrawsInRange(patients: seq<Patient>, slices: seq<seq<nat>>, nPositive: nat,
                                             draws: seq<seq<nat>>)
    requires BatchDrawsFit(patients, slices, nPositive, draws)
    ensures InRange(slices, |patients|)
  {
    forall k, i | 0 <= k < |slices| && 0 <= i < |slices[k]|
      ensures slices[k][i] < |patients|
    {
      assert DrawsFit(patients, slices[k], nPositive, draws[k]);
    }
  }

  lemma {:induction false} FlattenInRange(slices: seq<seq<nat>>, n: nat)
    requires InRange(slices, n)
    ensures forall j :: 0 <= j < |Flatten<nat>(slices)| ==> Flatten<nat>(slices)[j] < n
  {
    if |slices| > 0 {
      assert InRange(slices[1..], n) by {
        assert forall k :: 0 <= k < |slices| - 1 ==> slices[1..][k] == slices[k + 1];
      }
      FlattenInRange(slices[1..], n);
      assert Flatten(slices) == slices[0] + Flatten(slices[1..]);
    }
  }

  lemma {:induction false} FullOnlyInRange(slices: seq<seq<nat>>, size: nat, n: nat)
    requires InRange(slices, n)
    ensures InRange(FullOnly(slices, size), n)
  {
    if |slices| > 0 {
      assert InRange(slices[1..], n) by {
        assert forall k :: 0 <= k < |slices| - 1 ==> slices[1..][k] == slices[k + 1];
      }
      FullOnlyInRange(slices[1..], size, n);
    }
  }

  lemma SlicesInRange(order: seq<nat>, size: nat, n: nat)
    requires size > 0
    requires forall j :: 0 <= j < |order| ==> order[j] < n
    ensures InRange(Slices(order, size), n)
  {
    forall k, i | 0 <= k < |Slices<nat>(order, size)| && 0 <= i < |Slices<nat>(order, size)[k]|
      ensures Slices<nat>(order, size)[k][i] < n
    {
      SliceElement(order, size, k, i);
    }
  }

  /** The pids of a list of patient indices. */
  function PidsOf(patients: seq<Patient>, idxs: seq<nat>): (r: seq<string>)
    requires forall i :: 0 <= i < |idxs| ==> idxs[i] < |patients|
    ensures |r| == |idxs|
  {
    seq(|idxs|, i requires 0 <= i < |idxs| => patients[idxs[i]].pid)
  }

  function SamplePids(batch: seq<Sample>): (r: seq<string>)
    ensures |r| == |batch|
  {
    seq(|batch|, i requires 0 <= i < |batch| => batch[i].pid)
  }

  function BatchPids(batches: seq<seq<Sample>>): (r: seq<seq<string>>)
    ensures |r| == |batches|
  {
    seq(|batches|, k requires 0 <= k < |batches| => SamplePids(batches[k]))
  }

  function SlicePids(patients: seq<Patient>, slices: seq<seq<nat>>): (r: seq<seq<string>>)
    requires InRange(slices, |patients|)
    ensures |r| == |slices|
    ensures forall k :: 0 <= k < |slices| ==> |r[k]| == |slices[k]|
  {
    seq(|slices|, k requires 0 <= k < |slices| => PidsOf(patients, slices[k]))
  }

  /** All slots of all batches have something to draw from. */
  predicate AllPoolsFilled(patients: seq<Patient>, slices: seq<seq<nat>>, nPositive: nat)
    requires InRange(slices, |patients|)
  {
    forall k, i :: 0 <= k < |slices| && 0 <= i < |slices[k]| ==>
      |Pool(patients[slices[k][i]], i, nPositive)| > 0
  }

  lemma BatchDrawsFitTail(patients: seq<Patient>, slices: seq<seq<nat>>, nPositive: nat, draws: seq<seq<nat>>)
    requires |slices| > 0
    requires BatchDrawsFit(patients, slices, nPositive, draws)
    ensures BatchDrawsFit(patients, slices[1..], nPositive, draws[1..])
  {
    assert forall k :: 0 <= k < |slices| - 1 ==> slices[1..][k] == slices[k + 1] && draws[1..][k] == draws[k + 1];
  }

  /** The pass runs to the end exactly when no slot's pool is empty. */
  lemma {:induction false} RunBatchesCompletes(patients: seq<Patient>, slices: seq<seq<nat>>, batchSize: nat,
                                               nPositive: nat, fullBatch: bool, kind: TargetKind,
                                               draws: seq<seq<nat>>)
    requires BatchDrawsFit(patients, slices, nPositive, draws)
    ensures InRange(slices, |patients|)
    ensures RunBatches(patients, slices, batchSize, nPositive, fullBatch, kind, draws).failure.None?
      <==> AllPoolsFilled(patients, slices, nPositive)
    decreases |slices|
  {
    BatchDrawsInRange(patients, slices, nPositive, draws);
    if |slices| > 0 {
      BatchDrawsFitTail(patients, slices, nPositive, draws);
      RunBatchesCompletes(patients, slices[1..], batchSize, nPositive, fullBatch, kind, draws[1..]);
      AllPoolsFilledCons(patients, slices, nPositive);
      var first := AssembleBatch(patients, slices[0], nPositive, kind, draws[0]);
      if first.Err? {
        var i :| 0 <= i < |slices[0]| && |Pool(patients[slices[0][i]], i, nPositive)| == 0;
      }
    }
  }

  lemma AllPoolsFilledCons(patients: seq<Patient>, slices: seq<seq<nat>>, nPositive: nat)
    requires InRange(slices, |patients|) && |slices| > 0
    ensures InRange(slices[1..], |patients|)
    ensures AllPoolsFilled(patients, slices, nPositive) <==>
      (forall i :: 0 <= i < |slices[0]| ==> |Pool(patients[slices[0][i]], i, nPositive)| > 0) &&
      AllPoolsFilled(patients, slices[1..], nPositive)
  {
    assert forall k :: 1 <= k < |slices| ==> slices[k] == slices[1..][k - 1];
  }

  /** A pass that runs to the end yields the patients of the yielded slices,
      batch by batch and in order; with `full_batch` exactly the full slices
      are yielded. */
  lemma {:induction false} RunBatchesPids(patients: seq<Patient>, slices: seq<seq<nat>>, batchSize: nat,
                                          nPositive: nat, fullBatch: bool, kind: TargetKind,
                                          draws: seq<seq<nat>>)
    requires BatchDrawsFit(patients, slices, nPositive, draws)
    requires RunBatches(patients, slices, batchSize, nPositive, fullBatch, kind, draws).failure.None?
    ensures InRange(slices, |patients|)
    ensures InRange(FullOnly(slices, batchSize), |patients|)
    ensures BatchPids(RunBatches(patients, slices, batchSize, nPositive, fullBatch, kind, draws).batches)
      == SlicePids(patients, if fullBatch then FullOnly(slices, batchSize) else slices)
    decreases |slices|
  {
    BatchDrawsInRange(patients, slices, nPositive, draws);
    FullOnlyInRange(slices, batchSize, |patients|);
    if |slices| > 0 {
      BatchDrawsFitTail(patients, slices, nPositive, draws);
      var first := AssembleBatch(patients, slices[0], nPositive, kind, draws[0]);
      var run := RunBatches(patients, slices, batchSize, nPositive, fullBatch, kind, draws);
      var rest := RunBatches(patients, slices[1..], batchSize, nPositive, fullBatch, kind, draws[1..]);
      RunBatchesPids(patients, slices[1..], batchSize, nPositive, fullBatch, kind, draws[1..]);
      var b := first.value;
      AssembledPids(patients, slices[0], nPositive, kind, draws[0]);
      var tail := if fullBatch then FullOnly(slices[1..], batchSize) else slices[1..];
      var all := if fullBatch then FullOnly(slices, batchSize) else slices;
      FullOnlyInRange(slices[1..], batchSize, |patients|);
      if !fullBatch || |slices[0]| == batchSize {
        assert all == [slices[0]] + tail;
        assert run.batches == [b] + rest.batches;
        BatchPidsCons(b, rest.batches);
        SlicePidsCons(patients, slices[0], tail);
      } else {
        assert all == tail;
        assert run == rest;
      }
    }
  }

  lemma AssembledPids(patients: seq<Patient>, idxs: seq<nat>, nPositive: nat, kind: TargetKind, draws: seq<nat>)
    requires DrawsFit(patients, idxs, nPositive, draws)
    requires AssembleBatch(patients, idxs, nPositive, kind, draws).Ok?
    ensures SamplePids(AssembleBatch(patients, idxs, nPositive, kind, draws).value) == PidsOf(patients, idxs)
  {
    var b := AssembleBatch(patients, idxs, nPositive, kind, draws).value;
    assert forall i :: 0 <= i < |idxs| ==> b[i].pid == patients[idxs[i]].pid by {
      forall i | 0 <= i < |idxs| ensures b[i].pid == patients[idxs[i]].pid {
        assert b[i - 0] == SlotSample(patients, idxs, nPositive, kind, draws, i);
      }
    }
  }

  lemma BatchPidsCons(b: seq<Sample>, rest: seq<seq<Sample>>)
    ensures BatchPids([b] + rest) == [SamplePids(b)] + BatchPids(rest)
  {
  }

  lemma SlicePidsCons(patients: seq<Patient>, first: seq<nat>, rest: seq<seq<nat>>)
    requires InRange([first] + rest, |patients|)
    ensures InRange(rest, |patients|)
    ensures forall i :: 0 <= i < |first| ==> first[i] < |patients|
    ensures SlicePids(patients, [first] + rest) == [PidsOf(patients, first)] + SlicePids(patients, rest)
  {
    var all := [first] + rest;
    assert all[0] == first;
    forall k | 0 <= k < |rest|
      ensures rest[k] == all[k + 1]
    {
    }
    var lhs := SlicePids(patients, all);
    var rhs := [PidsOf(patients, first)] + SlicePids(patients, rest);
    forall k | 0 <= k < |all|
      ensures lhs[k] == rhs[k]
    {
      if k > 0 {
        assert all[k] == rest[k - 1];
      }
    }
  }

  /** Without `full_batch`, a pass in which every pool is filled runs to the
      end and yields every patient once, in the epoch's order (the patients'
      own order when shuffling is off), in batches of 1 to `batchSize`
      patients. */
  lemma EpochYieldsEveryPatient(patients: seq<Patient>, random: bool, shuffled: seq<nat>, batchSize: nat,
                                nPositive: nat, kind: TargetKind, draws: seq<seq<nat>>)
    requires batchSize > 0
    requires random ==> IsPermutation(shuffled, |patients|)
    requires BatchDrawsFit(patients, Slices(EpochOrder(|patients|, random, shuffled), batchSize), nPositive, draws)
    requires AllPoolsFilled(patients, Slices(EpochOrder(|patients|, random, shuffled), batchSize), nPositive)
    ensures var order := EpochOrder(|patients|, random, shuffled);
      var run := Epoch(patients, random, shuffled, batchSize, nPositive, false, kind, draws);
      && run.failure.None?
      && Flatten(BatchPids(run.batches)) == PidsOf(patients, order)
      && (!random ==> Flatten(BatchPids(run.batches)) == PatientPids(patients))
      && forall k :: 0 <= k < |run.batches| ==> 0 < |run.batches[k]| <= batchSize
  {
    var order := EpochOrder(|patients|, random, shuffled);
    var sl := Slices(order, batchSize);
    var run := Epoch(patients, random, shuffled, batchSize, nPositive, false, kind, draws);
    SlicesFlatten(order, batchSize);
    RunBatchesCompletes(patients, sl, batchSize, nPositive, false, kind, draws);
    RunBatchesPids(patients, sl, batchSize, nPositive, false, kind, draws);
    FlattenPids(patients, sl);
    if !random {
      assert PidsOf(patients, order) == PatientPids(patients);
    }
    forall k | 0 <= k < |run.batches|
      ensures 0 < |run.batches[k]| <= batchSize
    {
      assert |SamplePids(run.batches[k])| == |SlicePids(patients, sl)[k]|;
    }
  }

  /** With `full_batch`, a pass in which every pool is filled yields the
      first `m * batchSize` patients of the order in `m` full batches, and
      fewer than `batchSize` patients are left over. */
  lemma EpochFullBatches(patients: seq<Patient>, random: bool, shuffled: seq<nat>, batchSize: nat,
                         nPositive: nat, kind: TargetKind, draws: seq<seq<nat>>)
    requires batchSize > 0
    requires random ==> IsPermutation(shuffled, |patients|)
    requires BatchDrawsFit(patients, Slices(EpochOrder(|patients|, random, shuffled), batchSize), nPositive, draws)
    requires AllPoolsFilled(patients, Slices(EpochOrder(|patients|, random, shuffled), batchSize), nPositive)
    ensures var order := EpochOrder(|patients|, random, shuffled);
      var run := Epoch(patients, random, shuffled, batchSize, nPositive, true, kind, draws);
      var m := |run.batches|;
      && run.failure.None?
      && m * batchSize <= |order| < m * batchSize + batchSize
      && Flatten(BatchPids(run.batches)) == PidsOf(patients, order[..m * batchSize])
      && forall k :: 0 <= k < m ==> |run.batches[k]| == batchSize
  {
    var order := EpochOrder(|patients|, random, shuffled);
    var sl := Slices(order, batchSize);
    var run := Epoch(patients, random, shuffled, batchSize, nPositive, true, kind, draws);
    RunBatchesCompletes(patients, sl, batchSize, nPositive, true, kind, draws);
    RunBatchesPids(patients, sl, batchSize, nPositive, true, kind, draws);
    FullBatchDropsTail(order, batchSize);
    var y := FullOnly(sl, batchSize);
    assert |run.batches| == |y|;
    assert Flatten(y) == order[..|y| * batchSize];
    FlattenPids(patients, y);
    forall k | 0 <= k < |run.batches|
      ensures |run.batches[k]| == batchSize
    {
      assert |SamplePids(run.batches[k])| == |SlicePids(patients, y)[k]|;
    }
  }

  lemma {:induction false} FlattenPids(patients: seq<Patient>, slices: seq<seq<nat>>)
    requires InRange(slices, |patients|)
    ensures forall j :: 0 <= j < |Flatten<nat>(slices)| ==> Flatten<nat>(slices)[j] < |patients|
    ensures Flatten(SlicePids(patients, slices)) == PidsOf(patients, Flatten(slices))
  {
    FlattenInRange(slices, |patients|);
    if |slices| > 0 {
      assert InRange(slices[1..], |patients|) by {
        assert forall k :: 0 <= k < |slices| - 1 ==> slices[1..][k] == slices[k + 1];
      }
      FlattenPids(patients, slices[1..]);
      assert SlicePids(patients, slices)[1..] == SlicePids(patients, slices[1..]);
      assert SlicePids(patients, slices)[0] == PidsOf(patients, slices[0]);
      assert Flatten(slices) == slices[0] + Flatten(slices[1..]);
      assert PidsOf(patients, slices[0] + Flatten(slices[1..]))
          == PidsOf(patients, slices[0]) + PidsOf(patients, Flatten(slices[1..]));
    }
  }

  /** Slot `i` of a yielded batch holds a candidate of its patient's positive
      annotations when `i` is below the positive quota and one of its negative
      candidates otherwise; its target is the label of that candidate. */
  lemma {:induction false} SlotSource(patients: seq<Patient>, slices: seq<seq<nat>>, batchSize: nat,
                                      nPositive: nat, fullBatch: bool, kind: TargetKind,
                                      draws: seq<seq<nat>>, k: nat, i: nat)
    requires BatchDrawsFit(patients, slices, nPositive, draws)
    requires var run := RunBatches(patients, slices, batchSize, nPositive, fullBatch, kind, draws);
      k < |run.batches| && i < |run.batches[k]|
    ensures var s := RunBatches(patients, slices, batchSize, nPositive, fullBatch, kind, draws).batches[k][i];
      && (i < nPositive ==> exists p :: p in patients && p.pid == s.pid && s.center in p.positives)
      && (i >= nPositive ==> exists p :: p in patients && p.pid == s.pid && s.center in p.negatives)
      && s.target == Target(kind, s.center)
    decreases |slices|
  {
    var run := RunBatches(patients, slices, batchSize, nPositive, fullBatch, kind, draws);
    var first := AssembleBatch(patients, slices[0], nPositive, kind, draws[0]);
    BatchDrawsFitTail(patients, slices, nPositive, draws);
    var rest := RunBatches(patients, slices[1..], batchSize, nPositive, fullBatch, kind, draws[1..]);
    var yieldsFirst := !fullBatch || |slices[0]| == batchSize;
    assert first.Ok?;
    if yieldsFirst && k == 0 {
      assert run.batches[0] == first.value;
      BatchSlot(patients, slices[0], nPositive, kind, draws[0], i);
    } else if yieldsFirst {
      assert run.batches[k] == rest.batches[k - 1];
      SlotSource(patients, slices[1..], batchSize, nPositive, fullBatch, kind, draws[1..], k - 1, i);
    } else {
      SlotSource(patients, slices[1..], batchSize, nPositive, fullBatch, kind, draws[1..], k, i);
    }
  }

  /** Slot `i` of an assembled batch holds a candidate of the slot's
      patient, from the pool the slot draws on, with its target. */
  lemma BatchSlot(patients: seq<Patient>, idxs: seq<nat>, nPositive: nat, kind: TargetKind, draws: seq<nat>, i: nat)
    requires DrawsFit(patients, idxs, nPositive, draws)
    requires AssembleBatch(patients, idxs, nPositive, kind, draws).Ok?
    requires i < |AssembleBatch(patients, idxs, nPositive, kind, draws).value|
    ensures var s := AssembleBatch(patients, idxs, nPositive, kind, draws).value[i];
      && (i < nPositive ==> exists p :: p in patients && p.pid == s.pid && s.center in p.positives)
      && (i >= nPositive ==> exists p :: p in patients && p.pid == s.pid && s.center in p.negatives)
      && s.target == Target(kind, s.center)
  {
    var p := patients[idxs[i]];
    assert p in patients;
    assert AssembleBatch(patients, idxs, nPositive, kind, draws).value[i - 0]
      == SlotSample(patients, idxs, nPositive, kind, draws, i);
  }
}
