# dsb3 lung-nodule pipeline: sampling, batching and labelling

A Dafny model of the bookkeeping at the heart of the dsb3 lung-cancer
pipeline. The model covers:

- how the data generators of `data_iterators.py` choose patients and
  candidates, cut them into batches, and label each sample;
- how `test_seg_scan.py` tiles a scan into sliding windows, pads the
  assembled prediction back to the scan's shape, and matches detected
  blobs to annotated nodules.

Every random outcome is an input to the model:

- a shuffle of `np.arange(n)` is a permutation;
- each `randint` result is a draw;
- each `rng.choice` result is a pick or a choice;
- each fair coin flip is a boolean.

Images, file reading and the neural network are outside the model.

Modules:

- `Wrappers`: `Result` and `Option`.
- `Seqs`: flattening; cutting a sequence into batches with Python's
  slice clamping; the `full_batch` filter; epoch orders; subsequences.
- `Labels`:
  - the malignancy prior `diameter_to_prob`;
  - the binary, malignancy and size-bin targets;
  - the property vector with its enable mask.
- `CandidateEpochs`: the training generators over positive and negative
  candidates. This is `CandidatesLunaDataGenerator` and its size-bin
  variant.
- `TwoStreamBatches`: `CandidatesLunaPropsDataGenerator`, whose batches
  mix a positive-patient stream with a negative-patient stream.
- `BalancedSampler`: `BalancedDSBPatientsDataGenerator`. Its coin flips
  interleave patients with cancer into a shuffled walk over the
  cancer-free patients.
- `ValidSubsample`: the validation generators' negative subsampling,
  drawn without replacement.
- `Sharding`: the patient list of `DSBScanLungMaskDataGenerator`. The
  list is split into parts, then filtered by the exclude and include
  lists.
- `CandidateMatching`: `extract_candidates`. Each nodule is matched to
  its nearest blob, and each blob is mapped back through the affine
  transform with a detection flag.
- `WindowTiling`: the sliding-window scan and its padding, with the
  configuration of `configs_seg_scan/luna_s3_p8.py`.

Python 2 semantics are kept throughout:

- `/` on integers is floor division. This equals Dafny's `/` for the
  positive divisors used here.
- A slice clamps both of its ends.
- A label is cancer when it is non-zero (truthiness).
- `np.argmin` returns the first minimum.

Some size-bin behaviour looks surprising but is modelled as written:

- a diameter at or above every border falls back to bin 0, so its label
  is 1, not `|borders|`;
- a non-positive diameter gets label 0 in the training generator.

## Model

| member | source | states |
|---|---|---|
| Labels.Clip | data_iterators.py:40 | the result lies in `[lo, hi]`, equals `p` inside the interval, and the nearer bound outside it |
| Labels.RawProb | data_iterators.py:26-39 | the unclipped prior is at most 0 exactly for non-positive diameters and at least 1 exactly from 47.5 mm up |
| Labels.DiameterToProb | data_iterators.py:26-40 | the malignancy prior is a probability, in `[0, 1]` for every diameter |
| Labels.RawProbInterpolatesAnchors | data_iterators.py:7-39 | the unclipped prior is the piecewise-linear interpolation through the anchor points (0,0), (5,0.035), (10,0.28), (20,0.64), (25,0.82), (30,0.93), (40,0.97), extended by the last line; the anchors are increasing |
| Labels.DiameterToProbMonotone | data_iterators.py:26-40 | a larger diameter never gets a smaller prior |
| Labels.DiameterToProbSaturation | data_iterators.py:26-40 | the prior is 0 exactly for non-positive diameters and 1 exactly from 47.5 mm up |
| Labels.NoduleLabel | data_iterators.py:573 | the binary target is 0 or 1, and 1 exactly when the candidate's diameter is positive |
| Labels.FirstAbove | data_iterators.py:918-921 | the first border strictly above the diameter, all earlier borders being at most it; none exactly when every border is at most the diameter |
| Labels.SizeBinLabel | data_iterators.py:915-924 | label 0 exactly for non-positive diameters; otherwise 1 + the index of the first border above the diameter, or 1 when there is none; never above the number of borders |
| Labels.ValidSizeBinLabel | data_iterators.py:988-995 | the same bin without the zero case: always at least 1, so it agrees with the training label exactly on positive diameters |
| Labels.SizeBinIsDigitize | data_iterators.py:915-924 | with sorted borders and a diameter below the last one, the label is 1 + the number of borders at or below the diameter (what `np.digitize` gives) |
| Labels.Target | data_iterators.py:570-573 | the binary target is 1 iff the diameter is positive, 0 otherwise; the malignancy target is a probability; the size-bin target is 0 iff the diameter is non-positive |
| Labels.Properties | data_iterators.py:1084-1123 | always a "nodule" flag; a candidate of at most 0.01 mm has only the flag, set to 0; a nodule has exactly the keys "nodule", "size" and the looked-up properties, each looked-up value as given, the size target unless a looked-up property overrides it, and the flag 1 unless overridden |
| Labels.FillTargets | data_iterators.py:1126-1129 | one target and one enable entry per objective; enabled (1) exactly for the objectives that have a property, disabled (0) with target 0 for the others |
| Labels.FillTargetsRoundTrip | data_iterators.py:1126-1129 | reading back the enabled entries gives exactly the properties whose names are objectives, with their values |
| Labels.FillTargetsValue | data_iterators.py:1126-1129 | an enabled objective carries its property's value |
| Labels.NonNoduleTargets | data_iterators.py:1084-1131 | a non-nodule enables exactly the "nodule" objectives, and all its targets are 0 |
| Seqs.Slices | data_iterators.py:547-548 | no batch is empty or longer than the batch size; all but the last are full |
| Seqs.SlicesFlatten | data_iterators.py:547-548 | the batches, concatenated in order, give back the epoch order: every index is in exactly one batch |
| Seqs.SlicesCount | data_iterators.py:547 | the number of batches is the ceiling of length / batch size |
| Seqs.SliceAt | data_iterators.py:547-548 | batch `k` is the clamped slice `s[k*size : k*size+size]` |
| Seqs.FullBatchDropsTail | data_iterators.py:579-583 | with `full_batch`, the yielded batches are all full and cover exactly the first `m*size` elements, with fewer than `size` left over |
| Seqs.EpochOrder | data_iterators.py:544-546 | the epoch order is a permutation of `0..n-1`, and the identity when shuffling is off |
| CandidateEpochs.TrainPatients | data_iterators.py:515-523 | succeeds iff every requested id with nodules has negative candidates, and an error names the first one that has none; otherwise every requested id with nodules has a patient, and each patient carries its own annotation lists |
| CandidateEpochs.TrainPatientsInRequestOrder | data_iterators.py:515-523 | the patients are the requested ids with nodules, in request order and each as often as requested |
| CandidateEpochs.AssembleFrom | data_iterators.py:555-573 | succeeds iff every slot's pool (positives below the quota, negatives from it on) is non-empty; then one sample per slot with that patient's pid; an error names an empty slot |
| CandidateEpochs.RunBatches | data_iterators.py:547-583 | at most one batch per slice; without `full_batch` a pass that meets no empty pool yields one batch per slice |
| CandidateEpochs.Epoch | data_iterators.py:542-583 | the epoch batches the `arange`-or-shuffled order: at most one batch per slice of it, and one per slice without `full_batch` when no pool is empty |
| CandidateEpochs.RunBatchesCompletes | data_iterators.py:547-583 | the epoch runs without error iff every slot of every batch has a non-empty pool |
| CandidateEpochs.RunBatchesPids | data_iterators.py:547-583 | a completed epoch's batches list the patients of the slices in order, or only of the full slices under `full_batch` |
| CandidateEpochs.EpochYieldsEveryPatient | data_iterators.py:542-586 | without `full_batch`, an epoch yields every patient of the epoch order exactly once, in that order (the patients' own order when shuffling is off), in batches of 1 to batch-size samples |
| CandidateEpochs.EpochFullBatches | data_iterators.py:579-583 | with `full_batch`, the epoch yields `m` full batches covering the first `m*batchSize` patients, with fewer than a batch left over |
| CandidateEpochs.SlotSource | data_iterators.py:563-573 | a slot below the positive quota holds one of its patient's nodules, any other slot one of its negative candidates; the target is that candidate's label |
| TwoStreamBatches.NegWindow | data_iterators.py:1149 | window `k` holds the negative order's entries from `k*w` on, and is full iff the order reaches `(k+1)*w` |
| TwoStreamBatches.MixedBatches | data_iterators.py:1145-1151 | one batch per positive slice; at most batch-size patients each; a non-empty positive part; full positive parts in all but the last; a full negative part iff the negative order reaches past the batch's window; a batch is full iff both parts are |
| TwoStreamBatches.MixedBatchPids | data_iterators.py:1147-1180 | batch `k` lists the ids of positive patients `pos_order[k*p : k*p+p]`, then those of negative patients `neg_order[k*w : (k+1)*w]`, both slices clamped |
| TwoStreamBatches.YieldedMixed | data_iterators.py:1196-1200 | with `full_batch` only batches of exactly batch-size patients; otherwise all batches |
| TwoStreamBatches.PositivesConsumedOnce | data_iterators.py:1147-1148 | the positive parts concatenate to the shuffled positive order: each positive patient exactly once per epoch |
| TwoStreamBatches.NegativesArePrefix | data_iterators.py:1149 | the negative parts concatenate to a clamped prefix of the negative order, as long as the batches' negative quota allows |
| TwoStreamBatches.FullBatchesArePrefix | data_iterators.py:1145-1200 | with `full_batch`, the yielded batches are a prefix of the epoch's batches, and a batch is yielded iff it is full |
| TwoStreamBatches.FullBatchUsesBothStreams | data_iterators.py:1147-1151 | a full batch `k` comes before either stream ran out: `(k+1)*nPositive` positives and `(k+1)*(batchSize-nPositive)` negatives exist |
| BalancedSampler.SplitByLabel | data_iterators.py:1860-1866 | succeeds iff every id has a label; an error names the first unlabelled id; otherwise the ids split into non-zero and zero labels, both in the original order, with nothing lost |
| BalancedSampler.PrepareBatch | data_iterators.py:1911-1917 | succeeds iff every drawn id has a candidates file, and then lists the files in batch order; an error names the first id without one |
| BalancedSampler.UnfilteredDrawFails | data_iterators.py:1853-1917 | a labelled cancer-free patient without a candidates file passes the constructor, is drawn by the epoch's first flip, and makes `prepare_batch` fail |
| BalancedSampler.DrawAt | data_iterators.py:1892-1899 | a flip for cancer draws a patient with cancer, any other flip a cancer-free patient |
| BalancedSampler.StreamFollowsFlips | data_iterators.py:1886-1899 | the `j`-th patient of the stream comes from the group flip `j` asks for |
| BalancedSampler.EpochRunsToEnd | data_iterators.py:1891 | the loop condition holds exactly while flips remain |
| BalancedSampler.Generate | data_iterators.py:1884-1908 | fails iff there is no patient with cancer and some flip asks for one; otherwise the yielded batches are the epoch's draw stream cut into full batches plus a half-filled last one; on failure, only the full batches filled before the failing flip |
| BalancedSampler.NegativesInShuffledOrder | data_iterators.py:1886-1899 | the cancer-free draws follow the shuffled order: the k-th is `neg_ids[neg_order[k]]` |
| BalancedSampler.EveryNegativeOnce | data_iterators.py:1886-1899 | a completed epoch draws every cancer-free patient exactly once |
| ValidSubsample.SubsampleNegatives | data_iterators.py:600-615 | succeeds iff every kept patient has at least as many negative candidates as nodules; an error names the first failing patient in request order (KeyError or too few); keeps exactly the patients with nodules, their nodules unchanged, and as many distinct negatives drawn as nodules; both counters equal the nodule total |
| ValidSubsample.PickWithoutReplacement | data_iterators.py:607-611 | the candidates at distinct drawn indices form a sub-multiset of the patient's candidates: no candidate is selected twice |
| Sharding.Shard | data_iterators.py:1372-1379 | every part but the last has `len // all_parts` paths; the last also gets the remainder |
| Sharding.ShardsCover | data_iterators.py:1372-1379 | the parts are consecutive: the first `n` form a prefix of the path list, and all of them give the list back |
| Sharding.FirstContaining | data_iterators.py:1383-1386 | the first path containing the id, or none when no path contains it |
| Sharding.RemoveFirst | data_iterators.py:1382-1386 | exactly the first path containing the excluded id is removed, the others keeping their order; nothing changes when no path contains it |
| Sharding.Exclude | data_iterators.py:1381-1386 | the result is a subsequence of the part, shorter by at most the number of excluded ids |
| Sharding.PatientPaths | data_iterators.py:1372-1389 | an include list replaces everything with `data_path + '/' + pid` in order; otherwise the part, filtered by the exclude list when one is given |
| CandidateMatching.NearestBlob | test_seg_scan.py:27-30 | the blob at minimal squared distance, the first one on ties |
| CandidateMatching.Matched | test_seg_scan.py:26-34 | a blob is recorded iff some blob lies within the nodule's radius, and it is the nearest one |
| CandidateMatching.MatchAnnotations | test_seg_scan.py:24-36 | fails iff there are annotations but no blobs; otherwise a blob is recorded iff it is the match of some annotation, at most one per annotation |
| CandidateMatching.ExtractCandidates | test_seg_scan.py:40-49 | one row per blob in blob order; its coordinates are the affine image of the blob centre; flag 1 iff some annotation matched that blob, 0 otherwise |
| CandidateMatching.FlaggedBlobIsNearestWithinRadius | test_seg_scan.py:24-47 | a flagged blob is, for some annotation, the first nearest blob and within that nodule's radius |
| CandidateMatching.FlaggedAtMostAnnotations | test_seg_scan.py:24-47 | no more blobs are flagged than there are annotations |
| WindowTiling.NWindows | configs_seg_scan/luna_s3_p8.py:25 | at least one window; the last window ends inside the input, and one more would not |
| WindowTiling.WindowsInside | test_seg_scan.py:106-112 | every window read lies inside the input |
| WindowTiling.RegionOwner | test_seg_scan.py:115-118 | a voxel lies in window `i`'s output region iff `i == p / stride`: regions are disjoint |
| WindowTiling.RegionsCover | test_seg_scan.py:104-118 | the regions of `n` windows cover exactly `[0, n*stride)` |
| WindowTiling.EachVoxelWrittenOnce | test_seg_scan.py:104-118 | every voxel of the prediction cube is written by exactly one of the `n^3` windows |
| WindowTiling.Assemble | test_seg_scan.py:104-118 | the assembled axis has `n*stride` voxels |
| WindowTiling.AssembledAt | test_seg_scan.py:115-118 | voxel `p` of the assembled axis is voxel `p % stride` of window `p / stride`'s output |
| WindowTiling.FirstTooLarge | test_seg_scan.py:120-123 | the first axis where the prediction exceeds the input, or none |
| WindowTiling.PadAsWritten | test_seg_scan.py:120-123 | fails (negative pad) iff the shapes differ and some axis of the prediction exceeds the input; otherwise `(d/2, d/2)` on every axis |
| WindowTiling.PadAsWrittenMatchesIffEven | test_seg_scan.py:120-123 | as written, the padded prediction has the input's shape iff every axis differs by an even number of voxels |
| WindowTiling.PadAsWrittenFallsShort | test_seg_scan.py:120-123 | a 417-voxel cube: 3 windows, 384 voxels predicted, padded to 416, one short of the input; the corrected pipeline gives 417 |
| WindowTiling.PadCentered | test_seg_scan.py:120-123 | fails iff some axis of the prediction exceeds the input; otherwise the two widths differ by at most one |
| WindowTiling.PadCenteredRestoresShape | test_seg_scan.py:120-126 | the centred padding always restores the input shape |
| WindowTiling.ScanShape | test_seg_scan.py:104-123 | the padded prediction exists iff the windows' output fits in the input; each spatial axis is then the input size less the parity of the difference, so the input's shape comes back iff the difference is even |
| WindowTiling.CorrectedScanShape | test_seg_scan.py:120-123 | the corrected pipeline of the finding below: the padded prediction exists iff the windows' output fits in the input, and then it has the input's shape |
| WindowTiling.ConfiguredScan | configs_seg_scan/luna_s3_p8.py:19-25 | the 416-voxel configuration gives 3 windows and padding of 16 voxels on each side of the spatial axes; the scan shape is the input shape, as written and corrected |

## Left out

- Reading scans, annotations, labels and candidate files is not modelled. Their contents are inputs.
- The patch extraction `data_prep_fun`, the neural network, `blob_dog`, the lung-mask multiplication and plotting are not modelled. The blobs and the patch outputs are inputs.
- Random number generation is not modelled. Shuffles, `randint` draws, `choice` picks and coin flips are explicit inputs, constrained to what the generator can return.
- Only one epoch is modelled. The `while True` loop with the `infinite` flag repeats it with fresh random inputs.
- float32 rounding of targets and coordinates is not modelled. Reals are exact.
- Only the second `CandidatesLunaDataGenerator` class is modelled. The first class of that name is shadowed by it at import time.
- The doctor-annotation lookup and the `np.digitize`/median of `build_ground_truth_vector` are not modelled. The size target and the looked-up properties are inputs of `Labels.Properties`.
- The constructor of `CandidatesLunaPropsDataGenerator`, which splits patients into positive and negative ids, is not modelled. The two index streams are inputs of `TwoStreamBatches.MixedBatches`.
- The `patient_paths` filter in the constructor of `BalancedDSBPatientsDataGenerator` is not modelled. `generate` never reads it.
- The candidate drawn for each patient of a `CandidatesLunaPropsDataGenerator` batch is not modelled there. It is the same `randint` draw as in `CandidateEpochs.AssembleFrom`, and its target vector is `Labels.FillTargets` of `Labels.Properties`.
- `prepare_batch` of the balanced sampler is modelled only for its candidates-file lookup (`BalancedSampler.PrepareBatch`). Scan and candidate loading are I/O. Its `id2label.get` never misses: every drawn id passed the constructor's `id2label[pid]`.
- BalancedSampler.Generate: does not report the KeyError `prepare_batch` raises for a drawn id without a candidates file. `BalancedSampler.PrepareBatch` states it for each yielded batch.
- TwoStreamBatches.MixedBatches: a positive quota of 0 or above the batch size is not modelled. Python's `range` with step 0 raises, and a negative window size has slice semantics the generator evidently does not intend.
- CandidateEpochs.Epoch: the batch size must be positive. `range` with step 0 raises.
- Sharding.Shard: a part number outside `1..all_parts` is not modelled. Python would index with negative bounds.
- WindowTiling.NWindows: a window larger than the input is not modelled. Floor division would then give zero or negative windows.
- BalancedSampler.Generate: an unbounded run of cancer flips that never ends the epoch is not modelled. The coins are a finite sequence ending the epoch.

## Findings

| source | as written | input that shows it | evidently intended | confidence | as-written member | corrected member |
|---|---|---|---|---|---|---|
| test_seg_scan.py:120-123 | the prediction is padded by `(input - prediction) / 2` on both sides of every axis | a 417-voxel cube with window 160 and stride 128: 3 windows predict 384 voxels, padded by 16 + 16 to 416, so the later multiplication by the 417-voxel lung mask cannot match shapes | the padded prediction has the input's shape, with the odd voxel on one side | medium, not executed; latent for the shipped 416-voxel configuration, where the difference is even | WindowTiling.PadAsWrittenFallsShort | WindowTiling.PadCenteredRestoresShape |
