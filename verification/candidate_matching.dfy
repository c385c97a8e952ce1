/** The bookkeeping half of `extract_candidates` in `test_seg_scan.py`:
    every annotated nodule is matched to the detected blob nearest to it,
    kept only when that blob lies within the nodule's radius; every blob is
    then mapped back to the original voxel space by the scan's affine
    transform, with its last component set to 1 for a matched blob and 0
    otherwise. Blob detection itself is an input. */
module CandidateMatching {

  import opened Wrappers
  import opened Labels

  /** One row of `blob_dog`'s output: centre and scale. */
  datatype Blob = Blob(z: real, y: real, x: real, sigma: real)

  /** One output row: the blob centre in original voxel coordinates and
      the detection flag. */
  datatype Row = Row(z: real, y: real, x: real, flag: real)

  datatype MatchError =
    /** `np.argmin` over the distances to no blob at all (ValueError). */
    | NoBlobs

  function Dist2(a: Candidate, b: Blob): real
  {
    (a.z - b.z) * (a.z - b.z) + (a.y - b.y) * (a.y - b.y) + (a.x - b.x) * (a.x - b.x)
  }

  /** `r ** 2` with `r = diameter / 2`. */
  function Radius2(a: Candidate): real
  {
    (a.diameter / 2.0) * (a.diameter / 2.0)
  }

  /** `np.argmin` of the squared distances: the first blob at minimal
      distance. */
  function NearestBlob(a: Candidate, blobs: seq<Blob>): (k: nat)
    requires |blobs| > 0
    ensures k < |blobs|
    ensures forall j :: 0 <= j < |blobs| ==> Dist2(a, blobs[k]) <= Dist2(a, blobs[j])
    ensures forall j :: 0 <= j < k ==> Dist2(a, blobs[j]) > Dist2(a, blobs[k])
  {
    if |blobs| == 1 then 0
    else
      var m := |blobs| - 1;
      var k := NearestBlob(a, blobs[..m]);
      assert forall j :: 0 <= j < m ==> blobs[..m][j] == blobs[j];
      if Dist2(a, blobs[m]) < Dist2(a, blobs[k]) then m else k
  }

  /** The blob recorded for one annotation, if any. */
  function Matched(a: Candidate, blobs: seq<Blob>): (r: Option<nat>)
    requires |blobs| > 0
    ensures r.Some? <==> exists j :: 0 <= j < |blobs| && Dist2(a, blobs[j]) <= Radius2(a)
    ensures r.Some? ==> r.value == NearestBlob(a, blobs)
  {
    var k := NearestBlob(a, blobs);
    if Dist2(a, blobs[k]) <= Radius2(a) then Some(k) else None
  }

  /** `correct_blobs_idxs`: the recorded blobs, one per annotation at most,
      in annotation order. */
  function MatchAnnotations(annotations: seq<Candidate>, blobs: seq<Blob>): (r: Result<seq<nat>, MatchError>)
    ensures r.Err? <==> |blobs| == 0 && |annotations| > 0
    ensures r.Ok? ==> |r.value| <= |annotations|
    ensures r.Ok? ==> forall i :: 0 <= i < |r.value| ==> r.value[i] < |blobs|
    ensures r.Ok? && |blobs| > 0 ==> forall j :: j in r.value <==>
      exists i :: 0 <= i < |annotations| && Matched(annotations[i], blobs) == Some(j)
  {
    if |annotations| == 0 then Ok([])
    else if |blobs| == 0 then Err(NoBlobs)
    else
      var rest := MatchAnnotations(annotations[1..], blobs);
      assert forall i :: 1 <= i < |annotations| ==> annotations[i] == annotations[1..][i - 1];
      var here := Matched(annotations[0], blobs);
      var tail := rest.value;
      if here.Some? then Ok([here.value] + tail) else Ok(tail)
  }

  /** `tf_matrix` is a 4x4 matrix. */
  predicate IsAffine(tf: seq<seq<real>>)
  {
    |tf| == 4 && forall c :: 0 <= c < 4 ==> |tf[c]| == 4
  }

  /** Component `c` of `tf_matrix.dot([z, y, x, 1])`. */
  function Apply(tf: seq<seq<real>>, c: nat, b: Blob): real
    requires IsAffine(tf) && c < 4
  {
    tf[c][0] * b.z + tf[c][1] * b.y + tf[c][2] * b.x + tf[c][3]
  }

  /** The saved array: one row per blob, in blob order. */
  function ExtractCandidates(annotations: seq<Candidate>, blobs: seq<Blob>, tf: seq<seq<real>>): (r: Result<seq<Row>, MatchError>)
    requires IsAffine(tf)
    ensures r.Err? <==> |blobs| == 0 && |annotations| > 0
    ensures r.Ok? ==> |r.value| == |blobs|
    ensures r.Ok? ==> forall j :: 0 <= j < |blobs| ==>
      r.value[j].z == Apply(tf, 0, blobs[j]) && r.value[j].y == Apply(tf, 1, blobs[j]) &&
      r.value[j].x == Apply(tf, 2, blobs[j])
    ensures r.Ok? ==> forall j :: 0 <= j < |blobs| ==> r.value[j].flag == 0.0 || r.value[j].flag == 1.0
    ensures r.Ok? ==> forall j :: 0 <= j < |blobs| ==>
      (r.value[j].flag == 1.0 <==> exists i :: 0 <= i < |annotations| && Matched(annotations[i], blobs) == Some(j))
  {
    match MatchAnnotations(annotations, blobs)
      case Err(e) => Err(e)
      case Ok(correct) =>
        Ok(seq(|blobs|, j requires 0 <= j < |blobs| =>
          Row(Apply(tf, 0, blobs[j]), Apply(tf, 1, blobs[j]), Apply(tf, 2, blobs[j]),
              if j in correct then 1.0 else 0.0)))
  }

  /** A flagged blob is, for some annotation, the nearest blob (the first
      such) and lies within that nodule's radius. */
  lemma FlaggedBlobIsNearestWithinRadius(annotations: seq<Candidate>, blobs: seq<Blob>, tf: seq<seq<real>>, j: nat)
    requires IsAffine(tf)
    requires ExtractCandidates(annotations, blobs, tf).Ok?
    requires j < |blobs| && ExtractCandidates(annotations, blobs, tf).value[j].flag == 1.0
    ensures exists i :: (0 <= i < |annotations| &&
                         Dist2(annotations[i], blobs[j]) <= Radius2(annotations[i]) &&
                         (forall k :: 0 <= k < |blobs| ==> Dist2(annotations[i], blobs[j]) <= Dist2(annotations[i], blobs[k])) &&
                         (forall k :: 0 <= k < j ==> Dist2(annotations[i], blobs[k]) > Dist2(annotations[i], blobs[j])))
  {
    var i :| 0 <= i < |annotations| && Matched(annotations[i], blobs) == Some(j);
    assert NearestBlob(annotations[i], blobs) == j;
  }

  /** No more blobs are flagged than there are annotations: each
      annotation contributes at most one. */
  lemma FlaggedAtMostAnnotations(annotations: seq<Candidate>, blobs: seq<Blob>, tf: seq<seq<real>>)
    requires IsAffine(tf)
    requires ExtractCandidates(annotations, blobs, tf).Ok?
    ensures |Flagged(ExtractCandidates(annotations, blobs, tf).value)| <= |annotations|
  {
    var rows := ExtractCandidates(annotations, blobs, tf).value;
    var m := MatchAnnotations(annotations, blobs);
    assert m.Ok?;
    var correct := m.value;
    forall j | j in Flagged(rows)
      ensures j in Elements(correct)
    {
      assert rows[j].flag == 1.0;
      var i :| 0 <= i < |annotations| && Matched(annotations[i], blobs) == Some(j);
    }
    ElementsSize(correct);
    SubsetSize(Flagged(rows), Elements(correct));
  }

  /** Indices of the rows flagged as true detections. */
  function Flagged(rows: seq<Row>): set<nat>
  {
    set j | 0 <= j < |rows| && rows[j].flag == 1.0
  }

  function Elements(s: seq<nat>): set<nat>
  {
    set x | x in s
  }

  lemma {:induction false} ElementsSize(s: seq<nat>)
    ensures |Elements(s)| <= |s|
  {
    if |s| > 0 {
      ElementsSize(s[1..]);
      assert Elements(s) == Elements(s[1..]) + {s[0]};
    }
  }

  lemma SubsetSize(a: set<nat>, b: set<nat>)
    requires a <= b
    ensures |a| <= |b|
  {
    assert b == a + (b - a);
  }
}
