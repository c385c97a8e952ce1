/** The per-candidate training targets of the LUNA candidate generators:
    the malignancy prior `diameter_to_prob`, the binary nodule label, the
    size-bin label and the target / enable-mask vectors of the property
    generator. Diameters are real numbers (the source computes in 64-bit
    floating point and stores float32; rounding is not modelled). */
module Labels {

  import opened Wrappers

  /** A candidate location: (z, y, x) followed by its last field, the
      diameter in mm (0 for a negative candidate from the LUNA candidate list). */
  datatype Candidate = Candidate(z: real, y: real, x: real, diameter: real)

  // Anchor points of the malignancy prior, named as in the source.
  const Prob5: real := (0.01 + 0.06) / 2.0
  const Slope10: real := (0.28 - Prob5) / (10.0 - 5.0)
  const Offset10: real := Prob5 - Slope10 * 5.0
  const Slope20: real := (0.64 - 0.28) / (20.0 - 10.0)
  const Offset20: real := 0.28 - Slope20 * 10.0
  const Slope25: real := (0.82 - 0.64) / (25.0 - 20.0)
  const Offset25: real := 0.64 - Slope25 * 20.0
  const Slope30: real := (0.93 - 0.82) / (30.0 - 25.0)
  const Offset30: real := 0.82 - Slope30 * 25.0
  const Slope40: real := (0.97 - 0.93) / (40.0 - 30.0)
  const Offset40: real := 0.93 - Slope40 * 30.0

  function Clip(p: real, lo: real, hi: real): (r: real)
    requires lo <= hi
    ensures lo <= r <= hi
    ensures lo <= p <= hi ==> r == p
    ensures p < lo ==> r == lo
    ensures hi < p ==> r == hi
  {
    if p < lo then lo else if hi < p then hi else p
  }

  /** The unclipped piecewise-linear prior. */
  function RawProb(d: real): (p: real)
    ensures p <= 0.0 <==> d <= 0.0
    ensures p >= 1.0 <==> d >= 47.5
  {
    if d < 5.0 then Prob5 * d / 5.0
    else if d < 10.0 then Slope10 * d + Offset10
    else if d < 20.0 then Slope20 * d + Offset20
    else if d < 25.0 then Slope25 * d + Offset25
    else if d < 30.0 then Slope30 * d + Offset30
    else Slope40 * d + Offset40
  }

  /** Prior probability of malignancy for a nodule of diameter `d` mm. */
  function DiameterToProb(d: real): (p: real)
    ensures 0.0 <= p <= 1.0
  {
    Clip(RawProb(d), 0.0, 1.0)
  }

  /** The literature table the prior is built from: (diameter, probability)
      points joined by straight lines, the first and last segment extended. */
  const Anchors: seq<(real, real)> :=
    [(0.0, 0.0), (5.0, 0.035), (10.0, 0.28), (20.0, 0.64), (25.0, 0.82), (30.0, 0.93), (40.0, 0.97)]

  function Line(d: real, a: (real, real), b: (real, real)): real
    requires a.0 < b.0
  {
    a.1 + (b.1 - a.1) * (d - a.0) / (b.0 - a.0)
  }

  predicate Increasing(pts: seq<(real, real)>)
  {
    forall i :: 0 <= i < |pts| - 1 ==> pts[i].0 < pts[i + 1].0
  }

  /** Piecewise-linear interpolation through `pts` (at least two points,
      increasing abscissae): the segment whose right end is the first point
      beyond `d`, or the last segment. */
  function Interpolate(pts: seq<(real, real)>, d: real): real
    requires |pts| >= 2 && Increasing(pts)
    decreases |pts|
  {
    if |pts| == 2 || d < pts[1].0 then Line(d, pts[0], pts[1])
    else Interpolate(pts[1..], d)
  }

  /** The source's slopes and offsets are exactly the interpolation of the
      anchor table: every branch of the prior is the line through two
      neighbouring table points. */
  lemma {:induction false} RawProbInterpolatesAnchors(d: real)
    ensures Increasing(Anchors)
    ensures RawProb(d) == Interpolate(Anchors, d)
  {
    var a := Anchors;
    assert Increasing(a);
    assert a[1..][1..][1..][1..][1..] == [(25.0, 0.82), (30.0, 0.93), (40.0, 0.97)][1..];
    if d < 5.0 {
      assert Interpolate(a, d) == Line(d, (0.0, 0.0), (5.0, 0.035));
    } else if d < 10.0 {
      assert Interpolate(a, d) == Line(d, (5.0, 0.035), (10.0, 0.28));
    } else if d < 20.0 {
      assert Interpolate(a, d) == Line(d, (10.0, 0.28), (20.0, 0.64));
    } else if d < 25.0 {
      assert Interpolate(a, d) == Line(d, (20.0, 0.64), (25.0, 0.82));
    } else if d < 30.0 {
      assert Interpolate(a, d) == Line(d, (25.0, 0.82), (30.0, 0.93));
    } else {
      assert Interpolate(a, d) == Line(d, (30.0, 0.93), (40.0, 0.97));
    }
  }

  /** A larger nodule never gets a smaller prior. */
  lemma DiameterToProbMonotone(d1: real, d2: real)
    requires d1 <= d2
    ensures DiameterToProb(d1) <= DiameterToProb(d2)
  {
    assert RawProb(d1) <= RawProb(d2);
  }

  /** The prior is 0 exactly for non-positive diameters and saturates at 1
      exactly from 47.5 mm on. */
  lemma DiameterToProbSaturation(d: real)
    ensures DiameterToProb(d) == 0.0 <==> d <= 0.0
    ensures DiameterToProb(d) == 1.0 <==> d >= 47.5
  {
  }

  /** The binary nodule label: 1 iff the candidate's last field is positive. */
  function NoduleLabel(c: Candidate): (y: real)
    ensures y == 1.0 || y == 0.0
    ensures y == 1.0 <==> c.diameter > 0.0
  {
    if c.diameter > 0.0 then 1.0 else 0.0
  }

  /** Index of the first border strictly greater than `d`, scanning from `i`. */
  function FirstAbove(borders: seq<real>, d: real, i: nat := 0): (r: Option<nat>)
    requires i <= |borders|
    ensures r.Some? ==> i <= r.value < |borders| && d < borders[r.value]
    ensures r.Some? ==> forall j :: i <= j < r.value ==> borders[j] <= d
    ensures r.None? <==> forall j :: i <= j < |borders| ==> borders[j] <= d
    decreases |borders| - i
  {
    if i == |borders| then None
    else if d < borders[i] then Some(i)
    else FirstAbove(borders, d, i + 1)
  }

  /** The size-bin label of the training generator: 0 for a candidate whose
      diameter is not positive, otherwise 1 + the index of the first border
      strictly above the diameter; when no border is above it, the bin index
      stays at its initial 0, so the label is 1. */
  function SizeBinLabel(d: real, borders: seq<real>): (y: nat)
    ensures y == 0 <==> d <= 0.0
    ensures d > 0.0 && (exists k :: 0 <= k < |borders| && d < borders[k]) ==>
              1 <= y <= |borders| && d < borders[y - 1] && forall j :: 0 <= j < y - 1 ==> borders[j] <= d
    ensures d > 0.0 && (forall k :: 0 <= k < |borders| ==> borders[k] <= d) ==> y == 1
    ensures |borders| > 0 ==> y <= |borders|
  {
    if d > 0.0 then ValidSizeBinLabel(d, borders) else 0
  }

  /** The size-bin label of the validation generator, given only positive
      annotations: the same bin search without the diameter test. */
  function ValidSizeBinLabel(d: real, borders: seq<real>): (y: nat)
    ensures y >= 1
    ensures (exists k :: 0 <= k < |borders| && d < borders[k]) ==>
              y <= |borders| && d < borders[y - 1] && forall j :: 0 <= j < y - 1 ==> borders[j] <= d
    ensures (forall k :: 0 <= k < |borders| ==> borders[k] <= d) ==> y == 1
  {
    match FirstAbove(borders, d)
    case Some(k) => 1 + k
    case None => 1
  }

  /** The training and validation generators agree exactly on positive
      diameters, the only ones the validation generator labels. */
  lemma SizeBinLabelsAgree(d: real, borders: seq<real>)
    ensures SizeBinLabel(d, borders) == ValidSizeBinLabel(d, borders) <==> d > 0.0
  {
  }

  /** Number of borders at or below `d`. */
  function CountAtMost(borders: seq<real>, d: real): nat
  {
    if |borders| == 0 then 0
    else (if borders[0] <= d then 1 else 0) + CountAtMost(borders[1..], d)
  }

  predicate Sorted(borders: seq<real>)
  {
    forall i, j :: 0 <= i < j < |borders| ==> borders[i] <= borders[j]
  }

  lemma {:induction false} FirstAboveCounts(borders: seq<real>, d: real, i: nat)
    requires Sorted(borders)
    requires i <= |borders|
    requires forall j :: 0 <= j < i ==> borders[j] <= d
    requires FirstAbove(borders, d, i).Some?
    ensures FirstAbove(borders, d, i).value == CountAtMost(borders, d)
    decreases |borders| - i
  {
    if d < borders[i] {
      AllAboveFrom(borders, d, i);
    } else {
      FirstAboveCounts(borders, d, i + 1);
    }
  }

  /** With sorted borders, once one border is above `d` every later one is,
      so only the first `i` borders count. */
  lemma AllAboveFrom(borders: seq<real>, d: real, i: nat)
    requires Sorted(borders)
    requires i < |borders| && d < borders[i]
    requires forall j :: 0 <= j < i ==> borders[j] <= d
    ensures CountAtMost(borders, d) == i
  {
    CountSplit(borders, d, i);
    CountNone(borders[i..], d);
    CountAll(borders[..i], d);
  }

  lemma {:induction false} CountSplit(borders: seq<real>, d: real, i: nat)
    requires i <= |borders|
    ensures CountAtMost(borders, d) == CountAtMost(borders[..i], d) + CountAtMost(borders[i..], d)
  {
    if i > 0 {
      CountSplit(borders[1..], d, i - 1);
      assert borders[..i][1..] == borders[1..][..i - 1];
      assert borders[i..] == borders[1..][i - 1..];
    } else {
      assert borders[i..] == borders;
    }
  }

  lemma {:induction false} CountNone(borders: seq<real>, d: real)
    requires forall j :: 0 <= j < |borders| ==> d < borders[j]
    ensures CountAtMost(borders, d) == 0
  {
    if |borders| > 0 {
      CountNone(borders[1..], d);
    }
  }

  lemma {:induction false} CountAll(borders: seq<real>, d: real)
    requires forall j :: 0 <= j < |borders| ==> borders[j] <= d
    ensures CountAtMost(borders, d) == |borders|
  {
    if |borders| > 0 {
      CountAll(borders[1..], d);
    }
  }

  /** With sorted borders and a positive diameter below the last border, the
      size-bin label is the `np.digitize`-style bin: 1 + the number of borders
      at or below the diameter. */
  lemma SizeBinIsDigitize(d: real, borders: seq<real>)
    requires Sorted(borders)
    requires d > 0.0
    requires |borders| > 0 && d < borders[|borders| - 1]
    ensures SizeBinLabel(d, borders) == 1 + CountAtMost(borders, d)
  {
    FirstAboveCounts(borders, d, 0);
  }

  /** The label a generator writes into `y_batch` for one drawn candidate. */
  datatype TargetKind =
    | Binary             // CandidatesLunaDataGenerator, return_malignancy off
    | Malignancy         // CandidatesLunaDataGenerator, return_malignancy on
    | SizeBins(borders: seq<real>)  // CandidatesLunaSizeBinDataGenerator

  function Target(kind: TargetKind, c: Candidate): (y: real)
    ensures kind.Binary? ==> (y == 1.0 <==> c.diameter > 0.0) && (y == 0.0 <==> c.diameter <= 0.0)
    ensures kind.Malignancy? ==> 0.0 <= y <= 1.0
    ensures kind.SizeBins? ==> (y == 0.0 <==> c.diameter <= 0.0)
  {
    match kind
    case Binary => NoduleLabel(c)
    case Malignancy => DiameterToProb(c.diameter)
    case SizeBins(borders) => SizeBinLabel(c.diameter, borders) as real
  }

  /** The candidate counts as a nodule for the property targets. */
  predicate IsNodule(c: Candidate)
  {
    c.diameter > 0.01
  }

  /** The property dictionary of one candidate: the nodule flag always; for a
      nodule also the size target and the properties looked up in the doctors'
      annotations (computed by code outside this model), the latter written
      last. */
  function Properties(c: Candidate, sizeTarget: real, looked: map<string, real>): (props: map<string, real>)
    ensures "nodule" in props
    ensures !IsNodule(c) ==> props == map["nodule" := 0.0]
    ensures IsNodule(c) && "nodule" !in looked ==> props["nodule"] == 1.0
    // a nodule carries its size and every looked-up characteristic, and nothing else
    ensures IsNodule(c) ==> props.Keys == {"nodule", "size"} + looked.Keys
    ensures IsNodule(c) && "size" !in looked ==> props["size"] == sizeTarget
    ensures IsNodule(c) ==> forall k :: k in looked ==> props[k] == looked[k]
  {
    var flag := if IsNodule(c) then 1.0 else 0.0;
    var base := map["nodule" := flag];
    if IsNodule(c) then base["size" := sizeTarget] + looked else base
  }

  /** The target vector and its enable mask, one entry per objective. */
  datatype GroundTruth = GroundTruth(targets: seq<real>, enabled: seq<real>)

  /** Fill the two vectors in objective order: an objective with a property
      gets its value and enable 1, any other objective target 0 and enable 0. */
  function FillTargets(order: seq<string>, props: map<string, real>): (g: GroundTruth)
    ensures |g.targets| == |order| && |g.enabled| == |order|
    ensures forall i :: 0 <= i < |order| ==> (g.enabled[i] == 1.0 <==> order[i] in props)
    ensures forall i :: 0 <= i < |order| ==> g.enabled[i] == 0.0 || g.enabled[i] == 1.0
    ensures forall i :: 0 <= i < |order| && order[i] !in props ==> g.targets[i] == 0.0
  {
    if |order| == 0 then GroundTruth([], [])
    else
      var rest := FillTargets(order[1..], props);
      var k := order[0];
      GroundTruth([if k in props then props[k] else 0.0] + rest.targets,
                  [if k in props then 1.0 else 0.0] + rest.enabled)
  }

  /** The properties a (targets, mask) pair carries: each enabled objective
      with its target. */
  function Recover(order: seq<string>, g: GroundTruth): map<string, real>
    requires |g.targets| == |order| && |g.enabled| == |order|
  {
    if |order| == 0 then map[]
    else
      var rest := Recover(order[1..], GroundTruth(g.targets[1..], g.enabled[1..]));
      if g.enabled[0] == 1.0 then rest[order[0] := g.targets[0]] else rest
  }

  /** The mask fill loses nothing about the objectives it is asked for: the
      enabled entries give back exactly the properties whose names are
      objectives, with their values. */
  lemma {:induction false} FillTargetsRoundTrip(order: seq<string>, props: map<string, real>)
    ensures var g := FillTargets(order, props);
      Recover(order, g) == Restrict(props, order)
  {
    var g := FillTargets(order, props);
    if |order| > 0 {
      var rest := FillTargets(order[1..], props);
      assert g.targets[1..] == rest.targets && g.enabled[1..] == rest.enabled;
      FillTargetsRoundTrip(order[1..], props);
      RestrictCons(props, order);
    }
  }

  /** The properties whose names occur in `order`. */
  function Restrict(props: map<string, real>, order: seq<string>): map<string, real>
  {
    map k | k in props && k in order :: props[k]
  }

  lemma RestrictCons(props: map<string, real>, order: seq<string>)
    requires |order| > 0
    ensures Restrict(props, order) ==
      if order[0] in props then Restrict(props, order[1..])[order[0] := props[order[0]]]
      else Restrict(props, order[1..])
  {
    assert forall k :: k in order <==> k == order[0] || k in order[1..];
  }

  /** A candidate that is not a nodule enables exactly the "nodule"
      objectives, with target 0. */
  lemma NonNoduleTargets(order: seq<string>, c: Candidate, sizeTarget: real, looked: map<string, real>, i: nat)
    requires !IsNodule(c)
    requires i < |order|
    ensures var g := FillTargets(order, Properties(c, sizeTarget, looked));
      (g.enabled[i] == 1.0 <==> order[i] == "nodule") && g.targets[i] == 0.0
  {
    var g := FillTargets(order, Properties(c, sizeTarget, looked));
    if order[i] == "nodule" {
      FillTargetsValue(order, Properties(c, sizeTarget, looked), i);
    }
  }

  /** An enabled objective carries its property's value. */
  lemma {:induction false} FillTargetsValue(order: seq<string>, props: map<string, real>, i: nat)
    requires i < |order| && order[i] in props
    ensures FillTargets(order, props).targets[i] == props[order[i]]
  {
    if i > 0 {
      FillTargetsValue(order[1..], props, i - 1);
    }
  }
}
