/** The sliding-window scan of `test_seg_scan.py`: along each axis the
    input is read in windows of `window` voxels at a step of `stride`, each
    window's prediction (of `stride` voxels) is written to its own output
    region, and the assembled prediction is padded back to the input shape.
    Shapes are sequences of axis lengths; `/` on integers is Python 2's
    floor division. */
module WindowTiling {

  import opened Wrappers
  import opened Seqs

  /** The segmentation scan configuration: patch size, window and stride. */
  const PatchSize: nat := 416
  const WindowSize: nat := 160
  const Stride: nat := 128

  /** `n_windows = (size - window_size) / stride + 1`: the number of whole
      windows that fit in `size` voxels. */
  function NWindows(size: nat, window: nat, stride: nat): (n: nat)
    requires stride > 0 && window <= size
    ensures n >= 1
    ensures (n - 1) * stride + window <= size
    ensures size < n * stride + window
  {
    var q := (size - window) / stride;
    MulSucc(q, stride);
    q + 1
  }

  /** Voxel `p` lies in the output region `[i*stride, (i+1)*stride)`. */
  predicate InRegion(p: nat, i: nat, stride: nat)
  {
    i * stride <= p < (i + 1) * stride
  }

  /** Each voxel lies in exactly one output region, that of window
      `p / stride`: the regions are pairwise disjoint and cover the line. */
  lemma RegionOwner(p: nat, i: nat, stride: nat)
    requires stride > 0
    ensures InRegion(p, i, stride) <==> i == p / stride
  {
    MulSucc(i, stride);
    MulSucc(p / stride, stride);
    if InRegion(p, i, stride) && i != p / stride {
      if i < p / stride {
        MulMono(i + 1, p / stride, stride);
      } else {
        MulMono(p / stride + 1, i, stride);
      }
    }
  }

  /** The regions of windows `0..n-1` together cover exactly
      `[0, n*stride)`. */
  lemma RegionsCover(p: nat, n: nat, stride: nat)
    requires stride > 0
    ensures p < n * stride <==> p / stride < n
  {
    if p / stride < n {
      MulMono(p / stride + 1, n, stride);
      MulSucc(p / stride, stride);
    } else {
      MulMono(n, p / stride, stride);
    }
  }

  lemma MulMono(a: nat, b: nat, c: nat)
    requires a <= b
    ensures a * c <= b * c
  {
  }

  /** Every window read, `[i*stride, i*stride + window)`, stays inside
      the input. */
  lemma WindowsInside(size: nat, window: nat, stride: nat, i: nat)
    requires stride > 0 && window <= size
    requires i < NWindows(size, window, stride)
    ensures i * stride + window <= size
  {
    MulMono(i, NWindows(size, window, stride) - 1, stride);
  }

  /** A window index along the three axes, as the loops over `iz`, `iy`
      and `ix` enumerate them. */
  datatype Index3 = Index3(z: nat, y: nat, x: nat)

  predicate InBlock(v: Index3, w: Index3, stride: nat)
  {
    InRegion(v.z, w.z, stride) && InRegion(v.y, w.y, stride) && InRegion(v.x, w.x, stride)
  }

  /** Every voxel of the `n*stride` cube is written by exactly one of the
      `n^3` windows, so the order of the writes does not matter and no voxel
      is left at zero. */
  lemma EachVoxelWrittenOnce(v: Index3, w: Index3, n: nat, stride: nat)
    requires stride > 0
    requires v.z < n * stride && v.y < n * stride && v.x < n * stride
    ensures Index3(v.z / stride, v.y / stride, v.x / stride).z < n
    ensures Index3(v.z / stride, v.y / stride, v.x / stride).y < n
    ensures Index3(v.z / stride, v.y / stride, v.x / stride).x < n
    ensures InBlock(v, w, stride) <==> w == Index3(v.z / stride, v.y / stride, v.x / stride)
  {
    RegionsCover(v.z, n, stride);
    RegionsCover(v.y, n, stride);
    RegionsCover(v.x, n, stride);
    RegionOwner(v.z, w.z, stride);
    RegionOwner(v.y, w.y, stride);
    RegionOwner(v.x, w.x, stride);
  }

  /** One axis of the assembled prediction: the window outputs, each of
      `stride` voxels, laid end to end. */
  function Assemble(patches: seq<seq<real>>, stride: nat): (r: seq<real>)
    requires stride > 0
    requires forall k :: 0 <= k < |patches| ==> |patches[k]| == stride
    ensures |r| == |patches| * stride
  {
    FlattenFull(patches, stride);
    Flatten(patches)
  }

  /** Voxel `p` of the assembled axis is voxel `p % stride` of window
      `p / stride`'s output. */
  lemma AssembledAt(patches: seq<seq<real>>, stride: nat, p: nat)
    requires stride > 0
    requires forall k :: 0 <= k < |patches| ==> |patches[k]| == stride
    requires p < |patches| * stride
    ensures p / stride < |patches|
    ensures Assemble(patches, stride)[p] == patches[p / stride][p % stride]
  {
    RegionsCover(p, |patches|, stride);
    assert p == (p / stride) * stride + p % stride;
    FlattenFullAt(patches, stride, p / stride, p % stride);
  }

  datatype PadError =
    /** The prediction is larger than the input: `np.pad` refuses a
        negative width (ValueError). */
    | NegativePad(axis: nat)

  /** The first axis where the prediction exceeds the input. */
  function FirstTooLarge(input: seq<nat>, pred: seq<nat>): (r: Option<nat>)
    requires |input| == |pred|
    ensures r.Some? ==> r.value < |input| && pred[r.value] > input[r.value] &&
                        (forall a :: 0 <= a < r.value ==> pred[a] <= input[a])
    ensures r.None? ==> forall a :: 0 <= a < |input| ==> pred[a] <= input[a]
  {
    if |input| == 0 then None
    else if pred[0] > input[0] then Some(0)
    else match FirstTooLarge(input[1..], pred[1..])
      case None => None
      case Some(a) => Some(a + 1)
  }

  /** The padding as written: `(x.shape - predictions_scan.shape) / 2` on
      both sides of every axis (no padding when the shapes agree). */
  function PadAsWritten(input: seq<nat>, pred: seq<nat>): (r: Result<seq<(nat, nat)>, PadError>)
    requires |input| == |pred|
    ensures r.Err? <==> input != pred && exists a :: 0 <= a < |input| && pred[a] > input[a]
    ensures r.Ok? ==> |r.value| == |input|
    ensures r.Ok? ==> forall a :: 0 <= a < |input| ==> r.value[a].0 == r.value[a].1 == (input[a] - pred[a]) / 2
  {
    if input == pred then Ok(seq(|input|, a requires 0 <= a < |input| => (0, 0)))
    else match FirstTooLarge(input, pred)
      case Some(a) => Err(NegativePad(a))
      case None => Ok(seq(|input|, a requires 0 <= a < |input| => ((input[a] - pred[a]) / 2, (input[a] - pred[a]) / 2)))
  }

  /** The shape after `np.pad`. */
  function Padded(pred: seq<nat>, widths: seq<(nat, nat)>): (r: seq<nat>)
    requires |widths| == |pred|
    ensures |r| == |pred|
    ensures forall a :: 0 <= a < |pred| ==> r[a] == widths[a].0 + pred[a] + widths[a].1
  {
    seq(|pred|, a requires 0 <= a < |pred| => widths[a].0 + pred[a] + widths[a].1)
  }

  /** As written, the padded prediction matches the input exactly when
      every axis differs by an even number of voxels. */
  lemma PadAsWrittenMatchesIffEven(input: seq<nat>, pred: seq<nat>)
    requires |input| == |pred|
    requires PadAsWritten(input, pred).Ok?
    ensures Padded(pred, PadAsWritten(input, pred).value) == input <==>
      forall a :: 0 <= a < |input| ==> (input[a] - pred[a]) % 2 == 0
  {
    var p := Padded(pred, PadAsWritten(input, pred).value);
    if forall a :: 0 <= a < |input| ==> (input[a] - pred[a]) % 2 == 0 {
      assert forall a :: 0 <= a < |input| ==> p[a] == input[a];
    } else {
      var a :| 0 <= a < |input| && (input[a] - pred[a]) % 2 != 0;
      assert p[a] == input[a] - 1;
    }
  }

  /** An input of 417 voxels per axis with the configured window and
      stride: 3 windows give a 384-voxel prediction, padded by 16 on each
      side to 416, one voxel short of the input, so the prediction and the
      lung mask no longer have the same shape. */
  lemma PadAsWrittenFallsShort(input: seq<nat>, pred: seq<nat>)
    requires input == [1, 1, 417, 417, 417] && pred == [1, 1, 384, 384, 384]
    ensures NWindows(input[2], WindowSize, Stride) == 3
    ensures PadAsWritten(input, pred).Ok?
    ensures Padded(pred, PadAsWritten(input, pred).value) == [1, 1, 416, 416, 416]
  {
    assert forall a :: 0 <= a < 5 ==> pred[a] <= input[a];
    var p := Padded(pred, PadAsWritten(input, pred).value);
    PaddedAxis(input, pred, 0);
    PaddedAxis(input, pred, 1);
    PaddedAxis(input, pred, 2);
    PaddedAxis(input, pred, 3);
    PaddedAxis(input, pred, 4);
    assert p[0] == 1 && p[1] == 1 && p[2] == 416 && p[3] == 416 && p[4] == 416;
  }

  /** The same 417-voxel cube through the whole scan: as written the
      prediction comes back with 416 voxels per spatial axis, corrected with
      417. */
  lemma ScanShapeFallsShort()
    ensures ScanShape(417, WindowSize, Stride) == Ok([1, 1, 416, 416, 416])
    ensures CorrectedScanShape(417, WindowSize, Stride) == Ok([1, 1, 417, 417, 417])
  {
    assert NWindows(417, WindowSize, Stride) == 3;
  }

  /** Along one axis the padding as written loses the odd voxel. */
  lemma PaddedAxis(input: seq<nat>, pred: seq<nat>, a: nat)
    requires |input| == |pred| && a < |input|
    requires PadAsWritten(input, pred).Ok?
    ensures Padded(pred, PadAsWritten(input, pred).value)[a] == input[a] - (input[a] - pred[a]) % 2
  {
  }

  /** Padding that centres the prediction and puts the odd voxel, if any,
      after it. */
  function PadCentered(input: seq<nat>, pred: seq<nat>): (r: Result<seq<(nat, nat)>, PadError>)
    requires |input| == |pred|
    ensures r.Err? <==> exists a :: 0 <= a < |input| && pred[a] > input[a]
    ensures r.Ok? ==> |r.value| == |input|
    ensures r.Ok? ==> forall a :: 0 <= a < |input| ==>
      r.value[a].0 <= r.value[a].1 <= r.value[a].0 + 1
  {
    match FirstTooLarge(input, pred)
      case Some(a) => Err(NegativePad(a))
      case None =>
        Ok(seq(|input|, a requires 0 <= a < |input| =>
          ((input[a] - pred[a]) / 2, (input[a] - pred[a]) - (input[a] - pred[a]) / 2)))
  }

  /** The centred padding always restores the input shape. */
  lemma PadCenteredRestoresShape(input: seq<nat>, pred: seq<nat>)
    requires |input| == |pred|
    requires PadCentered(input, pred).Ok?
    ensures Padded(pred, PadCentered(input, pred).value) == input
  {
    var p := Padded(pred, PadCentered(input, pred).value);
    assert forall a :: 0 <= a < |input| ==> p[a] == input[a];
  }

  /** The predicted scan for one input cube, as written: `n_windows * stride`
      voxels per spatial axis, padded by `(input - prediction) / 2` on both
      sides. Each spatial axis comes out one voxel short when the difference
      is odd. */
  function ScanShape(size: nat, window: nat, stride: nat): (r: Result<seq<nat>, PadError>)
    requires stride > 0 && window <= size
    ensures r.Ok? <==> NWindows(size, window, stride) * stride <= size
    ensures r.Ok? ==> var s := size - (size - NWindows(size, window, stride) * stride) % 2;
      r.value == [1, 1, s, s, s]
    ensures r.Ok? ==>
      (r.value == [1, 1, size, size, size] <==> (size - NWindows(size, window, stride) * stride) % 2 == 0)
  {
    var m := NWindows(size, window, stride) * stride;
    var input := [1, 1, size, size, size];
    var pred := [1, 1, m, m, m];
    match PadAsWritten(input, pred)
      case Err(e) =>
        var a :| 0 <= a < |input| && pred[a] > input[a];
        assert pred[a] == m && input[a] == size;
        Err(e)
      case Ok(widths) =>
        assert m <= size by {
          if input != pred {
            assert pred[2] <= input[2];
          }
        }
        PaddedCube(input, pred, size, m);
        Ok(Padded(pred, widths))
  }

  /** The padding as written, applied to a cube of `m` voxels inside one of
      `size` voxels. */
  lemma PaddedCube(input: seq<nat>, pred: seq<nat>, size: nat, m: nat)
    requires m <= size
    requires input == [1, 1, size, size, size] && pred == [1, 1, m, m, m]
    ensures PadAsWritten(input, pred).Ok?
    ensures var s := size - (size - m) % 2;
      Padded(pred, PadAsWritten(input, pred).value) == [1, 1, s, s, s]
  {
    assert pred[2] <= input[2];
    var p := Padded(pred, PadAsWritten(input, pred).value);
    PaddedAxis(input, pred, 0);
    PaddedAxis(input, pred, 1);
    PaddedAxis(input, pred, 2);
    PaddedAxis(input, pred, 3);
    PaddedAxis(input, pred, 4);
  }

  /** The predicted scan for one input cube with the centred padding: the
      input's shape whenever the windows' output fits in the input. */
  function CorrectedScanShape(size: nat, window: nat, stride: nat): (r: Result<seq<nat>, PadError>)
    requires stride > 0 && window <= size
    ensures r.Ok? <==> NWindows(size, window, stride) * stride <= size
    ensures r.Ok? ==> r.value == [1, 1, size, size, size]
  {
    var m := NWindows(size, window, stride) * stride;
    var input := [1, 1, size, size, size];
    var pred := [1, 1, m, m, m];
    match PadCentered(input, pred)
      case Err(e) =>
        var a :| 0 <= a < |input| && pred[a] > input[a];
        assert pred[a] == m && input[a] == size;
        Err(e)
      case Ok(widths) =>
        assert pred[2] <= input[2];
        PadCenteredRestoresShape(input, pred);
        Ok(Padded(pred, widths))
  }

  /** With the configured sizes the windows tile 384 of the 416 voxels
      per axis, and 16 voxels of padding on each side restore the input. */
  lemma ConfiguredScan()
    ensures NWindows(PatchSize, WindowSize, Stride) == 3
    ensures PadAsWritten([1, 1, 416, 416, 416], [1, 1, 384, 384, 384])
      == Ok([(0, 0), (0, 0), (16, 16), (16, 16), (16, 16)])
    ensures ScanShape(PatchSize, WindowSize, Stride) == Ok([1, 1, 416, 416, 416])
    ensures CorrectedScanShape(PatchSize, WindowSize, Stride) == Ok([1, 1, 416, 416, 416])
  {
    var input: seq<nat> := [1, 1, 416, 416, 416];
    var pred: seq<nat> := [1, 1, 384, 384, 384];
    assert forall a :: 0 <= a < 5 ==> pred[a] <= input[a];
    var w := PadAsWritten(input, pred).value;
    assert w[0] == (0, 0) && w[1] == (0, 0);
    assert w[2] == (16, 16) && w[3] == (16, 16) && w[4] == (16, 16);
    assert w == [(0, 0), (0, 0), (16, 16), (16, 16), (16, 16)];
  }
}
