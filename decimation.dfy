/**
 * Face decimation in `generate_render_frames`: a stride of
 * `floor(n / TARGET_FACE_COUNT)` when there are more than
 * `TARGET_FACE_COUNT` faces, otherwise 1, and the slice `faces[::stride]`.
 */
module Decimation {

  /** `TARGET_FACE_COUNT` */
  const TargetFaceCount: nat := 15000

  /**
   * The stride for `n` faces. `int(n / TARGET_FACE_COUNT)` truncates a
   * positive quotient, which is the floor.
   */
  function Stride(n: nat): (s: nat)
    ensures s >= 1
    ensures n <= TargetFaceCount ==> s == 1
    ensures n > TargetFaceCount ==> s * TargetFaceCount <= n < (s + 1) * TargetFaceCount
  {
    if n > TargetFaceCount then n / TargetFaceCount else 1
  }

  /**
   * The slice `xs[::stride]`: the first element, then the slice of what
   * follows the first `stride` elements. Never longer than the input.
   */
  function Decimate<T>(xs: seq<T>, stride: nat): (r: seq<T>)
    requires stride >= 1
    ensures |r| <= |xs|
    ensures xs != [] ==> r != [] && r[0] == xs[0]
    decreases |xs|
  {
    if xs == [] then []
    else if |xs| <= stride then [xs[0]]
    else [xs[0]] + Decimate(xs[stride..], stride)
  }

  /** The `i`-th kept element is the element at index `i * stride`. */
  lemma {:induction false} DecimateIndex<T>(xs: seq<T>, stride: nat, i: nat)
    requires stride >= 1 && i < |Decimate(xs, stride)|
    ensures i * stride < |xs| && Decimate(xs, stride)[i] == xs[i * stride]
    decreases |xs|
  {
    if i > 0 {
      var rest := xs[stride..];
      assert Decimate(xs, stride) == [xs[0]] + Decimate(rest, stride);
      DecimateIndex(rest, stride, i - 1);
      var k := (i - 1) * stride;
      assert i * stride == k + stride;
      assert rest[k] == xs[k + stride];
    }
  }

  /** No multiple of `stride` below `|xs|` is skipped. */
  lemma {:induction false} DecimateCovers<T>(xs: seq<T>, stride: nat)
    requires stride >= 1
    ensures |xs| <= |Decimate(xs, stride)| * stride
    decreases |xs|
  {
    if |xs| > stride {
      DecimateCovers(xs[stride..], stride);
      var m := |Decimate(xs[stride..], stride)|;
      assert (m + 1) * stride == m * stride + stride;
    }
  }

  /** `a <= b` gives `a * c <= b * c` for non-negative `c`. */
  lemma MulMono(a: int, b: int, c: nat)
    requires a <= b
    ensures a * c <= b * c
  {
  }

  /** Stride 1 keeps the list unchanged. */
  lemma {:induction false} DecimateByOne<T>(xs: seq<T>)
    ensures Decimate(xs, 1) == xs
    decreases |xs|
  {
    if |xs| > 1 {
      DecimateByOne(xs[1..]);
    }
  }

  /** The faces to draw: `faces[::stride]` with the stride for their count. */
  function OptimizedFaces<T>(faces: seq<T>): (r: seq<T>)
  {
    Decimate(faces, Stride(|faces|))
  }

  /** Up to the target count the face list is drawn unchanged. */
  lemma SmallSceneUndecimated<T>(faces: seq<T>)
    requires |faces| <= TargetFaceCount
    ensures OptimizedFaces(faces) == faces
  {
    DecimateByOne(faces);
  }

  /**
   * Above the target count the decimated list holds at least the target
   * count and fewer than twice it: decimation does not bring a large scene
   * down to the target.
   */
  lemma LargeSceneBudget<T>(faces: seq<T>)
    requires |faces| > TargetFaceCount
    ensures TargetFaceCount <= |OptimizedFaces(faces)| < 2 * TargetFaceCount
  {
    var n, s := |faces|, Stride(|faces|);
    var m := |Decimate(faces, s)|;
    DecimateCovers(faces, s);
    assert n <= m * s && s * TargetFaceCount <= n < (s + 1) * TargetFaceCount;
    if m < TargetFaceCount {
      MulMono(m, TargetFaceCount - 1, s);
      assert false;
    }
    DecimateIndex(faces, s, m - 1);
    if m >= 2 * TargetFaceCount {
      MulMono(2 * TargetFaceCount - 1, m - 1, s);
      assert false;
    }
  }

  /** 29999 faces give stride 1, so all 29999 are drawn. */
  lemma JustBelowDoubleTarget<T>(faces: seq<T>)
    requires |faces| == 29999
    ensures Stride(|faces|) == 1 && OptimizedFaces(faces) == faces
  {
    DecimateByOne(faces);
  }
}
