/**
 * Local transform construction: `get_rotation_matrix` and
 * `compose_transform`. The trigonometric functions and the degree-to-radian
 * conversion are left uninterpreted: they are handed in as a `Trig` record,
 * so every statement below holds whatever their numeric values are.
 */
module Transform {
  import opened Matrices
  import opened Wrappers

  datatype Trig = Trig(sin: real -> real, cos: real -> real, radians: real -> real)

  /**
   * The first three entries of `s`, padded on the right with `fill`
   * (`s[:3]` followed by `+= [fill] * (3 - len)`). The slice is a copy, so
   * the caller's list is left as it was; on values that is automatic.
   */
  function Pad3(s: seq<real>, fill: real): (r: seq<real>)
    ensures |r| == 3
    ensures forall i :: 0 <= i < 3 ==> r[i] == if i < |s| then s[i] else fill
  {
    var head := if |s| <= 3 then s else s[..3];
    head + seq(3 - |head|, _ => fill)
  }

  /** Roll: rotation by angle `a` (radians) about the Z axis. */
  function RotZ(t: Trig, a: real): (m: Matrix)
    ensures IsLinear(m)
  {
    [[t.cos(a), -t.sin(a), 0.0, 0.0],
     [t.sin(a), t.cos(a), 0.0, 0.0],
     [0.0, 0.0, 1.0, 0.0],
     [0.0, 0.0, 0.0, 1.0]]
  }

  /** Pitch: rotation by angle `a` (radians) about the X axis. */
  function RotX(t: Trig, a: real): (m: Matrix)
    ensures IsLinear(m)
  {
    [[1.0, 0.0, 0.0, 0.0],
     [0.0, t.cos(a), -t.sin(a), 0.0],
     [0.0, t.sin(a), t.cos(a), 0.0],
     [0.0, 0.0, 0.0, 1.0]]
  }

  /** Yaw: rotation by angle `a` (radians) about the Y axis. */
  function RotY(t: Trig, a: real): (m: Matrix)
    ensures IsLinear(m)
  {
    [[t.cos(a), 0.0, t.sin(a), 0.0],
     [0.0, 1.0, 0.0, 0.0],
     [-t.sin(a), 0.0, t.cos(a), 0.0],
     [0.0, 0.0, 0.0, 1.0]]
  }

  /** `get_rotation_matrix`: Euler angles in degrees, combined as Ry * (Rx * Rz). */
  function RotationMatrix(t: Trig, rot: seq<real>): (m: Matrix)
    ensures IsLinear(m)
  {
    var r := Pad3(rot, 0.0);
    Mul(RotY(t, t.radians(r[1])), Mul(RotX(t, t.radians(r[0])), RotZ(t, t.radians(r[2]))))
  }

  function Translation(p: seq<real>): (m: Matrix)
    requires |p| == 3
    ensures IsAffine(m)
  {
    [[1.0, 0.0, 0.0, p[0]],
     [0.0, 1.0, 0.0, p[1]],
     [0.0, 0.0, 1.0, p[2]],
     [0.0, 0.0, 0.0, 1.0]]
  }

  function Scaling(s: seq<real>): (m: Matrix)
    requires |s| == 3
    ensures IsLinear(m)
  {
    [[s[0], 0.0, 0.0, 0.0],
     [0.0, s[1], 0.0, 0.0],
     [0.0, 0.0, s[2], 0.0],
     [0.0, 0.0, 0.0, 1.0]]
  }

  /** `compose_transform`: T * (R * S), position padded with 0, scale with 1. */
  function ComposeTransform(t: Trig, pos: seq<real>, rot: seq<real>, scale: seq<real>): (m: Matrix)
    ensures IsAffine(m)
  {
    Mul(Translation(Pad3(pos, 0.0)), Mul(RotationMatrix(t, rot), Scaling(Pad3(scale, 1.0))))
  }

  /** The entries of T * (R * S) for a translation, an affine R and a scaling. */
  lemma TRSShape(p: seq<real>, r: Matrix, s: seq<real>)
    requires |p| == 3 && |s| == 3 && IsLinear(r)
    ensures var m := Mul(Translation(p), Mul(r, Scaling(s)));
      && (forall i :: 0 <= i < 3 ==> m[i][3] == p[i])
      && (forall i, j :: 0 <= i < 3 && 0 <= j < 3 ==> m[i][j] == r[i][j] * s[j])
  {
    var rs := Mul(r, Scaling(s));
    assert forall i, j :: 0 <= i < 3 && 0 <= j < 3 ==> rs[i][j] == r[i][j] * s[j];
    assert forall i :: 0 <= i < 3 ==> rs[i][3] == 0.0;
  }

  /**
   * The shape of T * R * S: the last column is the padded position and the
   * bottom row is (0, 0, 0, 1) (the 3x3 block is `TRSShape`'s).
   */
  lemma ComposeTransformShape(t: Trig, pos: seq<real>, rot: seq<real>, scale: seq<real>)
    ensures var m, r := ComposeTransform(t, pos, rot, scale), RotationMatrix(t, rot);
      var p, s := Pad3(pos, 0.0), Pad3(scale, 1.0);
      && IsAffine(m)
      && (forall i :: 0 <= i < 3 ==> m[i][3] == p[i])
  {
    TRSShape(Pad3(pos, 0.0), RotationMatrix(t, rot), Pad3(scale, 1.0));
  }

  /**
   * What T * R * S does to a point: scale first, then rotate (roll, then
   * pitch, then yaw), then translate.
   */
  lemma ComposeTransformApply(t: Trig, pos: seq<real>, rot: seq<real>, scale: seq<real>, q: Point)
    ensures var r := Pad3(rot, 0.0);
      Apply(ComposeTransform(t, pos, rot, scale), q)
      == Apply(Translation(Pad3(pos, 0.0)),
           Apply(RotY(t, t.radians(r[1])),
             Apply(RotX(t, t.radians(r[0])),
               Apply(RotZ(t, t.radians(r[2])),
                 Apply(Scaling(Pad3(scale, 1.0)), q)))))
  {
    var r := Pad3(rot, 0.0);
    var ry, rx, rz := RotY(t, t.radians(r[1])), RotX(t, t.radians(r[0])), RotZ(t, t.radians(r[2]));
    var tm, rm, sm := Translation(Pad3(pos, 0.0)), RotationMatrix(t, rot), Scaling(Pad3(scale, 1.0));
    ApplyMul(tm, Mul(rm, sm), q);
    ApplyMul(rm, sm, q);
    ApplyMul(ry, Mul(rx, rz), Apply(sm, q));
    ApplyMul(rx, rz, Apply(sm, q));
  }

  /**
   * With sin 0 = 0 and cos 0 = 1, the default transform (position 0,
   * rotation 0, scale 1, in any padded form) is the identity.
   */
  lemma DefaultTransformIsIdentity(t: Trig, pos: seq<real>, rot: seq<real>, scale: seq<real>)
    requires t.radians(0.0) == 0.0 && t.sin(0.0) == 0.0 && t.cos(0.0) == 1.0
    requires forall i :: 0 <= i < |pos| && i < 3 ==> pos[i] == 0.0
    requires forall i :: 0 <= i < |rot| && i < 3 ==> rot[i] == 0.0
    requires forall i :: 0 <= i < |scale| && i < 3 ==> scale[i] == 1.0
    ensures ComposeTransform(t, pos, rot, scale) == Identity()
  {
    var r := Pad3(rot, 0.0);
    assert r == [0.0, 0.0, 0.0];
    assert Pad3(pos, 0.0) == [0.0, 0.0, 0.0];
    assert Pad3(scale, 1.0) == [1.0, 1.0, 1.0];
    assert RotZ(t, 0.0) == Identity();
    assert RotX(t, 0.0) == Identity();
    assert RotY(t, 0.0) == Identity();
    MulIdentity(Identity());
    assert Translation([0.0, 0.0, 0.0]) == Identity();
    assert Scaling([1.0, 1.0, 1.0]) == Identity();
  }

  /** Reflection across the YZ plane: X negated. */
  function ReflectX(p: Point): Point
  {
    Point(-p.x, p.y, p.z)
  }

  /**
   * The symmetry ghost's local placement: position X negated, rotation Y and
   * Z negated, scale unchanged. The source indexes `pos[0..2]` and
   * `rot[0..2]` without padding, so a shorter array raises (None here).
   */
  function MirroredTransform(t: Trig, pos: seq<real>, rot: seq<real>, scale: seq<real>): (r: Option<Matrix>)
    ensures r.Some? <==> |pos| >= 3 && |rot| >= 3
    ensures r.Some? ==> IsAffine(r.value)
  {
    if |pos| < 3 || |rot| < 3 then None
    else Some(ComposeTransform(t, [-pos[0], pos[1], pos[2]], [rot[0], -rot[1], -rot[2]], scale))
  }

  lemma RotYMirror(t: Trig, a: real, b: real, q: Point)
    requires t.sin(b) == -t.sin(a) && t.cos(b) == t.cos(a)
    ensures Apply(RotY(t, b), q) == ReflectX(Apply(RotY(t, a), ReflectX(q)))
  {
  }

  lemma RotZMirror(t: Trig, a: real, b: real, q: Point)
    requires t.sin(b) == -t.sin(a) && t.cos(b) == t.cos(a)
    ensures Apply(RotZ(t, b), q) == ReflectX(Apply(RotZ(t, a), ReflectX(q)))
  {
  }

  /**
   * When sine is odd and cosine even at the two negated angles, the ghost's
   * local placement is the original placement conjugated by the X
   * reflection: it maps a mesh point q to the mirror image of where the
   * original maps the mirrored point. The mesh itself is not reflected, so
   * the ghost is the mirror image of the part only when the mesh is
   * symmetric in X.
   */
  lemma MirroredTransformReflects(t: Trig, pos: seq<real>, rot: seq<real>, scale: seq<real>, q: Point)
    requires |pos| >= 3 && |rot| >= 3
    requires t.sin(t.radians(-rot[1])) == -t.sin(t.radians(rot[1]))
    requires t.cos(t.radians(-rot[1])) == t.cos(t.radians(rot[1]))
    requires t.sin(t.radians(-rot[2])) == -t.sin(t.radians(rot[2]))
    requires t.cos(t.radians(-rot[2])) == t.cos(t.radians(rot[2]))
    ensures Apply(MirroredTransform(t, pos, rot, scale).value, q)
         == ReflectX(Apply(ComposeTransform(t, pos, rot, scale), ReflectX(q)))
  {
    var mpos, mrot := [-pos[0], pos[1], pos[2]], [rot[0], -rot[1], -rot[2]];
    assert Pad3(mrot, 0.0) == mrot;
    assert Pad3(mpos, 0.0) == mpos;
    var p := Pad3(pos, 0.0);
    assert p[0] == pos[0] && p[1] == pos[1] && p[2] == pos[2];
    var r := Pad3(rot, 0.0);
    assert r[0] == rot[0] && r[1] == rot[1] && r[2] == rot[2];
    ComposeTransformApply(t, mpos, mrot, scale, q);
    ComposeTransformApply(t, pos, rot, scale, ReflectX(q));
    MirrorChain(t, mpos, rot, Pad3(scale, 1.0), q);
  }

  /** The per-axis facts behind `MirroredTransformReflects`, on the point chain. */
  lemma MirrorChain(t: Trig, mpos: seq<real>, rot: seq<real>, s: seq<real>, q: Point)
    requires |mpos| == 3 && |rot| >= 3 && |s| == 3
    requires t.sin(t.radians(-rot[1])) == -t.sin(t.radians(rot[1]))
    requires t.cos(t.radians(-rot[1])) == t.cos(t.radians(rot[1]))
    requires t.sin(t.radians(-rot[2])) == -t.sin(t.radians(rot[2]))
    requires t.cos(t.radians(-rot[2])) == t.cos(t.radians(rot[2]))
    ensures
      Apply(Translation(mpos),
        Apply(RotY(t, t.radians(-rot[1])),
          Apply(RotX(t, t.radians(rot[0])),
            Apply(RotZ(t, t.radians(-rot[2])),
              Apply(Scaling(s), q)))))
      == ReflectX(
      Apply(Translation([-mpos[0], mpos[1], mpos[2]]),
        Apply(RotY(t, t.radians(rot[1])),
          Apply(RotX(t, t.radians(rot[0])),
            Apply(RotZ(t, t.radians(rot[2])),
              Apply(Scaling(s), ReflectX(q)))))))
  {
    var sq := Apply(Scaling(s), q);
    assert Apply(Scaling(s), ReflectX(q)) == ReflectX(sq);
    RotZMirror(t, t.radians(rot[2]), t.radians(-rot[2]), sq);
    var z1 := Apply(RotZ(t, t.radians(rot[2])), ReflectX(sq));
    var x1 := Apply(RotX(t, t.radians(rot[0])), z1);
    assert Apply(RotX(t, t.radians(rot[0])), ReflectX(z1)) == ReflectX(x1);
    RotYMirror(t, t.radians(rot[1]), t.radians(-rot[1]), ReflectX(x1));
  }

  /**
   * A placement already on the mirror plane (X position 0, Y and Z angles
   * 0) is its own mirror.
   */
  lemma MirroredTransformOfSymmetric(t: Trig, pos: seq<real>, rot: seq<real>, scale: seq<real>)
    requires |pos| >= 3 && |rot| >= 3 && pos[0] == 0.0 && rot[1] == 0.0 && rot[2] == 0.0
    ensures MirroredTransform(t, pos, rot, scale) == Some(ComposeTransform(t, pos, rot, scale))
  {
    var mpos, mrot := [-pos[0], pos[1], pos[2]], [rot[0], -rot[1], -rot[2]];
    assert Pad3(mpos, 0.0) == Pad3(pos, 0.0);
    assert Pad3(mrot, 0.0) == Pad3(rot, 0.0);
  }
}
