/** Motion vectors and the joint classification used to code them
    (av1/common/entropymv.h): which of the two components are zero, and the
    range a coded component may take. */
module EntropyMv {
  import opened IntArith

  /** A motion vector in 1/8 pel. */
  datatype Mv = Mv(row: int, col: int)

  const MV_JOINTS: int := 4
  /** Both components zero. */
  const MV_JOINT_ZERO: int := 0
  /** Vertical zero, horizontal nonzero. */
  const MV_JOINT_HNZVZ: int := 1
  /** Horizontal zero, vertical nonzero. */
  const MV_JOINT_HZVNZ: int := 2
  /** Both components nonzero. */
  const MV_JOINT_HNZVNZ: int := 3

  const MV_CLASSES: nat := 11
  const CLASS0_BITS: nat := 1
  const MV_MAX_BITS: nat := MV_CLASSES + CLASS0_BITS + 2
  const MV_MAX: int := Pow2(MV_MAX_BITS) - 1
  const MV_VALS: int := 2 * MV_MAX + 1
  const MV_IN_USE_BITS: nat := 14
  const MV_UPP: int := Pow2(MV_IN_USE_BITS) - 1
  const MV_LOW: int := -(Pow2(MV_IN_USE_BITS) as int)

  /** mv_joint_vertical: the joint has a nonzero vertical component. */
  predicate MvJointVertical(t: int)
  {
    t == MV_JOINT_HZVNZ || t == MV_JOINT_HNZVNZ
  }

  /** mv_joint_horizontal: the joint has a nonzero horizontal component. */
  predicate MvJointHorizontal(t: int)
  {
    t == MV_JOINT_HNZVZ || t == MV_JOINT_HNZVNZ
  }

  /** av1_get_mv_joint: the joint type records exactly which components are
      nonzero. */
  function GetMvJoint(mv: Mv): (t: int)
    ensures 0 <= t < MV_JOINTS
    ensures t == MV_JOINT_ZERO <==> mv.row == 0 && mv.col == 0
    ensures MvJointVertical(t) <==> mv.row != 0
    ensures MvJointHorizontal(t) <==> mv.col != 0
  {
    if mv.row == 0 then
      (if mv.col == 0 then MV_JOINT_ZERO else MV_JOINT_HNZVZ)
    else
      (if mv.col == 0 then MV_JOINT_HZVNZ else MV_JOINT_HNZVNZ)
  }

  /** The joint type is determined by the two zero tests and nothing else. */
  lemma MvJointDeterminedByZeros(a: Mv, b: Mv)
    requires (a.row == 0 <==> b.row == 0) && (a.col == 0 <==> b.col == 0)
    ensures GetMvJoint(a) == GetMvJoint(b)
  {
  }

  lemma MvRangeConstants()
    ensures MV_MAX_BITS == 14 && MV_MAX == 16383 && MV_VALS == 32767
    ensures MV_UPP == 16383 && MV_LOW == -16384 && MV_LOW == -(MV_UPP + 1)
  {
    Pow2Values();
  }
}
