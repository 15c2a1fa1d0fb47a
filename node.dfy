/**
 * A three-dimensional node of the structure: a fixed reference location and an
 * actual location that the solver moves one displacement direction at a time.
 */
module Nodes {
  import opened Wrappers

  /** The coordinate axis that a dof type displaces along. */
  datatype Axis = X | Y | Z

  /** The dof types a node provides: 'u' along X, 'v' along Y, 'w' along Z. */
  function AxisOf(dofType: string): (r: Option<Axis>)
    ensures r.Some? <==> dofType in {"u", "v", "w"}
  {
    if dofType == "u" then Some(X)
    else if dofType == "v" then Some(Y)
    else if dofType == "w" then Some(Z)
    else None
  }

  datatype Vec3 = Vec3(x: real, y: real, z: real) {
    function Get(axis: Axis): real
    {
      match axis
      case X => x
      case Y => y
      case Z => z
    }

    /** This vector with the `axis` component replaced by `v`. */
    function With(axis: Axis, v: real): (r: Vec3)
      ensures r.Get(axis) == v
      ensures forall other :: other != axis ==> r.Get(other) == Get(other)
    {
      match axis
      case X => Vec3(v, y, z)
      case Y => Vec3(x, v, z)
      case Z => Vec3(x, y, v)
    }

    function Plus(o: Vec3): Vec3
    {
      Vec3(x + o.x, y + o.y, z + o.z)
    }

    function Minus(o: Vec3): (r: Vec3)
      ensures o.Plus(r) == this
    {
      Vec3(x - o.x, y - o.y, z - o.z)
    }

    function Negated(): Vec3
    {
      Vec3(-x, -y, -z)
    }
  }

  const Zero := Vec3(0.0, 0.0, 0.0)

  /** The actual location after setting the `axis` displacement to `value`. */
  function UpdatedLocation(actual: Vec3, reference: Vec3, axis: Axis, value: real): (r: Vec3)
    ensures r.Minus(reference).Get(axis) == value
    ensures forall other :: other != axis ==> r.Get(other) == actual.Get(other)
  {
    actual.With(axis, reference.Get(axis) + value)
  }

  class Node<Id> {
    const id: Id
    var x: real
    var y: real
    var z: real
    var referenceX: real
    var referenceY: real
    var referenceZ: real

    /** A new node sits at its reference location. */
    constructor(id: Id, x: real, y: real, z: real)
      ensures this.id == id
      ensures GetReferenceLocation() == Vec3(x, y, z) && GetActualLocation() == Vec3(x, y, z)
      ensures Displacement() == Zero
    {
      this.id := id;
      this.x := x;
      this.y := y;
      this.z := z;
      this.referenceX := x;
      this.referenceY := y;
      this.referenceZ := z;
    }

    function GetReferenceLocation(): Vec3
      reads this
    {
      Vec3(referenceX, referenceY, referenceZ)
    }

    function GetActualLocation(): Vec3
      reads this
    {
      Vec3(x, y, z)
    }

    /** The displacement as node.py computes it: reference minus actual location. */
    function GetDisplacement(): (r: Vec3)
      reads this
      ensures r == Displacement().Negated()
    {
      GetReferenceLocation().Minus(GetActualLocation())
    }

    /**
     * The displacement: actual minus reference location.  `Update` measures the
     * value it is given from the reference location, so this is the value it set.
     */
    function Displacement(): (r: Vec3)
      reads this
      ensures GetReferenceLocation().Plus(r) == GetActualLocation()
    {
      GetActualLocation().Minus(GetReferenceLocation())
    }

    /**
     * Sets the displacement along the axis of `dofType` to `value`, measured from the
     * reference location; any other dof type is a RuntimeError and changes nothing.
     */
    method Update(dofType: string, value: real) returns (outcome: Outcome)
      modifies this
      ensures GetReferenceLocation() == old(GetReferenceLocation())
      ensures outcome.Pass? <==> AxisOf(dofType).Some?
      ensures outcome.Fail? ==>
                outcome.error == RuntimeError("Node has no Dof of type " + dofType) && unchanged(this)
      ensures outcome.Pass? ==>
                GetActualLocation() == UpdatedLocation(old(GetActualLocation()), GetReferenceLocation(), AxisOf(dofType).value, value)
      ensures outcome.Pass? ==> Displacement() == old(Displacement()).With(AxisOf(dofType).value, value)
    {
      if dofType == "u" {
        x := referenceX + value;
      } else if dofType == "v" {
        y := referenceY + value;
      } else if dofType == "w" {
        z := referenceZ + value;
      } else {
        return Fail(RuntimeError("Node has no Dof of type " + dofType));
      }
      return Pass;
    }
  }

  /** An update is absolute, not cumulative: repeating it changes nothing more. */
  lemma UpdateIsIdempotent(actual: Vec3, reference: Vec3, axis: Axis, value: real)
    ensures var once := UpdatedLocation(actual, reference, axis, value);
            UpdatedLocation(once, reference, axis, value) == once
  {
  }

  /** Updates along different axes commute. */
  lemma UpdatesOnDifferentAxesCommute(actual: Vec3, reference: Vec3, a: Axis, va: real, b: Axis, vb: real)
    requires a != b
    ensures UpdatedLocation(UpdatedLocation(actual, reference, a, va), reference, b, vb)
            == UpdatedLocation(UpdatedLocation(actual, reference, b, vb), reference, a, va)
  {
  }

  /** Only the last of two updates along the same axis matters. */
  lemma LastUpdateWins(actual: Vec3, reference: Vec3, axis: Axis, v1: real, v2: real)
    ensures UpdatedLocation(UpdatedLocation(actual, reference, axis, v1), reference, axis, v2)
            == UpdatedLocation(actual, reference, axis, v2)
  {
  }

  /** GetDisplacement agrees with the displacement only while the node has not moved. */
  lemma GetDisplacementAgreesOnlyAtRest<Id>(node: Node<Id>)
    ensures node.GetDisplacement() == node.Displacement() <==> node.Displacement() == Zero
  {
  }

  /**
   * A node created at (4, 5, 6) and updated with ('u', 9) stands at (13, 5, 6): its
   * displacement is (9, 0, 0), but GetDisplacement reports (-9, 0, 0).
   */
  lemma GetDisplacementSignCounterexample()
    ensures var reference := Vec3(4.0, 5.0, 6.0);
            var actual := UpdatedLocation(reference, reference, X, 9.0);
            && actual == Vec3(13.0, 5.0, 6.0)
            && actual.Minus(reference) == Vec3(9.0, 0.0, 0.0)
            && reference.Minus(actual) == Vec3(-9.0, 0.0, 0.0)
  {
  }
}
