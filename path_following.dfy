/**
 * The path-following (constraint) strategies of the nonlinear solver: load control,
 * displacement control and arc-length control.
 *
 * Each strategy rescales a predicted step so that it meets its scalar constraint,
 * evaluates the constraint, and writes the constraint's derivative with respect to
 * the system vector [free dof values..., load factor] into a caller's array.
 */
module PathFollowing {
  import opened Wrappers
  import opened Reals
  import opened Models

  /** numpy's `fill`: every entry of `a` becomes `v`. */
  method Fill(a: array<real>, v: real)
    modifies a
    ensures forall i :: 0 <= i < a.Length ==> a[i] == v
  {
    for i := 0 to a.Length
      invariant forall j :: 0 <= j < i ==> a[j] == v
    {
      a[i] := v;
    }
  }

  /** The vector of length `n` that is one at index `k` and zero elsewhere. */
  function UnitVector(n: nat, k: nat): (r: seq<real>)
    ensures |r| == n
    ensures forall i :: 0 <= i < n ==> r[i] == (if i == k then 1.0 else 0.0)
  {
    seq(n, i => if i == k then 1.0 else 0.0)
  }

  /**
   * Multiplies the step from the previous Model by `factor`: every dof the Assembler
   * orders, one after the other, and then the load factor.
   */
  method ScaleDeltaUAndLambda(model: Model, asm: Assembler, factor: real)
    requires Consistent(model, asm)
    modifies model
    ensures model.nodes == old(model.nodes) && model.previous == old(model.previous)
    ensures unchanged(model.previous) && Consistent(model, asm)
    ensures model.Snapshot() == ScaleDelta(old(model.Snapshot()), model.previous.Snapshot(), factor)
  {
    var previous := model.previous;
    ScaleDofStates(model, previous, asm, factor);
    var deltaLambda := factor * (model.lam - previous.lam);
    model.lam := previous.lam + deltaLambda;
  }

  /** The dof loop of ScaleDeltaUAndLambda: every dof the Assembler orders, in its order. */
  method ScaleDofStates(model: Model, previous: Model, asm: Assembler, factor: real)
    requires previous != model && model.dofStates.Keys <= previous.dofStates.Keys
    requires AssemblerOf(asm, model)
    modifies model
    ensures model.nodes == old(model.nodes) && model.previous == old(model.previous) && model.lam == old(model.lam)
    ensures model.dofStates == ScaleDelta(old(model.Snapshot()), previous.Snapshot(), factor).dofs
  {
    ghost var s0 := model.Snapshot();
    ghost var p := previous.Snapshot();
    ghost var scaled := ScaleDelta(s0, p, factor).dofs;
    var dofs := asm.dofs;
    for i := 0 to |dofs|
      invariant model.nodes == old(model.nodes) && model.previous == old(model.previous) && model.lam == s0.lam
      invariant model.dofStates.Keys == s0.dofs.Keys
      invariant forall j :: 0 <= j < i ==> model.dofStates[dofs[j]] == scaled[dofs[j]]
      invariant forall j :: i <= j < |dofs| ==> model.dofStates[dofs[j]] == s0.dofs[dofs[j]]
    {
      var dof := dofs[i];
      var currentValue := model.GetDofState(dof);
      var previousValue := previous.GetDofState(dof);
      assert currentValue == s0.dofs[dof] && previousValue == p.dofs[dof];
      var delta := factor * (currentValue - previousValue);
      assert previousValue + delta == scaled[dof];
      model.SetDofState(dof, previousValue + delta);
    }
    forall d | d in s0.dofs
      ensures model.dofStates[d] == scaled[d]
    {
      var j :| 0 <= j < |dofs| && dofs[j] == d;
    }
  }

  // ---------------------------------------------------------------------------
  // Load control: c = λ - λ̂

  datatype LoadControl = LoadControl(lamHat: real) {

    function CalculateConstraint(s: State): (c: real)
      ensures c == 0.0 <==> s.lam == lamHat
      ensures c > 0.0 <==> s.lam > lamHat
    {
      s.lam - lamHat
    }

    /**
     * Scales the step so that the load factor lands on λ̂; a step that does not move
     * the load factor gives a zero divisor.
     */
    method ScalePredictor(model: Model, asm: Assembler) returns (outcome: Outcome)
      requires Consistent(model, asm)
      modifies model
      ensures model.nodes == old(model.nodes) && model.previous == old(model.previous)
      ensures unchanged(model.previous) && Consistent(model, asm)
      ensures outcome.Fail? <==> old(model.lam) == model.previous.lam
      ensures outcome.Fail? ==> outcome.error == ZeroDivisionError && unchanged(model)
      ensures outcome.Pass? ==>
                model.Snapshot() == ScaleDelta(old(model.Snapshot()), model.previous.Snapshot(),
                                               (lamHat - model.previous.lam) / (old(model.lam) - model.previous.lam))
      ensures outcome.Pass? ==> model.lam == lamHat && CalculateConstraint(model.Snapshot()) == 0.0
    {
      var previous := model.previous;
      var desiredDeltaLam := lamHat - previous.lam;
      var currentDeltaLam := model.lam - previous.lam;
      if currentDeltaLam == 0.0 {
        return Fail(ZeroDivisionError);
      }
      var factor := desiredDeltaLam / currentDeltaLam;
      ScaleDeltaUAndLambda(model, asm, factor);
      return Pass;
    }

    /** Zero everywhere but the load factor slot, the last entry, which is one. */
    method CalculateDerivatives(dc: array<real>) returns (outcome: Outcome)
      modifies dc
      ensures outcome.Fail? <==> dc.Length == 0
      ensures outcome.Fail? ==> outcome.error == IndexError
      ensures outcome.Pass? ==> dc[..] == UnitVector(dc.Length, dc.Length - 1)
    {
      Fill(dc, 0.0);
      if dc.Length == 0 {
        return Fail(IndexError);
      }
      dc[dc.Length - 1] := 1.0;
      return Pass;
    }
  }

  /**
   * The derivative is the gradient of the constraint: moving the i-th entry of the
   * system vector [free dofs..., λ] by t moves the constraint by dc[i]·t.
   */
  lemma LoadControlGradient(lc: LoadControl, s: State, asm: Assembler, t: real)
    requires asm.Valid() && forall d :: d in asm.dofs ==> d in s.dofs
    ensures var dc := UnitVector(asm.freeDofCount + 1, asm.freeDofCount);
            && (forall i :: 0 <= i < asm.freeDofCount ==>
                  lc.CalculateConstraint(ShiftDof(s, asm.dofs[i], t)) == lc.CalculateConstraint(s) + dc[i] * t)
            && lc.CalculateConstraint(ShiftLam(s, t)) == lc.CalculateConstraint(s) + dc[asm.freeDofCount] * t
  {
  }

  // ---------------------------------------------------------------------------
  // Displacement control: c = u_dof - û

  datatype DisplacementControl = DisplacementControl(dof: Dof, displacementHat: real) {

    /** The constraint; a dof the Model does not hold is a LookupError. */
    function CalculateConstraint(s: State): (c: Result<real>)
      ensures c.Success? <==> dof in s.dofs
      ensures c.Failure? ==> c.error == LookupError
      ensures c.Success? ==> (c.value == 0.0 <==> s.dofs[dof] == displacementHat)
      ensures c.Success? ==> (c.value > 0.0 <==> s.dofs[dof] > displacementHat)
    {
      if dof in s.dofs then Success(s.dofs[dof] - displacementHat) else Failure(LookupError)
    }

    /**
     * Scales the step so that the controlled dof lands on û; a step that does not move
     * the controlled dof gives a zero divisor.
     */
    method ScalePredictor(model: Model, asm: Assembler) returns (outcome: Outcome)
      requires Consistent(model, asm)
      modifies model
      ensures model.nodes == old(model.nodes) && model.previous == old(model.previous)
      ensures unchanged(model.previous) && Consistent(model, asm)
      ensures dof !in old(model.dofStates) ==> outcome == Fail(LookupError)
      ensures dof in old(model.dofStates) ==>
                (outcome.Fail? <==> old(model.dofStates[dof]) == model.previous.dofStates[dof])
      ensures dof in old(model.dofStates) && outcome.Fail? ==> outcome.error == ZeroDivisionError
      ensures outcome.Fail? ==> unchanged(model)
      ensures outcome.Pass? ==>
                dof in old(model.dofStates) &&
                model.Snapshot() == ScaleDelta(old(model.Snapshot()), model.previous.Snapshot(),
                                               (displacementHat - model.previous.dofStates[dof])
                                               / (old(model.dofStates[dof]) - model.previous.dofStates[dof]))
      ensures outcome.Pass? ==>
                model.dofStates[dof] == displacementHat && CalculateConstraint(model.Snapshot()) == Success(0.0)
    {
      var previous := model.previous;
      if dof !in previous.dofStates || dof !in model.dofStates {
        return Fail(LookupError);
      }
      var previousDisplacement := previous.GetDofState(dof);
      var predictionDisplacement := model.GetDofState(dof);
      var desiredDelta := displacementHat - previousDisplacement;
      var currentDelta := predictionDisplacement - previousDisplacement;
      if currentDelta == 0.0 {
        return Fail(ZeroDivisionError);
      }
      var factor := desiredDelta / currentDelta;
      ScaleDeltaUAndLambda(model, asm, factor);
      return Pass;
    }

    /**
     * The unit vector at the Assembler's index of the controlled dof.  An unknown dof
     * is a LookupError and an index past the end of `dc` an IndexError; either way
     * `dc` has already been zeroed.
     */
    method CalculateDerivatives(model: Model, asm: Assembler, dc: array<real>) returns (outcome: Outcome)
      requires AssemblerOf(asm, model)
      modifies dc
      ensures dof !in asm.dofs ==> outcome == Fail(LookupError)
      ensures dof in asm.dofs ==> var index := asm.IndexOfDof(dof).value;
                (outcome.Fail? <==> index >= dc.Length)
                && (outcome.Fail? ==> outcome.error == IndexError)
                && (outcome.Pass? ==> dc[..] == UnitVector(dc.Length, index))
      ensures outcome.Fail? ==> forall i :: 0 <= i < dc.Length ==> dc[i] == 0.0
    {
      Fill(dc, 0.0);
      var found := asm.IndexOfDof(dof);
      if found.Failure? {
        return Fail(found.error);
      }
      var index := found.value;
      if index >= dc.Length {
        return Fail(IndexError);
      }
      dc[index] := 1.0;
      return Pass;
    }
  }

  /**
   * For a free controlled dof, the derivative is the gradient of the constraint:
   * moving the i-th entry of the system vector [free dofs..., λ] by t moves the
   * constraint by dc[i]·t.
   */
  lemma DisplacementControlGradient(dcon: DisplacementControl, s: State, asm: Assembler, t: real)
    requires asm.Valid() && forall d :: d in asm.dofs ==> d in s.dofs
    requires dcon.dof in asm.FreeDofs()
    ensures asm.IndexOfDof(dcon.dof).Success?
    ensures var dc := UnitVector(asm.freeDofCount + 1, asm.IndexOfDof(dcon.dof).value);
            && (forall i :: 0 <= i < asm.freeDofCount ==>
                  dcon.CalculateConstraint(ShiftDof(s, asm.dofs[i], t)).Success? &&
                  dcon.CalculateConstraint(ShiftDof(s, asm.dofs[i], t)).value
                  == dcon.CalculateConstraint(s).value + dc[i] * t)
            && dcon.CalculateConstraint(ShiftLam(s, t)).value == dcon.CalculateConstraint(s).value + dc[asm.freeDofCount] * t
  {
    var k := asm.IndexOfDof(dcon.dof).value;
    var j :| 0 <= j < asm.freeDofCount && asm.dofs[j] == dcon.dof;
    assert k == j;
  }

  // ---------------------------------------------------------------------------
  // Arc-length control: c = ‖Δu‖² + Δλ² - l̂²

  datatype ArcLengthControl = ArcLengthControl(lHat: real) {

    /** The squared prescribed length l̂², fixed at construction. */
    function SquaredLHat(): (r: real)
      ensures r >= 0.0
      ensures r == 0.0 <==> lHat == 0.0
    {
      SqNonNegative(lHat);
      SqIsZero(lHat);
      Sq(lHat)
    }

    /** The constraint of the step from `p` to `s` over the node list `nodes`. */
    function Constraint(s: State, p: State, nodes: seq<NodeId>): (c: real)
      requires CoversNodes(s.dofs, nodes) && CoversNodes(p.dofs, nodes)
      ensures c == 0.0 <==> SquaredPredictorLength(s, p, nodes) == SquaredLHat()
    {
      SquaredPredictorLength(s, p, nodes) - SquaredLHat()
    }

    /**
     * Adds up dx² + dy² + dz² of every node against the node of the previous Model at
     * the same position, then the squared load factor delta.
     */
    method CalculateSquaredPredictorLength(model: Model) returns (squaredL: real)
      requires Duplicated(model)
      ensures squaredL == SquaredPredictorLength(model.Snapshot(), model.previous.Snapshot(), model.nodes)
      ensures squaredL >= 0.0
    {
      var previous := model.previous;
      ghost var s, p := model.Snapshot(), previous.Snapshot();
      squaredL := 0.0;
      CoversPrefix(s.dofs, model.nodes, 0);
      CoversPrefix(p.dofs, model.nodes, 0);
      for i := 0 to |model.nodes|
        invariant CoversNodes(s.dofs, model.nodes[..i]) && CoversNodes(p.dofs, model.nodes[..i])
        invariant squaredL == SquaredDisplacementLength(s.dofs, p.dofs, model.nodes[..i])
      {
        var node, previousNode := model.nodes[i], previous.nodes[i];
        var dx := model.GetDofState(Dof(node, U)) - previous.GetDofState(Dof(previousNode, U));
        var dy := model.GetDofState(Dof(node, V)) - previous.GetDofState(Dof(previousNode, V));
        var dz := model.GetDofState(Dof(node, W)) - previous.GetDofState(Dof(previousNode, W));
        SquaredDisplacementLengthStep(s.dofs, p.dofs, model.nodes, i);
        squaredL := squaredL + (Sq(dx) + Sq(dy) + Sq(dz));
      }
      assert model.nodes[..|model.nodes|] == model.nodes;
      var deltaLam := model.lam - previous.lam;
      squaredL := squaredL + Sq(deltaLam);
    }

    method CalculateConstraint(model: Model) returns (c: real)
      requires Duplicated(model)
      ensures c == Constraint(model.Snapshot(), model.previous.Snapshot(), model.nodes)
    {
      var squaredL := CalculateSquaredPredictorLength(model);
      c := squaredL - SquaredLHat();
    }

    /**
     * Scales the step by √(l̂² / l²) so that its squared length becomes l̂²; a step of
     * zero length gives a zero divisor.
     */
    method ScalePredictor(model: Model, asm: Assembler, sqrt: real -> real) returns (outcome: Outcome)
      requires Consistent(model, asm) && IsSqrt(sqrt)
      modifies model
      ensures model.nodes == old(model.nodes) && model.previous == old(model.previous)
      ensures unchanged(model.previous) && Consistent(model, asm)
      ensures var l2 := SquaredPredictorLength(old(model.Snapshot()), model.previous.Snapshot(), model.nodes);
              && (outcome.Fail? <==> l2 == 0.0)
              && (outcome.Fail? ==> outcome.error == ZeroDivisionError && unchanged(model))
              && (outcome.Pass? ==>
                    model.Snapshot() == ScaleDelta(old(model.Snapshot()), model.previous.Snapshot(), sqrt(SquaredLHat() / l2)))
      ensures outcome.Pass? ==>
                SquaredPredictorLength(model.Snapshot(), model.previous.Snapshot(), model.nodes) == SquaredLHat()
                && Constraint(model.Snapshot(), model.previous.Snapshot(), model.nodes) == 0.0
    {
      ghost var s0, p := model.Snapshot(), model.previous.Snapshot();
      var squaredLHat := SquaredLHat();
      var squaredL := CalculateSquaredPredictorLength(model);
      if squaredL == 0.0 {
        return Fail(ZeroDivisionError);
      }
      var factor := sqrt(squaredLHat / squaredL);
      ScaleDeltaUAndLambda(model, asm, factor);
      ArcLengthScaling(s0, p, model.nodes, sqrt, squaredLHat);
      return Pass;
    }

    /**
     * 2·Δu at the index of every free dof and 2·Δλ in the last entry, zero elsewhere.
     * Writing past the end of `dc` is an IndexError; the entries written before it
     * stay written.
     */
    method CalculateDerivatives(model: Model, asm: Assembler, dc: array<real>) returns (outcome: Outcome)
      requires Consistent(model, asm)
      modifies dc
      ensures outcome.Pass? <==> asm.freeDofCount <= dc.Length && dc.Length > 0
      ensures outcome.Fail? ==> outcome.error == IndexError
      ensures outcome.Pass? ==>
                dc[..] == ArcLengthDerivatives(model.Snapshot(), model.previous.Snapshot(), asm, dc.Length)
      ensures outcome.Fail? ==> forall i :: 0 <= i < dc.Length ==>
                dc[i] == if i < asm.freeDofCount then 2.0 * Delta(model.Snapshot(), model.previous.Snapshot(), asm.dofs[i]) else 0.0
    {
      Fill(dc, 0.0);
      var freeCount := asm.freeDofCount;
      var previous := model.previous;
      for index := 0 to freeCount
        invariant index <= dc.Length
        invariant forall i :: 0 <= i < dc.Length ==>
                    dc[i] == if i < index then 2.0 * Delta(model.Snapshot(), previous.Snapshot(), asm.dofs[i]) else 0.0
      {
        var dof := asm.dofs[index];
        var currentValue := model.GetDofState(dof);
        var previousValue := previous.GetDofState(dof);
        if index >= dc.Length {
          return Fail(IndexError);
        }
        dc[index] := 2.0 * (currentValue - previousValue);
      }
      if dc.Length == 0 {
        return Fail(IndexError);
      }
      dc[dc.Length - 1] := 2.0 * (model.lam - previous.lam);
      assert forall i :: 0 <= i < dc.Length ==>
               dc[i] == ArcLengthDerivatives(model.Snapshot(), previous.Snapshot(), asm, dc.Length)[i];
      return Pass;
    }
  }

  /**
   * The derivative is the gradient of the constraint: moving the i-th free dof by t
   * moves the constraint by dc[i]·t + t².
   */
  lemma ArcLengthDofGradient(alc: ArcLengthControl, s: State, p: State, nodes: seq<NodeId>, asm: Assembler, i: nat, t: real)
    requires CoversNodes(s.dofs, nodes) && CoversNodes(p.dofs, nodes) && NoDuplicates(nodes)
    requires asm.Valid() && i < asm.freeDofCount && asm.dofs[i].nodeId in nodes
    ensures asm.dofs[i] in s.dofs
    ensures alc.Constraint(ShiftDof(s, asm.dofs[i], t), p, nodes)
            == alc.Constraint(s, p, nodes) + ArcLengthDerivatives(s, p, asm, asm.freeDofCount + 1)[i] * t + Sq(t)
  {
    var d := asm.dofs[i];
    ShiftedSquaredPredictorLength(s, p, nodes, d, t);
    var g := 2.0 * (s.dofs[d] - p.dofs[d]);
    assert ArcLengthDerivatives(s, p, asm, asm.freeDofCount + 1)[i] == g;
  }

  /** Moving the load factor by t moves the constraint by dc[-1]·t + t². */
  lemma ArcLengthLamGradient(alc: ArcLengthControl, s: State, p: State, nodes: seq<NodeId>, asm: Assembler, t: real)
    requires CoversNodes(s.dofs, nodes) && CoversNodes(p.dofs, nodes)
    requires asm.Valid()
    ensures alc.Constraint(ShiftLam(s, t), p, nodes)
            == alc.Constraint(s, p, nodes) + ArcLengthDerivatives(s, p, asm, asm.freeDofCount + 1)[asm.freeDofCount] * t + Sq(t)
  {
    ShiftedLamSquaredPredictorLength(s, p, nodes, t);
    var g := 2.0 * (s.lam - p.lam);
    assert ArcLengthDerivatives(s, p, asm, asm.freeDofCount + 1)[asm.freeDofCount] == g;
  }

  /** The change of dof `d` from `p` to `s`. */
  function Delta(s: State, p: State, d: Dof): real
  {
    if d in s.dofs && d in p.dofs then s.dofs[d] - p.dofs[d] else 0.0
  }

  /** The derivative vector of length `n` that arc-length control writes. */
  function ArcLengthDerivatives(s: State, p: State, asm: Assembler, n: nat): (r: seq<real>)
    requires asm.Valid()
    ensures |r| == n
  {
    seq(n, i requires 0 <= i < n =>
          if i == n - 1 then 2.0 * (s.lam - p.lam)
          else if i < asm.freeDofCount then 2.0 * Delta(s, p, asm.dofs[i])
          else 0.0)
  }

  /** Scaling a step of non-zero length by √(l̂² / l²) gives it the squared length l̂². */
  lemma ArcLengthScaling(s: State, p: State, nodes: seq<NodeId>, sqrt: real -> real, squaredLHat: real)
    requires s.dofs.Keys <= p.dofs.Keys && CoversNodes(s.dofs, nodes)
    requires IsSqrt(sqrt) && squaredLHat >= 0.0
    requires SquaredPredictorLength(s, p, nodes) != 0.0
    ensures CoversNodes(p.dofs, nodes)
    ensures var factor := sqrt(squaredLHat / SquaredPredictorLength(s, p, nodes));
            CoversNodes(ScaleDelta(s, p, factor).dofs, nodes) &&
            SquaredPredictorLength(ScaleDelta(s, p, factor), p, nodes) == squaredLHat
  {
    var l2 := SquaredPredictorLength(s, p, nodes);
    NonNegativeQuotient(squaredLHat, l2);
    var factor := sqrt(squaredLHat / l2);
    assert Sq(factor) == squaredLHat / l2;
    QuotientTimesDivisor(Sq(factor), squaredLHat, l2);
    ScaledSquaredPredictorLength(s, p, factor, nodes);
  }

  lemma NonNegativeQuotient(a: real, b: real)
    requires a >= 0.0 && b > 0.0
    ensures a / b >= 0.0
  {
  }

  lemma QuotientTimesDivisor(q: real, a: real, b: real)
    requires b != 0.0 && q == a / b
    ensures q * b == a
  {
    assert (a / b) * b == a;
  }
}
