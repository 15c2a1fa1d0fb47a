/**
 * The part of the Model and the Assembler that the path-following strategies use.
 *
 * A Model is one state on the solution path: the state of every degree of freedom
 * (a node id paired with one of the displacement directions u, v, w), the load
 * factor `lam`, and a non-owning link to the Model it was duplicated from.  The
 * Assembler fixes an order of all dofs in which the free dofs come first.
 */
module Models {
  import opened Wrappers
  import opened Reals

  type NodeId = string

  /** The three displacement directions of a node, written 'u', 'v' and 'w' in node.py. */
  datatype DofType = U | V | W

  /** A degree of freedom: a node and one of its displacement directions. */
  datatype Dof = Dof(nodeId: NodeId, dofType: DofType)

  /** The value part of a Model: the state of every dof and the load factor. */
  datatype State = State(dofs: map<Dof, real>, lam: real)

  class Model {
    var nodes: seq<NodeId>          // node ids in insertion order
    var dofStates: map<Dof, real>
    var lam: real
    var previous: Model?            // the Model this one was duplicated from

    function Snapshot(): State
      reads this
    {
      State(dofStates, lam)
    }

    function GetDofState(dof: Dof): real
      reads this
      requires dof in dofStates
    {
      dofStates[dof]
    }

    method SetDofState(dof: Dof, value: real)
      requires dof in dofStates
      modifies this
      ensures dofStates == old(dofStates)[dof := value]
      ensures nodes == old(nodes) && lam == old(lam) && previous == old(previous)
    {
      dofStates := dofStates[dof := value];
    }
  }

  predicate NoDuplicates<T(==)>(s: seq<T>)
  {
    forall i, j :: 0 <= i < j < |s| ==> s[i] != s[j]
  }

  /** The position of `x` in `s`, if it occurs there. */
  function FindIndex<T(==)>(s: seq<T>, x: T): (r: Option<nat>)
    ensures r.Some? <==> x in s
    ensures r.Some? ==> r.value < |s| && s[r.value] == x
    ensures r.Some? ==> forall j :: 0 <= j < r.value ==> s[j] != x
  {
    if s == [] then None
    else if s[0] == x then Some(0)
    else
      match FindIndex(s[1..], x)
      case None => None
      case Some(k) => Some(k + 1)
  }

  /** The global dof ordering of a Model: all dofs, the first `freeDofCount` of them free. */
  datatype Assembler = Assembler(dofs: seq<Dof>, freeDofCount: nat) {
    predicate Valid()
    {
      freeDofCount <= |dofs| && NoDuplicates(dofs)
    }

    function FreeDofs(): seq<Dof>
      requires Valid()
    {
      dofs[..freeDofCount]
    }

    /** The index of `dof` in the ordering; an unknown dof is a LookupError. */
    function IndexOfDof(dof: Dof): (r: Result<nat>)
      ensures r.Success? <==> dof in dofs
      ensures r.Success? ==> r.value < |dofs| && dofs[r.value] == dof
      ensures r.Failure? ==> r.error == LookupError
    {
      match FindIndex(dofs, dof)
      case None => Failure(LookupError)
      case Some(i) => Success(i)
    }
  }

  /** The dofs of `m` are exactly the three dofs of every node in `nodes`. */
  ghost predicate HasNodeDofs(m: map<Dof, real>, nodes: seq<NodeId>)
  {
    forall d :: d in m <==> d.nodeId in nodes
  }

  /**
   * `model` is a working duplicate: its previous Model is another object with the
   * same nodes, each node appears once, and both Models hold exactly the three dofs
   * of every node.
   */
  ghost predicate Duplicated(model: Model)
    reads model, model.previous
  {
    && model.previous != null
    && model.previous != model
    && model.previous.nodes == model.nodes
    && NoDuplicates(model.nodes)
    && HasNodeDofs(model.dofStates, model.nodes)
    && HasNodeDofs(model.previous.dofStates, model.nodes)
  }

  /** `asm` is the Assembler built from `model`: it orders exactly the Model's dofs, each once. */
  ghost predicate AssemblerOf(asm: Assembler, model: Model)
    reads model
  {
    asm.Valid() && forall d :: d in asm.dofs <==> d in model.dofStates
  }

  ghost predicate Consistent(model: Model, asm: Assembler)
    reads model, model.previous
  {
    Duplicated(model) && AssemblerOf(asm, model)
  }

  // ---------------------------------------------------------------------------
  // Scaling the step from the previous Model

  /**
   * The state reached by multiplying the delta from the previous state `p` of every
   * dof and of the load factor by `factor`.
   */
  function ScaleDelta(s: State, p: State, factor: real): (r: State)
    requires s.dofs.Keys <= p.dofs.Keys
    ensures r.dofs.Keys == s.dofs.Keys
    ensures forall d :: d in s.dofs ==> r.dofs[d] - p.dofs[d] == factor * (s.dofs[d] - p.dofs[d])
    ensures r.lam - p.lam == factor * (s.lam - p.lam)
  {
    State(map d | d in s.dofs :: p.dofs[d] + factor * (s.dofs[d] - p.dofs[d]),
          p.lam + factor * (s.lam - p.lam))
  }

  /** Scaling by one changes nothing. */
  lemma ScaleByOneIsIdentity(s: State, p: State)
    requires s.dofs.Keys <= p.dofs.Keys
    ensures ScaleDelta(s, p, 1.0) == s
  {
    var r := ScaleDelta(s, p, 1.0);
    assert r.dofs == s.dofs;
  }

  /** Scaling by zero returns to the previous state. */
  lemma ScaleByZeroIsPrevious(s: State, p: State)
    requires s.dofs.Keys == p.dofs.Keys
    ensures ScaleDelta(s, p, 0.0) == p
  {
    var r := ScaleDelta(s, p, 0.0);
    assert r.dofs == p.dofs;
  }

  /** `s` with the value of dof `d` moved by `t`: one direction of the system vector. */
  function ShiftDof(s: State, d: Dof, t: real): (r: State)
    requires d in s.dofs
    ensures r.dofs.Keys == s.dofs.Keys && r.lam == s.lam
  {
    State(s.dofs[d := s.dofs[d] + t], s.lam)
  }

  /** `s` with the load factor moved by `t`: the last direction of the system vector. */
  function ShiftLam(s: State, t: real): State
  {
    State(s.dofs, s.lam + t)
  }

  // ---------------------------------------------------------------------------
  // The squared length of the step from the previous Model

  predicate HasDofsOf(m: map<Dof, real>, n: NodeId)
  {
    forall t :: Dof(n, t) in m
  }

  /** `m` holds the three dofs of every node in `nodes`. */
  predicate CoversNodes(m: map<Dof, real>, nodes: seq<NodeId>)
  {
    forall n, t :: n in nodes ==> Dof(n, t) in m
  }

  /** dx² + dy² + dz² for the actual location of node `n` against the previous Model. */
  function NodeSquaredDelta(s: map<Dof, real>, p: map<Dof, real>, n: NodeId): (r: real)
    requires HasDofsOf(s, n) && HasDofsOf(p, n)
    ensures r >= 0.0
    ensures r == 0.0 <==> s[Dof(n, U)] == p[Dof(n, U)] && s[Dof(n, V)] == p[Dof(n, V)] && s[Dof(n, W)] == p[Dof(n, W)]
  {
    var du, dv, dw := s[Dof(n, U)] - p[Dof(n, U)], s[Dof(n, V)] - p[Dof(n, V)], s[Dof(n, W)] - p[Dof(n, W)];
    SqNonNegative(du); SqNonNegative(dv); SqNonNegative(dw);
    SqIsZero(du); SqIsZero(dv); SqIsZero(dw);
    Sq(du) + Sq(dv) + Sq(dw)
  }

  /** The squared delta of every node of `nodes`, in list order. */
  function NodeSquaredDeltas(s: map<Dof, real>, p: map<Dof, real>, nodes: seq<NodeId>): (r: seq<real>)
    requires CoversNodes(s, nodes) && CoversNodes(p, nodes)
    ensures |r| == |nodes|
  {
    seq(|nodes|, i requires 0 <= i < |nodes| => NodeSquaredDelta(s, p, nodes[i]))
  }

  /** The sum of the squared location deltas of `nodes`, accumulated in list order. */
  function SquaredDisplacementLength(s: map<Dof, real>, p: map<Dof, real>, nodes: seq<NodeId>): (r: real)
    requires CoversNodes(s, nodes) && CoversNodes(p, nodes)
    ensures r >= 0.0
  {
    var deltas := NodeSquaredDeltas(s, p, nodes);
    TotalNonNegative(deltas);
    Total(deltas)
  }

  lemma CoversPrefix(m: map<Dof, real>, nodes: seq<NodeId>, i: nat)
    requires CoversNodes(m, nodes) && i <= |nodes|
    ensures CoversNodes(m, nodes[..i])
  {
    forall n, t | n in nodes[..i]
      ensures Dof(n, t) in m
    {
      assert n in nodes;
    }
  }

  /** Accumulating one more node adds its squared delta. */
  lemma SquaredDisplacementLengthStep(s: map<Dof, real>, p: map<Dof, real>, nodes: seq<NodeId>, i: nat)
    requires CoversNodes(s, nodes) && CoversNodes(p, nodes) && i < |nodes|
    ensures CoversNodes(s, nodes[..i]) && CoversNodes(p, nodes[..i])
    ensures CoversNodes(s, nodes[..i + 1]) && CoversNodes(p, nodes[..i + 1])
    ensures SquaredDisplacementLength(s, p, nodes[..i + 1])
            == SquaredDisplacementLength(s, p, nodes[..i]) + NodeSquaredDelta(s, p, nodes[i])
  {
    CoversPrefix(s, nodes, i);
    CoversPrefix(p, nodes, i);
    CoversPrefix(s, nodes, i + 1);
    CoversPrefix(p, nodes, i + 1);
    var before, after := NodeSquaredDeltas(s, p, nodes[..i]), NodeSquaredDeltas(s, p, nodes[..i + 1]);
    assert after[..i] == before;
  }

  /** The squared length of the predictor step: all node deltas plus the load factor delta. */
  function SquaredPredictorLength(s: State, p: State, nodes: seq<NodeId>): (r: real)
    requires CoversNodes(s.dofs, nodes) && CoversNodes(p.dofs, nodes)
    ensures r >= 0.0
  {
    SqNonNegative(s.lam - p.lam);
    SquaredDisplacementLength(s.dofs, p.dofs, nodes) + Sq(s.lam - p.lam)
  }

  /** The squared length vanishes exactly when no node moved. */
  lemma SquaredDisplacementLengthZero(s: map<Dof, real>, p: map<Dof, real>, nodes: seq<NodeId>)
    requires CoversNodes(s, nodes) && CoversNodes(p, nodes)
    ensures SquaredDisplacementLength(s, p, nodes) == 0.0 <==>
            forall n, t :: n in nodes ==> s[Dof(n, t)] == p[Dof(n, t)]
  {
    var deltas := NodeSquaredDeltas(s, p, nodes);
    TotalZero(deltas);
    if SquaredDisplacementLength(s, p, nodes) == 0.0 {
      forall n, t | n in nodes
        ensures s[Dof(n, t)] == p[Dof(n, t)]
      {
        var i :| 0 <= i < |nodes| && nodes[i] == n;
        assert deltas[i] == 0.0;
        match t
        case U =>
        case V =>
        case W =>
      }
    } else {
      var i :| 0 <= i < |deltas| && deltas[i] != 0.0;
      assert nodes[i] in nodes;
    }
  }

  /** The squared predictor length vanishes exactly when neither a node nor the load factor moved. */
  lemma SquaredPredictorLengthZero(s: State, p: State, nodes: seq<NodeId>)
    requires CoversNodes(s.dofs, nodes) && CoversNodes(p.dofs, nodes)
    ensures SquaredPredictorLength(s, p, nodes) == 0.0 <==>
            s.lam == p.lam && forall n, t :: n in nodes ==> s.dofs[Dof(n, t)] == p.dofs[Dof(n, t)]
  {
    SquaredDisplacementLengthZero(s.dofs, p.dofs, nodes);
    SqIsZero(s.lam - p.lam);
    SqNonNegative(s.lam - p.lam);
  }

  /** Scaling a node's three deltas by f scales its squared delta by k = f². */
  lemma ScaledNodeSquaredDelta(s: map<Dof, real>, r: map<Dof, real>, p: map<Dof, real>, factor: real, k: real, n: NodeId)
    requires HasDofsOf(s, n) && HasDofsOf(r, n) && HasDofsOf(p, n)
    requires forall t :: r[Dof(n, t)] - p[Dof(n, t)] == factor * (s[Dof(n, t)] - p[Dof(n, t)])
    requires k == Sq(factor)
    ensures NodeSquaredDelta(r, p, n) == k * NodeSquaredDelta(s, p, n)
  {
    var du, dv, dw := s[Dof(n, U)] - p[Dof(n, U)], s[Dof(n, V)] - p[Dof(n, V)], s[Dof(n, W)] - p[Dof(n, W)];
    assert r[Dof(n, U)] - p[Dof(n, U)] == factor * du;
    assert r[Dof(n, V)] - p[Dof(n, V)] == factor * dv;
    assert r[Dof(n, W)] - p[Dof(n, W)] == factor * dw;
    SqOfProduct(factor, du);
    SqOfProduct(factor, dv);
    SqOfProduct(factor, dw);
  }

  /** Scaling every node's deltas by f scales the squared displacement length by f². */
  lemma ScaledSquaredDisplacementLength(s: map<Dof, real>, r: map<Dof, real>, p: map<Dof, real>, factor: real, nodes: seq<NodeId>)
    requires CoversNodes(s, nodes) && CoversNodes(r, nodes) && CoversNodes(p, nodes)
    requires forall d :: d in s ==> d in r && d in p && r[d] - p[d] == factor * (s[d] - p[d])
    ensures SquaredDisplacementLength(r, p, nodes) == Sq(factor) * SquaredDisplacementLength(s, p, nodes)
  {
    var k := Sq(factor);
    var before, after := NodeSquaredDeltas(s, p, nodes), NodeSquaredDeltas(r, p, nodes);
    forall i | 0 <= i < |nodes|
      ensures after[i] == k * before[i]
    {
      ScaledNodeSquaredDelta(s, r, p, factor, k, nodes[i]);
    }
    TotalScaled(before, after, k);
  }

  /** Scaling the whole predictor step by f scales its squared length by f². */
  lemma ScaledSquaredPredictorLength(s: State, p: State, factor: real, nodes: seq<NodeId>)
    requires s.dofs.Keys <= p.dofs.Keys
    requires CoversNodes(s.dofs, nodes)
    ensures CoversNodes(p.dofs, nodes) && CoversNodes(ScaleDelta(s, p, factor).dofs, nodes)
    ensures SquaredPredictorLength(ScaleDelta(s, p, factor), p, nodes)
            == Sq(factor) * SquaredPredictorLength(s, p, nodes)
  {
    var r := ScaleDelta(s, p, factor);
    ScaledSquaredDisplacementLength(s.dofs, r.dofs, p.dofs, factor, nodes);
    SqOfScaled(r.lam - p.lam, factor, s.lam - p.lam);
    var k, a, b := Sq(factor), SquaredDisplacementLength(s.dofs, p.dofs, nodes), Sq(s.lam - p.lam);
    var ka, kb := SquaredDisplacementLength(r.dofs, p.dofs, nodes), Sq(r.lam - p.lam);
    assert ka == k * a && kb == k * b;
    assert SquaredPredictorLength(r, p, nodes) == ka + kb;
    MulOfSum(k, SquaredPredictorLength(s, p, nodes), a, b);
  }

  /** Moving one dof of node n by t changes n's squared delta by 2·Δ·t + t². */
  lemma ShiftedNodeSquaredDelta(s: State, p: map<Dof, real>, d: Dof, t: real)
    requires HasDofsOf(s.dofs, d.nodeId) && HasDofsOf(p, d.nodeId)
    ensures HasDofsOf(ShiftDof(s, d, t).dofs, d.nodeId)
    ensures NodeSquaredDelta(ShiftDof(s, d, t).dofs, p, d.nodeId)
            == NodeSquaredDelta(s.dofs, p, d.nodeId) + 2.0 * (s.dofs[d] - p[d]) * t + Sq(t)
  {
    var n, shifted := d.nodeId, ShiftDof(s, d, t).dofs;
    var delta := s.dofs[d] - p[d];
    assert shifted[d] - p[d] == delta + t;
    SqOfSum(delta, t);
    var e := 2.0 * delta * t + Sq(t);
    assert Sq(shifted[d] - p[d]) == Sq(delta) + e;
    forall ty | ty != d.dofType
      ensures shifted[Dof(n, ty)] == s.dofs[Dof(n, ty)]
    {
    }
    match d.dofType
    case U =>
    case V =>
    case W =>
  }

  /** Moving dof d by t changes the squared displacement length by 2·Δ·t + t². */
  lemma ShiftedSquaredDisplacementLength(s: State, p: map<Dof, real>, nodes: seq<NodeId>, d: Dof, t: real)
    requires CoversNodes(s.dofs, nodes) && CoversNodes(p, nodes) && NoDuplicates(nodes)
    requires d.nodeId in nodes
    ensures d in s.dofs && d in p && CoversNodes(ShiftDof(s, d, t).dofs, nodes)
    ensures SquaredDisplacementLength(ShiftDof(s, d, t).dofs, p, nodes)
            == SquaredDisplacementLength(s.dofs, p, nodes) + 2.0 * (s.dofs[d] - p[d]) * t + Sq(t)
  {
    var shifted := ShiftDof(s, d, t);
    var before, after := NodeSquaredDeltas(s.dofs, p, nodes), NodeSquaredDeltas(shifted.dofs, p, nodes);
    var j :| 0 <= j < |nodes| && nodes[j] == d.nodeId;
    var e := 2.0 * (s.dofs[d] - p[d]) * t + Sq(t);
    ShiftedNodeSquaredDelta(s, p, d, t);
    forall k | 0 <= k < |nodes| && k != j
      ensures after[k] == before[k]
    {
      var n := nodes[k];
      assert n != d.nodeId;
      assert shifted.dofs[Dof(n, U)] == s.dofs[Dof(n, U)];
      assert shifted.dofs[Dof(n, V)] == s.dofs[Dof(n, V)];
      assert shifted.dofs[Dof(n, W)] == s.dofs[Dof(n, W)];
    }
    assert after[j] == before[j] + e;
    assert after == before[j := before[j] + e];
    TotalUpdate(before, j, e);
  }

  /** Moving dof d by t changes the squared predictor length by 2·Δ·t + t². */
  lemma ShiftedSquaredPredictorLength(s: State, p: State, nodes: seq<NodeId>, d: Dof, t: real)
    requires CoversNodes(s.dofs, nodes) && CoversNodes(p.dofs, nodes) && NoDuplicates(nodes)
    requires d.nodeId in nodes
    ensures d in s.dofs && d in p.dofs && CoversNodes(ShiftDof(s, d, t).dofs, nodes)
    ensures SquaredPredictorLength(ShiftDof(s, d, t), p, nodes)
            == SquaredPredictorLength(s, p, nodes) + 2.0 * (s.dofs[d] - p.dofs[d]) * t + Sq(t)
  {
    ShiftedSquaredDisplacementLength(s, p.dofs, nodes, d, t);
  }

  /** Moving the load factor by t changes the squared predictor length by 2·Δλ·t + t². */
  lemma ShiftedLamSquaredPredictorLength(s: State, p: State, nodes: seq<NodeId>, t: real)
    requires CoversNodes(s.dofs, nodes) && CoversNodes(p.dofs, nodes)
    ensures SquaredPredictorLength(ShiftLam(s, t), p, nodes)
            == SquaredPredictorLength(s, p, nodes) + 2.0 * (s.lam - p.lam) * t + Sq(t)
  {
    assert ShiftLam(s, t).lam - p.lam == (s.lam - p.lam) + t;
    SqOfSum(s.lam - p.lam, t);
  }
}
