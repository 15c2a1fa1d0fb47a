/**
 * The legacy line-oriented truss input format: nodes, two-node elements and the
 * solver controls, and the helpers that flatten the nodes into arrays of three
 * entries per node (x, y, z).
 *
 * A file is a sequence of text lines.  Python's int() and float() on a single
 * token are parameters: they give None where Python raises a ValueError.
 */
module Input3D {
  import opened Wrappers
  import opened Reals

  /** A node of the input file; the fields are those of one node line, in order. */
  datatype Node = Node(
    id: int,
    x: real, y: real, z: real,       // coordinates
    px: real, py: real, pz: real,    // external force
    ux: real, uy: real, uz: real,    // pre-displacement
    dofX: int, dofY: int, dofZ: int) // 1 = free, 0 = constrained

  /** A two-node element; both ends are nodes of the node list. */
  datatype Element = Element(id: int, nodeA: Node, nodeB: Node, e: real, a: real, alpha: real, deltaT: real) {

    /** dx² + dy² + dz² between the two end nodes. */
    function SquaredLength(): (r: real)
      ensures r >= 0.0
      ensures r == 0.0 <==> nodeA.x == nodeB.x && nodeA.y == nodeB.y && nodeA.z == nodeB.z
    {
      var dx, dy, dz := nodeA.x - nodeB.x, nodeA.y - nodeB.y, nodeA.z - nodeB.z;
      SqNonNegative(dx); SqNonNegative(dy); SqNonNegative(dz);
      SqIsZero(dx); SqIsZero(dy); SqIsZero(dz);
      Sq(dx) + Sq(dy) + Sq(dz)
    }

    /** The length of the element, with numpy's sqrt as the parameter `sqrt`. */
    function CalcLength(sqrt: real -> real): (r: real)
      requires IsSqrt(sqrt)
      ensures r >= 0.0 && Sq(r) == SquaredLength()
    {
      sqrt(SquaredLength())
    }

    /** The same element with its ends swapped. */
    function Reversed(): (r: Element)
      ensures r.nodeA == nodeB && r.nodeB == nodeA
    {
      this.(nodeA := nodeB, nodeB := nodeA)
    }
  }

  /** The length does not depend on which end is nodeA. */
  lemma CalcLengthIsSymmetric(element: Element, sqrt: real -> real)
    requires IsSqrt(sqrt)
    ensures element.Reversed().CalcLength(sqrt) == element.CalcLength(sqrt)
  {
    var a, b := element.nodeA, element.nodeB;
    SqOfNegation(a.x - b.x, b.x - a.x);
    SqOfNegation(a.y - b.y, b.y - a.y);
    SqOfNegation(a.z - b.z, b.z - a.z);
  }

  lemma SqOfNegation(u: real, v: real)
    requires v == -u
    ensures Sq(v) == Sq(u)
  {
  }

  /** An element has length zero exactly when its ends coincide. */
  lemma CalcLengthIsZeroAtCoincidentEnds(element: Element, sqrt: real -> real)
    requires IsSqrt(sqrt)
    ensures element.CalcLength(sqrt) == 0.0 <==>
              element.nodeA.x == element.nodeB.x && element.nodeA.y == element.nodeB.y
              && element.nodeA.z == element.nodeB.z
  {
    SqIsZero(element.CalcLength(sqrt));
  }

  // ---------------------------------------------------------------------------
  // Flattening the node list: three entries per node, in node-list order.

  /** The external forces Px, Py, Pz of every node, one node after the other. */
  function Forces(nodes: seq<Node>): seq<real>
  {
    if nodes == [] then []
    else var last := nodes[|nodes| - 1];
         Forces(nodes[..|nodes| - 1]) + [last.px, last.py, last.pz]
  }

  /** The dof flags DoFx, DoFy, DoFz of every node, one node after the other. */
  function DofFlags(nodes: seq<Node>): seq<int>
  {
    if nodes == [] then []
    else var last := nodes[|nodes| - 1];
         DofFlags(nodes[..|nodes| - 1]) + [last.dofX, last.dofY, last.dofZ]
  }

  /** Entry 3i + k of the force array belongs to node i, direction k. */
  lemma {:induction false} ForcesLayout(nodes: seq<Node>)
    ensures |Forces(nodes)| == 3 * |nodes|
    ensures forall i :: 0 <= i < |nodes| ==>
              Forces(nodes)[3 * i] == nodes[i].px
              && Forces(nodes)[3 * i + 1] == nodes[i].py
              && Forces(nodes)[3 * i + 2] == nodes[i].pz
  {
    if nodes != [] {
      var init := nodes[..|nodes| - 1];
      ForcesLayout(init);
      assert forall i :: 0 <= i < |init| ==> init[i] == nodes[i];
    }
  }

  /** Entry 3i + k of the dof list belongs to node i, direction k. */
  lemma {:induction false} DofFlagsLayout(nodes: seq<Node>)
    ensures |DofFlags(nodes)| == 3 * |nodes|
    ensures forall i :: 0 <= i < |nodes| ==>
              DofFlags(nodes)[3 * i] == nodes[i].dofX
              && DofFlags(nodes)[3 * i + 1] == nodes[i].dofY
              && DofFlags(nodes)[3 * i + 2] == nodes[i].dofZ
  {
    if nodes != [] {
      var init := nodes[..|nodes| - 1];
      DofFlagsLayout(init);
      assert forall i :: 0 <= i < |init| ==> init[i] == nodes[i];
    }
  }

  /**
   * The end-load array: fendVal wherever the force array is non-zero, and elsewhere
   * whatever the freshly allocated array held, given as `initial`.
   */
  function LoadEnd(forces: seq<real>, fendVal: real, initial: seq<real>): (r: seq<real>)
    requires |initial| == |forces|
    ensures |r| == |forces|
  {
    seq(|forces|, k requires 0 <= k < |forces| => if forces[k] != 0.0 then fendVal else initial[k])
  }

  /** The end load acts in every loaded direction of every node and nowhere else. */
  lemma LoadEndLayout(nodes: seq<Node>, fendVal: real, initial: seq<real>)
    requires |initial| == 3 * |nodes|
    ensures |Forces(nodes)| == |initial|
    ensures var r := LoadEnd(Forces(nodes), fendVal, initial);
            forall i :: 0 <= i < |nodes| ==>
              r[3 * i] == (if nodes[i].px != 0.0 then fendVal else initial[3 * i])
              && r[3 * i + 1] == (if nodes[i].py != 0.0 then fendVal else initial[3 * i + 1])
              && r[3 * i + 2] == (if nodes[i].pz != 0.0 then fendVal else initial[3 * i + 2])
  {
    ForcesLayout(nodes);
  }

  /** The solver controls of the file header, with the node list. */
  datatype Controls = Controls(
    steps: int, residuum: real, uEnd: real, uNode: int, uDirection: int,
    arclength: real, fendVal: real, nodeList: seq<Node>)
  {
    /** The force array, filled three entries per node. */
    method GetForce() returns (force: seq<real>)
      ensures force == Forces(nodeList)
    {
      var n := |nodeList|;
      var a := new real[n * 3];
      for i := 0 to n
        invariant a[..i * 3] == Forces(nodeList[..i])
      {
        assert nodeList[..i + 1][..i] == nodeList[..i];
        a[i * 3] := nodeList[i].px;
        a[i * 3 + 1] := nodeList[i].py;
        a[i * 3 + 2] := nodeList[i].pz;
        assert a[..(i + 1) * 3] == a[..i * 3] + [nodeList[i].px, nodeList[i].py, nodeList[i].pz];
      }
      assert nodeList[..n] == nodeList;
      force := a[..];
    }

    /** The dof flags, appended three per node. */
    method GetDoFList() returns (listed: seq<int>)
      ensures listed == DofFlags(nodeList)
    {
      listed := [];
      for i := 0 to |nodeList|
        invariant listed == DofFlags(nodeList[..i])
      {
        assert nodeList[..i + 1][..i] == nodeList[..i];
        listed := listed + [nodeList[i].dofX];
        listed := listed + [nodeList[i].dofY];
        listed := listed + [nodeList[i].dofZ];
      }
      assert nodeList[..|nodeList|] == nodeList;
    }

    /**
     * The end-load array: `initial` is the content of the uninitialised array it
     * starts from, one entry per force entry.
     */
    method GetLoadEnd(initial: seq<real>) returns (fend: seq<real>)
      requires |initial| == 3 * |nodeList|
      ensures |Forces(nodeList)| == |initial|
      ensures fend == LoadEnd(Forces(nodeList), fendVal, initial)
    {
      ForcesLayout(nodeList);
      var a := new real[|nodeList| * 3](k requires 0 <= k < |initial| => initial[k]);
      for i := 0 to |nodeList| * 3
        invariant forall k :: 0 <= k < a.Length ==>
                    a[k] == if k < i && Forces(nodeList)[k] != 0.0 then fendVal else initial[k]
      {
        var force := GetForce();
        if force[i] != 0.0 {
          a[i] := fendVal;
        }
      }
      fend := a[..];
    }
  }

  /** The whole input: nodes, elements, and controls over the same node list. */
  datatype Network = Network(nodes: seq<Node>, elements: seq<Element>, controls: Controls)

  // ---------------------------------------------------------------------------
  // Reading the file.

  /** The characters Python's str.split() with no argument splits at. */
  predicate IsSpace(c: char)
  {
    ('\t' <= c <= '\r') || ('\U{1C}' <= c <= ' ') || c == '\U{85}' || c == '\U{A0}'
    || c == '\U{1680}' || ('\U{2000}' <= c <= '\U{200A}') || c == '\U{2028}' || c == '\U{2029}'
    || c == '\U{202F}' || c == '\U{205F}' || c == '\U{3000}'
  }

  predicate IsWord(w: string)
  {
    w != [] && forall i :: 0 <= i < |w| ==> !IsSpace(w[i])
  }

  /** The length of the run of non-space characters that `s` starts with. */
  function WordLength(s: string): (n: nat)
    ensures n <= |s|
    ensures forall i :: 0 <= i < n ==> !IsSpace(s[i])
    ensures n < |s| ==> IsSpace(s[n])
  {
    if s == [] || IsSpace(s[0]) then 0 else 1 + WordLength(s[1..])
  }

  /** str.split(): the maximal runs of non-space characters, in order. */
  function Split(s: string): seq<string>
    decreases |s|
  {
    if s == [] then []
    else if IsSpace(s[0]) then Split(s[1..])
    else var n := WordLength(s); [s[..n]] + Split(s[n..])
  }

  /** Every field of a split line is a non-empty run of non-space characters. */
  lemma {:induction false} SplitGivesWords(s: string)
    ensures forall i :: 0 <= i < |Split(s)| ==> IsWord(Split(s)[i])
    decreases |s|
  {
    if s != [] {
      if IsSpace(s[0]) {
        SplitGivesWords(s[1..]);
      } else {
        SplitGivesWords(s[WordLength(s)..]);
      }
    }
  }

  /** Words joined by single blanks, the way a well-formed line is written. */
  function Join(words: seq<string>): string
  {
    if words == [] then ""
    else if |words| == 1 then words[0]
    else words[0] + " " + Join(words[1..])
  }

  /** Splitting a line written with single blanks gives back its words. */
  lemma {:induction false} SplitJoin(words: seq<string>)
    requires forall i :: 0 <= i < |words| ==> IsWord(words[i])
    ensures Split(Join(words)) == words
  {
    if words != [] {
      var w := words[0];
      if |words| == 1 {
        WordLengthOfWord(w, "");
        assert w[|w|..] == "";
        assert w[..|w|] == w;
      } else {
        var rest := " " + Join(words[1..]);
        assert Join(words) == w + rest;
        WordLengthOfWord(w, rest);
        assert (w + rest)[..|w|] == w;
        assert (w + rest)[|w|..] == rest;
        assert Split(rest) == Split(Join(words[1..]));
        SplitJoin(words[1..]);
      }
    }
  }

  lemma {:induction false} WordLengthOfWord(w: string, rest: string)
    requires IsWord(w) && (rest == [] || IsSpace(rest[0]))
    ensures WordLength(w + rest) == |w|
  {
    if |w| > 1 {
      assert (w + rest)[1..] == w[1..] + rest;
      WordLengthOfWord(w[1..], rest);
    } else {
      assert (w + rest)[1..] == rest;
    }
  }

  /** Line `k` of the file; reading past the end gives "", as readline() does. */
  function Line(lines: seq<string>, k: nat): string
  {
    if k < |lines| then lines[k] else ""
  }

  /** The number of iterations of range(n). */
  function Count(n: int): nat
  {
    if n < 0 then 0 else n
  }

  /** A whole line read as a number: a ValueError when it is not one. */
  function ParseLine<T>(line: string, parse: string -> Option<T>): Result<T>
  {
    match parse(line)
    case Some(v) => Success(v)
    case None => Failure(ValueError)
  }

  /**
   * Field `j` of a split line: an IndexError when the line has no such field, a
   * ValueError when the field is not a number.
   */
  function Field<T>(tokens: seq<string>, j: nat, parse: string -> Option<T>): Result<T>
  {
    if j < |tokens| then ParseLine(tokens[j], parse) else Failure(IndexError)
  }

  /** The `n` fields from field `from` on, all of one type, read left to right. */
  function Fields<T>(tokens: seq<string>, from: nat, n: nat, parse: string -> Option<T>): (r: Result<seq<T>>)
    ensures 0 < n && |tokens| < from + n ==> r.Failure?
    ensures r.Success? ==> |r.value| == n
  {
    if n == 0 then Success([])
    else
      var init :- Fields(tokens, from, n - 1, parse);
      var last :- Field(tokens, from + n - 1, parse);
      Success(init + [last])
  }

  /** Value j of the fields read is field from + j of the line. */
  lemma {:induction false} FieldsReadEach<T>(tokens: seq<string>, from: nat, n: nat, parse: string -> Option<T>)
    requires Fields(tokens, from, n, parse).Success?
    ensures forall j :: 0 <= j < n ==> Field(tokens, from + j, parse) == Success(Fields(tokens, from, n, parse).value[j])
  {
    if n > 0 {
      FieldsReadEach(tokens, from, n - 1, parse);
    }
  }

  /** Field `j` of the line is there and is a number. */
  predicate Converts<T>(tokens: seq<string>, j: nat, parse: string -> Option<T>)
  {
    j < |tokens| && parse(tokens[j]).Some?
  }

  /** `n` fields read exactly when each of them is there and is a number. */
  lemma {:induction false} FieldsSucceed<T>(tokens: seq<string>, from: nat, n: nat, parse: string -> Option<T>)
    ensures Fields(tokens, from, n, parse).Success? <==> forall j :: from <= j < from + n ==> Converts(tokens, j, parse)
  {
    if n > 0 {
      FieldsSucceed(tokens, from, n - 1, parse);
      var last := from + n - 1;
      assert Field(tokens, last, parse).Success? <==> Converts(tokens, last, parse);
      assert (forall j :: from <= j < from + n ==> Converts(tokens, j, parse)) <==>
             (forall j :: from <= j < last ==> Converts(tokens, j, parse)) && Converts(tokens, last, parse);
    }
  }

  /** The fields of a node line: ID x y z Px Py Pz ux uy uz DoFx DoFy DoFz, read left to right. */
  function ParseNode(t: seq<string>, parseInt: string -> Option<int>, parseFloat: string -> Option<real>): (r: Result<Node>)
    ensures |t| < 13 ==> r.Failure?
  {
    var id :- Field(t, 0, parseInt);
    var v :- Fields(t, 1, 9, parseFloat);
    var dof :- Fields(t, 10, 3, parseInt);
    Success(Node(id, v[0], v[1], v[2], v[3], v[4], v[5], v[6], v[7], v[8], dof[0], dof[1], dof[2]))
  }

  /** Each field of a node that reads is the number in its column of the line. */
  lemma ParseNodeReadsColumns(t: seq<string>, parseInt: string -> Option<int>, parseFloat: string -> Option<real>)
    requires ParseNode(t, parseInt, parseFloat).Success?
    ensures var r := ParseNode(t, parseInt, parseFloat);
              && Field(t, 0, parseInt) == Success(r.value.id)
              && Field(t, 1, parseFloat) == Success(r.value.x) && Field(t, 2, parseFloat) == Success(r.value.y)
              && Field(t, 3, parseFloat) == Success(r.value.z)
              && Field(t, 4, parseFloat) == Success(r.value.px) && Field(t, 5, parseFloat) == Success(r.value.py)
              && Field(t, 6, parseFloat) == Success(r.value.pz)
              && Field(t, 7, parseFloat) == Success(r.value.ux) && Field(t, 8, parseFloat) == Success(r.value.uy)
              && Field(t, 9, parseFloat) == Success(r.value.uz)
              && Field(t, 10, parseInt) == Success(r.value.dofX) && Field(t, 11, parseInt) == Success(r.value.dofY)
              && Field(t, 12, parseInt) == Success(r.value.dofZ)
  {
    FieldsReadEach(t, 1, 9, parseFloat);
    FieldsReadEach(t, 10, 3, parseInt);
  }

  /**
   * A node line reads exactly when its first 13 fields are numbers: an integer ID,
   * nine floats and three integer dof flags.  Further fields are ignored.
   */
  lemma ParseNodeSucceeds(t: seq<string>, parseInt: string -> Option<int>, parseFloat: string -> Option<real>)
    ensures ParseNode(t, parseInt, parseFloat).Success? <==>
              && Converts(t, 0, parseInt)
              && (forall j :: 1 <= j < 10 ==> Converts(t, j, parseFloat))
              && (forall j :: 10 <= j < 13 ==> Converts(t, j, parseInt))
  {
    FieldsSucceed(t, 1, 9, parseFloat);
    FieldsSucceed(t, 10, 3, parseInt);
  }

  /**
   * The node an element line names by `k`: the k-th node of the list, counting
   * from one.  Any other k is an IndexError.
   */
  function NodeAt(nodes: seq<Node>, k: int): Result<Node>
  {
    if 1 <= k <= |nodes| then Success(nodes[k - 1]) else Failure(IndexError)
  }

  /**
   * The node `nodeList[k - 1]` picks as written: Python counts a negative index
   * from the end of the list, so k in [1 - n, 0] is accepted too.
   */
  function PyNodeAt(nodes: seq<Node>, k: int): (r: Result<Node>)
    ensures r.Success? <==> 1 - |nodes| <= k <= |nodes|
    ensures 1 <= k <= |nodes| ==> r == NodeAt(nodes, k)
    ensures 1 - |nodes| <= k <= 0 ==> r == Success(nodes[|nodes| + k - 1])
  {
    var i := k - 1;
    if 0 <= i < |nodes| then Success(nodes[i])
    else if -|nodes| <= i < 0 then Success(nodes[|nodes| + i])
    else Failure(IndexError)
  }

  /** The fields of an element line: ID nodeA nodeB E A alpha deltaT, read left to right. */
  function ParseElement(t: seq<string>, nodes: seq<Node>, parseInt: string -> Option<int>, parseFloat: string -> Option<real>): (r: Result<Element>)
    ensures |t| < 7 ==> r.Failure?
    ensures r.Success? ==> r.value.nodeA in nodes && r.value.nodeB in nodes
  {
    var id :- Field(t, 0, parseInt);
    var kA :- Field(t, 1, parseInt);
    var nodeA :- NodeAt(nodes, kA);
    var kB :- Field(t, 2, parseInt);
    var nodeB :- NodeAt(nodes, kB);
    var v :- Fields(t, 3, 4, parseFloat);
    Success(Element(id, nodeA, nodeB, v[0], v[1], v[2], v[3]))
  }

  /**
   * Each field of an element that reads is the number in its column of the line,
   * and its ends are the nodes that columns 1 and 2 name.
   */
  lemma ParseElementReadsColumns(t: seq<string>, nodes: seq<Node>, parseInt: string -> Option<int>, parseFloat: string -> Option<real>)
    requires ParseElement(t, nodes, parseInt, parseFloat).Success?
    ensures var r := ParseElement(t, nodes, parseInt, parseFloat);
              && Field(t, 0, parseInt) == Success(r.value.id)
              && Field(t, 1, parseInt).Success? && NodeAt(nodes, Field(t, 1, parseInt).value) == Success(r.value.nodeA)
              && Field(t, 2, parseInt).Success? && NodeAt(nodes, Field(t, 2, parseInt).value) == Success(r.value.nodeB)
              && Field(t, 3, parseFloat) == Success(r.value.e) && Field(t, 4, parseFloat) == Success(r.value.a)
              && Field(t, 5, parseFloat) == Success(r.value.alpha) && Field(t, 6, parseFloat) == Success(r.value.deltaT)
  {
    FieldsReadEach(t, 3, 4, parseFloat);
  }

  /**
   * An element line reads exactly when its first 7 fields are numbers (three
   * integers, then four floats) and the two node numbers lie in 1..n.
   */
  lemma ParseElementSucceeds(t: seq<string>, nodes: seq<Node>, parseInt: string -> Option<int>, parseFloat: string -> Option<real>)
    ensures ParseElement(t, nodes, parseInt, parseFloat).Success? <==>
              && Converts(t, 0, parseInt) && Converts(t, 1, parseInt) && Converts(t, 2, parseInt)
              && 1 <= parseInt(t[1]).value <= |nodes| && 1 <= parseInt(t[2]).value <= |nodes|
              && (forall j :: 3 <= j < 7 ==> Converts(t, j, parseFloat))
  {
    FieldsSucceed(t, 3, 4, parseFloat);
  }

  /** The fields of an element line as written, with Python's indexing of the node list. */
  function ParseElementAsWritten(t: seq<string>, nodes: seq<Node>, parseInt: string -> Option<int>, parseFloat: string -> Option<real>): (r: Result<Element>)
    ensures ParseElement(t, nodes, parseInt, parseFloat).Success? ==> r == ParseElement(t, nodes, parseInt, parseFloat)
  {
    var id :- Field(t, 0, parseInt);
    var kA :- Field(t, 1, parseInt);
    var nodeA :- PyNodeAt(nodes, kA);
    var kB :- Field(t, 2, parseInt);
    var nodeB :- PyNodeAt(nodes, kB);
    var v :- Fields(t, 3, 4, parseFloat);
    Success(Element(id, nodeA, nodeB, v[0], v[1], v[2], v[3]))
  }

  /** As written, an element line also reads with node numbers in 1-n..0. */
  lemma ParseElementAsWrittenSucceeds(t: seq<string>, nodes: seq<Node>, parseInt: string -> Option<int>, parseFloat: string -> Option<real>)
    ensures ParseElementAsWritten(t, nodes, parseInt, parseFloat).Success? <==>
              && Converts(t, 0, parseInt) && Converts(t, 1, parseInt) && Converts(t, 2, parseInt)
              && 1 - |nodes| <= parseInt(t[1]).value <= |nodes| && 1 - |nodes| <= parseInt(t[2]).value <= |nodes|
              && (forall j :: 3 <= j < 7 ==> Converts(t, j, parseFloat))
  {
    FieldsSucceed(t, 3, 4, parseFloat);
  }

  /**
   * With two nodes, the element line "1 0 1 1 1 0 0" names node 0, which does not
   * exist: as written it silently connects the last node to the first.
   */
  lemma ZeroNodeIndexCounterexample(n1: Node, n2: Node, parseInt: string -> Option<int>, parseFloat: string -> Option<real>)
    requires parseInt("0") == Some(0) && parseInt("1") == Some(1)
    requires parseFloat("1") == Some(1.0) && parseFloat("0") == Some(0.0)
    ensures var t := Split("1 0 1 1 1 0 0");
            && ParseElementAsWritten(t, [n1, n2], parseInt, parseFloat) == Success(Element(1, n2, n1, 1.0, 1.0, 0.0, 0.0))
            && ParseElement(t, [n1, n2], parseInt, parseFloat) == Failure(IndexError)
  {
    var t := SampleElementLine();
    ZeroNodeIndexAsWritten(t, n1, n2, parseInt, parseFloat);
    ZeroNodeIndexCorrected(t, n1, n2, parseInt, parseFloat);
  }

  lemma ZeroNodeIndexAsWritten(t: seq<string>, n1: Node, n2: Node, parseInt: string -> Option<int>, parseFloat: string -> Option<real>)
    requires t == ["1", "0", "1", "1", "1", "0", "0"]
    requires parseInt("0") == Some(0) && parseInt("1") == Some(1)
    requires parseFloat("1") == Some(1.0) && parseFloat("0") == Some(0.0)
    ensures ParseElementAsWritten(t, [n1, n2], parseInt, parseFloat) == Success(Element(1, n2, n1, 1.0, 1.0, 0.0, 0.0))
  {
    assert Field(t, 1, parseInt) == Success(0);
    assert PyNodeAt([n1, n2], 0) == Success(n2);
    assert Fields(t, 3, 4, parseFloat) == Success([1.0, 1.0, 0.0, 0.0]) by {
      assert Field(t, 3, parseFloat) == Success(1.0);
      assert Fields(t, 3, 1, parseFloat).Success? && Fields(t, 3, 1, parseFloat).value == [1.0];
      assert Fields(t, 3, 2, parseFloat).Success? && Fields(t, 3, 2, parseFloat).value == [1.0, 1.0];
      assert Fields(t, 3, 3, parseFloat).Success? && Fields(t, 3, 3, parseFloat).value == [1.0, 1.0, 0.0];
      assert Fields(t, 3, 4, parseFloat).Success? && Fields(t, 3, 4, parseFloat).value == [1.0, 1.0, 0.0, 0.0];
    }
  }

  lemma ZeroNodeIndexCorrected(t: seq<string>, n1: Node, n2: Node, parseInt: string -> Option<int>, parseFloat: string -> Option<real>)
    requires t == ["1", "0", "1", "1", "1", "0", "0"]
    requires parseInt("0") == Some(0) && parseInt("1") == Some(1)
    ensures ParseElement(t, [n1, n2], parseInt, parseFloat) == Failure(IndexError)
  {
    assert Field(t, 1, parseInt) == Success(0);
  }

  /** The fields of the element line of the counterexample. */
  lemma SampleElementLine() returns (t: seq<string>)
    ensures t == Split("1 0 1 1 1 0 0") == ["1", "0", "1", "1", "1", "0", "0"]
  {
    t := ["1", "0", "1", "1", "1", "0", "0"];
    SampleWords(t);
    SampleJoin(t);
    SplitJoin(t);
  }

  lemma SampleWords(t: seq<string>)
    requires t == ["1", "0", "1", "1", "1", "0", "0"]
    ensures forall i :: 0 <= i < |t| ==> IsWord(t[i])
  {
  }

  lemma SampleJoin(t: seq<string>)
    requires t == ["1", "0", "1", "1", "1", "0", "0"]
    ensures Join(t) == "1 0 1 1 1 0 0"
  {
    assert t[6..] == ["0"] && t[5..] == ["0", "0"] && t[4..] == ["1", "0", "0"];
    assert t[3..] == ["1", "1", "0", "0"] && t[2..] == ["1", "1", "1", "0", "0"];
    assert t[1..] == ["0", "1", "1", "1", "0", "0"];
    assert Join(t[6..]) == "0";
    assert Join(t[5..]) == "0 0";
    assert Join(t[4..]) == "1 0 0";
    assert Join(t[3..]) == "1 1 0 0";
    assert Join(t[2..]) == "1 1 1 0 0";
    assert Join(t[1..]) == "0 1 1 1 0 0";
  }

  /** The fields of line `k`. */
  function LineFields(lines: seq<string>, k: nat): seq<string>
  {
    Split(Line(lines, k))
  }

  /**
   * The records of `count` lines from line `start` on, each read by `parse`, in
   * order: the first line that does not read stops the reading with its error.
   */
  function ParseRecords<R>(lines: seq<string>, start: nat, count: nat, parse: seq<string> -> Result<R>): (r: Result<seq<R>>)
    ensures r.Success? ==> |r.value| == count
  {
    if count == 0 then Success([])
    else
      var init :- ParseRecords(lines, start, count - 1, parse);
      var record :- parse(LineFields(lines, start + count - 1));
      Success(init + [record])
  }

  /** The reader of node lines. */
  function NodeParser(parseInt: string -> Option<int>, parseFloat: string -> Option<real>): seq<string> -> Result<Node>
  {
    t => ParseNode(t, parseInt, parseFloat)
  }

  /** The reader of element lines, whose ends are nodes of `nodes`. */
  function ElementParser(nodes: seq<Node>, parseInt: string -> Option<int>, parseFloat: string -> Option<real>): seq<string> -> Result<Element>
  {
    t => ParseElement(t, nodes, parseInt, parseFloat)
  }

  /** The reader of element lines as written, with Python's indexing of the node list. */
  function ElementParserAsWritten(nodes: seq<Node>, parseInt: string -> Option<int>, parseFloat: string -> Option<real>): seq<string> -> Result<Element>
  {
    t => ParseElementAsWritten(t, nodes, parseInt, parseFloat)
  }

  /** Record i of the records read is the one that line start + i describes. */
  lemma {:induction false} RecordsLineByLine<R>(lines: seq<string>, start: nat, count: nat, parse: seq<string> -> Result<R>)
    requires ParseRecords(lines, start, count, parse).Success?
    ensures var records := ParseRecords(lines, start, count, parse).value;
            forall i :: 0 <= i < count ==> parse(LineFields(lines, start + i)) == Success(records[i])
  {
    if count > 0 {
      RecordsLineByLine(lines, start, count - 1, parse);
    }
  }

  /** Reading one more line appends its record, or fails with its error. */
  lemma RecordsNext<R>(lines: seq<string>, start: nat, i: nat, records: seq<R>, parse: seq<string> -> Result<R>)
    requires ParseRecords(lines, start, i, parse) == Success(records)
    ensures var record := parse(LineFields(lines, start + i));
            ParseRecords(lines, start, i + 1, parse)
            == if record.Failure? then Failure(record.error) else Success(records + [record.value])
  {
  }

  /** Once a line fails, reading further lines keeps that failure. */
  lemma {:induction false} RecordsFailurePersists<R>(lines: seq<string>, start: nat, i: nat, count: nat, parse: seq<string> -> Result<R>)
    requires i <= count && ParseRecords(lines, start, i, parse).Failure?
    ensures ParseRecords(lines, start, count, parse) == ParseRecords(lines, start, i, parse)
    decreases count
  {
    if i < count {
      RecordsFailurePersists(lines, start, i, count - 1, parse);
    }
  }

  /**
   * When a line with no fields does not read, records are read only from lines
   * that are in the file.
   */
  lemma {:induction false} RecordsReadExistingLines<R>(lines: seq<string>, start: nat, count: nat, parse: seq<string> -> Result<R>)
    requires parse([]).Failure?
    requires ParseRecords(lines, start, count, parse).Success?
    ensures count == 0 || start + count <= |lines|
  {
    if count > 0 {
      assert parse(LineFields(lines, start + count - 1)).Success?;
      assert Split("") == [];
    }
  }

  /** `lines` and `other` hold the same first `n` lines. */
  predicate AgreeUpTo(lines: seq<string>, other: seq<string>, n: nat)
  {
    forall k :: 0 <= k < n ==> Line(lines, k) == Line(other, k)
  }

  /** Records read only the lines they are read from. */
  lemma {:induction false} RecordsReadOnlyTheirLines<R>(lines: seq<string>, other: seq<string>, start: nat, count: nat,
                                                       parse: seq<string> -> Result<R>)
    requires AgreeUpTo(lines, other, start + count)
    ensures ParseRecords(other, start, count, parse) == ParseRecords(lines, start, count, parse)
  {
    if count > 0 {
      RecordsReadOnlyTheirLines(lines, other, start, count - 1, parse);
      assert LineFields(other, start + count - 1) == LineFields(lines, start + count - 1);
    }
  }

  /** Records read exactly when every one of their lines reads. */
  lemma {:induction false} RecordsSucceed<R>(lines: seq<string>, start: nat, count: nat, parse: seq<string> -> Result<R>)
    ensures ParseRecords(lines, start, count, parse).Success? <==>
            forall k :: start <= k < start + count ==> parse(LineFields(lines, k)).Success?
  {
    if count > 0 {
      RecordsSucceed(lines, start, count - 1, parse);
    }
  }

  /** A reader that agrees with `parse` on every line `parse` reads gives the same records. */
  lemma {:induction false} RecordsAgree<R>(lines: seq<string>, start: nat, count: nat,
                                           parse: seq<string> -> Result<R>, other: seq<string> -> Result<R>)
    requires forall t :: parse(t).Success? ==> other(t) == parse(t)
    requires ParseRecords(lines, start, count, parse).Success?
    ensures ParseRecords(lines, start, count, other) == ParseRecords(lines, start, count, parse)
  {
    if count > 0 {
      RecordsAgree(lines, start, count - 1, parse, other);
    }
  }

  /** The number of header lines before the node lines. */
  const HeaderLines := 9

  /** The nine header lines, one number per line. */
  datatype Header = Header(
    steps: int, residuum: real, uEnd: real, uNode: int, uDirection: int,
    arclength: real, fendVal: real, nNodes: int, nElements: int)

  /** The header, or the error of the first header line that is not a number. */
  function ParseHeader(lines: seq<string>, parseInt: string -> Option<int>, parseFloat: string -> Option<real>): (r: Result<Header>)
    ensures r.Success? <==>
              && parseInt(Line(lines, 0)).Some? && parseFloat(Line(lines, 1)).Some? && parseFloat(Line(lines, 2)).Some?
              && parseInt(Line(lines, 3)).Some? && parseInt(Line(lines, 4)).Some? && parseFloat(Line(lines, 5)).Some?
              && parseFloat(Line(lines, 6)).Some? && parseInt(Line(lines, 7)).Some? && parseInt(Line(lines, 8)).Some?
    ensures r.Failure? ==> r.error == ValueError
    ensures r.Success? ==> r.value.nNodes == parseInt(Line(lines, 7)).value && r.value.nElements == parseInt(Line(lines, 8)).value
  {
    var steps :- ParseLine(Line(lines, 0), parseInt);
    var residuum :- ParseLine(Line(lines, 1), parseFloat);
    var uEnd :- ParseLine(Line(lines, 2), parseFloat);
    var uNode :- ParseLine(Line(lines, 3), parseInt);
    var uDirection :- ParseLine(Line(lines, 4), parseInt);
    var arclength :- ParseLine(Line(lines, 5), parseFloat);
    var fendVal :- ParseLine(Line(lines, 6), parseFloat);
    var nNodes :- ParseLine(Line(lines, 7), parseInt);
    var nElements :- ParseLine(Line(lines, 8), parseInt);
    Success(Header(steps, residuum, uEnd, uNode, uDirection, arclength, fendVal, nNodes, nElements))
  }

  /** Each of the nine header values is the conversion of its own line, in the order of the `Header` fields. */
  lemma ParseHeaderReadsLines(lines: seq<string>, parseInt: string -> Option<int>, parseFloat: string -> Option<real>)
    requires ParseHeader(lines, parseInt, parseFloat).Success?
    ensures ParseHeader(lines, parseInt, parseFloat).value
            == Header(parseInt(Line(lines, 0)).value, parseFloat(Line(lines, 1)).value, parseFloat(Line(lines, 2)).value,
                      parseInt(Line(lines, 3)).value, parseInt(Line(lines, 4)).value, parseFloat(Line(lines, 5)).value,
                      parseFloat(Line(lines, 6)).value, parseInt(Line(lines, 7)).value, parseInt(Line(lines, 8)).value)
  {
  }

  /** The network a file describes, or the first error reading it raises. */
  function ParseInput(lines: seq<string>, parseInt: string -> Option<int>, parseFloat: string -> Option<real>): (r: Result<Network>)
    ensures r.Success? ==> ParseHeader(lines, parseInt, parseFloat).Success?
    ensures r.Success? ==> r.value.controls.nodeList == r.value.nodes
    ensures r.Success? ==> var h := ParseHeader(lines, parseInt, parseFloat).value;
              && |r.value.nodes| == Count(h.nNodes) && |r.value.elements| == Count(h.nElements)
              && r.value.controls == Controls(h.steps, h.residuum, h.uEnd, h.uNode, h.uDirection, h.arclength, h.fendVal, r.value.nodes)
  {
    var h :- ParseHeader(lines, parseInt, parseFloat);
    ParseBody(lines, h, parseInt, parseFloat)
  }

  /** The node and element lines after header `h`. */
  function ParseBody(lines: seq<string>, h: Header, parseInt: string -> Option<int>, parseFloat: string -> Option<real>): (r: Result<Network>)
    ensures r.Success? ==> r.value.controls.nodeList == r.value.nodes
    ensures r.Success? ==>
              && |r.value.nodes| == Count(h.nNodes) && |r.value.elements| == Count(h.nElements)
              && r.value.controls == Controls(h.steps, h.residuum, h.uEnd, h.uNode, h.uDirection, h.arclength, h.fendVal, r.value.nodes)
  {
    var nodes :- ParseRecords(lines, HeaderLines, Count(h.nNodes), NodeParser(parseInt, parseFloat));
    var elements :- ParseRecords(lines, HeaderLines + Count(h.nNodes), Count(h.nElements), ElementParser(nodes, parseInt, parseFloat));
    Success(Network(nodes, elements, Controls(h.steps, h.residuum, h.uEnd, h.uNode, h.uDirection, h.arclength, h.fendVal, nodes)))
  }

  /**
   * The file as readInput reads it: like `ParseInput`, but an element's end nodes are
   * looked up with Python's indexing of the node list.
   */
  function ParseInputAsWritten(lines: seq<string>, parseInt: string -> Option<int>, parseFloat: string -> Option<real>): Result<Network>
  {
    var h :- ParseHeader(lines, parseInt, parseFloat);
    var nodes :- ParseRecords(lines, HeaderLines, Count(h.nNodes), NodeParser(parseInt, parseFloat));
    var elements :- ParseRecords(lines, HeaderLines + Count(h.nNodes), Count(h.nElements), ElementParserAsWritten(nodes, parseInt, parseFloat));
    Success(Network(nodes, elements, Controls(h.steps, h.residuum, h.uEnd, h.uNode, h.uDirection, h.arclength, h.fendVal, nodes)))
  }

  /** Reads `count` node lines from line `start` on, stopping at the first error. */
  method ReadNodes(lines: seq<string>, start: nat, count: nat, parseInt: string -> Option<int>, parseFloat: string -> Option<real>)
    returns (r: Result<seq<Node>>)
    ensures r == ParseRecords(lines, start, count, NodeParser(parseInt, parseFloat))
  {
    var nodeList: seq<Node> := [];
    for i := 0 to count
      invariant ParseRecords(lines, start, i, NodeParser(parseInt, parseFloat)) == Success(nodeList)
    {
      var readList := Split(Line(lines, start + i));
      var node := ParseNode(readList, parseInt, parseFloat);
      RecordsNext(lines, start, i, nodeList, NodeParser(parseInt, parseFloat));
      if node.Failure? {
        RecordsFailurePersists(lines, start, i + 1, count, NodeParser(parseInt, parseFloat));
        return Failure(node.error);
      }
      nodeList := nodeList + [node.value];
    }
    return Success(nodeList);
  }

  /**
   * Reads `count` element lines from line `start` on, as written, stopping at the
   * first error.
   */
  method ReadElements(lines: seq<string>, start: nat, count: nat, nodeList: seq<Node>, parseInt: string -> Option<int>, parseFloat: string -> Option<real>)
    returns (r: Result<seq<Element>>)
    ensures r == ParseRecords(lines, start, count, ElementParserAsWritten(nodeList, parseInt, parseFloat))
  {
    var elementList: seq<Element> := [];
    for i := 0 to count
      invariant ParseRecords(lines, start, i, ElementParserAsWritten(nodeList, parseInt, parseFloat)) == Success(elementList)
    {
      var readList := Split(Line(lines, start + i));
      var element := ParseElementAsWritten(readList, nodeList, parseInt, parseFloat);
      RecordsNext(lines, start, i, elementList, ElementParserAsWritten(nodeList, parseInt, parseFloat));
      if element.Failure? {
        RecordsFailurePersists(lines, start, i + 1, count, ElementParserAsWritten(nodeList, parseInt, parseFloat));
        return Failure(element.error);
      }
      elementList := elementList + [element.value];
    }
    return Success(elementList);
  }

  /**
   * Reads the header, then one node per node line and one element per element line,
   * stopping at the first error.
   */
  method ReadInput(lines: seq<string>, parseInt: string -> Option<int>, parseFloat: string -> Option<real>) returns (r: Result<Network>)
    ensures r == ParseInputAsWritten(lines, parseInt, parseFloat)
    ensures ParseInput(lines, parseInt, parseFloat).Success? ==> r == ParseInput(lines, parseInt, parseFloat)
  {
    if ParseInput(lines, parseInt, parseFloat).Success? {
      ParseInputAsWrittenAgrees(lines, parseInt, parseFloat);
    }
    var h :- ParseHeader(lines, parseInt, parseFloat);
    var nodeList :- ReadNodes(lines, HeaderLines, Count(h.nNodes), parseInt, parseFloat);
    var elementList :- ReadElements(lines, HeaderLines + Count(h.nNodes), Count(h.nElements), nodeList, parseInt, parseFloat);
    return Success(Network(nodeList, elementList,
                           Controls(h.steps, h.residuum, h.uEnd, h.uNode, h.uDirection, h.arclength, h.fendVal, nodeList)));
  }

  /** Python's int() and float() reject the empty string, which readline() gives at the end of the file. */
  predicate RejectsEmpty<T>(parse: string -> Option<T>)
  {
    parse("") == None
  }

  /**
   * A file that reads holds all of its 9 header lines, nNodes node lines and
   * nElements element lines.
   */
  lemma ParseInputReadsExistingLines(lines: seq<string>, parseInt: string -> Option<int>, parseFloat: string -> Option<real>)
    requires RejectsEmpty(parseInt) && RejectsEmpty(parseFloat)
    requires ParseInput(lines, parseInt, parseFloat).Success?
    ensures var h := ParseHeader(lines, parseInt, parseFloat).value;
            HeaderLines + Count(h.nNodes) + Count(h.nElements) <= |lines|
  {
    var h, nodes, elements := ParseInputParts(lines, parseInt, parseFloat);
    assert Line(lines, 8) != "";
    RecordsReadExistingLines(lines, HeaderLines, Count(h.nNodes), NodeParser(parseInt, parseFloat));
    RecordsReadExistingLines(lines, HeaderLines + Count(h.nNodes), Count(h.nElements), ElementParser(nodes, parseInt, parseFloat));
  }

  /** Lines after the ones a file that reads consumes change nothing. */
  lemma ParseInputIgnoresLaterLines(lines: seq<string>, extra: seq<string>, parseInt: string -> Option<int>, parseFloat: string -> Option<real>)
    requires RejectsEmpty(parseInt) && RejectsEmpty(parseFloat)
    requires ParseInput(lines, parseInt, parseFloat).Success?
    ensures ParseInput(lines + extra, parseInt, parseFloat) == ParseInput(lines, parseInt, parseFloat)
  {
    ParseInputReadsExistingLines(lines, parseInt, parseFloat);
    var h := ParseHeader(lines, parseInt, parseFloat).value;
    var n := HeaderLines + Count(h.nNodes) + Count(h.nElements);
    forall k | 0 <= k < n
      ensures Line(lines, k) == Line(lines + extra, k)
    {
    }
    assert AgreeUpTo(lines, lines + extra, n);
    SameHeader(lines, lines + extra, parseInt, parseFloat);
    SameBody(lines, lines + extra, h, parseInt, parseFloat);
  }

  lemma SameBody(lines: seq<string>, other: seq<string>, h: Header, parseInt: string -> Option<int>, parseFloat: string -> Option<real>)
    requires AgreeUpTo(lines, other, HeaderLines + Count(h.nNodes) + Count(h.nElements))
    ensures ParseBody(other, h, parseInt, parseFloat) == ParseBody(lines, h, parseInt, parseFloat)
  {
    var start := HeaderLines + Count(h.nNodes);
    var nodes := ParseRecords(lines, HeaderLines, Count(h.nNodes), NodeParser(parseInt, parseFloat));
    RecordsReadOnlyTheirLines(lines, other, HeaderLines, Count(h.nNodes), NodeParser(parseInt, parseFloat));
    if nodes.Success? {
      RecordsReadOnlyTheirLines(lines, other, start, Count(h.nElements), ElementParser(nodes.value, parseInt, parseFloat));
    }
  }

  lemma SameHeader(lines: seq<string>, other: seq<string>, parseInt: string -> Option<int>, parseFloat: string -> Option<real>)
    requires AgreeUpTo(lines, other, HeaderLines)
    ensures ParseHeader(other, parseInt, parseFloat) == ParseHeader(lines, parseInt, parseFloat)
  {
  }

  /** Node i is the node that line start + i describes. */
  predicate NodesFromLines(lines: seq<string>, start: nat, nodes: seq<Node>,
                           parseInt: string -> Option<int>, parseFloat: string -> Option<real>)
  {
    forall i :: 0 <= i < |nodes| ==> ParseNode(LineFields(lines, start + i), parseInt, parseFloat) == Success(nodes[i])
  }

  lemma NodesLineByLine(lines: seq<string>, start: nat, nodes: seq<Node>, parseInt: string -> Option<int>, parseFloat: string -> Option<real>)
    requires ParseRecords(lines, start, |nodes|, NodeParser(parseInt, parseFloat)) == Success(nodes)
    ensures NodesFromLines(lines, start, nodes, parseInt, parseFloat)
  {
    RecordsLineByLine(lines, start, |nodes|, NodeParser(parseInt, parseFloat));
    forall i | 0 <= i < |nodes|
      ensures ParseNode(LineFields(lines, start + i), parseInt, parseFloat) == Success(nodes[i])
    {
      assert NodeParser(parseInt, parseFloat)(LineFields(lines, start + i)) == Success(nodes[i]);
    }
  }

  /** The nodes of a file that reads come from its node lines, one per line. */
  lemma ParseInputNodesLineByLine(lines: seq<string>, network: Network, parseInt: string -> Option<int>, parseFloat: string -> Option<real>)
    requires ParseInput(lines, parseInt, parseFloat) == Success(network)
    ensures NodesFromLines(lines, HeaderLines, network.nodes, parseInt, parseFloat)
  {
    var h, nodes, elements := ParseInputParts(lines, parseInt, parseFloat);
    NodesLineByLine(lines, HeaderLines, nodes, parseInt, parseFloat);
  }

  /**
   * Element j is the element that line start + j describes; its ends are nodes of
   * `nodes` (ParseElement states which ones).
   */
  predicate ElementsFromLines(lines: seq<string>, start: nat, nodes: seq<Node>, elements: seq<Element>,
                              parseInt: string -> Option<int>, parseFloat: string -> Option<real>)
  {
    forall j :: 0 <= j < |elements| ==>
      && ParseElement(LineFields(lines, start + j), nodes, parseInt, parseFloat) == Success(elements[j])
      && elements[j].nodeA in nodes && elements[j].nodeB in nodes
  }

  lemma ElementsLineByLine(lines: seq<string>, start: nat, nodes: seq<Node>, elements: seq<Element>,
                           parseInt: string -> Option<int>, parseFloat: string -> Option<real>)
    requires ParseRecords(lines, start, |elements|, ElementParser(nodes, parseInt, parseFloat)) == Success(elements)
    ensures ElementsFromLines(lines, start, nodes, elements, parseInt, parseFloat)
  {
    RecordsLineByLine(lines, start, |elements|, ElementParser(nodes, parseInt, parseFloat));
    forall j | 0 <= j < |elements|
      ensures && ParseElement(LineFields(lines, start + j), nodes, parseInt, parseFloat) == Success(elements[j])
              && elements[j].nodeA in nodes && elements[j].nodeB in nodes
    {
      var t := LineFields(lines, start + j);
      assert ElementParser(nodes, parseInt, parseFloat)(t) == Success(elements[j]);
      assert ParseElement(t, nodes, parseInt, parseFloat) == Success(elements[j]);
    }
  }

  /** The elements of a file that reads come from its element lines, one per line. */
  lemma ParseInputElementsLineByLine(lines: seq<string>, network: Network, parseInt: string -> Option<int>, parseFloat: string -> Option<real>)
    requires ParseInput(lines, parseInt, parseFloat) == Success(network)
    ensures ElementsFromLines(lines, HeaderLines + |network.nodes|, network.nodes, network.elements, parseInt, parseFloat)
  {
    var h, nodes, elements := ParseInputParts(lines, parseInt, parseFloat);
    assert network.nodes == nodes && network.elements == elements;
    ElementsLineByLine(lines, HeaderLines + |network.nodes|, network.nodes, network.elements, parseInt, parseFloat);
  }

  /** Every one of the `n` node lines from line `start` on reads. */
  predicate NodeLinesRead(lines: seq<string>, start: nat, n: nat, parseInt: string -> Option<int>, parseFloat: string -> Option<real>)
  {
    forall k :: start <= k < start + n ==> ParseNode(LineFields(lines, k), parseInt, parseFloat).Success?
  }

  /** The nodes that those lines describe, in order. */
  function NodesOfLines(lines: seq<string>, start: nat, n: nat, parseInt: string -> Option<int>, parseFloat: string -> Option<real>): seq<Node>
    requires NodeLinesRead(lines, start, n, parseInt, parseFloat)
  {
    seq(n, i requires 0 <= i < n => ParseNode(LineFields(lines, start + i), parseInt, parseFloat).value)
  }

  /** Every one of the `n` element lines from line `start` on reads against `nodes`. */
  predicate ElementLinesRead(lines: seq<string>, start: nat, n: nat, nodes: seq<Node>, parseInt: string -> Option<int>, parseFloat: string -> Option<real>)
  {
    forall k :: start <= k < start + n ==> ParseElement(LineFields(lines, k), nodes, parseInt, parseFloat).Success?
  }

  /**
   * A file reads exactly when its header reads, each of its nNodes node lines reads,
   * and each of its nElements element lines reads against the nodes of those lines.
   */
  lemma ParseInputSucceeds(lines: seq<string>, parseInt: string -> Option<int>, parseFloat: string -> Option<real>)
    ensures ParseInput(lines, parseInt, parseFloat).Success? <==>
              && ParseHeader(lines, parseInt, parseFloat).Success?
              && var h := ParseHeader(lines, parseInt, parseFloat).value;
                 && NodeLinesRead(lines, HeaderLines, Count(h.nNodes), parseInt, parseFloat)
                 && ElementLinesRead(lines, HeaderLines + Count(h.nNodes), Count(h.nElements),
                                     NodesOfLines(lines, HeaderLines, Count(h.nNodes), parseInt, parseFloat), parseInt, parseFloat)
  {
    var header := ParseHeader(lines, parseInt, parseFloat);
    if header.Success? {
      assert ParseInput(lines, parseInt, parseFloat) == ParseBody(lines, header.value, parseInt, parseFloat);
      ParseBodySucceeds(lines, header.value, parseInt, parseFloat);
    }
  }

  /** The body after header `h` reads exactly when each of its node and element lines reads. */
  lemma ParseBodySucceeds(lines: seq<string>, h: Header, parseInt: string -> Option<int>, parseFloat: string -> Option<real>)
    ensures ParseBody(lines, h, parseInt, parseFloat).Success? <==>
              && NodeLinesRead(lines, HeaderLines, Count(h.nNodes), parseInt, parseFloat)
              && ElementLinesRead(lines, HeaderLines + Count(h.nNodes), Count(h.nElements),
                                  NodesOfLines(lines, HeaderLines, Count(h.nNodes), parseInt, parseFloat), parseInt, parseFloat)
  {
    var n := Count(h.nNodes);
    NodeRecordsRead(lines, HeaderLines, n, parseInt, parseFloat);
    var nodes := ParseRecords(lines, HeaderLines, n, NodeParser(parseInt, parseFloat));
    if nodes.Success? {
      ElementRecordsRead(lines, HeaderLines + n, Count(h.nElements), nodes.value, parseInt, parseFloat);
    }
  }

  /** Node records read exactly when each of their lines reads, and are then the nodes of those lines. */
  lemma NodeRecordsRead(lines: seq<string>, start: nat, n: nat, parseInt: string -> Option<int>, parseFloat: string -> Option<real>)
    ensures ParseRecords(lines, start, n, NodeParser(parseInt, parseFloat)).Success? <==>
            NodeLinesRead(lines, start, n, parseInt, parseFloat)
    ensures ParseRecords(lines, start, n, NodeParser(parseInt, parseFloat)).Success? ==>
            ParseRecords(lines, start, n, NodeParser(parseInt, parseFloat)).value == NodesOfLines(lines, start, n, parseInt, parseFloat)
  {
    var parse := NodeParser(parseInt, parseFloat);
    RecordsSucceed(lines, start, n, parse);
    if ParseRecords(lines, start, n, parse).Success? {
      RecordsLineByLine(lines, start, n, parse);
    }
  }

  /** Element records read exactly when each of their lines reads. */
  lemma ElementRecordsRead(lines: seq<string>, start: nat, n: nat, nodes: seq<Node>, parseInt: string -> Option<int>, parseFloat: string -> Option<real>)
    ensures ParseRecords(lines, start, n, ElementParser(nodes, parseInt, parseFloat)).Success? <==>
            ElementLinesRead(lines, start, n, nodes, parseInt, parseFloat)
  {
    RecordsSucceed(lines, start, n, ElementParser(nodes, parseInt, parseFloat));
  }

  /** Wherever the corrected reading succeeds, readInput as written reads the same network. */
  lemma ParseInputAsWrittenAgrees(lines: seq<string>, parseInt: string -> Option<int>, parseFloat: string -> Option<real>)
    requires ParseInput(lines, parseInt, parseFloat).Success?
    ensures ParseInputAsWritten(lines, parseInt, parseFloat) == ParseInput(lines, parseInt, parseFloat)
  {
    var h, nodes, elements := ParseInputParts(lines, parseInt, parseFloat);
    var parse, other := ElementParser(nodes, parseInt, parseFloat), ElementParserAsWritten(nodes, parseInt, parseFloat);
    forall t | parse(t).Success?
      ensures other(t) == parse(t)
    {
    }
    RecordsAgree(lines, HeaderLines + |nodes|, |elements|, parse, other);
  }

  /** A file that reads is its header, its node records and its element records. */
  lemma ParseInputParts(lines: seq<string>, parseInt: string -> Option<int>, parseFloat: string -> Option<real>)
    returns (h: Header, nodes: seq<Node>, elements: seq<Element>)
    requires ParseInput(lines, parseInt, parseFloat).Success?
    ensures ParseHeader(lines, parseInt, parseFloat) == Success(h)
    ensures |nodes| == Count(h.nNodes) && |elements| == Count(h.nElements)
    ensures ParseRecords(lines, HeaderLines, |nodes|, NodeParser(parseInt, parseFloat)) == Success(nodes)
    ensures ParseRecords(lines, HeaderLines + |nodes|, |elements|, ElementParser(nodes, parseInt, parseFloat)) == Success(elements)
    ensures ParseInput(lines, parseInt, parseFloat)
            == Success(Network(nodes, elements, Controls(h.steps, h.residuum, h.uEnd, h.uNode, h.uDirection, h.arclength, h.fendVal, nodes)))
  {
    h := InputHeader(lines, parseInt, parseFloat);
    nodes, elements := BodyParts(lines, h, parseInt, parseFloat);
  }

  lemma InputHeader(lines: seq<string>, parseInt: string -> Option<int>, parseFloat: string -> Option<real>) returns (h: Header)
    requires ParseInput(lines, parseInt, parseFloat).Success?
    ensures ParseHeader(lines, parseInt, parseFloat) == Success(h)
    ensures ParseInput(lines, parseInt, parseFloat) == ParseBody(lines, h, parseInt, parseFloat)
  {
    h := ParseHeader(lines, parseInt, parseFloat).value;
  }

  lemma BodyParts(lines: seq<string>, h: Header, parseInt: string -> Option<int>, parseFloat: string -> Option<real>)
    returns (nodes: seq<Node>, elements: seq<Element>)
    requires ParseBody(lines, h, parseInt, parseFloat).Success?
    ensures |nodes| == Count(h.nNodes) && |elements| == Count(h.nElements)
    ensures ParseRecords(lines, HeaderLines, |nodes|, NodeParser(parseInt, parseFloat)) == Success(nodes)
    ensures ParseRecords(lines, HeaderLines + |nodes|, |elements|, ElementParser(nodes, parseInt, parseFloat)) == Success(elements)
    ensures ParseBody(lines, h, parseInt, parseFloat)
            == Success(Network(nodes, elements, Controls(h.steps, h.residuum, h.uEnd, h.uNode, h.uDirection, h.arclength, h.fendVal, nodes)))
  {
    nodes := ParseRecords(lines, HeaderLines, Count(h.nNodes), NodeParser(parseInt, parseFloat)).value;
    elements := ParseRecords(lines, HeaderLines + Count(h.nNodes), Count(h.nElements), ElementParser(nodes, parseInt, parseFloat)).value;
  }

  /**
   * Ends are found by position, not by ID: the two agree when the nodes are numbered
   * 1, 2, ... in list order.
   */
  lemma NodeAtFindsIdWhenNumberedInOrder(nodes: seq<Node>, k: int)
    requires forall i :: 0 <= i < |nodes| ==> nodes[i].id == i + 1
    ensures NodeAt(nodes, k).Success? <==> exists i :: 0 <= i < |nodes| && nodes[i].id == k
    ensures NodeAt(nodes, k).Success? ==> NodeAt(nodes, k).value.id == k
  {
  }
}
