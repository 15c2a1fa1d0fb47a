# nfem path-following, nodes and 3D truss input — a Dafny model

nfem is a small non-linear finite-element program for truss structures. This
project models three of its parts and proves properties about them.

- **Path-following methods** (`nfem/path_following_method.py`, module
  `PathFollowing`). A path-following method adds one constraint equation to the
  non-linear system and scales a predictor so that the constraint holds. The
  three strategies are load control, displacement control and arc-length control.
  Each has `scale_predictor`, `calculate_constraint` and `calculate_derivatives`,
  and all of them share `scale_delta_uand_lambda`.
  - The model that they change is a `class Model` (module `Models`). It holds the
    node ids, a map from dofs to their states, the load factor `lam` and the
    previous model.
  - The assembler is a value: the ordered dof list, with the free dofs first.
    A predicate ties it to the model.
  - Each method is proved against a specification function on snapshots
    (`ScaleDelta`, `SquaredPredictorLength`, `ArcLengthDerivatives`).
  - Lemmas prove what the scaling achieves: afterwards the constraint is zero.
    They also prove that the derivative vector that `calculate_derivatives` fills
    is the gradient of the constraint.
- **Nodes** (`nfem/node.py`, module `Nodes`). A node has a reference location and
  an actual location. `Update` sets one displacement component, measured from
  the reference location.
- **3D truss input** (`input3D.py`, module `Input3D`). This part covers:
  - the `Node`, `Element`, `Controls` and `network` records;
  - the element length;
  - the force, dof-flag and end-load vectors that `Controls` assembles;
  - `readInput`, which reads nine header lines, then one line per node and one
    line per element.

  The file is given as its sequence of lines.

The model leaves Python's `int()`, `float()` and `np.sqrt` abstract. They are
parameters: `parseInt` and `parseFloat` return `None` where Python raises
`ValueError`. `sqrt` is any function satisfying `Reals.IsSqrt`. Python
exceptions become `Failure(error)` / `Fail(error)` values (module `Wrappers`).

## Model

| member | source | states |
|---|---|---|
| `Models.Model.SetDofState` | nfem/path_following_method.py:38 | setting a dof's state replaces that one entry of the dof map and changes neither the nodes, the load factor nor the link to the previous model |
| `Models.Assembler.IndexOfDof` | nfem/path_following_method.py:186 | the index is the position of the dof in the assembler's ordering; a dof the assembler does not know is a LookupError |
| `Models.ScaleDelta` | nfem/path_following_method.py:32-41 | every dof keeps its key, and its new distance from the previous state is `factor` times the old distance; the same holds for the load factor |
| `Models.ScaleByOneIsIdentity` | nfem/path_following_method.py:32-41 | scaling the increment by 1 leaves the state as it was |
| `Models.ScaleByZeroIsPrevious` | nfem/path_following_method.py:32-41 | scaling the increment by 0 returns the previous state |
| `Models.NodeSquaredDelta` | nfem/path_following_method.py:272-273 | a node's squared move dx²+dy²+dz² is never negative, and it is zero exactly when none of its three dofs changed |
| `Models.SquaredDisplacementLength` | nfem/path_following_method.py:271-273 | the summed squared node moves are never negative |
| `Models.SquaredDisplacementLengthStep` | nfem/path_following_method.py:271-273 | taking one more node into the sum adds exactly that node's squared move (the loop's accumulation step) |
| `Models.SquaredPredictorLength` | nfem/path_following_method.py:266-279 | the squared predictor length is never negative |
| `Models.SquaredDisplacementLengthZero` | nfem/path_following_method.py:271-273 | the summed squared moves vanish exactly when no dof of any node changed |
| `Models.SquaredPredictorLengthZero` | nfem/path_following_method.py:266-279 | the squared predictor length vanishes exactly when neither a node nor the load factor changed |
| `Models.ScaledNodeSquaredDelta` | nfem/path_following_method.py:272-273 | scaling a node's increment by f multiplies its squared move by f² |
| `Models.ScaledSquaredDisplacementLength` | nfem/path_following_method.py:271-273 | scaling every dof increment by f multiplies the summed squared moves by f² |
| `Models.ScaledSquaredPredictorLength` | nfem/path_following_method.py:266-279 | after `ScaleDelta` by f, the squared predictor length is f² times what it was |
| `Models.ShiftedNodeSquaredDelta` | nfem/path_following_method.py:259-262 | shifting one dof of a node by t changes the node's squared move by 2·t·(its increment) + t² |
| `Models.ShiftedSquaredDisplacementLength` | nfem/path_following_method.py:259-262 | shifting one dof by t changes the summed squared moves by 2·t·(its increment) + t², because no other node moves |
| `Models.ShiftedSquaredPredictorLength` | nfem/path_following_method.py:259-262 | shifting one dof by t changes the squared predictor length by 2·t·(its increment) + t² |
| `Models.ShiftedLamSquaredPredictorLength` | nfem/path_following_method.py:264 | shifting the load factor by t changes the squared predictor length by 2·t·Δλ + t² |
| `PathFollowing.Fill` | nfem/path_following_method.py:104 | after `fill` every entry of the vector holds the given value |
| `PathFollowing.ScaleDofStates` | nfem/path_following_method.py:32-38 | the loop over the assembler's dofs leaves the dof map equal to the dof part of `ScaleDelta`, and the load factor as it was |
| `PathFollowing.ScaleDeltaUAndLambda` | nfem/path_following_method.py:18-41 | the model's new snapshot is `ScaleDelta` of its old snapshot against the previous model; the previous model, the node list and the assembler consistency are kept |
| `PathFollowing.LoadControl.CalculateConstraint` | nfem/path_following_method.py:92 | the constraint is zero exactly when λ equals λ̂, and positive exactly when λ exceeds λ̂ |
| `PathFollowing.LoadControl.ScalePredictor` | nfem/path_following_method.py:65-77 | a predictor whose λ equals the previous λ is a ZeroDivisionError and changes nothing; otherwise the model is the increment scaled by (λ̂−λₚ)/(λ−λₚ), λ becomes λ̂ and the constraint is zero |
| `PathFollowing.LoadControl.CalculateDerivatives` | nfem/path_following_method.py:104-105 | an empty vector is an IndexError; otherwise the vector is the unit vector on its last entry |
| `PathFollowing.LoadControlGradient` | nfem/path_following_method.py:92-105 | the vector filled by `calculate_derivatives` is the gradient of the constraint: shifting any dof leaves the constraint unchanged, and shifting λ by t changes it by t |
| `PathFollowing.DisplacementControl.CalculateConstraint` | nfem/path_following_method.py:167-172 | a dof the model lacks is a LookupError; otherwise the constraint is zero exactly when the dof sits at its prescribed value, and positive exactly when the dof is beyond it |
| `PathFollowing.DisplacementControl.ScalePredictor` | nfem/path_following_method.py:140-152 | a controlled dof the model lacks is a LookupError, and an unmoved controlled dof is a ZeroDivisionError, both changing nothing; otherwise the increment is scaled, the dof reaches its prescribed value and the constraint is zero |
| `PathFollowing.DisplacementControl.CalculateDerivatives` | nfem/path_following_method.py:184-187 | an unknown dof is a LookupError and an index beyond the vector is an IndexError, both leaving the vector zeroed; otherwise the vector is the unit vector at the dof's index |
| `PathFollowing.DisplacementControlGradient` | nfem/path_following_method.py:167-187 | the unit vector at the controlled dof's index is the gradient of the constraint: shifting that dof by t changes the constraint by t, while shifting any other dof or λ leaves it unchanged |
| `PathFollowing.ArcLengthControl.SquaredLHat` | nfem/path_following_method.py:207 | the prescribed squared length is never negative, and it is zero exactly when l̂ is zero |
| `PathFollowing.ArcLengthControl.Constraint` | nfem/path_following_method.py:237-240 | the constraint is zero exactly when the squared predictor length equals l̂² |
| `PathFollowing.ArcLengthControl.CalculateSquaredPredictorLength` | nfem/path_following_method.py:266-279 | the loop over the node pairs returns `SquaredPredictorLength` of the model against the previous model, which is never negative |
| `PathFollowing.ArcLengthControl.CalculateConstraint` | nfem/path_following_method.py:237-240 | the method returns the arc-length constraint of the model against its previous model |
| `PathFollowing.ArcLengthControl.ScalePredictor` | nfem/path_following_method.py:217-222 | a zero predictor length is a ZeroDivisionError and changes nothing; otherwise the increment is scaled by sqrt(l̂²/l²), the new squared length is l̂² and the constraint is zero |
| `PathFollowing.ArcLengthControl.CalculateDerivatives` | nfem/path_following_method.py:252-264 | the call succeeds exactly when the vector is non-empty and holds the free dofs; the filled vector is `ArcLengthDerivatives` (2·increment per free dof, zeros, 2·Δλ last); the partial state on an IndexError is described |
| `PathFollowing.ArcLengthDofGradient` | nfem/path_following_method.py:258-262 | entry i of the derivative vector, 2·(increment of free dof i), is the linear part of the change in the constraint when that dof is shifted by t |
| `PathFollowing.ArcLengthLamGradient` | nfem/path_following_method.py:264 | the last entry, 2·Δλ, is the linear part of the change in the constraint when λ is shifted by t |
| `PathFollowing.ArcLengthScaling` | nfem/path_following_method.py:217-222 | the factor sqrt(l̂²/l²) scales a predictor of non-zero length to a squared length of exactly l̂² |
| `Nodes.AxisOf` | nfem/node.py:90-97 | exactly the dof types 'u', 'v' and 'w' name an axis |
| `Nodes.UpdatedLocation` | nfem/node.py:90-95 | after an update the displacement on the chosen axis is the given value, and the other two coordinates are untouched |
| `Nodes.Node.constructor` | nfem/node.py:41-47 | a new node stands at its reference location (x, y, z), with zero displacement |
| `Nodes.Node.GetReferenceLocation` | nfem/node.py:49-61 | the reference location (x, y, z); the constructor sets it and `Update` never changes it, as their contracts state |
| `Nodes.Node.GetActualLocation` | nfem/node.py:63-75 | the actual location; the constructor sets it to the reference location and `Update` moves one coordinate of it, as their contracts state |
| `Nodes.Node.GetDisplacement` | nfem/node.py:85 | as written, the method returns the negation of the node's displacement |
| `Nodes.Node.Displacement` | nfem/tests/test_node.py:74-80 | the displacement is what must be added to the reference location to reach the actual location |
| `Nodes.Node.Update` | nfem/node.py:87-97 | a dof type other than 'u', 'v', 'w' is a RuntimeError naming it, and changes nothing; otherwise the actual location moves to reference + value on that axis, so that the displacement takes that component; the reference location never changes |
| `Nodes.UpdateIsIdempotent` | nfem/node.py:90-95 | an update sets an absolute displacement, so repeating it changes nothing |
| `Nodes.UpdatesOnDifferentAxesCommute` | nfem/node.py:90-95 | updates on different axes can be applied in either order |
| `Nodes.LastUpdateWins` | nfem/node.py:90-95 | of two updates on the same axis only the second one counts |
| `Nodes.GetDisplacementAgreesOnlyAtRest` | nfem/node.py:85 | `GetDisplacement` agrees with the displacement exactly when the node has not moved |
| `Nodes.GetDisplacementSignCounterexample` | nfem/node.py:85 | a node at (4, 5, 6) updated with ('u', 9) stands at (13, 5, 6) with displacement (9, 0, 0), while reference − actual is (−9, 0, 0) |
| `Input3D.Element.SquaredLength` | input3D.py:128-131 | the squared element length is never negative, and it is zero exactly when both ends coincide |
| `Input3D.Element.CalcLength` | input3D.py:127-131 | the length is non-negative and its square is the squared distance between the two end nodes |
| `Input3D.CalcLengthIsSymmetric` | input3D.py:127-131 | swapping the element's ends does not change its length |
| `Input3D.CalcLengthIsZeroAtCoincidentEnds` | input3D.py:127-131 | the length is zero exactly when both ends lie at the same point |
| `Input3D.ForcesLayout` | input3D.py:157-163 | the force vector has 3 entries per node, with node i's Px, Py, Pz at 3i, 3i+1, 3i+2 |
| `Input3D.Controls.GetForce` | input3D.py:157-163 | the array loop yields the node-by-node force layout |
| `Input3D.DofFlagsLayout` | input3D.py:194-200 | the dof list has 3 entries per node, with node i's DoFx, DoFy, DoFz at 3i, 3i+1, 3i+2 |
| `Input3D.Controls.GetDoFList` | input3D.py:194-200 | the appending loop yields the node-by-node dof-flag layout |
| `Input3D.LoadEndLayout` | input3D.py:204-209 | an entry of the end-load vector is fendVal where that component of the force is non-zero, and keeps the buffer's initial content elsewhere |
| `Input3D.Controls.GetLoadEnd` | input3D.py:204-209 | the loop over the 3n entries yields the end-load vector over the forces |
| `Input3D.WordLength` | input3D.py:235 | the first word of a text runs up to its first whitespace |
| `Input3D.Split` | input3D.py:235 | `str.split()` with no separator: the whitespace-separated words of a line, in order; `SplitGivesWords` and `SplitJoin` state what it yields |
| `Input3D.SplitGivesWords` | input3D.py:235 | `split()` yields only non-empty words without whitespace |
| `Input3D.SplitJoin` | input3D.py:235 | splitting words joined by single spaces gives the words back |
| `Input3D.Fields` | input3D.py:238-241 | reading n fields fails when the line is too short, and succeeds with exactly n values |
| `Input3D.FieldsReadEach` | input3D.py:238-241 | each of the n values read is the conversion of its own column |
| `Input3D.FieldsSucceed` | input3D.py:238-241 | n fields are read exactly when each of them is on the line and converts to a number |
| `Input3D.ParseNode` | input3D.py:237-241 | a node line with fewer than 13 fields fails |
| `Input3D.ParseNodeReadsColumns` | input3D.py:237-241 | a parsed node takes its id and dof flags from columns 0 and 10-12 through `int()`, and its coordinates, forces and pre-displacements from columns 1-9 through `float()` |
| `Input3D.ParseNodeSucceeds` | input3D.py:237-241 | a node line is read exactly when its first 13 fields convert: an `int()` ID, nine `float()` values and three `int()` dof flags; any further fields are ignored |
| `Input3D.PyNodeAt` | input3D.py:247-248 | as written, `nodeList[k-1]` also succeeds for 1−n ≤ k ≤ 0 and then picks a node counted from the end |
| `Input3D.NodeAtFindsIdWhenNumberedInOrder` | input3D.py:247-248 | when the nodes are numbered 1..n in file order, node number k is found exactly when a node has id k, and that node is the one found |
| `Input3D.ParseElement` | input3D.py:246-250 | an element line with fewer than 7 fields fails, and a parsed element's end nodes belong to the node list |
| `Input3D.ParseElementReadsColumns` | input3D.py:246-250 | a parsed element takes its id from column 0, its end nodes by the numbers in columns 1-2, and E, A, α, ΔT from columns 3-6 |
| `Input3D.ParseElementSucceeds` | input3D.py:246-250 | with the corrected lookup, an element line is read exactly when its first 7 fields convert (three `int()`, four `float()`) and both node numbers lie in 1..n |
| `Input3D.ParseElementAsWritten` | input3D.py:246-250 | the element line as written agrees with the corrected reading wherever the corrected one succeeds |
| `Input3D.ParseElementAsWrittenSucceeds` | input3D.py:246-250 | as written, an element line is read exactly when its first 7 fields convert and both node numbers lie in 1−n..n |
| `Input3D.ZeroNodeIndexCounterexample` | input3D.py:247-248 | the line "1 0 1 1 1 0 0" between two nodes is rejected by the corrected reading, but as written it builds an element from the last node to the first |
| `Input3D.ParseRecords` | input3D.py:234-250 | reading `count` record lines succeeds with exactly `count` records |
| `Input3D.RecordsLineByLine` | input3D.py:234-250 | record i comes from line start+i |
| `Input3D.RecordsNext` | input3D.py:234-250 | one more loop round appends the next line's record, or fails with that line's error |
| `Input3D.RecordsFailurePersists` | input3D.py:234-250 | the first failing record line ends the read with its error |
| `Input3D.RecordsReadExistingLines` | input3D.py:234-250 | when an empty line cannot be a record, a successful read of `count` records needs lines start to start+count−1 to exist |
| `Input3D.RecordsReadOnlyTheirLines` | input3D.py:234-250 | the records read depend only on the lines before start+count |
| `Input3D.RecordsSucceed` | input3D.py:234-250 | `count` records are read exactly when each of their lines is read |
| `Input3D.RecordsAgree` | input3D.py:242-250 | two line readers that agree wherever the first one succeeds read the same records wherever the first one succeeds |
| `Input3D.ParseHeader` | input3D.py:223-231 | the header is read exactly when each of the nine lines converts with its own `int()`/`float()`; otherwise it is a ValueError; the node and element counts come from lines 8 and 9 |
| `Input3D.ParseHeaderReadsLines` | input3D.py:223-231 | each of the nine header values (steps, residuum, uEnd, uNode, uDirection, arclength, fendVal, nNodes, nElements) is the conversion of its own line, in that order |
| `Input3D.ParseBody` | input3D.py:232-253 | a body read from a header has as many nodes and elements as the header announces, and the controls hold the same node list as the network |
| `Input3D.ParseBodySucceeds` | input3D.py:232-250 | the body after a header is read exactly when each of its nNodes node lines is read and each of its nElements element lines is read against those nodes |
| `Input3D.NodeRecordsRead` | input3D.py:233-241 | the node records are read exactly when each node line is read, and they are then the nodes of those lines, in order |
| `Input3D.ElementRecordsRead` | input3D.py:242-250 | the element records are read exactly when each element line is read |
| `Input3D.ParseInput` | input3D.py:222-253 | a file is read only when its header is, and the network's node and element counts are the header's; the controls share the network's node list |
| `Input3D.ParseInputSucceeds` | input3D.py:222-253 | a file is read exactly when its nine header lines convert, each of its nNodes node lines is read, and each of its nElements element lines is read against the nodes of those lines |
| `Input3D.ParseInputAsWrittenAgrees` | input3D.py:242-253 | wherever the corrected reading succeeds, `readInput` as written reads the same network |
| `Input3D.ReadNodes` | input3D.py:233-241 | the node loop yields the record reading of the node lines |
| `Input3D.ReadElements` | input3D.py:242-250 | the element loop, with Python's indexing of the node list, yields the as-written record reading of the element lines |
| `Input3D.ReadInput` | input3D.py:213-253 | `readInput` yields the as-written reading of the file (`ParseInputAsWritten`), which is the corrected `ParseInput` wherever that one succeeds |
| `Input3D.ParseInputParts` | input3D.py:232-253 | a file that is read splits into a header, the node records read from the lines after it, and the element records read from the lines after those |
| `Input3D.ParseInputReadsExistingLines` | input3D.py:223-250 | a file that is read has at least 9 + nNodes + nElements lines |
| `Input3D.ParseInputIgnoresLaterLines` | input3D.py:222-253 | lines after the last element do not change what is read |
| `Input3D.ParseInputNodesLineByLine` | input3D.py:234-241 | node i of the network is the node on line 10+i of the file |
| `Input3D.ParseInputElementsLineByLine` | input3D.py:243-250 | element j is the element on the j-th line after the nodes, and its ends are nodes of the network |

## Left out

- The `Model` and `Assembler` classes are not part of this model: their files
  are not in the modelled core. The model is a class with only what the
  path-following code touches. The assembler is a value with its dof ordering
  (free dofs first), related to the model by the predicate `Models.Consistent`;
  it is not built from the model.
- Division by zero: numpy floats give `inf`/`nan` with a warning where the
  scaling factors divide by zero. The model treats it as a `ZeroDivisionError`
  that leaves the model unchanged.
- Floating point: every float is a real, so rounding is not modelled. `np.sqrt`
  is a parameter that returns the exact square root of a non-negative real.
- `PathFollowing.ArcLengthControl.CalculateSquaredPredictorLength`: path_following_method.py
  sums `get_actual_location()` differences over the zip of both node lists. The
  model sums the differences of each node's u, v, w dof states over the model's
  node list; the previous model has the same nodes. Actual-location differences
  equal dof-state differences when both models share the reference locations.
  Following the code, all nodes count, not only free dofs.
- Path-following methods require the model to be a working duplicate
  (`Models.Duplicated`): the previous model holds the same nodes, and both hold
  exactly the u, v, w dofs of every node. So a dof found in the model but
  missing in the previous model does not arise here.
- `Controls.getDoF` is left out: it reads the user's choice from the console in
  a loop. The `print*` methods and the visualization are also left out (output
  only).
- File handling: opening and closing the file is left out. The file is its
  sequence of lines without line terminators, and a line past the end reads as
  the empty string, as `readline()` does at end of file.
- Python's `int()` and `float()` are the parameters `parseInt` and
  `parseFloat`. The theorems about the whole file assume only that neither
  accepts the empty string.
- `np.empty` in `getLoadEnd`: the buffer's unspecified initial content is the
  parameter `initial`.
- Object identity: `readInput` passes the same `nodeList` object to the network
  and the controls, and elements refer to node objects. The model keeps values,
  so this sharing becomes equality of the node lists, and an element holds
  copies of its end nodes.
- `range` over a negative count runs zero times (`Input3D.Count`).
- `Input3D.ParseInput` and the theorems about whole files use the corrected
  node lookup `Input3D.NodeAt` (see Findings). `Input3D.ReadInput`,
  `Input3D.ReadElements` and `Input3D.ParseInputAsWritten` keep the lookup as
  written (`Input3D.PyNodeAt`). `Input3D.ParseInputAsWrittenAgrees` relates the
  two readings only where the corrected one succeeds.

## Findings

| source | as written | input that shows it | evidently intended | confidence | as-written member | corrected member |
|---|---|---|---|---|---|---|
| nfem/node.py:85 | `GetDisplacement` returns reference − actual location | a node at (4, 5, 6) updated with ('u', 9): actual (13, 5, 6), `GetDisplacement` gives (−9, 0, 0); the node's own tests expect (9, 0, 0) | actual − reference location | not executed | `Nodes.Node.GetDisplacement`, `Nodes.GetDisplacementSignCounterexample` | `Nodes.Node.Displacement` |
| input3D.py:247-248 | an element's end node is `nodeList[k-1]`, with no check of k | element line "1 0 1 1 1 0 0" with two nodes: node number 0 silently becomes `nodeList[-1]`, the last node | node numbers outside 1..n are rejected (IndexError) | not executed | `Input3D.ParseElementAsWritten`, `Input3D.ZeroNodeIndexCounterexample`, `Input3D.ParseElementAsWrittenSucceeds` | `Input3D.ParseElement`, `Input3D.ParseElementSucceeds` |
