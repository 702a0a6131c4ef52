# Nodal analysis of resistive DC circuits, modelled in Dafny

This project models the `Circuit` class of `nodal.analysis.py`. The class
builds a resistive DC circuit node by node. It then does four things:

- assembles the conductance matrix Y and the current vector I_vec;
- turns a solution vector into a node-voltage map;
- derives one branch current per resistor;
- computes the per-node Kirchhoff current sum reported by `validate_kcl`.

Node values, resistances and currents are Dafny `real`, so the model has no
rounding. The model is functional: every `add_*` call returns a new circuit,
and `validate_kcl` returns its per-node sums instead of printing them.

Modules:

- `Circuits` (circuits.dfy): the records, the ground node `"0"`, and the
  registration operations. Also the invariant they keep: ground first, no
  name twice, every element endpoint registered.
- `Indexing` (indexing.dfy): the non-ground node list, and `node_index`
  built from it.
- `LinAlg` (linalg.dfy): square matrices as `seq<seq<real>>`, adding to one
  entry, the dot product, and the hypothesis Y·V = b (`Solves`).
- `Stamping` (stamping.dfy): the resistor stamp, Y as a left fold of stamps
  from the zero matrix, and I_vec as a left fold of source updates from the
  zero vector. Also a reference definition of a stamp: entry (p, q) of
  g·(e_a − e_b)(e_a − e_b)ᵀ, where e of ground is the zero vector.
- `Analysis` (analysis.dfy): the voltage map, `branch_currents`, and the
  KCL report. Also the identity tying the report to Y·V and I_vec.
- `Demo` (demo.dfy): the program's own example circuit, worked through the
  model.

The linear solve itself (`np.linalg.solve`) is not modelled. In its place, a
vector `vals` is taken as given, and where it matters the hypothesis
`Solves(Y, vals, I_vec)` is stated.

The model follows the code as written, including its sign convention. A
Kirchhoff current check is expected to report 0 at every node of a solved
circuit. This code reports −2 × I at a node with injected current I instead.
The code subtracts each source's current twice. It does so once when it fills
I_vec (line 55) and once more in the KCL sum (line 96). So at a solution, the
sum at a node is minus twice the current injected there. The example solves
to V1 = −10/3 and V2 = −25/3. Its report is 0 at node 1 and −4 at node 2.
See "## Findings".

## Model

| member | source | states |
|---|---|---|
| `Circuits.Empty` | nodal.analysis.py:4-7 | A new circuit knows only ground and has no elements. It satisfies the registration invariant. |
| `Circuits.AddNode` | nodal.analysis.py:9-11 | The name is known afterwards. A known name leaves the circuit unchanged. A new name is appended at the end. The element lists are untouched. The invariant is preserved. |
| `Circuits.AddNodeIdempotent` | nodal.analysis.py:9-11 | Registering the same name twice is the same as registering it once. |
| `Circuits.AddResistor` | nodal.analysis.py:13-16 | Both endpoints are registered: an unseen n1 is appended first, then an unseen n2 (once, if n2 = n1). Exactly one record `(n1, n2, R)` is appended to the resistors. Sources are unchanged. The invariant is preserved. |
| `Circuits.AddCurrentSource` | nodal.analysis.py:18-20 | The node is registered: appended at the end if unseen, otherwise the node list is unchanged. Exactly one record `(node, I)` is appended to the sources. Resistors are unchanged. The invariant is preserved. |
| `Circuits.ConstructWellFormed` | nodal.analysis.py:4-20 | Any sequence of `add_node` / `add_resistor` / `add_current_source` calls on a fresh circuit gives a circuit with ground first, no name twice, and every endpoint registered. |
| `Indexing.MainNodes` | nodal.analysis.py:23-26 | The non-ground list is no longer than the node list and holds no ground entry. |
| `Indexing.NodeIndex` | nodal.analysis.py:22-31 | Ground gets no index. Every key is sent to a position of the non-ground list that holds that key. |
| `Indexing.IndexOf` | nodal.analysis.py:29-31 | Every key of the built map is the name stored at the position it maps to. |
| `Indexing.IndexOfCovers` | nodal.analysis.py:29-31 | Every name of the list is a key of the built map. |
| `Indexing.IndexOfPositions` | nodal.analysis.py:29-31 | For a list without duplicates, each name at position k is a key mapped to k. |
| `Indexing.MainNodesOfWellFormed` | nodal.analysis.py:23-26 | In a well-formed circuit, the non-ground node list is exactly the node list after ground, in registration order. |
| `Indexing.NodeIndexPositions` | nodal.analysis.py:22-31 | The k-th registered node (k ≥ 1) gets index k − 1. |
| `Indexing.NodeIndexInverse` | nodal.analysis.py:22-31 | Every index is below N and names the node registered at that position + 1. Distinct names get distinct indices. |
| `Indexing.NodeIndexBijection` | nodal.analysis.py:22-31 | `node_index` is a bijection from the non-ground nodes onto 0..N−1 in registration order. Its keys are exactly the registered non-ground names, and ground has no index. |
| `LinAlg.ZeroMatrix` | nodal.analysis.py:33 | Y starts as an N×N matrix of zeros. |
| `LinAlg.Zeros` | nodal.analysis.py:34 | I_vec starts as N zeros. |
| `LinAlg.AddAtEntry` | nodal.analysis.py:41-44 | Updating `Y[i, j] = Y[i, j] + d` changes entry (i, j) by d and leaves every other entry as it was. |
| `Stamping.Stamp` | nodal.analysis.py:36-50 | Each of the three stamping branches, and the silent ground–ground case, keeps Y N×N and adds exactly g·Inc(p)·Inc(q) to entry (p, q), with g = 1/R and Inc = e_n1 − e_n2. |
| `Stamping.StampBothNonGround` | nodal.analysis.py:38-44 | Between two distinct non-ground nodes i and j, the stamp adds g at (i, i) and (j, j) and −g at (i, j) and (j, i). Every entry outside rows and columns i, j is untouched. |
| `Stamping.StampOneGround` | nodal.analysis.py:45-50 | With one end at ground (either end), the stamp adds g at (m, m) for the other end m, and nothing elsewhere. |
| `Stamping.StampGroundGround` | nodal.analysis.py:36-50 | A resistor from ground to ground falls through every branch and leaves Y unchanged. |
| `Stamping.StampSelfLoop` | nodal.analysis.py:38-44 | A resistor from a node to itself adds +2g and −2g to the same entry, so Y is unchanged. |
| `Stamping.BuildY` | nodal.analysis.py:33-50 | Y is N×N, and every entry is the sum over all resistors of their reference stamps g·Inc(p)·Inc(q). |
| `Stamping.BuildYSymmetric` | nodal.analysis.py:33-50 | Y is N×N and symmetric, whatever resistors are stamped. |
| `Stamping.StampSource` | nodal.analysis.py:52-55 | A source at a non-ground node lowers that node's entry by its current. Every other entry is unchanged, and a source at ground changes nothing. |
| `Stamping.BuildI` | nodal.analysis.py:34-55 | I_vec has N entries. Entry i is minus the total current of the sources whose node has index i. |
| `Stamping.BuildICurrent` | nodal.analysis.py:52-55 | I_vec at a node's index is minus the total current of all sources at that node. |
| `Stamping.BuildIIgnoresGround` | nodal.analysis.py:52-55 | Dropping the sources at ground does not change I_vec. |
| `Stamping.BuildIScales` | nodal.analysis.py:52-55 | Scaling every source current by k scales every entry of I_vec by k. |
| `Stamping.WellFormedResolves` | nodal.analysis.py:36-55 | In a well-formed circuit, every `node_index[...]` lookup made while stamping succeeds and is below N: no KeyError is possible. |
| `Stamping.NodeCurrents` | nodal.analysis.py:52-55 | In a well-formed circuit, I_vec[k−1] is minus the total source current at the k-th registered node. |
| `Stamping.BuildSystem` | nodal.analysis.py:22-57 | `build_y_matrix` returns the circuit's `node_index`, under which every resistor endpoint resolves. Y is N×N and symmetric, and each entry is the sum of the resistors' reference stamps. I_vec has length N and holds minus the source total at each node. |
| `Stamping.BuildInjectionNegates` | nodal.analysis.py:52-55 | The right-hand side with each source current added is the entrywise negation of I_vec as written. |
| `Stamping.InjectionOf` | nodal.analysis.py:52-55 | The added-sign right-hand side holds, at index k−1, the total current injected into the k-th registered node. |
| `Analysis.VoltageDict` | nodal.analysis.py:63-69 | The map's keys are the registered nodes plus the indexed names. An indexed name gets its solution entry. Every other name gets 0.0. |
| `Analysis.SolveCircuit` | nodal.analysis.py:59-71 | The returned map has exactly the circuit's nodes as keys, ground at 0.0, and the k-th registered node at solution entry k − 1. |
| `Analysis.Current` | nodal.analysis.py:76-78 | The current I through a resistor satisfies Ohm's law I·R = V[n1] − V[n2]. |
| `Analysis.BranchCurrents` | nodal.analysis.py:73-80 | There is one record per resistor, in declaration order, with the resistor's own endpoints and current (V[n1] − V[n2]) / R. |
| `Analysis.BranchCurrentsAntisymmetric` | nodal.analysis.py:73-80 | Swapping the endpoints of every resistor negates every branch current. |
| `Analysis.SubtractSources` | nodal.analysis.py:94-96 | The source loop lowers the running total by exactly the total current of the sources at the node. |
| `Analysis.KclSum` | nodal.analysis.py:85-96 | A node's reported value is the signed sum of the branch currents at it, minus the total current of the sources at it. |
| `Analysis.KclReport` | nodal.analysis.py:82-96 | In a well-formed circuit, the report has N entries, and entry k pairs the (k+1)-th registered node with its net current. |
| `Analysis.KclReportOf` | nodal.analysis.py:83-96 | There is one entry per non-ground node, in node order, pairing the node with its branch-and-source sum. |
| `Analysis.BranchSumIsRowProduct` | nodal.analysis.py:87-92 | The signed sum of branch currents at a node equals that node's row of Y times the voltage vector. |
| `Analysis.KclIdentity` | nodal.analysis.py:82-96 | For every solution vector, the report has N entries. Entry k belongs to the k-th non-ground node and equals (Y·V)_k + I_vec[k]. |
| `Analysis.KclAtSolution` | nodal.analysis.py:82-96 | When Y·V = I_vec, the report at each node is −2 × the current injected there. It is 0 at every node without a source. |
| `Analysis.KclAtInjectionSolution` | nodal.analysis.py:82-96 | When Y·V equals the added-sign right-hand side, the report is 0 at every node. |
| `Analysis.SourceTotalAbsent` | nodal.analysis.py:94-96 | A node with no source has source total 0. |
| `Demo.DemoConstruct` | nodal.analysis.py:102-106 | The example's four calls register nodes 0, 1, 2 and record the three resistors and the 2 A source. |
| `Demo.DemoSystem` | nodal.analysis.py:22-57 | The example's Y is [[1/6, −1/15], [−1/15, 4/15]] and its I_vec is [0, −2]. |
| `Demo.DemoSolution` | nodal.analysis.py:59-71 | V1 = −10/3 and V2 = −25/3 solve the example's system. The map {0: 0, 1: −10/3, 2: −25/3} is the voltage map built from them. |
| `Demo.DemoBranches` | nodal.analysis.py:73-80 | The example's branch currents are −1/3 A, −5/3 A and 1/3 A. |
| `Demo.DemoReport` | nodal.analysis.py:82-96 | The example's report is [(1, 0), (2, −4)]. |
| `Demo.DemoInjectionSolution` | nodal.analysis.py:52-55 | With the sources added, the example solves to V1 = 10/3 and V2 = 25/3. |
| `Demo.DemoInjectionReport` | nodal.analysis.py:82-96 | With those voltages the example's report is [(1, 0), (2, 0)]. |

## Left out

- `np.linalg.solve` (line 61) is a foreign library call. It is replaced by a
  given vector `vals`, with the hypothesis Y·vals = I_vec where a property
  needs it. A singular Y, and the exception numpy raises for it, are not
  modelled.
- Floating point: every quantity is an exact `real`. The model does not
  cover rounding in 1.0/R, the stamp sums or the solve. The report values
  are exact, so no tolerance is needed to compare them with 0.
- `total_i` starts as the integer 0 (line 87). In Python it becomes a float
  at the first addition. The model starts at 0.0, which gives the same value.
- The `print` in `validate_kcl` (line 98), and the whole `__main__` block
  (lines 101-120) with its `round` formatting. The example's circuit and
  values are stated as lemmas in `Demo` instead.
- Stamping.BuildSystem: R = 0 raises ZeroDivisionError at line 37. In the
  model, every resistance is required to be non-zero (`NonZero`).
- Analysis.BranchCurrents: a voltage map missing a resistor endpoint raises
  KeyError at lines 76-77. In the model this is the precondition
  `EndpointsIn`. A map built by `SolveCircuit` for the same circuit always
  meets it.
- A `node_index` lookup that would raise KeyError at lines 39-54 cannot
  happen in a circuit built by the `add_*` calls (`WellFormedResolves`). The
  stamping functions therefore take `Resolves` as a precondition and do not
  model an error path.
- Indexing.MainNodes: the contract only says that no entry is ground. It does
  not say that every non-ground name is kept, in order; for a well-formed
  node list that is `MainNodesOfWellFormed`. A coverage clause on this hot
  function makes several downstream proofs exceed the verifier's resource limit.
- Indexing.IndexOf: the contract only says that every key is correct. It does
  not say that every listed name is a key; that is `IndexOfCovers`. The
  reason is verifier cost, as for `MainNodes`.
- Indexing.NodeIndex: the contract only says that ground has no key and that
  every key is correct. It does not say that every non-ground node gets a key;
  for a well-formed node list that is `NodeIndexBijection`. The reason is
  verifier cost, as for `MainNodes`.
- Analysis.VoltageDict: the order in which the second loop visits the
  `node_index` keys is not modelled. Each key is written exactly once, so the
  order does not change the result.

## Findings

| source | as written | input that shows it | evidently intended | confidence | as-written member | corrected member |
|---|---|---|---|---|---|---|
| nodal.analysis.py:55 | `I_vec[i] = I_vec[i] - I`. Then `validate_kcl` subtracts `I_src` again (line 96), so at a solution the reported sum at a node is −2 × its injected current. | The example circuit (lines 102-106): it solves to V1 = −10/3 and V2 = −25/3, and node 2 reports −4. | The right-hand side holds +I (Y·V = injected currents). The KCL sum is then 0 at every node, and the example gives V1 = 10/3 and V2 = 25/3. | high; not executed | `Demo.DemoReport` | `Analysis.KclAtInjectionSolution` |

The rest of the model keeps the code as written: `BuildSystem` and `BuildI`
use −I. The corrected right-hand side is `Stamping.InjectionOf`, built with
+I. `Stamping.BuildInjectionNegates` proves it is exactly −I_vec. The report
at a solution of the corrected system is proved to be 0 at every node, both
in general (`Analysis.KclAtInjectionSolution`) and for the example
(`Demo.DemoInjectionReport`).
