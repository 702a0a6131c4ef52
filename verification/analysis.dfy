/**
 Everything after the linear solve: the node-voltage map built from a
 solution vector, the branch current of every resistor, and the per-node
 KCL report. The solve itself is not modelled; a solution vector `vals` is
 taken as given, and where it matters the hypothesis Y·vals = I_vec is stated.
 */
module Analysis {
  import opened Circuits
  import opened Indexing
  import opened LinAlg
  import opened Stamping

  type Voltages = map<string, real>

  /** The current through one resistor, flowing from `n1` to `n2`. */
  datatype Branch = Branch(n1: string, n2: string, i: real)

  // ---- Voltage map ----

  /**
   Builds the voltage map as the solver's caller does: every node first maps
   to 0.0, then every indexed node is overwritten with its solution entry.
   */
  method VoltageDict(nodes: seq<string>, idx: Index, vals: Vector) returns (v: Voltages)
    requires forall x :: x in idx ==> idx[x] < |vals|
    ensures forall x :: x in v <==> x in nodes || x in idx
    ensures forall x :: x in v ==> v[x] == if x in idx then vals[idx[x]] else 0.0
  {
    v := map[];
    var k := 0;
    while k < |nodes|
      invariant 0 <= k <= |nodes|
      invariant v.Keys == set x | x in nodes[..k]
      invariant forall x :: x in v ==> v[x] == 0.0
    {
      assert nodes[..k + 1] == nodes[..k] + [nodes[k]];
      v := v[nodes[k] := 0.0];
      k := k + 1;
    }
    assert nodes[..k] == nodes;
    var rest := idx.Keys;
    while rest != {}
      invariant rest <= idx.Keys
      invariant v.Keys == (set x | x in nodes) + (idx.Keys - rest)
      invariant forall x :: x in v ==> v[x] == if x in idx && x !in rest then vals[idx[x]] else 0.0
      decreases rest
    {
      var x :| x in rest;
      v := v[x := vals[idx[x]]];
      rest := rest - {x};
    }
  }

  /** `v` is the voltage map of circuit `c` for the solution vector `vals`. */
  ghost predicate VoltagesOf(c: Circuit, vals: Vector, v: Voltages) {
    && (forall x :: x in v <==> x in c.nodes)
    && Ground in v && v[Ground] == 0.0
    && forall k :: 1 <= k < |c.nodes| && k - 1 < |vals| ==> c.nodes[k] in v && v[c.nodes[k]] == vals[k - 1]
  }

  /**
   The node-voltage half of solving. The solve is not modelled, so any vector
   `vals` of length N is accepted in place of its result; the map built from
   it has exactly the circuit's nodes as keys, ground at 0.0 and the k-th
   registered node at vals[k - 1].
   */
  method SolveCircuit(c: Circuit, vals: Vector) returns (v: Voltages)
    requires WellFormed(c) && NonZero(c.resistors)
    requires |vals| == |c.nodes| - 1
    ensures VoltagesOf(c, vals, v)
  {
    NodeIndexInverse(c.nodes);
    v := VoltageDict(c.nodes, NodeIndex(c.nodes), vals);
    VoltageDictOfNodeIndex(c, NodeIndex(c.nodes), vals, v);
  }

  /** The generic voltage dictionary, specialised to a well-formed circuit's own node index. */
  lemma VoltageDictOfNodeIndex(c: Circuit, idx: Index, vals: Vector, v: Voltages)
    requires WellFormed(c) && |vals| == |c.nodes| - 1 && idx == NodeIndex(c.nodes)
    requires forall x :: x in idx ==> idx[x] < |vals|
    requires forall x :: x in v <==> x in c.nodes || x in idx
    requires forall x :: x in v ==> v[x] == if x in idx then vals[idx[x]] else 0.0
    ensures VoltagesOf(c, vals, v)
  {
    assert forall x :: x in v <==> x in c.nodes by {
      NodeIndexInverse(c.nodes);
      forall x ensures x in v <==> x in c.nodes {
        if x in idx {
          assert c.nodes[idx[x] + 1] == x;
        }
      }
    }
    assert Ground in v && v[Ground] == 0.0 by {
      assert c.nodes[0] == Ground && Ground !in idx;
    }
    forall k | 1 <= k < |c.nodes| && k - 1 < |vals| ensures c.nodes[k] in v && v[c.nodes[k]] == vals[k - 1] {
      NodeIndexPositions(c.nodes);
      assert c.nodes[k] in idx && idx[c.nodes[k]] == k - 1;
    }
  }

  // ---- Branch currents ----

  predicate EndpointsIn(rs: seq<Resistor>, v: Voltages) {
    forall k :: 0 <= k < |rs| ==> rs[k].n1 in v && rs[k].n2 in v
  }

  /** Ohm's law: the current from n1 to n2 through one resistor, I·R = V[n1] - V[n2]. */
  function Current(r: Resistor, v: Voltages): (i: real)
    requires r.r != 0.0 && r.n1 in v && r.n2 in v
    ensures i * r.r == v[r.n1] - v[r.n2]
  {
    (v[r.n1] - v[r.n2]) / r.r
  }

  /**
   One record per resistor, in declaration order, with the resistor's
   endpoints and the current that Ohm's law gives for the voltages in `v`.
   */
  function BranchCurrents(rs: seq<Resistor>, v: Voltages): (bs: seq<Branch>)
    requires NonZero(rs) && EndpointsIn(rs, v)
    ensures |bs| == |rs|
    ensures forall k :: 0 <= k < |rs| ==> bs[k] == Branch(rs[k].n1, rs[k].n2, Current(rs[k], v))
    decreases |rs|
  {
    if |rs| == 0 then []
    else
      var r := rs[|rs| - 1];
      BranchCurrents(rs[..|rs| - 1], v) + [Branch(r.n1, r.n2, Current(r, v))]
  }

  function Swap(r: Resistor): Resistor {
    Resistor(r.n2, r.n1, r.r)
  }

  /** Swapping the endpoints of every resistor negates every branch current. */
  lemma BranchCurrentsAntisymmetric(rs: seq<Resistor>, v: Voltages)
    requires NonZero(rs) && EndpointsIn(rs, v)
    ensures var sw := seq(|rs|, k requires 0 <= k < |rs| => Swap(rs[k]));
      NonZero(sw) && EndpointsIn(sw, v)
      && forall k :: 0 <= k < |rs| ==> BranchCurrents(sw, v)[k].i == -BranchCurrents(rs, v)[k].i
  {
    var sw := seq(|rs|, k requires 0 <= k < |rs| => Swap(rs[k]));
    var a := BranchCurrents(rs, v);
    var b := BranchCurrents(sw, v);
    forall k | 0 <= k < |rs| ensures b[k].i == -a[k].i {
      CurrentSwap(rs[k], v);
    }
  }

  /** Reversing a resistor's endpoints negates its current. */
  lemma CurrentSwap(r: Resistor, v: Voltages)
    requires r.r != 0.0 && r.n1 in v && r.n2 in v
    ensures Current(Swap(r), v) == -Current(r, v)
  {
    assert v[r.n2] - v[r.n1] == -(v[r.n1] - v[r.n2]);
  }

  // ---- KCL report ----

  /** One branch's effect on a node's running total: + when it leaves the node, - when it enters. */
  function KclStep(total: real, b: Branch, node: string): real {
    var t := if b.n1 == node then total + b.i else total;
    if b.n2 == node then t - b.i else t
  }

  function BranchSum(bs: seq<Branch>, node: string): real
    decreases |bs|
  {
    if |bs| == 0 then 0.0 else KclStep(BranchSum(bs[..|bs| - 1], node), bs[|bs| - 1], node)
  }

  /** Subtracts, in order, the current of every source at `node` from `total`. */
  function SubtractSources(total: real, ss: seq<Source>, node: string): (t: real)
    ensures t == total - SourceTotal(ss, node)
    decreases |ss|
  {
    if |ss| == 0 then total
    else
      var t := SubtractSources(total, ss[..|ss| - 1], node);
      if ss[|ss| - 1].node == node then t - ss[|ss| - 1].i else t
  }

  /** The net current reported for one node: branch currents out, minus the sources' total in. */
  function KclSum(c: Circuit, v: Voltages, node: string): (t: real)
    requires NonZero(c.resistors) && EndpointsIn(c.resistors, v)
    ensures t == BranchSum(BranchCurrents(c.resistors, v), node) - SourceTotal(c.sources, node)
  {
    SubtractSources(BranchSum(BranchCurrents(c.resistors, v), node), c.sources, node)
  }

  /** The report for the nodes `nodes`, skipping ground. */
  function KclReportOf(c: Circuit, v: Voltages, nodes: seq<string>): (rep: seq<(string, real)>)
    requires NonZero(c.resistors) && EndpointsIn(c.resistors, v)
    ensures |rep| == |MainNodes(nodes)|
    ensures forall k :: 0 <= k < |rep| ==> rep[k] == (MainNodes(nodes)[k], KclSum(c, v, MainNodes(nodes)[k]))
    decreases |nodes|
  {
    if |nodes| == 0 then []
    else
      var rest := KclReportOf(c, v, nodes[..|nodes| - 1]);
      var node := nodes[|nodes| - 1];
      if node == Ground then rest else rest + [(node, KclSum(c, v, node))]
  }

  /**
   One (node, net current) pair per non-ground node, in registration order:
   in a well-formed circuit, entry k belongs to the (k + 1)-th registered node.
   */
  function KclReport(c: Circuit, v: Voltages): (rep: seq<(string, real)>)
    requires NonZero(c.resistors) && EndpointsIn(c.resistors, v)
    ensures WellFormed(c) ==> |rep| == |c.nodes| - 1
    ensures WellFormed(c) ==> forall k :: 0 <= k < |rep| ==> rep[k] == (c.nodes[k + 1], KclSum(c, v, c.nodes[k + 1]))
  {
    if WellFormed(c) then
      MainNodesOfWellFormed(c.nodes);
      KclReportOf(c, v, c.nodes)
    else
      KclReportOf(c, v, c.nodes)
  }

  // ---- The KCL identity ----

  /** The voltage of a name read from the solution vector, with ground at 0. */
  function Volt(idx: Index, vals: Vector, name: string): real
    requires Resolves(idx, |vals|, name)
  {
    if name == Ground then 0.0 else vals[idx[name]]
  }

  /**
   The current a resistor carries out of matrix position k when the node
   voltages are read from `vals`: + when it leaves from k, - when it enters k.
   */
  function Outflow(idx: Index, r: Resistor, vals: Vector, k: nat): real
    requires r.r != 0.0 && Resolves(idx, |vals|, r.n1) && Resolves(idx, |vals|, r.n2)
  {
    var cur := Conductance(r) * (Volt(idx, vals, r.n1) - Volt(idx, vals, r.n2));
    (if k == Pos(idx, r.n1) then cur else 0.0) - (if k == Pos(idx, r.n2) then cur else 0.0)
  }

  /** The four entry updates of a two-node stamp, seen through row k of Y·vals. */
  lemma StampRowBoth(y: Matrix, i: nat, j: nat, g: real, vals: Vector, k: nat)
    requires IsSquare(y, |vals|) && i < |vals| && j < |vals| && k < |vals|
    ensures Dot(AddAt(AddAt(AddAt(AddAt(y, i, i, g), j, j, g), i, j, -g), j, i, -g)[k], vals)
         == Dot(y[k], vals) + (if k == i then g * (vals[i] - vals[j]) else 0.0) - (if k == j then g * (vals[i] - vals[j]) else 0.0)
  {
    var y1 := AddAt(y, i, i, g);
    var y2 := AddAt(y1, j, j, g);
    var y3 := AddAt(y2, i, j, -g);
    AddAtRow(y, i, i, g, vals, k);
    AddAtRow(y1, j, j, g, vals, k);
    AddAtRow(y2, i, j, -g, vals, k);
    AddAtRow(y3, j, i, -g, vals, k);
    var vi, vj := vals[i], vals[j];
    var d := Dot(y[k], vals);
    var d4 := Dot(AddAt(y3, j, i, -g)[k], vals);
    if k == i && k == j {
      assert d4 == d + g * vi + g * vj + (-g) * vj + (-g) * vi;
    } else if k == i {
      assert d4 == d + g * vi + (-g) * vj;
      assert g * vi + (-g) * vj == g * (vi - vj);
    } else if k == j {
      assert d4 == d + g * vj + (-g) * vi;
      assert g * vj + (-g) * vi == -(g * (vi - vj));
    } else {
      assert d4 == d;
    }
  }

  /** Stamping one resistor changes row k of Y·vals by exactly the resistor's outflow at k. */
  lemma StampRow(y: Matrix, idx: Index, r: Resistor, vals: Vector, k: nat)
    requires IsSquare(y, |vals|) && r.r != 0.0 && k < |vals|
    requires Resolves(idx, |vals|, r.n1) && Resolves(idx, |vals|, r.n2)
    ensures Dot(Stamp(y, idx, r)[k], vals) == Dot(y[k], vals) + Outflow(idx, r, vals, k)
  {
    var g := Conductance(r);
    if r.n1 != Ground && r.n2 != Ground {
      StampRowBoth(y, idx[r.n1], idx[r.n2], g, vals, k);
    } else if r.n1 != Ground {
      AddAtRow(y, idx[r.n1], idx[r.n1], g, vals, k);
    } else if r.n2 != Ground {
      AddAtRow(y, idx[r.n2], idx[r.n2], g, vals, k);
      assert g * (0.0 - vals[idx[r.n2]]) == -(g * vals[idx[r.n2]]);
    }
  }

  /** `v` reads the solution vector through the index, and ground is at 0. */
  predicate Agrees(v: Voltages, idx: Index, vals: Vector) {
    && Ground in v && v[Ground] == 0.0
    && forall x :: x in idx ==> x in v && idx[x] < |vals| && v[x] == vals[idx[x]]
  }

  /** Net branch current out of a node equals that node's row of Y times the voltages. */
  lemma {:induction false} BranchSumIsRowProduct(n: nat, idx: Index, rs: seq<Resistor>, v: Voltages, vals: Vector, node: string)
    requires ResistorsResolve(idx, n, rs) && NonZero(rs) && EndpointsIn(rs, v)
    requires |vals| == n && Injective(idx) && Agrees(v, idx, vals)
    requires node != Ground && node in idx && idx[node] < n
    ensures BranchSum(BranchCurrents(rs, v), node) == Dot(BuildY(n, idx, rs)[idx[node]], vals)
    decreases |rs|
  {
    if |rs| == 0 {
      DotToZero(ZeroMatrix(n)[idx[node]], vals, n);
    } else {
      BranchSumIsRowProduct(n, idx, rs[..|rs| - 1], v, vals, node);
      RowProductStep(n, idx, rs, v, vals, node);
    }
  }

  /** The inductive step: appending one resistor keeps branch sum and row product equal. */
  lemma RowProductStep(n: nat, idx: Index, rs: seq<Resistor>, v: Voltages, vals: Vector, node: string)
    requires |rs| > 0
    requires ResistorsResolve(idx, n, rs) && NonZero(rs) && EndpointsIn(rs, v)
    requires |vals| == n && Injective(idx) && Agrees(v, idx, vals)
    requires node != Ground && node in idx && idx[node] < n
    requires BranchSum(BranchCurrents(rs[..|rs| - 1], v), node) == Dot(BuildY(n, idx, rs[..|rs| - 1])[idx[node]], vals)
    ensures BranchSum(BranchCurrents(rs, v), node) == Dot(BuildY(n, idx, rs)[idx[node]], vals)
  {
    var k := idx[node];
    var r := rs[|rs| - 1];
    var b := Branch(r.n1, r.n2, Current(r, v));
    var t := BranchSum(BranchCurrents(rs[..|rs| - 1], v), node);
    BranchSumSnoc(rs, v, node);
    RowSnoc(n, idx, rs, vals, k);
    BranchStep(idx, r, b, v, vals, node, t);
  }

  /** Appending a resistor applies one more KclStep to the branch sum. */
  lemma BranchSumSnoc(rs: seq<Resistor>, v: Voltages, node: string)
    requires |rs| > 0 && NonZero(rs) && EndpointsIn(rs, v)
    ensures var r := rs[|rs| - 1];
      BranchSum(BranchCurrents(rs, v), node)
      == KclStep(BranchSum(BranchCurrents(rs[..|rs| - 1], v), node), Branch(r.n1, r.n2, Current(r, v)), node)
  {
    var r := rs[|rs| - 1];
    var prev := BranchCurrents(rs[..|rs| - 1], v);
    var bs := BranchCurrents(rs, v);
    assert bs == prev + [Branch(r.n1, r.n2, Current(r, v))];
    assert bs[..|rs| - 1] == prev;
  }

  /** Appending a resistor adds its outflow to every row product. */
  lemma RowSnoc(n: nat, idx: Index, rs: seq<Resistor>, vals: Vector, k: nat)
    requires |rs| > 0 && ResistorsResolve(idx, n, rs) && NonZero(rs)
    requires |vals| == n && k < n
    ensures Dot(BuildY(n, idx, rs)[k], vals) == Dot(BuildY(n, idx, rs[..|rs| - 1])[k], vals) + Outflow(idx, rs[|rs| - 1], vals, k)
  {
    StampRow(BuildY(n, idx, rs[..|rs| - 1]), idx, rs[|rs| - 1], vals, k);
  }

  /** One branch moves a node's running total by the resistor's outflow at the node's position. */
  lemma BranchStep(idx: Index, r: Resistor, b: Branch, v: Voltages, vals: Vector, node: string, t: real)
    requires r.r != 0.0 && Resolves(idx, |vals|, r.n1) && Resolves(idx, |vals|, r.n2)
    requires r.n1 in v && r.n2 in v && b == Branch(r.n1, r.n2, Current(r, v))
    requires Injective(idx) && Agrees(v, idx, vals)
    requires node != Ground && node in idx && idx[node] < |vals|
    ensures KclStep(t, b, node) == t + Outflow(idx, r, vals, idx[node])
  {
    var k := idx[node];
    var g := Conductance(r);
    var dv := v[r.n1] - v[r.n2];
    assert dv == Volt(idx, vals, r.n1) - Volt(idx, vals, r.n2);
    assert b.i == g * dv by {
      assert b.i == dv / r.r;
      assert g * r.r == 1.0;
      assert (g * dv) * r.r == dv * (g * r.r);
    }
    assert (r.n1 == node) == (Pos(idx, r.n1) == k);
    assert (r.n2 == node) == (Pos(idx, r.n2) == k);
  }

  /**
   The KCL identity: for every voltage map built from a vector `vals`, the
   report at the k-th non-ground node is (Y·vals)_k + I_vec[k].
   */
  lemma KclIdentity(c: Circuit, vals: Vector, v: Voltages)
    requires WellFormed(c) && NonZero(c.resistors)
    requires |vals| == |c.nodes| - 1 && VoltagesOf(c, vals, v)
    ensures |KclReport(c, v)| == |c.nodes| - 1
    ensures forall k :: 0 <= k < |c.nodes| - 1 ==>
      KclReport(c, v)[k].0 == c.nodes[k + 1]
      && KclReport(c, v)[k].1 == Dot(BuildSystem(c).y[k], vals) + BuildSystem(c).iv[k]
  {
    MainNodesOfWellFormed(c.nodes);
    VoltagesAgree(c, vals, v);
    forall k | 0 <= k < |c.nodes| - 1
      ensures KclReport(c, v)[k].1 == Dot(BuildSystem(c).y[k], vals) + BuildSystem(c).iv[k]
    {
      KclAtPosition(c, vals, v, k);
    }
  }

  /** The voltage map of a circuit reads the solution vector through the node index. */
  lemma VoltagesAgree(c: Circuit, vals: Vector, v: Voltages)
    requires WellFormed(c) && |vals| == |c.nodes| - 1 && VoltagesOf(c, vals, v)
    ensures Agrees(v, NodeIndex(c.nodes), vals)
  {
    var idx := NodeIndex(c.nodes);
    NodeIndexInverse(c.nodes);
    forall x | x in idx ensures x in v && idx[x] < |vals| && v[x] == vals[idx[x]] {
      assert c.nodes[idx[x] + 1] == x;
    }
  }

  /** The KCL identity at the k-th non-ground node. */
  lemma KclAtPosition(c: Circuit, vals: Vector, v: Voltages, k: nat)
    requires WellFormed(c) && NonZero(c.resistors)
    requires |vals| == |c.nodes| - 1 && EndpointsIn(c.resistors, v)
    requires Agrees(v, NodeIndex(c.nodes), vals)
    requires MainNodes(c.nodes) == c.nodes[1..]
    requires k < |c.nodes| - 1
    ensures KclReport(c, v)[k].1 == Dot(BuildSystem(c).y[k], vals) + BuildSystem(c).iv[k]
  {
    var n := |c.nodes| - 1;
    var idx := NodeIndex(c.nodes);
    var node := c.nodes[k + 1];
    assert node != Ground && node in idx && idx[node] == k by {
      NodeIndexPositions(c.nodes);
      assert c.nodes[0] != c.nodes[k + 1];
    }
    assert ResistorsResolve(idx, n, c.resistors) && Injective(idx) by {
      WellFormedResolves(c);
      NodeIndexInverse(c.nodes);
    }
    assert KclReport(c, v)[k].1 == KclSum(c, v, node);
    assert BranchSum(BranchCurrents(c.resistors, v), node) == Dot(BuildY(n, idx, c.resistors)[k], vals) by {
      BranchSumIsRowProduct(n, idx, c.resistors, v, vals, node);
    }
    assert BuildSystem(c).y == BuildY(n, idx, c.resistors) && BuildSystem(c).iv[k] == -SourceTotal(c.sources, node) by {
      SystemRow(c, k);
    }
  }

  /** Row k of the assembled system, in terms of the folds that build it. */
  lemma SystemRow(c: Circuit, k: nat)
    requires WellFormed(c) && NonZero(c.resistors) && k < |c.nodes| - 1
    ensures ResistorsResolve(NodeIndex(c.nodes), |c.nodes| - 1, c.resistors)
    ensures BuildSystem(c).y == BuildY(|c.nodes| - 1, NodeIndex(c.nodes), c.resistors)
    ensures BuildSystem(c).iv[k] == -SourceTotal(c.sources, c.nodes[k + 1])
  {
    WellFormedResolves(c);
  }

  /** No source in `ss` is attached to `node`. */
  predicate NoSourceAt(ss: seq<Source>, node: string) {
    forall j :: 0 <= j < |ss| ==> ss[j].node != node
  }

  /** A node without sources has total injected current zero. */
  lemma {:induction false} SourceTotalAbsent(ss: seq<Source>, node: string)
    requires NoSourceAt(ss, node)
    ensures SourceTotal(ss, node) == 0.0
    decreases |ss|
  {
    if |ss| > 0 {
      SourceTotalAbsent(ss[..|ss| - 1], node);
    }
  }

  /**
   At a solution of Y·vals = I_vec the report is 2·I_vec[k], that is minus
   twice the current injected at the node: zero only where no source is.
   */
  lemma KclAtSolution(c: Circuit, vals: Vector, v: Voltages)
    requires WellFormed(c) && NonZero(c.resistors)
    requires |vals| == |c.nodes| - 1 && VoltagesOf(c, vals, v)
    requires Solves(BuildSystem(c).y, vals, BuildSystem(c).iv)
    ensures |KclReport(c, v)| == |c.nodes| - 1
    ensures forall k :: 0 <= k < |c.nodes| - 1 ==>
      KclReport(c, v)[k].1 == -2.0 * SourceTotal(c.sources, c.nodes[k + 1])
    ensures forall k :: 0 <= k < |c.nodes| - 1 && NoSourceAt(c.sources, c.nodes[k + 1]) ==>
      KclReport(c, v)[k].1 == 0.0
  {
    forall k | 0 <= k < |c.nodes| - 1
      ensures KclReport(c, v)[k].1 == -2.0 * SourceTotal(c.sources, c.nodes[k + 1])
      ensures NoSourceAt(c.sources, c.nodes[k + 1]) ==> KclReport(c, v)[k].1 == 0.0
    {
      KclAtSolutionEntry(c, vals, v, k);
    }
  }

  /** One node of KclAtSolution: (Y·vals)_k = I_vec[k], so the report is twice I_vec[k]. */
  lemma KclAtSolutionEntry(c: Circuit, vals: Vector, v: Voltages, k: nat)
    requires WellFormed(c) && NonZero(c.resistors)
    requires |vals| == |c.nodes| - 1 && VoltagesOf(c, vals, v)
    requires Solves(BuildSystem(c).y, vals, BuildSystem(c).iv)
    requires k < |c.nodes| - 1
    ensures KclReport(c, v)[k].1 == -2.0 * SourceTotal(c.sources, c.nodes[k + 1])
    ensures NoSourceAt(c.sources, c.nodes[k + 1]) ==> KclReport(c, v)[k].1 == 0.0
  {
    MainNodesOfWellFormed(c.nodes);
    VoltagesAgree(c, vals, v);
    KclAtPosition(c, vals, v, k);
    if NoSourceAt(c.sources, c.nodes[k + 1]) {
      SourceTotalAbsent(c.sources, c.nodes[k + 1]);
    }
  }

  /**
   With the sources added into the right-hand side, a solution of
   Y·vals = InjectionOf(c) makes the report zero at every node.
   */
  lemma KclAtInjectionSolution(c: Circuit, vals: Vector, v: Voltages)
    requires WellFormed(c) && NonZero(c.resistors)
    requires |vals| == |c.nodes| - 1 && VoltagesOf(c, vals, v)
    requires Solves(BuildSystem(c).y, vals, InjectionOf(c))
    ensures |KclReport(c, v)| == |c.nodes| - 1
    ensures forall k :: 0 <= k < |c.nodes| - 1 ==> KclReport(c, v)[k].1 == 0.0
  {
    KclIdentity(c, vals, v);
  }
}
