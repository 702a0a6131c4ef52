/**
 Assembly of the conductance matrix Y and the right-hand side I_vec.
 Y is the left fold of the resistor stamp over the resistor list, I_vec the
 left fold of the source stamp over the source list, both starting from zeros.
 */
module Stamping {
  import opened Circuits
  import opened Indexing
  import opened LinAlg

  /** A non-ground name has an index below n (ground needs none). */
  predicate Resolves(idx: Index, n: nat, name: string) {
    name != Ground ==> name in idx && idx[name] < n
  }

  predicate ResistorsResolve(idx: Index, n: nat, rs: seq<Resistor>) {
    forall k :: 0 <= k < |rs| ==> Resolves(idx, n, rs[k].n1) && Resolves(idx, n, rs[k].n2)
  }

  predicate SourcesResolve(idx: Index, n: nat, ss: seq<Source>) {
    forall k :: 0 <= k < |ss| ==> Resolves(idx, n, ss[k].node)
  }

  /** No resistance is zero, so every conductance 1/R exists. */
  predicate NonZero(rs: seq<Resistor>) {
    forall k :: 0 <= k < |rs| ==> rs[k].r != 0.0
  }

  /** A non-ground name has an index, whatever its bound (ground needs none). */
  predicate Indexed(idx: Index, name: string) {
    name != Ground ==> name in idx
  }

  /** What the reference stamps of `rs` need: every conductance exists and every non-ground end has an index. */
  predicate Stampable(idx: Index, rs: seq<Resistor>) {
    NonZero(rs) && forall k :: 0 <= k < |rs| ==> Indexed(idx, rs[k].n1) && Indexed(idx, rs[k].n2)
  }

  function Conductance(r: Resistor): real
    requires r.r != 0.0
  {
    1.0 / r.r
  }

  /** The matrix position of a name, with -1 standing for ground (no position). */
  function Pos(idx: Index, name: string): int
    requires Indexed(idx, name)
  {
    if name == Ground then -1 else idx[name]
  }

  /** Coordinate p of the incidence vector e_a - e_b of a resistor (e of ground is zero). */
  function Inc(idx: Index, r: Resistor, p: int): real
    requires Indexed(idx, r.n1) && Indexed(idx, r.n2)
  {
    (if p == Pos(idx, r.n1) then 1.0 else 0.0) - (if p == Pos(idx, r.n2) then 1.0 else 0.0)
  }

  /** Reference definition of a stamp: entry (p, q) of g·(e_a - e_b)(e_a - e_b)ᵀ. */
  function Delta(idx: Index, r: Resistor, p: int, q: int): real
    requires r.r != 0.0 && Indexed(idx, r.n1) && Indexed(idx, r.n2)
  {
    Conductance(r) * Inc(idx, r, p) * Inc(idx, r, q)
  }

  /**
   Adds one resistor into y as the assembly loop does: g = 1/R on the diagonal
   of each non-ground end, and -g on the two entries between two non-ground
   ends. Entry by entry, this adds exactly the reference stamp.
   */
  function Stamp(y: Matrix, idx: Index, r: Resistor): (y': Matrix)
    requires IsSquare(y, |y|) && r.r != 0.0
    requires Resolves(idx, |y|, r.n1) && Resolves(idx, |y|, r.n2)
    ensures IsSquare(y', |y|)
    ensures forall p, q {:trigger Delta(idx, r, p, q)} :: 0 <= p < |y| && 0 <= q < |y| ==> y'[p][q] == y[p][q] + Delta(idx, r, p, q)
  {
    var g := 1.0 / r.r;
    if r.n1 != Ground && r.n2 != Ground then
      var i := idx[r.n1];
      var j := idx[r.n2];
      PairStampEntries(y, idx, r);
      AddAt(AddAt(AddAt(AddAt(y, i, i, g), j, j, g), i, j, -g), j, i, -g)
    else if r.n1 != Ground then
      GroundedStampEntries(y, idx, r, r.n1);
      AddAt(y, idx[r.n1], idx[r.n1], g)
    else if r.n2 != Ground then
      GroundedStampEntries(y, idx, r, r.n2);
      AddAt(y, idx[r.n2], idx[r.n2], g)
    else
      y
  }

  /**
   The conductance matrix: zeros, then every resistor stamped in declaration
   order. Every entry is the sum of the resistors' reference stamps.
   */
  function BuildY(n: nat, idx: Index, rs: seq<Resistor>): (y: Matrix)
    requires ResistorsResolve(idx, n, rs) && NonZero(rs)
    ensures IsSquare(y, n)
    ensures forall p, q {:trigger DeltaSum(idx, rs, p, q)} :: 0 <= p < n && 0 <= q < n ==> y[p][q] == DeltaSum(idx, rs, p, q)
    decreases |rs|
  {
    if |rs| == 0 then ZeroMatrix(n)
    else Stamp(BuildY(n, idx, rs[..|rs| - 1]), idx, rs[|rs| - 1])
  }

  /** Entry (p, q) of the sum of the reference stamps of all resistors. */
  function DeltaSum(idx: Index, rs: seq<Resistor>, p: int, q: int): real
    requires Stampable(idx, rs)
    decreases |rs|
  {
    if |rs| == 0 then 0.0 else DeltaSum(idx, rs[..|rs| - 1], p, q) + Delta(idx, rs[|rs| - 1], p, q)
  }

  /** The reference stamp multiplied out: +g at (a, a) and (b, b), -g at (a, b) and (b, a). */
  lemma DeltaExpanded(idx: Index, r: Resistor, p: int, q: int)
    requires r.r != 0.0 && Indexed(idx, r.n1) && Indexed(idx, r.n2)
    ensures var a, b, g := Pos(idx, r.n1), Pos(idx, r.n2), Conductance(r);
      Delta(idx, r, p, q)
      == (if p == a && q == a then g else 0.0) + (if p == b && q == b then g else 0.0)
       - (if p == a && q == b then g else 0.0) - (if p == b && q == a then g else 0.0)
  {
    var a, b, g := Pos(idx, r.n1), Pos(idx, r.n2), Conductance(r);
    var xa, xb := (if p == a then 1.0 else 0.0), (if p == b then 1.0 else 0.0);
    var ya, yb := (if q == a then 1.0 else 0.0), (if q == b then 1.0 else 0.0);
    assert Delta(idx, r, p, q) == g * (xa - xb) * (ya - yb);
    Expand(g, xa, xb, ya, yb);
  }

  /** g·(xa - xb)·(ya - yb) multiplied out, for 0/1 indicators. */
  lemma Expand(g: real, xa: real, xb: real, ya: real, yb: real)
    requires (xa == 0.0 || xa == 1.0) && (xb == 0.0 || xb == 1.0)
    requires (ya == 0.0 || ya == 1.0) && (yb == 0.0 || yb == 1.0)
    ensures g * (xa - xb) * (ya - yb)
         == (if xa == 1.0 && ya == 1.0 then g else 0.0) + (if xb == 1.0 && yb == 1.0 then g else 0.0)
          - (if xa == 1.0 && yb == 1.0 then g else 0.0) - (if xb == 1.0 && ya == 1.0 then g else 0.0)
  {
  }

  /** The four entry updates for a resistor between two non-ground nodes add its reference stamp. */
  lemma PairStampEntries(y: Matrix, idx: Index, r: Resistor)
    requires IsSquare(y, |y|) && r.r != 0.0
    requires Resolves(idx, |y|, r.n1) && Resolves(idx, |y|, r.n2)
    requires r.n1 != Ground && r.n2 != Ground
    ensures var i, j, g := idx[r.n1], idx[r.n2], 1.0 / r.r;
      forall p, q :: 0 <= p < |y| && 0 <= q < |y| ==>
        AddAt(AddAt(AddAt(AddAt(y, i, i, g), j, j, g), i, j, -g), j, i, -g)[p][q] == y[p][q] + Delta(idx, r, p, q)
  {
    var i, j, g := idx[r.n1], idx[r.n2], 1.0 / r.r;
    var y1 := AddAt(y, i, i, g);
    var y2 := AddAt(y1, j, j, g);
    var y3 := AddAt(y2, i, j, -g);
    forall p, q | 0 <= p < |y| && 0 <= q < |y|
      ensures AddAt(y3, j, i, -g)[p][q] == y[p][q] + Delta(idx, r, p, q)
    {
      AddAtEntry(y, i, i, g, p, q);
      AddAtEntry(y1, j, j, g, p, q);
      AddAtEntry(y2, i, j, -g, p, q);
      AddAtEntry(y3, j, i, -g, p, q);
      DeltaExpanded(idx, r, p, q);
    }
  }

  /** The one diagonal update for a resistor from node m to ground adds its reference stamp. */
  lemma GroundedStampEntries(y: Matrix, idx: Index, r: Resistor, m: string)
    requires IsSquare(y, |y|) && r.r != 0.0
    requires Resolves(idx, |y|, r.n1) && Resolves(idx, |y|, r.n2)
    requires m != Ground && ((r.n1 == m && r.n2 == Ground) || (r.n1 == Ground && r.n2 == m))
    ensures forall p, q :: 0 <= p < |y| && 0 <= q < |y| ==>
      AddAt(y, idx[m], idx[m], 1.0 / r.r)[p][q] == y[p][q] + Delta(idx, r, p, q)
  {
    forall p, q | 0 <= p < |y| && 0 <= q < |y|
      ensures AddAt(y, idx[m], idx[m], 1.0 / r.r)[p][q] == y[p][q] + Delta(idx, r, p, q)
    {
      AddAtEntry(y, idx[m], idx[m], 1.0 / r.r, p, q);
      DeltaExpanded(idx, r, p, q);
    }
  }

  /** Y is n×n and symmetric after stamping any resistor list. */
  lemma BuildYSymmetric(n: nat, idx: Index, rs: seq<Resistor>)
    requires ResistorsResolve(idx, n, rs) && NonZero(rs)
    ensures IsSquare(BuildY(n, idx, rs), n)
    ensures Symmetric(BuildY(n, idx, rs))
  {
    forall p, q | 0 <= p < n && 0 <= q < n ensures DeltaSum(idx, rs, p, q) == DeltaSum(idx, rs, q, p) {
      DeltaSumSymmetric(idx, rs, p, q);
    }
  }

  lemma {:induction false} DeltaSumSymmetric(idx: Index, rs: seq<Resistor>, p: int, q: int)
    requires Stampable(idx, rs)
    ensures DeltaSum(idx, rs, p, q) == DeltaSum(idx, rs, q, p)
    decreases |rs|
  {
    if |rs| > 0 {
      DeltaSumSymmetric(idx, rs[..|rs| - 1], p, q);
    }
  }

  /** Stamp's entry contract with each reference stamp multiplied out, for reading off single entries. */
  lemma StampByEntry(y: Matrix, idx: Index, r: Resistor)
    requires IsSquare(y, |y|) && r.r != 0.0
    requires Resolves(idx, |y|, r.n1) && Resolves(idx, |y|, r.n2)
    ensures var a, b, g := Pos(idx, r.n1), Pos(idx, r.n2), Conductance(r);
      forall p, q :: 0 <= p < |y| && 0 <= q < |y| ==>
        Stamp(y, idx, r)[p][q] == y[p][q] + (if p == a && q == a then g else 0.0) + (if p == b && q == b then g else 0.0)
          - (if p == a && q == b then g else 0.0) - (if p == b && q == a then g else 0.0)
  {
    forall p, q | 0 <= p < |y| && 0 <= q < |y|
      ensures Stamp(y, idx, r)[p][q] == y[p][q] + Delta(idx, r, p, q)
    {
      DeltaExpanded(idx, r, p, q);
    }
  }

  /**
   A resistor between two distinct non-ground nodes adds g to both diagonal
   entries, subtracts g from both off-diagonal entries, and changes nothing else.
   */
  lemma StampBothNonGround(y: Matrix, idx: Index, r: Resistor)
    requires IsSquare(y, |y|) && r.r != 0.0
    requires Resolves(idx, |y|, r.n1) && Resolves(idx, |y|, r.n2)
    requires r.n1 != Ground && r.n2 != Ground && idx[r.n1] != idx[r.n2]
    ensures var i, j, g, y' := idx[r.n1], idx[r.n2], 1.0 / r.r, Stamp(y, idx, r);
      && y'[i][i] == y[i][i] + g && y'[j][j] == y[j][j] + g
      && y'[i][j] == y[i][j] - g && y'[j][i] == y[j][i] - g
      && (forall p, q :: 0 <= p < |y| && 0 <= q < |y| && p != i && p != j ==> y'[p][q] == y[p][q])
      && (forall p, q :: 0 <= p < |y| && 0 <= q < |y| && q != i && q != j ==> y'[p][q] == y[p][q])
  {
    StampByEntry(y, idx, r);
  }

  /** A resistor from a non-ground node m to ground adds g to Y[m][m] only. */
  lemma StampOneGround(y: Matrix, idx: Index, r: Resistor, m: string)
    requires IsSquare(y, |y|) && r.r != 0.0
    requires Resolves(idx, |y|, r.n1) && Resolves(idx, |y|, r.n2)
    requires (r.n1 == m && r.n2 == Ground) || (r.n1 == Ground && r.n2 == m)
    requires m != Ground
    ensures var i, y' := idx[m], Stamp(y, idx, r);
      && y'[i][i] == y[i][i] + 1.0 / r.r
      && forall p, q :: 0 <= p < |y| && 0 <= q < |y| && (p != i || q != i) ==> y'[p][q] == y[p][q]
  {
    StampByEntry(y, idx, r);
  }

  /** A resistor with both ends at ground leaves Y unchanged. */
  lemma StampGroundGround(y: Matrix, idx: Index, r: Resistor)
    requires IsSquare(y, |y|) && r.r != 0.0
    requires r.n1 == Ground && r.n2 == Ground
    ensures Stamp(y, idx, r) == y
  {
  }

  /** A self-loop leaves Y unchanged: the +2g and -2g on its one entry cancel. */
  lemma StampSelfLoop(y: Matrix, idx: Index, r: Resistor)
    requires IsSquare(y, |y|) && r.r != 0.0
    requires Resolves(idx, |y|, r.n1) && r.n1 == r.n2
    ensures Stamp(y, idx, r) == y
  {
    var y' := Stamp(y, idx, r);
    StampByEntry(y, idx, r);
    forall p | 0 <= p < |y| ensures y'[p] == y[p] {
      assert forall q :: 0 <= q < |y| ==> y'[p][q] == y[p][q];
    }
  }

  // ---- The right-hand side ----

  /** Subtracts one source's current at its node's index; a source at ground is skipped. */
  function StampSource(iv: Vector, idx: Index, s: Source): (iv': Vector)
    requires Resolves(idx, |iv|, s.node)
    ensures |iv'| == |iv|
    ensures s.node != Ground ==> iv'[idx[s.node]] == iv[idx[s.node]] - s.i
    ensures forall i :: 0 <= i < |iv| && (s.node == Ground || i != idx[s.node]) ==> iv'[i] == iv[i]
  {
    if s.node != Ground then
      var i := idx[s.node];
      iv[i := iv[i] - s.i]
    else iv
  }

  /**
   The current vector: zeros, then every source stamped in declaration order.
   Entry i is minus the total current of the sources whose node has index i.
   */
  function BuildI(n: nat, idx: Index, ss: seq<Source>): (iv: Vector)
    requires SourcesResolve(idx, n, ss)
    ensures |iv| == n
    ensures forall i {:trigger IndexTotal(idx, ss, i)} :: 0 <= i < n ==> iv[i] == -IndexTotal(idx, ss, i)
    decreases |ss|
  {
    if |ss| == 0 then Zeros(n)
    else StampSource(BuildI(n, idx, ss[..|ss| - 1]), idx, ss[|ss| - 1])
  }

  /** The total current of the sources at a non-ground node whose index is i. */
  function IndexTotal(idx: Index, ss: seq<Source>, i: nat): real
    decreases |ss|
  {
    if |ss| == 0 then 0.0
    else
      var s := ss[|ss| - 1];
      IndexTotal(idx, ss[..|ss| - 1], i) + (if s.node != Ground && s.node in idx && idx[s.node] == i then s.i else 0.0)
  }

  /** Under an injective index, the sources at index idx[name] are exactly the sources at `name`. */
  lemma {:induction false} IndexTotalOfName(idx: Index, ss: seq<Source>, name: string)
    requires Injective(idx) && name != Ground && name in idx
    ensures IndexTotal(idx, ss, idx[name]) == SourceTotal(ss, name)
    decreases |ss|
  {
    if |ss| > 0 {
      IndexTotalOfName(idx, ss[..|ss| - 1], name);
    }
  }

  /** I_vec at a node's index is minus the total source current into that node. */
  lemma BuildICurrent(n: nat, idx: Index, ss: seq<Source>, name: string)
    requires SourcesResolve(idx, n, ss) && Injective(idx)
    requires name != Ground && name in idx && idx[name] < n
    ensures BuildI(n, idx, ss)[idx[name]] == -SourceTotal(ss, name)
  {
    IndexTotalOfName(idx, ss, name);
  }

  /** The total current the sources inject into `name`. */
  function SourceTotal(ss: seq<Source>, name: string): real
    decreases |ss|
  {
    if |ss| == 0 then 0.0
    else SourceTotal(ss[..|ss| - 1], name) + (if ss[|ss| - 1].node == name then ss[|ss| - 1].i else 0.0)
  }

  function NonGroundSources(ss: seq<Source>): (t: seq<Source>)
    ensures forall k :: 0 <= k < |t| ==> t[k].node != Ground && t[k] in ss
    decreases |ss|
  {
    if |ss| == 0 then []
    else
      var rest := NonGroundSources(ss[..|ss| - 1]);
      if ss[|ss| - 1].node != Ground then rest + [ss[|ss| - 1]] else rest
  }

  /** Sources at ground contribute nothing to I_vec. */
  lemma {:induction false} BuildIIgnoresGround(n: nat, idx: Index, ss: seq<Source>)
    requires SourcesResolve(idx, n, ss)
    ensures SourcesResolve(idx, n, NonGroundSources(ss))
    ensures BuildI(n, idx, NonGroundSources(ss)) == BuildI(n, idx, ss)
    decreases |ss|
  {
    if |ss| > 0 {
      var init := ss[..|ss| - 1];
      BuildIIgnoresGround(n, idx, init);
      var t := NonGroundSources(init);
      if ss[|ss| - 1].node != Ground {
        assert (t + [ss[|ss| - 1]])[..|t|] == t;
      }
    }
  }

  function ScaleSources(ss: seq<Source>, k: real): (t: seq<Source>)
    ensures |t| == |ss|
    ensures forall j :: 0 <= j < |ss| ==> t[j] == Source(ss[j].node, k * ss[j].i)
  {
    seq(|ss|, j requires 0 <= j < |ss| => Source(ss[j].node, k * ss[j].i))
  }

  /** Scaling every source current by k scales I_vec by k. */
  lemma {:induction false} BuildIScales(n: nat, idx: Index, ss: seq<Source>, k: real)
    requires SourcesResolve(idx, n, ss)
    ensures SourcesResolve(idx, n, ScaleSources(ss, k))
    ensures forall i :: 0 <= i < n ==> BuildI(n, idx, ScaleSources(ss, k))[i] == k * BuildI(n, idx, ss)[i]
    decreases |ss|
  {
    if |ss| > 0 {
      var init := ss[..|ss| - 1];
      var t := ScaleSources(ss, k);
      assert t[..|ss| - 1] == ScaleSources(init, k) by {
        assert forall j :: 0 <= j < |init| ==> t[..|ss| - 1][j] == ScaleSources(init, k)[j];
      }
      BuildIScales(n, idx, init, k);
      var s := ss[|ss| - 1];
      if s.node != Ground {
        var i := idx[s.node];
        var prev := BuildI(n, idx, init);
        assert k * (prev[i] - s.i) == k * prev[i] - k * s.i;
      }
    }
  }

  // ---- The right-hand side with the injected currents added ----

  /** Adds one source's current at its node's index; a source at ground is skipped. */
  function InjectSource(iv: Vector, idx: Index, s: Source): (iv': Vector)
    requires Resolves(idx, |iv|, s.node)
    ensures |iv'| == |iv|
  {
    if s.node != Ground then
      var i := idx[s.node];
      iv[i := iv[i] + s.i]
    else iv
  }

  /**
   The current vector with the sign that makes Y·V = I_vec the nodal
   equations: every source's current added at its node.
   */
  function BuildInjection(n: nat, idx: Index, ss: seq<Source>): (iv: Vector)
    requires SourcesResolve(idx, n, ss)
    ensures |iv| == n
    decreases |ss|
  {
    if |ss| == 0 then Zeros(n)
    else InjectSource(BuildInjection(n, idx, ss[..|ss| - 1]), idx, ss[|ss| - 1])
  }

  /** The added-sign vector is the entrywise negation of the assembled I_vec. */
  lemma {:induction false} BuildInjectionNegates(n: nat, idx: Index, ss: seq<Source>)
    requires SourcesResolve(idx, n, ss)
    ensures forall i :: 0 <= i < n ==> BuildInjection(n, idx, ss)[i] == -BuildI(n, idx, ss)[i]
    decreases |ss|
  {
    if |ss| > 0 {
      BuildInjectionNegates(n, idx, ss[..|ss| - 1]);
    }
  }

  // ---- The whole assembly step ----

  /** What the assembly hands to the solver: Y, I_vec and the node index. */
  datatype System = System(y: Matrix, iv: Vector, idx: Index)

  /** Every element endpoint of a well-formed circuit resolves under its node index. */
  lemma WellFormedResolves(c: Circuit)
    requires WellFormed(c)
    ensures ResistorsResolve(NodeIndex(c.nodes), |c.nodes| - 1, c.resistors)
    ensures SourcesResolve(NodeIndex(c.nodes), |c.nodes| - 1, c.sources)
  {
    NodeIndexBijection(c.nodes);
  }

  /** In a well-formed circuit, I_vec at the k-th non-ground node is minus its source total. */
  lemma NodeCurrents(c: Circuit)
    requires WellFormed(c)
    ensures SourcesResolve(NodeIndex(c.nodes), |c.nodes| - 1, c.sources)
    ensures forall k :: 1 <= k < |c.nodes| ==>
      BuildI(|c.nodes| - 1, NodeIndex(c.nodes), c.sources)[k - 1] == -SourceTotal(c.sources, c.nodes[k])
  {
    WellFormedResolves(c);
    forall k | 1 <= k < |c.nodes|
      ensures BuildI(|c.nodes| - 1, NodeIndex(c.nodes), c.sources)[k - 1] == -SourceTotal(c.sources, c.nodes[k])
    {
      CurrentAtPosition(c.nodes, c.sources, k);
    }
  }

  lemma CurrentAtPosition(nodes: seq<string>, ss: seq<Source>, k: nat)
    requires |nodes| > 0 && nodes[0] == Ground && NoDuplicates(nodes)
    requires SourcesResolve(NodeIndex(nodes), |nodes| - 1, ss)
    requires 1 <= k < |nodes|
    ensures BuildI(|nodes| - 1, NodeIndex(nodes), ss)[k - 1] == -SourceTotal(ss, nodes[k])
  {
    var idx := NodeIndex(nodes);
    NodeIndexPositions(nodes);
    NodeIndexInverse(nodes);
    var name := nodes[k];
    assert name != Ground by {
      assert nodes[0] != nodes[k];
    }
    BuildICurrent(|nodes| - 1, idx, ss, name);
  }

  /**
   Assembles (Y, I_vec, node_index), where N is the number of non-ground
   nodes: Y is N×N and symmetric with every entry the sum of the resistors'
   reference stamps, and I_vec has length N and holds minus the source total
   at each node.
   */
  function BuildSystem(c: Circuit): (s: System)
    requires WellFormed(c) && NonZero(c.resistors)
    ensures s.idx == NodeIndex(c.nodes)
    ensures ResistorsResolve(s.idx, |c.nodes| - 1, c.resistors)
    ensures IsSquare(s.y, |c.nodes| - 1) && Symmetric(s.y)
    ensures forall p, q {:trigger DeltaSum(s.idx, c.resistors, p, q)} :: 0 <= p < |c.nodes| - 1 && 0 <= q < |c.nodes| - 1 ==>
      s.y[p][q] == DeltaSum(s.idx, c.resistors, p, q)
    ensures |s.iv| == |c.nodes| - 1
    ensures forall k :: 1 <= k < |c.nodes| ==> s.iv[k - 1] == -SourceTotal(c.sources, c.nodes[k])
  {
    WellFormedResolves(c);
    NodeCurrents(c);
    BuildYSymmetric(|c.nodes| - 1, NodeIndex(c.nodes), c.resistors);
    System(BuildY(|c.nodes| - 1, NodeIndex(c.nodes), c.resistors), BuildI(|c.nodes| - 1, NodeIndex(c.nodes), c.sources), NodeIndex(c.nodes))
  }

  /**
   The right-hand side with the sources added rather than subtracted: entry
   k - 1 is the total current injected into the k-th registered node.
   */
  function InjectionOf(c: Circuit): (iv: Vector)
    requires WellFormed(c)
    ensures |iv| == |c.nodes| - 1
    ensures forall k :: 1 <= k < |c.nodes| ==> iv[k - 1] == SourceTotal(c.sources, c.nodes[k])
  {
    NodeCurrents(c);
    BuildInjectionNegates(|c.nodes| - 1, NodeIndex(c.nodes), c.sources);
    BuildInjection(|c.nodes| - 1, NodeIndex(c.nodes), c.sources)
  }
}
