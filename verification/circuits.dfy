/**
 The circuit under construction: an ordered list of node names that starts
 with ground, and the resistor and current-source records added so far.
 Registration is modelled functionally: every `Add…` returns the new circuit.
 */
module Circuits {

  /** The distinguished ground node; it never receives a matrix index. */
  const Ground: string := "0"

  /** A resistor between `n1` and `n2` with resistance `r` (ohms). */
  datatype Resistor = Resistor(n1: string, n2: string, r: real)

  /** A current source injecting `i` amperes into `node`. */
  datatype Source = Source(node: string, i: real)

  datatype Circuit = Circuit(nodes: seq<string>, resistors: seq<Resistor>, sources: seq<Source>)

  /** One construction call, as a caller of the circuit would issue it. */
  datatype Op = AddN(name: string) | AddR(n1: string, n2: string, r: real) | AddI(node: string, i: real)

  predicate NoDuplicates(s: seq<string>) {
    forall i, j :: 0 <= i < j < |s| ==> s[i] != s[j]
  }

  /** Every endpoint of every element is a registered node. */
  predicate Registered(c: Circuit) {
    && (forall k :: 0 <= k < |c.resistors| ==> c.resistors[k].n1 in c.nodes && c.resistors[k].n2 in c.nodes)
    && (forall k :: 0 <= k < |c.sources| ==> c.sources[k].node in c.nodes)
  }

  /** The registration invariant: ground first, no name twice, every endpoint known. */
  predicate WellFormed(c: Circuit) {
    && |c.nodes| > 0
    && c.nodes[0] == Ground
    && NoDuplicates(c.nodes)
    && Registered(c)
  }

  /** A fresh circuit: only ground is registered and there are no elements. */
  function Empty(): (c: Circuit)
    ensures WellFormed(c)
    ensures c.nodes == [Ground] && c.resistors == [] && c.sources == []
  {
    Circuit([Ground], [], [])
  }

  /** Registers `name` unless it is already known; a new name goes at the end. */
  function AddNode(c: Circuit, name: string): (r: Circuit)
    ensures name in r.nodes
    ensures name in c.nodes ==> r == c
    ensures name !in c.nodes ==> r.nodes == c.nodes + [name]
    ensures r.resistors == c.resistors && r.sources == c.sources
    ensures WellFormed(c) ==> WellFormed(r)
  {
    if name in c.nodes then c
    else
      c.(nodes := c.nodes + [name])
  }

  lemma AddNodeIdempotent(c: Circuit, name: string)
    ensures AddNode(AddNode(c, name), name) == AddNode(c, name)
  {
  }

  /** Registers n1 and then n2, then appends exactly one resistor record. */
  function AddResistor(c: Circuit, n1: string, n2: string, r: real): (c': Circuit)
    ensures n1 in c'.nodes && n2 in c'.nodes
    ensures c'.resistors == c.resistors + [Resistor(n1, n2, r)]
    ensures c'.sources == c.sources
    ensures c'.nodes == c.nodes + (if n1 in c.nodes then [] else [n1]) + (if n2 in c.nodes || n2 == n1 then [] else [n2])
    ensures WellFormed(c) ==> WellFormed(c')
  {
    var d := AddNode(AddNode(c, n1), n2);
    var c' := d.(resistors := d.resistors + [Resistor(n1, n2, r)]);
    assert forall k :: 0 <= k < |c.resistors| ==> c'.resistors[k] == c.resistors[k];
    c'
  }

  /** Registers the node, then appends exactly one source record. */
  function AddCurrentSource(c: Circuit, node: string, i: real): (c': Circuit)
    ensures node in c'.nodes
    ensures c'.sources == c.sources + [Source(node, i)]
    ensures c'.resistors == c.resistors
    ensures c'.nodes == c.nodes + (if node in c.nodes then [] else [node])
    ensures WellFormed(c) ==> WellFormed(c')
  {
    var d := AddNode(c, node);
    var c' := d.(sources := d.sources + [Source(node, i)]);
    assert forall k :: 0 <= k < |c.sources| ==> c'.sources[k] == c.sources[k];
    c'
  }

  function Apply(c: Circuit, op: Op): Circuit {
    match op
    case AddN(name) => AddNode(c, name)
    case AddR(n1, n2, r) => AddResistor(c, n1, n2, r)
    case AddI(node, i) => AddCurrentSource(c, node, i)
  }

  /** The circuit a caller obtains by issuing `ops` in order on a fresh circuit. */
  function Construct(ops: seq<Op>): Circuit
    decreases |ops|
  {
    if |ops| == 0 then Empty() else Apply(Construct(ops[..|ops| - 1]), ops[|ops| - 1])
  }

  /** However the circuit is built, the registration invariant holds. */
  lemma {:induction false} ConstructWellFormed(ops: seq<Op>)
    ensures WellFormed(Construct(ops))
    decreases |ops|
  {
    if |ops| > 0 {
      ConstructWellFormed(ops[..|ops| - 1]);
    }
  }
}
