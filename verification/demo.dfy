/**
 The three-resistor circuit of the program's own example: 10 Ω from node 1
 to ground, 5 Ω from node 2 to ground, 15 Ω between 1 and 2, and a 2 A
 source at node 2, worked through the model.
 */
module Demo {
  import opened Circuits
  import opened Indexing
  import opened LinAlg
  import opened Stamping
  import opened Analysis

  function DemoOps(): seq<Op> {
    [AddR("1", "0", 10.0), AddR("2", "0", 5.0), AddR("1", "2", 15.0), AddI("2", 2.0)]
  }

  function DemoCircuit(): Circuit {
    Circuit(["0", "1", "2"],
            [Resistor("1", "0", 10.0), Resistor("2", "0", 5.0), Resistor("1", "2", 15.0)],
            [Source("2", 2.0)])
  }

  /** Issuing the example's calls registers ground, then 1, then 2. */
  lemma DemoConstruct()
    ensures Construct(DemoOps()) == DemoCircuit()
  {
    var ops := DemoOps();
    DemoConstructPrefix();
    assert ops[..3] == ops[..|ops| - 1];
    assert "2" in Construct(ops[..3]).nodes;
  }

  /** The first three calls: the three resistors. */
  lemma DemoConstructPrefix()
    ensures Construct(DemoOps()[..3])
         == Circuit(["0", "1", "2"], [Resistor("1", "0", 10.0), Resistor("2", "0", 5.0), Resistor("1", "2", 15.0)], [])
  {
    var ops := DemoOps();
    DemoConstructTwo();
    assert ops[..3][..2] == ops[..2];
    assert "1" in ["0", "1", "2"] && "2" in ["0", "1", "2"];
  }

  /** The first two calls register 1 and then 2. */
  lemma DemoConstructTwo()
    ensures Construct(DemoOps()[..2]) == Circuit(["0", "1", "2"], [Resistor("1", "0", 10.0), Resistor("2", "0", 5.0)], [])
  {
    var ops := DemoOps();
    DemoConstructOne();
    assert "2" != "0" && "2" != "1";
    assert ops[..2][..1] == ops[..1];
  }

  /** The first call registers 1. */
  lemma DemoConstructOne()
    ensures Construct(DemoOps()[..1]) == Circuit(["0", "1"], [Resistor("1", "0", 10.0)], [])
  {
    var ops := DemoOps();
    assert "1" != "0";
    assert ops[..1][..0] == [];
  }

  /** The example's node index: 1 at position 0, 2 at position 1. */
  lemma DemoIndex()
    ensures MainNodes(DemoCircuit().nodes) == DemoCircuit().nodes[1..]
    ensures NodeIndex(DemoCircuit().nodes) == map["1" := 0, "2" := 1]
  {
    var nodes := DemoCircuit().nodes;
    assert MainNodes(nodes) == ["1", "2"] by {
      assert "1" != "0" && "2" != "0" && "1" != "2";
      MainNodesOfWellFormed(nodes);
      assert nodes[1..] == ["1", "2"];
    }
    DemoIndexOf();
  }

  lemma DemoIndexOf()
    ensures IndexOf(["1", "2"]) == map["1" := 0, "2" := 1]
  {
    var main := ["1", "2"];
    assert main[..1] == ["1"];
    assert IndexOf(["1"]) == map["1" := 0] by {
      assert ["1"][..0] == [];
    }
  }

  /** AddAt on a 2×2 matrix, entry by entry. */
  lemma AddAt2(a: real, b: real, c: real, e: real, i: nat, j: nat, d: real)
    requires i < 2 && j < 2
    ensures AddAt([[a, b], [c, e]], i, j, d)
         == [[a + (if i == 0 && j == 0 then d else 0.0), b + (if i == 0 && j == 1 then d else 0.0)],
             [c + (if i == 1 && j == 0 then d else 0.0), e + (if i == 1 && j == 1 then d else 0.0)]]
  {
    var r := AddAt([[a, b], [c, e]], i, j, d);
    assert r[0] == [a + (if i == 0 && j == 0 then d else 0.0), b + (if i == 0 && j == 1 then d else 0.0)];
    assert r[1] == [c + (if i == 1 && j == 0 then d else 0.0), e + (if i == 1 && j == 1 then d else 0.0)];
  }

  function DemoIdx(): Index {
    map["1" := 0, "2" := 1]
  }

  /** Y after the first resistor, 10 Ω from 1 to ground. */
  lemma DemoY1()
    ensures ResistorsResolve(DemoIdx(), 2, DemoCircuit().resistors[..1])
    ensures BuildY(2, DemoIdx(), DemoCircuit().resistors[..1]) == [[1.0 / 10.0, 0.0], [0.0, 0.0]]
  {
    var rs := DemoCircuit().resistors[..1];
    var idx := DemoIdx();
    assert rs[..0] == [];
    assert Zeros(2) == [0.0, 0.0];
    var y0 := [[0.0, 0.0], [0.0, 0.0]];
    assert ZeroMatrix(2) == y0;
    assert BuildY(2, idx, rs) == Stamp(y0, idx, rs[0]);
    assert "1" != Ground && rs[0].n2 == Ground;
    assert Stamp(y0, idx, rs[0]) == AddAt(y0, 0, 0, 1.0 / 10.0);
    AddAt2(0.0, 0.0, 0.0, 0.0, 0, 0, 1.0 / 10.0);
  }

  /** Y after the second resistor, 5 Ω from 2 to ground. */
  lemma DemoY2()
    ensures ResistorsResolve(DemoIdx(), 2, DemoCircuit().resistors[..2])
    ensures BuildY(2, DemoIdx(), DemoCircuit().resistors[..2]) == [[1.0 / 10.0, 0.0], [0.0, 1.0 / 5.0]]
  {
    var rs := DemoCircuit().resistors[..2];
    var idx := DemoIdx();
    assert rs[..1] == DemoCircuit().resistors[..1];
    DemoY1();
    var y1 := [[1.0 / 10.0, 0.0], [0.0, 0.0]];
    assert BuildY(2, idx, rs) == Stamp(y1, idx, rs[1]);
    assert "2" != Ground && rs[1].n1 == "2" && rs[1].n2 == Ground;
    assert Stamp(y1, idx, rs[1]) == AddAt(y1, 1, 1, 1.0 / 5.0);
    AddAt2(1.0 / 10.0, 0.0, 0.0, 0.0, 1, 1, 1.0 / 5.0);
  }

  /** Y after the third resistor, 15 Ω between 1 and 2. */
  lemma DemoY3()
    ensures ResistorsResolve(DemoIdx(), 2, DemoCircuit().resistors)
    ensures BuildY(2, DemoIdx(), DemoCircuit().resistors) == [[1.0 / 6.0, -1.0 / 15.0], [-1.0 / 15.0, 4.0 / 15.0]]
  {
    var rs := DemoCircuit().resistors;
    var idx := DemoIdx();
    assert rs[..2] == DemoCircuit().resistors[..2];
    DemoY2();
    var y2 := [[1.0 / 10.0, 0.0], [0.0, 1.0 / 5.0]];
    assert BuildY(2, idx, rs) == Stamp(y2, idx, rs[2]);
    assert "1" != Ground && "2" != Ground && rs[2].n1 == "1" && rs[2].n2 == "2";
    var g := 1.0 / 15.0;
    assert Stamp(y2, idx, rs[2]) == AddAt(AddAt(AddAt(AddAt(y2, 0, 0, g), 1, 1, g), 0, 1, -g), 1, 0, -g);
    AddAt2(1.0 / 10.0, 0.0, 0.0, 1.0 / 5.0, 0, 0, g);
    AddAt2(1.0 / 10.0 + g, 0.0, 0.0, 1.0 / 5.0, 1, 1, g);
    AddAt2(1.0 / 10.0 + g, 0.0, 0.0, 1.0 / 5.0 + g, 0, 1, -g);
    AddAt2(1.0 / 10.0 + g, -g, 0.0, 1.0 / 5.0 + g, 1, 0, -g);
  }

  /** I_vec of the example: the 2 A source at node 2 gives -2 at index 1. */
  lemma DemoI()
    ensures SourcesResolve(DemoIdx(), 2, DemoCircuit().sources)
    ensures BuildI(2, DemoIdx(), DemoCircuit().sources) == [0.0, -2.0]
  {
    var ss := DemoCircuit().sources;
    assert ss[..0] == [];
    assert Zeros(2) == [0.0, 0.0];
  }

  /** The example's circuit is well formed and has no zero resistance. */
  lemma DemoWellFormed()
    ensures WellFormed(DemoCircuit()) && NonZero(DemoCircuit().resistors)
  {
    assert "1" != "0" && "2" != "0" && "1" != "2";
  }

  /** The example's assembled system. */
  lemma DemoSystem()
    ensures WellFormed(DemoCircuit()) && NonZero(DemoCircuit().resistors)
    ensures BuildSystem(DemoCircuit()).y == [[1.0 / 6.0, -1.0 / 15.0], [-1.0 / 15.0, 4.0 / 15.0]]
    ensures BuildSystem(DemoCircuit()).iv == [0.0, -2.0]
  {
    var c := DemoCircuit();
    DemoWellFormed();
    assert NodeIndex(c.nodes) == DemoIdx() by {
      DemoIndex();
    }
    DemoY3();
    DemoI();
  }

  /** The example's solution vector: V1 = -10/3 and V2 = -25/3. */
  function DemoVals(): Vector {
    [-10.0 / 3.0, -25.0 / 3.0]
  }

  function DemoVoltages(): Voltages {
    map["0" := 0.0, "1" := -10.0 / 3.0, "2" := -25.0 / 3.0]
  }

  lemma Dot2(a: real, b: real, x: real, z: real)
    ensures Dot([a, b], [x, z]) == a * x + b * z
  {
    var u, w := [a, b], [x, z];
    assert DotTo(u, w, 1) == a * x;
  }

  /** The example's voltage map has ground at 0 and nodes 1, 2 at the solution entries. */
  lemma DemoVoltagesOf()
    ensures VoltagesOf(DemoCircuit(), DemoVals(), DemoVoltages())
  {
    var c, v := DemoCircuit(), DemoVoltages();
    forall x ensures x in v <==> x in c.nodes {
      assert x in v <==> x == "0" || x == "1" || x == "2";
    }
  }

  /**
   With the code's sign convention the example solves to V1 = -10/3 and
   V2 = -25/3, and its voltage map is the one SolveCircuit builds.
   */
  lemma DemoSolution()
    ensures WellFormed(DemoCircuit()) && NonZero(DemoCircuit().resistors)
    ensures Solves(BuildSystem(DemoCircuit()).y, DemoVals(), BuildSystem(DemoCircuit()).iv)
    ensures VoltagesOf(DemoCircuit(), DemoVals(), DemoVoltages())
  {
    DemoSolves();
    DemoVoltagesOf();
  }

  /** The example's solution vector solves Y·V = I_vec. */
  lemma DemoSolves()
    ensures WellFormed(DemoCircuit()) && NonZero(DemoCircuit().resistors)
    ensures Solves(BuildSystem(DemoCircuit()).y, [-10.0 / 3.0, -25.0 / 3.0], BuildSystem(DemoCircuit()).iv)
  {
    DemoSystem();
    DemoMatrixSolves();
  }

  /** The example's Y, with I_vec as written and with the sources added. */
  lemma DemoMatrixSolves()
    ensures Solves([[1.0 / 6.0, -1.0 / 15.0], [-1.0 / 15.0, 4.0 / 15.0]], [-10.0 / 3.0, -25.0 / 3.0], [0.0, -2.0])
    ensures Solves([[1.0 / 6.0, -1.0 / 15.0], [-1.0 / 15.0, 4.0 / 15.0]], [10.0 / 3.0, 25.0 / 3.0], [0.0, 2.0])
  {
    Dot2(1.0 / 6.0, -1.0 / 15.0, -10.0 / 3.0, -25.0 / 3.0);
    Dot2(-1.0 / 15.0, 4.0 / 15.0, -10.0 / 3.0, -25.0 / 3.0);
    Dot2(1.0 / 6.0, -1.0 / 15.0, 10.0 / 3.0, 25.0 / 3.0);
    Dot2(-1.0 / 15.0, 4.0 / 15.0, 10.0 / 3.0, 25.0 / 3.0);
  }

  /** The example injects nothing into node 1 and 2 A into node 2. */
  lemma DemoSourceTotals()
    ensures SourceTotal(DemoCircuit().sources, "1") == 0.0
    ensures SourceTotal(DemoCircuit().sources, "2") == 2.0
  {
    assert DemoCircuit().sources[..0] == [];
  }

  /**
   The example's report: node 1 sums to 0 and node 2, which carries the 2 A
   source, to -4, not 0.
   */
  lemma DemoReport()
    ensures NonZero(DemoCircuit().resistors) && EndpointsIn(DemoCircuit().resistors, DemoVoltages())
    ensures KclReport(DemoCircuit(), DemoVoltages()) == [("1", 0.0), ("2", -4.0)]
  {
    var c, v := DemoCircuit(), DemoVoltages();
    assert NonZero(c.resistors) && EndpointsIn(c.resistors, v);
    var rep := KclReport(c, v);
    assert |rep| == 2 && rep[0].0 == "1" && rep[1].0 == "2" by {
      DemoWellFormed();
    }
    assert rep[0].1 == -2.0 * SourceTotal(c.sources, "1") && rep[1].1 == -2.0 * SourceTotal(c.sources, "2") by {
      DemoSolution();
      KclAtSolution(c, DemoVals(), v);
      assert c.nodes[1] == "1" && c.nodes[2] == "2";
    }
    DemoSourceTotals();
  }

  /** The example's branch currents: -1/3 A, -5/3 A and 1/3 A, in declaration order. */
  lemma DemoBranches()
    ensures NonZero(DemoCircuit().resistors) && EndpointsIn(DemoCircuit().resistors, DemoVoltages())
    ensures BranchCurrents(DemoCircuit().resistors, DemoVoltages())
         == [Branch("1", "0", -1.0 / 3.0), Branch("2", "0", -5.0 / 3.0), Branch("1", "2", 1.0 / 3.0)]
  {
    var rs, v := DemoCircuit().resistors, DemoVoltages();
    var bs := BranchCurrents(rs, v);
    assert bs[0] == Branch("1", "0", -1.0 / 3.0);
    assert bs[1] == Branch("2", "0", -5.0 / 3.0);
    assert bs[2] == Branch("1", "2", 1.0 / 3.0);
  }

  /** With the sources added, the example's right-hand side is [0, 2]. */
  lemma DemoInjection()
    ensures WellFormed(DemoCircuit())
    ensures InjectionOf(DemoCircuit()) == [0.0, 2.0]
  {
    var c := DemoCircuit();
    DemoWellFormed();
    var iv := InjectionOf(c);
    assert iv[0] == 0.0 && iv[1] == 2.0 by {
      DemoSourceTotals();
      assert c.nodes[1] == "1" && c.nodes[2] == "2";
    }
  }

  /** With the sources added instead, the example solves to V1 = 10/3 and V2 = 25/3. */
  lemma DemoInjectionSolution()
    ensures WellFormed(DemoCircuit()) && NonZero(DemoCircuit().resistors)
    ensures Solves(BuildSystem(DemoCircuit()).y, [10.0 / 3.0, 25.0 / 3.0], InjectionOf(DemoCircuit()))
  {
    DemoSystem();
    DemoInjection();
    DemoMatrixSolves();
  }

  function DemoInjectionVoltages(): Voltages {
    map["0" := 0.0, "1" := 10.0 / 3.0, "2" := 25.0 / 3.0]
  }

  lemma DemoInjectionVoltagesOf()
    ensures VoltagesOf(DemoCircuit(), [10.0 / 3.0, 25.0 / 3.0], DemoInjectionVoltages())
  {
    var c, v := DemoCircuit(), DemoInjectionVoltages();
    forall x ensures x in v <==> x in c.nodes {
      assert x in v <==> x == "0" || x == "1" || x == "2";
    }
  }

  /** ... and then the report is zero at both nodes. */
  lemma DemoInjectionReport()
    ensures NonZero(DemoCircuit().resistors) && EndpointsIn(DemoCircuit().resistors, DemoInjectionVoltages())
    ensures KclReport(DemoCircuit(), DemoInjectionVoltages()) == [("1", 0.0), ("2", 0.0)]
  {
    var c, v := DemoCircuit(), DemoInjectionVoltages();
    assert NonZero(c.resistors) && EndpointsIn(c.resistors, v);
    var rep := KclReport(c, v);
    assert |rep| == 2 && rep[0].0 == "1" && rep[1].0 == "2" by {
      DemoWellFormed();
    }
    assert rep[0].1 == 0.0 && rep[1].1 == 0.0 by {
      DemoInjectionSolution();
      DemoInjectionVoltagesOf();
      KclAtInjectionSolution(c, [10.0 / 3.0, 25.0 / 3.0], v);
    }
  }
}
