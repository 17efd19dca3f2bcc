/**
  Concrete scenarios: small configurations whose diagrams, form runs and
  queues are computed in full.
 */
module Fixtures {
  import opened JsText
  import opened Layout
  import opened Synthesis
  import opened Drawing
  import TopologyForm
  import SimulationQueue

  function Plain(a: string, b: string): Link {
    Link(a, b, None, None, None, None)
  }

  /** One UPF in the middle, one gNB assigned to it, and the DN wired to it. */
  const Single: GraphConfig :=
    GraphConfig([Coord(0.5, 0.5)], [Assignment("0", [0])], [], Some("DN"), [0])

  /** Key "0" of the assignment object names the first gNB. */
  lemma KeyZero(cfg: GraphConfig)
    requires GnbCount(cfg) > 0
    ensures GnbEndpoint(cfg, "0") == At(Gnb(0))
  {
    ParseIntDecimal(0);
    assert DecimalString(0) == "0";
  }

  /**
    The single-UPF diagram places the UPF at the canvas centre, the gNB at
    the top of its column with its UE beside it, and the DN on the right.
   */
  lemma SingleUpfNodes()
    ensures AllNodes(Single) == [
      PlacedNode(Upf(0), Pos(400.0, 250.0)),
      PlacedNode(Gnb(0), Pos(120.0, 100.0)),
      PlacedNode(Ue(0), Pos(70.0, 100.0)),
      PlacedNode(Dn, Pos(680.0, 250.0))]
  {
    AllNodesIndex(Single, 0);
    AllNodesIndex(Single, 1);
    AllNodesIndex(Single, 2);
    AllNodesIndex(Single, 3);
  }

  /** The single-UPF diagram has three edges: the N3 edge, the N6 edge and the UE edge, in that order. */
  lemma SingleUpfEdges()
    ensures BuildEdges(Single) == [N3Edge(At(Gnb(0)), At(Upf(0))), N6Edge(0), UeEdge(0)]
  {
    var pair := (At(Gnb(0)), At(Upf(0)));
    assert ExplicitEdges(Single, []) == [];
    KeyZero(Single);
    assert EntryPairs(Single, Assignment("0", [0])) == [pair];
    assert AssignedPairs(Single, Single.gnbAssignments) == [pair];
    assert AddN3([], pair.0, pair.1) == [N3Edge(pair.0, pair.1)];
    assert AddN3Pairs([], [pair]) == [N3Edge(pair.0, pair.1)];
    assert N6Edges(Single, [0]) == [N6Edge(0)];
    assert UeEdges(1) == [UeEdge(0)];
  }

  lemma NumeralLabels()
    ensures "UPF " + DecimalString(99) == "UPF 99"
    ensures NodeLabel(Upf(0)) == "UPF 1" && NodeLabel(Gnb(0)) == "gNB 1"
  {
    assert DecimalString(99) == "99";
    assert DecimalString(1) == "1";
  }

  /** With two UPFs, "UPF 99" resolves to nothing and a link naming it is dropped. */
  lemma OutOfRangeLabelDropped(cfg: GraphConfig)
    requires |cfg.upfCoords| == 2
    ensures Resolve(cfg, "UPF 99") == None
    ensures Resolve(cfg, "UPF 1") == Some(Upf(0))
    ensures ExplicitEdges(cfg, [Plain("UPF 99", "UPF 1")]) == []
  {
    NumeralLabels();
    ResolveUpfRange(cfg, 99);
    ResolveUpfLabel(cfg, 0);
    ExplicitEdgesKeepOrder(cfg, [], [], Plain("UPF 99", "UPF 1"));
  }

  /** A gNB assigned to a UPF that does not exist makes the diagram crash at the N3 edge it pushes. */
  lemma MissingUpfCrashes(root: real -> real)
    ensures var cfg := GraphConfig([Coord(0.5, 0.5)], [Assignment("0", [3])], [], None, []);
            && BuildEdges(cfg) == [N3Edge(At(Gnb(0)), Undefined), UeEdge(0)]
            && Render(cfg, root) == Crashed(0)
  {
    var cfg := GraphConfig([Coord(0.5, 0.5)], [Assignment("0", [3])], [], None, []);
    var pair := (At(Gnb(0)), Undefined);
    assert ExplicitEdges(cfg, []) == [];
    KeyZero(cfg);
    assert EntryPairs(cfg, Assignment("0", [3])) == [pair];
    assert AssignedPairs(cfg, cfg.gnbAssignments) == [pair];
    assert AddN3([], pair.0, pair.1) == [N3Edge(pair.0, pair.1)];
    assert AddN3Pairs([], [pair]) == [N3Edge(pair.0, pair.1)];
    assert N6Edges(cfg, []) == [];
    assert UeEdges(1) == [UeEdge(0)];
    var edges := BuildEdges(cfg);
    assert HasUndefinedEnd(edges[0]);
  }

  /** A DN connection listed twice gives two identical N6 edges; an out-of-range one gives none. */
  lemma RepeatedDnConnection()
    ensures var cfg := GraphConfig([Coord(0.5, 0.5)], [], [], None, [0, 5, 0]);
            BuildEdges(cfg) == [N6Edge(0), N6Edge(0)]
  {
  }

  lemma GnbOneResolves(cfg: GraphConfig)
    requires GnbCount(cfg) >= 1
    ensures Resolve(cfg, "gNB 1") == Some(Gnb(0))
  {
    NumeralLabels();
    ResolveGnbLabel(cfg, 0);
  }

  /** A link without type or styling between a UPF and a gNB becomes an unlabelled blue edge. */
  lemma PlainEdge(cfg: GraphConfig, l: Link)
    requires Resolve(cfg, l.nodeA) == Some(Upf(0)) && Resolve(cfg, l.nodeB) == Some(Gnb(0))
    requires l.kind == None && l.stroke == None && l.strokeWidth == None && l.dashArray == None
    ensures ExplicitEdges(cfg, [l]) == [Edge(At(Upf(0)), At(Gnb(0)), None, "", "#2563eb", None, None)]
  {
    ExplicitEdgesKeepOrder(cfg, [], [], l);
    var r := ExplicitEdges(cfg, [l]);
    assert |r| == 1;
    assert InterfaceOf(l.kind) == "" && ExplicitStroke(l) == "#2563eb";
    assert r[0] == Edge(At(Upf(0)), At(Gnb(0)), None, "", "#2563eb", None, None);
  }

  /** A plain link from "UPF 1" to "gNB 1" becomes an unlabelled blue edge between the two nodes. */
  lemma PlainLinkEdge(cfg: GraphConfig)
    requires |cfg.upfCoords| >= 1 && GnbCount(cfg) >= 1
    ensures ExplicitEdges(cfg, [Plain("UPF 1", "gNB 1")]) == [Edge(At(Upf(0)), At(Gnb(0)), None, "", "#2563eb", None, None)]
  {
    NumeralLabels();
    ResolveUpfLabel(cfg, 0);
    GnbOneResolves(cfg);
    PlainEdge(cfg, Plain("UPF 1", "gNB 1"));
  }

  /** The N3 pass adds nothing for a pair an earlier edge already joins the other way round. */
  lemma JoinedPairSkipped(edge: Edge, a: Endpoint, b: Endpoint)
    requires edge.source == b && edge.target == a
    ensures AddN3Pairs([edge], [(a, b)]) == [edge]
  {
    assert Joins([edge][0], a, b);
  }

  /** Assigning gNB "0" to UPF 0 makes the N3 pass visit that one pair. */
  lemma SinglePair(cfg: GraphConfig)
    requires |cfg.upfCoords| == 1 && cfg.gnbAssignments == [Assignment("0", [0])]
    ensures AssignedPairs(cfg, cfg.gnbAssignments) == [(At(Gnb(0)), At(Upf(0)))]
  {
    KeyZero(cfg);
    assert EntryPairs(cfg, Assignment("0", [0])) == [(At(Gnb(0)), At(Upf(0)))];
  }

  /** An explicit edge followed by the pair it already joins the other way round, then one UE edge. */
  lemma AssembleSuppressed(edge: Edge, a: Endpoint, b: Endpoint)
    requires edge.source == b && edge.target == a
    ensures Assemble([edge], [(a, b)], [], 1) == [edge, UeEdge(0)]
  {
    JoinedPairSkipped(edge, a, b);
    assert UeEdges(1) == [UeEdge(0)];
  }

  /** An explicit link already joining an assigned pair, in the other direction, suppresses its N3 edge. */
  lemma ExplicitLinkSuppressesN3(cfg: GraphConfig)
    requires |cfg.upfCoords| == 1 && cfg.gnbAssignments == [Assignment("0", [0])]
    requires cfg.links == [Plain("UPF 1", "gNB 1")] && cfg.dnsUpfConnections == []
    ensures BuildEdges(cfg) == [Edge(At(Upf(0)), At(Gnb(0)), None, "", "#2563eb", None, None), UeEdge(0)]
  {
    var edge := Edge(At(Upf(0)), At(Gnb(0)), None, "", "#2563eb", None, None);
    var ex := ExplicitEdges(cfg, cfg.links);
    var pairs := AssignedPairs(cfg, cfg.gnbAssignments);
    var n6 := N6Edges(cfg, cfg.dnsUpfConnections);
    PlainLinkEdge(cfg);
    SinglePair(cfg);
    assert ex == [edge] && pairs == [(At(Gnb(0)), At(Upf(0)))];
    assert n6 == [] && GnbCount(cfg) == 1;
    AssembleSuppressed(edge, At(Gnb(0)), At(Upf(0)));
    assert BuildEdges(cfg) == Assemble(ex, pairs, n6, GnbCount(cfg));
  }

  /**
    The static topology the backend serves: five UPFs, three gNBs each
    assigned to its own UPF and to the central fifth one, four untyped links
    to the central UPF, and the DN wired to the central UPF.
   */
  const StaticTopology: GraphConfig := GraphConfig(
    [Coord(0.3, 0.2), Coord(0.7, 0.2), Coord(0.3, 0.8), Coord(0.7, 0.8), Coord(0.5, 0.5)],
    [Assignment("0", [0, 4]), Assignment("1", [1, 4]), Assignment("2", [2, 4])],
    [Plain("UPF 1", "UPF 5"), Plain("UPF 2", "UPF 5"), Plain("UPF 3", "UPF 5"), Plain("UPF 4", "UPF 5")],
    Some("Core Network"),
    [4])

  lemma SmallNumerals()
    ensures DecimalString(0) == "0" && DecimalString(1) == "1" && DecimalString(2) == "2"
  {
  }

  /** An entry keyed by an existing gNB's numeral and listing existing UPFs resolves throughout. */
  lemma EntryResolves(cfg: GraphConfig, entry: Assignment, g: nat)
    requires g < GnbCount(cfg) && entry.key == DecimalString(g)
    requires forall j | 0 <= j < |entry.upfIndices| :: 0 <= entry.upfIndices[j] < |cfg.upfCoords|
    ensures forall j | 0 <= j < |entry.upfIndices| :: IndexResolves(cfg, entry, j)
  {
    GnbEndpointOfNumeral(cfg, g);
  }

  /** Every assignment of the static topology names an existing gNB and an existing UPF. */
  lemma StaticAssignmentsResolve(cfg: GraphConfig)
    requires |cfg.upfCoords| == 5
    requires cfg.gnbAssignments == StaticTopology.gnbAssignments
    ensures AssignmentsResolve(cfg)
  {
    SmallNumerals();
    var a := cfg.gnbAssignments;
    EntryResolves(cfg, a[0], 0);
    EntryResolves(cfg, a[1], 1);
    EntryResolves(cfg, a[2], 2);
  }

  /** The static topology draws twelve nodes, and the diagram renders. */
  lemma StaticTopologyRenders(cfg: GraphConfig, root: real -> real)
    requires |cfg.upfCoords| == 5
    requires cfg.gnbAssignments == StaticTopology.gnbAssignments
    ensures |AllNodes(cfg)| == 12
    ensures Render(cfg, root).Rendered?
  {
    AllNodesExactlyOnce(cfg);
    StaticAssignmentsResolve(cfg);
    RenderIff(cfg, root);
  }

  /** The DN of the static topology has exactly one N6 edge, from the central UPF. */
  lemma StaticTopologyN6(cfg: GraphConfig)
    requires |cfg.upfCoords| == 5 && cfg.dnsUpfConnections == [4]
    ensures N6Edges(cfg, cfg.dnsUpfConnections) == [N6Edge(4)]
  {
  }

  // ----- The configuration form -----

  /** Typing "2" and generating gives two blank UPF rows. */
  lemma TwoBlankRows(s: TopologyForm.FormState)
    ensures var t := TopologyForm.GenerateUpfs(TopologyForm.SetNumUpfs(s, "2"));
            t.Some? && t.value.upfConfigs == [TopologyForm.UpfConfig("", "", ""), TopologyForm.UpfConfig("", "", "")]
  {
    assert DecimalString(2) == "2";
    TopologyForm.CountInputDecimal(2);
    assert TopologyForm.SetNumUpfs(s, "2").numUpfs == 2;
  }

  /** Making the first of two blank rows PCA is accepted and wires the DN to it. */
  lemma FirstPcaAccepted(s: TopologyForm.FormState)
    requires s.upfConfigs == [TopologyForm.UpfConfig("", "", ""), TopologyForm.UpfConfig("", "", "")]
    ensures var t := TopologyForm.ChangeUpf(s, 0, TopologyForm.TypeField, "PCA");
            && t.upfConfigs == [TopologyForm.UpfConfig("PCA", "", ""), TopologyForm.UpfConfig("", "", "")]
            && t.dnsUpfConnections == [0]
  {
    var blank := TopologyForm.UpfConfig("", "", "");
    assert !TopologyForm.OtherPca(s.upfConfigs, 0);
    var t := TopologyForm.ChangeUpf(s, 0, TopologyForm.TypeField, "PCA");
    assert t.upfConfigs[0] == TopologyForm.UpfConfig("PCA", "", "");
    assert t.upfConfigs[1] == blank;
  }

  /** With the first row PCA, making the second PCA changes nothing but the error message. */
  lemma SecondPcaError(s: TopologyForm.FormState)
    requires s.upfConfigs == [TopologyForm.UpfConfig("PCA", "", ""), TopologyForm.UpfConfig("", "", "")]
    ensures TopologyForm.ChangeUpf(s, 1, TopologyForm.TypeField, "PCA") == s.(upfTypeError := TopologyForm.PcaError)
  {
    assert TopologyForm.IsPca(s.upfConfigs[0]);
  }

  /**
    Two blank UPFs; the first is made PCA, which wires it to the DN; making
    the second PCA as well is refused with the error message.
   */
  lemma SecondPcaRefused()
    ensures var events := [
              TopologyForm.TypeNumUpfs("2"),
              TopologyForm.SetUpfs,
              TopologyForm.EditUpf(0, TopologyForm.TypeField, "PCA"),
              TopologyForm.EditUpf(1, TopologyForm.TypeField, "PCA")];
            var r := TopologyForm.Run(TopologyForm.Initial.(isLoading := false), events);
            && r.Some?
            && |r.value.upfConfigs| == 2
            && r.value.upfConfigs[0].kind == "PCA"
            && r.value.upfConfigs[1].kind == ""
            && r.value.dnsUpfConnections == [0]
            && r.value.upfTypeError == "Only one UPF can be of type PCA"
  {
    var s0 := TopologyForm.Initial.(isLoading := false);
    var events := [
      TopologyForm.TypeNumUpfs("2"),
      TopologyForm.SetUpfs,
      TopologyForm.EditUpf(0, TopologyForm.TypeField, "PCA"),
      TopologyForm.EditUpf(1, TopologyForm.TypeField, "PCA")];
    TwoBlankRows(s0);
    var s1 := TopologyForm.SetNumUpfs(s0, "2");
    var s2 := TopologyForm.GenerateUpfs(s1).value;
    FirstPcaAccepted(s2);
    var s3 := TopologyForm.ChangeUpf(s2, 0, TopologyForm.TypeField, "PCA");
    SecondPcaError(s3);
    var s4 := TopologyForm.ChangeUpf(s3, 1, TopologyForm.TypeField, "PCA");
    assert TopologyForm.Run(s3, events[3..]) == Some(s4);
    assert TopologyForm.Run(s2, events[2..]) == Some(s4);
    assert TopologyForm.Run(s1, events[1..]) == Some(s4);
  }

  /** Only an edge UPF can be ticked for a gNB: a tick on an intermediate UPF is ignored. */
  lemma OnlyEdgeUpfsAssignable()
    ensures var s := TopologyForm.Initial.(upfConfigs := [
              TopologyForm.UpfConfig("edge", "0.2", "0.3"),
              TopologyForm.UpfConfig("intermediate", "0.5", "0.5")]);
            && TopologyForm.Assigned(TopologyForm.ToggleAssignment(s, 0, 0), 0) == [0]
            && TopologyForm.ToggleAssignment(s, 0, 1) == s
  {
  }

  // ----- The simulation queue -----

  /** Two adds and a delete: the queue keeps the second entry, with units, and the inputs are emptied. */
  lemma QueueScenario()
    ensures var s1 := SimulationQueue.AddToQueue(SimulationQueue.Initial.(packetSize := "1500", transmissionInterval := "20"));
            var s2 := SimulationQueue.AddToQueue(s1.(packetType := "Voice Traffic", packetSize := "160", transmissionInterval := "20"));
            var s3 := SimulationQueue.DeleteItem(s2, 0);
            && s3.queue == [SimulationQueue.QueueItem("Voice Traffic", "160 bytes", "20 ms")]
            && s3.packetSize == "" && s3.transmissionInterval == ""
  {
    var s0 := SimulationQueue.Initial.(packetSize := "1500", transmissionInterval := "20");
    assert SimulationQueue.Filled(s0);
    var s1 := SimulationQueue.AddToQueue(s0);
    assert SimulationQueue.Entry(s0) == SimulationQueue.QueueItem("Video Traffic", "1500 bytes", "20 ms");
    assert s1.queue == [SimulationQueue.QueueItem("Video Traffic", "1500 bytes", "20 ms")];
    var t1 := s1.(packetType := "Voice Traffic", packetSize := "160", transmissionInterval := "20");
    assert SimulationQueue.Filled(t1);
    var s2 := SimulationQueue.AddToQueue(t1);
    assert SimulationQueue.Entry(t1) == SimulationQueue.QueueItem("Voice Traffic", "160 bytes", "20 ms");
    assert s2.queue == s1.queue + [SimulationQueue.QueueItem("Voice Traffic", "160 bytes", "20 ms")];
    SimulationQueue.DeleteItemRemoves(s2, 0);
    assert SimulationQueue.DeleteItem(s2, 0).queue == s2.queue[1..];
  }
}
