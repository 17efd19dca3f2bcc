/**
  What the diagram draws: a circle-and-caption per node and, per edge, a line
  between the two node boundaries with an optional interface label above its
  middle.  `Math.sqrt` is a parameter `root`; the lemmas that need it to be
  the square root say so.  Rendering an edge whose end is `undefined` throws,
  which aborts the whole diagram.
 */
module Drawing {
  import opened JsText
  import opened Layout
  import opened Synthesis

  const UpfRadius: real := 20.0
  const GnbRadius: real := 16.0
  const UeRadius: real := 12.0
  const DnRadius: real := 20.0
  const DefaultRadius: real := 15.0

  /** The `type` field of a node's position object. */
  function NodeType(r: NodeRef): string {
    match r
    case Upf(_) => "upf"
    case Gnb(_) => "gnb"
    case Ue(_) => "ue"
    case Dn => "dns"
  }

  /** `getNodeRadius`: one radius per node type, 15 for any other type. */
  function RadiusOf(kind: string): (r: real)
    ensures r > 0.0
  {
    if kind == "upf" then UpfRadius
    else if kind == "gnb" then GnbRadius
    else if kind == "ue" then UeRadius
    else if kind == "dns" then DnRadius
    else DefaultRadius
  }

  /**
    Every node of the diagram has one of the four types, so the fallback
    radius is never used; UPFs and the DN are the largest nodes, UEs the
    smallest.
   */
  lemma NodeRadii(r: NodeRef)
    ensures RadiusOf(NodeType(r)) == match r
      case Upf(_) => 20.0
      case Gnb(_) => 16.0
      case Ue(_) => 12.0
      case Dn => 20.0
    ensures RadiusOf(NodeType(r)) != DefaultRadius
    ensures 12.0 <= RadiusOf(NodeType(r)) <= 20.0
  {
  }

  /** A line from (x1, y1) to (x2, y2). */
  datatype Segment = Segment(x1: real, y1: real, x2: real, y2: real)

  /** A vector of the canvas. */
  datatype Vec = Vec(x: real, y: real)

  /** The vector from `s` to `t`. */
  function Delta(s: Pos, t: Pos): Vec {
    Vec(t.x - s.x, t.y - s.y)
  }

  function SquaredLength(v: Vec): real {
    v.x * v.x + v.y * v.y
  }

  function Scale(v: Vec, k: real): Vec {
    Vec(v.x * k, v.y * k)
  }

  /** `distance || 1`: a zero distance is replaced by 1. */
  function Divisor(distance: real): (d: real)
    ensures d != 0.0
    ensures distance != 0.0 ==> d == distance
  {
    if distance == 0.0 then 1.0 else distance
  }

  /** The offset per unit of radius: the vector divided by `Math.sqrt` of its squared length, or by 1. */
  function Direction(v: Vec, root: real -> real): Vec {
    var d := Divisor(root(SquaredLength(v)));
    Vec(v.x / d, v.y / d)
  }

  /**
    `calculateLinkEndpoints`: move each end from the node's centre towards the
    other node by that node's radius.
   */
  function LinkEndpoints(s: Pos, rs: real, t: Pos, rt: real, root: real -> real): Segment {
    var o := Direction(Delta(s, t), root);
    Segment(s.x + o.x * rs, s.y + o.y * rs, t.x - o.x * rt, t.y - o.y * rt)
  }

  predicate IsRootOf(root: real -> real, v: real) {
    root(v) >= 0.0 && root(v) * root(v) == v
  }

  /** `root` is `Math.sqrt` on every squared length, which is where the diagram applies it. */
  ghost predicate ExactRoot(root: real -> real) {
    forall v: Vec :: IsRootOf(root, SquaredLength(v))
  }

  /** The squared distance from the centre `a` to the point (x, y). */
  function SquaredDistance(a: Pos, x: real, y: real): real {
    SquaredLength(Vec(x - a.x, y - a.y))
  }

  // Real-number algebra, stated on plain variables so the solver sees few
  // products at a time.

  lemma DivisionUndone(a: real, d: real)
    requires d != 0.0
    ensures (a / d) * d == a
  {
  }

  lemma SquareOfProduct(o: real, d: real)
    ensures (o * d) * (o * d) == (o * o) * (d * d)
  {
  }

  lemma Distribute(p: real, q: real, m: real)
    ensures (p + q) * m == p * m + q * m
  {
  }

  lemma MulStrict(a: real, b: real, m: real)
    requires a < b && m > 0.0
    ensures a * m < b * m
  {
  }

  lemma PositiveSquare(d: real)
    requires d != 0.0
    ensures d * d > 0.0
  {
    if d > 0.0 {
      assert d * d > 0.0 * d;
    } else {
      assert (-d) * (-d) > 0.0 * (-d);
    }
  }

  lemma NonZeroRoot(d: real, m: real)
    requires d * d == m && m != 0.0
    ensures d != 0.0
  {
  }

  lemma CancelSquare(x: real, d: real)
    requires d != 0.0
    requires x * (d * d) == d * d
    ensures x == 1.0
  {
    PositiveSquare(d);
    if x < 1.0 {
      MulStrict(x, 1.0, d * d);
    } else if x > 1.0 {
      MulStrict(1.0, x, d * d);
    }
  }

  /** (ox, oy) scaled by d is (dx, dy), so the two vectors are parallel. */
  lemma ScaledIsParallel(ox: real, oy: real, dx: real, dy: real, d: real)
    requires ox * d == dx && oy * d == dy
    ensures ox * dy == oy * dx
  {
    assert ox * dy == ox * (oy * d);
    assert oy * dx == oy * (ox * d);
  }

  /** (ox, oy) scaled by the length d of (dx, dy) is (dx, dy), so it has length 1. */
  lemma ScaledIsUnit(ox: real, oy: real, dx: real, dy: real, d: real)
    requires d != 0.0 && ox * d == dx && oy * d == dy && d * d == dx * dx + dy * dy
    ensures ox * ox + oy * oy == 1.0
  {
    calc {
      (ox * ox + oy * oy) * (d * d);
      == { Distribute(ox * ox, oy * oy, d * d); }
      (ox * ox) * (d * d) + (oy * oy) * (d * d);
      == { SquareOfProduct(ox, d); SquareOfProduct(oy, d); }
      (ox * d) * (ox * d) + (oy * d) * (oy * d);
      dx * dx + dy * dy;
      d * d;
    }
    CancelSquare(ox * ox + oy * oy, d);
  }

  /** Scaling a vector by k scales its squared length by k * k. */
  lemma ScaledSquaredLength(v: Vec, k: real)
    ensures SquaredLength(Scale(v, k)) == SquaredLength(v) * (k * k)
  {
    SquareOfProduct(v.x, k);
    SquareOfProduct(v.y, k);
    Distribute(v.x * v.x, v.y * v.y, k * k);
  }

  /** A point reached from `c` by `k` times a unit vector is at squared distance k * k from `c`. */
  lemma OnCircle(c: Pos, o: Vec, k: real, x: real, y: real)
    requires SquaredLength(o) == 1.0
    requires x == c.x + o.x * k && y == c.y + o.y * k
    ensures SquaredDistance(c, x, y) == k * k
  {
    assert Vec(x - c.x, y - c.y) == Scale(o, k);
    ScaledSquaredLength(o, k);
  }

  lemma OnCircleBack(c: Pos, o: Vec, k: real, x: real, y: real)
    requires SquaredLength(o) == 1.0
    requires x == c.x - o.x * k && y == c.y - o.y * k
    ensures SquaredDistance(c, x, y) == k * k
  {
    OnCircle(c, o, -k, x, y);
    assert (-k) * (-k) == k * k;
  }

  /** Scaling keeps a vector parallel to any vector it was parallel to. */
  lemma ScaledParallel(o: Vec, v: Vec, k: real)
    requires o.x * v.y == o.y * v.x
    ensures Scale(o, k).x * v.y == Scale(o, k).y * v.x
  {
    assert (o.x * k) * v.y == (o.x * v.y) * k;
    assert (o.y * k) * v.x == (o.y * v.x) * k;
  }

  /** The offset is parallel to the vector it was computed from, whatever `root` returns. */
  lemma DirectionParallel(v: Vec, root: real -> real)
    ensures Direction(v, root).x * v.y == Direction(v, root).y * v.x
  {
    var d := Divisor(root(SquaredLength(v)));
    DivisionUndone(v.x, d);
    DivisionUndone(v.y, d);
    ScaledIsParallel(v.x / d, v.y / d, v.x, v.y, d);
  }

  /** For a vector of non-zero length and an exact root, the offset is a unit vector. */
  lemma DirectionUnit(v: Vec, root: real -> real)
    requires SquaredLength(v) != 0.0
    requires IsRootOf(root, SquaredLength(v))
    ensures SquaredLength(Direction(v, root)) == 1.0
  {
    var d := root(SquaredLength(v));
    NonZeroRoot(d, SquaredLength(v));
    DivisionUndone(v.x, d);
    DivisionUndone(v.y, d);
    ScaledIsUnit(v.x / d, v.y / d, v.x, v.y, d);
  }

  /**
    For centres apart and an exact square root, each end of the line lies on
    the boundary circle of its node: at distance `rs` from the source centre
    and `rt` from the target centre.
   */
  lemma BoundaryTouch(s: Pos, rs: real, t: Pos, rt: real, root: real -> real)
    requires SquaredLength(Delta(s, t)) != 0.0
    requires IsRootOf(root, SquaredLength(Delta(s, t)))
    ensures SquaredDistance(s, LinkEndpoints(s, rs, t, rt, root).x1, LinkEndpoints(s, rs, t, rt, root).y1) == rs * rs
    ensures SquaredDistance(t, LinkEndpoints(s, rs, t, rt, root).x2, LinkEndpoints(s, rs, t, rt, root).y2) == rt * rt
  {
    var o := Direction(Delta(s, t), root);
    var seg := LinkEndpoints(s, rs, t, rt, root);
    DirectionUnit(Delta(s, t), root);
    OnCircle(s, o, rs, seg.x1, seg.y1);
    OnCircleBack(t, o, rt, seg.x2, seg.y2);
  }

  /** (x, y) lies on the line through `c` along `v`: its offset from `c` is parallel to `v`. */
  predicate OnLine(c: Pos, x: real, y: real, v: Vec) {
    (x - c.x) * v.y == (y - c.y) * v.x
  }

  /**
    Whatever the square root returns, both ends lie on the line through the two
    centres, and two nodes at the same place give a line of length zero at
    that place.
   */
  lemma EndsOnCentreLine(s: Pos, rs: real, t: Pos, rt: real, root: real -> real)
    ensures OnLine(s, LinkEndpoints(s, rs, t, rt, root).x1, LinkEndpoints(s, rs, t, rt, root).y1, Delta(s, t))
    ensures OnLine(t, LinkEndpoints(s, rs, t, rt, root).x2, LinkEndpoints(s, rs, t, rt, root).y2, Delta(s, t))
    ensures s == t ==> LinkEndpoints(s, rs, t, rt, root) == Segment(s.x, s.y, t.x, t.y)
  {
    var v := Delta(s, t);
    var o := Direction(v, root);
    var seg := LinkEndpoints(s, rs, t, rt, root);
    DirectionParallel(v, root);
    EndOnLine(s, seg.x1, seg.y1, o, v, rs);
    EndOnLine(t, seg.x2, seg.y2, o, v, -rt);
    if s == t {
      SameCentre(s, rs, rt, root);
    }
  }

  /** Two nodes at the same place: the offset is zero and the line collapses to that place. */
  lemma SameCentre(s: Pos, rs: real, rt: real, root: real -> real)
    ensures LinkEndpoints(s, rs, s, rt, root) == Segment(s.x, s.y, s.x, s.y)
  {
    ZeroDirection(Delta(s, s), root);
  }

  /** The zero vector gives a zero offset, whatever `root` returns. */
  lemma ZeroDirection(v: Vec, root: real -> real)
    requires v.x == 0.0 && v.y == 0.0
    ensures Direction(v, root) == Vec(0.0, 0.0)
  {
    ZeroQuotient(Divisor(root(SquaredLength(v))));
  }

  lemma ZeroQuotient(d: real)
    requires d != 0.0
    ensures 0.0 / d == 0.0
  {
  }

  /** A point `k` steps along `o` from `c` lies on the line through `c` along any `v` parallel to `o`. */
  lemma EndOnLine(c: Pos, x: real, y: real, o: Vec, v: Vec, k: real)
    requires o.x * v.y == o.y * v.x
    requires x == c.x + o.x * k && y == c.y + o.y * k
    ensures OnLine(c, x, y, v)
  {
    ScaledParallel(o, v, k);
  }

  /** Where the interface label is written: 8 units above the middle of the line. */
  function LabelPos(seg: Segment): Pos {
    Pos((seg.x1 + seg.x2) / 2.0, (seg.y1 + seg.y2) / 2.0 - 8.0)
  }

  /**
    Between two nodes of the same radius the label sits 8 units above the
    midpoint of the two centres, whatever the square root returns.
   */
  lemma LabelAboveMidpoint(s: Pos, t: Pos, r: real, root: real -> real)
    ensures LabelPos(LinkEndpoints(s, r, t, r, root)) == Pos((s.x + t.x) / 2.0, (s.y + t.y) / 2.0 - 8.0)
  {
    var seg := LinkEndpoints(s, r, t, r, root);
    assert seg.x1 + seg.x2 == s.x + t.x;
    assert seg.y1 + seg.y2 == s.y + t.y;
  }

  /** `link.strokeWidth || 2`: a missing or zero width draws 2 wide, so no line is drawn with width zero. */
  function StrokeWidth(w: Option<real>): (r: real)
    ensures r != 0.0
    ensures w.Some? && w.value != 0.0 ==> r == w.value
    ensures w.None? || w.value == 0.0 ==> r == 2.0
  {
    if w.Some? && w.value != 0.0 then w.value else 2.0
  }

  /** A label: its text, its colour and where it is written. */
  datatype Label = Label(text: string, fill: string, at: Pos)

  /** One drawn link. */
  datatype DrawnLink = DrawnLink(
    line: Segment,
    stroke: string,
    width: real,
    dashArray: Option<string>,
    annotation: Option<Label>)

  /** One drawn node: a circle (not for UEs) of the type's radius, and a caption below it. */
  datatype DrawnNode = DrawnNode(ref: NodeRef, center: Pos, radius: real, circle: bool, caption: string)

  datatype Scene = Scene(nodes: seq<DrawnNode>, links: seq<DrawnLink>)

  /** The diagram, or the position of the edge whose `undefined` end made rendering throw. */
  datatype RenderResult = Rendered(scene: Scene) | Crashed(edgeIndex: nat)

  /** `node.name || node.type`: UPFs carry their label, the DN its name (or "DNS"), the rest their type. */
  function Caption(cfg: GraphConfig, r: NodeRef): string {
    match r
    case Upf(_) => NodeLabel(r)
    case Dn => if cfg.dnsName.Some? && cfg.dnsName.value != "" then cfg.dnsName.value else "DNS"
    case _ => NodeType(r)
  }

  function DrawNode(cfg: GraphConfig, p: PlacedNode): DrawnNode {
    DrawnNode(p.ref, p.pos, RadiusOf(NodeType(p.ref)), !p.ref.Ue?, Caption(cfg, p.ref))
  }

  /** The end of an edge that is drawn: defined and naming an existing node. */
  predicate Drawable(cfg: GraphConfig, e: Edge) {
    e.source.At? && e.target.At? && Exists(cfg, e.source.ref) && Exists(cfg, e.target.ref)
  }

  function DrawEdge(cfg: GraphConfig, e: Edge, root: real -> real): (d: DrawnLink)
    requires Drawable(cfg, e)
    ensures d.annotation.Some? <==> e.iface != ""
  {
    var a := e.source.ref;
    var b := e.target.ref;
    var seg := LinkEndpoints(Position(cfg, a), RadiusOf(NodeType(a)), Position(cfg, b), RadiusOf(NodeType(b)), root);
    DrawnLink(seg, e.stroke, StrokeWidth(e.strokeWidth), e.dashArray,
      if e.iface != "" then Some(Label(e.iface, e.stroke, LabelPos(seg))) else None)
  }

  /** The position of the first edge with an `undefined` end, if any. */
  function FirstUndefined(edges: seq<Edge>): (r: Option<nat>)
    ensures r.None? <==> !SomeUndefinedEdge(edges)
    ensures r.Some? ==> r.value < |edges| && HasUndefinedEnd(edges[r.value])
    ensures r.Some? ==> forall m | 0 <= m < r.value :: !HasUndefinedEnd(edges[m])
  {
    if |edges| == 0 then None
    else if HasUndefinedEnd(edges[0]) then Some(0)
    else
      var rest := FirstUndefined(edges[1..]);
      assert SomeUndefinedEdge(edges) <==> SomeUndefinedEdge(edges[1..]) by {
        if SomeUndefinedEdge(edges) {
          var k :| 0 <= k < |edges| && HasUndefinedEnd(edges[k]);
          assert edges[1..][k - 1] == edges[k];
        }
        if SomeUndefinedEdge(edges[1..]) {
          var k :| 0 <= k < |edges[1..]| && HasUndefinedEnd(edges[1..][k]);
          assert edges[1..][k] == edges[k + 1];
        }
      }
      if rest.None? then None
      else
        assert forall m | 0 <= m < rest.value :: edges[1..][m] == edges[m + 1];
        Some(rest.value + 1)
  }

  /**
    Render the diagram: the links are drawn first, in edge order, and the
    first one with an `undefined` end throws; otherwise every node is drawn
    over them.
   */
  function Render(cfg: GraphConfig, root: real -> real): (r: RenderResult)
    ensures r.Crashed? ==> r.edgeIndex < |BuildEdges(cfg)|
  {
    var edges := BuildEdges(cfg);
    match FirstUndefined(edges)
    case Some(k) => Crashed(k)
    case None =>
      BuildEdgesEndpoints(cfg);
      assert forall k | 0 <= k < |edges| :: Drawable(cfg, edges[k]) by {
        forall k | 0 <= k < |edges| ensures Drawable(cfg, edges[k]) {
          assert !HasUndefinedEnd(edges[k]);
        }
      }
      var nodes := AllNodes(cfg);
      Rendered(Scene(
        seq(|nodes|, k requires 0 <= k < |nodes| => DrawNode(cfg, nodes[k])),
        seq(|edges|, k requires 0 <= k < |edges| => DrawEdge(cfg, edges[k], root))))
  }

  /**
    The diagram renders exactly when every gNB assignment names an existing
    gNB and lists only existing UPFs; otherwise it throws at the first N3 edge
    built from a bad assignment.
   */
  lemma RenderIff(cfg: GraphConfig, root: real -> real)
    ensures Render(cfg, root).Rendered? <==> AssignmentsResolve(cfg)
    ensures Render(cfg, root).Crashed? ==>
      && HasUndefinedEnd(BuildEdges(cfg)[Render(cfg, root).edgeIndex])
      && BuildEdges(cfg)[Render(cfg, root).edgeIndex].iface == "N3"
  {
    UndefinedEndpointIff(cfg);
    var edges := BuildEdges(cfg);
    if Render(cfg, root).Crashed? {
      var k := Render(cfg, root).edgeIndex;
      assert HasUndefinedEnd(edges[k]);
      UndefinedEdgesAreN3(cfg, k);
    }
  }

  /** Only N3 edges built from assignments can have an `undefined` end. */
  lemma UndefinedEdgesAreN3(cfg: GraphConfig, k: nat)
    requires k < |BuildEdges(cfg)| && HasUndefinedEnd(BuildEdges(cfg)[k])
    ensures BuildEdges(cfg)[k].iface == "N3"
  {
    var ex := ExplicitEdges(cfg, cfg.links);
    var pairs := AssignedPairs(cfg, cfg.gnbAssignments);
    var n6 := N6Edges(cfg, cfg.dnsUpfConnections);
    var n := GnbCount(cfg);
    var safe := (e: Edge) => HasUndefinedEnd(e) ==> e.iface == "N3";
    assert forall k | 0 <= k < |ex| :: safe(ex[k]) by {
      forall k | 0 <= k < |ex| ensures safe(ex[k]) {
        assert ResolvedEnds(cfg, ex[k]);
      }
    }
    assert forall k | 0 <= k < |n6| :: safe(n6[k]);
    assert forall i | 0 <= i < n :: safe(UeEdge(i));
    AssembleAll(ex, pairs, n6, n, safe);
    assert safe(BuildEdges(cfg)[k]);
  }

  /**
    A rendered diagram draws every node once, in node-list order, with a
    circle for every node but a UE, and every edge once, in edge order, in the
    edge's colour and with a label exactly when the edge has an interface.
   */
  lemma RenderedScene(cfg: GraphConfig, root: real -> real)
    requires AssignmentsResolve(cfg)
    ensures Render(cfg, root).Rendered?
    ensures var scene := Render(cfg, root).scene;
            var edges := BuildEdges(cfg);
            && |scene.nodes| == |AllNodes(cfg)|
            && (forall k | 0 <= k < |scene.nodes| ::
                  && scene.nodes[k].ref == AllNodes(cfg)[k].ref
                  && scene.nodes[k].center == AllNodes(cfg)[k].pos
                  && (scene.nodes[k].circle <==> !AllNodes(cfg)[k].ref.Ue?))
            && |scene.links| == |edges|
            && (forall k | 0 <= k < |edges| ::
                  && edges[k].source.At? && edges[k].target.At?
                  && scene.links[k].stroke == edges[k].stroke
                  && (scene.links[k].annotation.Some? <==> edges[k].iface != ""))
  {
    RenderIff(cfg, root);
  }

  /**
    With `Math.sqrt` exact, each drawn line of a rendered diagram starts on
    the source node's circle and ends on the target node's circle, whenever
    the two centres are apart.
   */
  lemma RenderedLinkTouches(cfg: GraphConfig, root: real -> real, k: nat)
    requires AssignmentsResolve(cfg)
    requires ExactRoot(root)
    requires k < |BuildEdges(cfg)|
    ensures Render(cfg, root).Rendered?
    ensures Drawable(cfg, BuildEdges(cfg)[k])
    ensures TouchesCircles(cfg, BuildEdges(cfg)[k], Render(cfg, root).scene.links[k].line)
  {
    RenderIff(cfg, root);
    RenderedLinks(cfg, root, k);
    DrawEdgeTouches(cfg, BuildEdges(cfg)[k], root);
  }

  lemma RenderedLinks(cfg: GraphConfig, root: real -> real, k: nat)
    requires !SomeUndefinedEdge(BuildEdges(cfg))
    requires k < |BuildEdges(cfg)|
    ensures Render(cfg, root).Rendered?
    ensures Drawable(cfg, BuildEdges(cfg)[k])
    ensures Render(cfg, root).scene.links[k] == DrawEdge(cfg, BuildEdges(cfg)[k], root)
  {
    BuildEdgesEndpoints(cfg);
    assert !HasUndefinedEnd(BuildEdges(cfg)[k]);
  }

  /**
    The line of edge `e` starts on the source node's circle and ends on the
    target node's circle, unless the two centres are at squared distance 0.
   */
  predicate TouchesCircles(cfg: GraphConfig, e: Edge, line: Segment)
    requires Drawable(cfg, e)
  {
    var s := Position(cfg, e.source.ref);
    var t := Position(cfg, e.target.ref);
    SquaredLength(Delta(s, t)) != 0.0 ==>
      && SquaredDistance(s, line.x1, line.y1) == RadiusOf(NodeType(e.source.ref)) * RadiusOf(NodeType(e.source.ref))
      && SquaredDistance(t, line.x2, line.y2) == RadiusOf(NodeType(e.target.ref)) * RadiusOf(NodeType(e.target.ref))
  }

  lemma DrawEdgeTouches(cfg: GraphConfig, e: Edge, root: real -> real)
    requires Drawable(cfg, e)
    requires ExactRoot(root)
    ensures TouchesCircles(cfg, e, DrawEdge(cfg, e, root).line)
  {
    var s := Position(cfg, e.source.ref);
    var t := Position(cfg, e.target.ref);
    if SquaredLength(Delta(s, t)) != 0.0 {
      assert IsRootOf(root, SquaredLength(Delta(s, t)));
      BoundaryTouch(s, RadiusOf(NodeType(e.source.ref)), t, RadiusOf(NodeType(e.target.ref)), root);
    }
  }

  /**
    The caption under UPF i is the very label an explicit link must use to
    reach it, so a link drawn between two captions always resolves.
   */
  lemma CaptionNamesNode(cfg: GraphConfig, i: nat)
    requires i < |cfg.upfCoords|
    ensures Resolve(cfg, Caption(cfg, Upf(i))) == Some(Upf(i))
    ensures Caption(cfg, Dn) != ""
  {
    ResolveNodeLabel(cfg, Upf(i));
  }
}
