/**
  The input of the topology diagram and the placement of its nodes on the
  800 x 500 canvas.  UPFs are placed from their normalised coordinates, gNBs
  are stacked on the left, each UE sits just left of its gNB, and the DN is
  fixed on the right.
 */
module Layout {
  import opened JsText

  const BaseWidth: real := 800.0
  const BaseHeight: real := 500.0

  /** A UPF coordinate as the configuration gives it, normally in [0,1] x [0,1]. */
  datatype Coord = Coord(x: real, y: real)

  /** A point of the canvas; y grows downwards. */
  datatype Pos = Pos(x: real, y: real)

  /** A node of the diagram: the `index`-th UPF, gNB or UE (0-based), or the single DN. */
  datatype NodeRef = Upf(index: nat) | Gnb(index: nat) | Ue(index: nat) | Dn

  /**
    One own property of the `gnbAssignments` object, in the object's key
    enumeration order: the key text and the UPF indices it lists.
   */
  datatype Assignment = Assignment(key: string, upfIndices: seq<int>)

  /** An explicit link; `kind` is the optional `type` field, the rest optional styling. */
  datatype Link = Link(
    nodeA: string,
    nodeB: string,
    kind: Option<string>,
    stroke: Option<string>,
    strokeWidth: Option<real>,
    dashArray: Option<string>)

  /** The properties the diagram component receives. */
  datatype GraphConfig = GraphConfig(
    upfCoords: seq<Coord>,
    gnbAssignments: seq<Assignment>,
    links: seq<Link>,
    dnsName: Option<string>,
    dnsUpfConnections: seq<int>)

  /** The number of gNBs is the number of keys of the assignment object. */
  function GnbCount(cfg: GraphConfig): nat {
    |cfg.gnbAssignments|
  }

  /** The node exists in the diagram built from `cfg`. */
  predicate Exists(cfg: GraphConfig, r: NodeRef) {
    match r
    case Upf(i) => i < |cfg.upfCoords|
    case Gnb(i) => i < GnbCount(cfg)
    case Ue(i) => i < GnbCount(cfg)
    case Dn => true
  }

  function UpfPos(c: Coord): Pos {
    Pos(BaseWidth * 0.5 + (c.x - 0.5) * 300.0, (1.0 - c.y) * BaseHeight)
  }

  /** `Math.max(1, n - 1)`, the divisor that spaces `n` gNBs. */
  function GnbSpacing(n: nat): real {
    if n >= 2 then (n - 1) as real else 1.0
  }

  /** How far down the column, as a fraction of the canvas height, the i-th of n gNBs sits below the first. */
  function GnbFraction(i: nat, n: nat): real {
    i as real * 0.6 / GnbSpacing(n)
  }

  function GnbPos(i: nat, n: nat): Pos {
    Pos(BaseWidth * 0.15, BaseHeight * (0.2 + GnbFraction(i, n)))
  }

  function UePos(i: nat, n: nat): Pos {
    var gnb := GnbPos(i, n);
    Pos(gnb.x - 50.0, gnb.y)
  }

  const DnPos: Pos := Pos(BaseWidth * 0.85, BaseHeight * 0.5)

  function Position(cfg: GraphConfig, r: NodeRef): Pos
    requires Exists(cfg, r)
  {
    match r
    case Upf(i) => UpfPos(cfg.upfCoords[i])
    case Gnb(i) => GnbPos(i, GnbCount(cfg))
    case Ue(i) => UePos(i, GnbCount(cfg))
    case Dn => DnPos
  }

  datatype PlacedNode = PlacedNode(ref: NodeRef, pos: Pos)

  function Place(cfg: GraphConfig, r: NodeRef): PlacedNode
    requires Exists(cfg, r)
  {
    PlacedNode(r, Position(cfg, r))
  }

  /** Every node of the diagram in drawing order: the UPFs, then the gNBs, then the UEs, then the DN. */
  function AllNodes(cfg: GraphConfig): seq<PlacedNode> {
    var u := |cfg.upfCoords|;
    var n := GnbCount(cfg);
    seq(u, i requires 0 <= i < u => Place(cfg, Upf(i)))
    + seq(n, i requires 0 <= i < n => Place(cfg, Gnb(i)))
    + seq(n, i requires 0 <= i < n => Place(cfg, Ue(i)))
    + [Place(cfg, Dn)]
  }

  /** The node at position k of the node list, by region. */
  function NodeAtIndex(u: nat, n: nat, k: nat): NodeRef {
    if k < u then Upf(k)
    else if k < u + n then Gnb(k - u)
    else if k < u + 2 * n then Ue(k - u - n)
    else Dn
  }

  lemma AllNodesIndex(cfg: GraphConfig, k: nat)
    requires k < |AllNodes(cfg)|
    ensures |AllNodes(cfg)| == |cfg.upfCoords| + 2 * GnbCount(cfg) + 1
    ensures AllNodes(cfg)[k].ref == NodeAtIndex(|cfg.upfCoords|, GnbCount(cfg), k)
    ensures Exists(cfg, AllNodes(cfg)[k].ref) && AllNodes(cfg)[k].pos == Position(cfg, AllNodes(cfg)[k].ref)
  {
  }

  /**
    The node list holds every node of the diagram exactly once, each at its
    own position, UPFs first and the DN last.
   */
  lemma AllNodesExactlyOnce(cfg: GraphConfig)
    ensures |AllNodes(cfg)| == |cfg.upfCoords| + 2 * GnbCount(cfg) + 1
    ensures forall k | 0 <= k < |AllNodes(cfg)| ::
      Exists(cfg, AllNodes(cfg)[k].ref) && AllNodes(cfg)[k].pos == Position(cfg, AllNodes(cfg)[k].ref)
    ensures forall r | Exists(cfg, r) :: exists k | 0 <= k < |AllNodes(cfg)| :: AllNodes(cfg)[k].ref == r
    ensures forall k, l | 0 <= k < l < |AllNodes(cfg)| :: AllNodes(cfg)[k].ref != AllNodes(cfg)[l].ref
    ensures forall k | 0 <= k < |cfg.upfCoords| :: AllNodes(cfg)[k].ref == Upf(k)
    ensures AllNodes(cfg)[|AllNodes(cfg)| - 1].ref == Dn
  {
    var nodes := AllNodes(cfg);
    var u := |cfg.upfCoords|;
    var n := GnbCount(cfg);
    AllNodesIndex(cfg, 0);
    forall k | 0 <= k < |nodes| ensures Exists(cfg, nodes[k].ref) && nodes[k].pos == Position(cfg, nodes[k].ref) {
      AllNodesIndex(cfg, k);
    }
    forall k | 0 <= k < u ensures nodes[k].ref == Upf(k) {
      AllNodesIndex(cfg, k);
    }
    AllNodesIndex(cfg, |nodes| - 1);
    forall r | Exists(cfg, r) ensures exists k | 0 <= k < |nodes| :: nodes[k].ref == r {
      var k := match r
        case Upf(i) => i
        case Gnb(i) => u + i
        case Ue(i) => u + n + i
        case Dn => u + 2 * n;
      AllNodesIndex(cfg, k);
    }
    forall k, l | 0 <= k < l < |nodes| ensures nodes[k].ref != nodes[l].ref {
      AllNodesIndex(cfg, k);
      AllNodesIndex(cfg, l);
    }
  }

  /**
    A UPF's coordinate maps affinely onto the canvas: the middle of the unit
    square goes to (400, 250), one unit of x spans 300 pixels, and the y axis
    is inverted so that y = 0 is the bottom edge and y = 1 the top edge.
   */
  lemma UpfPlacement(c: Coord, d: Coord)
    ensures UpfPos(Coord(0.5, 0.5)) == Pos(400.0, 250.0)
    ensures UpfPos(c).y == 500.0 - 500.0 * c.y
    ensures 0.0 <= c.y <= 1.0 ==> 0.0 <= UpfPos(c).y <= 500.0
    ensures 0.0 <= c.x <= 1.0 ==> 250.0 <= UpfPos(c).x <= 550.0
    ensures UpfPos(d).x - UpfPos(c).x == 300.0 * (d.x - c.x)
    ensures c.y < d.y ==> UpfPos(d).y < UpfPos(c).y
  {
  }

  /**
    The gNBs form a column at x = 120 between y = 100 and y = 400: the first
    sits at y = 100 (so a single gNB is at (120, 100)), the last of two or more
    at y = 400, and consecutive gNBs are 300 / (n - 1) apart, top to bottom.
   */
  lemma {:induction false} GnbColumn(n: nat, i: nat, j: nat)
    requires i <= j < n
    ensures GnbPos(i, n).x == 120.0
    ensures 100.0 <= GnbPos(i, n).y <= GnbPos(j, n).y <= 400.0
    ensures i < j ==> GnbPos(i, n).y < GnbPos(j, n).y
    ensures i == 0 ==> GnbPos(i, n).y == 100.0
    ensures 2 <= n && j == n - 1 ==> GnbPos(j, n).y == 400.0
    ensures 2 <= n ==> (GnbPos(j, n).y - GnbPos(i, n).y) * (n - 1) as real == (j - i) as real * 300.0
  {
    var fi, fj := GnbFraction(i, n), GnbFraction(j, n);
    FractionOrder(n, i, j);
    assert GnbPos(i, n).y == 100.0 + 500.0 * fi;
    assert GnbPos(j, n).y == 100.0 + 500.0 * fj;
    if 2 <= n {
      var w := (n - 1) as real;
      assert (fj - fi) * w == (j - i) as real * 0.6;
      assert (500.0 * fj - 500.0 * fi) * w == 500.0 * ((fj - fi) * w);
    }
  }

  /** The fractions grow with the index, from 0 for the first gNB to 0.6 for the last of two or more. */
  lemma FractionOrder(n: nat, i: nat, j: nat)
    requires i <= j < n
    ensures 0.0 <= GnbFraction(i, n) <= GnbFraction(j, n) <= 0.6
    ensures i < j ==> GnbFraction(i, n) < GnbFraction(j, n)
    ensures i == 0 ==> GnbFraction(i, n) == 0.0
    ensures 2 <= n && j == n - 1 ==> GnbFraction(j, n) == 0.6
    ensures 2 <= n ==> (GnbFraction(j, n) - GnbFraction(i, n)) * (n - 1) as real == (j - i) as real * 0.6
  {
    var d := GnbSpacing(n);
    var fi := GnbFraction(i, n);
    var fj := GnbFraction(j, n);
    assert 1.0 <= d && j as real <= d;
    QuotientOrder(0.0, i as real * 0.6, d);
    QuotientOrder(i as real * 0.6, j as real * 0.6, d);
    QuotientOrder(j as real * 0.6, 0.6 * d, d);
    QuotientCancel(0.6, d);
    QuotientCancel(0.0, d);
    QuotientTimes(i as real * 0.6, d);
    QuotientTimes(j as real * 0.6, d);
    assert (fj - fi) * d == fj * d - fi * d;
  }

  /** Dividing by a positive number keeps order. */
  lemma QuotientOrder(a: real, b: real, d: real)
    requires 0.0 < d && a <= b
    ensures a / d <= b / d
    ensures a < b ==> a / d < b / d
  {
    assert (b / d - a / d) * d == b - a;
  }

  lemma QuotientCancel(c: real, d: real)
    requires 0.0 < d
    ensures (c * d) / d == c
  {
  }

  lemma QuotientTimes(a: real, d: real)
    requires 0.0 < d
    ensures (a / d) * d == a
  {
  }

  /** Each UE sits 50 units left of its gNB, at the same height. */
  lemma UeBesideGnb(cfg: GraphConfig, i: nat)
    requires i < GnbCount(cfg)
    ensures Position(cfg, Ue(i)).y == Position(cfg, Gnb(i)).y
    ensures Position(cfg, Ue(i)).x == Position(cfg, Gnb(i)).x - 50.0 == 70.0
    ensures Position(cfg, Dn) == Pos(680.0, 250.0)
  {
  }
}
