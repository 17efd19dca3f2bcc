/**
  The edge list of the topology diagram.  Explicit links come first, in input
  order, after dropping every link with an endpoint label that names no node;
  then one N3 edge per assigned (gNB, UPF) pair that no earlier edge joins in
  either direction; then one N6 edge per in-range DN connection, without any
  de-duplication; then one dashed UE -> gNB edge per gNB.
 */
module Synthesis {
  import opened JsText
  import opened Layout

  /**
    What an array lookup of a node's position yields: the position object of
    an existing node, or `undefined`.  Position objects are unique per node,
    so JavaScript's identity comparison of them is equality of `NodeRef`s,
    and `undefined === undefined` holds.
   */
  datatype Endpoint = At(ref: NodeRef) | Undefined

  /** A link after processing; `iface` is the `interfaceType` label, "" for none. */
  datatype Edge = Edge(
    source: Endpoint,
    target: Endpoint,
    kind: Option<string>,
    iface: string,
    stroke: string,
    strokeWidth: Option<real>,
    dashArray: Option<string>)

  /** An endpoint that is either `undefined` or a node that exists. */
  predicate EndpointOk(cfg: GraphConfig, e: Endpoint) {
    e.At? ==> Exists(cfg, e.ref)
  }

  /** Both ends name existing nodes other than UEs, as every resolved explicit link does. */
  predicate ResolvedEnds(cfg: GraphConfig, e: Edge) {
    && e.source.At? && e.target.At?
    && Exists(cfg, e.source.ref) && Exists(cfg, e.target.ref)
    && !e.source.ref.Ue? && !e.target.ref.Ue?
  }

  predicate Touches(e: Edge, x: Endpoint) {
    e.source == x || e.target == x
  }

  /** The edge connects `a` and `b`, in either direction. */
  predicate Joins(e: Edge, a: Endpoint, b: Endpoint) {
    (e.source == a && e.target == b) || (e.source == b && e.target == a)
  }

  predicate Joined(edges: seq<Edge>, a: Endpoint, b: Endpoint) {
    exists k | 0 <= k < |edges| :: Joins(edges[k], a, b)
  }

  /** No edge before position `k` joins the two nodes that edge `k` joins. */
  predicate FreshAt(edges: seq<Edge>, k: nat)
    requires k < |edges|
  {
    forall m | 0 <= m < k :: !Joins(edges[m], edges[k].source, edges[k].target)
  }

  // ----- Resolving the node labels of explicit links -----

  /** `parseInt(name.split(" ")[1])`. */
  function LabelNumber(name: string): Option<int> {
    match SecondField(name)
    case None => None
    case Some(t) => ParseInt(t)
  }

  /**
    The node a link label names.  A label starting with "UPF" can only name a
    UPF and one starting with "gNB" only a gNB, the 1-based number after the
    first space choosing which; only a label with neither prefix is compared
    with the DN name.  UEs cannot be named.
   */
  function Resolve(cfg: GraphConfig, name: string): (r: Option<NodeRef>)
    ensures r.Some? ==> Exists(cfg, r.value) && !r.value.Ue?
    ensures StartsWith(name, "UPF") ==> r.None? || r.value.Upf?
    ensures !StartsWith(name, "UPF") && StartsWith(name, "gNB") ==> r.None? || r.value.Gnb?
    ensures r == Some(Dn) <==> !StartsWith(name, "UPF") && !StartsWith(name, "gNB") && cfg.dnsName == Some(name)
  {
    if StartsWith(name, "UPF") then
      var i := NumberedIndex(LabelNumber(name), |cfg.upfCoords|);
      if i.Some? then Some(Upf(i.value)) else None
    else if StartsWith(name, "gNB") then
      var i := NumberedIndex(LabelNumber(name), GnbCount(cfg));
      if i.Some? then Some(Gnb(i.value)) else None
    else if cfg.dnsName == Some(name) then Some(Dn)
    else None
  }

  /** The 0-based index a 1-based label number picks among `count` nodes, if any. */
  function NumberedIndex(num: Option<int>, count: nat): (r: Option<nat>)
    ensures r.Some? <==> num.Some? && 1 <= num.value <= count
    ensures r.Some? ==> r.value == num.value - 1 && r.value < count
  {
    match num
    case Some(k) => if 1 <= k <= count then Some(k - 1) else None
    case None => None
  }

  /** The label the configuration form and the diagram write for a UPF or gNB: "UPF 3", "gNB 1". */
  function NodeLabel(r: NodeRef): string
    requires r.Upf? || r.Gnb?
  {
    (if r.Upf? then "UPF" else "gNB") + " " + DecimalString(r.index + 1)
  }

  /** The number of "P k", for a prefix P without spaces, is k. */
  lemma LabelNumberOfNumeral(prefix: string, k: nat)
    requires ' ' !in prefix
    ensures LabelNumber(prefix + " " + DecimalString(k)) == Some(k)
  {
    var digits := DecimalString(k);
    assert ' ' !in digits by {
      forall i | 0 <= i < |digits| ensures digits[i] != ' ' {
        assert IsDecDigit(digits[i]);
      }
    }
    SecondFieldOfJoin(prefix, digits);
    ParseIntDecimal(k);
  }

  /** "P " + t starts with P. */
  lemma StartsWithJoin(p: string, t: string)
    ensures StartsWith(p + " " + t, p)
  {
    assert (p + " " + t)[..|p|] == p;
  }

  lemma ResolveUpfLabel(cfg: GraphConfig, i: nat)
    requires i < |cfg.upfCoords|
    ensures Resolve(cfg, NodeLabel(Upf(i))) == Some(Upf(i))
  {
    var digits := DecimalString(i + 1);
    var name := "UPF" + " " + digits;
    assert NodeLabel(Upf(i)) == name;
    LabelNumberOfNumeral("UPF", i + 1);
    StartsWithJoin("UPF", digits);
  }

  /** A label with the gNB prefix (and not the UPF one) resolves through its number alone. */
  lemma ResolveGnbNumber(cfg: GraphConfig, name: string)
    requires !StartsWith(name, "UPF") && StartsWith(name, "gNB")
    ensures Resolve(cfg, name) ==
      var i := NumberedIndex(LabelNumber(name), GnbCount(cfg)); if i.Some? then Some(Gnb(i.value)) else None
  {
  }

  lemma ResolveGnbLabel(cfg: GraphConfig, i: nat)
    requires i < GnbCount(cfg)
    ensures Resolve(cfg, NodeLabel(Gnb(i))) == Some(Gnb(i))
  {
    var digits := DecimalString(i + 1);
    var name := "gNB" + " " + digits;
    assert NodeLabel(Gnb(i)) == name;
    LabelNumberOfNumeral("gNB", i + 1);
    StartsWithJoin("gNB", digits);
    assert !StartsWith(name, "UPF") by {
      assert name[0] == 'g';
    }
    ResolveGnbNumber(cfg, name);
  }

  /** Every existing UPF and gNB is found again from its own label. */
  lemma ResolveNodeLabel(cfg: GraphConfig, r: NodeRef)
    requires (r.Upf? || r.Gnb?) && Exists(cfg, r)
    ensures Resolve(cfg, NodeLabel(r)) == Some(r)
  {
    if r.Upf? {
      ResolveUpfLabel(cfg, r.index);
    } else {
      ResolveGnbLabel(cfg, r.index);
    }
  }

  /**
    A label names a UPF exactly when its number is within 1..|UPFs|: "UPF 99"
    with two UPFs names nothing, and "UPF 0" names nothing either.
   */
  lemma ResolveUpfRange(cfg: GraphConfig, k: nat)
    ensures Resolve(cfg, "UPF " + DecimalString(k)).Some? <==> 1 <= k <= |cfg.upfCoords|
  {
    LabelNumberOfNumeral("UPF", k);
    StartsWithJoin("UPF", DecimalString(k));
    assert "UPF " + DecimalString(k) == "UPF" + " " + DecimalString(k);
  }

  /**
    A label names a gNB exactly when its number is within 1..|gNBs|: "gNB 0"
    and "gNB 99" with fewer gNBs name nothing.
   */
  lemma ResolveGnbRange(cfg: GraphConfig, k: nat)
    ensures Resolve(cfg, "gNB " + DecimalString(k)).Some? <==> 1 <= k <= GnbCount(cfg)
  {
    GnbLabelNumber(k);
    ResolveGnbNumbered(cfg, "gNB " + DecimalString(k), k);
  }

  /** "gNB k" is a gNB label, not a UPF one, and its number is k. */
  lemma GnbLabelNumber(k: nat)
    ensures !StartsWith("gNB " + DecimalString(k), "UPF")
    ensures StartsWith("gNB " + DecimalString(k), "gNB")
    ensures LabelNumber("gNB " + DecimalString(k)) == Some(k)
  {
    var name := "gNB " + DecimalString(k);
    assert name == "gNB" + " " + DecimalString(k);
    LabelNumberOfNumeral("gNB", k);
    StartsWithJoin("gNB", DecimalString(k));
    assert name[0] == 'g';
  }

  /** A "gNB" label with number k names a gNB exactly when 1 <= k <= |gNBs|. */
  lemma ResolveGnbNumbered(cfg: GraphConfig, name: string, k: int)
    requires !StartsWith(name, "UPF") && StartsWith(name, "gNB") && LabelNumber(name) == Some(k)
    ensures Resolve(cfg, name).Some? <==> 1 <= k <= GnbCount(cfg)
  {
    ResolveGnbNumber(cfg, name);
  }

  // ----- Explicit links -----

  /** The interface a declared link type stands for. */
  function InterfaceOf(kind: Option<string>): string {
    if kind == Some("upf-upf") then "N9"
    else if kind == Some("gnb-upf") then "N3"
    else if kind == Some("upf-dns") then "N6"
    else ""
  }

  /** gNB-UPF links are amber; any other link keeps a non-empty stroke of its own, else blue. */
  function ExplicitStroke(l: Link): string {
    if l.kind == Some("gnb-upf") then "#d97706"
    else if l.stroke.Some? && l.stroke.value != "" then l.stroke.value
    else "#2563eb"
  }

  /** The processed form of one explicit link, or `null` (here `None`) when a label names no node. */
  function ExplicitEdge(cfg: GraphConfig, l: Link): (r: Option<Edge>)
    ensures r.Some? ==> ResolvedEnds(cfg, r.value)
  {
    match (Resolve(cfg, l.nodeA), Resolve(cfg, l.nodeB))
    case (Some(a), Some(b)) =>
      Some(Edge(At(a), At(b), l.kind, InterfaceOf(l.kind), ExplicitStroke(l), l.strokeWidth, l.dashArray))
    case _ => None
  }

  /** `xs.map(f).filter(Boolean)`: the non-null results, in order. */
  function FilterMap<A, B>(xs: seq<A>, f: A -> Option<B>): (r: seq<B>)
    ensures |r| <= |xs|
  {
    if |xs| == 0 then [] else (match f(xs[0]) case Some(y) => [y] case None => []) + FilterMap(xs[1..], f)
  }

  /** Every result kept satisfies whatever every non-null result of `f` satisfies. */
  lemma {:induction false} FilterMapAll<A, B>(xs: seq<A>, f: A -> Option<B>, P: B -> bool)
    requires forall k | 0 <= k < |xs| :: f(xs[k]).Some? ==> P(f(xs[k]).value)
    ensures forall k | 0 <= k < |FilterMap(xs, f)| :: P(FilterMap(xs, f)[k])
  {
    if |xs| > 0 {
      assert forall k | 0 <= k < |xs[1..]| :: xs[1..][k] == xs[k + 1];
      FilterMapAll(xs[1..], f, P);
    }
  }

  lemma {:induction false} FilterMapAppend<A, B>(xs: seq<A>, ys: seq<A>, f: A -> Option<B>)
    ensures FilterMap(xs + ys, f) == FilterMap(xs, f) + FilterMap(ys, f)
  {
    if |xs| > 0 {
      assert (xs + ys)[0] == xs[0];
      assert (xs + ys)[1..] == xs[1..] + ys;
      FilterMapAppend(xs[1..], ys, f);
    } else {
      assert xs + ys == ys;
    }
  }

  function LinkProcessor(cfg: GraphConfig): Link -> Option<Edge> {
    l => ExplicitEdge(cfg, l)
  }

  /** `links.map(...).filter(Boolean)`. */
  function ExplicitEdges(cfg: GraphConfig, links: seq<Link>): (r: seq<Edge>)
    ensures |r| <= |links|
    ensures forall k | 0 <= k < |r| :: ResolvedEnds(cfg, r[k])
  {
    var f := LinkProcessor(cfg);
    var ok := (e: Edge) => ResolvedEnds(cfg, e);
    assert forall k | 0 <= k < |links| :: f(links[k]).Some? ==> ok(f(links[k]).value) by {
      forall k | 0 <= k < |links| ensures f(links[k]).Some? ==> ok(f(links[k]).value) {
        assert f(links[k]) == ExplicitEdge(cfg, links[k]);
      }
    }
    FilterMapAll(links, f, ok);
    FilterMap(links, f)
  }

  /**
    Filtering keeps the relative order of the links: processing a list is
    processing its parts one after the other, and a single link yields its
    edge exactly when both of its labels name a node.
   */
  lemma ExplicitEdgesKeepOrder(cfg: GraphConfig, a: seq<Link>, b: seq<Link>, l: Link)
    ensures ExplicitEdges(cfg, a + b) == ExplicitEdges(cfg, a) + ExplicitEdges(cfg, b)
    ensures |ExplicitEdges(cfg, [l])| == 1 <==> Resolve(cfg, l.nodeA).Some? && Resolve(cfg, l.nodeB).Some?
    ensures |ExplicitEdges(cfg, [l])| == 1 ==>
      ExplicitEdges(cfg, [l])[0] == Edge(At(Resolve(cfg, l.nodeA).value), At(Resolve(cfg, l.nodeB).value),
        l.kind, InterfaceOf(l.kind), ExplicitStroke(l), l.strokeWidth, l.dashArray)
  {
    FilterMapAppend(a, b, LinkProcessor(cfg));
    assert [l][1..] == [];
    assert LinkProcessor(cfg)([l][0]) == ExplicitEdge(cfg, l);
  }

  // ----- Implicit N3 edges from the gNB -> UPF assignments -----

  /** `gnbPositions[parseInt(gnbId)]`. */
  function GnbEndpoint(cfg: GraphConfig, key: string): (e: Endpoint)
    ensures e.At? ==> e.ref.Gnb? && Exists(cfg, e.ref)
  {
    match ParseInt(key)
    case Some(g) => if 0 <= g < GnbCount(cfg) then At(Gnb(g)) else Undefined
    case None => Undefined
  }

  /** A key holding the decimal numeral of an existing gNB's index names that gNB. */
  lemma GnbEndpointOfNumeral(cfg: GraphConfig, g: nat)
    requires g < GnbCount(cfg)
    ensures GnbEndpoint(cfg, DecimalString(g)) == At(Gnb(g))
  {
    ParseIntDecimal(g);
  }

  /** `upfPositions[upfIndex]`. */
  function UpfEndpoint(cfg: GraphConfig, u: int): (e: Endpoint)
    ensures e.At? <==> 0 <= u < |cfg.upfCoords|
    ensures e.At? ==> e == At(Upf(u))
  {
    if 0 <= u < |cfg.upfCoords| then At(Upf(u)) else Undefined
  }

  function N3Edge(a: Endpoint, b: Endpoint): Edge {
    Edge(a, b, Some("gnb-upf"), "N3", "#d97706", Some(2.0), None)
  }

  /** The ends of a visited pair: the source is `undefined` or an existing gNB, the target `undefined` or an existing UPF. */
  predicate PairEnds(cfg: GraphConfig, p: (Endpoint, Endpoint)) {
    && (p.0.At? ==> p.0.ref.Gnb? && Exists(cfg, p.0.ref))
    && (p.1.At? ==> p.1.ref.Upf? && Exists(cfg, p.1.ref))
  }

  /** The pair the inner `forEach` visits for the j-th index an entry lists. */
  function PairOf(cfg: GraphConfig, entry: Assignment, j: int): (Endpoint, Endpoint)
    requires 0 <= j < |entry.upfIndices|
  {
    (GnbEndpoint(cfg, entry.key), UpfEndpoint(cfg, entry.upfIndices[j]))
  }

  /** The (gNB, UPF) pairs of one assignment entry, in list order. */
  function EntryPairs(cfg: GraphConfig, entry: Assignment): (r: seq<(Endpoint, Endpoint)>)
    ensures |r| == |entry.upfIndices|
    ensures forall j | 0 <= j < |r| :: PairEnds(cfg, r[j])
  {
    seq(|entry.upfIndices|, j requires 0 <= j < |entry.upfIndices| => PairOf(cfg, entry, j))
  }

  /** The pairs the two nested `forEach` loops visit, in visiting order. */
  function AssignedPairs(cfg: GraphConfig, entries: seq<Assignment>): (r: seq<(Endpoint, Endpoint)>)
    ensures forall j | 0 <= j < |r| :: PairEnds(cfg, r[j])
  {
    if |entries| == 0 then []
    else
      var head := EntryPairs(cfg, entries[0]);
      var rest := AssignedPairs(cfg, entries[1..]);
      assert forall j | 0 <= j < |head + rest| :: PairEnds(cfg, (head + rest)[j]) by {
        forall j | 0 <= j < |head + rest| ensures PairEnds(cfg, (head + rest)[j]) {
          if j < |head| {
            assert (head + rest)[j] == head[j];
          } else {
            assert (head + rest)[j] == rest[j - |head|];
          }
        }
      }
      head + rest
  }

  /** The pairs of each entry, one sequence per entry. */
  function PairsPerEntry(cfg: GraphConfig, entries: seq<Assignment>): (r: seq<seq<(Endpoint, Endpoint)>>)
    ensures |r| == |entries|
  {
    seq(|entries|, i requires 0 <= i < |entries| => EntryPairs(cfg, entries[i]))
  }

  /** The parts of a sequence of sequences, joined in order. */
  function Flatten<T>(parts: seq<seq<T>>): seq<T> {
    if |parts| == 0 then [] else parts[0] + Flatten(parts[1..])
  }

  /** The two nested loops visit the entries' pairs one entry after another. */
  lemma {:induction false} AssignedPairsFlatten(cfg: GraphConfig, entries: seq<Assignment>)
    ensures AssignedPairs(cfg, entries) == Flatten(PairsPerEntry(cfg, entries))
  {
    if |entries| > 0 {
      AssignedPairsFlatten(cfg, entries[1..]);
      assert PairsPerEntry(cfg, entries)[1..] == PairsPerEntry(cfg, entries[1..]);
    }
  }

  /** Element j of part i sits at position m of the joined parts. */
  lemma {:induction false} FlattenIndex<T>(parts: seq<seq<T>>, i: nat, j: nat) returns (m: nat)
    requires i < |parts| && j < |parts[i]|
    ensures m < |Flatten(parts)| && Flatten(parts)[m] == parts[i][j]
  {
    if i == 0 {
      m := j;
    } else {
      var m' := FlattenIndex(parts[1..], i - 1, j);
      m := |parts[0]| + m';
    }
  }

  /** Every position of the joined parts holds some element of some part. */
  lemma {:induction false} FlattenSource<T>(parts: seq<seq<T>>, m: nat) returns (i: nat, j: nat)
    requires m < |Flatten(parts)|
    ensures i < |parts| && j < |parts[i]| && Flatten(parts)[m] == parts[i][j]
  {
    if m < |parts[0]| {
      i, j := 0, m;
    } else {
      var i', j' := FlattenSource(parts[1..], m - |parts[0]|);
      i, j := i' + 1, j';
    }
  }

  /** The j-th pair of an entry is the pair of its j-th listed index. */
  lemma EntryPairsIndex(cfg: GraphConfig, entry: Assignment, j: nat)
    requires j < |entry.upfIndices|
    ensures EntryPairs(cfg, entry)[j] == PairOf(cfg, entry, j)
  {
  }

  /** Where the pair of entry i's j-th listed index sits among the visited pairs. */
  lemma AssignedPairsIndex(cfg: GraphConfig, entries: seq<Assignment>, i: nat, j: nat)
    returns (m: nat)
    requires i < |entries| && j < |entries[i].upfIndices|
    ensures m < |AssignedPairs(cfg, entries)|
    ensures AssignedPairs(cfg, entries)[m] == PairOf(cfg, entries[i], j)
  {
    AssignedPairsFlatten(cfg, entries);
    var parts := PairsPerEntry(cfg, entries);
    assert parts[i] == EntryPairs(cfg, entries[i]);
    m := FlattenIndex(parts, i, j);
    EntryPairsIndex(cfg, entries[i], j);
  }

  /** Which entry and which listed index each visited pair comes from. */
  lemma AssignedPairsSource(cfg: GraphConfig, entries: seq<Assignment>, m: nat)
    returns (i: nat, j: nat)
    requires m < |AssignedPairs(cfg, entries)|
    ensures i < |entries| && j < |entries[i].upfIndices|
    ensures AssignedPairs(cfg, entries)[m] == PairOf(cfg, entries[i], j)
  {
    AssignedPairsFlatten(cfg, entries);
    var parts := PairsPerEntry(cfg, entries);
    i, j := FlattenSource(parts, m);
    assert parts[i] == EntryPairs(cfg, entries[i]);
    EntryPairsIndex(cfg, entries[i], j);
  }

  /** The pairs visited are exactly the (key, listed index) combinations of the entries. */
  lemma AssignedPairsMembers(cfg: GraphConfig, entries: seq<Assignment>, p: (Endpoint, Endpoint))
    ensures p in AssignedPairs(cfg, entries) <==>
      exists i, j | 0 <= i < |entries| && 0 <= j < |entries[i].upfIndices| :: p == PairOf(cfg, entries[i], j)
  {
    var pairs := AssignedPairs(cfg, entries);
    if p in pairs {
      var m :| 0 <= m < |pairs| && pairs[m] == p;
      var i, j := AssignedPairsSource(cfg, entries, m);
    }
    if exists i, j | 0 <= i < |entries| && 0 <= j < |entries[i].upfIndices| :: p == PairOf(cfg, entries[i], j) {
      var i, j :| 0 <= i < |entries| && 0 <= j < |entries[i].upfIndices| && p == PairOf(cfg, entries[i], j);
      var m := AssignedPairsIndex(cfg, entries, i, j);
    }
  }

  /** One step of the N3 pass: push an edge for the pair unless some edge already joins it. */
  function AddN3(edges: seq<Edge>, a: Endpoint, b: Endpoint): seq<Edge> {
    if Joined(edges, a, b) then edges else edges + [N3Edge(a, b)]
  }

  /** The N3 pass over a list of pairs; it only ever appends. */
  function AddN3Pairs(edges: seq<Edge>, pairs: seq<(Endpoint, Endpoint)>): (r: seq<Edge>)
    decreases |pairs|
    ensures |edges| <= |r| <= |edges| + |pairs|
    ensures r[..|edges|] == edges
  {
    if |pairs| == 0 then edges
    else
      var r := AddN3Pairs(AddN3(edges, pairs[0].0, pairs[0].1), pairs[1..]);
      assert r[..|edges|] == AddN3(edges, pairs[0].0, pairs[0].1)[..|edges|][..|edges|];
      r
  }

  /**
    Every edge the N3 pass appends is an N3 edge for one of the pairs, and no
    earlier edge joins the two nodes it joins.
   */
  lemma {:induction false} AddN3PairsAdded(edges: seq<Edge>, pairs: seq<(Endpoint, Endpoint)>)
    decreases |pairs|
    ensures forall k | |edges| <= k < |AddN3Pairs(edges, pairs)| ::
      && AddN3Pairs(edges, pairs)[k] == N3Edge(AddN3Pairs(edges, pairs)[k].source, AddN3Pairs(edges, pairs)[k].target)
      && (AddN3Pairs(edges, pairs)[k].source, AddN3Pairs(edges, pairs)[k].target) in pairs
      && FreshAt(AddN3Pairs(edges, pairs), k)
  {
    var r := AddN3Pairs(edges, pairs);
    if |pairs| > 0 {
      var next := AddN3(edges, pairs[0].0, pairs[0].1);
      assert r == AddN3Pairs(next, pairs[1..]);
      AddN3PairsAdded(next, pairs[1..]);
      assert r[..|next|] == next;
      forall k | |edges| <= k < |r|
        ensures r[k] == N3Edge(r[k].source, r[k].target) && (r[k].source, r[k].target) in pairs && FreshAt(r, k)
      {
        if k < |next| {
          assert !Joined(edges, pairs[0].0, pairs[0].1);
          assert k == |edges| && next[k] == N3Edge(pairs[0].0, pairs[0].1);
          assert r[k] == next[k];
          assert pairs[0] in pairs;
          forall m | 0 <= m < k ensures !Joins(r[m], r[k].source, r[k].target) {
            assert r[m] == next[m] == edges[m];
          }
        } else {
          var p := (r[k].source, r[k].target);
          assert p in pairs[1..];
          var j :| 0 <= j < |pairs[1..]| && pairs[1..][j] == p;
          assert pairs[j + 1] == p;
        }
      }
    }
  }

  /** After the N3 pass, every pair is joined by some edge. */
  lemma {:induction false} AddN3PairsJoins(edges: seq<Edge>, pairs: seq<(Endpoint, Endpoint)>)
    decreases |pairs|
    ensures forall p | p in pairs :: Joined(AddN3Pairs(edges, pairs), p.0, p.1)
  {
    if |pairs| > 0 {
      var next := AddN3(edges, pairs[0].0, pairs[0].1);
      var r := AddN3Pairs(edges, pairs);
      AddN3PairsJoins(next, pairs[1..]);
      assert r[..|next|] == next;
      assert Joined(next, pairs[0].0, pairs[0].1) by {
        if !Joined(edges, pairs[0].0, pairs[0].1) {
          assert Joins(next[|edges|], pairs[0].0, pairs[0].1);
        }
      }
      assert Joined(r, pairs[0].0, pairs[0].1) by {
        var k :| 0 <= k < |next| && Joins(next[k], pairs[0].0, pairs[0].1);
        assert r[k] == next[k];
      }
      assert forall p | p in pairs :: p == pairs[0] || p in pairs[1..];
    }
  }

  // ----- Implicit N6 and UE edges -----

  /** The DN connections that name an existing UPF, in order, repeats kept. */
  function InRangeUpfs(cfg: GraphConfig, conns: seq<int>): (r: seq<int>)
    ensures |r| <= |conns|
    ensures forall k | 0 <= k < |r| :: 0 <= r[k] < |cfg.upfCoords|
    ensures forall x :: x in r <==> x in conns && 0 <= x < |cfg.upfCoords|
  {
    if |conns| == 0 then []
    else
      (if 0 <= conns[0] < |cfg.upfCoords| then [conns[0]] else []) + InRangeUpfs(cfg, conns[1..])
  }

  /**
    The filter distributes over concatenation: the kept connections come in
    listed order, each as often as it is listed.
   */
  lemma {:induction false} InRangeUpfsAppend(cfg: GraphConfig, a: seq<int>, b: seq<int>)
    ensures InRangeUpfs(cfg, a + b) == InRangeUpfs(cfg, a) + InRangeUpfs(cfg, b)
    decreases |a|
  {
    if |a| > 0 {
      var h := if 0 <= a[0] < |cfg.upfCoords| then [a[0]] else [];
      assert (a + b)[0] == a[0];
      assert (a + b)[1..] == a[1..] + b;
      assert InRangeUpfs(cfg, a + b) == h + InRangeUpfs(cfg, a[1..] + b);
      assert InRangeUpfs(cfg, a) == h + InRangeUpfs(cfg, a[1..]);
      InRangeUpfsAppend(cfg, a[1..], b);
    } else {
      assert a + b == b;
    }
  }

  /** A single connection is kept exactly when it names an existing UPF. */
  lemma InRangeUpfsSingle(cfg: GraphConfig, u: int)
    ensures InRangeUpfs(cfg, [u]) == if 0 <= u < |cfg.upfCoords| then [u] else []
  {
    assert [u][1..] == [];
  }

  function N6Edge(u: nat): Edge {
    Edge(At(Upf(u)), At(Dn), Some("upf-dns"), "N6", "#ea580c", Some(3.0), None)
  }

  /** The N6 pass: one UPF -> DN edge per in-range connection, in order, never de-duplicated. */
  function N6Edges(cfg: GraphConfig, conns: seq<int>): (r: seq<Edge>)
    ensures |r| == |InRangeUpfs(cfg, conns)|
    ensures forall k | 0 <= k < |r| :: r[k] == N6Edge(InRangeUpfs(cfg, conns)[k])
  {
    if |conns| == 0 then []
    else
      (if 0 <= conns[0] < |cfg.upfCoords| then [N6Edge(conns[0])] else []) + N6Edges(cfg, conns[1..])
  }

  function UeEdge(i: nat): Edge {
    Edge(At(Ue(i)), At(Gnb(i)), Some("ue-gnb"), "", "#10b981", Some(1.5), Some("4"))
  }

  function UeEdges(n: nat): seq<Edge> {
    seq(n, i requires 0 <= i < n => UeEdge(i))
  }

  // ----- The whole edge list -----

  /**
    The implicit passes in order, after the explicit edges `ex`: the N3 pass
    over the visited `pairs`, then the N6 edges, then one UE edge for each of
    `n` gNBs.
   */
  function Assemble(ex: seq<Edge>, pairs: seq<(Endpoint, Endpoint)>, n6: seq<Edge>, n: nat): seq<Edge> {
    AddN3Pairs(ex, pairs) + n6 + UeEdges(n)
  }

  /** `processedLinks` once all three implicit passes have run. */
  function BuildEdges(cfg: GraphConfig): seq<Edge> {
    Assemble(ExplicitEdges(cfg, cfg.links), AssignedPairs(cfg, cfg.gnbAssignments),
      N6Edges(cfg, cfg.dnsUpfConnections), GnbCount(cfg))
  }

  /** A property of every explicit edge, every N3 edge of a pair, every N6 edge and every UE edge holds of the whole list. */
  lemma AssembleAll(ex: seq<Edge>, pairs: seq<(Endpoint, Endpoint)>, n6: seq<Edge>, n: nat, P: Edge -> bool)
    requires forall k | 0 <= k < |ex| :: P(ex[k])
    requires forall j | 0 <= j < |pairs| :: P(N3Edge(pairs[j].0, pairs[j].1))
    requires forall k | 0 <= k < |n6| :: P(n6[k])
    requires forall i | 0 <= i < n :: P(UeEdge(i))
    ensures forall k | 0 <= k < |Assemble(ex, pairs, n6, n)| :: P(Assemble(ex, pairs, n6, n)[k])
  {
    var n3 := AddN3Pairs(ex, pairs);
    AddN3PairsAdded(ex, pairs);
    assert n3[..|ex|] == ex;
    forall k | 0 <= k < |n3| ensures P(n3[k]) {
      if k < |ex| {
        assert n3[k] == ex[k];
      } else {
        assert n3[k] == N3Edge(n3[k].source, n3[k].target) && (n3[k].source, n3[k].target) in pairs;
        var j :| 0 <= j < |pairs| && pairs[j] == (n3[k].source, n3[k].target);
        assert P(N3Edge(pairs[j].0, pairs[j].1));
      }
    }
    AllOfConcat(n3, n6, P);
    AllOfConcat(n3 + n6, UeEdges(n), P);
  }

  /** A property of every edge of two lists holds of every edge of their concatenation. */
  lemma AllOfConcat(s: seq<Edge>, t: seq<Edge>, P: Edge -> bool)
    requires forall k | 0 <= k < |s| :: P(s[k])
    requires forall k | 0 <= k < |t| :: P(t[k])
    ensures forall k | 0 <= k < |s + t| :: P((s + t)[k])
  {
    forall k | 0 <= k < |s + t| ensures P((s + t)[k]) {
      if k < |s| {
        assert (s + t)[k] == s[k];
      } else {
        assert (s + t)[k] == t[k - |s|];
      }
    }
  }

  /** Every defined endpoint of every edge names an existing node. */
  lemma BuildEdgesEndpoints(cfg: GraphConfig)
    ensures forall k | 0 <= k < |BuildEdges(cfg)| ::
      EndpointOk(cfg, BuildEdges(cfg)[k].source) && EndpointOk(cfg, BuildEdges(cfg)[k].target)
  {
    var ok := (e: Edge) => EndpointOk(cfg, e.source) && EndpointOk(cfg, e.target);
    var ex := ExplicitEdges(cfg, cfg.links);
    var pairs := AssignedPairs(cfg, cfg.gnbAssignments);
    var n6 := N6Edges(cfg, cfg.dnsUpfConnections);
    assert forall k | 0 <= k < |ex| :: ok(ex[k]) by {
      forall k | 0 <= k < |ex| ensures ok(ex[k]) {
        assert ResolvedEnds(cfg, ex[k]);
      }
    }
    assert forall j | 0 <= j < |pairs| :: ok(N3Edge(pairs[j].0, pairs[j].1)) by {
      forall j | 0 <= j < |pairs| ensures ok(N3Edge(pairs[j].0, pairs[j].1)) {
        assert PairEnds(cfg, pairs[j]);
      }
    }
    assert forall k | 0 <= k < |n6| :: ok(n6[k]);
    assert forall i | 0 <= i < GnbCount(cfg) :: ok(UeEdge(i));
    AssembleAll(ex, pairs, n6, GnbCount(cfg), ok);
  }

  /**
    The edge list is the surviving explicit links in input order, then the
    N3 edges the pass added (at most one per visited pair), then one N6 edge
    per in-range DN connection, then exactly one UE edge per gNB.
   */
  lemma BuildEdgesLayout(cfg: GraphConfig)
    ensures var ex := ExplicitEdges(cfg, cfg.links);
            var n3 := AddN3Pairs(ex, AssignedPairs(cfg, cfg.gnbAssignments));
            var added := |n3| - |ex|;
            var all := BuildEdges(cfg);
            && 0 <= added <= |AssignedPairs(cfg, cfg.gnbAssignments)|
            && |all| == |ex| + added + |InRangeUpfs(cfg, cfg.dnsUpfConnections)| + GnbCount(cfg)
            && all[..|ex|] == ex
            && all[|all| - GnbCount(cfg)..] == UeEdges(GnbCount(cfg))
  {
    var ex := ExplicitEdges(cfg, cfg.links);
    var n3 := AddN3Pairs(ex, AssignedPairs(cfg, cfg.gnbAssignments));
    var all := BuildEdges(cfg);
    assert all[..|ex|] == n3[..|ex|];
  }

  predicate IsUe(x: Endpoint) {
    x.At? && x.ref.Ue?
  }

  /** Neither end is a UE. */
  predicate AvoidsUes(e: Edge) {
    !IsUe(e.source) && !IsUe(e.target)
  }

  /** After edges that avoid UEs, the UE pass adds exactly one edge touching UE i, the i-th. */
  lemma UePassTouchesOnce(before: seq<Edge>, n: nat, i: nat)
    requires i < n
    requires forall k | 0 <= k < |before| :: AvoidsUes(before[k])
    ensures var all := before + UeEdges(n);
            forall k | 0 <= k < |all| :: Touches(all[k], At(Ue(i))) <==> k == |before| + i
  {
    var all := before + UeEdges(n);
    forall k | 0 <= k < |all| ensures Touches(all[k], At(Ue(i))) <==> k == |before| + i {
      if k < |before| {
        assert all[k] == before[k];
      } else {
        assert all[k] == UeEdge(k - |before|);
      }
    }
  }

  /** When no explicit edge, visited pair or N6 edge involves a UE, UE i takes part only in the i-th UE edge. */
  lemma AssembleUeUnique(ex: seq<Edge>, pairs: seq<(Endpoint, Endpoint)>, n6: seq<Edge>, n: nat, i: nat)
    requires i < n
    requires forall k | 0 <= k < |ex| :: AvoidsUes(ex[k])
    requires forall j | 0 <= j < |pairs| :: AvoidsUes(N3Edge(pairs[j].0, pairs[j].1))
    requires forall k | 0 <= k < |n6| :: AvoidsUes(n6[k])
    ensures var all := Assemble(ex, pairs, n6, n);
            var at := |all| - n + i;
            && all[at] == UeEdge(i)
            && forall k | 0 <= k < |all| :: Touches(all[k], At(Ue(i))) <==> k == at
  {
    var before := AddN3Pairs(ex, pairs) + n6;
    AssembleAll(ex, pairs, n6, 0, AvoidsUes);
    assert Assemble(ex, pairs, n6, 0) == before;
    UePassTouchesOnce(before, n, i);
    assert Assemble(ex, pairs, n6, n) == before + UeEdges(n);
  }

  /**
    Terminal pairing: UE i takes part in exactly one edge, the dashed,
    unlabelled UE i -> gNB i edge, and it sits at position i of the last
    `GnbCount` edges.
   */
  lemma UeEdgeUnique(cfg: GraphConfig, i: nat)
    requires i < GnbCount(cfg)
    ensures var all := BuildEdges(cfg);
            var at := |all| - GnbCount(cfg) + i;
            && all[at] == UeEdge(i)
            && all[at].iface == "" && all[at].dashArray == Some("4")
            && forall k | 0 <= k < |all| :: Touches(all[k], At(Ue(i))) <==> k == at
  {
    var ex := ExplicitEdges(cfg, cfg.links);
    var pairs := AssignedPairs(cfg, cfg.gnbAssignments);
    var n6 := N6Edges(cfg, cfg.dnsUpfConnections);
    assert forall k | 0 <= k < |ex| :: AvoidsUes(ex[k]) by {
      forall k | 0 <= k < |ex| ensures AvoidsUes(ex[k]) {
        assert ResolvedEnds(cfg, ex[k]);
      }
    }
    assert forall j | 0 <= j < |pairs| :: AvoidsUes(N3Edge(pairs[j].0, pairs[j].1)) by {
      forall j | 0 <= j < |pairs| ensures AvoidsUes(N3Edge(pairs[j].0, pairs[j].1)) {
        assert PairEnds(cfg, pairs[j]);
      }
    }
    AssembleUeUnique(ex, pairs, n6, GnbCount(cfg), i);
  }

  // ----- Counting the edges that join a pair -----

  function CountJoins(edges: seq<Edge>, a: Endpoint, b: Endpoint): nat {
    if |edges| == 0 then 0
    else (if Joins(edges[0], a, b) then 1 else 0) + CountJoins(edges[1..], a, b)
  }

  lemma {:induction false} CountJoinsAppend(s: seq<Edge>, t: seq<Edge>, a: Endpoint, b: Endpoint)
    ensures CountJoins(s + t, a, b) == CountJoins(s, a, b) + CountJoins(t, a, b)
  {
    if |s| > 0 {
      assert (s + t)[0] == s[0];
      assert (s + t)[1..] == s[1..] + t;
      CountJoinsAppend(s[1..], t, a, b);
    } else {
      assert s + t == t;
    }
  }

  lemma JoinedCons(s: seq<Edge>, a: Endpoint, b: Endpoint)
    requires |s| > 0
    ensures Joined(s, a, b) <==> Joins(s[0], a, b) || Joined(s[1..], a, b)
  {
    if Joined(s[1..], a, b) {
      var k :| 0 <= k < |s[1..]| && Joins(s[1..][k], a, b);
      assert s[1..][k] == s[k + 1];
    }
    if Joined(s, a, b) && !Joins(s[0], a, b) {
      var k :| 0 <= k < |s| && Joins(s[k], a, b);
      assert s[1..][k - 1] == s[k];
    }
  }

  lemma {:induction false} CountJoinsZero(s: seq<Edge>, a: Endpoint, b: Endpoint)
    ensures CountJoins(s, a, b) == 0 <==> !Joined(s, a, b)
  {
    if |s| > 0 {
      CountJoinsZero(s[1..], a, b);
      JoinedCons(s, a, b);
    }
  }

  /** When no two edges join the pair, at most one does. */
  lemma {:induction false} CountJoinsAtMostOne(s: seq<Edge>, a: Endpoint, b: Endpoint)
    requires forall k, l | 0 <= k < l < |s| :: !(Joins(s[k], a, b) && Joins(s[l], a, b))
    ensures CountJoins(s, a, b) <= 1
  {
    if |s| > 0 {
      CountJoinsAtMostOne(s[1..], a, b);
      if Joins(s[0], a, b) {
        assert !Joined(s[1..], a, b) by {
          forall k | 0 <= k < |s[1..]| ensures !Joins(s[1..][k], a, b) {
            assert s[1..][k] == s[k + 1];
          }
        }
        CountJoinsZero(s[1..], a, b);
      }
    }
  }

  lemma NoJoinsCountZero(s: seq<Edge>, a: Endpoint, b: Endpoint)
    requires forall k | 0 <= k < |s| :: !Joins(s[k], a, b)
    ensures CountJoins(s, a, b) == 0
  {
    CountJoinsZero(s, a, b);
  }

  /** The pair is visited in one direction or the other. */
  predicate Visited(pairs: seq<(Endpoint, Endpoint)>, a: Endpoint, b: Endpoint) {
    (a, b) in pairs || (b, a) in pairs
  }

  /** The edges the N3 pass appends after `ex`. */
  function Added(ex: seq<Edge>, pairs: seq<(Endpoint, Endpoint)>): seq<Edge> {
    AddN3Pairs(ex, pairs)[|ex|..]
  }

  lemma JoinsSame(e: Edge, f: Edge, a: Endpoint, b: Endpoint)
    requires Joins(e, a, b) && Joins(f, a, b)
    ensures Joins(e, f.source, f.target)
  {
  }

  /** Each added edge is fresh, so at most one of them joins a given pair. */
  lemma AddedAtMostOne(ex: seq<Edge>, pairs: seq<(Endpoint, Endpoint)>, a: Endpoint, b: Endpoint)
    ensures CountJoins(Added(ex, pairs), a, b) <= 1
  {
    var n3 := AddN3Pairs(ex, pairs);
    var added := Added(ex, pairs);
    AddN3PairsAdded(ex, pairs);
    forall k, l | 0 <= k < l < |added| ensures !(Joins(added[k], a, b) && Joins(added[l], a, b)) {
      assert added[l] == n3[|ex| + l];
      assert added[k] == n3[|ex| + k];
      assert FreshAt(n3, |ex| + l);
      if Joins(added[k], a, b) && Joins(added[l], a, b) {
        JoinsSame(added[k], added[l], a, b);
      }
    }
    CountJoinsAtMostOne(added, a, b);
  }

  /** An added edge joining `a` and `b` means the pair was visited and no explicit edge joins it. */
  lemma AddedJoinsOnlyNew(ex: seq<Edge>, pairs: seq<(Endpoint, Endpoint)>, a: Endpoint, b: Endpoint)
    requires !Visited(pairs, a, b) || Joined(ex, a, b)
    ensures CountJoins(Added(ex, pairs), a, b) == 0
  {
    var n3 := AddN3Pairs(ex, pairs);
    var added := Added(ex, pairs);
    AddN3PairsAdded(ex, pairs);
    assert n3[..|ex|] == ex;
    forall k | 0 <= k < |added| ensures !Joins(added[k], a, b) {
      assert added[k] == n3[|ex| + k];
      if Joins(added[k], a, b) {
        if Joined(ex, a, b) {
          var m :| 0 <= m < |ex| && Joins(ex[m], a, b);
          assert n3[m] == ex[m];
          assert FreshAt(n3, |ex| + k);
          JoinsSame(n3[m], added[k], a, b);
        }
      }
    }
    NoJoinsCountZero(added, a, b);
  }

  /** A visited pair that no explicit edge joins gets an added edge. */
  lemma AddedJoinsVisited(ex: seq<Edge>, pairs: seq<(Endpoint, Endpoint)>, a: Endpoint, b: Endpoint)
    requires Visited(pairs, a, b) && !Joined(ex, a, b)
    ensures CountJoins(Added(ex, pairs), a, b) != 0
  {
    var n3 := AddN3Pairs(ex, pairs);
    var added := Added(ex, pairs);
    AddN3PairsJoins(ex, pairs);
    assert n3[..|ex|] == ex;
    var p := if (a, b) in pairs then (a, b) else (b, a);
    assert Joined(n3, p.0, p.1);
    var m :| 0 <= m < |n3| && Joins(n3[m], p.0, p.1);
    assert m >= |ex|;
    assert added[m - |ex|] == n3[m];
    assert Joins(added[m - |ex|], a, b);
    CountJoinsZero(added, a, b);
  }

  /**
    The N3 pass adds one edge joining `a` and `b` when the pair is visited and
    no edge already joins them, and none otherwise.
   */
  lemma N3PassCount(ex: seq<Edge>, pairs: seq<(Endpoint, Endpoint)>, a: Endpoint, b: Endpoint)
    ensures CountJoins(AddN3Pairs(ex, pairs), a, b)
      == CountJoins(ex, a, b) + (if Visited(pairs, a, b) && !Joined(ex, a, b) then 1 else 0)
  {
    var n3 := AddN3Pairs(ex, pairs);
    assert n3[..|ex|] == ex;
    assert n3 == ex + Added(ex, pairs);
    CountJoinsAppend(ex, Added(ex, pairs), a, b);
    AddedAtMostOne(ex, pairs, a, b);
    if Visited(pairs, a, b) && !Joined(ex, a, b) {
      AddedJoinsVisited(ex, pairs, a, b);
    } else {
      AddedJoinsOnlyNew(ex, pairs, a, b);
    }
  }

  /**
    The N3 pass never doubles a gNB-UPF connection.  For an existing gNB g and
    UPF u, the finished edge list joins them exactly as often as the explicit
    links do, plus one edge when (g, u) is assigned and no explicit link joins
    them.  So an assigned pair is joined exactly once unless the explicit
    links themselves join it more than once.
   */
  lemma N3ExactlyOnce(cfg: GraphConfig, g: nat, u: nat)
    requires g < GnbCount(cfg) && u < |cfg.upfCoords|
    ensures var ex := ExplicitEdges(cfg, cfg.links);
            var a := At(Gnb(g));
            var b := At(Upf(u));
            var isAssigned := (a, b) in AssignedPairs(cfg, cfg.gnbAssignments);
            CountJoins(BuildEdges(cfg), a, b)
              == CountJoins(ex, a, b) + (if isAssigned && !Joined(ex, a, b) then 1 else 0)
  {
    var ex := ExplicitEdges(cfg, cfg.links);
    var pairs := AssignedPairs(cfg, cfg.gnbAssignments);
    var n6 := N6Edges(cfg, cfg.dnsUpfConnections);
    N6EdgesAvoidN3(cfg, cfg.dnsUpfConnections, g, u);
    UeEdgesAvoidN3(GnbCount(cfg), g, u);
    PairsNeverReversed(cfg, cfg.gnbAssignments, g, u);
    AssembleCount(ex, pairs, n6, GnbCount(cfg), At(Gnb(g)), At(Upf(u)));
  }

  /**
    The count of edges joining a and b in an assembled list, when neither the
    N6 nor the UE edges join them and no pair visits them the other way round.
   */
  lemma AssembleCount(ex: seq<Edge>, pairs: seq<(Endpoint, Endpoint)>, n6: seq<Edge>, n: nat, a: Endpoint, b: Endpoint)
    requires forall k | 0 <= k < |n6| :: !Joins(n6[k], a, b)
    requires forall i | 0 <= i < n :: !Joins(UeEdge(i), a, b)
    requires (b, a) !in pairs
    ensures CountJoins(Assemble(ex, pairs, n6, n), a, b)
      == CountJoins(ex, a, b) + (if (a, b) in pairs && !Joined(ex, a, b) then 1 else 0)
  {
    var n3 := AddN3Pairs(ex, pairs);
    var ues := UeEdges(n);
    N3PassCount(ex, pairs, a, b);
    CountJoinsAppend(n3, n6, a, b);
    CountJoinsAppend(n3 + n6, ues, a, b);
    NoJoinsCountZero(n6, a, b);
    NoJoinsCountZero(ues, a, b);
  }

  /** An N6 edge joins a UPF to the DN, never a gNB to a UPF. */
  lemma N6EdgesAvoidN3(cfg: GraphConfig, conns: seq<int>, g: nat, u: nat)
    ensures forall k | 0 <= k < |N6Edges(cfg, conns)| :: !Joins(N6Edges(cfg, conns)[k], At(Gnb(g)), At(Upf(u)))
  {
  }

  /** A UE edge joins a UE to its gNB, never a gNB to a UPF. */
  lemma UeEdgesAvoidN3(n: nat, g: nat, u: nat)
    ensures forall i | 0 <= i < n :: !Joins(UeEdge(i), At(Gnb(g)), At(Upf(u)))
  {
  }

  /** Every visited pair has its gNB first, so no pair puts a UPF first. */
  lemma PairsNeverReversed(cfg: GraphConfig, entries: seq<Assignment>, g: nat, u: nat)
    ensures (At(Upf(u)), At(Gnb(g))) !in AssignedPairs(cfg, entries)
  {
  }

  /** The entry's key names an existing gNB and its j-th listed index an existing UPF. */
  predicate IndexResolves(cfg: GraphConfig, entry: Assignment, j: int)
    requires 0 <= j < |entry.upfIndices|
  {
    GnbEndpoint(cfg, entry.key).At? && UpfEndpoint(cfg, entry.upfIndices[j]).At?
  }

  /** Every entry names an existing gNB and every index it lists an existing UPF. */
  predicate AssignmentsResolve(cfg: GraphConfig) {
    forall i, j | 0 <= i < |cfg.gnbAssignments| && 0 <= j < |cfg.gnbAssignments[i].upfIndices| ::
      IndexResolves(cfg, cfg.gnbAssignments[i], j)
  }

  predicate HasUndefinedEnd(e: Edge) {
    e.source == Undefined || e.target == Undefined
  }

  predicate SomeUndefinedEdge(edges: seq<Edge>) {
    exists k | 0 <= k < |edges| :: HasUndefinedEnd(edges[k])
  }

  /** Some visited pair has an `undefined` end. */
  predicate SomeUndefinedPair(pairs: seq<(Endpoint, Endpoint)>) {
    exists j | 0 <= j < |pairs| :: HasUndefinedEnd(N3Edge(pairs[j].0, pairs[j].1))
  }

  /**
    With defined explicit and N6 edges, the whole list has an edge with an
    `undefined` end exactly when some visited pair has one.
   */
  lemma AssembleUndefinedIff(ex: seq<Edge>, pairs: seq<(Endpoint, Endpoint)>, n6: seq<Edge>, n: nat)
    requires forall k | 0 <= k < |ex| :: !HasUndefinedEnd(ex[k])
    requires forall k | 0 <= k < |n6| :: !HasUndefinedEnd(n6[k])
    ensures SomeUndefinedEdge(Assemble(ex, pairs, n6, n)) <==> SomeUndefinedPair(pairs)
  {
    var all := Assemble(ex, pairs, n6, n);
    var defined := (e: Edge) => !HasUndefinedEnd(e);
    if SomeUndefinedPair(pairs) {
      var j :| 0 <= j < |pairs| && HasUndefinedEnd(N3Edge(pairs[j].0, pairs[j].1));
      var n3 := AddN3Pairs(ex, pairs);
      AddN3PairsJoins(ex, pairs);
      assert pairs[j] in pairs;
      var m :| 0 <= m < |n3| && Joins(n3[m], pairs[j].0, pairs[j].1);
      assert all[m] == n3[m];
      assert HasUndefinedEnd(all[m]);
    } else {
      assert forall i | 0 <= i < n :: defined(UeEdge(i));
      AssembleAll(ex, pairs, n6, n, defined);
    }
  }

  lemma UndefinedPairUnresolved(cfg: GraphConfig)
    requires SomeUndefinedPair(AssignedPairs(cfg, cfg.gnbAssignments))
    ensures !AssignmentsResolve(cfg)
  {
    var entries := cfg.gnbAssignments;
    var pairs := AssignedPairs(cfg, entries);
    var m :| 0 <= m < |pairs| && HasUndefinedEnd(N3Edge(pairs[m].0, pairs[m].1));
    var i, j := AssignedPairsSource(cfg, entries, m);
    assert !IndexResolves(cfg, entries[i], j);
  }

  lemma UnresolvedUndefinedPair(cfg: GraphConfig)
    requires !AssignmentsResolve(cfg)
    ensures SomeUndefinedPair(AssignedPairs(cfg, cfg.gnbAssignments))
  {
    var entries := cfg.gnbAssignments;
    var pairs := AssignedPairs(cfg, entries);
    var i, j :| 0 <= i < |entries| && 0 <= j < |entries[i].upfIndices| && !IndexResolves(cfg, entries[i], j);
    var m := AssignedPairsIndex(cfg, entries, i, j);
    assert HasUndefinedEnd(N3Edge(pairs[m].0, pairs[m].1));
  }

  /** The assignments resolve exactly when no visited pair has an `undefined` end. */
  lemma AssignmentsResolveIff(cfg: GraphConfig)
    ensures AssignmentsResolve(cfg) <==> !SomeUndefinedPair(AssignedPairs(cfg, cfg.gnbAssignments))
  {
    if SomeUndefinedPair(AssignedPairs(cfg, cfg.gnbAssignments)) {
      UndefinedPairUnresolved(cfg);
    }
    if !AssignmentsResolve(cfg) {
      UnresolvedUndefinedPair(cfg);
    }
  }

  /**
    An edge with an `undefined` endpoint exists exactly when some assignment
    entry with at least one listed index has a key naming no gNB, or lists an
    index naming no UPF.  Explicit, N6 and UE edges are always defined.
   */
  lemma UndefinedEndpointIff(cfg: GraphConfig)
    ensures SomeUndefinedEdge(BuildEdges(cfg)) <==> !AssignmentsResolve(cfg)
  {
    var ex := ExplicitEdges(cfg, cfg.links);
    var n6 := N6Edges(cfg, cfg.dnsUpfConnections);
    assert forall k | 0 <= k < |ex| :: !HasUndefinedEnd(ex[k]) by {
      forall k | 0 <= k < |ex| ensures !HasUndefinedEnd(ex[k]) {
        assert ResolvedEnds(cfg, ex[k]);
      }
    }
    assert forall k | 0 <= k < |n6| :: !HasUndefinedEnd(n6[k]);
    AssembleUndefinedIff(ex, AssignedPairs(cfg, cfg.gnbAssignments), n6, GnbCount(cfg));
    AssignmentsResolveIff(cfg);
  }
}
