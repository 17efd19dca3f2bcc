# 5G topology configurator: a Dafny model of its core logic

This project models the logic of a small web client that lets a user
describe a 5G core-network topology and a packet simulation. It has three
parts:

* **The topology diagram** (`TopologyGraph.jsx`). This is a pure function
  from a configuration to a drawing. The configuration holds:
  * UPF coordinates in the unit square;
  * a gNB → UPF assignment object;
  * explicit `{nodeA, nodeB}` links;
  * a DN name;
  * the UPFs wired to the DN.

  The function places every UPF, gNB, UE and the DN on an 800 × 500
  canvas. It then resolves link labels such as "UPF 2" or "gNB 1" to nodes
  and drops links it cannot resolve. After that it appends the implicit
  edges:
  * N3 gNB–UPF edges, de-duplicated in either direction against every
    edge so far;
  * N6 UPF–DN edges, with no de-duplication;
  * one dashed UE → gNB edge per gNB.

  Finally it draws every edge from the rim of one node circle to the rim of
  the other.
* **The topology form** (`TopologyConfig.jsx`). A state machine over the
  form state. It keeps at most one UPF of type PCA and connects the DN to
  that UPF. It lets a gNB be assigned only to UPFs of type "edge". It can
  generate blank UPF rows, add, edit and remove link rows, and reset.
* **The simulation queue** (`SimulationConfig.jsx`). A guarded append of
  formatted entries, plus delete by position and clear.

Modules, one file each:

| module | file | contents |
|---|---|---|
| `JsText` | `jstext.dfy` | the parts of JavaScript's `parseInt`, `split(" ")[1]`, `startsWith` and numeral printing that the client relies on |
| `Layout` | `layout.dfy` | the configuration datatypes and node placement |
| `Synthesis` | `synthesis.dfy` | label resolution and the explicit, N3, N6 and UE edge passes |
| `Drawing` | `drawing.dfy` | radii, link endpoints, labels, stroke widths and the whole rendering, including its crash |
| `TopologyForm` | `topology_form.dfy` | the configuration form's state and handlers |
| `SimulationQueue` | `simulation_queue.dfy` | the simulation queue |
| `Fixtures` | `fixtures.dfy` | concrete scenarios computed in full |

How JavaScript is modelled:

* **Node identity.** A JavaScript position object is unique per node, so
  the identity comparisons of the N3 de-duplication are modelled as
  equality of node references `Upf(i) | Gnb(i) | Ue(i) | Dn`.
* **Assignment objects.** `gnbAssignments` is a sequence of (key, list)
  entries in the order `Object.entries` yields them, and the gNB count is
  the number of entries. The model also admits duplicate keys and orders
  that `Object.entries` never yields; every lemma holds for all sequences.
* **Undefined lookups.** An array lookup past the end yields `undefined`.
  This is the `Undefined` endpoint, and `undefined === undefined` holds.
* **Integers and coordinates.** Integers are unbounded and coordinates are
  `real`.
* **Square root.** `Math.sqrt` is a parameter `root` of the drawing
  functions. The lemmas that need it to be exact say so in their
  preconditions.

## Model

| member | source | states |
|---|---|---|
| JsText.ParseIntDecimal | client/src/components/TopologyGraph.jsx:86 | `parseInt` of the canonical decimal numeral of k is k, so an assignment key "3" names gNB index 3 |
| JsText.SecondFieldOfJoin | client/src/components/TopologyGraph.jsx:56 | `split(" ")[1]` of "P t" is t when neither part holds a space |
| Layout.AllNodesExactlyOnce | client/src/components/TopologyGraph.jsx:193 | the node list holds every existing node exactly once, each at its own position, UPFs first in input order and the DN last; its length is UPFs + 2·gNBs + 1 |
| Layout.UpfPlacement | client/src/components/TopologyGraph.jsx:18-24 | UPF coordinates map affinely: (0.5,0.5) goes to (400,250), one unit of x spans 300 pixels, y is inverted, and the unit square lands in [250,550] × [0,500] |
| Layout.GnbColumn | client/src/components/TopologyGraph.jsx:26-33 | gNBs sit at x = 120 with y in [100,400], strictly increasing with the index; the first is at y = 100 and the last of two or more at y = 400, evenly spaced 300/(n−1) |
| Layout.UeBesideGnb | client/src/components/TopologyGraph.jsx:35-50 | each UE sits 50 left of its gNB at the same height (x = 70); the DN is at (680,250) |
| Synthesis.Resolve | client/src/components/TopologyGraph.jsx:54-65 | a resolved label names an existing non-UE node; a "UPF" label can only name a UPF and a "gNB" label only a gNB; the DN is named exactly by a label with neither prefix that equals the DN name |
| Synthesis.ResolveNodeLabel | client/src/components/TopologyGraph.jsx:54-62 | every existing UPF and gNB is found again from its own label "UPF k" / "gNB k" |
| Synthesis.ResolveUpfRange | client/src/components/TopologyGraph.jsx:55-57 | "UPF k" names a node exactly when 1 ≤ k ≤ number of UPFs; "UPF 0" and "UPF 99" with two UPFs name nothing |
| Synthesis.ResolveGnbRange | client/src/components/TopologyGraph.jsx:58-61 | "gNB k" names a node exactly when 1 ≤ k ≤ number of gNBs; "gNB 0" and numbers past the gNB count name nothing |
| Synthesis.ExplicitEdge | client/src/components/TopologyGraph.jsx:67-81 | a link that survives has both ends resolved to existing non-UE nodes |
| Synthesis.ExplicitEdges | client/src/components/TopologyGraph.jsx:53-82 | the surviving explicit links are at most as many as the links, all with resolved ends |
| Synthesis.ExplicitEdgesKeepOrder | client/src/components/TopologyGraph.jsx:53-82 | processing keeps input order (concatenation commutes with processing); a link survives exactly when both labels resolve, with interface N9/N3/N6/"" by type and the amber/own/blue stroke |
| Synthesis.GnbEndpoint | client/src/components/TopologyGraph.jsx:86-89 | an assignment key yields a gNB endpoint only for an existing gNB, otherwise `undefined` |
| Synthesis.GnbEndpointOfNumeral | client/src/components/TopologyGraph.jsx:86-89 | the key holding the decimal numeral of an existing gNB's index looks up exactly that gNB |
| Synthesis.AssignedPairsMembers | client/src/components/TopologyGraph.jsx:85-87 | the pairs the nested loops visit are exactly the (key, listed index) combinations of the assignment entries |
| Synthesis.AddN3PairsAdded | client/src/components/TopologyGraph.jsx:88-100 | every edge the N3 pass appends is an N3 edge for a visited pair, and no earlier edge joins its two nodes in either direction |
| Synthesis.AddN3PairsJoins | client/src/components/TopologyGraph.jsx:88-100 | after the N3 pass every visited pair is joined by some edge |
| Synthesis.N3ExactlyOnce | client/src/components/TopologyGraph.jsx:85-102 | for every gNB g and UPF u, the final edges joining them are the explicit ones, plus exactly one N3 edge when (g,u) is assigned and no explicit link joins them |
| Synthesis.InRangeUpfs | client/src/components/TopologyGraph.jsx:105-106 | a DN connection is kept exactly when it names an existing UPF, and no more are kept than listed |
| Synthesis.InRangeUpfsAppend | client/src/components/TopologyGraph.jsx:105-106 | the DN-connection filter distributes over concatenation, so kept connections stay in listed order and a connection listed twice is kept twice |
| Synthesis.InRangeUpfsSingle | client/src/components/TopologyGraph.jsx:106 | a single connection is kept exactly when it names an existing UPF |
| Synthesis.N6Edges | client/src/components/TopologyGraph.jsx:105-116 | the k-th N6 edge is the UPF → DN edge of width 3 for the k-th kept connection, one per kept connection |
| Synthesis.UeEdgeUnique | client/src/components/TopologyGraph.jsx:118-128 | UE i takes part in exactly one edge, the dashed, unlabelled UE i → gNB i edge, at position i of the last gNB-count edges |
| Synthesis.BuildEdgesLayout | client/src/components/TopologyGraph.jsx:53-128 | the edge list is the explicit edges, then at most one added N3 edge per visited pair, then the N6 edges, then the UE edges; its length is their sum |
| Synthesis.BuildEdgesEndpoints | client/src/components/TopologyGraph.jsx:85-128 | every edge end is `undefined` or an existing node |
| Synthesis.UndefinedEndpointIff | client/src/components/TopologyGraph.jsx:92-98 | some edge has an `undefined` end exactly when some assignment names a missing gNB or UPF |
| Drawing.RadiusOf | client/src/components/TopologyGraph.jsx:131-139 | every radius, the default included, is positive |
| Drawing.NodeRadii | client/src/components/TopologyGraph.jsx:131-139 | UPF 20, gNB 16, UE 12, DN 20; no diagram node gets the default 15 |
| Drawing.Divisor | client/src/components/TopologyGraph.jsx:147 | the fallback of a zero distance to 1 never divides by zero and keeps every non-zero distance |
| Drawing.DirectionParallel | client/src/components/TopologyGraph.jsx:145-150 | the offset vector is parallel to (dx, dy), whatever `Math.sqrt` returns |
| Drawing.DirectionUnit | client/src/components/TopologyGraph.jsx:145-150 | with an exact square root and distinct centres the offset vector has length 1 |
| Drawing.BoundaryTouch | client/src/components/TopologyGraph.jsx:141-158 | with an exact square root, the start point lies on the source circle (squared distance rs²) and the end point on the target circle (rt²) |
| Drawing.EndsOnCentreLine | client/src/components/TopologyGraph.jsx:141-158 | both endpoints lie on the line through the two centres; coinciding centres give the degenerate segment between them |
| Drawing.LabelAboveMidpoint | client/src/components/TopologyGraph.jsx:220-221 | for equal radii the interface label sits 8 above the midpoint of the two centres |
| Drawing.StrokeWidth | client/src/components/TopologyGraph.jsx:214 | no link is drawn with width zero; a non-zero given width is kept |
| Drawing.DrawEdge | client/src/components/TopologyGraph.jsx:203-229 | a drawn link carries a text label exactly when the edge has an interface type |
| Drawing.FirstUndefined | client/src/components/TopologyGraph.jsx:203-204 | finds the first edge with an `undefined` end, and none exactly when there is no such edge |
| Drawing.Render | client/src/components/TopologyGraph.jsx:195-280 | a crash is reported at an index within the edge list |
| Drawing.RenderIff | client/src/components/TopologyGraph.jsx:141-145 | the diagram renders exactly when every assignment names an existing gNB and UPF; otherwise it throws at an N3 edge with an `undefined` end |
| Drawing.UndefinedEdgesAreN3 | client/src/components/TopologyGraph.jsx:92-98 | only N3 edges can have an `undefined` end |
| Drawing.RenderedScene | client/src/components/TopologyGraph.jsx:203-277 | a rendered diagram draws every node once in node-list order, with a circle for all but UEs, and every edge once in edge order, labelled exactly when it has an interface |
| Drawing.RenderedLinkTouches | client/src/components/TopologyGraph.jsx:203-212 | with an exact square root each drawn line of a rendered diagram runs from the source node's circle to the target node's circle |
| Drawing.CaptionNamesNode | client/src/components/TopologyGraph.jsx:273 | a UPF's caption is its own label, resolving back to that UPF; the DN caption is never empty |
| TopologyForm.Reset | client/src/pages/TopologyConfig.jsx:161-173 | reset empties every list and map, zeroes the counts, clears the error and flags, and leaves the form loaded |
| TopologyForm.FirstPca | client/src/pages/TopologyConfig.jsx:53 | finds the first PCA row, and none exactly when no row is PCA |
| TopologyForm.Settle | client/src/pages/TopologyConfig.jsx:52-65 | the effect changes only the DN connections: empty exactly when there is no PCA UPF, else one index naming a PCA UPF |
| TopologyForm.ValidConnectsThePca | client/src/pages/TopologyConfig.jsx:52-65 | under the invariant, a UPF is PCA exactly when the DN connections are that UPF alone |
| TopologyForm.ChangeUpf | client/src/pages/TopologyConfig.jsx:68-85 | making a row PCA while another is PCA only sets the error; any other edit changes that one field of that one row, clears the error and re-derives the DN connection |
| TopologyForm.ChangeUpfKeepsValid | client/src/pages/TopologyConfig.jsx:71-84 | an edit never produces a second PCA UPF and keeps the DN wired to the PCA UPF |
| TopologyForm.GenerateUpfs | client/src/pages/TopologyConfig.jsx:87-93 | "Set UPFs" gives max(0, numUPFs) blank rows, clears the error and the DN connection, and throws above the array length limit |
| TopologyForm.CountInputDecimal | client/src/pages/TopologyConfig.jsx:303 | typing a count's decimal numeral sets that count |
| TopologyForm.CountInputOfNumberInput | client/src/pages/TopologyConfig.jsx:200 | for what a number input can deliver, an empty field counts 0, and a numeral, optionally negative, followed by a fraction or an exponent counts its signed whole part, since `parseInt` stops at "." and "e" |
| TopologyForm.RemoveDrops | client/src/pages/TopologyConfig.jsx:106 | filtering removes every occurrence of the UPF and keeps every other entry with its multiplicity; nothing changes when it is absent |
| TopologyForm.RemoveMembers | client/src/pages/TopologyConfig.jsx:106 | after filtering, x is listed exactly when it was listed and is not the UPF |
| TopologyForm.ToggleAssignment | client/src/pages/TopologyConfig.jsx:96-110 | a tick on a UPF that is not of type edge (or does not exist) changes nothing; otherwise only the gNB's own list changes |
| TopologyForm.ToggleFlips | client/src/pages/TopologyConfig.jsx:99-108 | a permitted tick flips whether the UPF is assigned, appends it at the end when absent, and leaves other UPFs and other gNBs' lists as they were |
| TopologyForm.ToggleTwice | client/src/pages/TopologyConfig.jsx:99-108 | ticking an unticked UPF twice restores the gNB's list |
| TopologyForm.AddLink | client/src/pages/TopologyConfig.jsx:113-115 | adding appends one blank link row and keeps the others |
| TopologyForm.ChangeLink | client/src/pages/TopologyConfig.jsx:117-123 | an edit of an existing row changes that one field of that one row; a missing row throws |
| TopologyForm.RemoveLink | client/src/pages/TopologyConfig.jsx:125-131 | removing a link changes nothing but the link rows |
| TopologyForm.RemoveLinkDeletes | client/src/pages/TopologyConfig.jsx:125-131 | `splice(i, 1)` deletes exactly row i and keeps the rest in order; negative i counts from the end, i past the end deletes nothing |
| TopologyForm.AddThenRemoveLink | client/src/pages/TopologyConfig.jsx:113-131 | adding a row then removing the last one (by position or as −1) restores the form |
| TopologyForm.StepKeepsValid | client/src/pages/TopologyConfig.jsx:68-131 | every handler that completes keeps at most one PCA UPF with the DN wired to it |
| TopologyForm.RunKeepsValid | client/src/pages/TopologyConfig.jsx:52-85 | any run of events from a valid form ends in a valid form |
| TopologyForm.InitialValid | client/src/pages/TopologyConfig.jsx:10-23 | the initial form is valid, and so is every form reachable from it |
| SimulationQueue.AddToQueue | client/src/pages/SimulationConfig.jsx:14-27 | with all three inputs filled, exactly one entry with " bytes" and " ms" appended is added at the end, and size and interval are emptied; otherwise nothing changes |
| SimulationQueue.DeleteItem | client/src/pages/SimulationConfig.jsx:46-49 | deleting changes nothing but the queue |
| SimulationQueue.WithoutRemovesOne | client/src/pages/SimulationConfig.jsx:47 | the index filter removes exactly the item at the index when in range, and nothing otherwise |
| SimulationQueue.DeleteItemRemoves | client/src/pages/SimulationConfig.jsx:46-49 | deleting item i removes exactly it and keeps the rest in order; an index outside the queue leaves it unchanged |
| SimulationQueue.ClearThenAdd | client/src/pages/SimulationConfig.jsx:42-44 | adding right after a clear leaves a queue holding just the new entry, and a clear after an add empties the queue |
| SimulationQueue.AddThenDelete | client/src/pages/SimulationConfig.jsx:14-49 | deleting the entry just added restores the queue |
| SimulationQueue.AddTwice | client/src/pages/SimulationConfig.jsx:24-25 | a second add straight after the first adds nothing, because the inputs were emptied |
| SimulationQueue.OperationsKeepWellFormed | client/src/pages/SimulationConfig.jsx:16-23 | every queued entry keeps a non-empty type and its " bytes" / " ms" units under add, delete and clear |
| Fixtures.SingleUpfNodes | client/src/components/TopologyGraph.jsx:18-50 | one UPF at (0.5,0.5) with one gNB: UPF (400,250), gNB (120,100), UE (70,100), DN (680,250) |
| Fixtures.SingleUpfEdges | client/src/components/TopologyGraph.jsx:85-128 | that configuration yields exactly the N3, N6 and UE edges, in that order |
| Fixtures.OutOfRangeLabelDropped | client/src/components/TopologyGraph.jsx:55-70 | with two UPFs "UPF 99" names nothing and the link "UPF 99"–"UPF 1" is dropped |
| Fixtures.MissingUpfCrashes | client/src/components/TopologyGraph.jsx:92-98 | assigning a gNB to a missing UPF pushes an N3 edge with an `undefined` target, and rendering throws at it |
| Fixtures.RepeatedDnConnection | client/src/components/TopologyGraph.jsx:105-116 | DN connections [0, 5, 0] with one UPF give two identical N6 edges |
| Fixtures.ExplicitLinkSuppressesN3 | client/src/components/TopologyGraph.jsx:88-91 | an explicit "UPF 1"–"gNB 1" link suppresses the implicit N3 edge for the reversed pair |
| Fixtures.StaticTopologyRenders | backend/app.py:70-91 | the backend's static topology has twelve nodes and renders without throwing |
| Fixtures.StaticTopologyN6 | backend/app.py:90 | its DN has one N6 edge, from the central UPF |
| Fixtures.SecondPcaRefused | client/src/pages/TopologyConfig.jsx:71-76 | two blank UPFs, the first made PCA (DN wired to it), then the second refused with "Only one UPF can be of type PCA" |
| Fixtures.OnlyEdgeUpfsAssignable | client/src/pages/TopologyConfig.jsx:97 | an edge UPF can be ticked for a gNB, an intermediate one cannot |
| Fixtures.QueueScenario | client/src/pages/SimulationConfig.jsx:14-49 | two adds and a delete of the first leave ["Voice Traffic", "160 bytes", "20 ms"] with the inputs emptied |

## Left out

- HTTP and asynchronous code is not modelled: loading, saving and resetting through the backend, `handleSave`, and the save-message timer. Reset is modelled as its state change only. A topology loaded from the server is taken as given, so it can start the form in a state with two PCA UPFs, which the invariant lemmas exclude by their `Valid` precondition.
- The React effect scheduling is not modelled. The PCA → DN effect runs as part of every handler that replaces the UPF list, which is when React would run it.
- Colours of nodes, icons, fills, the `foreignObject` layout, text offsets and font sizes are presentation only. Edge strokes are modelled, because the source assigns them by link type.
- Floating point is not modelled. Coordinates are exact reals, NaN coordinates are not represented, and `Math.sqrt` is a parameter.
- Drawing.BoundaryTouch: assumes the two centres are at non-zero squared distance rather than deriving it from distinct positions. It also assumes that `root` is the exact square root at that value.
- Drawing.RenderedLinkTouches: same premise as `Drawing.BoundaryTouch`, with `root` exact everywhere. Coinciding centres are covered separately by `Drawing.EndsOnCentreLine`.
- TopologyForm.ChangeUpf: requires an existing row. The form only offers edits of rendered rows. JavaScript would turn a write past the end into a sparse array, which is not modelled.
- The `disabled` state of the PCA option and of the assignment check boxes is not modelled. These are UI guards that repeat the checks the handlers make, and those checks are modelled.
- The gNB rows of the form come from `numGNBs`, while the diagram counts the keys of `gnbAssignments`. The two are not linked by the model, just as they are not linked in the source.
- `TopologyModal.jsx` (the DOM wrapper of the diagram), the routing pages, the results page and the backend store are not part of this model. Only `backend/app.py`'s static topology appears, as a fixture.
- A gNB assigned to a missing UPF, or an assignment entry whose key is non-numeric or out of range and that lists at least one UPF, makes the diagram throw (`Drawing.RenderIff`, `Fixtures.MissingUpfCrashes`). An entry that lists no UPF pushes no N3 edge, so its key is never looked up.
- A single UPF at (0.5, 0.5) is drawn at (400, 250).
