/**
  The state of the topology configuration form and its event handlers, each
  a pure step from one form state to the next.  A change of the UPF list is
  followed by the effect that re-derives the DN connection from the first
  UPF of type "PCA".
 */
module TopologyForm {
  import opened JsText

  const PcaType: string := "PCA"
  const EdgeType: string := "edge"
  const PcaError: string := "Only one UPF can be of type PCA"

  /** `Array` construction throws a RangeError above this length. */
  const MaxArrayLength: int := 0xFFFF_FFFF

  /** One row of the UPF table; every field holds the text of its input. */
  datatype UpfConfig = UpfConfig(kind: string, x: string, y: string)

  /** The fields of a UPF row: its `type`, `x` and `y`. */
  datatype UpfField = TypeField | XField | YField

  /** A link row of the form, before the diagram resolves its labels. */
  datatype FormLink = FormLink(nodeA: string, nodeB: string)

  datatype LinkField = NodeAField | NodeBField

  /**
    The form state.  `gnbAssignments` maps a gNB index to the UPF indices
    ticked for it; a gNB without an entry has none.
   */
  datatype FormState = FormState(
    numUpfs: int,
    upfConfigs: seq<UpfConfig>,
    numGnbs: int,
    gnbAssignments: map<nat, seq<nat>>,
    links: seq<FormLink>,
    dnsUpfConnections: seq<nat>,
    saveMessage: bool,
    showTopologyModal: bool,
    upfTypeError: string,
    isLoading: bool)

  /** The state the form starts in, waiting for the saved topology. */
  const Initial: FormState := FormState(0, [], 0, map[], [], [], false, false, "", true)

  /** The state a reset leaves: the initial one, already loaded. */
  function Reset(s: FormState): (r: FormState)
    ensures r.upfConfigs == [] && r.links == [] && r.dnsUpfConnections == [] && r.gnbAssignments == map[]
    ensures r.numUpfs == 0 && r.numGnbs == 0 && r.upfTypeError == ""
    ensures !r.saveMessage && !r.showTopologyModal && !r.isLoading
  {
    Initial.(isLoading := false)
  }

  // ---------------------------------------------------------------------
  // The PCA UPF and its DN connection
  // ---------------------------------------------------------------------

  predicate IsPca(c: UpfConfig) {
    c.kind == PcaType
  }

  /** The index of the first PCA UPF, as `findIndex` finds it. */
  function FirstPca(cs: seq<UpfConfig>): (r: Option<nat>)
    ensures r.None? <==> forall i | 0 <= i < |cs| :: !IsPca(cs[i])
    ensures r.Some? ==> r.value < |cs| && IsPca(cs[r.value]) && forall i | 0 <= i < r.value :: !IsPca(cs[i])
  {
    if |cs| == 0 then None
    else if IsPca(cs[0]) then Some(0)
    else match FirstPca(cs[1..]) {
      case None => None
      case Some(i) => Some(i + 1)
    }
  }

  /** The DN connection list the effect derives from the UPF rows. */
  function PcaConnection(cs: seq<UpfConfig>): seq<nat> {
    match FirstPca(cs)
    case None => []
    case Some(i) => [i]
  }

  /** No two UPF rows are of type PCA. */
  predicate AtMostOnePca(cs: seq<UpfConfig>) {
    forall i, j | 0 <= i < j < |cs| :: !(IsPca(cs[i]) && IsPca(cs[j]))
  }

  /** Some row other than `index` is of type PCA. */
  predicate OtherPca(cs: seq<UpfConfig>, index: int) {
    exists i | 0 <= i < |cs| :: i != index && IsPca(cs[i])
  }

  /** The effect that follows a new UPF list: the DN is connected to the first PCA UPF, if any. */
  function Settle(s: FormState): (r: FormState)
    ensures r == s.(dnsUpfConnections := r.dnsUpfConnections)
    ensures r.dnsUpfConnections == [] <==> forall i | 0 <= i < |s.upfConfigs| :: !IsPca(s.upfConfigs[i])
    ensures r.dnsUpfConnections != [] ==>
      && |r.dnsUpfConnections| == 1
      && r.dnsUpfConnections[0] < |s.upfConfigs|
      && IsPca(s.upfConfigs[r.dnsUpfConnections[0]])
  {
    s.(dnsUpfConnections := PcaConnection(s.upfConfigs))
  }

  /** The invariant every handler keeps: at most one PCA UPF, and the DN wired to it. */
  predicate Valid(s: FormState) {
    AtMostOnePca(s.upfConfigs) && s.dnsUpfConnections == PcaConnection(s.upfConfigs)
  }

  /** With at most one PCA UPF, the DN is connected to exactly the PCA UPFs. */
  lemma ValidConnectsThePca(s: FormState)
    requires Valid(s)
    ensures forall i | 0 <= i < |s.upfConfigs| :: IsPca(s.upfConfigs[i]) <==> s.dnsUpfConnections == [i]
  {
  }

  // ---------------------------------------------------------------------
  // UPF rows
  // ---------------------------------------------------------------------

  function SetField(c: UpfConfig, field: UpfField, value: string): UpfConfig {
    match field
    case TypeField => c.(kind := value)
    case XField => c.(x := value)
    case YField => c.(y := value)
  }

  function Field(c: UpfConfig, field: UpfField): string {
    match field
    case TypeField => c.kind
    case XField => c.x
    case YField => c.y
  }

  /** Setting a field changes that field and no other. */
  lemma SetFieldOnly(c: UpfConfig, field: UpfField, value: string, other: UpfField)
    ensures Field(SetField(c, field, value), field) == value
    ensures other != field ==> Field(SetField(c, field, value), other) == Field(c, other)
  {
  }

  /**
    An edit of one UPF row.  Making a row PCA while another row is PCA is
    refused with an error and leaves the rows alone; any other edit replaces
    the one field, clears the error and re-derives the DN connection.
   */
  function ChangeUpf(s: FormState, index: nat, field: UpfField, value: string): (r: FormState)
    requires index < |s.upfConfigs|
    ensures field == TypeField && value == PcaType && OtherPca(s.upfConfigs, index) ==>
      r == s.(upfTypeError := PcaError)
    ensures !(field == TypeField && value == PcaType && OtherPca(s.upfConfigs, index)) ==>
      && |r.upfConfigs| == |s.upfConfigs|
      && Field(r.upfConfigs[index], field) == value
      && (forall f :: f != field ==> Field(r.upfConfigs[index], f) == Field(s.upfConfigs[index], f))
      && (forall i | 0 <= i < |s.upfConfigs| && i != index :: r.upfConfigs[i] == s.upfConfigs[i])
      && r.upfTypeError == ""
      && r.dnsUpfConnections == PcaConnection(r.upfConfigs)
      && r == s.(upfConfigs := r.upfConfigs, upfTypeError := "", dnsUpfConnections := r.dnsUpfConnections)
  {
    if field == TypeField && value == PcaType && OtherPca(s.upfConfigs, index) then
      s.(upfTypeError := PcaError)
    else
      var edited := SetField(s.upfConfigs[index], field, value);
      SetFieldOnly(s.upfConfigs[index], field, value, TypeField);
      SetFieldOnly(s.upfConfigs[index], field, value, XField);
      SetFieldOnly(s.upfConfigs[index], field, value, YField);
      Settle(s.(upfConfigs := s.upfConfigs[index := edited], upfTypeError := ""))
  }

  /** An edit of a UPF row never produces a second PCA UPF and keeps the DN wired to the PCA UPF. */
  lemma ChangeUpfKeepsValid(s: FormState, index: nat, field: UpfField, value: string)
    requires index < |s.upfConfigs|
    requires Valid(s)
    ensures Valid(ChangeUpf(s, index, field, value))
  {
    var r := ChangeUpf(s, index, field, value);
    if !(field == TypeField && value == PcaType && OtherPca(s.upfConfigs, index)) {
      forall i, j | 0 <= i < j < |r.upfConfigs| ensures !(IsPca(r.upfConfigs[i]) && IsPca(r.upfConfigs[j])) {
        if i != index && j != index {
          assert r.upfConfigs[i] == s.upfConfigs[i] && r.upfConfigs[j] == s.upfConfigs[j];
        } else if IsPca(r.upfConfigs[index]) {
          var other := if i == index then j else i;
          assert r.upfConfigs[other] == s.upfConfigs[other];
          SetFieldOnly(s.upfConfigs[index], field, value, TypeField);
          if field == TypeField {
            assert !IsPca(s.upfConfigs[other]);
          } else {
            assert IsPca(s.upfConfigs[index]);
          }
        }
      }
    }
  }

  /**
    "Set UPFs": `numUpfs` blank rows (none when it is zero or negative), with
    the error cleared, or `None` where the array length is out of range and
    the construction throws.
   */
  function GenerateUpfs(s: FormState): (r: Option<FormState>)
    ensures r.None? <==> s.numUpfs > MaxArrayLength
    ensures r.Some? ==>
      && |r.value.upfConfigs| == (if s.numUpfs < 0 then 0 else s.numUpfs)
      && (forall i | 0 <= i < |r.value.upfConfigs| :: r.value.upfConfigs[i] == UpfConfig("", "", ""))
      && r.value.upfTypeError == ""
      && r.value.dnsUpfConnections == []
      && r.value == s.(upfConfigs := r.value.upfConfigs, upfTypeError := "", dnsUpfConnections := [])
  {
    if s.numUpfs > MaxArrayLength then None
    else
      var n := if s.numUpfs < 0 then 0 else s.numUpfs;
      Some(Settle(s.(upfConfigs := seq(n, _ => UpfConfig("", "", "")), upfTypeError := "")))
  }

  // ---------------------------------------------------------------------
  // Counts typed into number inputs
  // ---------------------------------------------------------------------

  /** `parseInt(text) || 0`: the parsed number, with NaN (and 0) giving 0. */
  function CountInput(text: string): (n: int)
    ensures ParseInt(text).None? ==> n == 0
    ensures ParseInt(text).Some? ==> n == ParseInt(text).value
  {
    match ParseInt(text)
    case None => 0
    case Some(v) => v
  }

  function SetNumUpfs(s: FormState, text: string): FormState {
    s.(numUpfs := CountInput(text))
  }

  function SetNumGnbs(s: FormState, text: string): FormState {
    s.(numGnbs := CountInput(text))
  }

  /** Typing the decimal numeral of a count sets that count. */
  lemma CountInputDecimal(k: nat)
    ensures CountInput(DecimalString(k)) == k
  {
    ParseIntDecimal(k);
  }

  /**
    What a number input can hand the handler: the empty string counts 0, and
    a numeral with an optional minus sign and a fraction or exponent after it
    counts its whole part, since `parseInt` stops at "." and "e".
   */
  lemma CountInputOfNumberInput(k: nat, rest: string)
    requires |rest| == 0 || rest[0] == '.' || rest[0] == 'e' || rest[0] == 'E'
    ensures CountInput("") == 0
    ensures CountInput(DecimalString(k) + rest) == k
    ensures CountInput("-" + DecimalString(k) + rest) == -(k as int)
  {
    ParseIntEmpty();
    ParseIntDecimalPrefix(k, rest);
    ParseIntNegative(k, rest);
  }

  // ---------------------------------------------------------------------
  // gNB to UPF assignments
  // ---------------------------------------------------------------------

  /** Only a UPF row of type "edge" may be assigned to a gNB; a missing row may not. */
  predicate CanAssignToGnb(s: FormState, upf: nat) {
    upf < |s.upfConfigs| && s.upfConfigs[upf].kind == EdgeType
  }

  /** The UPFs ticked for gNB `g`: its list, or the empty list when it has none. */
  function Assigned(s: FormState, g: nat): seq<nat> {
    if g in s.gnbAssignments then s.gnbAssignments[g] else []
  }

  /** `xs.filter(i => i !== u)`. */
  function Remove(xs: seq<nat>, u: nat): (r: seq<nat>)
  {
    if |xs| == 0 then []
    else (if xs[0] == u then [] else [xs[0]]) + Remove(xs[1..], u)
  }

  /** Filtering drops every occurrence of `u`, keeps every other entry, and changes nothing when `u` is absent. */
  lemma {:induction false} RemoveDrops(xs: seq<nat>, u: nat)
    ensures multiset(Remove(xs, u)) == multiset(xs)[u := 0]
    ensures u !in xs ==> Remove(xs, u) == xs
  {
    if |xs| > 0 {
      RemoveDrops(xs[1..], u);
      assert xs == [xs[0]] + xs[1..];
    }
  }

  /** Membership survives filtering exactly for the entries other than `u`. */
  lemma RemoveMembers(xs: seq<nat>, u: nat)
    ensures forall x :: x in Remove(xs, u) <==> x in xs && x != u
  {
    RemoveDrops(xs, u);
    forall x ensures x in Remove(xs, u) <==> x in xs && x != u {
      assert x in Remove(xs, u) <==> x in multiset(Remove(xs, u));
      assert x in xs <==> x in multiset(xs);
    }
  }

  /**
    A tick of UPF `upf` for gNB `g`: nothing happens unless the UPF is of
    type edge; then the UPF is removed from the gNB's list if it is there and
    appended otherwise.
   */
  function ToggleAssignment(s: FormState, g: nat, upf: nat): (r: FormState)
    ensures !CanAssignToGnb(s, upf) ==> r == s
    ensures CanAssignToGnb(s, upf) ==>
      r == s.(gnbAssignments := r.gnbAssignments)
      && r.gnbAssignments.Keys == s.gnbAssignments.Keys + {g}
      && (forall h | h in s.gnbAssignments && h != g :: r.gnbAssignments[h] == s.gnbAssignments[h])
  {
    if !CanAssignToGnb(s, upf) then s
    else
      var current := Assigned(s, g);
      var next := if upf in current then Remove(current, upf) else current + [upf];
      s.(gnbAssignments := s.gnbAssignments[g := next])
  }

  /** A permitted tick flips whether the UPF is assigned and leaves every other assignment as it was. */
  lemma ToggleFlips(s: FormState, g: nat, upf: nat)
    requires CanAssignToGnb(s, upf)
    ensures upf in Assigned(ToggleAssignment(s, g, upf), g) <==> upf !in Assigned(s, g)
    ensures forall x :: x != upf ==> (x in Assigned(ToggleAssignment(s, g, upf), g) <==> x in Assigned(s, g))
    ensures upf !in Assigned(s, g) ==> Assigned(ToggleAssignment(s, g, upf), g) == Assigned(s, g) + [upf]
    ensures forall h :: h != g ==> Assigned(ToggleAssignment(s, g, upf), h) == Assigned(s, h)
  {
    RemoveMembers(Assigned(s, g), upf);
  }

  /** Ticking an unticked UPF twice gives the gNB back the list it had. */
  lemma ToggleTwice(s: FormState, g: nat, upf: nat)
    requires CanAssignToGnb(s, upf)
    requires upf !in Assigned(s, g)
    ensures Assigned(ToggleAssignment(ToggleAssignment(s, g, upf), g, upf), g) == Assigned(s, g)
  {
    var once := ToggleAssignment(s, g, upf);
    assert Assigned(once, g) == Assigned(s, g) + [upf];
    RemoveConcat(Assigned(s, g), [upf], upf);
    RemoveDrops(Assigned(s, g), upf);
  }

  lemma {:induction false} RemoveConcat(xs: seq<nat>, ys: seq<nat>, u: nat)
    ensures Remove(xs + ys, u) == Remove(xs, u) + Remove(ys, u)
  {
    if |xs| > 0 {
      RemoveConcat(xs[1..], ys, u);
      assert (xs + ys)[1..] == xs[1..] + ys;
    } else {
      assert xs + ys == ys;
    }
  }

  // ---------------------------------------------------------------------
  // Links
  // ---------------------------------------------------------------------

  /** "Add link" appends one blank link row. */
  function AddLink(s: FormState): (r: FormState)
    ensures |r.links| == |s.links| + 1 && r.links[|s.links|] == FormLink("", "")
    ensures r.links[..|s.links|] == s.links
    ensures r == s.(links := r.links)
  {
    s.(links := s.links + [FormLink("", "")])
  }

  function LinkFieldOf(l: FormLink, field: LinkField): string {
    match field
    case NodeAField => l.nodeA
    case NodeBField => l.nodeB
  }

  /**
    An edit of one field of one link row, or `None` where the row does not
    exist and the assignment into `undefined` throws.
   */
  function ChangeLink(s: FormState, index: int, field: LinkField, value: string): (r: Option<FormState>)
    ensures r.None? <==> !(0 <= index < |s.links|)
    ensures r.Some? ==>
      && |r.value.links| == |s.links|
      && LinkFieldOf(r.value.links[index], field) == value
      && (forall f :: f != field ==> LinkFieldOf(r.value.links[index], f) == LinkFieldOf(s.links[index], f))
      && (forall i | 0 <= i < |s.links| && i != index :: r.value.links[i] == s.links[i])
      && r.value == s.(links := r.value.links)
  {
    if !(0 <= index < |s.links|) then None
    else
      var l := s.links[index];
      var l' := match field
        case NodeAField => l.(nodeA := value)
        case NodeBField => l.(nodeB := value);
      Some(s.(links := s.links[index := l']))
  }

  /**
    The position `splice(index, 1)` removes from, if any: a negative index
    counts from the end, and a position past the end removes nothing.
   */
  function SpliceStart(len: nat, index: int): (k: nat)
    ensures k <= len
  {
    if index < 0 then (if len + index < 0 then 0 else len + index)
    else if index > len then len
    else index
  }

  /** "Remove link": `splice(index, 1)` on a copy of the link rows. */
  function RemoveLink(s: FormState, index: int): (r: FormState)
    ensures r == s.(links := r.links)
  {
    var k := SpliceStart(|s.links|, index);
    if k < |s.links| then s.(links := s.links[..k] + s.links[k + 1..]) else s
  }

  /**
    Removing row `index` (or row `len + index` for a negative index) deletes
    exactly that row and keeps the others in order; an index at or past the
    end deletes nothing, and one below `-len` deletes the first row.
   */
  lemma RemoveLinkDeletes(s: FormState, index: int)
    ensures 0 <= index < |s.links| ==>
      |RemoveLink(s, index).links| == |s.links| - 1
      && (forall i | 0 <= i < index :: RemoveLink(s, index).links[i] == s.links[i])
      && (forall i | index <= i < |s.links| - 1 :: RemoveLink(s, index).links[i] == s.links[i + 1])
    ensures -|s.links| <= index < 0 ==> RemoveLink(s, index) == RemoveLink(s, |s.links| + index)
    ensures index < -|s.links| ==> RemoveLink(s, index) == RemoveLink(s, 0)
    ensures index >= |s.links| ==> RemoveLink(s, index) == s
  {
  }

  /** Adding a link row and removing the last row, by position or as index -1, restores the form. */
  lemma AddThenRemoveLink(s: FormState)
    ensures RemoveLink(AddLink(s), |s.links|) == s
    ensures RemoveLink(AddLink(s), -1) == s
  {
    assert AddLink(s).links[..|s.links|] == s.links;
  }

  // ---------------------------------------------------------------------
  // Every handler keeps the invariant
  // ---------------------------------------------------------------------

  /** A user action on the form. */
  datatype Event =
    | EditUpf(index: nat, field: UpfField, value: string)
    | SetUpfs
    | TypeNumUpfs(text: string)
    | TypeNumGnbs(text: string)
    | Tick(gnb: nat, upf: nat)
    | NewLink
    | EditLink(linkIndex: int, linkField: LinkField, linkValue: string)
    | DropLink(dropIndex: int)
    | ResetForm

  /**
    The state after `e`, or `None` where the handler throws or the form has
    no control that raises `e` (an edit of a UPF row that does not exist).
   */
  function Step(s: FormState, e: Event): Option<FormState> {
    match e
    case EditUpf(i, f, v) => if i < |s.upfConfigs| then Some(ChangeUpf(s, i, f, v)) else None
    case SetUpfs => GenerateUpfs(s)
    case TypeNumUpfs(t) => Some(SetNumUpfs(s, t))
    case TypeNumGnbs(t) => Some(SetNumGnbs(s, t))
    case Tick(g, u) => Some(ToggleAssignment(s, g, u))
    case NewLink => Some(AddLink(s))
    case EditLink(i, f, v) => ChangeLink(s, i, f, v)
    case DropLink(i) => Some(RemoveLink(s, i))
    case ResetForm => Some(Reset(s))
  }

  /** From a valid state, every handler that completes leaves a valid state. */
  lemma StepKeepsValid(s: FormState, e: Event)
    requires Valid(s)
    ensures Step(s, e).Some? ==> Valid(Step(s, e).value)
  {
    match e
    case EditUpf(i, f, v) =>
      if i < |s.upfConfigs| {
        ChangeUpfKeepsValid(s, i, f, v);
      }
    case _ =>
  }

  /** A run of events, stopping at the first handler that throws. */
  function Run(s: FormState, es: seq<Event>): Option<FormState>
    decreases |es|
  {
    if |es| == 0 then Some(s)
    else match Step(s, es[0]) {
      case None => None
      case Some(t) => Run(t, es[1..])
    }
  }

  /** Whatever the user does from the initial form, there is never a second PCA UPF and the DN follows the PCA UPF. */
  lemma {:induction false} RunKeepsValid(s: FormState, es: seq<Event>)
    requires Valid(s)
    ensures Run(s, es).Some? ==> Valid(Run(s, es).value)
    decreases |es|
  {
    if |es| > 0 {
      StepKeepsValid(s, es[0]);
      if Step(s, es[0]).Some? {
        RunKeepsValid(Step(s, es[0]).value, es[1..]);
      }
    }
  }

  lemma InitialValid()
    ensures Valid(Initial)
    ensures forall es: seq<Event> :: Run(Initial, es).Some? ==> Valid(Run(Initial, es).value)
  {
    forall es: seq<Event> ensures Run(Initial, es).Some? ==> Valid(Run(Initial, es).value) {
      RunKeepsValid(Initial, es);
    }
  }
}
