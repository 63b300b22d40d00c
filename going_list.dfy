/**
 * The "Who's Going" card: which going members still lack an assignment, and which of the
 * seven requirements each one lacks.
 */
module GoingList {
  import opened Wrappers
  import opened JsText
  import opened Records

  /** The seven things `getMissing` can report. */
  datatype Requirement = Contact | CampsiteSet | Shelter | Bed | Bedding | Wristband | VehicleSet

  /** The name `getMissing` pushes for each requirement. */
  function Name(q: Requirement): string {
    match q
    case Contact => "Contact"
    case CampsiteSet => "Campsite"
    case Shelter => "Shelter"
    case Bed => "Bed"
    case Bedding => "Bedding"
    case Wristband => "GA/VIP"
    case VehicleSet => "Vehicle"
  }

  /** The order of the pushes in `getMissing`. */
  const FieldOrder: seq<Requirement> := [Contact, CampsiteSet, Shelter, Bed, Bedding, Wristband, VehicleSet]

  /** Distinct requirements have distinct names. */
  lemma NameInjective(a: Requirement, b: Requirement)
    ensures Name(a) == Name(b) ==> a == b
  {
    if a != b {
      assert |Name(a)| != |Name(b)| || Name(a)[0] != Name(b)[0];
    }
  }

  /**
   * `m.contact_number && m.contact_number.trim() !== ''`: a contact number with a character
   * that is not a space (`BlankIsAllSpace` ties this to `trim`).
   */
  predicate HasContact(m: Member)
    ensures HasContact(m) <==>
      (m.contactNumber.Some? && exists i :: 0 <= i < |m.contactNumber.value| && !IsSpace(m.contactNumber.value[i]))
  {
    m.contactNumber.Some? && (AllSpaceIff(m.contactNumber.value); !AllSpace(m.contactNumber.value))
  }

  /** `m.wristband === 'GA' || m.wristband === 'VIP'`. */
  predicate HasWristband(m: Member) {
    m.wristband == Some("GA") || m.wristband == Some("VIP")
  }

  /** `campsites.find((c) => c.id === id)`: the first campsite with that id. */
  function FindCampsite(cs: seq<Campsite>, id: int): (r: Option<Campsite>)
    ensures r.Some? ==> r.value in cs && r.value.id == id
    ensures r.None? <==> forall k :: 0 <= k < |cs| ==> cs[k].id != id
  {
    if cs == [] then None
    else if cs[0].id == id then Some(cs[0])
    else FindCampsite(cs[1..], id)
  }

  /** The member's campsite row; a NULL `campsite_id` is equal to no campsite id. */
  function CampsiteOf(m: Member, cs: seq<Campsite>): Option<Campsite> {
    if m.campsiteId.None? then None else FindCampsite(cs, m.campsiteId.value)
  }

  /** `camp?.vehicle_id != null && camp?.vehicle_id !== ''`. */
  predicate CampHasVehicle(m: Member, cs: seq<Campsite>) {
    var camp := CampsiteOf(m, cs);
    camp.Some? && camp.value.vehicleId.Some?
  }

  /** `isFullyAssigned(m, campsites)`: the green dot. */
  predicate IsFullyAssigned(m: Member, cs: seq<Campsite>)
    ensures IsFullyAssigned(m, cs) ==>
      exists k :: 0 <= k < |cs| && Some(cs[k].id) == m.campsiteId && cs[k].vehicleId.Some?
  {
    && HasContact(m)
    && m.campsiteId.Some?
    && m.shelterPackingId.Some?
    && m.bedPackingId.Some?
    && m.beddingPackingId.Some?
    && HasWristband(m)
    && CampHasVehicle(m, cs)
  }

  /**
   * The condition under which `getMissing` pushes the name of `q`. The Vehicle test starts
   * with `!m.campsite_id`, which is true for the id 0 as well as for NULL.
   */
  predicate Lacks(m: Member, cs: seq<Campsite>, q: Requirement)
    ensures IsFullyAssigned(m, cs) ==> (Lacks(m, cs, q) <==> q == VehicleSet && m.campsiteId == Some(0))
    ensures Lacks(m, cs, q) && q != VehicleSet ==> !IsFullyAssigned(m, cs)
  {
    match q
    case Contact => !HasContact(m)
    case CampsiteSet => m.campsiteId.None?
    case Shelter => m.shelterPackingId.None?
    case Bed => m.bedPackingId.None?
    case Bedding => m.beddingPackingId.None?
    case Wristband => !HasWristband(m)
    case VehicleSet => m.campsiteId.None? || m.campsiteId == Some(0) || !CampHasVehicle(m, cs)
  }

  /** The requirements of `qs` for which `lacks` holds, in the order of `qs`. */
  function Selected(lacks: Requirement -> bool, qs: seq<Requirement>): (r: seq<Requirement>)
    ensures |r| <= |qs|
  {
    if qs == [] then []
    else (if lacks(qs[0]) then [qs[0]] else []) + Selected(lacks, qs[1..])
  }

  /** Every selected requirement is lacking. */
  lemma {:induction false} SelectedLack(lacks: Requirement -> bool, qs: seq<Requirement>)
    ensures forall i :: 0 <= i < |Selected(lacks, qs)| ==> lacks(Selected(lacks, qs)[i])
  {
    if qs != [] {
      SelectedLack(lacks, qs[1..]);
    }
  }

  /** A requirement is selected exactly when it is one of `qs` and `lacks` holds for it. */
  lemma {:induction false} SelectedIff(lacks: Requirement -> bool, qs: seq<Requirement>, q: Requirement)
    ensures q in Selected(lacks, qs) <==> q in qs && lacks(q)
  {
    if qs != [] {
      SelectedIff(lacks, qs[1..], q);
      assert q in qs <==> q == qs[0] || q in qs[1..];
    }
  }

  /** Testing one more requirement appends it when it is lacking. */
  lemma {:induction false} SelectedSnoc(lacks: Requirement -> bool, qs: seq<Requirement>, q: Requirement)
    ensures Selected(lacks, qs + [q]) == Selected(lacks, qs) + (if lacks(q) then [q] else [])
  {
    if qs != [] {
      assert (qs + [q])[1..] == qs[1..] + [q];
      SelectedSnoc(lacks, qs[1..], q);
    }
  }

  /** Two tests that agree select the same requirements. */
  lemma {:induction false} SelectedSame(lacks: Requirement -> bool, lacks': Requirement -> bool, qs: seq<Requirement>)
    requires forall q :: lacks(q) == lacks'(q)
    ensures Selected(lacks, qs) == Selected(lacks', qs)
  {
    if qs != [] {
      SelectedSame(lacks, lacks', qs[1..]);
    }
  }

  /** The position of a requirement in the push order. */
  function Rank(q: Requirement): (n: nat)
    ensures n < 7
  {
    match q
    case Contact => 0
    case CampsiteSet => 1
    case Shelter => 2
    case Bed => 3
    case Bedding => 4
    case Wristband => 5
    case VehicleSet => 6
  }

  /** Each requirement sits at its rank in the push order. */
  lemma RankInOrder(q: Requirement)
    ensures FieldOrder[Rank(q)] == q
  {
  }

  /** A selection from a list in push order is itself in push order. */
  lemma {:induction false} SelectedOrdered(lacks: Requirement -> bool, qs: seq<Requirement>)
    requires forall a, b :: 0 <= a < b < |qs| ==> Rank(qs[a]) < Rank(qs[b])
    ensures forall a, b :: 0 <= a < b < |Selected(lacks, qs)| ==>
      Rank(Selected(lacks, qs)[a]) < Rank(Selected(lacks, qs)[b])
  {
    if qs != [] {
      SelectedOrdered(lacks, qs[1..]);
      var rest := Selected(lacks, qs[1..]);
      if lacks(qs[0]) {
        var r := [qs[0]] + rest;
        forall b | 0 < b < |r| ensures Rank(r[0]) < Rank(r[b]) {
          SelectedIff(lacks, qs[1..], r[b]);
          var j :| 0 <= j < |qs[1..]| && qs[1..][j] == r[b];
          assert qs[j + 1] == r[b];
        }
      }
    }
  }

  /** The names of a list of requirements. */
  function Names(qs: seq<Requirement>): (r: seq<string>)
    ensures |r| == |qs| && forall k :: 0 <= k < |qs| ==> r[k] == Name(qs[k])
  {
    if qs == [] then [] else [Name(qs[0])] + Names(qs[1..])
  }

  lemma NamesAppend(a: seq<Requirement>, b: seq<Requirement>)
    ensures Names(a + b) == Names(a) + Names(b)
  {
  }

  /** A name is among the names exactly when its requirement is in the list. */
  lemma NamesMember(qs: seq<Requirement>, q: Requirement)
    ensures Name(q) in Names(qs) <==> q in qs
  {
    if Name(q) in Names(qs) {
      var k :| 0 <= k < |qs| && Names(qs)[k] == Name(q);
      NameInjective(q, qs[k]);
    }
  }

  /** The member's requirement test as a function value. */
  function LacksOf(m: Member, cs: seq<Campsite>): Requirement -> bool {
    q => Lacks(m, cs, q)
  }

  /** The requirements the member lacks, in push order. */
  function MissingReqs(m: Member, cs: seq<Campsite>): seq<Requirement> {
    Selected(LacksOf(m, cs), FieldOrder)
  }

  /** The reference for `getMissing`: the names of the lacking requirements, in push order. */
  function Missing(m: Member, cs: seq<Campsite>): (r: seq<string>)
    ensures |r| <= |FieldOrder|
    ensures forall i :: 0 <= i < |r| ==> exists q :: Name(q) == r[i] && Lacks(m, cs, q)
  {
    SelectedLack(LacksOf(m, cs), FieldOrder);
    Names(MissingReqs(m, cs))
  }

  /** The list after the pushes for the first `n` requirements of `order`. */
  function PushedBy(lacks: Requirement -> bool, order: seq<Requirement>, n: nat): seq<string>
    requires n <= |order|
  {
    if n == 0 then []
    else PushedBy(lacks, order, n - 1) + (if lacks(order[n - 1]) then [Name(order[n - 1])] else [])
  }

  /** The list after the member's first `n` pushes. */
  function Pushed(m: Member, cs: seq<Campsite>, n: nat): seq<string>
    requires n <= 7
  {
    PushedBy(LacksOf(m, cs), FieldOrder, n)
  }

  /** The pushes so far are the names of the lacking requirements tested so far. */
  lemma {:induction false} PushedIsSelected(lacks: Requirement -> bool, order: seq<Requirement>, n: nat)
    requires n <= |order|
    ensures PushedBy(lacks, order, n) == Names(Selected(lacks, order[..n]))
  {
    if n > 0 {
      var q := order[n - 1];
      var prev := Selected(lacks, order[..n - 1]);
      var added: seq<Requirement> := if lacks(q) then [q] else [];
      PushedIsSelected(lacks, order, n - 1);
      assert order[..n] == order[..n - 1] + [q];
      SelectedSnoc(lacks, order[..n - 1], q);
      assert Selected(lacks, order[..n]) == prev + added;
      NamesAppend(prev, added);
      assert Names(added) == if lacks(q) then [Name(q)] else [];
    }
  }

  /** `getMissing(m, campsites)`: seven checks, each pushing one name onto the list. */
  method GetMissing(m: Member, cs: seq<Campsite>) returns (missing: seq<string>)
    ensures missing == Missing(m, cs)
  {
    missing := [];
    missing := PushIf(missing, m.contactNumber.None? || IsBlank(m.contactNumber.value), "Contact");
    missing := PushIf(missing, m.campsiteId.None?, "Campsite");
    missing := PushIf(missing, m.shelterPackingId.None?, "Shelter");
    missing := PushIf(missing, m.bedPackingId.None?, "Bed");
    missing := PushIf(missing, m.beddingPackingId.None?, "Bedding");
    missing := PushIf(missing, m.wristband != Some("GA") && m.wristband != Some("VIP"), "GA/VIP");
    var camp := CampsiteOf(m, cs);
    missing := PushIf(missing, m.campsiteId.None? || m.campsiteId == Some(0) || camp.None? || camp.value.vehicleId.None?, "Vehicle");
    assert missing == WrittenOut(m, cs);
    MissingWrittenOut(m, cs);
  }

  /** The reference with each test spelt as `getMissing` spells it. */
  function WrittenOut(m: Member, cs: seq<Campsite>): seq<string> {
    var camp := CampsiteOf(m, cs);
    []
      + (if m.contactNumber.None? || IsBlank(m.contactNumber.value) then ["Contact"] else [])
      + (if m.campsiteId.None? then ["Campsite"] else [])
      + (if m.shelterPackingId.None? then ["Shelter"] else [])
      + (if m.bedPackingId.None? then ["Bed"] else [])
      + (if m.beddingPackingId.None? then ["Bedding"] else [])
      + (if m.wristband != Some("GA") && m.wristband != Some("VIP") then ["GA/VIP"] else [])
      + (if m.campsiteId.None? || m.campsiteId == Some(0) || camp.None? || camp.value.vehicleId.None? then ["Vehicle"] else [])
  }

  lemma MissingWrittenOut(m: Member, cs: seq<Campsite>)
    ensures Missing(m, cs) == WrittenOut(m, cs)
  {
    MissingInPushOrder(m, cs);
    PushesSpelled(m, cs);
  }

  /** Each push of the reference, with its test spelt as `getMissing` spells it. */
  lemma PushesSpelled(m: Member, cs: seq<Campsite>)
    ensures PushFor(m, cs, Contact) == if m.contactNumber.None? || IsBlank(m.contactNumber.value) then ["Contact"] else []
    ensures PushFor(m, cs, CampsiteSet) == if m.campsiteId.None? then ["Campsite"] else []
    ensures PushFor(m, cs, Shelter) == if m.shelterPackingId.None? then ["Shelter"] else []
    ensures PushFor(m, cs, Bed) == if m.bedPackingId.None? then ["Bed"] else []
    ensures PushFor(m, cs, Bedding) == if m.beddingPackingId.None? then ["Bedding"] else []
    ensures PushFor(m, cs, Wristband) == if m.wristband != Some("GA") && m.wristband != Some("VIP") then ["GA/VIP"] else []
    ensures var camp := CampsiteOf(m, cs);
      PushFor(m, cs, VehicleSet) == if m.campsiteId.None? || m.campsiteId == Some(0) || camp.None? || camp.value.vehicleId.None? then ["Vehicle"] else []
  {
    if m.contactNumber.Some? {
      BlankIsAllSpace(m.contactNumber.value);
    }
  }


  /** The name pushed for `q`, if any. */
  function PushFor(m: Member, cs: seq<Campsite>, q: Requirement): seq<string> {
    if Lacks(m, cs, q) then [Name(q)] else []
  }

  /** The reference, written out as the seven pushes in order. */
  lemma MissingInPushOrder(m: Member, cs: seq<Campsite>)
    ensures Missing(m, cs) == [] + PushFor(m, cs, Contact) + PushFor(m, cs, CampsiteSet) + PushFor(m, cs, Shelter)
      + PushFor(m, cs, Bed) + PushFor(m, cs, Bedding) + PushFor(m, cs, Wristband) + PushFor(m, cs, VehicleSet)
  {
    assert FieldOrder[..7] == FieldOrder;
    PushedIsSelected(LacksOf(m, cs), FieldOrder, 7);
    PushedStep(m, cs, 0, Contact);
    PushedStep(m, cs, 1, CampsiteSet);
    PushedStep(m, cs, 2, Shelter);
    PushedStep(m, cs, 3, Bed);
    PushedStep(m, cs, 4, Bedding);
    PushedStep(m, cs, 5, Wristband);
    PushedStep(m, cs, 6, VehicleSet);
  }

  /** The push for the requirement at position `n` of the order. */
  lemma PushedStep(m: Member, cs: seq<Campsite>, n: nat, q: Requirement)
    requires n < 7 && FieldOrder[n] == q
    ensures Pushed(m, cs, n + 1) == Pushed(m, cs, n) + PushFor(m, cs, q)
  {
  }

  /** `if (cond) missing.push(name)`. */
  method PushIf(missing: seq<string>, cond: bool, name: string) returns (r: seq<string>)
    ensures r == missing + (if cond then [name] else [])
  {
    r := missing;
    if cond {
      r := r + [name];
    }
  }

  /** A name is listed exactly when it names a requirement the member lacks. */
  lemma MissingIff(m: Member, cs: seq<Campsite>, q: Requirement)
    ensures Name(q) in Missing(m, cs) <==> Lacks(m, cs, q)
  {
    NamesMember(MissingReqs(m, cs), q);
    SelectedIff(LacksOf(m, cs), FieldOrder, q);
    RankInOrder(q);
  }

  /**
   * `getMissing` lists its names in the order Contact, Campsite, Shelter, Bed, Bedding,
   * GA/VIP, Vehicle, never one twice, so it has at most seven entries.
   */
  lemma MissingOrdered(m: Member, cs: seq<Campsite>)
    ensures |Missing(m, cs)| <= 7
    ensures forall k :: 0 <= k < |Missing(m, cs)| ==> Missing(m, cs)[k] == Name(MissingReqs(m, cs)[k])
    ensures forall a, b :: 0 <= a < b < |Missing(m, cs)| ==> Rank(MissingReqs(m, cs)[a]) < Rank(MissingReqs(m, cs)[b])
    ensures forall a, b :: 0 <= a < b < |Missing(m, cs)| ==> Missing(m, cs)[a] != Missing(m, cs)[b]
  {
    SelectedOrdered(LacksOf(m, cs), FieldOrder);
    NamesDistinct(MissingReqs(m, cs));
  }

  /** Requirements in strictly increasing push order have pairwise distinct names. */
  lemma NamesDistinct(qs: seq<Requirement>)
    requires forall a, b :: 0 <= a < b < |qs| ==> Rank(qs[a]) < Rank(qs[b])
    ensures forall a, b :: 0 <= a < b < |Names(qs)| ==> Names(qs)[a] != Names(qs)[b]
  {
    var r := Names(qs);
    forall a, b | 0 <= a < b < |r| ensures r[a] != r[b] {
      NameInjective(qs[a], qs[b]);
    }
  }

  /**
   * For every member whose campsite id is not 0, the dot is green exactly when nothing is
   * missing.
   */
  lemma FullyAssignedIffNothingMissing(m: Member, cs: seq<Campsite>)
    requires m.campsiteId != Some(0)
    ensures IsFullyAssigned(m, cs) <==> Missing(m, cs) == []
  {
    if !IsFullyAssigned(m, cs) {
      var q :| Lacks(m, cs, q);
      MissingIff(m, cs, q);
    }
  }

  /**
   * The two functions disagree on a campsite whose id is 0: `isFullyAssigned` finds the
   * campsite and its vehicle, while `getMissing` reports Vehicle because `!0` holds.
   */
  lemma CampsiteZeroDisagrees()
    ensures var m := Member(1, "Ana", "going", Some("555"), Some(0), None, Some(1), Some(2), Some(3),
      Some("GA"), map[], None);
      var cs := [Campsite(0, "Meadow", Some(4), None)];
      IsFullyAssigned(m, cs) && Missing(m, cs) == ["Vehicle"]
  {
    var m := Member(1, "Ana", "going", Some("555"), Some(0), None, Some(1), Some(2), Some(3),
      Some("GA"), map[], None);
    var cs := [Campsite(0, "Meadow", Some(4), None)];
    assert !IsSpace('5');
    BlankIsAllSpace("555");
    assert CampsiteOf(m, cs) == Some(cs[0]);
    assert IsFullyAssigned(m, cs);
    MissingWrittenOut(m, cs);
  }


  /** A contact number is missing exactly when it is NULL or made only of space characters. */
  lemma ContactMissingIff(m: Member, cs: seq<Campsite>)
    ensures Name(Contact) in Missing(m, cs) <==>
      m.contactNumber.None? || forall i :: 0 <= i < |m.contactNumber.value| ==> IsSpace(m.contactNumber.value[i])
  {
    MissingIff(m, cs, Contact);
    if m.contactNumber.Some? {
      AllSpaceIff(m.contactNumber.value);
    }
  }

  /** Only the wristbands `GA` and `VIP` satisfy the wristband requirement. */
  lemma WristbandMissingIff(m: Member, cs: seq<Campsite>)
    ensures Name(Wristband) !in Missing(m, cs) <==> m.wristband == Some("GA") || m.wristband == Some("VIP")
  {
    MissingIff(m, cs, Wristband);
    assert Lacks(m, cs, Wristband) == !HasWristband(m);
  }

  /**
   * The Vehicle requirement is met only through the member's campsite: it is missing when
   * the campsite id is NULL or 0, when no campsite has that id (`FindCampsite`), or when the
   * campsite has no vehicle.
   */
  lemma VehicleMissingIff(m: Member, cs: seq<Campsite>)
    ensures Name(VehicleSet) in Missing(m, cs) <==>
      || m.campsiteId.None? || m.campsiteId == Some(0)
      || CampsiteOf(m, cs).None? || CampsiteOf(m, cs).value.vehicleId.None?
  {
    MissingIff(m, cs, VehicleSet);
  }

  /** The member's own `vehicle_id` plays no part in either check. */
  lemma MemberVehicleIgnored(m: Member, cs: seq<Campsite>, v: Option<int>)
    ensures Missing(m.(vehicleId := v), cs) == Missing(m, cs)
    ensures IsFullyAssigned(m.(vehicleId := v), cs) == IsFullyAssigned(m, cs)
  {
    MissingIgnoresVehicle(m, cs, v);
    FullyAssignedIgnoresVehicle(m, cs, v);
  }

  lemma MissingIgnoresVehicle(m: Member, cs: seq<Campsite>, v: Option<int>)
    ensures MissingReqs(m.(vehicleId := v), cs) == MissingReqs(m, cs)
  {
    var m' := m.(vehicleId := v);
    forall q ensures LacksOf(m, cs)(q) == LacksOf(m', cs)(q) {
      LacksIgnoresVehicle(m, cs, v, q);
    }
    SelectedSame(LacksOf(m, cs), LacksOf(m', cs), FieldOrder);
  }

  lemma FullyAssignedIgnoresVehicle(m: Member, cs: seq<Campsite>, v: Option<int>)
    ensures IsFullyAssigned(m.(vehicleId := v), cs) == IsFullyAssigned(m, cs)
  {
    var m' := m.(vehicleId := v);
    assert CampsiteOf(m', cs) == CampsiteOf(m, cs);
    assert HasContact(m') == HasContact(m);
  }

  lemma LacksIgnoresVehicle(m: Member, cs: seq<Campsite>, v: Option<int>, q: Requirement)
    ensures Lacks(m.(vehicleId := v), cs, q) == Lacks(m, cs, q)
  {
    var m' := m.(vehicleId := v);
    assert CampsiteOf(m', cs) == CampsiteOf(m, cs);
    assert HasContact(m') == HasContact(m);
  }

  /** One entry of the rendered list: the member, their name and the colour of their dot. */
  datatype Row = Row(memberId: int, name: string, complete: bool)

  function Rows(going: seq<Member>, cs: seq<Campsite>): (r: seq<Row>)
    ensures |r| == |going|
    ensures forall k :: 0 <= k < |r| ==>
      r[k] == Row(going[k].id, going[k].name, IsFullyAssigned(going[k], cs))
  {
    if going == [] then []
    else [Row(going[0].id, going[0].name, IsFullyAssigned(going[0], cs))] + Rows(going[1..], cs)
  }

  /**
   * What the card renders: nothing when no member is going, otherwise one row per going
   * member, in table order, green exactly when the member is fully assigned.
   */
  function GoingCard(members: seq<Member>, cs: seq<Campsite>): (r: Option<seq<Row>>)
    ensures r.None? <==> forall k :: 0 <= k < |members| ==> !IsGoing(members[k])
    ensures r.Some? ==> |r.value| == |Going(members)|
    ensures r.Some? ==> forall k :: 0 <= k < |r.value| ==>
      exists j :: (0 <= j < |members| && IsGoing(members[j]) && r.value[k].memberId == members[j].id
        && r.value[k].complete == IsFullyAssigned(members[j], cs))
  {
    var going := Going(members);
    if going == [] then
      NoneGoing(members);
      None
    else
      RowsOfMembers(members, cs);
      Some(Rows(going, cs))
  }

  lemma NoneGoing(members: seq<Member>)
    requires Going(members) == []
    ensures forall k :: 0 <= k < |members| ==> !IsGoing(members[k])
  {
  }

  /** Every row comes from a going member of the table. */
  lemma RowsOfMembers(members: seq<Member>, cs: seq<Campsite>)
    ensures var rows := Rows(Going(members), cs);
      forall k :: 0 <= k < |rows| ==>
        exists j :: (0 <= j < |members| && IsGoing(members[j]) && rows[k].memberId == members[j].id
          && rows[k].complete == IsFullyAssigned(members[j], cs))
  {
    var going := Going(members);
    var rows := Rows(going, cs);
    forall k | 0 <= k < |rows|
      ensures exists j :: (0 <= j < |members| && IsGoing(members[j]) && rows[k].memberId == members[j].id
          && rows[k].complete == IsFullyAssigned(members[j], cs))
    {
      assert going[k] in members;
      var j :| 0 <= j < |members| && members[j] == going[k];
    }
  }
}
