/**
 * The campsites-and-vehicles options page: the add forms (a trimmed, non-blank name and a
 * vehicle capacity of at least one), the lists kept sorted by name, the campsite's pass
 * vehicle and area pickers, and the removals.
 */
module VehiclesSites {
  import opened Wrappers
  import opened JsText
  import opened Lists
  import opened Records

  /** The name an add form sends: `input.trim()`, or nothing when that is empty. */
  function NewName(input: string): (r: Option<string>)
    ensures r.None? <==> IsBlank(input)
    ensures r.Some? ==> r.value == Trim(input) && r.value != ""
  {
    if IsBlank(input) then None else Some(Trim(input))
  }

  /** The name sent is already trimmed: sending it again sends the same name. */
  lemma NewNameStable(input: string)
    requires NewName(input).Some?
    ensures NewName(NewName(input).value) == NewName(input)
  {
    TrimIdempotent(input);
  }

  /** `Math.max(1, parseInt(input, 10) || 1)`: NaN and 0 fall back to 1, and so does any value below 1. */
  function Capacity(input: string): (r: int)
    ensures r >= 1
    ensures ParseInt(input).Some? && ParseInt(input).value >= 1 ==> r == ParseInt(input).value
    ensures ParseInt(input).None? || ParseInt(input).value < 1 ==> r == 1
  {
    var parsed := match ParseInt(input) case None => 1 case Some(n) => if n == 0 then 1 else n;
    if parsed > 1 then parsed else 1
  }

  /** A capacity written out reads back unchanged, so normalising twice is normalising once. */
  lemma CapacityRoundTrip(input: string, n: int)
    requires n >= 1
    ensures Capacity(IntToString(n)) == n
    ensures Capacity(IntToString(Capacity(input))) == Capacity(input)
  {
    ParseIntOfIntToString(n);
    ParseIntOfIntToString(Capacity(input));
  }

  /** The POST body of `addVehicle`. */
  datatype VehicleBody = VehicleBody(name: string, capacity: int)

  /** `addVehicle`: a blank name sends nothing; otherwise the trimmed name and the normalised capacity. */
  function AddVehicleBody(nameInput: string, capacityInput: string): (r: Option<VehicleBody>)
    ensures r.None? <==> IsBlank(nameInput)
    ensures r.Some? ==> Some(r.value.name) == NewName(nameInput) && r.value.capacity == Capacity(capacityInput)
  {
    match NewName(nameInput)
    case None => None
    case Some(name) => Some(VehicleBody(name, Capacity(capacityInput)))
  }

  /** `a.name.localeCompare(b.name)` as a sort key (by code points). */
  function CampsiteName(c: Campsite): seq<int> {
    Codes(c.name)
  }

  function VehicleName(v: Vehicle): seq<int> {
    Codes(v.name)
  }

  /** `[...prev, c].sort(byName)` after a campsite is created. */
  function AddCampsite(prev: seq<Campsite>, c: Campsite): (r: seq<Campsite>)
    ensures SortedBy(r, CampsiteName)
    ensures multiset(r) == multiset(prev) + multiset{c}
  {
    SortBySorted(prev + [c], CampsiteName);
    SortBy(prev + [c], CampsiteName)
  }

  /** `[...prev, v].sort(byName)` after a vehicle is created. */
  function AddVehicle(prev: seq<Vehicle>, v: Vehicle): (r: seq<Vehicle>)
    ensures SortedBy(r, VehicleName)
    ensures multiset(r) == multiset(prev) + multiset{v}
  {
    SortBySorted(prev + [v], VehicleName);
    SortBy(prev + [v], VehicleName)
  }

  function CampsiteId(c: Campsite): int {
    c.id
  }

  function VehicleId(v: Vehicle): int {
    v.id
  }

  /** `prev.filter((c) => c.id !== id)` after a campsite is deleted. */
  function RemoveCampsite(prev: seq<Campsite>, id: int): (r: seq<Campsite>)
    ensures forall k :: 0 <= k < |r| ==> r[k].id != id && r[k] in prev
    ensures forall k :: 0 <= k < |prev| && prev[k].id != id ==> multiset(r)[prev[k]] == multiset(prev)[prev[k]]
  {
    RemoveWhereKeeps(prev, CampsiteId, id);
    RemoveWhere(prev, CampsiteId, id)
  }

  /** `prev.filter((v) => v.id !== id)` after a vehicle is deleted. */
  function RemoveVehicle(prev: seq<Vehicle>, id: int): (r: seq<Vehicle>)
    ensures forall k :: 0 <= k < |r| ==> r[k].id != id && r[k] in prev
    ensures forall k :: 0 <= k < |prev| && prev[k].id != id ==> multiset(r)[prev[k]] == multiset(prev)[prev[k]]
  {
    RemoveWhereKeeps(prev, VehicleId, id);
    RemoveWhere(prev, VehicleId, id)
  }

  /** A list kept sorted by the adds stays sorted through the removals. */
  lemma RemovalKeepsOrder(cs: seq<Campsite>, vs: seq<Vehicle>, id: int)
    ensures SortedBy(cs, CampsiteName) ==> SortedBy(RemoveCampsite(cs, id), CampsiteName)
    ensures SortedBy(vs, VehicleName) ==> SortedBy(RemoveVehicle(vs, id), VehicleName)
  {
    if SortedBy(cs, CampsiteName) {
      RemoveWhereSorted(cs, CampsiteId, id, CampsiteName);
    }
    if SortedBy(vs, VehicleName) {
      RemoveWhereSorted(vs, VehicleId, id, VehicleName);
    }
  }

  /**
   * `Number(v)` for the value of a vehicle option, which is `String(vehicle.id)`: the
   * integer a decimal spelling denotes; `None` for anything else, which `Number` turns into
   * NaN and `JSON.stringify` into `null`.
   */
  function NumberOfDecimal(s: string): (r: Option<int>)
    ensures r.Some? ==> s != ""
    ensures r.Some? && r.value > 0 ==> AllDigits(s)
    ensures s != "" && AllDigits(s) ==> r == Some(DigitsValue(s))
    ensures |s| > 1 && s[0] == '-' && AllDigits(s[1..]) ==> r == Some(0 - DigitsValue(s[1..]))
    ensures r.None? <==> !(s != "" && AllDigits(s)) && !(|s| > 1 && s[0] == '-' && AllDigits(s[1..]))
  {
    if s != "" && AllDigits(s) then Some(DigitsValue(s))
    else if |s| > 1 && s[0] == '-' && AllDigits(s[1..]) then Some(0 - DigitsValue(s[1..]))
    else None
  }

  /** `updateCampsiteVehicle`: the empty option and `null` clear the pass vehicle; an option's value is its id. */
  function VehicleIdValue(v: Option<string>): (r: Option<int>)
    ensures v.None? || v == Some("") ==> r.None?
    ensures v.Some? && v.value != "" ==> r == NumberOfDecimal(v.value)
  {
    if v.None? || v.value == "" then None else NumberOfDecimal(v.value)
  }

  /** Picking a vehicle's option sends that vehicle's id. */
  lemma VehicleIdRoundTrip(id: int)
    ensures VehicleIdValue(Some(IntToString(id))) == Some(id)
  {
    if id < 0 {
      var d := DecimalString(0 - id);
      assert IntToString(id)[1..] == d;
    }
  }

  /** `CAMPSITE_AREAS`: the "Area" placeholder and the three areas. */
  const CampsiteAreas: seq<string> := ["", "front_yard", "premier", "general"]

  /** `updateCampsiteArea`: the empty option and `null` clear the area; any other value is sent as is. */
  function AreaValue(area: Option<string>): (r: Option<string>)
    ensures r.None? <==> area.None? || area == Some("")
    ensures r.Some? ==> r == area
  {
    if area.None? || area.value == "" then None else area
  }

  /** The placeholder clears the area and each of the three areas is stored as picked. */
  lemma AreaOptions(k: nat)
    requires k < |CampsiteAreas|
    ensures k == 0 ==> AreaValue(Some(CampsiteAreas[k])).None?
    ensures k > 0 ==> AreaValue(Some(CampsiteAreas[k])) == Some(CampsiteAreas[k])
  {
  }
}
