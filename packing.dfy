/**
 * The per-campsite packing card. Its type labels, its grouping by type and its local
 * updates after a toggle or a removal are those of the packing-lists tab (the component
 * repeats the same definitions), so they are imported from `PackingTab`; what differs is
 * the add form, the heading and the occupants edit.
 */
module Packing {
  import opened Wrappers
  import opened JsText
  import opened Lists
  import opened Records
  import opened PackingTab

  /** The POST body of `add`: the common fields and the campsite, when one is picked. */
  datatype CampsiteItemBody = CampsiteItemBody(fields: NewItem, campsiteId: Option<int>)

  /** `add`: the common fields; `campsite_id` only when a campsite is selected. */
  function AddBody(labelInput: string, itemType: string, occupants: string, selected: Option<int>): (r: Option<CampsiteItemBody>)
    ensures r.None? <==> IsBlank(labelInput)
    ensures r.Some? ==> Some(r.value.fields) == NewItemFields(labelInput, itemType, occupants)
    ensures r.Some? ==> r.value.campsiteId == selected
  {
    match NewItemFields(labelInput, itemType, occupants)
    case None => None
    case Some(fields) => Some(CampsiteItemBody(fields, if selected.Some? then selected else None))
  }

  function HasCampsiteId(id: int): Campsite -> bool {
    (c: Campsite) => c.id == id
  }

  /**
   * `currentLabel`: "General" with no campsite selected, else the name of the first
   * campsite with the selected id, else "Campsite".
   */
  function CurrentLabel(selected: Option<int>, campsites: seq<Campsite>): (r: string)
    ensures selected.None? ==> r == "General"
    ensures selected.Some? && (forall k :: 0 <= k < |campsites| ==> campsites[k].id != selected.value) ==> r == "Campsite"
    ensures selected.Some? && r != "Campsite" ==> exists k :: 0 <= k < |campsites| && campsites[k].id == selected.value && campsites[k].name == r
  {
    match selected
    case None => "General"
    case Some(id) =>
      match FindFirst(campsites, HasCampsiteId(id))
      case Some(c) => c.name
      case None => "Campsite"
  }

  /** With campsite ids unique, the heading is the selected campsite's own name. */
  lemma CurrentLabelOfCampsite(campsites: seq<Campsite>, k: nat)
    requires k < |campsites|
    requires forall j :: 0 <= j < k ==> campsites[j].id != campsites[k].id
    ensures CurrentLabel(Some(campsites[k].id), campsites) == campsites[k].name
  {
    FindFirstAt(campsites, HasCampsiteId(campsites[k].id), k);
  }

  /** `updateOccupants(id, value)`: the PATCH is sent for any item, with `OccupantsValue(value)`. */
  function UpdateOccupantsAnyType(value: string): (r: Option<int>)
    ensures value == "" ==> r.None?
    ensures r.Some? ==> ParseInt(value) == r
    ensures value != "" ==> r == ParseInt(value)
  {
    OccupantsValue(value)
  }

  /**
   * Where the tab sends an occupants edit the card sends the same one; the card also
   * sends it for an item that is not a shelter, where the tab sends nothing.
   */
  lemma OccupantsEditsAgreeOnShelters(items: seq<PackingItem>, id: int, value: string)
    ensures UpdateOccupants(items, id, value).Some? ==> UpdateOccupants(items, id, value) == Some(UpdateOccupantsAnyType(value))
    ensures var tent := PackingItem(1, "Tent", Some("food"), false, None, None);
      UpdateOccupants([tent], 1, "2").None? && UpdateOccupantsAnyType("2") == Some(2)
  {
    var tent := PackingItem(1, "Tent", Some("food"), false, None, None);
    assert FindFirst([tent], HasId(1)) == Some(tent);
    ParseIntOfIntToString(2);
    assert IntToString(2) == "2";
  }
}
