/**
 * The packing-lists tab: the item-type labels, the grouping of a list's items by type,
 * the body of the "add item" form, the occupants edit of a shelter, the selection after a
 * custom list is deleted, and the local copies the tab keeps after a toggle or a removal.
 */
module PackingTab {
  import opened Wrappers
  import opened JsText
  import opened Lists
  import opened Records

  /** An entry of `ITEM_TYPES`: the stored `item_type` and its label. */
  datatype TypeOption = TypeOption(value: string, text: string)

  /** `ITEM_TYPES`: the empty type (rendered `—` in the picker) and the seven named types. */
  const ItemTypes: seq<TypeOption> := [
    TypeOption("", "—"),
    TypeOption("bed", "Bed"),
    TypeOption("bedding", "Bedding"),
    TypeOption("shelter", "Shelter"),
    TypeOption("site_furniture", "Site/Furniture"),
    TypeOption("food", "Food"),
    TypeOption("cooking", "Cooking"),
    TypeOption("other", "Other")
  ]

  /** `TYPE_ORDER`: the groups the tab shows, the untyped group last. */
  const TypeOrder: seq<string> := ["bed", "bedding", "shelter", "site_furniture", "food", "cooking", "other", ""]

  /** `typeLabel(t)`: the empty type reads "Other", a listed type its label, any other "Other". */
  function TypeLabel(t: string): (r: string)
    ensures r == "Other" || exists k :: 0 <= k < |ItemTypes| && ItemTypes[k].value == t && ItemTypes[k].text == r
    ensures t == "" ==> r == "Other"
  {
    if t == "" then "Other"
    else match FindFirst(ItemTypes, IsOption(t))
      case Some(o) => if o.text == "" then "Other" else o.text
      case None => "Other"
  }

  /** The six types whose label is not "Other". */
  predicate HasOwnLabel(t: string) {
    t == "bed" || t == "bedding" || t == "shelter" || t == "site_furniture" || t == "food" || t == "cooking"
  }

  /** The test of `ITEM_TYPES.find(...)` for the type `t`. */
  function IsOption(t: string): TypeOption -> bool {
    (o: TypeOption) => o.value == t
  }

  /** The stored types of `ITEM_TYPES` are pairwise distinct. */
  lemma ItemTypesDistinct()
    ensures forall j, k :: 0 <= j < k < |ItemTypes| ==> ItemTypes[j].value != ItemTypes[k].value
  {
  }

  /** Only the first entry has the empty type, and no entry has an empty label. */
  lemma ItemTypesNonEmpty()
    ensures forall k :: 1 <= k < |ItemTypes| ==> ItemTypes[k].value != ""
    ensures forall k :: 0 <= k < |ItemTypes| ==> ItemTypes[k].text != ""
    ensures ItemTypes[0].value == ""
  {
  }

  /** `typeLabel` of a non-empty type that `find` locates is that entry's label. */
  lemma TypeLabelFound(t: string, o: TypeOption)
    requires t != "" && o.text != ""
    requires FindFirst(ItemTypes, IsOption(t)) == Some(o)
    ensures TypeLabel(t) == o.text
  {
  }

  /** A listed non-empty type gets its own label. */
  lemma TypeLabelOfListed(k: nat)
    requires 1 <= k < |ItemTypes|
    ensures TypeLabel(ItemTypes[k].value) == ItemTypes[k].text
  {
    ItemTypesDistinct();
    ItemTypesNonEmpty();
    FindFirstAt(ItemTypes, IsOption(ItemTypes[k].value), k);
    TypeLabelFound(ItemTypes[k].value, ItemTypes[k]);
  }

  /**
   * Against the table: `TypeLabel` is "Other" exactly for the empty type, `other` and the
   * unlisted types; in particular the picker's `—` is never a group label.
   */
  lemma TypeLabelOther(t: string)
    ensures TypeLabel(t) == "Other" <==> !HasOwnLabel(t)
    ensures (forall k :: 0 <= k < |ItemTypes| ==> ItemTypes[k].value != t) ==> TypeLabel(t) == "Other"
    ensures TypeLabel(t) != "—"
  {
    ItemTypesLabels();
    if t == "" {
    } else if HasOwnLabel(t) {
      var k := OwnLabelIndex(t);
      TypeLabelOfListed(k);
    } else if t == "other" {
      TypeLabelOfListed(7);
    } else {
      assert FindFirst(ItemTypes, IsOption(t)).None?;
    }
  }

  /** Which entries of `ITEM_TYPES` carry an own label, and that none is labelled `—` but the first. */
  lemma ItemTypesLabels()
    ensures forall k :: 0 <= k < |ItemTypes| ==>
      ItemTypes[k].value == "" || HasOwnLabel(ItemTypes[k].value) || ItemTypes[k].value == "other"
    ensures forall k :: 1 <= k < |ItemTypes| && HasOwnLabel(ItemTypes[k].value) ==>
      ItemTypes[k].text != "Other" && ItemTypes[k].text != "—"
    ensures ItemTypes[7].value == "other" && ItemTypes[7].text == "Other"
  {
  }

  /** The entry of an own-labelled type. */
  lemma OwnLabelIndex(t: string) returns (k: nat)
    requires HasOwnLabel(t)
    ensures 1 <= k < |ItemTypes| && ItemTypes[k].value == t
  {
    if t == "bed" { k := 1; }
    else if t == "bedding" { k := 2; }
    else if t == "shelter" { k := 3; }
    else if t == "site_furniture" { k := 4; }
    else if t == "food" { k := 5; }
    else { k := 6; }
  }

  /** `(i.item_type || '')`: the stored type, NULL read as the empty type. */
  function TypeKey(i: PackingItem): string {
    i.itemType.GetOr("")
  }

  /** The test of `items.filter(...)` for the group `t`. */
  function OfType(t: string): PackingItem -> bool {
    (i: PackingItem) => TypeKey(i) == t
  }

  /** The group of type `t`: the items of that type, in list order. */
  function Group(items: seq<PackingItem>): string -> seq<PackingItem> {
    (t: string) => Filter(items, OfType(t))
  }

  /** The reference for `byType`: one group per entry of `TYPE_ORDER`. */
  function ByTypeSpec(items: seq<PackingItem>): map<string, seq<PackingItem>> {
    MapOver(TypeOrder, Group(items))
  }

  /** `byType`: the `reduce` over `TYPE_ORDER` that assigns each group into the accumulator. */
  method ByType(items: seq<PackingItem>) returns (acc: map<string, seq<PackingItem>>)
    ensures acc == ByTypeSpec(items)
  {
    acc := map[];
    assert acc == MapOver(TypeOrder[..0], Group(items));
    for j := 0 to |TypeOrder|
      invariant acc == MapOver(TypeOrder[..j], Group(items))
    {
      // `t || ''` is `t` itself: every entry of `TYPE_ORDER` is a string.
      var key := TypeOrder[j];
      MapOverSnoc(TypeOrder, j, Group(items));
      acc := acc[key := Filter(items, OfType(key))];
    }
    assert TypeOrder[..|TypeOrder|] == TypeOrder;
  }

  /**
   * An item of a listed type lies in the group of its type, as often as in the list, and in
   * no other group; an item of an unlisted type lies in no group.
   */
  lemma ByTypePartition(items: seq<PackingItem>, i: PackingItem, t: string)
    ensures t in ByTypeSpec(items) <==> t in TypeOrder
    ensures i in items && TypeKey(i) in TypeOrder ==> multiset(ByTypeSpec(items)[TypeKey(i)])[i] == multiset(items)[i]
    ensures t in TypeOrder && t != TypeKey(i) ==> i !in ByTypeSpec(items)[t]
    ensures TypeKey(i) !in TypeOrder && t in TypeOrder ==> i !in ByTypeSpec(items)[t]
  {
    MapOverAt(TypeOrder, Group(items), t);
    MapOverAt(TypeOrder, Group(items), TypeKey(i));
    FilterCount(items, OfType(TypeKey(i)), i);
  }

  /** Each group keeps the items' relative order: grouping distributes over concatenation. */
  lemma ByTypeKeepsOrder(a: seq<PackingItem>, b: seq<PackingItem>, t: string)
    requires t in TypeOrder
    ensures ByTypeSpec(a + b)[t] == ByTypeSpec(a)[t] + ByTypeSpec(b)[t]
  {
    MapOverAt(TypeOrder, Group(a + b), t);
    MapOverAt(TypeOrder, Group(a), t);
    MapOverAt(TypeOrder, Group(b), t);
    FilterAppend(a, b, OfType(t));
  }

  /** The fields every "add item" form sends: the label, the type and the shelter's occupants. */
  datatype NewItem = NewItem(labelText: string, itemType: Option<string>, occupants: Option<int>)

  /**
   * The common rules of the add forms: a blank label sends nothing; the label goes trimmed;
   * `item_type` only when one is picked; `occupants` only for a shelter whose input
   * `parseInt`s to a positive number.
   */
  function NewItemFields(labelInput: string, itemType: string, occupants: string): (r: Option<NewItem>)
    ensures r.None? <==> IsBlank(labelInput)
    ensures r.Some? ==> r.value.labelText == Trim(labelInput) && r.value.labelText != ""
    ensures r.Some? ==> (r.value.itemType.Some? <==> itemType != "") && r.value.itemType.GetOr("") == itemType
    ensures r.Some? && r.value.occupants.Some? ==>
      itemType == "shelter" && r.value.occupants.value > 0 && ParseInt(occupants) == r.value.occupants
    ensures r.Some? && itemType == "shelter" && ParseInt(occupants).Some? && ParseInt(occupants).value > 0 ==>
      r.value.occupants == ParseInt(occupants)
  {
    if IsBlank(labelInput) then None
    else
      var n := ParseInt(occupants);
      Some(NewItem(
        Trim(labelInput),
        if itemType != "" then Some(itemType) else None,
        if itemType == "shelter" && occupants != "" && n.Some? && n.value > 0 then n else None))
  }

  /** What the occupants input shows is what the form sends, for any positive count. */
  lemma NewItemOccupantsRoundTrip(labelInput: string, n: int)
    requires !IsBlank(labelInput) && n > 0
    ensures NewItemFields(labelInput, "shelter", IntToString(n)) == Some(NewItem(Trim(labelInput), Some("shelter"), Some(n)))
  {
    ParseIntOfIntToString(n);
  }

  /** The tab's list picker: the general list, a numbered custom list, or another option value. */
  datatype ListSelection = General | ListNumber(id: int) | ListKey(key: string)

  /** The POST body of `addItem`: the common fields and the selected list. */
  datatype ItemBody = ItemBody(fields: NewItem, list: ListSelection)

  /** `addItem`: the common fields, sent to the list the picker shows. */
  function AddItemBody(labelInput: string, itemType: string, occupants: string, selected: ListSelection): (r: Option<ItemBody>)
    ensures r.None? <==> IsBlank(labelInput)
    ensures r.Some? ==> Some(r.value.fields) == NewItemFields(labelInput, itemType, occupants) && r.value.list == selected
  {
    match NewItemFields(labelInput, itemType, occupants)
    case None => None
    case Some(fields) => Some(ItemBody(fields, selected))
  }

  /** The occupants edit: the empty input and a non-number clear the count; otherwise `parseInt`. */
  function OccupantsValue(value: string): (r: Option<int>)
    ensures value == "" ==> r.None?
    ensures r.Some? ==> ParseInt(value) == r
    ensures value != "" && ParseInt(value).Some? ==> r == ParseInt(value)
  {
    if value == "" then None else ParseInt(value)
  }

  /** A count written out in decimal is sent back as that count. */
  lemma OccupantsValueRoundTrip(n: int)
    ensures OccupantsValue(IntToString(n)) == Some(n)
  {
    ParseIntOfIntToString(n);
  }

  function ItemId(i: PackingItem): int {
    i.id
  }

  function HasId(id: int): PackingItem -> bool {
    (i: PackingItem) => i.id == id
  }

  /**
   * `updateOccupants(id, value)`: no request (`None`) unless the first item with that id is
   * a shelter; otherwise the PATCH carries `OccupantsValue(value)`.
   */
  function UpdateOccupants(items: seq<PackingItem>, id: int, value: string): (r: Option<Option<int>>)
    ensures r.Some? ==> r.value == OccupantsValue(value)
    ensures r.Some? ==> exists k :: 0 <= k < |items| && items[k].id == id && TypeKey(items[k]) == "shelter"
    ensures (forall k :: 0 <= k < |items| && items[k].id == id ==> TypeKey(items[k]) != "shelter") ==> r.None?
    ensures (exists k :: 0 <= k < |items| && items[k].id == id) &&
            (forall k :: 0 <= k < |items| && items[k].id == id ==> TypeKey(items[k]) == "shelter") ==>
            r == Some(OccupantsValue(value))
  {
    match FindFirst(items, HasId(id))
    case None => None
    case Some(item) => if TypeKey(item) != "shelter" then None else Some(OccupantsValue(value))
  }

  /**
   * `deleteCustomList(id)`: nothing happens (`None`) for a non-numeric id or a declined
   * confirmation; after the DELETE the selection falls back to the general list exactly
   * when the deleted list was the selected one.
   */
  function DeleteCustomList(selected: ListSelection, id: ListSelection, confirmed: bool): (r: Option<ListSelection>)
    ensures r.Some? <==> id.ListNumber? && confirmed
    ensures r.Some? ==> r.value != id
    ensures r.Some? && selected != id ==> r.value == selected
    ensures r.Some? && selected == id ==> r.value == General
  {
    if !id.ListNumber? then None
    else if !confirmed then None
    else if selected == id then Some(General)
    else Some(selected)
  }

  /** `toggle(id, done)`: the PATCH asks for the opposite of the shown state. */
  function ToggleRequest(done: bool): (r: bool)
    ensures r != done
  {
    !done
  }

  /** Toggling twice asks for the original state. */
  lemma ToggleTwice(done: bool)
    ensures ToggleRequest(ToggleRequest(done)) == done
  {
  }

  /** The local copy after a PATCH: the returned row replaces the items with its id. */
  function ApplyUpdated(items: seq<PackingItem>, id: int, updated: PackingItem): (r: seq<PackingItem>)
    ensures |r| == |items|
    ensures forall k :: 0 <= k < |items| && items[k].id != id ==> r[k] == items[k]
    ensures forall k :: 0 <= k < |items| && items[k].id == id ==> r[k] == updated
  {
    ReplaceWhere(items, ItemId, id, updated)
  }

  /** The local copy after a DELETE: the items with that id are gone, the others stay. */
  function RemoveItem(items: seq<PackingItem>, id: int): (r: seq<PackingItem>)
    ensures forall k :: 0 <= k < |r| ==> r[k].id != id && r[k] in items
    ensures forall k :: 0 <= k < |items| && items[k].id != id ==> multiset(r)[items[k]] == multiset(items)[items[k]]
  {
    RemoveWhereKeeps(items, ItemId, id);
    RemoveWhere(items, ItemId, id)
  }

  /** Applying the same PATCH response twice changes nothing more; removing after it removes it. */
  lemma UpdateIdempotent(items: seq<PackingItem>, id: int, updated: PackingItem)
    requires updated.id == id
    ensures ApplyUpdated(ApplyUpdated(items, id, updated), id, updated) == ApplyUpdated(items, id, updated)
    ensures RemoveItem(ApplyUpdated(items, id, updated), id) == RemoveItem(items, id)
  {
    ReplaceWhereIdempotent(items, ItemId, id, updated);
    RemoveAfterReplace(items, ItemId, id, updated);
  }
}
