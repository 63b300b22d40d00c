/**
 * The campsites card: the going members bucketed by campsite, the sections it renders
 * (the unassigned one and one per campsite), each section's capacity header and slot
 * count, the set of collapsed sections, and the label of a packing item in the pickers.
 */
module Campsites {
  import opened Wrappers
  import opened JsText
  import opened Lists
  import opened Records

  /** `CAMPSITE_CAPACITY`. */
  const CampsiteCapacity: nat := 6

  /** A key of the `collapsed` set: the string `'unassigned'` or a campsite id. */
  datatype SectionKey = Unassigned | Camp(id: int)

  /** The reference for `toggleSection`: the key's membership flips. */
  function Toggled(prev: set<SectionKey>, key: SectionKey): (r: set<SectionKey>)
    ensures key in r <==> key !in prev
    ensures forall k :: k != key ==> (k in r <==> k in prev)
  {
    if key in prev then prev - {key} else prev + {key}
  }

  /** `toggleSection(key)`: copy the set, then delete the key if present, else add it. */
  method ToggleSection(prev: set<SectionKey>, key: SectionKey) returns (next: set<SectionKey>)
    ensures next == Toggled(prev, key)
  {
    next := prev;
    if key in next {
      next := next - {key};
    } else {
      next := next + {key};
    }
  }

  /** Toggling a section twice restores the collapsed set. */
  lemma ToggleTwice(prev: set<SectionKey>, key: SectionKey)
    ensures Toggled(Toggled(prev, key), key) == prev
  {
  }

  /** The bucket key of a member: `m.campsite_id ?? null`. */
  function BucketKey(m: Member): Option<int> {
    m.campsiteId
  }

  /** The keys set before the members are pushed: `null` and every campsite id. */
  function CampKeys(campsites: seq<Campsite>): set<Option<int>> {
    {None} + set c | c in campsites :: Some(c.id)
  }

  /** The buckets after pushing the members of `going` in order. */
  function Filled(campsites: seq<Campsite>, going: seq<Member>): map<Option<int>, seq<Member>> {
    Grouped(CampKeys(campsites), going, BucketKey)
  }

  /** The reference for `byCampsite`: the going members, bucketed by campsite. */
  function ByCampsiteSpec(members: seq<Member>, campsites: seq<Campsite>): map<Option<int>, seq<Member>> {
    Filled(campsites, Going(members))
  }

  /** The buckets before any member is pushed. */
  function EmptyBuckets(campsites: seq<Campsite>): map<Option<int>, seq<Member>> {
    map key | key in CampKeys(campsites) :: []
  }

  /** Creating the next campsite's bucket. */
  lemma EmptyBucketsSnoc(campsites: seq<Campsite>, k: nat)
    requires k < |campsites|
    ensures EmptyBuckets(campsites[..k + 1]) == EmptyBuckets(campsites[..k])[Some(campsites[k].id) := []]
  {
    assert campsites[..k + 1] == campsites[..k] + [campsites[k]];
    assert CampKeys(campsites[..k + 1]) == CampKeys(campsites[..k]) + {Some(campsites[k].id)};
  }

  /** With all campsites created, the buckets are those of `Filled` before any member. */
  lemma EmptyBucketsFilled(campsites: seq<Campsite>)
    ensures EmptyBuckets(campsites[..|campsites|]) == Filled(campsites, [])
  {
    assert campsites[..|campsites|] == campsites;
    GroupedEmpty(CampKeys(campsites), BucketKey);
  }

  /** `byCampsite`: a bucket for `null` and every campsite, then each going member pushed. */
  method ByCampsite(members: seq<Member>, campsites: seq<Campsite>) returns (byCampsite: map<Option<int>, seq<Member>>)
    ensures byCampsite == ByCampsiteSpec(members, campsites)
  {
    var going := Going(members);
    byCampsite := map[None := []];
    assert byCampsite == EmptyBuckets(campsites[..0]);
    for k := 0 to |campsites|
      invariant byCampsite == EmptyBuckets(campsites[..k])
    {
      EmptyBucketsSnoc(campsites, k);
      byCampsite := byCampsite[Some(campsites[k].id) := []];
    }
    EmptyBucketsFilled(campsites);
    assert going[..0] == [];
    for i := 0 to |going|
      invariant byCampsite == Filled(campsites, going[..i])
    {
      var m := going[i];
      var key := m.campsiteId;
      GroupedPrefix(CampKeys(campsites), going, i, BucketKey);
      if key !in byCampsite {
        byCampsite := byCampsite[key := []];
      }
      byCampsite := byCampsite[key := byCampsite[key] + [m]];
    }
    assert going[..|going|] == going;
  }

  /**
   * `null` and every campsite have a bucket; a going member sits in the bucket of its key,
   * as often as it is listed, and in no other; a member who is not going sits in none.
   */
  lemma ByCampsitePartition(members: seq<Member>, campsites: seq<Campsite>, m: Member, key: Option<int>)
    ensures None in ByCampsiteSpec(members, campsites)
    ensures forall c :: c in campsites ==> Some(c.id) in ByCampsiteSpec(members, campsites)
    ensures m in members && IsGoing(m) ==>
      BucketKey(m) in ByCampsiteSpec(members, campsites) &&
      multiset(ByCampsiteSpec(members, campsites)[BucketKey(m)])[m] == multiset(members)[m]
    ensures key in ByCampsiteSpec(members, campsites) && key != BucketKey(m) ==> m !in ByCampsiteSpec(members, campsites)[key]
    ensures !IsGoing(m) && key in ByCampsiteSpec(members, campsites) ==> m !in ByCampsiteSpec(members, campsites)[key]
  {
    ByCampsiteKeys(members, campsites);
    if m in members && IsGoing(m) {
      ByCampsiteOwnBucket(members, campsites, m);
    }
    if key in ByCampsiteSpec(members, campsites) {
      ByCampsiteAt(members, campsites, key);
    }
  }

  lemma ByCampsiteKeys(members: seq<Member>, campsites: seq<Campsite>)
    ensures None in ByCampsiteSpec(members, campsites)
    ensures forall c :: c in campsites ==> Some(c.id) in ByCampsiteSpec(members, campsites)
  {
  }

  lemma ByCampsiteAt(members: seq<Member>, campsites: seq<Campsite>, key: Option<int>)
    requires key in ByCampsiteSpec(members, campsites)
    ensures ByCampsiteSpec(members, campsites)[key] == Filter(Going(members), HasKey(BucketKey, key))
  {
  }

  lemma ByCampsiteOwnBucket(members: seq<Member>, campsites: seq<Campsite>, m: Member)
    requires m in members && IsGoing(m)
    ensures BucketKey(m) in ByCampsiteSpec(members, campsites)
    ensures multiset(ByCampsiteSpec(members, campsites)[BucketKey(m)])[m] == multiset(members)[m]
  {
    var going := Going(members);
    GoingCount(members, m);
    assert m in going;
    assert BucketKey(m) in (set x | x in going :: BucketKey(x));
    ByCampsiteAt(members, campsites, BucketKey(m));
    FilterCount(going, HasKey(BucketKey, BucketKey(m)), m);
  }

  /** A bucket key that is neither `null` nor a campsite id comes from a going member. */
  lemma ExtraBucket(members: seq<Member>, campsites: seq<Campsite>, key: Option<int>)
    requires key in ByCampsiteSpec(members, campsites) && key !in CampKeys(campsites)
    ensures exists k :: 0 <= k < |members| && IsGoing(members[k]) && BucketKey(members[k]) == key
  {
    var m :| m in Going(members) && BucketKey(m) == key;
    var k :| 0 <= k < |members| && members[k] == m;
  }

  /** A rendered section: its key and the members it lists. */
  datatype Section = Section(key: SectionKey, members: seq<Member>)

  /** `byCampsite.get(key) || []`. */
  function BucketOr(buckets: map<Option<int>, seq<Member>>, key: Option<int>): seq<Member> {
    if key in buckets then buckets[key] else []
  }

  /** The sections the card renders: "Without campsite", then one per campsite, in list order. */
  function Sections(buckets: map<Option<int>, seq<Member>>, campsites: seq<Campsite>): (r: seq<Section>)
    ensures |r| == |campsites| + 1
    ensures r[0] == Section(Unassigned, BucketOr(buckets, None))
    ensures forall k :: 0 <= k < |campsites| ==> r[k + 1] == Section(Camp(campsites[k].id), BucketOr(buckets, Some(campsites[k].id)))
  {
    [Section(Unassigned, BucketOr(buckets, None))] +
      MapSeq((c: Campsite) => Section(Camp(c.id), BucketOr(buckets, Some(c.id))), campsites)
  }

  /**
   * A going member is rendered exactly when it has no campsite or its campsite exists: the
   * bucket of an unknown campsite id is built but never shown.
   */
  lemma RenderedIff(members: seq<Member>, campsites: seq<Campsite>, m: Member)
    requires m in members && IsGoing(m)
    ensures (exists k :: 0 <= k < |Sections(ByCampsiteSpec(members, campsites), campsites)| &&
              m in Sections(ByCampsiteSpec(members, campsites), campsites)[k].members)
        <==> BucketKey(m) in CampKeys(campsites)
  {
    var r := Sections(ByCampsiteSpec(members, campsites), campsites);
    if BucketKey(m) in CampKeys(campsites) {
      var k := RenderedAt(members, campsites, m);
    } else {
      NotRendered(members, campsites, m);
    }
  }

  /** A going member with a known key is listed in the section of that key. */
  lemma RenderedAt(members: seq<Member>, campsites: seq<Campsite>, m: Member) returns (k: nat)
    requires m in members && IsGoing(m) && BucketKey(m) in CampKeys(campsites)
    ensures k < |Sections(ByCampsiteSpec(members, campsites), campsites)|
    ensures m in Sections(ByCampsiteSpec(members, campsites), campsites)[k].members
  {
    var buckets := ByCampsiteSpec(members, campsites);
    var r := Sections(buckets, campsites);
    ByCampsiteOwnBucket(members, campsites, m);
    assert multiset(buckets[BucketKey(m)])[m] > 0;
    assert m in buckets[BucketKey(m)];
    if BucketKey(m) == None {
      k := 0;
    } else {
      var c :| c in campsites && Some(c.id) == BucketKey(m);
      var j :| 0 <= j < |campsites| && campsites[j] == c;
      k := j + 1;
    }
  }

  /** A going member whose campsite is unknown is listed in no section. */
  lemma NotRendered(members: seq<Member>, campsites: seq<Campsite>, m: Member)
    requires BucketKey(m) !in CampKeys(campsites)
    ensures forall k :: 0 <= k < |Sections(ByCampsiteSpec(members, campsites), campsites)| ==>
      m !in Sections(ByCampsiteSpec(members, campsites), campsites)[k].members
  {
    var buckets := ByCampsiteSpec(members, campsites);
    var r := Sections(buckets, campsites);
    ByCampsiteKeys(members, campsites);
    forall k | 0 <= k < |r| ensures m !in r[k].members {
      var key := if k == 0 then None else Some(campsites[k - 1].id);
      assert key != BucketKey(m) by {
        if k > 0 {
          assert campsites[k - 1] in campsites;
        }
      }
      assert key in buckets by {
        if k > 0 {
          assert campsites[k - 1] in campsites;
        }
      }
      ByCampsiteAt(members, campsites, key);
      assert r[k].members == buckets[key];
    }
  }

  /** `emptySlots`: the free slots drawn under a section; none without a capacity. */
  function EmptySlots(capacity: Option<int>, count: nat): (r: nat)
    ensures capacity.None? ==> r == 0
    ensures capacity.Some? ==> count + r >= capacity.value
    ensures capacity.Some? && count <= capacity.value ==> count + r == capacity.value
    ensures capacity.Some? && count >= capacity.value ==> r == 0
  {
    match capacity
    case None => 0
    case Some(c) => if c - count > 0 then c - count else 0
  }

  /** `spotsLeft`: the capacity less the members, negative when over capacity. */
  function SpotsLeft(capacity: Option<int>, count: nat): (r: Option<int>)
    ensures r.Some? <==> capacity.Some?
    ensures r.Some? ==> r.value + count == capacity.value
  {
    match capacity
    case None => None
    case Some(c) => Some(c - count)
  }

  /** A campsite section draws one slot per member and pads to the capacity of 6. */
  lemma CampsiteSlots(count: nat)
    ensures count + EmptySlots(Some(CampsiteCapacity), count) == if count <= 6 then 6 else count
    ensures EmptySlots(None, count) == 0
  {
  }

  /** The badge after `count/capacity`: a number of spots left, "Full", or nothing. */
  function SpotsBadge(spotsLeft: Option<int>): (r: Option<string>)
    ensures r.Some? <==> spotsLeft.Some? && spotsLeft.value >= 0
    ensures spotsLeft == Some(0) ==> r == Some(" · Full")
  {
    match spotsLeft
    case Some(n) =>
      if n > 0 then Some(" · " + DecimalString(n) + SpotsWord(n))
      else if n == 0 then Some(" · Full")
      else None
    case None => None
  }

  /** `` spot${spotsLeft !== 1 ? 's' : ''} left``. */
  function SpotsWord(n: int): string {
    " spot" + (if n != 1 then "s" else "") + " left"
  }

  lemma ThreeParts(a: string, b: string, c: string)
    ensures (a + b + c)[..|a|] == a && (a + b + c)[|a|..|a| + |b|] == b && (a + b + c)[|a| + |b|..] == c
  {
  }

  /** A positive count of spots reads back from its badge, singular exactly for one spot. */
  lemma SpotsBadgeShape(n: nat)
    requires n > 0
    ensures var b := SpotsBadge(Some(n)).value; var d := DecimalString(n);
      b[..3] == " · " && DigitsValue(b[3..3 + |d|]) == n &&
      b[3 + |d|..] == (if n == 1 then " spot left" else " spots left")
  {
    ThreeParts(" · ", DecimalString(n), SpotsWord(n));
  }

  /** The sections with a capacity: 6 members read "Full", 5 read "1 spot left", 7 show no badge. */
  lemma SpotsBadgeExamples()
    ensures SpotsBadge(SpotsLeft(Some(CampsiteCapacity), 6)) == Some(" · Full")
    ensures SpotsBadge(SpotsLeft(Some(CampsiteCapacity), 5)) == Some(" · 1 spot left")
    ensures SpotsBadge(SpotsLeft(Some(CampsiteCapacity), 7)) == None
    ensures SpotsBadge(SpotsLeft(None, 3)) == None
  {
    assert DecimalString(1) == "1";
    assert SpotsWord(1) == " spot left";
    assert SpotsBadge(Some(1)) == Some(" · " + "1" + " spot left");
    assert " · " + "1" + " spot left" == " · 1 spot left";
    assert SpotsLeft(Some(CampsiteCapacity), 5) == Some(1);
  }

  /** `itemLabel(i)`: the item's label, then ` (list_name)` when the list name is truthy. */
  function ItemLabel(i: PackingItem): (r: string)
    ensures i.labelText <= r
    ensures r == i.labelText <==> i.listName.None? || i.listName.value == ""
  {
    if i.listName.Some? && i.listName.value != "" then i.labelText + " (" + i.listName.value + ")" else i.labelText
  }

  /** The label is a prefix, extended exactly when the list name is truthy, and the list name reads back. */
  lemma ItemLabelShape(i: PackingItem)
    ensures i.labelText <= ItemLabel(i)
    ensures |ItemLabel(i)| > |i.labelText| <==> i.listName.Some? && i.listName.value != ""
    ensures |ItemLabel(i)| > |i.labelText| ==>
      var r := ItemLabel(i); var n := |i.labelText|;
      |r| == n + |i.listName.value| + 3 && r[n..n + 2] == " (" && r[n + 2..|r| - 1] == i.listName.value && r[|r| - 1] == ')'
  {
  }

  function HasVehicleId(id: Option<int>): Vehicle -> bool {
    (v: Vehicle) => Some(v.id) == id
  }

  /**
   * The vehicle shown beside a campsite's title: the name of the first vehicle whose id is
   * the campsite's pass vehicle; nothing for the unassigned section, an unknown campsite or
   * a campsite without a pass vehicle.
   */
  function SectionVehicleName(campsiteId: Option<int>, campsites: seq<Campsite>, vehicles: seq<Vehicle>): (r: Option<string>)
    ensures campsiteId.None? ==> r.None?
    ensures r.Some? ==> exists c, v :: (c in campsites && Some(c.id) == campsiteId && v in vehicles &&
      c.vehicleId == Some(v.id) && v.name == r.value)
    ensures forall k, j :: ((campsiteId.Some? && 0 <= k < |campsites| && campsites[k].id == campsiteId.value
      && (forall i :: 0 <= i < k ==> campsites[i].id != campsiteId.value)
      && 0 <= j < |vehicles| && campsites[k].vehicleId == Some(vehicles[j].id)
      && (forall i :: 0 <= i < j ==> campsites[k].vehicleId != Some(vehicles[i].id)))
      ==> r == Some(vehicles[j].name))
  {
    match campsiteId
    case None => None
    case Some(id) =>
      match FindFirst(campsites, (c: Campsite) => c.id == id)
      case None => None
      case Some(camp) =>
        match FindFirst(vehicles, HasVehicleId(camp.vehicleId))
        case None => None
        case Some(v) => Some(v.name)
  }
}
