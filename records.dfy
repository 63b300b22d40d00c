/**
 * The rows of the planner's tables as the server and the client exchange them.
 * Nullable columns are `Option`s; integer ids are unbounded integers.
 */
module Records {
  import opened Wrappers
  import opened Lists

  /**
   * A member's checked tiles, the parsed `bingo_checked` JSON object. The source keys it by
   * `String(i)` for a tile index `i`; since `String` is injective on 0..24, the model keys
   * it by the index itself. A missing key reads as `undefined`, which is falsy.
   */
  type CheckedMap = map<nat, bool>

  /** `!!checked[String(i)]`: the tile is present and stored as `true`. */
  predicate IsChecked(checked: CheckedMap, i: nat) {
    i in checked && checked[i]
  }

  /** A row of `members`. `bingoCompletedAt` is the completion time in seconds, or NULL. */
  datatype Member = Member(
    id: int,
    name: string,
    status: string,
    contactNumber: Option<string>,
    campsiteId: Option<int>,
    vehicleId: Option<int>,
    shelterPackingId: Option<int>,
    bedPackingId: Option<int>,
    beddingPackingId: Option<int>,
    wristband: Option<string>,
    bingoChecked: CheckedMap,
    bingoCompletedAt: Option<nat>)

  /** A row of `campsites`; `vehicleId` is the campsite's pass vehicle. */
  datatype Campsite = Campsite(id: int, name: string, vehicleId: Option<int>, area: Option<string>)

  /** A row of `vehicles`. */
  datatype Vehicle = Vehicle(id: int, name: string, capacity: int)

  /** A row of `packing_items` (`labelText` is the `label` column), with the name of the list it belongs to when the server joins it. */
  datatype PackingItem = PackingItem(
    id: int,
    labelText: string,
    itemType: Option<string>,
    done: bool,
    occupants: Option<int>,
    listName: Option<string>)

  /** A row of `schedule`: `time`, `endTime`, `title` and `description` may be NULL. */
  datatype ScheduleEvent = ScheduleEvent(
    id: int,
    day: string,
    time: Option<string>,
    endTime: Option<string>,
    title: Option<string>,
    description: Option<string>)

  predicate IsGoing(m: Member) {
    m.status == "going"
  }

  /** `members.filter((m) => m.status === 'going')`. */
  function Going(ms: seq<Member>): (r: seq<Member>)
    ensures |r| <= |ms|
    ensures forall k :: 0 <= k < |r| ==> IsGoing(r[k]) && r[k] in ms
    ensures forall k :: 0 <= k < |ms| && IsGoing(ms[k]) ==> ms[k] in r
  {
    FilterKeeps(ms, IsGoing);
    Filter(ms, IsGoing)
  }

  /** `Going` keeps every going member as often as it is listed. */
  lemma GoingCount(ms: seq<Member>, m: Member)
    requires m in ms && IsGoing(m)
    ensures multiset(Going(ms))[m] == multiset(ms)[m]
  {
    FilterCount(ms, IsGoing, m);
  }
}
