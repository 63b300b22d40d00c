/**
 * The server's bingo engine: board assembly per member, line detection over the checked
 * map, the toggle and completion routes over the members table, the leaderboard, and the
 * label edit of the item pool. Tables are sequences of rows in query order; SQL's
 * `datetime('now')` is the `now` parameter, in seconds.
 */
module BingoServer {
  import opened Wrappers
  import opened Records
  import opened BingoShuffle
  import JsText
  import Lists

  // ---------------------------------------------------------------------------------------
  // Lines and bingo detection
  // ---------------------------------------------------------------------------------------

  /** `BINGO_LINES`: five rows, five columns and the two diagonals of the 5x5 grid. */
  const Lines: seq<seq<nat>> := [
    [0, 1, 2, 3, 4], [5, 6, 7, 8, 9], [10, 11, 12, 13, 14], [15, 16, 17, 18, 19], [20, 21, 22, 23, 24],
    [0, 5, 10, 15, 20], [1, 6, 11, 16, 21], [2, 7, 12, 17, 22], [3, 8, 13, 18, 23], [4, 9, 14, 19, 24],
    [0, 6, 12, 18, 24], [4, 8, 12, 16, 20]
  ]

  /** `line.every((i) => !!checked[String(i)])`. */
  predicate LineComplete(checked: CheckedMap, line: seq<nat>)
  {
    if line == [] then true else IsChecked(checked, line[0]) && LineComplete(checked, line[1..])
  }

  /** `lines.some(line => line.every(...))`. */
  predicate AnyLineComplete(checked: CheckedMap, lines: seq<seq<nat>>)
  {
    if lines == [] then false else LineComplete(checked, lines[0]) || AnyLineComplete(checked, lines[1..])
  }

  /** `hasBingo(checked)`: a full board is a bingo, and a bingo has a checked tile. */
  predicate HasBingo(checked: CheckedMap)
    ensures (forall k :: 0 <= k < 25 ==> IsChecked(checked, k)) ==> HasBingo(checked)
    ensures HasBingo(checked) ==> exists k :: 0 <= k < 25 && IsChecked(checked, k)
  {
    FullBoardCompletesLine(checked);
    CompleteLineHasTile(checked);
    AnyLineComplete(checked, Lines)
  }

  lemma FullBoardCompletesLine(checked: CheckedMap)
    ensures (forall k :: 0 <= k < 25 ==> IsChecked(checked, k)) ==> AnyLineComplete(checked, Lines)
  {
    if forall k :: 0 <= k < 25 ==> IsChecked(checked, k) {
      LineCompleteIff(checked, Lines[0]);
    }
  }

  lemma CompleteLineHasTile(checked: CheckedMap)
    ensures AnyLineComplete(checked, Lines) ==> exists k :: 0 <= k < 25 && IsChecked(checked, k)
  {
    if AnyLineComplete(checked, Lines) {
      AnyLineCompleteIff(checked, Lines);
      var l :| 0 <= l < |Lines| && LineComplete(checked, Lines[l]);
      LineCompleteIff(checked, Lines[l]);
      assert IsChecked(checked, Lines[l][0]);
      assert Lines[l][0] < 25;
    }
  }

  lemma {:induction false} LineCompleteIff(checked: CheckedMap, line: seq<nat>)
    ensures LineComplete(checked, line) <==> forall k :: 0 <= k < |line| ==> IsChecked(checked, line[k])
  {
    if line != [] {
      LineCompleteIff(checked, line[1..]);
      assert forall k :: 0 < k < |line| ==> line[1..][k - 1] == line[k];
    }
  }

  lemma {:induction false} AnyLineCompleteIff(checked: CheckedMap, lines: seq<seq<nat>>)
    ensures AnyLineComplete(checked, lines) <==> exists l :: 0 <= l < |lines| && LineComplete(checked, lines[l])
  {
    if lines != [] {
      AnyLineCompleteIff(checked, lines[1..]);
      if AnyLineComplete(checked, lines[1..]) {
        var l :| 0 <= l < |lines[1..]| && LineComplete(checked, lines[1..][l]);
        assert lines[1..][l] == lines[l + 1];
      }
      if exists l :: 0 <= l < |lines| && LineComplete(checked, lines[l]) {
        var l :| 0 <= l < |lines| && LineComplete(checked, lines[l]);
        if l > 0 {
          assert lines[1..][l - 1] == lines[l];
        }
      }
    }
  }

  /** Line `l` of the table has all five of its tiles checked. */
  predicate LineDone(checked: CheckedMap, l: nat)
    requires l < |Lines|
  {
    forall k :: 0 <= k < |Lines[l]| ==> IsChecked(checked, Lines[l][k])
  }

  /** `hasBingo` holds exactly when one of the twelve lines has all five tiles checked. */
  lemma HasBingoIff(checked: CheckedMap)
    ensures HasBingo(checked) <==> exists l :: 0 <= l < |Lines| && LineDone(checked, l)
  {
    AnyLineCompleteIff(checked, Lines);
    forall l | 0 <= l < |Lines|
      ensures LineComplete(checked, Lines[l]) <==> LineDone(checked, l)
    {
      LineCompleteIff(checked, Lines[l]);
    }
  }

  /** The table has 12 lines, each of five distinct cells of the grid. */
  lemma LinesWellFormed()
    ensures |Lines| == 12
    ensures forall l :: 0 <= l < |Lines| ==> |Lines[l]| == 5
    ensures forall l, k :: 0 <= l < |Lines| && 0 <= k < |Lines[l]| ==> Lines[l][k] < 25
    ensures forall l, a, b :: 0 <= l < |Lines| && 0 <= a < b < |Lines[l]| ==> Lines[l][a] != Lines[l][b]
  {
  }

  /** The cell on row `row` and column `col` is checked; cells are numbered row by row. */
  predicate Cell(checked: CheckedMap, row: nat, col: nat) {
    IsChecked(checked, 5 * row + col)
  }

  predicate RowDone(checked: CheckedMap, r: nat) {
    forall c :: 0 <= c < 5 ==> Cell(checked, r, c)
  }

  predicate ColumnDone(checked: CheckedMap, c: nat) {
    forall r :: 0 <= r < 5 ==> Cell(checked, r, c)
  }

  predicate DiagonalDone(checked: CheckedMap) {
    forall k :: 0 <= k < 5 ==> Cell(checked, k, k)
  }

  /** The cell on row `k` of the anti diagonal. */
  predicate AntiCell(checked: CheckedMap, k: nat)
    requires k < 5
  {
    Cell(checked, k, 4 - k)
  }

  predicate AntiDiagonalDone(checked: CheckedMap) {
    forall k :: 0 <= k < 5 ==> AntiCell(checked, k)
  }

  /** The geometric statement of a bingo: a full row, a full column or a full diagonal. */
  predicate GridBingo(checked: CheckedMap) {
    || (exists r :: 0 <= r < 5 && RowDone(checked, r))
    || (exists c :: 0 <= c < 5 && ColumnDone(checked, c))
    || DiagonalDone(checked)
    || AntiDiagonalDone(checked)
  }

  /** The cell the `k`-th entry of line `l` names, by the shape of the line. */
  function LineCell(l: nat, k: nat): nat {
    if l < 5 then 5 * l + k
    else if l < 10 then 5 * k + (l - 5)
    else if l == 10 then 5 * k + k
    else 5 * k + (4 - k)
  }

  /** Lines 0-4 are the rows, 5-9 the columns, 10 the main and 11 the anti diagonal. */
  lemma LineCells(l: nat, k: nat)
    requires l < 12 && k < 5
    ensures |Lines[l]| == 5 && Lines[l][k] == LineCell(l, k)
  {
    assert l == 0 || l == 1 || l == 2 || l == 3 || l == 4 || l == 5 || l == 6 || l == 7 || l == 8 || l == 9 || l == 10 || l == 11;
    assert k == 0 || k == 1 || k == 2 || k == 3 || k == 4;
  }

  lemma LineShapes(checked: CheckedMap)
    ensures forall r :: 0 <= r < 5 ==> (LineDone(checked, r) <==> RowDone(checked, r))
    ensures forall c :: 0 <= c < 5 ==> (LineDone(checked, 5 + c) <==> ColumnDone(checked, c))
    ensures LineDone(checked, 10) <==> DiagonalDone(checked)
    ensures LineDone(checked, 11) <==> AntiDiagonalDone(checked)
  {
    forall r | 0 <= r < 5 ensures LineDone(checked, r) <==> RowDone(checked, r) {
      LineCells(r, 0);
      forall k | 0 <= k < 5 ensures IsChecked(checked, Lines[r][k]) <==> Cell(checked, r, k) {
        LineCells(r, k);
      }
    }
    forall c | 0 <= c < 5 ensures LineDone(checked, 5 + c) <==> ColumnDone(checked, c) {
      var l := 5 + c;
      LineCells(l, 0);
      forall k | 0 <= k < 5 ensures IsChecked(checked, Lines[l][k]) <==> Cell(checked, k, c) {
        LineCells(l, k);
      }
      assert LineDone(checked, l) <==> forall k :: 0 <= k < 5 ==> IsChecked(checked, Lines[l][k]);
    }
    assert |Lines[10]| == 5 && |Lines[11]| == 5;
    forall k | 0 <= k < 5
      ensures (IsChecked(checked, Lines[10][k]) <==> Cell(checked, k, k))
      ensures (IsChecked(checked, Lines[11][k]) <==> AntiCell(checked, k))
    {
      LineCells(10, k);
      LineCells(11, k);
    }
  }

  /** `BINGO_LINES` is exactly the rows, columns and diagonals: `hasBingo` is a grid bingo. */
  lemma HasBingoIsGridBingo(checked: CheckedMap)
    ensures HasBingo(checked) <==> GridBingo(checked)
  {
    HasBingoIff(checked);
    LineShapes(checked);
    if HasBingo(checked) {
      var l :| 0 <= l < |Lines| && LineDone(checked, l);
      if l < 5 {
        assert RowDone(checked, l);
      } else if l < 10 {
        assert ColumnDone(checked, l - 5);
      }
    }
    if GridBingo(checked) {
      if exists r :: 0 <= r < 5 && RowDone(checked, r) {
        var r :| 0 <= r < 5 && RowDone(checked, r);
        assert LineDone(checked, r);
      } else if exists c :: 0 <= c < 5 && ColumnDone(checked, c) {
        var c :| 0 <= c < 5 && ColumnDone(checked, c);
        assert LineDone(checked, 5 + c);
      } else if DiagonalDone(checked) {
        assert LineDone(checked, 10);
      } else {
        assert LineDone(checked, 11);
      }
    }
  }

  /** A key stored as `false` counts as unchecked: it is the same as a missing key. */
  lemma StoredFalseIsUnchecked(checked: CheckedMap, i: nat)
    ensures HasBingo(checked[i := false]) <==> HasBingo(checked - {i})
  {
    HasBingoIff(checked[i := false]);
    HasBingoIff(checked - {i});
    forall j ensures IsChecked(checked[i := false], j) <==> IsChecked(checked - {i}, j) {
    }
    forall l | 0 <= l < |Lines| ensures LineDone(checked[i := false], l) <==> LineDone(checked - {i}, l) {
    }
    if HasBingo(checked[i := false]) {
      var l :| 0 <= l < |Lines| && LineDone(checked[i := false], l);
      assert LineDone(checked - {i}, l);
    }
    if HasBingo(checked - {i}) {
      var l :| 0 <= l < |Lines| && LineDone(checked - {i}, l);
      assert LineDone(checked[i := false], l);
    }
  }

  /** Checking more tiles never takes a bingo away. */
  lemma HasBingoMonotone(checked: CheckedMap, more: CheckedMap)
    requires forall i :: IsChecked(checked, i) ==> IsChecked(more, i)
    requires HasBingo(checked)
    ensures HasBingo(more)
  {
    HasBingoIff(checked);
    HasBingoIff(more);
    var l :| 0 <= l < |Lines| && LineDone(checked, l);
    assert LineDone(more, l);
  }

  // ---------------------------------------------------------------------------------------
  // Board assembly
  // ---------------------------------------------------------------------------------------

  /** A row of `bingo_items`, in `ORDER BY sort_order, id` order when it comes from the pool. */
  datatype Item = Item(id: int, labelText: string, sortOrder: int)

  /** One cell of a member's board. */
  datatype Tile = Tile(index: nat, labelText: string)

  datatype BingoError =
    | InvalidMemberId          // 400 'Invalid member id'
    | InvalidId                // 400 'Invalid id'
    | LabelMustBeString        // 400 'Label must be a string'
    | NoFieldsToUpdate         // 400 'No fields to update'
    | InvalidTileIndex         // 400 'Invalid tile index'
    | MemberNotFound           // 404 'Member not found'
    | NeedAtLeast25Items       // 500 'Need at least 25 bingo items'
    | NeedExactly25Entries     // 500 'Bingo items must have exactly 25 entries'

  const CenterIndex: nat := 12
  const CenterItemIndex: nat := 20

  /** `items.filter((_, i) => i !== CENTER_ITEM_INDEX)` for a pool of 25. */
  function Others(labels: seq<string>): (r: seq<string>)
    requires |labels| == 25
    ensures |r| == 24
    ensures forall i :: 0 <= i < 24 ==> r[i] == labels[if i < CenterItemIndex then i else i + 1]
  {
    labels[..CenterItemIndex] + labels[CenterItemIndex + 1..]
  }

  /** `positionsExceptCenter[i]`: the i-th cell other than the centre. */
  function PositionOf(i: nat): (p: nat)
    requires i < 24
    ensures p < 25 && p != CenterIndex
  {
    if i < CenterIndex then i else i + 1
  }

  /** The inverse of `PositionOf`: which shuffled slot fills cell `k`. */
  function SlotOf(k: nat): (i: nat)
    requires k < 25 && k != CenterIndex
    ensures i < 24 && PositionOf(i) == k
  {
    if k < CenterIndex then k else k - 1
  }

  /** The board the loops of GET `/board/:memberId` produce for a pool and a slot order. */
  function Board(labels: seq<string>, order: seq<nat>): (b: seq<Tile>)
    requires |labels| == 25 && IsPermutation(order, 24)
    ensures |b| == 25
  {
    seq(25, k requires 0 <= k < 25 =>
      Tile(k, if k == CenterIndex then labels[CenterItemIndex] else Others(labels)[order[SlotOf(k)]]))
  }

  function TileLabel(t: Tile): string { t.labelText }

  function TileLabels(b: seq<Tile>): seq<string> {
    Lists.MapSeq(TileLabel, b)
  }

  /** The board without its centre cell, in cell order. */
  function OffCenter(b: seq<Tile>): seq<Tile>
    requires |b| == 25
  {
    b[..CenterIndex] + b[CenterIndex + 1..]
  }

  /** `others[x]` as a total map from slot values to labels. */
  function Pick(o: seq<string>): nat -> string {
    (x: nat) => if x < |o| then o[x] else ""
  }

  lemma OffCenterIsPicked(labels: seq<string>, order: seq<nat>)
    requires |labels| == 25 && IsPermutation(order, 24)
    ensures TileLabels(OffCenter(Board(labels, order))) == Lists.MapSeq(Pick(Others(labels)), order)
  {
    var b := Board(labels, order);
    var rest := OffCenter(b);
    forall i | 0 <= i < 24 ensures TileLabels(rest)[i] == Lists.MapSeq(Pick(Others(labels)), order)[i] {
      assert rest[i] == b[PositionOf(i)];
    }
  }

  lemma PickIdentity(o: seq<string>)
    ensures Lists.MapSeq(Pick(o), Identity(|o|)) == o
  {
    var m := Lists.MapSeq(Pick(o), Identity(|o|));
    forall i | 0 <= i < |o| ensures m[i] == o[i] {
      assert Identity(|o|)[i] == i;
    }
  }

  lemma OffCenterLabels(labels: seq<string>, order: seq<nat>)
    requires |labels| == 25 && IsPermutation(order, 24)
    ensures multiset(TileLabels(OffCenter(Board(labels, order)))) == multiset(Others(labels))
  {
    var o := Others(labels);
    OffCenterIsPicked(labels, order);
    assert multiset(order) == multiset(Identity(24));
    Lists.MapSeqPermutation(Pick(o), order, Identity(24));
    PickIdentity(o);
  }

  /** A board lists each cell once, puts the centre item on cell 12 and every label on one cell. */
  lemma BoardLayout(labels: seq<string>, order: seq<nat>)
    requires |labels| == 25 && IsPermutation(order, 24)
    ensures var b := Board(labels, order);
      && (forall k :: 0 <= k < 25 ==> b[k].index == k)
      && b[CenterIndex].labelText == labels[CenterItemIndex]
      && multiset(TileLabels(OffCenter(b))) == multiset(Others(labels))
      && multiset(TileLabels(b)) == multiset(labels)
  {
    var b := Board(labels, order);
    OffCenterLabels(labels, order);
    Lists.MapSeqRemove(TileLabel, b, CenterIndex);
    assert labels == labels[..CenterItemIndex] + [labels[CenterItemIndex]] + labels[CenterItemIndex + 1..];
    assert multiset(labels) == multiset(Others(labels)) + multiset{labels[CenterItemIndex]};
  }

  /**
   * The tile loops of GET `/board/:memberId`: 25 blank tiles, the free space on cell 12,
   * then `tiles[positionsExceptCenter[i]].label = others[itemOrder[i]].label`.
   */
  method BuildTiles(labels: seq<string>, order: seq<nat>) returns (tiles: seq<Tile>)
    requires |labels| == 25 && IsPermutation(order, 24)
    ensures tiles == Board(labels, order)
  {
    var others := Others(labels);
    var a := new Tile[25](k => Tile(k, ""));
    a[CenterIndex] := Tile(CenterIndex, labels[CenterItemIndex]);
    for i := 0 to 24
      invariant forall k :: 0 <= k < 25 && k != CenterIndex && SlotOf(k) < i ==> a[k] == Board(labels, order)[k]
      invariant forall k :: 0 <= k < 25 && k != CenterIndex && SlotOf(k) >= i ==> a[k] == Tile(k, "")
      invariant a[CenterIndex] == Board(labels, order)[CenterIndex]
    {
      var p := PositionOf(i);
      a[p] := a[p].(labelText := others[order[i]]);
    }
    tiles := a[..];
  }

  /** The label list of the pool, in pool order. */
  function ItemLabels(items: seq<Item>): (r: seq<string>)
    ensures |r| == |items| && forall k :: 0 <= k < |items| ==> r[k] == items[k].labelText
  {
    seq(|items|, k requires 0 <= k < |items| => items[k].labelText)
  }

  /** The tiles GET `/board/:memberId` answers for a numeric member id. */
  function BoardFor(items: seq<Item>, memberId: int): (r: Result<seq<Tile>, BingoError>)
    ensures r.Ok? <==> |items| == 25
    ensures r.Ok? ==> |r.value| == 25 && r.value[CenterIndex].labelText == items[CenterItemIndex].labelText
  {
    if |items| < 25 then Err(NeedAtLeast25Items)
    else if |items| - 1 != 24 then Err(NeedExactly25Entries)
    else
      ShuffleIsPermutation(24, memberId);
      Ok(Board(ItemLabels(items), Shuffle(24, memberId)))
  }

  /**
   * Only a pool of exactly 25 builds a board: fewer fails with "Need at least 25 bingo
   * items", more with "Bingo items must have exactly 25 entries".
   */
  lemma BoardNeedsExactly25(items: seq<Item>, memberId: int)
    ensures BoardFor(items, memberId).Err? <==> |items| != 25
    ensures |items| < 25 ==> BoardFor(items, memberId) == Err(NeedAtLeast25Items)
    ensures |items| > 25 ==> BoardFor(items, memberId) == Err(NeedExactly25Entries)
  {
  }

  /**
   * Every member's board has 25 tiles with `tiles[k].index == k`, the pool's item 20 on
   * cell 12, and the other 24 labels each on exactly one of the other cells.
   */
  lemma BoardForEveryMember(items: seq<Item>, memberId: int)
    requires |items| == 25
    ensures BoardFor(items, memberId).Ok?
    ensures var b := BoardFor(items, memberId).value;
      && |b| == 25
      && (forall k :: 0 <= k < 25 ==> b[k].index == k)
      && b[CenterIndex].labelText == items[CenterItemIndex].labelText
      && multiset(TileLabels(OffCenter(b))) == multiset(Others(ItemLabels(items)))
      && multiset(TileLabels(b)) == multiset(ItemLabels(items))
  {
    ShuffleIsPermutation(24, memberId);
    BoardLayout(ItemLabels(items), Shuffle(24, memberId));
  }

  /** The centre tile is the same for every member. */
  lemma CenterIsShared(items: seq<Item>, id1: int, id2: int)
    requires |items| == 25
    ensures BoardFor(items, id1).Ok? && BoardFor(items, id2).Ok?
    ensures BoardFor(items, id1).value[CenterIndex] == BoardFor(items, id2).value[CenterIndex]
  {
    BoardForEveryMember(items, id1);
    BoardForEveryMember(items, id2);
  }

  /** What GET `/board/:memberId` answers: the tiles and the member's checked map. */
  datatype BoardView = BoardView(tiles: seq<Tile>, checked: CheckedMap)

  // ---------------------------------------------------------------------------------------
  // Toggle and completion
  // ---------------------------------------------------------------------------------------

  /** `checked[key] = !checked[key]`. */
  function Flip(checked: CheckedMap, idx: nat): (r: CheckedMap)
    ensures IsChecked(r, idx) <==> !IsChecked(checked, idx)
    ensures r.Keys == checked.Keys + {idx}
    ensures forall k :: k in checked && k != idx ==> r[k] == checked[k]
  {
    checked[idx := !IsChecked(checked, idx)]
  }

  /** The completion write after a toggle: only with a bingo, and only if none is recorded. */
  function AfterToggle(completedAt: Option<nat>, checked: CheckedMap, now: nat): (r: Option<nat>)
    ensures completedAt.Some? ==> r == completedAt
    ensures r.Some? <==> completedAt.Some? || HasBingo(checked)
    ensures r.Some? && completedAt.None? ==> r.value == now
  {
    if HasBingo(checked) && completedAt.None? then Some(now) else completedAt
  }

  /** A member row after PATCH `/board/:memberId` with tile `idx` at time `now`. */
  function ToggleMember(m: Member, idx: nat, now: nat): (r: Member)
    ensures IsChecked(r.bingoChecked, idx) <==> !IsChecked(m.bingoChecked, idx)
    ensures r.bingoChecked.Keys == m.bingoChecked.Keys + {idx}
    ensures r.(bingoChecked := m.bingoChecked, bingoCompletedAt := m.bingoCompletedAt) == m
    ensures m.bingoCompletedAt.Some? ==> r.bingoCompletedAt == m.bingoCompletedAt
  {
    var checked := Flip(m.bingoChecked, idx);
    m.(bingoChecked := checked, bingoCompletedAt := AfterToggle(m.bingoCompletedAt, checked, now))
  }

  /** The toggle flips exactly the one key and leaves every other key as it was. */
  lemma ToggleFlipsOnlyThatTile(m: Member, idx: nat, now: nat)
    ensures IsChecked(ToggleMember(m, idx, now).bingoChecked, idx) <==> !IsChecked(m.bingoChecked, idx)
    ensures forall k :: k != idx ==>
      (k in ToggleMember(m, idx, now).bingoChecked <==> k in m.bingoChecked)
      && (k in m.bingoChecked ==> ToggleMember(m, idx, now).bingoChecked[k] == m.bingoChecked[k])
    ensures ToggleMember(m, idx, now).(bingoChecked := m.bingoChecked, bingoCompletedAt := m.bingoCompletedAt) == m
  {
  }

  /**
   * A toggle writes the completion time only when the new map has a bingo and no time is
   * recorded yet; a recorded time is never cleared or overwritten, unchecking included.
   */
  lemma ToggleCompletion(m: Member, idx: nat, now: nat)
    ensures var m' := ToggleMember(m, idx, now);
      && (m.bingoCompletedAt.Some? ==> m'.bingoCompletedAt == m.bingoCompletedAt)
      && (m.bingoCompletedAt.None? ==>
            (m'.bingoCompletedAt == Some(now) <==> HasBingo(m'.bingoChecked))
            && (m'.bingoCompletedAt.None? <==> !HasBingo(m'.bingoChecked)))
  {
  }

  /** What POST `/complete` answers for an existing member. */
  datatype CompleteReply = AlreadyCompleted(completedAt: nat) | Completed(completedAt: nat)

  /** POST `/complete` on a member row: a recorded time is reported and kept, else `now` is written. */
  function CompleteMember(m: Member, now: nat): (r: (Member, CompleteReply))
    ensures r.0.bingoCompletedAt == Some(r.1.completedAt)
    ensures r.1.AlreadyCompleted? <==> m.bingoCompletedAt.Some?
    ensures r.0.(bingoCompletedAt := m.bingoCompletedAt) == m
  {
    match m.bingoCompletedAt
    case Some(t) => (m, AlreadyCompleted(t))
    case None => (m.(bingoCompletedAt := Some(now)), Completed(now))
  }

  /**
   * POST `/complete` never overwrites a time; it returns `already_completed` without writing.
   * It does not look at the checked map: the server trusts the client's bingo.
   */
  lemma CompleteWritesAtMostOnce(m: Member, now: nat)
    ensures m.bingoCompletedAt.Some? ==>
      CompleteMember(m, now) == (m, AlreadyCompleted(m.bingoCompletedAt.value))
    ensures m.bingoCompletedAt.None? ==>
      CompleteMember(m, now).0 == m.(bingoCompletedAt := Some(now))
      && CompleteMember(m, now).1 == Completed(now)
  {
  }

  /** A completion POST on a member with no checked tile still records a time. */
  lemma CompleteIgnoresBoard(m: Member, now: nat)
    requires m.bingoChecked == map[] && m.bingoCompletedAt.None?
    ensures !HasBingo(m.bingoChecked)
    ensures CompleteMember(m, now).0.bingoCompletedAt == Some(now)
  {
    HasBingoIff(m.bingoChecked);
    forall l | 0 <= l < |Lines| ensures !LineDone(m.bingoChecked, l) {
      assert !IsChecked(m.bingoChecked, Lines[l][0]);
    }
  }

  /** One request against a member's bingo state, with the time SQL would stamp it with. */
  datatype Action = ToggleTile(tile: nat, at: nat) | PostComplete(at: nat)

  function Step(m: Member, a: Action): Member {
    match a
    case ToggleTile(tile, at) => ToggleMember(m, tile, at)
    case PostComplete(at) => CompleteMember(m, at).0
  }

  /** A member's row after a sequence of requests, handled one at a time. */
  function Run(m: Member, actions: seq<Action>): Member
    decreases |actions|
  {
    if actions == [] then m else Run(Step(m, actions[0]), actions[1..])
  }

  /** Once recorded, the completion time survives any later sequence of toggles and POSTs. */
  lemma {:induction false} CompletionIsPermanent(m: Member, actions: seq<Action>)
    requires m.bingoCompletedAt.Some?
    ensures Run(m, actions).bingoCompletedAt == m.bingoCompletedAt
    decreases |actions|
  {
    if actions != [] {
      var m' := Step(m, actions[0]);
      assert m'.bingoCompletedAt == m.bingoCompletedAt;
      CompletionIsPermanent(m', actions[1..]);
    }
  }

  /**
   * The recorded time is the time of the first request that recorded one: a toggle that
   * produced a bingo, or a POST, with no earlier request recording anything.
   */
  lemma {:induction false} CompletionIsFirstWin(m: Member, actions: seq<Action>)
    requires m.bingoCompletedAt.None?
    requires Run(m, actions).bingoCompletedAt.Some?
    ensures exists k :: (0 <= k < |actions|
      && Run(m, actions[..k]).bingoCompletedAt.None?
      && Run(m, actions[..k + 1]).bingoCompletedAt == Some(actions[k].at)
      && Run(m, actions).bingoCompletedAt == Some(actions[k].at)
      && (actions[k].ToggleTile? ==> HasBingo(Run(m, actions[..k + 1]).bingoChecked)))
    decreases |actions|
  {
    assert actions != [];
    var m' := Step(m, actions[0]);
    assert actions[..0] == [] && actions[..1] == [actions[0]];
    assert Run(m, actions[..1]) == m';
    if m'.bingoCompletedAt.Some? {
      CompletionIsPermanent(m', actions[1..]);
      assert m'.bingoCompletedAt == Some(actions[0].at);
    } else {
      CompletionIsFirstWin(m', actions[1..]);
      var k :| 0 <= k < |actions[1..]|
        && Run(m', actions[1..][..k]).bingoCompletedAt.None?
        && Run(m', actions[1..][..k + 1]).bingoCompletedAt == Some(actions[1..][k].at)
        && Run(m', actions[1..]).bingoCompletedAt == Some(actions[1..][k].at)
        && (actions[1..][k].ToggleTile? ==> HasBingo(Run(m', actions[1..][..k + 1]).bingoChecked));
      assert actions[..k + 1][1..] == actions[1..][..k];
      assert actions[..k + 2][1..] == actions[1..][..k + 1];
      assert Run(m, actions[..k + 1]) == Run(m', actions[1..][..k]);
      assert Run(m, actions[..k + 2]) == Run(m', actions[1..][..k + 1]);
      assert actions[1..][k] == actions[k + 1];
    }
  }

  // ---------------------------------------------------------------------------------------
  // Routes over the members table
  // ---------------------------------------------------------------------------------------

  /** No two rows share an id (the primary key). */
  ghost predicate UniqueIds(members: seq<Member>) {
    forall a, b :: 0 <= a < b < |members| ==> members[a].id != members[b].id
  }

  /** `SELECT ... FROM members WHERE id = ?`: the index of the row with that id. */
  function FindMember(members: seq<Member>, id: int): (r: Option<nat>)
    ensures r.Some? ==> r.value < |members| && members[r.value].id == id
    ensures r.None? ==> forall k :: 0 <= k < |members| ==> members[k].id != id
    ensures r.Some? ==> forall k :: 0 <= k < r.value ==> members[k].id != id
  {
    if members == [] then None
    else if members[0].id == id then Some(0)
    else match FindMember(members[1..], id)
      case None => None
      case Some(k) => Some(k + 1)
  }

  /** The checked map the board and toggle routes load: the stored one, or `{}` without a row. */
  function StoredChecked(members: seq<Member>, id: int): (r: CheckedMap)
    ensures (forall k :: 0 <= k < |members| ==> members[k].id != id) ==> r == map[]
    ensures forall k :: (0 <= k < |members| && members[k].id == id && (forall j :: 0 <= j < k ==> members[j].id != id)
      ==> r == members[k].bingoChecked)
  {
    match FindMember(members, id)
    case Some(k) => members[k].bingoChecked
    case None => map[]
  }

  /** `parseInt(tileIndex, 10)` passed the guard `Number.isNaN(idx) || idx < 0 || idx > 24`. */
  predicate ValidTileIndex(tileIndex: Option<int>) {
    tileIndex.Some? && 0 <= tileIndex.value <= 24
  }

  /** PATCH `/board/:memberId`: the new members table and the answer. */
  function ToggleRoute(members: seq<Member>, memberId: Option<int>, tileIndex: Option<int>, now: nat)
    : (r: (seq<Member>, Result<CheckedMap, BingoError>))
    ensures memberId.None? ==> r == (members, Err(InvalidMemberId))
    ensures memberId.Some? && !ValidTileIndex(tileIndex) ==> r == (members, Err(InvalidTileIndex))
    ensures r.1.Ok? <==> memberId.Some? && ValidTileIndex(tileIndex)
    ensures r.1.Ok? ==> (IsChecked(r.1.value, tileIndex.value) <==> !IsChecked(StoredChecked(members, memberId.value), tileIndex.value))
    ensures |r.0| == |members|
  {
    if memberId.None? then (members, Err(InvalidMemberId))
    else if !ValidTileIndex(tileIndex) then (members, Err(InvalidTileIndex))
    else
      var idx: nat := tileIndex.value;
      match FindMember(members, memberId.value)
      case None => (members, Ok(Flip(map[], idx)))
      case Some(k) =>
        var m := ToggleMember(members[k], idx, now);
        (members[k := m], Ok(m.bingoChecked))
  }

  /**
   * An index that is NaN, below 0 or above 24 is refused with 400 and changes nothing;
   * otherwise only the addressed member's row changes, as `ToggleMember` says.
   */
  lemma ToggleRouteEffect(members: seq<Member>, memberId: Option<int>, tileIndex: Option<int>, now: nat)
    ensures var (after, reply) := ToggleRoute(members, memberId, tileIndex, now);
      && (memberId.Some? && !ValidTileIndex(tileIndex) ==> after == members && reply == Err(InvalidTileIndex))
      && |after| == |members|
      && (forall k :: 0 <= k < |members| && (memberId.None? || members[k].id != memberId.value)
            ==> after[k] == members[k])
      && (reply.Ok? ==>
            ValidTileIndex(tileIndex)
            && reply.value == Flip(StoredChecked(members, memberId.value), tileIndex.value))
  {
  }

  /** POST `/complete`. */
  function CompleteRoute(members: seq<Member>, memberId: Option<int>, now: nat)
    : (r: (seq<Member>, Result<CompleteReply, BingoError>))
    ensures memberId.None? ==> r == (members, Err(InvalidMemberId))
    ensures r.1 == Err(MemberNotFound) <==> memberId.Some? && forall k :: 0 <= k < |members| ==> members[k].id != memberId.value
    ensures r.1.Err? ==> r.0 == members
    ensures |r.0| == |members|
    ensures r.1.Ok? ==> exists k :: (0 <= k < |members| && members[k].id == memberId.value
      && r.0 == members[k := r.0[k]] && r.0[k].bingoCompletedAt == Some(r.1.value.completedAt))
  {
    if memberId.None? then (members, Err(InvalidMemberId))
    else match FindMember(members, memberId.value)
      case None => (members, Err(MemberNotFound))
      case Some(k) =>
        var (m, reply) := CompleteMember(members[k], now);
        (members[k := m], Ok(reply))
  }

  // ---------------------------------------------------------------------------------------
  // Leaderboard
  // ---------------------------------------------------------------------------------------

  datatype Entry = Entry(memberId: int, name: string, completedAt: nat, rank: nat)

  /** `bingo_completed_at IS NOT NULL AND status = 'going'`. */
  predicate OnLeaderboard(m: Member) {
    m.bingoCompletedAt.Some? && IsGoing(m)
  }

  function Eligible(members: seq<Member>): (r: seq<Member>)
    ensures forall k :: 0 <= k < |r| ==> OnLeaderboard(r[k])
    ensures multiset(r) <= multiset(members)
    ensures forall m :: m in members && OnLeaderboard(m) ==> multiset(r)[m] == multiset(members)[m]
  {
    if members == [] then []
    else
      assert members == [members[0]] + members[1..];
      (if OnLeaderboard(members[0]) then [members[0]] else []) + Eligible(members[1..])
  }

  function CompletionKey(m: Member): seq<int> {
    [m.bingoCompletedAt.GetOr(0)]
  }

  /** `rows.map((row, i) => ({ ...row, rank: i + 1 }))`. */
  function Ranked(rows: seq<Member>): (r: seq<Entry>)
    ensures |r| == |rows|
    ensures forall i :: 0 <= i < |rows| ==> r[i].rank == i + 1 && Unranked(r[i]) == RowOf(rows[i])
  {
    seq(|rows|, i requires 0 <= i < |rows| =>
      Entry(rows[i].id, rows[i].name, rows[i].bingoCompletedAt.GetOr(0), i + 1))
  }

  /**
   * GET `/leaderboard`. SQL leaves the order of equal completion times open; the model
   * settles it by table order.
   */
  function Leaderboard(members: seq<Member>): (r: seq<Entry>)
    ensures |r| == |Eligible(members)|
    ensures forall i :: 0 <= i < |r| ==> r[i].rank == i + 1
  {
    Ranked(Lists.SortBy(Eligible(members), CompletionKey))
  }

  /** An entry without its rank. */
  function Unranked(e: Entry): (int, string, nat) {
    (e.memberId, e.name, e.completedAt)
  }

  function RowOf(m: Member): (int, string, nat) {
    (m.id, m.name, m.bingoCompletedAt.GetOr(0))
  }

  /** The ranks are the positions plus one, and the rows come in completion order. */
  lemma LeaderboardOrder(members: seq<Member>)
    ensures var lb := Leaderboard(members);
      && (forall i :: 0 <= i < |lb| ==> lb[i].rank == i + 1)
      && (forall i, j :: 0 <= i < j < |lb| ==> lb[i].completedAt <= lb[j].completedAt)
  {
    var sorted := Lists.SortBy(Eligible(members), CompletionKey);
    Lists.SortBySorted(Eligible(members), CompletionKey);
    var lb := Leaderboard(members);
    forall i, j | 0 <= i < j < |lb| ensures lb[i].completedAt <= lb[j].completedAt {
      assert Lists.LexLe(CompletionKey(sorted[i]), CompletionKey(sorted[j]));
      Lists.LexSingle(sorted[i].bingoCompletedAt.GetOr(0), sorted[j].bingoCompletedAt.GetOr(0));
    }
  }

  /** The leaderboard rows are exactly the going members with a completion time. */
  lemma LeaderboardRows(members: seq<Member>)
    ensures multiset(Lists.MapSeq(Unranked, Leaderboard(members))) == multiset(Lists.MapSeq(RowOf, Eligible(members)))
  {
    var sorted := Lists.SortBy(Eligible(members), CompletionKey);
    assert Lists.MapSeq(Unranked, Leaderboard(members)) == Lists.MapSeq(RowOf, sorted);
    Lists.MapSeqPermutation(RowOf, sorted, Eligible(members));
  }

  /** Every leaderboard row is a going member that has completed. */
  lemma LeaderboardEntriesEligible(members: seq<Member>, i: nat)
    requires i < |Leaderboard(members)|
    ensures exists m :: m in members && OnLeaderboard(m) && RowOf(m) == Unranked(Leaderboard(members)[i])
  {
    var sorted := Lists.SortBy(Eligible(members), CompletionKey);
    var m := sorted[i];
    assert m in multiset(sorted);
    assert m in multiset(Eligible(members));
    var k :| 0 <= k < |Eligible(members)| && Eligible(members)[k] == m;
    assert m in multiset(members);
    assert RowOf(m) == Unranked(Leaderboard(members)[i]);
  }

  // ---------------------------------------------------------------------------------------
  // Label edit
  // ---------------------------------------------------------------------------------------

  /** The `label` field of the PATCH body: absent, a string, or some other JSON value. */
  datatype LabelField = Absent | Text(s: string) | NotText

  /** PATCH `/items/:id`: the new pool and the answer (`row || {}` is `None`). */
  function UpdateLabelRoute(items: seq<Item>, id: Option<int>, field: LabelField)
    : (r: (seq<Item>, Result<Option<Item>, BingoError>))
    ensures r.1.Err? ==> r.0 == items
    ensures r.1.Ok? <==> id.Some? && field.Text?
    ensures |r.0| == |items|
    ensures r.1.Ok? && r.1.value.Some? ==> r.1.value.value.id == id.value && r.1.value.value.labelText == JsText.Trim(field.s)
    ensures r.1.Ok? ==> (r.1.value.None? <==> forall k :: 0 <= k < |items| ==> items[k].id != id.value)
  {
    if id.None? then (items, Err(InvalidId))
    else if field.NotText? then (items, Err(LabelMustBeString))
    else if field.Absent? then (items, Err(NoFieldsToUpdate))
    else
      var after := Relabel(items, id.value, JsText.Trim(field.s));
      (after, Ok(RowWithId(after, id.value)))
  }

  /** `UPDATE bingo_items SET label = ? WHERE id = ?`: rows with the id get the new label. */
  function Relabel(items: seq<Item>, id: int, text: string): (r: seq<Item>)
    ensures |r| == |items|
    ensures forall k :: 0 <= k < |items| ==> r[k].id == items[k].id
    ensures forall k :: 0 <= k < |items| && items[k].id == id ==> r[k].labelText == text
  {
    seq(|items|, k requires 0 <= k < |items| =>
      if items[k].id == id then items[k].(labelText := text) else items[k])
  }

  /** `SELECT ... WHERE id = ?` with `.get(id)`: the first row with the id, if there is one. */
  function RowWithId(items: seq<Item>, id: int): (r: Option<Item>)
    ensures r.None? <==> forall k :: 0 <= k < |items| ==> items[k].id != id
    ensures r.Some? ==> exists k :: 0 <= k < |items| && items[k].id == id && items[k] == r.value
  {
    if exists k :: 0 <= k < |items| && items[k].id == id then Some(items[FirstWithId(items, id)]) else None
  }

  function FirstWithId(items: seq<Item>, id: int): (k: nat)
    requires exists k :: 0 <= k < |items| && items[k].id == id
    ensures k < |items| && items[k].id == id
  {
    if items[0].id == id then 0 else 1 + FirstWithId(items[1..], id)
  }

  /**
   * A label edit trims the text and changes only the label of the rows with that id; the
   * guards answer in the source's order: id, then label type, then "no fields".
   */
  lemma UpdateLabelEffect(items: seq<Item>, id: Option<int>, field: LabelField)
    ensures var (after, reply) := UpdateLabelRoute(items, id, field);
      && (id.None? ==> reply == Err(InvalidId) && after == items)
      && (id.Some? && field.NotText? ==> reply == Err(LabelMustBeString) && after == items)
      && (id.Some? && field.Absent? ==> reply == Err(NoFieldsToUpdate) && after == items)
      && (id.Some? && field.Text? ==>
            reply.Ok?
            && |after| == |items|
            && (forall k :: 0 <= k < |items| ==>
                  after[k] == if items[k].id == id.value then items[k].(labelText := JsText.Trim(field.s)) else items[k])
            && (reply.value.Some? <==> exists k :: 0 <= k < |items| && items[k].id == id.value)
            && (reply.value.Some? ==> reply.value.value.labelText == JsText.Trim(field.s)))
  {
  }

  // ---------------------------------------------------------------------------------------
  // The stored state and the routes that change it
  // ---------------------------------------------------------------------------------------

  /** The two tables the bingo routes use. */
  class BingoStore {
    var items: seq<Item>
    var members: seq<Member>

    ghost predicate Valid()
      reads this
    {
      UniqueIds(members)
    }

    constructor (pool: seq<Item>, rows: seq<Member>)
      requires UniqueIds(rows)
      ensures Valid() && items == pool && members == rows
    {
      items := pool;
      members := rows;
    }

    /** GET `/board/:memberId`. */
    method GetBoard(memberId: Option<int>) returns (r: Result<BoardView, BingoError>)
      ensures memberId.None? ==> r == Err(InvalidMemberId)
      ensures memberId.Some? ==> match BoardFor(items, memberId.value)
        case Err(e) => r == Err(e)
        case Ok(tiles) => r == Ok(BoardView(tiles, StoredChecked(members, memberId.value)))
    {
      if memberId.None? {
        return Err(InvalidMemberId);
      }
      var id := memberId.value;
      if |items| < 25 {
        return Err(NeedAtLeast25Items);
      }
      var labels := ItemLabels(items);
      if |items| - 1 != 24 {
        return Err(NeedExactly25Entries);
      }
      var order := SeededShuffle(24, id);
      var tiles := BuildTiles(labels, order);
      r := Ok(BoardView(tiles, StoredChecked(members, id)));
    }

    /** PATCH `/board/:memberId`: flip one tile, store the map, record a first bingo. */
    method Toggle(memberId: Option<int>, tileIndex: Option<int>, now: nat) returns (r: Result<CheckedMap, BingoError>)
      requires Valid()
      modifies this
      ensures Valid() && items == old(items)
      ensures (members, r) == ToggleRoute(old(members), memberId, tileIndex, now)
    {
      if memberId.None? {
        return Err(InvalidMemberId);
      }
      if tileIndex.None? || tileIndex.value < 0 || tileIndex.value > 24 {
        return Err(InvalidTileIndex);
      }
      var idx: nat := tileIndex.value;
      var row := FindMember(members, memberId.value);
      var checked := StoredChecked(members, memberId.value);
      checked := checked[idx := !IsChecked(checked, idx)];
      if row.Some? {
        var k := row.value;
        members := members[k := members[k].(bingoChecked := checked)];
        if HasBingo(checked) && members[k].bingoCompletedAt.None? {
          members := members[k := members[k].(bingoCompletedAt := Some(now))];
        }
        assert members == old(members)[k := ToggleMember(old(members)[k], idx, now)];
      }
      r := Ok(checked);
    }

    /** POST `/complete`. */
    method Complete(memberId: Option<int>, now: nat) returns (r: Result<CompleteReply, BingoError>)
      requires Valid()
      modifies this
      ensures Valid() && items == old(items)
      ensures (members, r) == CompleteRoute(old(members), memberId, now)
    {
      if memberId.None? {
        return Err(InvalidMemberId);
      }
      var row := FindMember(members, memberId.value);
      if row.None? {
        return Err(MemberNotFound);
      }
      var k := row.value;
      if members[k].bingoCompletedAt.Some? {
        assert members[k := members[k]] == members;
        return Ok(AlreadyCompleted(members[k].bingoCompletedAt.value));
      }
      members := members[k := members[k].(bingoCompletedAt := Some(now))];
      r := Ok(Completed(now));
    }

    /** PATCH `/items/:id`. */
    method UpdateLabel(id: Option<int>, field: LabelField) returns (r: Result<Option<Item>, BingoError>)
      requires Valid()
      modifies this
      ensures Valid() && members == old(members)
      ensures (items, r) == UpdateLabelRoute(old(items), id, field)
    {
      var after;
      after, r := UpdateLabelRoute(items, id, field).0, UpdateLabelRoute(items, id, field).1;
      items := after;
    }

    /** GET `/leaderboard`. */
    method GetLeaderboard() returns (lb: seq<Entry>)
      ensures lb == Leaderboard(members)
    {
      lb := Leaderboard(members);
    }
  }
}
