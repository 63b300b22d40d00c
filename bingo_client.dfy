/**
 * The bingo component's win detection: the set of tiles lying on a fully checked line,
 * which highlights the winning tiles and decides whether the component reports a
 * completion to the server.
 */
module BingoClient {
  import opened Wrappers
  import opened Records
  import BingoServer

  /** The component's own copy of `BINGO_LINES`. */
  const ClientLines: seq<seq<nat>> := [
    [0, 1, 2, 3, 4], [5, 6, 7, 8, 9], [10, 11, 12, 13, 14], [15, 16, 17, 18, 19], [20, 21, 22, 23, 24],
    [0, 5, 10, 15, 20], [1, 6, 11, 16, 21], [2, 7, 12, 17, 22], [3, 8, 13, 18, 23], [4, 9, 14, 19, 24],
    [0, 6, 12, 18, 24], [4, 8, 12, 16, 20]
  ]

  /** The client's table is the server's table, entry for entry. */
  lemma SameTableAsServer()
    ensures ClientLines == BingoServer.Lines
  {
  }

  /** `line.every((i) => !!checked[String(i)])`. */
  predicate Won(checked: CheckedMap, line: seq<nat>) {
    forall k :: 0 <= k < |line| ==> IsChecked(checked, line[k])
  }

  function Elements(line: seq<nat>): set<nat> {
    set x | x in line
  }

  /** The union of the won lines among the first `n` lines of the table. */
  function WinningUpTo(checked: CheckedMap, n: nat): set<nat>
    requires n <= |ClientLines|
  {
    if n == 0 then {}
    else WinningUpTo(checked, n - 1) + (if Won(checked, ClientLines[n - 1]) then Elements(ClientLines[n - 1]) else {})
  }

  /** What `getWinningLineIndices(checked)` returns. */
  function WinningCells(checked: CheckedMap): set<nat> {
    WinningUpTo(checked, |ClientLines|)
  }

  /**
   * `getWinningLineIndices`: for each line of the table, if every tile on it is checked,
   * every tile of the line is added to the set.
   */
  method WinningLineIndices(checked: CheckedMap) returns (cells: set<nat>)
    ensures cells == WinningCells(checked)
  {
    cells := {};
    for l := 0 to |ClientLines|
      invariant cells == WinningUpTo(checked, l)
    {
      var line := ClientLines[l];
      var every := Every(checked, line);
      if every {
        cells := AddAll(cells, line);
      }
    }
  }

  /** `line.every((i) => !!checked[String(i)])`, tile by tile. */
  method Every(checked: CheckedMap, line: seq<nat>) returns (every: bool)
    ensures every == Won(checked, line)
  {
    every := true;
    for k := 0 to |line|
      invariant every <==> forall j :: 0 <= j < k ==> IsChecked(checked, line[j])
    {
      if !IsChecked(checked, line[k]) {
        every := false;
      }
    }
  }

  /** `line.forEach((i) => set.add(i))`. */
  method AddAll(cells: set<nat>, line: seq<nat>) returns (added: set<nat>)
    ensures added == cells + Elements(line)
  {
    added := cells;
    for k := 0 to |line|
      invariant added == cells + set j | 0 <= j < k :: line[j]
    {
      added := added + {line[k]};
    }
    assert (set j | 0 <= j < |line| :: line[j]) == Elements(line) by {
      forall x | x in line ensures x in set j | 0 <= j < |line| :: line[j] {
        var j :| 0 <= j < |line| && line[j] == x;
      }
    }
  }

  lemma {:induction false} WinningUpToIff(checked: CheckedMap, n: nat, x: nat)
    requires n <= |ClientLines|
    ensures x in WinningUpTo(checked, n) <==> exists l :: 0 <= l < n && Won(checked, ClientLines[l]) && x in ClientLines[l]
  {
    if n > 0 {
      WinningUpToIff(checked, n - 1, x);
    }
  }

  /** The result is exactly the union of the fully checked lines. */
  lemma WinningCellsIff(checked: CheckedMap, x: nat)
    ensures x in WinningCells(checked) <==>
      exists l :: 0 <= l < |ClientLines| && Won(checked, ClientLines[l]) && x in ClientLines[l]
  {
    WinningUpToIff(checked, |ClientLines|, x);
  }

  /** Every winning cell is a cell of the grid. */
  lemma WinningCellsOnGrid(checked: CheckedMap)
    ensures forall x :: x in WinningCells(checked) ==> x < 25
  {
    forall x | x in WinningCells(checked) ensures x < 25 {
      WinningCellsIff(checked, x);
      var l :| 0 <= l < |ClientLines| && Won(checked, ClientLines[l]) && x in ClientLines[l];
      BingoServer.LinesWellFormed();
    }
  }

  /** A won line of the client is a done line of the server, and conversely. */
  lemma WonIsLineDone(checked: CheckedMap, l: nat)
    requires l < |ClientLines|
    ensures Won(checked, ClientLines[l]) <==> BingoServer.LineDone(checked, l)
  {
    SameTableAsServer();
  }

  /**
   * The set is empty exactly when no line is complete, that is, exactly when the server's
   * `hasBingo` is false for the same map; the two sides agree on every board.
   */
  lemma WinningEmptyIffNoBingo(checked: CheckedMap)
    ensures WinningCells(checked) == {} <==> !BingoServer.HasBingo(checked)
  {
    BingoServer.HasBingoIff(checked);
    if BingoServer.HasBingo(checked) {
      var l :| 0 <= l < |BingoServer.Lines| && BingoServer.LineDone(checked, l);
      WonIsLineDone(checked, l);
      SameTableAsServer();
      var x := ClientLines[l][0];
      WinningCellsIff(checked, x);
      assert x in WinningCells(checked);
    }
    if WinningCells(checked) != {} {
      var x :| x in WinningCells(checked);
      WinningCellsIff(checked, x);
      var l :| 0 <= l < |ClientLines| && Won(checked, ClientLines[l]) && x in ClientLines[l];
      WonIsLineDone(checked, l);
    }
  }

  /** Checking more tiles never shrinks the winning set. */
  lemma WinningMonotone(checked: CheckedMap, more: CheckedMap)
    requires forall i :: IsChecked(checked, i) ==> IsChecked(more, i)
    ensures WinningCells(checked) <= WinningCells(more)
  {
    forall x | x in WinningCells(checked) ensures x in WinningCells(more) {
      WinningCellsIff(checked, x);
      WinningCellsIff(more, x);
      var l :| 0 <= l < |ClientLines| && Won(checked, ClientLines[l]) && x in ClientLines[l];
      assert Won(more, ClientLines[l]);
    }
  }

  /**
   * The completion effect: with a loaded board and a selected member whose winning set is
   * not empty, the component POSTs `{ memberId }` to `/complete`; otherwise it sends nothing.
   */
  function CompletionRequest(board: Option<CheckedMap>, selected: Option<int>): (r: Option<int>)
    ensures r.Some? <==> board.Some? && selected.Some? && BingoServer.HasBingo(board.value)
    ensures r.Some? ==> r == selected
  {
    if board.None? || selected.None? then None
    else
      WinningEmptyIffNoBingo(board.value);
      if WinningCells(board.value) == {} then None else selected
  }
}
