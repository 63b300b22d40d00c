/**
 * The weather widget's reading of a WMO weather interpretation code (WMO code table 4677,
 * as the Open-Meteo forecast reports it) as a short label.
 */
module WeatherWidget {
  import opened Wrappers

  /** `weatherCodeToLabel(code)`: the if-chain over code ranges; a missing code reads `—`. */
  function WeatherCodeToLabel(code: Option<int>): (r: string)
    ensures r == "—" <==> code.None?
    ensures code.Some? && (code.value < 0 || code.value > 99) ==> r == "Cloudy"
  {
    match code
    case None => "—"
    case Some(c) =>
      if c == 0 then "Clear"
      else if 1 <= c <= 3 then "Partly cloudy"
      else if c == 45 || c == 48 then "Foggy"
      else if 51 <= c <= 67 then "Rain"
      else if 71 <= c <= 77 then "Snow"
      else if 80 <= c <= 82 then "Showers"
      else if 85 <= c <= 86 then "Snow showers"
      else if 95 <= c <= 99 then "Thunderstorms"
      else "Cloudy"
  }

  /** A range of codes `lo..hi` and the label the widget gives it. */
  datatype CodeRange = CodeRange(lo: int, hi: int, text: string)

  /** The reference table of labelled ranges, in increasing order of code. */
  const CodeTable: seq<CodeRange> := [
    CodeRange(0, 0, "Clear"),
    CodeRange(1, 3, "Partly cloudy"),
    CodeRange(45, 45, "Foggy"),
    CodeRange(48, 48, "Foggy"),
    CodeRange(51, 67, "Rain"),
    CodeRange(71, 77, "Snow"),
    CodeRange(80, 82, "Showers"),
    CodeRange(85, 86, "Snow showers"),
    CodeRange(95, 99, "Thunderstorms")
  ]

  /** The label of the range of `table` holding `c`, or "Cloudy" when none does. */
  function TableLabel(table: seq<CodeRange>, c: int): (r: string)
    ensures (forall k :: 0 <= k < |table| ==> !(table[k].lo <= c <= table[k].hi)) ==> r == "Cloudy"
    ensures r != "Cloudy" ==> exists k :: 0 <= k < |table| && table[k].lo <= c <= table[k].hi && table[k].text == r
  {
    if table == [] then "Cloudy"
    else if table[0].lo <= c <= table[0].hi then table[0].text
    else
      var r := TableLabel(table[1..], c);
      assert forall k :: 1 <= k < |table| ==> table[k] == table[1..][k - 1];
      r
  }

  /** The ranges are non-empty, increasing and pairwise disjoint, so each code is in at most one. */
  lemma CodeTableDisjoint()
    ensures forall k :: 0 <= k < |CodeTable| ==> CodeTable[k].lo <= CodeTable[k].hi
    ensures forall j, k :: 0 <= j < k < |CodeTable| ==> CodeTable[j].hi < CodeTable[k].lo
  {
    forall j, k | 0 <= j < k < |CodeTable| ensures CodeTable[j].hi < CodeTable[k].lo {
      assert CodeTable[j].hi < CodeTable[j + 1].lo;
      if j + 1 < k {
        assert CodeTable[j + 1].hi < CodeTable[k].lo by {
          StepUp(j + 1, k);
        }
      }
    }
  }

  /** Increasing ranges: a later range starts above the end of an earlier one. */
  lemma StepUp(j: nat, k: nat)
    requires j <= k < |CodeTable|
    ensures CodeTable[j].lo <= CodeTable[k].lo && CodeTable[j].hi <= CodeTable[k].hi
    decreases k - j
  {
    if j < k {
      StepUp(j + 1, k);
    }
  }

  /** A code inside range `k` of the table is labelled by that range. */
  lemma TableLabelAt(table: seq<CodeRange>, k: nat, c: int)
    requires k < |table| && table[k].lo <= c <= table[k].hi
    requires forall j :: 0 <= j < k ==> !(table[j].lo <= c <= table[j].hi)
    ensures TableLabel(table, c) == table[k].text
  {
    if k > 0 {
      TableLabelAt(table[1..], k - 1, c);
    }
  }

  /** The widget's if-chain agrees with the reference table on every integer code. */
  lemma LabelMatchesTable(c: int)
    ensures WeatherCodeToLabel(Some(c)) == TableLabel(CodeTable, c)
  {
    CodeTableDisjoint();
    var k := RangeOf(c);
    if 0 <= k {
      TableLabelAt(CodeTable, k, c);
      InsideRange(c, k);
    } else {
      OutsideTable(c);
    }
  }

  /** The index of the range holding `c`, or -1 when none holds it. */
  lemma RangeOf(c: int) returns (k: int)
    ensures -1 <= k < |CodeTable|
    ensures k == -1 <==> forall j :: 0 <= j < |CodeTable| ==> !(CodeTable[j].lo <= c <= CodeTable[j].hi)
    ensures k >= 0 ==> CodeTable[k].lo <= c <= CodeTable[k].hi
  {
    k := -1;
    for j := 0 to |CodeTable|
      invariant -1 <= k < j
      invariant k == -1 <==> forall i :: 0 <= i < j ==> !(CodeTable[i].lo <= c <= CodeTable[i].hi)
      invariant k >= 0 ==> CodeTable[k].lo <= c <= CodeTable[k].hi
    {
      if k == -1 && CodeTable[j].lo <= c <= CodeTable[j].hi {
        k := j;
      }
    }
  }

  /** A code in no range of the table reads "Cloudy". */
  lemma OutsideTable(c: int)
    requires forall j :: 0 <= j < |CodeTable| ==> !(CodeTable[j].lo <= c <= CodeTable[j].hi)
    ensures WeatherCodeToLabel(Some(c)) == "Cloudy"
  {
    assert !(CodeTable[0].lo <= c <= CodeTable[0].hi) && !(CodeTable[1].lo <= c <= CodeTable[1].hi);
    assert !(CodeTable[2].lo <= c <= CodeTable[2].hi) && !(CodeTable[3].lo <= c <= CodeTable[3].hi);
    assert !(CodeTable[4].lo <= c <= CodeTable[4].hi) && !(CodeTable[5].lo <= c <= CodeTable[5].hi);
    assert !(CodeTable[6].lo <= c <= CodeTable[6].hi) && !(CodeTable[7].lo <= c <= CodeTable[7].hi);
    assert !(CodeTable[8].lo <= c <= CodeTable[8].hi);
  }

  /** A code in range `k` reads that range's label. */
  lemma InsideRange(c: int, k: nat)
    requires k < |CodeTable| && CodeTable[k].lo <= c <= CodeTable[k].hi
    ensures WeatherCodeToLabel(Some(c)) == CodeTable[k].text
  {
  }

  /** The groups of codes the widget distinguishes, with the codes in between reading "Cloudy". */
  lemma LabelExamples()
    ensures WeatherCodeToLabel(None) == "—"
    ensures WeatherCodeToLabel(Some(0)) == "Clear"
    ensures WeatherCodeToLabel(Some(2)) == "Partly cloudy"
    ensures WeatherCodeToLabel(Some(48)) == "Foggy"
    ensures WeatherCodeToLabel(Some(61)) == "Rain"
    ensures WeatherCodeToLabel(Some(95)) == "Thunderstorms"
    ensures WeatherCodeToLabel(Some(4)) == "Cloudy"
    ensures WeatherCodeToLabel(Some(46)) == "Cloudy"
    ensures WeatherCodeToLabel(Some(50)) == "Cloudy"
    ensures WeatherCodeToLabel(Some(100)) == "Cloudy"
    ensures WeatherCodeToLabel(Some(-1)) == "Cloudy"
  {
  }
}
