/**
 * The data logic of the stacked bar chart of camera- and police-issued fines by
 * jurisdiction (js/q4.js): the row transform and the sort by total, the jurisdiction
 * filter, the absolute and proportional (100%) stacks, the y-domain, the total labels
 * and their anchor heights, and the figures of the insight tiles.
 */
module StackedBars {
  import opened Wrappers
  import opened JsValues
  import opened Csv
  import opened StableSort
  import opened OrderedSets

  // ---------------------------------------------------------------------------
  // Rows

  /** One jurisdiction's counts after the transform. */
  datatype JurisdictionFines = JurisdictionFines(jurisdiction: Option<string>, camera: real, police: real, total: real)

  /** `+cell || 0`: a count that is not a number, empty or zero reads as 0. */
  function Count(c: Option<string>): (r: real)
    ensures Plus(c).NaN? ==> r == 0.0
    ensures Plus(c).Num? ==> r == Plus(c).v
  {
    OrZero(Plus(c))
  }

  /** The `csvData.map` of `loadData`. */
  function Transform(d: Row): (r: JurisdictionFines)
    ensures r.total == r.camera + r.police
    ensures r.jurisdiction == Cell(d, "JURISDICTION")
    ensures r.camera == Count(Cell(d, "Camera issued fines"))
    ensures r.police == Count(Cell(d, "Police issued fines"))
  {
    var camera := Count(Cell(d, "Camera issued fines"));
    var police := Count(Cell(d, "Police issued fines"));
    JurisdictionFines(Cell(d, "JURISDICTION"), camera, police, camera + police)
  }

  /** A missing column and an empty cell count as 0. */
  lemma CountDefaults()
    ensures Count(None) == 0.0
    ensures Count(Some("")) == 0.0
  {
    assert Trim("") == "";
  }

  /** Text without a single digit ("n/a", "-", "") counts as 0. */
  lemma CountOfDigitFree(t: string)
    requires forall i | 0 <= i < |t| :: !IsDigit(t[i])
    ensures Count(Some(t)) == 0.0
  {
    ToNumberOfDigitFree(t);
  }

  /** A cell holding the decimal text of a whole number is read as that number. */
  lemma CountOfText(n: int)
    ensures Count(Some(IntToString(n))) == n as real
  {
    ToNumberOfIntToString(n);
  }

  predicate Consistent(rows: seq<JurisdictionFines>) {
    forall i | 0 <= i < |rows| :: rows[i].total == rows[i].camera + rows[i].police
  }

  function TransformRows(rows: seq<Row>): (r: seq<JurisdictionFines>)
    ensures |r| == |rows| && forall i | 0 <= i < |rows| :: r[i] == Transform(rows[i])
    ensures Consistent(r)
  {
    seq(|rows|, i requires 0 <= i < |rows| => Transform(rows[i]))
  }

  function NegTotal(d: JurisdictionFines): real {
    -d.total
  }

  /** `allData` after `allData.sort((a, b) => b.total - a.total)`. */
  function SortedByTotal(rows: seq<JurisdictionFines>): seq<JurisdictionFines> {
    SortBy(rows, NegTotal)
  }

  /** The sort puts larger totals first and only rearranges the rows. */
  lemma SortedByTotalSpec(rows: seq<JurisdictionFines>)
    ensures forall i, j | 0 <= i < j < |SortedByTotal(rows)| :: SortedByTotal(rows)[i].total >= SortedByTotal(rows)[j].total
    ensures multiset(SortedByTotal(rows)) == multiset(rows)
    ensures Consistent(rows) ==> Consistent(SortedByTotal(rows))
  {
    SortByCorrect(rows, NegTotal);
    var s := SortedByTotal(rows);
    forall i | 0 <= i < |s| ensures s[i] in rows {
      assert s[i] in multiset(rows);
    }
  }

  // ---------------------------------------------------------------------------
  // The jurisdiction filter

  function KeepSelected(rows: seq<JurisdictionFines>, selected: seq<string>): (r: seq<JurisdictionFines>)
    ensures forall d :: d in r <==> d in rows && d.jurisdiction.Some? && d.jurisdiction.value in selected
    ensures |r| <= |rows|
  {
    if rows == [] then []
    else
      var d := rows[0];
      (if d.jurisdiction.Some? && d.jurisdiction.value in selected then [d] else []) + KeepSelected(rows[1..], selected)
  }

  /** `applyFilters`: nothing for an empty selection, otherwise the selected rows. */
  function Filtered(all: seq<JurisdictionFines>, selected: seq<string>): seq<JurisdictionFines> {
    if selected == [] then [] else KeepSelected(all, selected)
  }

  /** The filter keeps the order of `allData`, so the filtered rows are still sorted by
      descending total. */
  lemma {:induction false} FilterKeepsTotalOrder(all: seq<JurisdictionFines>, selected: seq<string>)
    requires forall i, j | 0 <= i < j < |all| :: all[i].total >= all[j].total
    ensures forall i, j | 0 <= i < j < |KeepSelected(all, selected)| ::
      KeepSelected(all, selected)[i].total >= KeepSelected(all, selected)[j].total
  {
    if all != [] {
      var rest := all[1..];
      assert forall i, j | 0 <= i < j < |rest| :: rest[i].total >= rest[j].total by {
        forall i, j | 0 <= i < j < |rest| ensures rest[i].total >= rest[j].total {
          assert rest[i] == all[i + 1] && rest[j] == all[j + 1];
        }
      }
      FilterKeepsTotalOrder(rest, selected);
      forall d | d in KeepSelected(rest, selected) ensures all[0].total >= d.total {
        var k :| 0 <= k < |rest| && rest[k] == d;
        assert d == all[k + 1];
      }
    }
  }

  /** The filter distributes over concatenation, so it keeps the selected rows of
      `allData` in the order they have there, rows with equal totals included. */
  lemma {:induction false} KeepSelectedAppend(a: seq<JurisdictionFines>, b: seq<JurisdictionFines>, selected: seq<string>)
    ensures KeepSelected(a + b, selected) == KeepSelected(a, selected) + KeepSelected(b, selected)
  {
    if a == [] {
      assert a + b == b;
    } else {
      var d := a[0];
      var h := if d.jurisdiction.Some? && d.jurisdiction.value in selected then [d] else [];
      assert (a + b)[0] == d && (a + b)[1..] == a[1..] + b;
      assert KeepSelected(a + b, selected) == h + KeepSelected(a[1..] + b, selected);
      assert KeepSelected(a, selected) == h + KeepSelected(a[1..], selected);
      KeepSelectedAppend(a[1..], b, selected);
      AppendRegroups(h, KeepSelected(a[1..], selected), KeepSelected(b, selected));
    }
  }

  /** What `applyFilters` produces: the empty list for an empty selection, and otherwise
      exactly the selected rows, still in descending order of total. */
  lemma ApplyFiltersSpec(all: seq<JurisdictionFines>, selected: seq<string>)
    requires forall i, j | 0 <= i < j < |all| :: all[i].total >= all[j].total
    ensures selected == [] ==> Filtered(all, selected) == []
    ensures selected != [] ==> forall d :: d in Filtered(all, selected) <==>
      d in all && d.jurisdiction.Some? && d.jurisdiction.value in selected
    ensures forall i, j | 0 <= i < j < |Filtered(all, selected)| ::
      Filtered(all, selected)[i].total >= Filtered(all, selected)[j].total
  {
    FilteredStaysSorted(all, selected);
  }

  /** The rows `applyFilters` keeps are still in descending order of total. */
  lemma FilteredStaysSorted(all: seq<JurisdictionFines>, selected: seq<string>)
    requires forall i, j | 0 <= i < j < |all| :: all[i].total >= all[j].total
    ensures forall i, j | 0 <= i < j < |Filtered(all, selected)| ::
      Filtered(all, selected)[i].total >= Filtered(all, selected)[j].total
  {
    if selected != [] {
      FilterKeepsTotalOrder(all, selected);
    }
  }

  // ---------------------------------------------------------------------------
  // The stacks

  /** A row as handed to `d3.stack()`: the two stacked values and the absolute counts. */
  datatype StackRow = StackRow(jurisdiction: Option<string>, camera: real, police: real,
                               cameraAbs: real, policeAbs: real, total: real)

  /** `d.total > 0 ? (part / d.total) * 100 : 0`. */
  function Percent(part: real, total: real): real {
    if total > 0.0 then part / total * 100.0 else 0.0
  }

  /** The `dataForStack` entry of one row. */
  function ToStackRow(d: JurisdictionFines, proportional: bool): StackRow {
    if proportional then
      StackRow(d.jurisdiction, Percent(d.camera, d.total), Percent(d.police, d.total), d.camera, d.police, d.total)
    else
      StackRow(d.jurisdiction, d.camera, d.police, d.camera, d.police, d.total)
  }

  function ToStack(rows: seq<JurisdictionFines>, proportional: bool): (r: seq<StackRow>)
    ensures |r| == |rows| && forall i | 0 <= i < |rows| :: r[i] == ToStackRow(rows[i], proportional)
  {
    seq(|rows|, i requires 0 <= i < |rows| => ToStackRow(rows[i], proportional))
  }

  /** The top of the camera segment and of the police segment stacked on it (`d[1]` of the
      two series of `d3.stack` with keys camera, police). */
  function CameraTop(r: StackRow): real {
    r.camera
  }

  function PoliceTop(r: StackRow): real {
    r.camera + r.police
  }

  /**
   * In proportional mode a jurisdiction with fines stacks to exactly 100 and one without
   * fines is two zero segments; the absolute counts ride along unchanged. In absolute mode
   * the stack's top is the jurisdiction's total.
   */
  lemma StackTops(d: JurisdictionFines, proportional: bool)
    requires d.total == d.camera + d.police
    ensures var r := ToStackRow(d, proportional);
      && r.cameraAbs == d.camera && r.policeAbs == d.police && r.total == d.total
      && (!proportional ==> PoliceTop(r) == d.total && CameraTop(r) == d.camera)
      && (proportional && d.total > 0.0 ==> PoliceTop(r) == 100.0)
      && (proportional && d.total <= 0.0 ==> r.camera == 0.0 && r.police == 0.0)
  {
    if proportional && d.total > 0.0 {
      var t := d.total;
      assert d.camera / t * 100.0 + d.police / t * 100.0 == (d.camera + d.police) / t * 100.0;
    }
  }

  function MaxTotal(rows: seq<JurisdictionFines>): (m: real)
    requires rows != []
    ensures forall i | 0 <= i < |rows| :: rows[i].total <= m
    ensures exists i | 0 <= i < |rows| :: rows[i].total == m
  {
    if |rows| == 1 then rows[0].total
    else
      var rest := MaxTotal(rows[1..]);
      assert forall i | 1 <= i < |rows| :: rows[i] == rows[1..][i - 1];
      if rows[0].total >= rest then rows[0].total
      else
        var k :| 0 <= k < |rows[1..]| && rows[1..][k].total == rest;
        assert rows[k + 1].total == rest;
        rest
  }

  /** The upper end of the y domain, `maxTotal * 1.1`. */
  function YDomainTop(rows: seq<JurisdictionFines>, proportional: bool): (top: real)
    requires rows != []
    ensures proportional ==> top == 110.0
    ensures !proportional ==> forall i | 0 <= i < |rows| :: rows[i].total * 1.1 <= top
    ensures !proportional ==> exists i | 0 <= i < |rows| :: rows[i].total * 1.1 == top
  {
    if proportional then 100.0 * 1.1 else MaxTotal(rows) * 1.1
  }

  // ---------------------------------------------------------------------------
  // Total labels

  /** What a total label shows: nothing, a percentage, or a count (formatting aside). */
  datatype LabelText = Blank | Percentage(p: real) | Amount(n: real)

  /** The text of `updateTotalLabels` for one bar, given which layers are visible. */
  function TotalLabel(r: StackRow, proportional: bool, cameraVisible: bool, policeVisible: bool): LabelText {
    if proportional then
      if cameraVisible && policeVisible then Percentage(100.0)
      else if cameraVisible then Percentage(Percent(r.cameraAbs, r.total))
      else if policeVisible then Percentage(Percent(r.policeAbs, r.total))
      else Blank
    else
      var shown := (if cameraVisible then r.camera else 0.0) + (if policeVisible then r.police else 0.0);
      if shown > 0.0 then Amount(shown) else Blank
  }

  /** The label `drawStackedBars` writes before the layers can be toggled: 100% in
      proportional mode, else the total (`d.total || (d.camera + d.police)`). */
  function InitialLabel(r: StackRow, proportional: bool): LabelText {
    if proportional then Percentage(100.0) else Amount(r.total)
  }

  /** With both layers visible the later `updateTotalLabels` keeps the first label, except
      that an absolute total of 0 loses its text. */
  lemma InitialLabelKept(d: JurisdictionFines, proportional: bool)
    requires d.total == d.camera + d.police
    ensures var r := ToStackRow(d, proportional);
      TotalLabel(r, proportional, true, true) == InitialLabel(r, proportional) <==> proportional || d.total > 0.0
  {
  }

  /** The height (in data units) the label of `updateTotalLabels` is anchored above. */
  function LabelHeight(r: StackRow, proportional: bool, cameraVisible: bool, policeVisible: bool): real {
    if proportional then
      if policeVisible then 100.0
      else if cameraVisible then Percent(r.cameraAbs, r.total)
      else 0.0
    else
      if policeVisible then r.camera + r.police
      else if cameraVisible then r.camera
      else 0.0
  }

  /**
   * The label sits on the highest visible segment: the police segment's top when police is
   * visible, else the camera segment's top, else the baseline. In proportional mode this
   * holds for every jurisdiction with fines; one with none is still anchored at 100.
   */
  lemma LabelOnTopSegment(d: JurisdictionFines, proportional: bool, cameraVisible: bool, policeVisible: bool)
    requires d.total == d.camera + d.police
    requires proportional ==> d.total > 0.0
    ensures var r := ToStackRow(d, proportional);
      LabelHeight(r, proportional, cameraVisible, policeVisible)
        == if policeVisible then PoliceTop(r) else if cameraVisible then CameraTop(r) else 0.0
  {
    StackTops(d, proportional);
  }

  /**
   * In absolute mode the label shows the sum of the visible layers (the total when both
   * are visible) and is blank exactly when that sum is not positive; in proportional mode
   * it reads 100% with both layers visible and is blank with none.
   */
  lemma LabelShowsVisibleSum(d: JurisdictionFines, proportional: bool, cameraVisible: bool, policeVisible: bool)
    requires d.total == d.camera + d.police
    ensures var r := ToStackRow(d, proportional);
      var shown := (if cameraVisible then d.camera else 0.0) + (if policeVisible then d.police else 0.0);
      && (!proportional ==> (TotalLabel(r, false, cameraVisible, policeVisible).Blank? <==> shown <= 0.0))
      && (!proportional && shown > 0.0 ==> TotalLabel(r, false, cameraVisible, policeVisible) == Amount(shown))
      && (!proportional && cameraVisible && policeVisible && d.total > 0.0 ==>
            TotalLabel(r, false, true, true) == Amount(d.total))
      && (proportional ==> (TotalLabel(r, true, cameraVisible, policeVisible).Blank? <==> !cameraVisible && !policeVisible))
      && (proportional && cameraVisible && policeVisible ==> TotalLabel(r, true, true, true) == Percentage(100.0))
  {
  }

  // ---------------------------------------------------------------------------
  // Insight tiles

  /** Sums over the rows, each adding its last element last (as the `forEach` does). */
  function SumCamera(rows: seq<JurisdictionFines>): real {
    if rows == [] then 0.0 else SumCamera(rows[..|rows| - 1]) + rows[|rows| - 1].camera
  }

  function SumPolice(rows: seq<JurisdictionFines>): real {
    if rows == [] then 0.0 else SumPolice(rows[..|rows| - 1]) + rows[|rows| - 1].police
  }

  function SumTotal(rows: seq<JurisdictionFines>): real {
    if rows == [] then 0.0 else SumTotal(rows[..|rows| - 1]) + rows[|rows| - 1].total
  }

  /** Every row's total being its two counts, the overall total is the two overall sums. */
  lemma {:induction false} SumTotalSplits(rows: seq<JurisdictionFines>)
    requires Consistent(rows)
    ensures SumTotal(rows) == SumCamera(rows) + SumPolice(rows)
  {
    if rows != [] {
      var init := rows[..|rows| - 1];
      assert Consistent(init) by {
        forall i | 0 <= i < |init| ensures init[i].total == init[i].camera + init[i].police {
          assert init[i] == rows[i];
        }
      }
      SumTotalSplits(init);
    }
  }

  /** `data.reduce((a, b) => (a.total > b.total ? a : b))` continued from `a`. */
  function TopFrom(a: JurisdictionFines, rows: seq<JurisdictionFines>): JurisdictionFines
    decreases |rows|
  {
    if rows == [] then a
    else TopFrom(if a.total > rows[0].total then a else rows[0], rows[1..])
  }

  function Top(rows: seq<JurisdictionFines>): JurisdictionFines
    requires rows != []
  {
    TopFrom(rows[0], rows[1..])
  }

  lemma {:induction false} TopFromIsLastMaximum(a: JurisdictionFines, rows: seq<JurisdictionFines>) returns (k: int)
    ensures -1 <= k < |rows|
    ensures k == -1 ==> (TopFrom(a, rows) == a && forall j | 0 <= j < |rows| :: rows[j].total < a.total)
    ensures k >= 0 ==> (TopFrom(a, rows) == rows[k] && rows[k].total >= a.total
      && (forall j | 0 <= j < |rows| :: rows[j].total <= rows[k].total)
      && (forall j | k < j < |rows| :: rows[j].total < rows[k].total))
    decreases |rows|
  {
    if rows == [] {
      k := -1;
    } else if a.total > rows[0].total {
      var k' := TopFromIsLastMaximum(a, rows[1..]);
      k := if k' == -1 then -1 else k' + 1;
    } else {
      var k' := TopFromIsLastMaximum(rows[0], rows[1..]);
      k := if k' == -1 then 0 else k' + 1;
    }
  }

  /**
   * The top jurisdiction has the greatest total, and because the comparison keeps `a` only
   * when it is strictly greater, the last row with that total wins a tie.
   */
  lemma TopIsLastMaximum(rows: seq<JurisdictionFines>) returns (k: nat)
    requires rows != []
    ensures k < |rows| && Top(rows) == rows[k]
    ensures forall j | 0 <= j < |rows| :: rows[j].total <= rows[k].total
    ensures forall j | k < j < |rows| :: rows[j].total < rows[k].total
  {
    var k' := TopFromIsLastMaximum(rows[0], rows[1..]);
    k := k' + 1;
  }

  predicate PoliceHeavy(d: JurisdictionFines) {
    d.total > 0.0 && d.police / d.total > 0.25
  }

  /** `data.filter(d => d.total > 0 && (d.police / d.total) > 0.25).length`. */
  function PoliceHeavyCount(rows: seq<JurisdictionFines>): (n: nat)
    ensures n <= |rows|
    ensures n == |rows| <==> forall i | 0 <= i < |rows| :: PoliceHeavy(rows[i])
    ensures n == 0 <==> forall i | 0 <= i < |rows| :: !PoliceHeavy(rows[i])
  {
    if rows == [] then 0
    else
      var rest := PoliceHeavyCount(rows[1..]);
      assert forall i | 1 <= i < |rows| :: rows[i] == rows[1..][i - 1];
      (if PoliceHeavy(rows[0]) then 1 else 0) + rest
  }

  const NoDataTrend := "No data selected."
  const PoliceUniformTrend := "Enforcement is broadly uniform across Australia, but dominated by police rather than automated cameras in the current selection."
  const CameraTrend := "Automated camera enforcement dominates in the current selection."
  const PoliceMostTrend := "Most jurisdictions rely on police for enforcement, with little camera presence."
  const BalancedTrend := "Enforcement is balanced between cameras and police."
  const MixedTrend := "Enforcement patterns are mixed across selected jurisdictions."

  /** The first matching branch of the trend ladder. */
  function Trend(size: nat, pctCamera: real, pctPolice: real, heavy: nat): string {
    if size == 0 then NoDataTrend
    else if pctPolice > 70.0 && heavy == size then PoliceUniformTrend
    else if pctCamera > 70.0 then CameraTrend
    else if heavy > 1 && pctPolice > 60.0 then PoliceMostTrend
    else if pctCamera > 40.0 && pctCamera < 60.0 then BalancedTrend
    else MixedTrend
  }

  /** Each summary is shown only when its condition holds and no earlier one does. */
  lemma TrendSpec(size: nat, pctCamera: real, pctPolice: real, heavy: nat)
    ensures Trend(size, pctCamera, pctPolice, heavy) == NoDataTrend <==> size == 0
    ensures Trend(size, pctCamera, pctPolice, heavy) == PoliceUniformTrend <==>
      size > 0 && pctPolice > 70.0 && heavy == size
    ensures Trend(size, pctCamera, pctPolice, heavy) == CameraTrend <==>
      size > 0 && !(pctPolice > 70.0 && heavy == size) && pctCamera > 70.0
    ensures Trend(size, pctCamera, pctPolice, heavy) == PoliceMostTrend <==>
      size > 0 && !(pctPolice > 70.0 && heavy == size) && pctCamera <= 70.0 && heavy > 1 && pctPolice > 60.0
    ensures Trend(size, pctCamera, pctPolice, heavy) == BalancedTrend <==>
      size > 0 && !(pctPolice > 70.0 && heavy == size) && pctCamera <= 70.0 && !(heavy > 1 && pctPolice > 60.0)
      && 40.0 < pctCamera < 60.0
    ensures Trend(size, pctCamera, pctPolice, heavy) == MixedTrend <==>
      size > 0 && !(pctPolice > 70.0 && heavy == size) && pctCamera <= 70.0 && !(heavy > 1 && pctPolice > 60.0)
      && !(40.0 < pctCamera < 60.0)
  {
  }

  /** The figures of the four tiles. */
  datatype Insights = Insights(top: Option<JurisdictionFines>, topTotal: real,
                               pctCamera: real, pctPolice: real, policeHeavyCount: nat, trend: string)

  /** The figures `renderInsightTiles` shows for `data`: the top jurisdiction and its total,
      the camera and police shares of all fines, the police-heavy count and the trend. */
  function InsightsOf(data: seq<JurisdictionFines>): Insights {
    var pctCamera := Percent(SumCamera(data), SumTotal(data));
    var pctPolice := Percent(SumPolice(data), SumTotal(data));
    var heavy := PoliceHeavyCount(data);
    Insights(if data == [] then None else Some(Top(data)), if data == [] then 0.0 else Top(data).total,
             pctCamera, pctPolice, heavy, Trend(|data|, pctCamera, pctPolice, heavy))
  }

  /** The top tile names a row of the selection with the largest total, the last such row
      when several tie; with nothing selected there is none. */
  lemma InsightsTop(data: seq<JurisdictionFines>)
    ensures data == [] ==> InsightsOf(data).top == None && InsightsOf(data).trend == NoDataTrend
    ensures data != [] ==> exists k | 0 <= k < |data| ::
      && InsightsOf(data).top == Some(data[k]) && InsightsOf(data).topTotal == data[k].total
      && (forall j | 0 <= j < |data| :: data[j].total <= data[k].total)
      && (forall j | k < j < |data| :: data[j].total < data[k].total)
  {
    if data != [] {
      var k := TopIsLastMaximum(data);
      assert InsightsOf(data).top == Some(data[k]);
    }
  }

  /** The data logic of `renderInsightTiles`, summing the three columns in one loop. */
  method ComputeInsights(data: seq<JurisdictionFines>) returns (r: Insights)
    ensures r == InsightsOf(data)
  {
    var topJur: Option<JurisdictionFines> := None;
    var topJurTotal := 0.0;
    if |data| > 0 {
      topJur := Some(Top(data));
      topJurTotal := topJur.value.total;
    }
    var totalCamera, totalPolice, totalAll := 0.0, 0.0, 0.0;
    var i := 0;
    while i < |data|
      invariant 0 <= i <= |data|
      invariant totalCamera == SumCamera(data[..i])
      invariant totalPolice == SumPolice(data[..i])
      invariant totalAll == SumTotal(data[..i])
    {
      assert data[..i + 1][..i] == data[..i];
      totalCamera := totalCamera + data[i].camera;
      totalPolice := totalPolice + data[i].police;
      totalAll := totalAll + data[i].total;
      i := i + 1;
    }
    assert data[..|data|] == data;
    var pctCamera := if totalAll > 0.0 then totalCamera / totalAll * 100.0 else 0.0;
    var pctPolice := if totalAll > 0.0 then totalPolice / totalAll * 100.0 else 0.0;
    var heavy := PoliceHeavyCount(data);
    r := Insights(topJur, topJurTotal, pctCamera, pctPolice, heavy, Trend(|data|, pctCamera, pctPolice, heavy));
  }

  /** Two parts of a positive whole take shares adding up to 100%. */
  lemma PercentsSumTo100(a: real, b: real)
    requires a + b > 0.0
    ensures Percent(a, a + b) + Percent(b, a + b) == 100.0
  {
    var t := a + b;
    assert a / t * 100.0 + b / t * 100.0 == (a + b) / t * 100.0;
  }

  /** The balance tile's two shares add up to 100% whenever any fines are selected. */
  lemma SharesSumTo100(data: seq<JurisdictionFines>)
    requires Consistent(data) && SumTotal(data) > 0.0
    ensures InsightsOf(data).pctCamera + InsightsOf(data).pctPolice == 100.0
  {
    SumTotalSplits(data);
    PercentsSumTo100(SumCamera(data), SumPolice(data));
  }

  // ---------------------------------------------------------------------------
  // The page state

  class StackedChart {
    var allData: seq<JurisdictionFines>
    var filteredData: seq<JurisdictionFines>
    /** `stackMode === 'proportional'`. */
    var proportional: bool
    var animationComplete: bool
    var cameraVisible: bool
    var policeVisible: bool
    /** `dataForStack` of the last draw (empty when nothing is drawn). */
    var stacked: seq<StackRow>
    var insights: Insights

    ghost predicate Valid()
      reads this`allData, this`filteredData
    {
      && Consistent(allData)
      && (forall i, j | 0 <= i < j < |allData| :: allData[i].total >= allData[j].total)
      && (forall i, j | 0 <= i < j < |filteredData| :: filteredData[i].total >= filteredData[j].total)
    }

    constructor ()
      ensures Valid() && allData == [] && filteredData == [] && stacked == []
      ensures !proportional && !animationComplete && insights == InsightsOf([])
    {
      allData := [];
      filteredData := [];
      proportional := false;
      animationComplete := false;
      cameraVisible := true;
      policeVisible := true;
      stacked := [];
      insights := Insights(None, 0.0, 0.0, 0.0, 0, NoDataTrend);
    }

    /** `createChart`: the insight tiles always; with rows, fresh visible layers whose
        entrance animation has yet to finish. */
    method CreateChart()
      modifies this`stacked, this`animationComplete, this`cameraVisible, this`policeVisible, this`insights
      ensures stacked == (if filteredData == [] then [] else ToStack(filteredData, proportional))
      ensures filteredData != [] ==> !animationComplete && cameraVisible && policeVisible
      ensures filteredData == [] ==> animationComplete == old(animationComplete)
      ensures filteredData == [] ==> cameraVisible == old(cameraVisible) && policeVisible == old(policeVisible)
      ensures insights == InsightsOf(filteredData)
    {
      if filteredData == [] {
        stacked := [];
      } else {
        stacked := ToStack(filteredData, proportional);
        animationComplete := false;
        cameraVisible := true;
        policeVisible := true;
      }
      RenderInsightTiles();
    }

    /** `renderInsightTiles(filteredData)`: the tiles show the figures of the selection. */
    method RenderInsightTiles()
      modifies this`insights
      ensures insights == InsightsOf(filteredData)
    {
      insights := ComputeInsights(filteredData);
    }

    /** What a call of `createChart` leaves behind, relative to the state before the
        handler: the stack and the tiles of the current selection and mode; with rows,
        fresh visible layers whose entrance animation has yet to finish, and with none,
        the animation and layer state as it was. */
    twostate predicate Redrawn()
      reads this
    {
      && stacked == (if filteredData == [] then [] else ToStack(filteredData, proportional))
      && insights == InsightsOf(filteredData)
      && (filteredData != [] ==> !animationComplete && cameraVisible && policeVisible)
      && (filteredData == [] ==>
            animationComplete == old(animationComplete)
            && cameraVisible == old(cameraVisible) && policeVisible == old(policeVisible))
    }

    /** The `try` of `loadData`: transform, sort by descending total, copy, draw. The
        stack mode is outside the frame, so it stays as it was. */
    method Load(rows: seq<Row>)
      modifies this`allData, this`filteredData, this`stacked, this`animationComplete, this`cameraVisible, this`policeVisible, this`insights
      ensures Valid()
      ensures allData == SortedByTotal(TransformRows(rows)) && filteredData == allData
      ensures Redrawn()
    {
      SetData(rows);
      CreateChart();
    }

    /** The data part of `loadData`: every transformed row, sorted by descending total,
        and the copy shown. */
    method SetData(rows: seq<Row>)
      modifies this`allData, this`filteredData
      ensures Valid()
      ensures allData == SortedByTotal(TransformRows(rows)) && filteredData == allData
    {
      SortedByTotalSpec(TransformRows(rows));
      allData := SortedByTotal(TransformRows(rows));
      filteredData := allData;
    }

    /** `applyFilters` with the values of the checked boxes. */
    method ApplyFilters(selected: seq<string>)
      requires Valid()
      modifies this`filteredData, this`stacked, this`animationComplete, this`cameraVisible, this`policeVisible, this`insights
      ensures Valid()
      ensures filteredData == Filtered(allData, selected)
      ensures allData == old(allData) && proportional == old(proportional)
      ensures Redrawn()
    {
      FilteredStaysSorted(allData, selected);
      filteredData := Filtered(allData, selected);
      CreateChart();
    }

    /** "Select all" and a click on the empty chart (`resetAllFilters`): every box checked,
        then `applyFilters`. */
    method SelectAll(checkboxValues: seq<string>)
      requires Valid()
      modifies this`filteredData, this`stacked, this`animationComplete, this`cameraVisible, this`policeVisible, this`insights
      ensures Valid()
      ensures filteredData == Filtered(allData, checkboxValues)
      ensures allData == old(allData) && proportional == old(proportional)
      ensures Redrawn()
    {
      ApplyFilters(checkboxValues);
    }

    /** "Deselect all": no box checked, so nothing is shown, and the mode, the animation
        flag and the layer visibility stay as they were. */
    method DeselectAll()
      requires Valid()
      modifies this`filteredData, this`stacked, this`animationComplete, this`cameraVisible, this`policeVisible, this`insights
      ensures Valid()
      ensures filteredData == [] && stacked == []
      ensures insights.top == None && insights.trend == NoDataTrend
      ensures allData == old(allData) && proportional == old(proportional)
      ensures animationComplete == old(animationComplete)
      ensures cameraVisible == old(cameraVisible) && policeVisible == old(policeVisible)
    {
      ApplyFilters([]);
    }

    /** A stack-mode button. */
    method SetStackMode(toProportional: bool)
      requires Valid()
      modifies this`proportional, this`stacked, this`animationComplete, this`cameraVisible, this`policeVisible, this`insights
      ensures Valid() && proportional == toProportional
      ensures allData == old(allData) && filteredData == old(filteredData)
      ensures Redrawn()
    {
      proportional := toProportional;
      CreateChart();
    }

    /** The end of the last bar's entrance transition. */
    method LastBarTransitionEnd()
      modifies this`animationComplete
      ensures animationComplete
      ensures allData == old(allData) && filteredData == old(filteredData) && stacked == old(stacked)
      ensures cameraVisible == old(cameraVisible) && policeVisible == old(policeVisible)
      ensures proportional == old(proportional) && insights == old(insights)
    {
      animationComplete := true;
    }

    /** A legend click: toggles the layer's visibility once the animation is complete. */
    method LegendClick(camera: bool)
      modifies this`cameraVisible, this`policeVisible
      ensures !old(animationComplete) ==> cameraVisible == old(cameraVisible) && policeVisible == old(policeVisible)
      ensures old(animationComplete) && camera ==> cameraVisible == !old(cameraVisible) && policeVisible == old(policeVisible)
      ensures old(animationComplete) && !camera ==> policeVisible == !old(policeVisible) && cameraVisible == old(cameraVisible)
      ensures allData == old(allData) && filteredData == old(filteredData) && stacked == old(stacked)
      ensures animationComplete == old(animationComplete)
      ensures proportional == old(proportional) && insights == old(insights)
    {
      if !animationComplete {
        return;
      }
      if camera {
        cameraVisible := !cameraVisible;
      } else {
        policeVisible := !policeVisible;
      }
    }
  }
}
