/**
 * The data logic of the horizontal bar chart of fines per 10,000 licences (js/q3.js):
 * the page state (rows, filtered rows, active jurisdictions, year range, animation
 * flags), the filter, the per-jurisdiction aggregation sorted by descending average,
 * the "Highest" annotation, the selection handlers and the dynamic subtitle.
 */
module JurisdictionBars {
  import opened Wrappers
  import opened JsValues
  import opened Csv
  import opened OrderedSets
  import opened StableSort

  // ---------------------------------------------------------------------------
  // Rows

  const DataPaths: seq<string> := [
    "data/Q3_Fines_per_10k_by_jurisdiction.csv",
    "../data/Q3_Fines_per_10k_by_jurisdiction.csv",
    "./data/Q3_Fines_per_10k_by_jurisdiction.csv"
  ]

  /** The keys of `colorScale`, in declaration order. */
  const AllCodes: seq<string> := ["NSW", "VIC", "QLD", "WA", "SA", "TAS", "ACT", "NT"]

  /** One parsed row; `jurisdiction` is `undefined` (None) when the column is missing. */
  datatype FineRow = FineRow(year: JsNum, jurisdiction: Option<string>, fines: JsNum,
                             licenses: JsNum, finesPer10k: JsNum)

  function ParseRow(d: Row): FineRow {
    FineRow(Plus(Cell(d, "YEAR")), Cell(d, "JURISDICTION"), Plus(Cell(d, "Sum(FINES)")),
            Plus(Cell(d, "Licenses")), Plus(Cell(d, "Fines per 10K")))
  }

  function ParseRows(rows: seq<Row>): (data: seq<FineRow>)
    ensures |data| == |rows| && forall i | 0 <= i < |rows| :: data[i] == ParseRow(rows[i])
  {
    seq(|rows|, i requires 0 <= i < |rows| => ParseRow(rows[i]))
  }

  /** A fetch `tryLoadData` keeps: rows, at least one (an empty file is thrown and the next
      path is tried). */
  predicate NonEmptyArray(f: Fetch) {
    f.Resolved? && f.table.rows != []
  }

  // ---------------------------------------------------------------------------
  // Filtering

  /** The filter condition of `filterData`: an active jurisdiction and a year within the
      range (any comparison with NaN fails). */
  predicate Selected(d: FineRow, active: seq<string>, start: JsNum, end: JsNum) {
    d.jurisdiction.Some? && d.jurisdiction.value in active && AtMost(start, d.year) && AtMost(d.year, end)
  }

  /** `filterData`. */
  function Filter(data: seq<FineRow>, active: seq<string>, start: JsNum, end: JsNum): (r: seq<FineRow>)
    ensures |r| <= |data|
  {
    if data == [] then []
    else (if Selected(data[0], active, start, end) then [data[0]] else []) + Filter(data[1..], active, start, end)
  }

  /** A row is kept exactly when it is selected. */
  lemma {:induction false} FilterMembers(data: seq<FineRow>, active: seq<string>, start: JsNum, end: JsNum)
    ensures forall d :: d in Filter(data, active, start, end) <==> d in data && Selected(d, active, start, end)
  {
    if data != [] {
      FilterMembers(data[1..], active, start, end);
      assert data == [data[0]] + data[1..];
    }
  }

  /** The filter keeps the original order: filtering a concatenation filters each part. */
  lemma {:induction false} FilterKeepsOrder(a: seq<FineRow>, b: seq<FineRow>, active: seq<string>, start: JsNum, end: JsNum)
    ensures Filter(a + b, active, start, end) == Filter(a, active, start, end) + Filter(b, active, start, end)
  {
    if a == [] {
      assert a + b == b;
    } else {
      FilterKeepsOrder(a[1..], b, active, start, end);
      var head := if Selected(a[0], active, start, end) then [a[0]] else [];
      var rest, tail := Filter(a[1..], active, start, end), Filter(b, active, start, end);
      assert Filter(a + b, active, start, end) == head + (rest + tail) by {
        assert (a + b)[0] == a[0];
        assert (a + b)[1..] == a[1..] + b;
      }
      assert Filter(a, active, start, end) == head + rest;
      AppendRegroups(head, rest, tail);
    }
  }

  /** An inverted range selects nothing. */
  lemma {:induction false} FilterEmptyRange(data: seq<FineRow>, active: seq<string>, start: JsNum, end: JsNum)
    requires Less(end, start)
    ensures Filter(data, active, start, end) == []
  {
    if data != [] {
      FilterEmptyRange(data[1..], active, start, end);
    }
  }

  // ---------------------------------------------------------------------------
  // Means and sums (d3.mean and d3.sum skip NaN)

  function Rates(values: seq<FineRow>): (r: seq<JsNum>)
    ensures |r| == |values| && forall i | 0 <= i < |values| :: r[i] == values[i].finesPer10k
  {
    seq(|values|, i requires 0 <= i < |values| => values[i].finesPer10k)
  }

  function Fines(values: seq<FineRow>): (r: seq<JsNum>)
    ensures |r| == |values| && forall i | 0 <= i < |values| :: r[i] == values[i].fines
  {
    seq(|values|, i requires 0 <= i < |values| => values[i].fines)
  }

  /** `d3.sum`: the sum of the numbers, NaN skipped. */
  function NumSum(xs: seq<JsNum>): real {
    if xs == [] then 0.0 else (if xs[0].Num? then xs[0].v else 0.0) + NumSum(xs[1..])
  }

  /** How many entries are numbers. */
  function NumCount(xs: seq<JsNum>): (n: nat)
    ensures n <= |xs|
    ensures n == 0 <==> forall i | 0 <= i < |xs| :: xs[i].NaN?
  {
    if xs == [] then 0 else (if xs[0].Num? then 1 else 0) + NumCount(xs[1..])
  }

  /** `d3.mean`: `undefined` (None) when no entry is a number. */
  function Mean(xs: seq<JsNum>): Option<real> {
    if NumCount(xs) == 0 then None else Some(NumSum(xs) / NumCount(xs) as real)
  }

  /** `n` copies of `x` added up. */
  function Times(n: nat, x: real): real {
    if n == 0 then 0.0 else Times(n - 1, x) + x
  }

  lemma {:induction false} TimesMonotone(n: nat, x: real, y: real)
    requires x <= y
    ensures Times(n, x) <= Times(n, y)
  {
    if n > 0 {
      TimesMonotone(n - 1, x, y);
    }
  }

  lemma {:induction false} TimesIsProduct(n: nat, x: real)
    ensures Times(n, x) == n as real * x
  {
    if n > 0 {
      TimesIsProduct(n - 1, x);
      assert n as real * x == (n - 1) as real * x + x;
    }
  }

  lemma {:induction false} NumSumBounds(xs: seq<JsNum>, lo: real, hi: real)
    requires forall i | 0 <= i < |xs| && xs[i].Num? :: lo <= xs[i].v <= hi
    ensures Times(NumCount(xs), lo) <= NumSum(xs) <= Times(NumCount(xs), hi)
  {
    if xs != [] {
      var rest := xs[1..];
      assert forall i | 0 <= i < |rest| && rest[i].Num? :: lo <= rest[i].v <= hi by {
        forall i | 0 <= i < |rest| && rest[i].Num? ensures lo <= rest[i].v <= hi {
          assert rest[i] == xs[i + 1];
        }
      }
      NumSumBounds(rest, lo, hi);
    }
  }

  /** A mean lies between the least and the greatest of the numbers it averages. */
  lemma MeanBetween(xs: seq<JsNum>, lo: real, hi: real)
    requires forall i | 0 <= i < |xs| && xs[i].Num? :: lo <= xs[i].v <= hi
    ensures Mean(xs).Some? ==> lo <= Mean(xs).value <= hi
  {
    var n := NumCount(xs);
    if n > 0 {
      NumSumBounds(xs, lo, hi);
      QuotientBetween(NumSum(xs), n, lo, hi);
    }
  }

  /** A sum between `n` copies of `lo` and `n` copies of `hi`, divided by `n`. */
  lemma QuotientBetween(s: real, n: nat, lo: real, hi: real)
    requires n > 0 && Times(n, lo) <= s <= Times(n, hi)
    ensures lo <= s / n as real <= hi
  {
    TimesIsProduct(n, lo);
    TimesIsProduct(n, hi);
    var c := n as real;
    assert (s / c) * c == s;
  }

  // ---------------------------------------------------------------------------
  // Aggregation per jurisdiction

  /** One bar: the jurisdiction, its average rate, its total fines and its row count. */
  datatype Summary = Summary(jurisdiction: Option<string>, average: real, totalFines: real, dataPoints: nat)

  /** `avgValue || 0`, where `avgValue` is the single rate for a single-year range with one
      row, and the mean otherwise. */
  function Average(values: seq<FineRow>, singleYear: bool): real {
    if singleYear && |values| == 1 then OrZero(values[0].finesPer10k)
    else match Mean(Rates(values)) case None => 0.0 case Some(m) => m
  }

  /** The single-year branch changes nothing: one number is its own mean, and a lone NaN
      falls back to 0 in both branches. */
  lemma SingleYearIsMean(values: seq<FineRow>)
    ensures Average(values, true) == Average(values, false)
  {
    if |values| == 1 {
      var xs := Rates(values);
      assert xs[1..] == [];
      assert NumSum(xs[1..]) == 0.0 && NumCount(xs[1..]) == 0;
      if xs[0].Num? {
        assert NumSum(xs) == xs[0].v && NumCount(xs) == 1;
      }
    }
  }

  /** The bar length lies between the least and greatest numeric rate of the jurisdiction, and
      is 0 when it has no numeric rate. */
  lemma AverageBetween(values: seq<FineRow>, singleYear: bool, lo: real, hi: real)
    requires forall i | 0 <= i < |values| && values[i].finesPer10k.Num? :: lo <= values[i].finesPer10k.v <= hi
    ensures NumCount(Rates(values)) == 0 ==> Average(values, singleYear) == 0.0
    ensures NumCount(Rates(values)) > 0 ==> lo <= Average(values, singleYear) <= hi
  {
    SingleYearIsMean(values);
    MeanBetween(Rates(values), lo, hi);
  }

  /** The rows of one jurisdiction (`d3.group`'s values), in row order. */
  function Group(rows: seq<FineRow>, k: Option<string>): (g: seq<FineRow>)
    ensures forall d :: d in g <==> d in rows && d.jurisdiction == k
  {
    if rows == [] then []
    else (if rows[0].jurisdiction == k then [rows[0]] else []) + Group(rows[1..], k)
  }

  /** The group keys in order of first appearance. */
  function Keys(rows: seq<FineRow>): (ks: seq<Option<string>>)
    ensures Distinct(ks)
    ensures forall k :: k in ks <==> exists d | d in rows :: d.jurisdiction == k
  {
    var all := seq(|rows|, i requires 0 <= i < |rows| => rows[i].jurisdiction);
    assert forall k :: k in all <==> exists d | d in rows :: d.jurisdiction == k by {
      forall k | exists d | d in rows :: d.jurisdiction == k ensures k in all {
        var d :| d in rows && d.jurisdiction == k;
        var i :| 0 <= i < |rows| && rows[i] == d;
        assert all[i] == k;
      }
    }
    FromSeq(all)
  }

  function Summarize(rows: seq<FineRow>, k: Option<string>, singleYear: bool): Summary {
    var values := Group(rows, k);
    Summary(k, Average(values, singleYear), NumSum(Fines(values)), |values|)
  }

  /** The records before sorting, one per group. */
  function Summaries(rows: seq<FineRow>, singleYear: bool): (r: seq<Summary>)
    ensures |r| == |Keys(rows)|
    ensures forall i | 0 <= i < |r| :: r[i] == Summarize(rows, Keys(rows)[i], singleYear)
  {
    var ks := Keys(rows);
    seq(|ks|, i requires 0 <= i < |ks| => Summarize(rows, ks[i], singleYear))
  }

  function NegAverage(s: Summary): real {
    -s.average
  }

  /** `jurisdictionData`: the records sorted by `b.avgFinesPer10k - a.avgFinesPer10k`. */
  function Aggregate(rows: seq<FineRow>, singleYear: bool): seq<Summary> {
    SortBy(Summaries(rows, singleYear), NegAverage)
  }

  /** The records come out in descending order of average. */
  lemma AggregateSorted(rows: seq<FineRow>, singleYear: bool)
    ensures forall i, j | 0 <= i < j < |Aggregate(rows, singleYear)| ::
      Aggregate(rows, singleYear)[i].average >= Aggregate(rows, singleYear)[j].average
    ensures multiset(Aggregate(rows, singleYear)) == multiset(Summaries(rows, singleYear))
    ensures |Aggregate(rows, singleYear)| == |Keys(rows)|
  {
    SortByCorrect(Summaries(rows, singleYear), NegAverage);
  }

  /** Each record holds its own jurisdiction's average, total and row count. */
  lemma AggregateRecords(rows: seq<FineRow>, singleYear: bool)
    ensures forall s | s in Aggregate(rows, singleYear) ::
      s == Summarize(rows, s.jurisdiction, singleYear) && s.dataPoints >= 1
  {
    var sums := Summaries(rows, singleYear);
    var ks := Keys(rows);
    AggregateSorted(rows, singleYear);
    forall s | s in Aggregate(rows, singleYear)
      ensures s == Summarize(rows, s.jurisdiction, singleYear) && s.dataPoints >= 1
    {
      assert s in multiset(sums);
      var i :| 0 <= i < |sums| && sums[i] == s;
      RecordOfKey(rows, singleYear, i);
    }
  }

  lemma RecordOfKey(rows: seq<FineRow>, singleYear: bool, i: nat)
    requires i < |Keys(rows)|
    ensures Summaries(rows, singleYear)[i].jurisdiction == Keys(rows)[i]
    ensures Summaries(rows, singleYear)[i].dataPoints >= 1
  {
    var k := Keys(rows)[i];
    assert k in Keys(rows);
    var d :| d in rows && d.jurisdiction == k;
    assert d in Group(rows, k);
  }

  /** Every jurisdiction present in the rows has a record. */
  lemma AggregateCovers(rows: seq<FineRow>, singleYear: bool)
    ensures forall d | d in rows :: exists s | s in Aggregate(rows, singleYear) :: s.jurisdiction == d.jurisdiction
  {
    var sums := Summaries(rows, singleYear);
    var agg := Aggregate(rows, singleYear);
    var ks := Keys(rows);
    AggregateSorted(rows, singleYear);
    forall d | d in rows ensures exists s | s in agg :: s.jurisdiction == d.jurisdiction {
      assert d.jurisdiction in ks;
      var i :| 0 <= i < |ks| && ks[i] == d.jurisdiction;
      var s := sums[i];
      assert s in multiset(sums);
      assert s in agg;
      assert s.jurisdiction == d.jurisdiction;
    }
  }

  /** No jurisdiction has two records. */
  lemma AggregateDistinct(rows: seq<FineRow>, singleYear: bool)
    ensures forall i, j | 0 <= i < j < |Aggregate(rows, singleYear)| ::
      Aggregate(rows, singleYear)[i].jurisdiction != Aggregate(rows, singleYear)[j].jurisdiction
  {
    var sums := Summaries(rows, singleYear);
    var agg := Aggregate(rows, singleYear);
    var ks := Keys(rows);
    AggregateSorted(rows, singleYear);
    AggregateRecords(rows, singleYear);
    assert Distinct(sums) by {
      forall i, j | 0 <= i < j < |sums| ensures sums[i] != sums[j] {
        assert sums[i].jurisdiction == ks[i];
      }
    }
    DistinctPermutation(sums, agg);
    forall i, j | 0 <= i < j < |agg| ensures agg[i].jurisdiction != agg[j].jurisdiction {
      assert agg[i] in agg && agg[j] in agg;
    }
  }

  /** The "Highest" annotation: the first record, drawn only when there are at least two. */
  function Highest(bars: seq<Summary>): Option<Summary> {
    if |bars| > 1 then Some(bars[0]) else None
  }

  /** The annotated jurisdiction has the greatest average, and the annotation appears exactly
      when at least two jurisdictions are shown. */
  lemma HighestIsMaximum(rows: seq<FineRow>, singleYear: bool)
    ensures Highest(Aggregate(rows, singleYear)).Some? <==> |Keys(rows)| >= 2
    ensures Highest(Aggregate(rows, singleYear)).Some? ==>
      forall s | s in Aggregate(rows, singleYear) :: s.average <= Highest(Aggregate(rows, singleYear)).value.average
  {
    AggregateSorted(rows, singleYear);
    assert |Aggregate(rows, singleYear)| == |Keys(rows)|;
  }

  // ---------------------------------------------------------------------------
  // The subtitle

  /** `Array.prototype.join(sep)`. */
  function Join(xs: seq<string>, sep: string): string {
    if xs == [] then "" else if |xs| == 1 then xs[0] else xs[0] + sep + Join(xs[1..], sep)
  }

  /** Every joined item appears in the joined text, at the returned position. */
  lemma {:induction false} JoinContains(xs: seq<string>, sep: string, i: nat) returns (k: nat)
    requires i < |xs|
    ensures k + |xs[i]| <= |Join(xs, sep)| && Join(xs, sep)[k..k + |xs[i]|] == xs[i]
  {
    if |xs| == 1 {
      k := 0;
      assert Join(xs, sep)[..|xs[0]|] == xs[0];
    } else if i == 0 {
      k := 0;
      var j := Join(xs, sep);
      assert j == xs[0] + (sep + Join(xs[1..], sep));
      assert j[..|xs[0]|] == xs[0];
    } else {
      var k' := JoinContains(xs[1..], sep, i - 1);
      var head := xs[0] + sep;
      k := |head| + k';
      var j := Join(xs, sep);
      assert j == head + Join(xs[1..], sep);
      assert j[k..k + |xs[i]|] == Join(xs[1..], sep)[k'..k' + |xs[i]|];
    }
  }

  /** The year part: one year, or `start-end`. */
  function YearText(start: JsNum, end: JsNum): string
    requires Integral(start) && Integral(end)
  {
    if StrictEq(start, end) then IntegralToString(start)
    else IntegralToString(start) + "-" + IntegralToString(end)
  }

  /** The jurisdiction part, by the number of active jurisdictions. */
  function JurisdictionText(active: seq<string>): string {
    if |active| == 0 then "No jurisdictions selected"
    else if |active| == |AllCodes| then "All jurisdictions"
    else if |active| == 1 then active[0]
    else if |active| <= 3 then Join(active, ", ")
    else NatToString(|active|) + " jurisdictions"
  }

  /** `${jurisdictionText} • ${yearText}`. */
  function Subtitle(active: seq<string>, start: JsNum, end: JsNum): string
    requires Integral(start) && Integral(end)
  {
    JurisdictionText(active) + " • " + YearText(start, end)
  }

  /** With one to three active jurisdictions the subtitle names each of them. */
  lemma SubtitleNamesFew(active: seq<string>, start: JsNum, end: JsNum, i: nat) returns (k: nat)
    requires Integral(start) && Integral(end)
    requires i < |active| <= 3
    ensures k + |active[i]| <= |Subtitle(active, start, end)|
    ensures Subtitle(active, start, end)[k..k + |active[i]|] == active[i]
  {
    var t := JurisdictionText(active);
    if |active| == 1 {
      k := 0;
      assert t == active[0];
    } else {
      k := JoinContains(active, ", ", i);
      assert t == Join(active, ", ");
    }
    SliceOfPrefix(t, " • " + YearText(start, end), k, |active[i]|);
    AppendRegroups(t, " • ", YearText(start, end));
  }

  /** A slice lying inside the first part of a concatenation is a slice of that part. */
  lemma SliceOfPrefix(t: string, u: string, k: nat, n: nat)
    requires k + n <= |t|
    ensures (t + u)[k..k + n] == t[k..k + n]
  {
  }

  lemma JurisdictionTextCounts(active: seq<string>)
    requires 3 < |active| < |AllCodes|
    ensures JurisdictionText(active) == IntToString(|active|) + " jurisdictions"
  {
  }

  /** With four to seven active jurisdictions the subtitle starts with their number. */
  lemma SubtitleCountsMany(active: seq<string>, start: JsNum, end: JsNum)
    requires Integral(start) && Integral(end)
    requires 3 < |active| < |AllCodes|
    ensures ParseInt(Subtitle(active, start, end)) == Num(|active| as real)
  {
    var n, y := IntToString(|active|), YearText(start, end);
    var rest := " jurisdictions" + (" • " + y);
    JurisdictionTextCounts(active);
    AppendRegroups(n + " jurisdictions", " • ", y);
    AppendRegroups(n, " jurisdictions", " • " + y);
    assert Subtitle(active, start, end) == n + rest;
    assert rest[0] == ' ';
    ParseIntPrefix(|active|, rest);
  }

  /** The year part reads back as the start year. */
  lemma YearTextStartsWithStart(start: JsNum, end: JsNum)
    requires Integral(start) && Integral(end) && start.Num?
    ensures ParseInt(YearText(start, end)) == start
  {
    var n := start.v.Floor;
    assert start == Num(n as real);
    if StrictEq(start, end) {
      ParseIntPrefix(n, "");
      assert IntToString(n) + "" == IntToString(n);
    } else {
      ParseIntPrefix(n, "-" + IntegralToString(end));
      assert YearText(start, end) == IntToString(n) + ("-" + IntegralToString(end));
    }
  }

  // ---------------------------------------------------------------------------
  // The year filter

  const YearOrderAlert := "Start year must be less than or equal to end year"

  datatype YearRange = YearRange(start: JsNum, end: JsNum)

  /** `applyYearFilter`'s reading of the two inputs: refused (the alert) exactly when the
      start year is greater than the end year; NaN is never greater, so it is taken. */
  function ReadYearRange(startText: string, endText: string): (r: Result<YearRange>)
    ensures r.Err? <==> Less(ParseInt(endText), ParseInt(startText))
    ensures r.Ok? ==> r.value == YearRange(ParseInt(startText), ParseInt(endText))
    ensures r.Ok? ==> Integral(r.value.start) && Integral(r.value.end)
    ensures r.Err? ==> r.message == YearOrderAlert
  {
    ParseIntIntegral(startText);
    ParseIntIntegral(endText);
    var s := ParseInt(startText);
    var e := ParseInt(endText);
    if Less(e, s) then Err(YearOrderAlert) else Ok(YearRange(s, e))
  }

  // ---------------------------------------------------------------------------
  // The page state

  class Dashboard {
    var data: seq<FineRow>
    var filteredData: seq<FineRow>
    var active: seq<string>
    var yearStart: JsNum
    var yearEnd: JsNum
    var isAnimating: bool
    var isFirstRender: bool
    /** The records drawn by the last `createChart` (its local `jurisdictionData`). */
    var bars: seq<Summary>

    ghost predicate Valid()
      reads this
    {
      Distinct(active) && Integral(yearStart) && Integral(yearEnd)
    }

    constructor ()
      ensures Valid()
      ensures data == [] && filteredData == [] && bars == []
      ensures active == AllCodes && yearStart == Num(2010.0) && yearEnd == Num(2024.0)
      ensures !isAnimating && isFirstRender
    {
      data := [];
      filteredData := [];
      active := AllCodes;
      yearStart := Num(2010.0);
      yearEnd := Num(2024.0);
      isAnimating := false;
      isFirstRender := true;
      bars := [];
    }

    /** `updateChart`: filter, aggregate and draw. An empty selection draws nothing and leaves
        the flags; otherwise the first render starts the bar animation and later renders
        clear the flag. */
    method UpdateChart()
      requires Valid()
      modifies this
      ensures Valid()
      ensures data == old(data) && active == old(active)
      ensures yearStart == old(yearStart) && yearEnd == old(yearEnd)
      ensures filteredData == Filter(data, active, yearStart, yearEnd)
      ensures bars == Aggregate(filteredData, StrictEq(yearStart, yearEnd))
      ensures isFirstRender == old(isFirstRender)
      ensures isAnimating == (if filteredData == [] then old(isAnimating) else isFirstRender)
    {
      filteredData := Filter(data, active, yearStart, yearEnd);
      if filteredData == [] {
        bars := [];
        return;
      }
      bars := Aggregate(filteredData, StrictEq(yearStart, yearEnd));
      if isFirstRender {
        isAnimating := true;
      } else {
        isAnimating := false;
      }
    }

    /** What a call of `updateChart` leaves behind, relative to the state before the
        handler: the rows refiltered from the current inputs, their bars, and the
        animation flags as `updateChart` sets them. */
    twostate predicate Redrawn()
      reads this
    {
      && filteredData == Filter(data, active, yearStart, yearEnd)
      && bars == Aggregate(filteredData, StrictEq(yearStart, yearEnd))
      && isFirstRender == old(isFirstRender)
      && isAnimating == (if filteredData == [] then old(isAnimating) else isFirstRender)
    }

    /** The `then` of `tryLoadData`: parse the rows and draw. */
    method Load(rows: seq<Row>)
      requires Valid()
      modifies this
      ensures Valid() && data == ParseRows(rows)
      ensures active == old(active) && yearStart == old(yearStart) && yearEnd == old(yearEnd)
      ensures Redrawn()
    {
      data := ParseRows(rows);
      UpdateChart();
    }

    /** `loadData`: the paths in turn until one gives rows; `loaded` is false when all fail
        (the error message is shown and the state is left as it was). */
    method LoadData(fetch: string -> Fetch) returns (loaded: bool)
      requires Valid()
      modifies this
      ensures Valid()
      ensures loaded <==> FirstAccepted(DataPaths, fetch, NonEmptyArray).Some?
      ensures loaded ==> data == ParseRows(fetch(DataPaths[FirstAccepted(DataPaths, fetch, NonEmptyArray).value]).table.rows)
      ensures loaded ==> active == old(active) && yearStart == old(yearStart) && yearEnd == old(yearEnd)
      ensures loaded ==> Redrawn()
      ensures !loaded ==> unchanged(this)
    {
      var current := 0;
      while current < |DataPaths|
        invariant 0 <= current <= |DataPaths|
        invariant forall j | 0 <= j < current :: !NonEmptyArray(fetch(DataPaths[j]))
        invariant unchanged(this)
      {
        var raw := fetch(DataPaths[current]);
        if NonEmptyArray(raw) {
          Load(raw.table.rows);
          return true;
        }
        current := current + 1;
      }
      loaded := false;
    }

    /** The last bar's transition end. */
    method LastBarTransitionEnd()
      modifies this`isAnimating, this`isFirstRender
      ensures !isAnimating && !isFirstRender
      ensures data == old(data) && active == old(active) && bars == old(bars)
      ensures filteredData == old(filteredData)
      ensures yearStart == old(yearStart) && yearEnd == old(yearEnd)
    {
      isAnimating := false;
      isFirstRender := false;
    }

    /** `focusJurisdiction`: show only `j`. */
    method FocusJurisdiction(j: string)
      requires Valid()
      modifies this
      ensures Valid() && active == [j]
      ensures data == old(data) && yearStart == old(yearStart) && yearEnd == old(yearEnd)
      ensures Redrawn()
    {
      active := [j];
      UpdateChart();
    }

    /** A click on a bar or a legend item: ignored while the bars animate. */
    method BarClick(j: string)
      requires Valid()
      modifies this
      ensures Valid()
      ensures old(isAnimating) ==> unchanged(this)
      ensures !old(isAnimating) ==> active == [j] && Redrawn()
      ensures data == old(data) && yearStart == old(yearStart) && yearEnd == old(yearEnd)
    {
      if isAnimating {
        return;
      }
      FocusJurisdiction(j);
    }

    /** `resetSelection` (a click elsewhere or Escape): every jurisdiction again, unless the
        bars are animating. */
    method ResetSelection()
      requires Valid()
      modifies this
      ensures Valid()
      ensures old(isAnimating) ==> unchanged(this)
      ensures !old(isAnimating) ==> active == AllCodes && Redrawn()
      ensures data == old(data) && yearStart == old(yearStart) && yearEnd == old(yearEnd)
    {
      if isAnimating {
        return;
      }
      active := AllCodes;
      UpdateChart();
    }

    /** A jurisdiction checkbox's change handler. */
    method CheckboxChange(j: string, isChecked: bool)
      requires Valid()
      modifies this
      ensures Valid()
      ensures isChecked ==> active == Add(old(active), j)
      ensures !isChecked ==> active == Delete(old(active), j)
      ensures j in active <==> isChecked
      ensures data == old(data) && yearStart == old(yearStart) && yearEnd == old(yearEnd)
      ensures Redrawn()
    {
      if isChecked {
        active := Add(active, j);
      } else {
        active := Delete(active, j);
      }
      UpdateChart();
    }

    /** The "Select all" button. */
    method SelectAll()
      requires Valid()
      modifies this
      ensures Valid() && active == AllCodes
      ensures data == old(data) && yearStart == old(yearStart) && yearEnd == old(yearEnd)
      ensures Redrawn()
    {
      active := AllCodes;
      UpdateChart();
    }

    /** The "Deselect all" button: nothing is selected and nothing is drawn, and with
        nothing drawn the animation flags stay as they were. */
    method DeselectAll()
      requires Valid()
      modifies this
      ensures Valid() && active == [] && filteredData == [] && bars == []
      ensures data == old(data) && yearStart == old(yearStart) && yearEnd == old(yearEnd)
      ensures isAnimating == old(isAnimating) && isFirstRender == old(isFirstRender)
    {
      active := [];
      UpdateChart();
      FilterNothingActive(data, yearStart, yearEnd);
    }

    /** The accepted branch of `applyYearFilter`: the new range, then `updateChart`. */
    method SetYearRange(range: YearRange)
      requires Valid() && Integral(range.start) && Integral(range.end)
      modifies this
      ensures Valid() && YearRange(yearStart, yearEnd) == range
      ensures data == old(data) && active == old(active)
      ensures Redrawn()
    {
      yearStart := range.start;
      yearEnd := range.end;
      UpdateChart();
    }

    /** `applyYearFilter`: an inverted range is refused and changes nothing; otherwise the
        range is set and the chart redrawn. */
    method ApplyYearFilter(startText: string, endText: string) returns (alert: Option<string>)
      requires Valid()
      modifies this
      ensures Valid()
      ensures ReadYearRange(startText, endText).Err? ==> alert == Some(YearOrderAlert) && unchanged(this)
      ensures ReadYearRange(startText, endText).Ok? ==> (alert == None
        && YearRange(yearStart, yearEnd) == ReadYearRange(startText, endText).value
        && data == old(data) && active == old(active)
        && Redrawn())
    {
      var range := ReadYearRange(startText, endText);
      if range.Err? {
        return Some(range.message);
      }
      SetYearRange(range.value);
      alert := None;
    }
  }

  /** With no active jurisdiction the filter keeps nothing. */
  lemma {:induction false} FilterNothingActive(data: seq<FineRow>, start: JsNum, end: JsNum)
    ensures Filter(data, [], start, end) == []
  {
    if data != [] {
      FilterNothingActive(data[1..], start, end);
    }
  }
}
