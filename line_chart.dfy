/**
 * The data logic of the two-line chart of police- and camera-issued fines (js/q1.js):
 * loading with a path fall-back, parsing rows into dated records, flattening them into
 * per-method points, the peak of each series, the year cut-off of the slider, and the
 * set of active methods that the legend and the checkboxes edit.
 */
module LineChart {
  import opened Wrappers
  import opened JsValues
  import opened Csv
  import opened OrderedSets
  import opened StableSort

  // ---------------------------------------------------------------------------
  // Loading

  const DataPaths: seq<string> := [
    "data/Q1_Annual_fines_for_mobile_phone_use.csv",
    "./data/Q1_Annual_fines_for_mobile_phone_use.csv",
    "../data/Q1_Annual_fines_for_mobile_phone_use.csv"
  ]

  const LoadError := "Could not load CSV. Expected at: data/Q1_Annual_fines_for_mobile_phone_use.csv (or similar relative paths)."

  /** A fetch the loader takes: any array, even an empty one. */
  predicate IsArray(f: Fetch) {
    f.Resolved?
  }

  /** Loading: the rows of the first path whose fetch yields an array, or the error. */
  function FirstArray(fetch: string -> Fetch): Result<seq<Row>> {
    match FirstAccepted(DataPaths, fetch, IsArray)
    case None => Err(LoadError)
    case Some(k) => Ok(fetch(DataPaths[k]).table.rows)
  }

  /**
   * `loadData`: tries the paths in order, returns the first result that is an array, and
   * throws only when every path was rejected or gave something else. `tried` lists the
   * paths attempted.
   */
  method LoadData(fetch: string -> Fetch) returns (r: Result<seq<Row>>, tried: seq<string>)
    ensures r == FirstArray(fetch)
    ensures 0 < |tried| <= |DataPaths| && tried == DataPaths[..|tried|]
    ensures forall j | 0 <= j < |tried| - 1 :: !fetch(tried[j]).Resolved?
    ensures r.Ok? <==> fetch(tried[|tried| - 1]).Resolved?
  {
    var current := 0;
    tried := [];
    while current < |DataPaths|
      invariant 0 <= current <= |DataPaths|
      invariant tried == DataPaths[..current]
      invariant forall j | 0 <= j < current :: !IsArray(fetch(DataPaths[j]))
    {
      var path := DataPaths[current];
      tried := tried + [path];
      var raw := fetch(path);
      if IsArray(raw) {
        return Ok(raw.table.rows), tried;
      }
      current := current + 1;
    }
    r := Err(LoadError);
  }

  // ---------------------------------------------------------------------------
  // Parsing

  const EmptyError := "Parsed CSV is empty or missing Year values"

  /** One row after the `map` step: its 1 January date (None for an Invalid Date) and the
      two readings, `null` (None) for a blank or missing cell. */
  datatype ParsedRow = ParsedRow(date: Option<Date>, police: Option<JsNum>, camera: Option<JsNum>)

  /** A row that survived the date filter. */
  datatype YearRecord = YearRecord(date: Date, police: Option<JsNum>, camera: Option<JsNum>)

  /** `d.YEAR || d.Year || d.year`. */
  function YearCell(row: Row): Option<string> {
    Or(Or(Cell(row, "YEAR"), Cell(row, "Year")), Cell(row, "year"))
  }

  /** `d['Police issued fines'] ?? d.Police ?? d.police`. */
  function PoliceCell(row: Row): Option<string> {
    Coalesce(Coalesce(Cell(row, "Police issued fines"), Cell(row, "Police")), Cell(row, "police"))
  }

  /** `d['Camera issued fines'] ?? d.Camera ?? d.camera`. */
  function CameraCell(row: Row): Option<string> {
    Coalesce(Coalesce(Cell(row, "Camera issued fines"), Cell(row, "Camera")), Cell(row, "camera"))
  }

  function ParseRow(row: Row): ParsedRow {
    ParsedRow(MakeDate(Plus(YearCell(row)), 0, 1),
              NullableNumber(PoliceCell(row)), NullableNumber(CameraCell(row)))
  }

  /** The `map` and the `filter(d => !isNaN(d.date))`, in row order. */
  function ValidRecords(rows: seq<Row>): (r: seq<YearRecord>)
    ensures |r| <= |rows|
  {
    if rows == [] then []
    else
      var p := ParseRow(rows[0]);
      (if p.date.Some? then [YearRecord(p.date.value, p.police, p.camera)] else [])
        + ValidRecords(rows[1..])
  }

  /** Records are all dated 1 January, so `a.date - b.date` orders them by year. */
  function YearKey(r: YearRecord): real {
    r.date.year as real
  }

  /** The `parsed` array of `createChart`: valid rows sorted by date, or the thrown error. */
  function ParseRows(rows: seq<Row>): Result<seq<YearRecord>> {
    var valid := ValidRecords(rows);
    if valid == [] then Err(EmptyError) else Ok(SortBy(valid, YearKey))
  }

  /** A record survives parsing exactly when its row's year gives a valid date. */
  lemma {:induction false} ValidRecordsMembers(rows: seq<Row>, rec: YearRecord)
    ensures rec in ValidRecords(rows) <==>
      exists i | 0 <= i < |rows| :: ParseRow(rows[i]) == ParsedRow(Some(rec.date), rec.police, rec.camera)
  {
    if rows != [] {
      ValidRecordsMembers(rows[1..], rec);
      assert forall i | 1 <= i < |rows| :: rows[i] == rows[1..][i - 1];
      if exists i | 0 <= i < |rows| :: ParseRow(rows[i]) == ParsedRow(Some(rec.date), rec.police, rec.camera) {
        var i :| 0 <= i < |rows| && ParseRow(rows[i]) == ParsedRow(Some(rec.date), rec.police, rec.camera);
        if i > 0 {
          assert ParseRow(rows[1..][i - 1]) == ParsedRow(Some(rec.date), rec.police, rec.camera);
        }
      }
    }
  }

  /**
   * Rows with an unparsable year are dropped, an empty result is the thrown error, and the
   * survivors come out in ascending year order, each exactly once.
   */
  lemma ParseRowsSpec(rows: seq<Row>)
    ensures ParseRows(rows).Err? <==> forall i | 0 <= i < |rows| :: ParseRow(rows[i]).date.None?
    ensures ParseRows(rows).Err? ==> ParseRows(rows).message == EmptyError
    ensures ParseRows(rows).Ok? ==>
      && SortedBy(ParseRows(rows).value, YearKey)
      && multiset(ParseRows(rows).value) == multiset(ValidRecords(rows))
  {
    SortByCorrect(ValidRecords(rows), YearKey);
    if ValidRecords(rows) == [] {
      forall i | 0 <= i < |rows| ensures ParseRow(rows[i]).date.None? {
        var p := ParseRow(rows[i]);
        if p.date.Some? {
          ValidRecordsMembers(rows, YearRecord(p.date.value, p.police, p.camera));
        }
      }
    } else {
      var rec := ValidRecords(rows)[0];
      ValidRecordsMembers(rows, rec);
    }
  }

  /** A YEAR cell holding the decimal text of a four-digit-or-longer year parses to
      1 January of that year; the `Year` and `year` columns are not consulted. */
  lemma {:induction false} YearTextParses(row: Row, y: int)
    requires 100 <= y <= 275760
    requires Cell(row, "YEAR") == Some(IntToString(y))
    ensures ParseRow(row).date == Some(Date(y, 0, 1))
  {
    ToNumberOfIntToString(y);
    assert IntToString(y) != "";
    assert Trunc(y as real) == y;
  }

  // ---------------------------------------------------------------------------
  // Points and series

  datatype Method = Police | Camera

  datatype Point = Point(date: Date, kind: Method, value: JsNum)

  /** The reading of one method in a record. */
  function Reading(r: YearRecord, m: Method): Option<JsNum> {
    if m == Police then r.police else r.camera
  }

  /** The points one record contributes: Police first, then Camera, each only when present. */
  function RecordPoints(r: YearRecord): seq<Point> {
    (if r.police.Some? then [Point(r.date, Police, r.police.value)] else [])
      + (if r.camera.Some? then [Point(r.date, Camera, r.camera.value)] else [])
  }

  /** The `compiled` array: the records' points in record order. */
  function Flatten(rs: seq<YearRecord>): seq<Point> {
    if rs == [] then [] else RecordPoints(rs[0]) + Flatten(rs[1..])
  }

  /** `compiled` as `createChart` builds it, by `forEach` and `push`. */
  method Compile(parsed: seq<YearRecord>) returns (compiled: seq<Point>)
    ensures compiled == Flatten(parsed)
  {
    compiled := [];
    var i := 0;
    while i < |parsed|
      invariant 0 <= i <= |parsed|
      invariant compiled + Flatten(parsed[i..]) == Flatten(parsed)
    {
      var d := parsed[i];
      ghost var before := compiled;
      assert parsed[i..] == [d] + parsed[i + 1..];
      assert Flatten(parsed[i..]) == RecordPoints(d) + Flatten(parsed[i + 1..]);
      ghost var pp := if d.police.Some? then [Point(d.date, Police, d.police.value)] else [];
      ghost var cp := if d.camera.Some? then [Point(d.date, Camera, d.camera.value)] else [];
      if d.police.Some? {
        compiled := compiled + [Point(d.date, Police, d.police.value)];
      }
      assert compiled == before + pp;
      if d.camera.Some? {
        compiled := compiled + [Point(d.date, Camera, d.camera.value)];
      }
      assert compiled == (before + pp) + cp;
      AppendRegroups(before, pp, cp);
      AppendRegroups(before, RecordPoints(d), Flatten(parsed[i + 1..]));
      i := i + 1;
    }
  }

  /** `d3.group(compiled, p => p.kind).get(m)`: the points of one method, in order. */
  function Series(points: seq<Point>, m: Method): (r: seq<Point>)
    ensures forall p | p in r :: p.kind == m && p in points
  {
    if points == [] then []
    else (if points[0].kind == m then [points[0]] else []) + Series(points[1..], m)
  }

  /** The series of one method read straight off the records: one point per record whose
      reading for that method is not null. */
  function MethodPoints(rs: seq<YearRecord>, m: Method): seq<Point> {
    if rs == [] then []
    else
      (if Reading(rs[0], m).Some? then [Point(rs[0].date, m, Reading(rs[0], m).value)] else [])
        + MethodPoints(rs[1..], m)
  }

  lemma {:induction false} SeriesAppend(a: seq<Point>, b: seq<Point>, m: Method)
    ensures Series(a + b, m) == Series(a, m) + Series(b, m)
  {
    if a != [] {
      SeriesAppend(a[1..], b, m);
      var h := if a[0].kind == m then [a[0]] else [];
      var rest, tail := Series(a[1..], m), Series(b, m);
      assert Series(a + b, m) == h + (rest + tail) by {
        assert (a + b)[0] == a[0];
        assert (a + b)[1..] == a[1..] + b;
      }
      assert Series(a, m) == h + rest;
      AppendRegroups(h, rest, tail);
    } else {
      assert a + b == b;
    }
  }

  /** The series of one method taken from a single record's points. */
  lemma SeriesOfRecord(r: YearRecord, m: Method)
    ensures Series(RecordPoints(r), m)
         == if Reading(r, m).Some? then [Point(r.date, m, Reading(r, m).value)] else []
  {
    var pp := if r.police.Some? then [Point(r.date, Police, r.police.value)] else [];
    var cp := if r.camera.Some? then [Point(r.date, Camera, r.camera.value)] else [];
    SeriesAppend(pp, cp, m);
    assert Series(pp, m) == if m == Police then pp else [];
    assert Series(cp, m) == if m == Camera then cp else [];
  }

  /**
   * Grouping the flattened points by method gives, per method, exactly one point for each
   * record whose reading is not null, in record order: a Police point exactly when
   * `police != null` and a Camera point exactly when `camera != null`.
   */
  lemma {:induction false} SeriesOfFlatten(rs: seq<YearRecord>, m: Method)
    ensures Series(Flatten(rs), m) == MethodPoints(rs, m)
  {
    if rs != [] {
      SeriesOfFlatten(rs[1..], m);
      SeriesAppend(RecordPoints(rs[0]), Flatten(rs[1..]), m);
      SeriesOfRecord(rs[0], m);
    }
  }

  /** The methods in order of first appearance (`Array.from(nested.keys())`). */
  function Methods(points: seq<Point>): (r: seq<Method>)
    ensures Distinct(r)
    ensures forall m :: m in r <==> exists p | p in points :: p.kind == m
  {
    var ms := seq(|points|, i requires 0 <= i < |points| => points[i].kind);
    assert forall m :: m in ms <==> exists p | p in points :: p.kind == m by {
      forall m | m in ms ensures exists p | p in points :: p.kind == m {
        var i :| 0 <= i < |ms| && ms[i] == m;
        assert points[i] in points;
      }
      forall m | exists p | p in points :: p.kind == m ensures m in ms {
        var p :| p in points && p.kind == m;
        var i :| 0 <= i < |points| && points[i] == p;
        assert ms[i] == m;
      }
    }
    FromSeq(ms)
  }

  // ---------------------------------------------------------------------------
  // Peaks

  /** `reduce((max, d) => (max == null || d.value > max.value) ? d : max, acc)`. */
  function PeakFrom(acc: Option<Point>, points: seq<Point>): Option<Point>
    decreases |points|
  {
    if points == [] then acc
    else
      var d := points[0];
      PeakFrom(if acc.None? || Less(acc.value.value, d.value) then Some(d) else acc, points[1..])
  }

  /** The peak of a series, seeded with `null`. */
  function Peak(points: seq<Point>): Option<Point> {
    PeakFrom(None, points)
  }

  predicate AllNumbers(points: seq<Point>) {
    forall i | 0 <= i < |points| :: points[i].value.Num?
  }

  lemma {:induction false} PeakFromIsFirstMaximum(acc: Point, points: seq<Point>) returns (k: int)
    requires acc.value.Num? && AllNumbers(points)
    ensures -1 <= k < |points|
    ensures k == -1 ==> (PeakFrom(Some(acc), points) == Some(acc)
      && forall j | 0 <= j < |points| :: points[j].value.v <= acc.value.v)
    ensures k >= 0 ==> (PeakFrom(Some(acc), points) == Some(points[k])
      && acc.value.v < points[k].value.v
      && (forall j | 0 <= j < |points| :: points[j].value.v <= points[k].value.v)
      && (forall j | 0 <= j < k :: points[j].value.v < points[k].value.v))
    decreases |points|
  {
    if points != [] {
      var d := points[0];
      if acc.value.v < d.value.v {
        var k' := PeakFromIsFirstMaximum(d, points[1..]);
        k := if k' == -1 then 0 else k' + 1;
      } else {
        var k' := PeakFromIsFirstMaximum(acc, points[1..]);
        k := if k' == -1 then -1 else k' + 1;
      }
    } else {
      k := -1;
    }
  }

  /**
   * Over a non-empty series of numbers the peak is a point of maximal value, and because
   * the comparison is a strict `>` it is the earliest such point.
   */
  lemma PeakIsFirstMaximum(points: seq<Point>) returns (k: nat)
    requires points != [] && AllNumbers(points)
    ensures k < |points| && Peak(points) == Some(points[k])
    ensures forall j | 0 <= j < |points| :: points[j].value.v <= points[k].value.v
    ensures forall j | 0 <= j < k :: points[j].value.v < points[k].value.v
  {
    var k' := PeakFromIsFirstMaximum(points[0], points[1..]);
    k := k' + 1;
  }

  /** A series that starts with NaN keeps that point as its peak: no value compares `>` NaN. */
  lemma {:induction false} NaNFirstIsPeak(points: seq<Point>)
    requires points != [] && points[0].value.NaN?
    ensures Peak(points) == Some(points[0])
  {
    NaNAccumulatorSticks(points[0], points[1..]);
  }

  lemma {:induction false} NaNAccumulatorSticks(acc: Point, points: seq<Point>)
    requires acc.value.NaN?
    ensures PeakFrom(Some(acc), points) == Some(acc)
  {
    if points != [] {
      NaNAccumulatorSticks(acc, points[1..]);
    }
  }

  // ---------------------------------------------------------------------------
  // The year slider

  /** `new Date(year, 11, 31)`: the last day of the selected year. */
  function Cutoff(year: int): Option<Date> {
    MakeDate(Num(year as real), 11, 31)
  }

  /** `d[1].filter(pt => pt.date <= selectedDate)`; nothing compares `<=` an Invalid Date. */
  function UpTo(points: seq<Point>, year: int): seq<Point> {
    if points == [] then []
    else
      var keep := Cutoff(year).Some? && DateAtMost(points[0].date, Cutoff(year).value);
      (if keep then [points[0]] else []) + UpTo(points[1..], year)
  }

  predicate JanuaryFirst(points: seq<Point>) {
    forall i | 0 <= i < |points| :: points[i].date.month == 0 && points[i].date.day == 1
  }

  /**
   * `filterByYear` keeps exactly the points dated in or before the selected year, in
   * series order: with every point on 1 January, the 31 December cut-off is a year bound.
   */
  lemma {:induction false} UpToKeepsYears(points: seq<Point>, year: int)
    requires JanuaryFirst(points)
    requires 100 <= year <= 275759
    ensures forall p :: p in UpTo(points, year) <==> p in points && p.date.year <= year
    ensures |UpTo(points, year)| <= |points|
  {
    assert Cutoff(year) == Some(Date(year, 11, 31));
    if points != [] {
      UpToKeepsYears(points[1..], year);
    }
  }

  /** Which series `filterByYear` redraws: only active methods get a new path; an
      inactive method's path is left as it was (None). */
  function Redrawn(series: seq<Point>, m: Method, active: seq<Method>, year: int): Option<seq<Point>> {
    if m in active then Some(UpTo(series, year)) else None
  }

  /** Opacity rule of a point after a year change: shown when its method is active and it
      is not after the cut-off. */
  predicate PointShown(p: Point, active: seq<Method>, year: int) {
    p.kind in active && Cutoff(year).Some? && DateAtMost(p.date, Cutoff(year).value)
  }

  /** The peak marker of a method shows while the method is active and the peak year is
      not after the selected year. */
  predicate PeakMarkerShown(series: seq<Point>, m: Method, active: seq<Method>, year: int) {
    m in active && Peak(series).Some? && Peak(series).value.date.year <= year
  }

  /** The peak, when there is one, is a point of the series. */
  lemma {:induction false} PeakFromIn(acc: Option<Point>, points: seq<Point>)
    ensures PeakFrom(acc, points).Some? ==> PeakFrom(acc, points) == acc || PeakFrom(acc, points).value in points
    decreases |points|
  {
    if points != [] {
      var d := points[0];
      var next := if acc.None? || Less(acc.value.value, d.value) then Some(d) else acc;
      PeakFromIn(next, points[1..]);
    }
  }

  /**
   * What `filterByYear` shows for a year: the path of a method is redrawn only when the
   * method is active, and then holds exactly its points of that year or earlier; a point
   * is visible exactly when its method is active and its year is not later; a peak marker
   * is visible exactly when its method is active and its peak point is on the redrawn path.
   * These opacities hold until the next legend or checkbox event, whose `updateVisibility`
   * shows every point and marker of an active method whatever the year.
   */
  lemma FilterByYearVisibility(series: seq<Point>, m: Method, active: seq<Method>, year: int)
    requires JanuaryFirst(series)
    requires 100 <= year <= 275759
    ensures Redrawn(series, m, active, year).Some? <==> m in active
    ensures m in active ==> forall p :: p in Redrawn(series, m, active, year).value <==> p in series && p.date.year <= year
    ensures forall p | p in series :: PointShown(p, active, year) <==> p.kind in active && p.date.year <= year
    ensures PeakMarkerShown(series, m, active, year) <==>
      m in active && Peak(series).Some? && Peak(series).value in UpTo(series, year)
  {
    UpToKeepsYears(series, year);
    assert Cutoff(year) == Some(Date(year, 11, 31));
    PeakFromIn(None, series);
  }

  /** The Camera direct label as `updateVisibility` sets it on a legend or checkbox event:
      visible only when Camera is active and the slider reads 2020 or later (`null >= 2020`
      is false when the slider is missing). A slider move does not re-evaluate it. */
  function CameraLabelShown(active: seq<Method>, slider: Option<JsNum>): (shown: bool)
    ensures shown ==> Camera in active && slider.Some? && AtMost(Num(2020.0), slider.value)
  {
    Camera in active && slider.Some? && AtMost(Num(2020.0), slider.value)
  }

  /** For a slider reading a whole year the label shows exactly from 2020 on while Camera is
      active; a missing slider or a NaN reading never shows it. */
  lemma CameraLabelRule(active: seq<Method>, y: int)
    ensures CameraLabelShown(active, Some(Num(y as real))) <==> Camera in active && y >= 2020
    ensures !CameraLabelShown(active, None) && !CameraLabelShown(active, Some(NaN))
  {
  }

  // ---------------------------------------------------------------------------
  // Active methods

  /** The legend click: an active method is removed only while another stays active; an
      inactive one is added. */
  function LegendToggle(active: seq<Method>, m: Method): seq<Method> {
    if m in active then (if |active| > 1 then Delete(active, m) else active)
    else Add(active, m)
  }

  /** Legend clicks never empty the set of active methods, and they keep it a set. */
  lemma LegendToggleKeepsOne(active: seq<Method>, m: Method)
    requires active != [] && Distinct(active)
    ensures LegendToggle(active, m) != []
    ensures Distinct(LegendToggle(active, m))
  {
    if m in active && |active| > 1 {
      DeleteMemberSize(active, m);
    }
  }

  /** The checkbox handler: add when checked, delete when unchecked, with no guard. */
  function CheckboxToggle(active: seq<Method>, m: Method, checked: bool): seq<Method> {
    if checked then Add(active, m) else Delete(active, m)
  }

  /** Unlike the legend, unchecking the last active method's checkbox leaves none active. */
  lemma CheckboxCanEmpty(m: Method)
    ensures CheckboxToggle([m], m, false) == []
  {
    assert Delete([m], m) == Delete([], m);
  }

  /** The `activeMethods` Set of `createChart`. */
  class MethodSelection {
    var active: seq<Method>

    ghost predicate Valid()
      reads this
    {
      Distinct(active)
    }

    /** `new Set(methods)`: every method that has points starts active. */
    constructor (compiled: seq<Point>)
      ensures Valid() && active == Methods(compiled)
    {
      active := Methods(compiled);
    }

    /** A legend click; `checked` is the state the matching checkbox is synced to. When the
        click is refused (the last active method) the handler returns before the sync, so
        the box is left alone; `checked` is then `true`, which is what it already shows. */
    method LegendClick(m: Method) returns (checked: bool)
      requires Valid()
      modifies this
      ensures Valid() && active == LegendToggle(old(active), m)
      ensures old(active) != [] ==> active != []
      ensures checked == (m in active)
    {
      if active != [] {
        LegendToggleKeepsOne(active, m);
      }
      if m in active {
        if |active| > 1 {
          active := Delete(active, m);
        } else {
          return true;
        }
      } else {
        active := Add(active, m);
      }
      checked := m in active;
    }

    /** A change event of the checkbox of method `m`. */
    method CheckboxChange(m: Method, isChecked: bool)
      requires Valid()
      modifies this
      ensures Valid() && active == CheckboxToggle(old(active), m, isChecked)
      ensures m in active <==> isChecked
    {
      if isChecked {
        active := Add(active, m);
      } else {
        active := Delete(active, m);
      }
    }
  }
}
