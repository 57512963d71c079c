/**
 * The data logic of the multi-series line chart of fines by jurisdiction (js/q2.js):
 * loading a wide CSV (one column per jurisdiction) and reshaping it to one entry per
 * year and jurisdiction, the sorted jurisdiction list, the padded and clamped y bounds,
 * the active-jurisdiction set edited by the legend and the checkboxes, and the nearest
 * point under the cursor.
 */
module JurisdictionLines {
  import opened Wrappers
  import opened JsValues
  import opened Csv
  import opened OrderedSets

  // ---------------------------------------------------------------------------
  // Loading and reshaping

  const DataPaths: seq<string> := [
    "data/Q2_Annual_fines_by_jurisdiction.csv",
    "./data/Q2_Annual_fines_by_jurisdiction.csv",
    "../data/Q2_Annual_fines_by_jurisdiction.csv"
  ]

  const LoadError := "Could not load Q2 CSV. Expected at data/Q2_Annual_fines_by_jurisdiction.csv"

  /** One entry of the long format: the row's 1 January date (None for an Invalid Date),
      the jurisdiction column and its value (`null` for a blank or missing cell). */
  datatype LongRow = LongRow(date: Option<Date>, jurisdiction: string, value: Option<JsNum>)

  /** A fetch the loader keeps: an array with at least one row (an empty one is thrown as
      "CSV loaded but empty" and the next path is tried). */
  predicate NonEmptyArray(f: Fetch) {
    f.Resolved? && f.table.rows != []
  }

  /** `headerCols.filter(h => h.toUpperCase() !== 'YEAR')`. */
  function JurisdictionColumns(header: seq<string>): (cols: seq<string>)
    ensures forall h :: h in cols <==> h in header && ToUpper(h) != "YEAR"
    ensures |cols| <= |header|
  {
    if header == [] then []
    else
      (if ToUpper(header[0]) != "YEAR" then [header[0]] else []) + JurisdictionColumns(header[1..])
  }

  /** `new Date(+(row.YEAR || row.Year || row.year), 0, 1)`. */
  function RowDate(row: Row): Option<Date> {
    MakeDate(Plus(Or(Or(Cell(row, "YEAR"), Cell(row, "Year")), Cell(row, "year"))), 0, 1)
  }

  /** The entries one wide row contributes, one per jurisdiction column in column order. */
  function RowEntries(row: Row, cols: seq<string>): (r: seq<LongRow>)
    ensures |r| == |cols|
  {
    seq(|cols|, k requires 0 <= k < |cols| => LongRow(RowDate(row), cols[k], NullableNumber(Cell(row, cols[k]))))
  }

  /** The `long` array: the rows' entries, row after row. */
  function Long(rows: seq<Row>, cols: seq<string>): seq<LongRow> {
    if rows == [] then [] else RowEntries(rows[0], cols) + Long(rows[1..], cols)
  }

  lemma {:induction false} LongAppend(a: seq<Row>, b: seq<Row>, cols: seq<string>)
    ensures Long(a + b, cols) == Long(a, cols) + Long(b, cols)
  {
    if a == [] {
      assert a + b == b;
    } else {
      LongAppend(a[1..], b, cols);
      assert (a + b)[0] == a[0];
      assert (a + b)[1..] == a[1..] + b;
      var first, rest, tail := RowEntries(a[0], cols), Long(a[1..], cols), Long(b, cols);
      assert Long(a + b, cols) == first + (rest + tail);
      assert Long(a, cols) == first + rest;
      AppendRegroups(first, rest, tail);
    }
  }

  /** Multiplication by a successor, kept out of the larger proofs. */
  lemma MultiplySuccessor(m: nat, n: nat)
    requires m >= 1
    ensures m * n == n + (m - 1) * n
  {
  }

  /** Row-major positions stay inside the grid. */
  lemma {:induction false} RowMajorBound(i: nat, k: nat, m: nat, n: nat)
    requires i < m && k < n
    ensures i * n + k < m * n
  {
    MultiplySuccessor(m, n);
    if i + 1 < m {
      RowMajorBound(i, k, m - 1, n);
    }
  }

  /** The long output holds one entry per row and column. */
  lemma {:induction false} LongLength(rows: seq<Row>, cols: seq<string>)
    ensures |Long(rows, cols)| == |rows| * |cols|
  {
    if rows != [] {
      LongLength(rows[1..], cols);
      MultiplySuccessor(|rows|, |cols|);
    }
  }

  /**
   * The long output holds rows × columns entries in row-major order: entry i·n + k is
   * column k of row i, carrying row i's own date and its own cell of that column.
   */
  lemma {:induction false} LongIndex(rows: seq<Row>, cols: seq<string>, i: nat, k: nat)
    requires i < |rows| && k < |cols|
    ensures |Long(rows, cols)| == |rows| * |cols|
    ensures i * |cols| + k < |Long(rows, cols)|
    ensures Long(rows, cols)[i * |cols| + k]
         == LongRow(RowDate(rows[i]), cols[k], NullableNumber(Cell(rows[i], cols[k])))
  {
    var n := |cols|;
    LongLength(rows, cols);
    RowMajorBound(i, k, |rows|, n);
    var first := RowEntries(rows[0], cols);
    assert Long(rows, cols) == first + Long(rows[1..], cols);
    if i == 0 {
      assert Long(rows, cols)[k] == first[k];
    } else {
      var j := (i - 1) * n + k;
      LongIndex(rows[1..], cols, i - 1, k);
      MultiplySuccessor(i, n);
      assert i * n + k == n + j;
      assert rows[1..][i - 1] == rows[i];
      assert Long(rows, cols)[n + j] == Long(rows[1..], cols)[j];
    }
  }

  /** Every entry of the long output belongs to one of the jurisdiction columns, and with at
      least one row every column has an entry. */
  lemma {:induction false} LongJurisdictions(rows: seq<Row>, cols: seq<string>, j: string)
    ensures (exists e | e in Long(rows, cols) :: e.jurisdiction == j) ==> j in cols
    ensures rows != [] && j in cols ==> exists e | e in Long(rows, cols) :: e.jurisdiction == j
  {
    if rows != [] {
      LongJurisdictions(rows[1..], cols, j);
      var first := RowEntries(rows[0], cols);
      assert forall e | e in first :: e.jurisdiction in cols;
      if j in cols {
        var k :| 0 <= k < |cols| && cols[k] == j;
        assert Long(rows, cols)[k] == first[k];
      }
    }
  }

  /** The nested `forEach` of `loadData`, pushing one entry per row and column. */
  method ToLong(rows: seq<Row>, cols: seq<string>) returns (long: seq<LongRow>)
    ensures long == Long(rows, cols)
  {
    long := [];
    var i := 0;
    while i < |rows|
      invariant 0 <= i <= |rows|
      invariant long == Long(rows[..i], cols)
    {
      var row := rows[i];
      var date := RowDate(row);
      var k := 0;
      while k < |cols|
        invariant 0 <= k <= |cols|
        invariant long == Long(rows[..i], cols) + RowEntries(row, cols)[..k]
      {
        var value := NullableNumber(Cell(row, cols[k]));
        var entry := LongRow(date, cols[k], value);
        assert RowEntries(row, cols)[..k + 1] == RowEntries(row, cols)[..k] + [entry];
        AppendRegroups(Long(rows[..i], cols), RowEntries(row, cols)[..k], [entry]);
        long := long + [entry];
        k := k + 1;
      }
      assert RowEntries(row, cols)[..|cols|] == RowEntries(row, cols);
      LongAppend(rows[..i], [row], cols);
      assert Long([row], cols) == RowEntries(row, cols);
      assert rows[..i + 1] == rows[..i] + [row];
      i := i + 1;
    }
    assert rows[..|rows|] == rows;
  }

  /** The reshaped table. */
  function Reshape(t: Table): seq<LongRow> {
    Long(t.rows, JurisdictionColumns(t.columns))
  }

  /** Loading: the first non-empty array, reshaped, or the error thrown after every path. */
  function Loaded(fetch: string -> Fetch): Result<seq<LongRow>> {
    match FirstAccepted(DataPaths, fetch, NonEmptyArray)
    case None => Err(LoadError)
    case Some(k) => Ok(Reshape(fetch(DataPaths[k]).table))
  }

  /** `loadData`: an empty or non-array result counts as a failure and the next path is
      tried; the error is thrown only after all paths failed. */
  method LoadData(fetch: string -> Fetch) returns (r: Result<seq<LongRow>>)
    ensures r == Loaded(fetch)
    ensures r.Err? <==> forall j | 0 <= j < |DataPaths| :: !NonEmptyArray(fetch(DataPaths[j]))
  {
    var current := 0;
    while current < |DataPaths|
      invariant 0 <= current <= |DataPaths|
      invariant forall j | 0 <= j < current :: !NonEmptyArray(fetch(DataPaths[j]))
    {
      var raw := fetch(DataPaths[current]);
      if NonEmptyArray(raw) {
        var cols := JurisdictionColumns(raw.table.columns);
        var long := ToLong(raw.table.rows, cols);
        return Ok(long);
      }
      current := current + 1;
    }
    r := Err(LoadError);
  }

  // ---------------------------------------------------------------------------
  // The jurisdiction list

  /** JavaScript's `<` on strings: lexicographic by character. */
  predicate StrLess(a: string, b: string) {
    if a == [] then b != []
    else if b == [] then false
    else if a[0] != b[0] then a[0] < b[0]
    else StrLess(a[1..], b[1..])
  }

  lemma {:induction false} StrLessIrreflexive(a: string)
    ensures !StrLess(a, a)
  {
    if a != [] {
      StrLessIrreflexive(a[1..]);
    }
  }

  lemma {:induction false} StrLessTransitive(a: string, b: string, c: string)
    requires StrLess(a, b) && StrLess(b, c)
    ensures StrLess(a, c)
  {
    if a != [] && b != [] && c != [] && a[0] == b[0] && b[0] == c[0] {
      StrLessTransitive(a[1..], b[1..], c[1..]);
    }
  }

  lemma {:induction false} StrLessTotal(a: string, b: string)
    requires a != b
    ensures StrLess(a, b) || StrLess(b, a)
  {
    if a != [] && b != [] && a[0] == b[0] {
      assert a == [a[0]] + a[1..] && b == [b[0]] + b[1..];
      StrLessTotal(a[1..], b[1..]);
    }
  }

  ghost predicate StrictlySorted(s: seq<string>) {
    forall i, j | 0 <= i < j < |s| :: StrLess(s[i], s[j])
  }

  /** Insertion into a sorted list of strings. */
  function InsertStr(x: string, s: seq<string>): seq<string> {
    if s == [] || !StrLess(s[0], x) then [x] + s else [s[0]] + InsertStr(x, s[1..])
  }

  /** `Array.prototype.sort()` without a comparator, on strings: ascending `<` order. */
  function SortStrings(s: seq<string>): seq<string> {
    if s == [] then [] else InsertStr(s[0], SortStrings(s[1..]))
  }

  lemma {:induction false} InsertStrContents(x: string, s: seq<string>)
    ensures multiset(InsertStr(x, s)) == multiset(s) + multiset{x}
  {
    if s != [] && StrLess(s[0], x) {
      InsertStrContents(x, s[1..]);
      assert s == [s[0]] + s[1..];
    }
  }

  lemma {:induction false} InsertStrSorted(x: string, s: seq<string>)
    requires StrictlySorted(s) && x !in s
    ensures StrictlySorted(InsertStr(x, s))
  {
    if s == [] {
    } else if !StrLess(s[0], x) {
      StrLessTotal(x, s[0]);
      forall j | 0 < j < |s| ensures StrLess(x, s[j]) {
        StrLessTransitive(x, s[0], s[j]);
      }
    } else {
      var rest := InsertStr(x, s[1..]);
      InsertStrSorted(x, s[1..]);
      InsertStrContents(x, s[1..]);
      forall j | 0 <= j < |rest| ensures StrLess(s[0], rest[j]) {
        assert rest[j] in multiset(rest);
        if rest[j] != x {
          assert rest[j] in s[1..];
        }
      }
    }
  }

  lemma {:induction false} SortStringsCorrect(s: seq<string>)
    requires Distinct(s)
    ensures StrictlySorted(SortStrings(s))
    ensures multiset(SortStrings(s)) == multiset(s)
  {
    if s != [] {
      assert Distinct(s[1..]);
      SortStringsCorrect(s[1..]);
      assert s[0] !in s[1..];
      assert s[0] !in multiset(SortStrings(s[1..]));
      InsertStrSorted(s[0], SortStrings(s[1..]));
      InsertStrContents(s[0], SortStrings(s[1..]));
      assert s == [s[0]] + s[1..];
    }
  }

  const NoJurisdictionsError := "No jurisdictions found in dataset"

  /** `Array.from(new Set(data.map(d => d.jurisdiction))).sort()`, thrown on when empty. */
  function Jurisdictions(data: seq<LongRow>): Result<seq<string>> {
    var names := SortStrings(FromSeq(seq(|data|, i requires 0 <= i < |data| => data[i].jurisdiction)));
    if names == [] then Err(NoJurisdictionsError) else Ok(names)
  }

  /**
   * The jurisdiction list is in ascending order without duplicates and names exactly the
   * jurisdictions of the data; it is the thrown error only for empty data.
   */
  lemma JurisdictionsSpec(data: seq<LongRow>)
    ensures Jurisdictions(data).Err? <==> data == []
    ensures Jurisdictions(data).Ok? ==>
      && StrictlySorted(Jurisdictions(data).value)
      && Distinct(Jurisdictions(data).value)
      && forall j :: j in Jurisdictions(data).value <==> exists e | e in data :: e.jurisdiction == j
  {
    var names := seq(|data|, i requires 0 <= i < |data| => data[i].jurisdiction);
    var set_ := FromSeq(names);
    SortStringsCorrect(set_);
    var sorted := SortStrings(set_);
    forall j ensures j in sorted <==> exists e | e in data :: e.jurisdiction == j {
      assert j in sorted <==> j in multiset(set_);
      if j in names {
        var i :| 0 <= i < |names| && names[i] == j;
        assert data[i] in data;
      }
      if exists e | e in data :: e.jurisdiction == j {
        var e :| e in data && e.jurisdiction == j;
        var i :| 0 <= i < |data| && data[i] == e;
        assert names[i] == j;
      }
    }
    if data != [] {
      assert data[0].jurisdiction in sorted;
    }
    forall i, j | 0 <= i < j < |sorted| ensures sorted[i] != sorted[j] {
      StrLessIrreflexive(sorted[i]);
    }
  }

  /** Loaded data with at least one jurisdiction column lists exactly those columns. */
  lemma LoadedJurisdictions(t: Table, j: string)
    requires t.rows != [] && Jurisdictions(Reshape(t)).Ok?
    ensures j in Jurisdictions(Reshape(t)).value <==> j in t.columns && ToUpper(j) != "YEAR"
  {
    JurisdictionsSpec(Reshape(t));
    LongJurisdictions(t.rows, JurisdictionColumns(t.columns), j);
  }

  // ---------------------------------------------------------------------------
  // The y bounds

  /** `data.map(d => d.value).filter(v => v != null && !isNaN(v))`. */
  function NumericValues(data: seq<LongRow>): (vs: seq<real>)
    ensures forall v | v in vs :: exists e | e in data :: e.value == Some(Num(v))
    ensures forall e | e in data && e.value.Some? && e.value.value.Num? :: e.value.value.v in vs
  {
    if data == [] then []
    else
      var e := data[0];
      (if e.value.Some? && e.value.value.Num? then [e.value.value.v] else []) + NumericValues(data[1..])
  }

  function Min(vs: seq<real>): (m: real)
    requires vs != []
    ensures m in vs && forall v | v in vs :: m <= v
  {
    if |vs| == 1 then vs[0]
    else
      var rest := Min(vs[1..]);
      assert forall v | v in vs :: v == vs[0] || v in vs[1..];
      if vs[0] <= rest then vs[0] else rest
  }

  function Max(vs: seq<real>): (m: real)
    requires vs != []
    ensures m in vs && forall v | v in vs :: v <= m
  {
    if |vs| == 1 then vs[0]
    else
      var rest := Max(vs[1..]);
      assert forall v | v in vs :: v == vs[0] || v in vs[1..];
      if vs[0] >= rest then vs[0] else rest
  }

  datatype Bounds = Bounds(lower: real, upper: real)

  /**
   * The y domain before `.nice()`: the extent (0 and 1 when there are no numbers) widened by
   * 18% of its span on each side, with the lower bound held at -20000 or above.
   */
  function YBounds(data: seq<LongRow>): (b: Bounds)
    ensures b.lower >= -20000.0
    ensures forall e | e in data && e.value.Some? && e.value.value.Num? :: e.value.value.v <= b.upper
    ensures b.lower == -20000.0 || forall v | v in NumericValues(data) :: b.lower <= v
    ensures NumericValues(data) == [] ==> b == Bounds(-0.18, 1.18)
  {
    var vs := NumericValues(data);
    var lo := if vs == [] then 0.0 else Min(vs);
    var hi := if vs == [] then 1.0 else Max(vs);
    var pad := (hi - lo) * 0.18;
    Bounds(if lo - pad >= -20000.0 then lo - pad else -20000.0, hi + pad)
  }

  // ---------------------------------------------------------------------------
  // Active jurisdictions

  /** A legend click: membership of `j` flips, every other jurisdiction stays as it was. */
  function Flip(active: seq<string>, j: string): (r: seq<string>)
    ensures forall k :: k in r <==> (k in active) != (k == j)
    ensures Distinct(active) ==> Distinct(r)
  {
    if j in active then Delete(active, j) else Add(active, j)
  }

  /** Two clicks on the same legend item restore membership. */
  lemma FlipTwice(active: seq<string>, j: string, k: string)
    ensures k in Flip(Flip(active, j), j) <==> k in active
  {
  }

  /** `activeJurisdictions`, with the checkbox of each jurisdiction. */
  class Selection {
    var active: seq<string>

    ghost predicate Valid()
      reads this
    {
      Distinct(active)
    }

    /** `new Set(jurisdictions)`: every jurisdiction starts active. */
    constructor (jurisdictions: seq<string>)
      ensures Valid() && forall j :: j in active <==> j in jurisdictions
    {
      active := FromSeq(jurisdictions);
    }

    /** The legend click handler; `checked` is what the checkbox is set to afterwards. */
    method LegendClick(j: string) returns (checked: bool)
      requires Valid()
      modifies this
      ensures Valid() && active == Flip(old(active), j)
      ensures checked == (j in active) && checked == (j !in old(active))
    {
      active := Flip(active, j);
      checked := j in active;
    }

    /** The checkbox change handler: membership follows the box. */
    method CheckboxChange(j: string, isChecked: bool)
      requires Valid()
      modifies this
      ensures Valid()
      ensures isChecked ==> active == Add(old(active), j)
      ensures !isChecked ==> active == Delete(old(active), j)
      ensures j in active <==> isChecked
    {
      if isChecked {
        active := Add(active, j);
      } else {
        active := Delete(active, j);
      }
    }
  }

  // ---------------------------------------------------------------------------
  // The nearest point

  function Abs(x: real): real {
    if x < 0.0 then -x else x
  }

  /** `Math.abs(d.date - x0)`: NaN when the date is invalid. */
  function Distance(d: LongRow, x0: real): JsNum {
    if d.date.None? then NaN else Num(Abs(TimeValue(d.date.value) - x0))
  }

  /** `reduce((prev, curr) => Math.abs(curr.date - x0) < Math.abs(prev.date - x0) ? curr : prev)`
      continued from `prev`. */
  function NearestFrom(prev: LongRow, points: seq<LongRow>, x0: real): LongRow
    decreases |points|
  {
    if points == [] then prev
    else
      var curr := points[0];
      NearestFrom(if Less(Distance(curr, x0), Distance(prev, x0)) then curr else prev, points[1..], x0)
  }

  /** The reduce without an initial value, over a jurisdiction's non-empty series. */
  function Nearest(points: seq<LongRow>, x0: real): LongRow
    requires points != []
  {
    NearestFrom(points[0], points[1..], x0)
  }

  predicate AllDated(points: seq<LongRow>) {
    forall i | 0 <= i < |points| :: points[i].date.Some?
  }

  lemma {:induction false} NearestFromIsFirstClosest(prev: LongRow, points: seq<LongRow>, x0: real) returns (k: int)
    requires prev.date.Some? && AllDated(points)
    ensures -1 <= k < |points|
    ensures k == -1 ==> (NearestFrom(prev, points, x0) == prev
      && forall j | 0 <= j < |points| :: Distance(prev, x0).v <= Distance(points[j], x0).v)
    ensures k >= 0 ==> (NearestFrom(prev, points, x0) == points[k]
      && Distance(points[k], x0).v < Distance(prev, x0).v
      && (forall j | 0 <= j < |points| :: Distance(points[k], x0).v <= Distance(points[j], x0).v)
      && (forall j | 0 <= j < k :: Distance(points[k], x0).v < Distance(points[j], x0).v))
    decreases |points|
  {
    if points == [] {
      k := -1;
    } else if Distance(points[0], x0).v < Distance(prev, x0).v {
      var k' := NearestFromIsFirstClosest(points[0], points[1..], x0);
      k := if k' == -1 then 0 else k' + 1;
    } else {
      var k' := NearestFromIsFirstClosest(prev, points[1..], x0);
      k := if k' == -1 then -1 else k' + 1;
    }
  }

  /**
   * Over a series of valid dates the tooltip's point has the least distance to `x0`, and
   * because the comparison is a strict `<` it is the earliest such point in the series.
   */
  lemma NearestIsFirstClosest(points: seq<LongRow>, x0: real) returns (k: nat)
    requires points != [] && AllDated(points)
    ensures k < |points| && Nearest(points, x0) == points[k]
    ensures forall j | 0 <= j < |points| :: Distance(points[k], x0).v <= Distance(points[j], x0).v
    ensures forall j | 0 <= j < k :: Distance(points[k], x0).v < Distance(points[j], x0).v
  {
    var k' := NearestFromIsFirstClosest(points[0], points[1..], x0);
    k := k' + 1;
  }
}
