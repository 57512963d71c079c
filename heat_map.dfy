/**
 * The state behind the jurisdiction heat map of mobile-phone fines (js/q5.js): the
 * `dataMap[year][jurisdiction]` lookup table built from the CSV rows, the `getValue`
 * lookup with its 0 default, the GeoJSON-name to jurisdiction-code table, and the year
 * shown by the map as the slider, the play timer and the reset button move it.
 */
module HeatMap {
  import opened Wrappers
  import opened JsValues
  import opened Csv

  // ---------------------------------------------------------------------------
  // The lookup table

  /** `dataMap`: year (the number `+d.YEAR`) to trimmed jurisdiction code to `+d.FINES`. */
  type Table = map<JsNum, map<string, JsNum>>

  /** What the `forEach` reads from one row: `+d.YEAR`, `d.JURISDICTION.trim()` (`None`
      when the column is missing, where `.trim()` of `undefined` throws) and `+d.FINES`. */
  datatype Entry = Entry(year: JsNum, state: Option<string>, fines: JsNum)

  function ToEntry(d: Row): (e: Entry)
    ensures e.state.None? <==> "JURISDICTION" !in d
  {
    Entry(Plus(Cell(d, "YEAR")),
          if "JURISDICTION" in d then Some(Trim(d["JURISDICTION"])) else None,
          Plus(Cell(d, "FINES")))
  }

  /** The stored code has no surrounding white space. */
  lemma ToEntryTrimsState(d: Row)
    requires "JURISDICTION" in d
    ensures ToEntry(d).state.Some?
    ensures var s := ToEntry(d).state.value; s == [] || (!IsWhite(s[0]) && !IsWhite(s[|s| - 1]))
  {
    var t := TrimStart(d["JURISDICTION"]);
    assert ToEntry(d).state.value == TrimEnd(t);
  }

  /** A row whose YEAR and FINES cells hold whole numbers is filed under those numbers. */
  lemma ToEntryOfIntegers(d: Row, year: int, fines: int)
    requires "YEAR" in d && d["YEAR"] == IntToString(year)
    requires "FINES" in d && d["FINES"] == IntToString(fines)
    ensures ToEntry(d).year == Num(year as real) && ToEntry(d).fines == Num(fines as real)
  {
    ToNumberOfIntToString(year);
    ToNumberOfIntToString(fines);
  }

  function Entries(rows: seq<Row>): (r: seq<Entry>)
    ensures |r| == |rows| && forall i | 0 <= i < |rows| :: r[i] == ToEntry(rows[i])
  {
    seq(|rows|, i requires 0 <= i < |rows| => ToEntry(rows[i]))
  }

  /** `dataMap[year][state]`, or `None` for `undefined`. */
  function Lookup(m: Table, year: JsNum, state: string): Option<JsNum> {
    if year in m && state in m[year] then Some(m[year][state]) else None
  }

  /** One step of the `forEach`: creates the year's object when absent, then sets the entry. */
  function Insert(m: Table, e: Entry): Table
    requires e.state.Some?
  {
    var inner := if e.year in m then m[e.year] else map[];
    m[e.year := inner[e.state.value := e.fines]]
  }

  predicate FiledUnder(e: Entry, year: JsNum, state: string) {
    e.state == Some(state) && e.year == year
  }

  /** A step sets the row's own entry and leaves every other entry as it was. */
  lemma InsertLookup(m: Table, e: Entry, year: JsNum, state: string)
    requires e.state.Some?
    ensures FiledUnder(e, year, state) ==> Lookup(Insert(m, e), year, state) == Some(e.fines)
    ensures !FiledUnder(e, year, state) ==> Lookup(Insert(m, e), year, state) == Lookup(m, year, state)
  {
    var r := Insert(m, e);
    if year != e.year {
      assert (year in r) == (year in m);
      if year in m {
        assert r[year] == m[year];
      }
    }
  }

  /** The table after the `forEach` over the entries, which stops at the first one without
      a jurisdiction (the exception leaves what was filed so far). */
  function Fill(m: Table, entries: seq<Entry>): Table
    decreases |entries|
  {
    if entries == [] || entries[0].state.None? then m
    else Fill(Insert(m, entries[0]), entries[1..])
  }

  predicate AllHaveState(entries: seq<Entry>) {
    forall i | 0 <= i < |entries| :: entries[i].state.Some?
  }

  /** The FINES of the last entry filed under (year, state), if any. */
  function LastFines(entries: seq<Entry>, year: JsNum, state: string): (r: Option<JsNum>)
    ensures r.None? <==> forall i | 0 <= i < |entries| :: !FiledUnder(entries[i], year, state)
    ensures r.Some? ==> exists k | 0 <= k < |entries| :: && FiledUnder(entries[k], year, state)
                                                        && r.value == entries[k].fines
                                                        && forall j | k < j < |entries| :: !FiledUnder(entries[j], year, state)
  {
    if entries == [] then None
    else
      var rest := LastFines(entries[1..], year, state);
      assert forall i | 1 <= i < |entries| :: entries[i] == entries[1..][i - 1];
      if rest.Some? then
        var k :| 0 <= k < |entries[1..]| && FiledUnder(entries[1..][k], year, state)
                 && rest.value == entries[1..][k].fines
                 && forall j | k < j < |entries[1..]| :: !FiledUnder(entries[1..][j], year, state);
        assert FiledUnder(entries[k + 1], year, state);
        rest
      else if FiledUnder(entries[0], year, state) then Some(entries[0].fines)
      else None
  }

  /** Later rows overwrite earlier ones: an entry holds the FINES of the last row with its
      key, and a key no row has keeps its earlier entry. */
  lemma {:induction false} FillLastRowWins(m: Table, entries: seq<Entry>, year: JsNum, state: string)
    requires AllHaveState(entries)
    ensures Lookup(Fill(m, entries), year, state)
      == if LastFines(entries, year, state).Some? then LastFines(entries, year, state) else Lookup(m, year, state)
    decreases |entries|
  {
    if entries != [] {
      var rest := entries[1..];
      assert AllHaveState(rest) by {
        forall i | 0 <= i < |rest| ensures rest[i].state.Some? {
          assert rest[i] == entries[i + 1];
        }
      }
      FillLastRowWins(Insert(m, entries[0]), rest, year, state);
      InsertLookup(m, entries[0], year, state);
    }
  }

  lemma FillStep(m: Table, entries: seq<Entry>, i: nat)
    requires i < |entries| && entries[i].state.Some?
    ensures Fill(m, entries[i..]) == Fill(Insert(m, entries[i]), entries[i + 1..])
  {
    assert entries[i..][0] == entries[i] && entries[i..][1..] == entries[i + 1..];
  }

  /** A row without a JURISDICTION column ends the fill: nothing from it or after it is filed. */
  lemma {:induction false} FillStopsAtMissingState(m: Table, entries: seq<Entry>, k: nat)
    requires k < |entries| && entries[k].state.None?
    ensures Fill(m, entries) == Fill(m, entries[..k])
    decreases k
  {
    if k > 0 {
      assert entries[..k][0] == entries[0] && entries[..k][1..] == entries[1..][..k - 1];
      if entries[0].state.Some? {
        FillStopsAtMissingState(Insert(m, entries[0]), entries[1..], k - 1);
      }
    }
  }

  /** `getValue(stateCode, year)`: the stored value, or 0 for a falsy code or a missing entry. */
  function GetValue(m: Table, stateCode: Option<string>, year: JsNum): JsNum {
    if !Truthy(stateCode) then Num(0.0)
    else
      match Lookup(m, year, stateCode.value)
      case Some(v) => v
      case None => Num(0.0)
  }

  /** After a complete load, a jurisdiction's value for a year is the FINES of the last row
      with that year and code, and 0 when no row has them. */
  lemma ValueAfterLoad(entries: seq<Entry>, code: string, year: JsNum)
    requires AllHaveState(entries) && code != ""
    ensures LastFines(entries, year, code).Some? ==>
      GetValue(Fill(map[], entries), Some(code), year) == LastFines(entries, year, code).value
    ensures LastFines(entries, year, code).None? ==> GetValue(Fill(map[], entries), Some(code), year) == Num(0.0)
  {
    FillLastRowWins(map[], entries, year, code);
  }

  // ---------------------------------------------------------------------------
  // GeoJSON features

  /** `geoToCsv`. */
  const GeoToCsv: map<string, string> := map[
    "New South Wales" := "NSW",
    "Victoria" := "VIC",
    "Queensland" := "QLD",
    "South Australia" := "SA",
    "Western Australia" := "WA",
    "Tasmania" := "TAS",
    "Northern Territory" := "NT",
    "Australian Capital Territory" := "ACT"
  ]

  /** The state code of a feature: `geoToCsv[d.properties.STATE_NAME || d.properties.STE_NAME16]`. */
  function StateCode(properties: map<string, string>): Option<string> {
    var rawName := Or(Cell(properties, "STATE_NAME"), Cell(properties, "STE_NAME16"));
    if rawName.Some? && rawName.value in GeoToCsv then Some(GeoToCsv[rawName.value]) else None
  }

  /** The number the fill colour of a feature is computed from. */
  function FeatureValue(m: Table, properties: map<string, string>, year: JsNum): (r: JsNum)
    ensures StateCode(properties).None? ==> r == Num(0.0)
  {
    GetValue(m, StateCode(properties), year)
  }

  /** A feature whose name the table does not know is coloured as 0; a known one shows the
      value stored under its code. */
  lemma FeatureValueSpec(m: Table, properties: map<string, string>, year: JsNum)
    ensures var name := Or(Cell(properties, "STATE_NAME"), Cell(properties, "STE_NAME16"));
      && ((name.None? || name.value !in GeoToCsv) ==> FeatureValue(m, properties, year) == Num(0.0))
      && (name.Some? && name.value in GeoToCsv && Lookup(m, year, GeoToCsv[name.value]).Some? ==>
            FeatureValue(m, properties, year) == Lookup(m, year, GeoToCsv[name.value]).value)
  {
    var name := Or(Cell(properties, "STATE_NAME"), Cell(properties, "STE_NAME16"));
    if name.Some? && name.value in GeoToCsv {
      assert GeoToCsv[name.value] != "";
    }
  }

  /** Distinct state names get distinct codes, so no two states share a colour source. */
  lemma GeoToCsvInjective(a: string, b: string)
    requires a in GeoToCsv && b in GeoToCsv && a != b
    ensures GeoToCsv[a] != GeoToCsv[b]
  {
    assert GeoToCsv.Keys == {"New South Wales", "Victoria", "Queensland", "South Australia",
      "Western Australia", "Tasmania", "Northern Territory", "Australian Capital Territory"};
  }

  // ---------------------------------------------------------------------------
  // The year

  const FirstYear := 2008
  const LastYear := 2024

  /** One firing of the play interval: the next year, wrapping after 2024. A year that is
      not below 2024 (including NaN) goes back to 2008. */
  function NextYear(y: JsNum): (r: JsNum)
    ensures Less(y, Num(LastYear as real)) ==> r == Num(y.v + 1.0)
    ensures !Less(y, Num(LastYear as real)) ==> r == Num(FirstYear as real)
  {
    if Less(y, Num(LastYear as real)) then Num(y.v + 1.0) else Num(FirstYear as real)
  }

  predicate InRange(y: JsNum) {
    y.Num? && Integral(y) && FirstYear as real <= y.v <= LastYear as real
  }

  /** Ticking keeps a whole year within 2008..2024. */
  lemma TickStaysInRange(y: JsNum)
    requires InRange(y)
    ensures InRange(NextYear(y))
  {
    if y.v < LastYear as real {
      assert y.v + 1.0 == (y.v.Floor + 1) as real;
    }
  }

  function YearNum(n: int): JsNum {
    Num(n as real)
  }

  function Ticks(y: JsNum, k: nat): JsNum {
    if k == 0 then y else NextYear(Ticks(y, k - 1))
  }

  /** After k ticks from year n the map shows 2008 + (n - 2008 + k) mod 17. */
  lemma {:induction false} TicksCycle(n: int, k: nat)
    requires FirstYear <= n <= LastYear
    ensures Ticks(YearNum(n), k) == YearNum(FirstYear + (n - FirstYear + k) % 17)
  {
    if k > 0 {
      TicksCycle(n, k - 1);
      ModSeventeenStep(n - FirstYear + k - 1);
    }
  }

  /** One more step around the cycle of seventeen years. */
  lemma ModSeventeenStep(x: nat)
    ensures (x + 1) % 17 == if x % 17 < 16 then x % 17 + 1 else 0
  {
    var q, r := x / 17, x % 17;
    assert x == 17 * q + r;
    if r < 16 {
      assert x + 1 == 17 * q + (r + 1);
    } else {
      assert x + 1 == 17 * (q + 1);
    }
  }

  /** Playing through all seventeen years comes back to the starting year. */
  lemma PlayReturnsAfterSeventeen(n: int)
    requires FirstYear <= n <= LastYear
    ensures Ticks(YearNum(n), 17) == YearNum(n)
    ensures forall k: nat | 0 < k < 17 :: Ticks(YearNum(n), k) != YearNum(n)
  {
    TicksCycle(n, 17);
    forall k: nat | 0 < k < 17 ensures Ticks(YearNum(n), k) != YearNum(n) {
      TicksCycle(n, k);
    }
  }

  // ---------------------------------------------------------------------------
  // The page state

  class HeatMapPage {
    var dataMap: Table
    var currentYear: JsNum
    var isPlaying: bool

    constructor ()
      ensures dataMap == map[] && currentYear == Num(FirstYear as real) && !isPlaying
    {
      dataMap := map[];
      currentYear := Num(FirstYear as real);
      isPlaying := false;
    }

    /** The `forEach` that fills `dataMap`; `completed` is false when a row without a
        JURISDICTION column threw. After such a throw the page registers no control, so
        the transitions below apply only after a completed load. */
    method Load(rows: seq<Row>) returns (completed: bool)
      modifies this
      ensures dataMap == Fill(old(dataMap), Entries(rows))
      ensures completed <==> AllHaveState(Entries(rows))
      ensures currentYear == old(currentYear) && isPlaying == old(isPlaying)
    {
      completed := FillFrom(Entries(rows));
    }

    /** The loop of `Load` over the rows' entries. */
    method FillFrom(entries: seq<Entry>) returns (completed: bool)
      modifies this
      ensures dataMap == Fill(old(dataMap), entries)
      ensures completed <==> AllHaveState(entries)
      ensures currentYear == old(currentYear) && isPlaying == old(isPlaying)
    {
      ghost var target := Fill(dataMap, entries);
      var i := 0;
      while i < |entries|
        invariant 0 <= i <= |entries|
        invariant forall j | 0 <= j < i :: entries[j].state.Some?
        invariant Fill(dataMap, entries[i..]) == target
        invariant currentYear == old(currentYear) && isPlaying == old(isPlaying)
      {
        if entries[i].state.None? {
          FillStopsAtMissingState(dataMap, entries[i..], 0);
          return false;
        }
        FillStep(dataMap, entries, i);
        dataMap := Insert(dataMap, entries[i]);
        i := i + 1;
      }
      return true;
    }

    /** `updateMap(year)`. */
    method UpdateMap(year: JsNum)
      modifies this
      ensures currentYear == year
      ensures dataMap == old(dataMap) && isPlaying == old(isPlaying)
    {
      currentYear := year;
    }

    method StartPlay()
      modifies this
      ensures isPlaying && currentYear == old(currentYear) && dataMap == old(dataMap)
    {
      isPlaying := true;
    }

    method StopPlay()
      modifies this
      ensures !isPlaying && currentYear == old(currentYear) && dataMap == old(dataMap)
    {
      isPlaying := false;
    }

    /** One firing of the play interval, which exists only while playing. */
    method Tick()
      requires isPlaying
      modifies this
      ensures currentYear == NextYear(old(currentYear))
      ensures InRange(old(currentYear)) ==> InRange(currentYear)
      ensures isPlaying && dataMap == old(dataMap)
    {
      if currentYear.Num? && currentYear.v < LastYear as real {
        UpdateMap(Num(currentYear.v + 1.0));
      } else {
        UpdateMap(Num(FirstYear as real));
      }
      if InRange(old(currentYear)) {
        TickStaysInRange(old(currentYear));
      }
    }

    /** The play button: pauses when playing, starts otherwise. */
    method PlayClick()
      modifies this
      ensures isPlaying == !old(isPlaying)
      ensures currentYear == old(currentYear) && dataMap == old(dataMap)
    {
      if isPlaying {
        StopPlay();
      } else {
        StartPlay();
      }
    }

    /** Moving the slider stops the animation and shows the chosen year. */
    method SliderInput(value: JsNum)
      modifies this
      ensures !isPlaying && currentYear == value && dataMap == old(dataMap)
    {
      if isPlaying {
        StopPlay();
      }
      UpdateMap(value);
    }

    /** The reset button. */
    method Reset()
      modifies this
      ensures !isPlaying && currentYear == Num(FirstYear as real) && dataMap == old(dataMap)
    {
      StopPlay();
      UpdateMap(Num(FirstYear as real));
    }
  }
}
