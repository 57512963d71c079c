/**
 * CSV rows as `d3.csv` hands them to the scripts, and the coercions the scripts apply to
 * their cells: property access that may be `undefined`, `||` and `??` fall-backs between
 * column names, and unary `+`.
 */
module Csv {
  import opened Wrappers
  import opened JsValues

  /** One data line: header name to cell text (every cell of a d3.csv row is a string). */
  type Row = map<string, string>

  /** A parsed file: the header's column names in order (`Object.keys(rows[0])`) and the rows. */
  datatype Table = Table(columns: seq<string>, rows: seq<Row>)

  /** What `await d3.csv(path)` produced: a rejection, an array of rows, or a value that is
      not an array. */
  datatype Fetch = Rejected | Resolved(table: Table) | ResolvedNonArray

  /** `row[name]`: the cell text, or `undefined` when the column does not exist. */
  function Cell(row: Row, name: string): Option<string> {
    if name in row then Some(row[name]) else None
  }

  /** A string value is truthy unless it is empty; `undefined` is falsy. */
  predicate Truthy(c: Option<string>) {
    c.Some? && c.value != ""
  }

  /** `a || b`. */
  function Or(a: Option<string>, b: Option<string>): Option<string> {
    if Truthy(a) then a else b
  }

  /** `a ?? b`: `b` only when `a` is `undefined`. */
  function Coalesce(a: Option<string>, b: Option<string>): Option<string> {
    if a.Some? then a else b
  }

  /** `+c`: `undefined` is NaN, a string is read by ToNumber. */
  function Plus(c: Option<string>): JsNum {
    if c.Some? then ToNumber(c.value) else NaN
  }

  /** `(raw === '' || raw == null) ? null : +raw`. */
  function NullableNumber(c: Option<string>): (r: Option<JsNum>)
    ensures r.None? <==> !Truthy(c)
    ensures r.Some? ==> r.value == ToNumber(c.value)
  {
    if !Truthy(c) then None else Some(ToNumber(c.value))
  }

  /** A missing or empty cell is `null`; the text of a whole number reads as that number. */
  lemma NullableNumberOfText(n: int)
    ensures NullableNumber(None) == None
    ensures NullableNumber(Some("")) == None
    ensures NullableNumber(Some(IntToString(n))) == Some(Num(n as real))
  {
    ToNumberOfIntToString(n);
    assert IntToString(n) != "";
  }

  /**
   * The `while (current < possiblePaths.length)` loop of both loaders: the index of the
   * first path whose fetch `accept`s, every earlier path having been tried and refused.
   */
  function FirstAccepted(paths: seq<string>, fetch: string -> Fetch, accept: Fetch -> bool): (r: Option<nat>)
    ensures r.Some? ==> r.value < |paths| && accept(fetch(paths[r.value]))
    ensures r.Some? ==> forall j | 0 <= j < r.value :: !accept(fetch(paths[j]))
    ensures r.None? <==> forall j | 0 <= j < |paths| :: !accept(fetch(paths[j]))
  {
    if paths == [] then None
    else if accept(fetch(paths[0])) then Some(0)
    else
      var rest := FirstAccepted(paths[1..], fetch, accept);
      assert forall j | 1 <= j < |paths| :: paths[j] == paths[1..][j - 1];
      if rest.None? then None else Some(rest.value + 1)
  }
}
