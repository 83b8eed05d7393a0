/**
 * The upload page: turning a chosen `.json` or `.csv` file into roots and handing them to
 * the data context. `JSON.parse`, the CSV parser and `parseInt` are foreign parsers and
 * appear only through their results (`FileReading`, `Parsers`).
 */
module Upload {
  import opened Wrappers
  import opened Types
  import opened Sequences
  import opened RootMerge
  import DataContext

  const JSON_EMPTY_ERROR := "No valid roots found in JSON"
  const CSV_EMPTY_ERROR := "No valid roots found in CSV"
  const UNSUPPORTED_FORMAT := "Unsupported file format." + " Please upload .json or .csv"
  /** What reading a property of `null` throws (V8's wording). */
  const NULL_PROPERTY_ERROR := "Cannot read properties of null (reading 'roots')"
  const DEFAULT_DIFFICULTY := 1
  const DEFAULT_FREQUENCY_RANK := 999

  /** `s.endsWith(suffix)`. */
  predicate EndsWith(s: string, suffix: string) {
    |suffix| <= |s| && s[|s| - |suffix|..] == suffix
  }

  /** A name ends with a suffix exactly when it is some text followed by that suffix. */
  lemma EndsWithAppend(s: string, suffix: string)
    ensures EndsWith(s, suffix) <==> exists stem :: s == stem + suffix
  {
    if EndsWith(s, suffix) {
      assert s == s[..|s| - |suffix|] + suffix;
    }
    if exists stem :: s == stem + suffix {
      var stem :| s == stem + suffix;
      assert s[|stem|..] == suffix;
    }
  }

  // ----- JSON files -----

  /**
   * A parsed JSON document, as far as the page looks at it: an array of roots, an object
   * whose `roots` and `data` properties are either absent/falsy (`None`) or arrays of roots,
   * `null`, or any other scalar.
   */
  datatype JsonDoc =
    | JArray(items: seq<ArabicRoot>)
    | JObject(roots: Option<seq<ArabicRoot>>, data: Option<seq<ArabicRoot>>)
    | JNull
    | JScalar

  /**
   * `Array.isArray(data) ? data : (data.roots || data.data || [])`. An array is truthy even
   * when empty, so a present `roots` wins over `data`; reading a property of `null` throws.
   */
  function SelectRoots(doc: JsonDoc): (r: Result<seq<ArabicRoot>>)
    ensures doc.JArray? ==> r == Ok(doc.items)
    ensures doc.JObject? && doc.roots.Some? ==> r == Ok(doc.roots.value)
    ensures doc.JObject? && doc.roots.None? && doc.data.Some? ==> r == Ok(doc.data.value)
    ensures doc.JObject? && doc.roots.None? && doc.data.None? ==> r == Ok([])
    ensures doc.JScalar? ==> r == Ok([])
    ensures r.Err? <==> doc.JNull?
  {
    match doc
    case JArray(items) => Ok(items)
    case JObject(roots, data) =>
      if roots.Some? then Ok(roots.value) else if data.Some? then Ok(data.value) else Ok([])
    case JNull => Err(NULL_PROPERTY_ERROR)
    case JScalar => Ok([])
  }

  // ----- CSV files -----

  /** One CSV record read with a header row: column name to cell text; short rows lack columns. */
  type Row = map<string, string>

  /** The foreign parsers a CSV row goes through. */
  datatype Parsers = Parsers(
    parseInt: string -> Option<int>,
    parseLetters: string -> Result<seq<string>>,
    parseWords: string -> Result<seq<CommonWord>>)

  /** `s.replace(/'/g, '"')`. */
  function ReplaceQuotes(s: string): (r: string)
    ensures |r| == |s|
    ensures forall i :: 0 <= i < |s| ==> r[i] == if s[i] == '\'' then '"' else s[i]
    ensures '\'' !in r
  {
    if s == [] then []
    else [if s[0] == '\'' then '"' else s[0]] + ReplaceQuotes(s[1..])
  }

  /** `parseInt(cell) || fallback`: the parsed integer unless it is `NaN` (`None`) or 0. */
  function IntOr(parsed: Option<int>, fallback: int): (r: int)
    ensures parsed.Some? && parsed.value != 0 ==> r == parsed.value
    ensures parsed.None? || parsed.value == 0 ==> r == fallback
    ensures fallback != 0 ==> r != 0
  {
    if parsed.Some? && parsed.value != 0 then parsed.value else fallback
  }

  /** A text cell; a missing one is read as the empty string. */
  function Cell(row: Row, column: string): string {
    if column in row then row[column] else ""
  }

  /** An integer cell: `parseInt` of the text, `NaN` for a missing cell. */
  function IntCell(row: Row, column: string, p: Parsers): Option<int> {
    if column in row then p.parseInt(row[column]) else None
  }

  /** A list cell: `[]` when missing or empty, else the parse of the text with `'` turned into `"`. */
  function ListCell<T>(row: Row, column: string, parse: string -> Result<seq<T>>): (r: Result<seq<T>>)
    ensures (column !in row || row[column] == "") ==> r == Ok([])
    ensures (column in row && row[column] != "") ==> r == parse(ReplaceQuotes(row[column]))
  {
    if column in row && row[column] != "" then parse(ReplaceQuotes(row[column])) else Ok([])
  }

  /** The root a CSV row describes, or the error its list cells throw. */
  function RowToRoot(row: Row, p: Parsers): Result<ArabicRoot> {
    var letters := ListCell(row, "root_letters", p.parseLetters);
    var words := ListCell(row, "common_words", p.parseWords);
    if letters.Err? then Err(letters.message)
    else if words.Err? then Err(words.message)
    else Ok(ArabicRoot(
      if "id" in row then StrId(row["id"]) else UndefinedId,
      Cell(row, "root_arabic"),
      Cell(row, "root_transliterated"),
      letters.value,
      Cell(row, "core_meaning"),
      words.value,
      IntOr(IntCell(row, "difficulty", p), DEFAULT_DIFFICULTY),
      IntOr(IntCell(row, "frequency_rank", p), DEFAULT_FREQUENCY_RANK)))
  }

  /**
   * What every row maps to: its fields and defaults, or the error of its first list cell
   * that fails. The id is always the cell's text or `undefined`, never a number.
   */
  lemma RowToRootFields(row: Row, p: Parsers)
    ensures var r := RowToRoot(row, p);
      && (r.Err? <==> ListCell(row, "root_letters", p.parseLetters).Err?
                      || ListCell(row, "common_words", p.parseWords).Err?)
      && (r.Err? ==> r.message == if ListCell(row, "root_letters", p.parseLetters).Err?
                                  then ListCell(row, "root_letters", p.parseLetters).message
                                  else ListCell(row, "common_words", p.parseWords).message)
      && (r.Ok? ==>
            && r.value.id == (if "id" in row then StrId(row["id"]) else UndefinedId)
            && !r.value.id.NumId?
            && r.value.root_arabic == Cell(row, "root_arabic")
            && r.value.root_transliterated == Cell(row, "root_transliterated")
            && r.value.core_meaning == Cell(row, "core_meaning")
            && r.value.difficulty == IntOr(IntCell(row, "difficulty", p), DEFAULT_DIFFICULTY)
            && r.value.frequency_rank == IntOr(IntCell(row, "frequency_rank", p), DEFAULT_FREQUENCY_RANK)
            && r.value.root_letters == ListCell(row, "root_letters", p.parseLetters).value
            && r.value.common_words == ListCell(row, "common_words", p.parseWords).value
            && r.value.difficulty != 0 && r.value.frequency_rank != 0
            && (IntCell(row, "difficulty", p).None? || IntCell(row, "difficulty", p).value == 0
                ==> r.value.difficulty == DEFAULT_DIFFICULTY)
            && (IntCell(row, "frequency_rank", p).None? || IntCell(row, "frequency_rank", p).value == 0
                ==> r.value.frequency_rank == DEFAULT_FREQUENCY_RANK))
  {
  }

  /** `rows.map(...)`: every row mapped, or the error of the first row that throws. */
  function MapRows(rows: seq<Row>, p: Parsers): (r: Result<seq<ArabicRoot>>)
    ensures r.Ok? ==> |r.value| == |rows| && forall i :: 0 <= i < |rows| ==> RowToRoot(rows[i], p) == Ok(r.value[i])
    ensures r.Err? ==> exists i :: 0 <= i < |rows| && RowToRoot(rows[i], p) == Err(r.message)
                                   && forall j :: 0 <= j < i ==> RowToRoot(rows[j], p).Ok?
  {
    if rows == [] then Ok([])
    else
      var head := RowToRoot(rows[0], p);
      if head.Err? then Err(head.message)
      else
        var tail := MapRows(rows[1..], p);
        if tail.Err? then
          var i :| 0 <= i < |rows[1..]| && RowToRoot(rows[1..][i], p) == Err(tail.message)
                   && forall j :: 0 <= j < i ==> RowToRoot(rows[1..][j], p).Ok?;
          assert RowToRoot(rows[i + 1], p) == Err(tail.message);
          Err(tail.message)
        else Ok([head.value] + tail.value)
  }

  /** `.filter(r => r.root_arabic)`: keep the roots whose Arabic form is not empty, in order. */
  function KeepNamed(roots: seq<ArabicRoot>): (r: seq<ArabicRoot>)
    ensures IsSubsequence(r, roots)
    ensures forall x :: x in r ==> x.root_arabic != ""
    ensures forall x :: x in roots && x.root_arabic != "" ==> x in r
    ensures forall x :: multiset(r)[x] == if x.root_arabic != "" then multiset(roots)[x] else 0
  {
    if roots == [] then []
    else if roots[0].root_arabic != "" then
      SubsequenceKeep(roots[0], KeepNamed(roots[1..]), roots[1..]);
      assert roots == [roots[0]] + roots[1..];
      [roots[0]] + KeepNamed(roots[1..])
    else
      SubsequenceSkip(roots[0], KeepNamed(roots[1..]), roots[1..]);
      assert roots == [roots[0]] + roots[1..];
      KeepNamed(roots[1..])
  }

  /**
   * The roots a parsed CSV file yields: the error of the first row that throws, or the
   * named roots of the rows in order, each with a string or `undefined` id.
   */
  function CsvRoots(rows: seq<Row>, p: Parsers): (r: Result<seq<ArabicRoot>>)
    ensures r.Err? <==> MapRows(rows, p).Err?
    ensures r.Ok? ==> r.value == KeepNamed(MapRows(rows, p).value)
    ensures r.Err? ==> exists i :: 0 <= i < |rows| && RowToRoot(rows[i], p) == Err(r.message)
                                   && forall j :: 0 <= j < i ==> RowToRoot(rows[j], p).Ok?
    ensures r.Ok? ==> forall x :: x in r.value ==>
      x.root_arabic != "" && !x.id.NumId? && exists i :: 0 <= i < |rows| && RowToRoot(rows[i], p) == Ok(x)
    ensures r.Ok? ==> forall i :: 0 <= i < |rows| && RowToRoot(rows[i], p).Ok?
                                  && RowToRoot(rows[i], p).value.root_arabic != "" ==>
      RowToRoot(rows[i], p).value in r.value
  {
    var mapped := MapRows(rows, p);
    if mapped.Err? then Err(mapped.message)
    else
      var kept := KeepNamed(mapped.value);
      forall x | x in kept ensures !x.id.NumId? && exists i :: 0 <= i < |rows| && RowToRoot(rows[i], p) == Ok(x) {
        var i :| 0 <= i < |mapped.value| && mapped.value[i] == x;
        RowToRootFields(rows[i], p);
      }
      Ok(kept)
  }

  // ----- The whole file -----

  /** The CSV parser's verdict on a file: its records, or its own error. */
  datatype PapaResult = Complete(rows: seq<Row>) | PapaError(message: string)

  /** What the foreign parsers make of the chosen file, read as JSON and as CSV. */
  datatype FileReading = FileReading(json: Result<JsonDoc>, csv: PapaResult)

  datatype Format = Json | Csv

  /** The decision taken before anything is uploaded: the roots to send, or the message to show. */
  datatype Plan = Submit(format: Format, roots: seq<ArabicRoot>) | Reject(message: string)

  /** The text the page shows after a successful upload of `n` roots. */
  function SuccessMessage(n: nat): string {
    "Successfully uploaded " + IntToString(n) + " roots."
  }

  /** The prefix the page puts before an error thrown on the JSON or the CSV path. */
  function ErrorPrefix(format: Format): string {
    if format == Json then "Error: " else "Error parsing CSV data: "
  }

  /** A message that starts with a letter other than `U` is not the unsupported-format one. */
  lemma {:induction false} NotUnsupported(prefix: string, m: string)
    requires |prefix| > 0 && prefix[0] != 'U'
    ensures prefix + m != UNSUPPORTED_FORMAT
  {
    UnsupportedStartsWithU();
    assert (prefix + m)[0] != UNSUPPORTED_FORMAT[0];
  }

  /** The success message names the number of roots uploaded and is never an error message. */
  lemma {:induction false} SuccessMessageSpec(n: nat, m: nat, format: Format, e: string)
    ensures SuccessMessage(n) == SuccessMessage(m) ==> n == m
    ensures SuccessMessage(n) != ErrorPrefix(format) + e
  {
    var pre, post := "Successfully uploaded ", " roots.";
    if SuccessMessage(n) == SuccessMessage(m) {
      var a, b := IntToString(n), IntToString(m);
      assert |a| == |b|;
      assert a == SuccessMessage(n)[|pre|..|pre| + |a|];
      assert b == SuccessMessage(m)[|pre|..|pre| + |b|];
      IntToStringInjective(n, m);
    }
    assert SuccessMessage(n)[0] == 'S';
    assert (ErrorPrefix(format) + e)[0] == 'E';
  }

  lemma UnsupportedStartsWithU()
    ensures UNSUPPORTED_FORMAT[0] == 'U'
  {
  }

  /** Everything the page decides from the file name and what the parsers returned. */
  function PlanUpload(name: string, reading: FileReading, p: Parsers): (r: Plan)
    ensures r.Submit? ==> |r.roots| > 0
    ensures r.Submit? && r.format == Json ==>
      EndsWith(name, ".json") && reading.json.Ok? && SelectRoots(reading.json.value) == Ok(r.roots)
    ensures r.Submit? && r.format == Csv ==>
      !EndsWith(name, ".json") && EndsWith(name, ".csv")
      && reading.csv.Complete? && CsvRoots(reading.csv.rows, p) == Ok(r.roots)
    ensures r == Reject(UNSUPPORTED_FORMAT) <==> !EndsWith(name, ".json") && !EndsWith(name, ".csv")
    ensures EndsWith(name, ".json") && reading.json.Ok? && SelectRoots(reading.json.value) == Ok([]) ==>
      r == Reject("Error: " + JSON_EMPTY_ERROR)
    ensures !EndsWith(name, ".json") && EndsWith(name, ".csv") && reading.csv.Complete?
            && CsvRoots(reading.csv.rows, p) == Ok([]) ==>
      r == Reject("Error parsing CSV data: " + CSV_EMPTY_ERROR)
    ensures EndsWith(name, ".json") && reading.json.Ok? && SelectRoots(reading.json.value).Ok?
            && |SelectRoots(reading.json.value).value| > 0 ==>
      r == Submit(Json, SelectRoots(reading.json.value).value)
    ensures !EndsWith(name, ".json") && EndsWith(name, ".csv") && reading.csv.Complete?
            && CsvRoots(reading.csv.rows, p).Ok? && |CsvRoots(reading.csv.rows, p).value| > 0 ==>
      r == Submit(Csv, CsvRoots(reading.csv.rows, p).value)
    ensures EndsWith(name, ".json") && reading.json.Err? ==> r == Reject("Error: " + reading.json.message)
    ensures EndsWith(name, ".json") && reading.json.Ok? && SelectRoots(reading.json.value).Err? ==>
      r == Reject("Error: " + SelectRoots(reading.json.value).message)
    ensures !EndsWith(name, ".json") && EndsWith(name, ".csv") && reading.csv.PapaError? ==>
      r == Reject("CSV Parse Error: " + reading.csv.message)
    ensures !EndsWith(name, ".json") && EndsWith(name, ".csv") && reading.csv.Complete?
            && CsvRoots(reading.csv.rows, p).Err? ==>
      r == Reject("Error parsing CSV data: " + CsvRoots(reading.csv.rows, p).message)
  {
    if EndsWith(name, ".json") then
      if reading.json.Err? then
        NotUnsupported("Error: ", reading.json.message);
        Reject("Error: " + reading.json.message)
      else
        var selected := SelectRoots(reading.json.value);
        if selected.Err? then
          NotUnsupported("Error: ", selected.message);
          Reject("Error: " + selected.message)
        else if |selected.value| == 0 then Reject("Error: " + JSON_EMPTY_ERROR)
        else Submit(Json, selected.value)
    else if EndsWith(name, ".csv") then
      if reading.csv.PapaError? then
        NotUnsupported("CSV Parse Error: ", reading.csv.message);
        Reject("CSV Parse Error: " + reading.csv.message)
      else
        var roots := CsvRoots(reading.csv.rows, p);
        if roots.Err? then
          NotUnsupported("Error parsing CSV data: ", roots.message);
          Reject("Error parsing CSV data: " + roots.message)
        else if |roots.value| == 0 then Reject("Error parsing CSV data: " + CSV_EMPTY_ERROR)
        else Submit(Csv, roots.value)
    else Reject(UNSUPPORTED_FORMAT)
  }

  /** An empty JSON `roots` array wins over a non-empty `data` one, and the file is refused. */
  lemma EmptyRootsArrayWins(name: string, data: seq<ArabicRoot>, p: Parsers)
    requires EndsWith(name, ".json")
    ensures PlanUpload(name, FileReading(Ok(JObject(Some([]), Some(data))), PapaError("")), p)
         == Reject("Error: " + JSON_EMPTY_ERROR)
  {
  }

  /** The page's own state. */
  class UploadPage {
    var loading: bool
    var message: string
    var success: bool

    constructor ()
      ensures !loading && message == "" && !success
    {
      loading := false;
      message := "";
      success := false;
    }

    /**
     * Handle a file chosen in the file input (`None`: the selection was cleared). The
     * upload goes through `ctx.UploadRoots`, whose remote replies are `upsert` and
     * `reloaded`; the page reports success with the count, or the error.
     */
    method HandleFileUpload(file: Option<string>, reading: FileReading, p: Parsers,
                            ctx: DataContext.Context, upsert: Outcome, reloaded: Option<seq<ArabicRoot>>)
      modifies this, ctx
      ensures file.None? ==>
        && loading == old(loading) && message == old(message) && success == old(success)
        && ctx.roots == old(ctx.roots) && ctx.store == old(ctx.store)
      ensures ctx.progress == old(ctx.progress) && ctx.loading == old(ctx.loading)
      ensures ctx.isMock && old(ctx.Synced()) ==> ctx.Synced()
      ensures file.Some? ==> !loading
      ensures file.Some? && PlanUpload(file.value, reading, p).Reject? ==>
        && message == PlanUpload(file.value, reading, p).message && !success
        && ctx.roots == old(ctx.roots) && ctx.store == old(ctx.store)
      ensures file.Some? && PlanUpload(file.value, reading, p).Submit? ==>
        var plan := PlanUpload(file.value, reading, p);
        && (ctx.isMock ==>
              && ctx.roots == Merge(old(ctx.roots), plan.roots)
              && ctx.store == old(ctx.store)[DataContext.MOCK_ROOTS_KEY := DataContext.RootsDoc(ctx.roots)])
        && (!ctx.isMock ==>
              && ctx.roots == (if upsert.Pass? && reloaded.Some? then reloaded.value else old(ctx.roots))
              && ctx.store == old(ctx.store))
        && success == (ctx.isMock || upsert.Pass?)
        && message == (if success then SuccessMessage(|plan.roots|)
                       else ErrorPrefix(plan.format) + upsert.message)
    {
      if file.None? {
        return;
      }
      loading := true;
      message := "";
      success := false;
      var plan := PlanUpload(file.value, reading, p);
      if plan.Reject? {
        message := plan.message;
      } else {
        var result := ctx.UploadRoots(plan.roots, upsert, reloaded);
        if result.Pass? {
          success := true;
          message := SuccessMessage(|plan.roots|);
        } else {
          message := ErrorPrefix(plan.format) + result.message;
        }
      }
      loading := false;
    }
  }
}
