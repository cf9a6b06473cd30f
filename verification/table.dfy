/**
 * The CSV hand-off between scraping and classification: `csv.DictWriter` writes the records,
 * `pd.read_csv` reads them back. A field is written as `str(value)` (None as the empty field) and
 * read back as NaN when it is one of pandas' default NA markers, as text otherwise.
 */
module Table {
  import opened Wrappers
  import opened Json
  import opened Frame

  /** The fields `pd.read_csv` reads as NaN by default. */
  const NaMarkers: set<string> := {"", "#N/A", "#N/A N/A", "#NA", "-1.#IND", "-1.#QNAN", "-NaN", "-nan",
                                   "1.#IND", "1.#QNAN", "<NA>", "N/A", "NA", "NULL", "NaN", "None",
                                   "n/a", "nan", "null"}

  /** A text whose first character starts no NA marker is not one. */
  lemma NotAMarker(s: string)
    requires s != [] && s[0] !in "#-1<Nn"
    ensures s !in NaMarkers
  {
  }

  /** A text whose second character is that of no NA marker is not one. */
  lemma NotAMarkerSecond(s: string)
    requires |s| >= 2 && s[1] !in "N1n./AUaou"
    ensures s !in NaMarkers
  {
  }

  /** The text `csv.DictWriter` writes for a value: "" for None, the string itself, else `str(v)`. */
  function FieldText(rt: Runtime, v: Json): (s: string)
    ensures v.JNull? ==> s == ""
    ensures v.JStr? ==> s == v.s
  {
    if v.JNull? then "" else PyStr(rt, v)
  }

  /** How `pd.read_csv` reads one field back. */
  function FieldCell(s: string): (x: Cell)
    ensures x == NaN <==> s in NaMarkers
    ensures x != NaN ==> x == Str(s)
  {
    if s in NaMarkers then NaN else Str(s)
  }

  /** One value after the round trip through the file. */
  function CellOf(rt: Runtime, v: Json): Cell {
    FieldCell(FieldText(rt, v))
  }

  /** A text that is not an NA marker survives the round trip unchanged; None always comes back as NaN. */
  lemma CellRoundTrip(rt: Runtime, v: Json)
    ensures v.JNull? ==> CellOf(rt, v) == NaN
    ensures v.JStr? && v.s !in NaMarkers ==> CellOf(rt, v) == Str(v.s) && Render(CellOf(rt, v)) == v.s
    ensures v.JStr? && v.s in NaMarkers ==> CellOf(rt, v) == NaN
  {
    assert "" in NaMarkers;
  }

  /** The row `read_csv` gives for one record: every field, a missing key written as "". */
  function RowOf(rt: Runtime, columns: seq<string>, rec: map<string, Json>): (row: map<string, Cell>)
    ensures row.Keys == set c | c in columns
    ensures forall c :: c in columns ==> row[c] == CellOf(rt, GetDefault(rec, c, JStr("")))
  {
    map c | c in columns :: CellOf(rt, GetDefault(rec, c, JStr("")))
  }

  /**
   * `salvar_csv` then `pd.read_csv`: a ValueError when a record has a key outside `fieldnames`,
   * otherwise the frame with those columns and one row per record, in order.
   */
  function ToFrame(rt: Runtime, columns: seq<string>, records: seq<map<string, Json>>): (r: Result<Frame>)
    ensures r.Err? <==> exists i, k :: 0 <= i < |records| && k in records[i] && k !in columns
    ensures r.Ok? ==> && r.value.columns == columns && |r.value.rows| == |records| && WellFormed(r.value)
                      && forall i :: 0 <= i < |records| ==> r.value.rows[i] == RowOf(rt, columns, records[i])
  {
    if exists i, k :: 0 <= i < |records| && k in records[i] && k !in columns then Err("ValueError")
    else Ok(Frame(columns, seq(|records|, i requires 0 <= i < |records| => RowOf(rt, columns, records[i]))))
  }
}
