/**
 * The six-field record that inteligencia.py and teste.py append for every product, the CSV it is
 * written to (`concorrente`, `Preço`, `Loja`, `qtd_vendida`, `link`, `principal`) and how it
 * reads back.
 */
module Records {
  import opened Json
  import opened Frame
  import opened Table
  import opened Verdict
  import opened Ranking
  import opened Classification

  /** One record as appended to `resultados`, with the keys in the order of the dict literal. */
  datatype Record = Record(concorrente: Json, preco: Json, loja: Json, qtdVendida: string, principal: string, link: string)

  /** The `fieldnames` of `salvar_csv`. */
  const CsvColumns := [CompetitorCol, PriceCol, StoreCol, "qtd_vendida", "link", PrincipalCol]

  /** The dict written for one record. */
  function AsMap(r: Record): (m: map<string, Json>)
    ensures m.Keys == set c | c in CsvColumns
    ensures m[CompetitorCol] == r.concorrente && m[PrincipalCol] == JStr(r.principal)
  {
    map[CompetitorCol := r.concorrente, PriceCol := r.preco, StoreCol := r.loja, "qtd_vendida" := JStr(r.qtdVendida),
        "link" := JStr(r.link), PrincipalCol := JStr(r.principal)]
  }

  /** The dicts of all records, in order. */
  function AsMaps(rs: seq<Record>): (ms: seq<map<string, Json>>)
    ensures |ms| == |rs| && forall i :: 0 <= i < |rs| ==> ms[i] == AsMap(rs[i])
  {
    seq(|rs|, i requires 0 <= i < |rs| => AsMap(rs[i]))
  }

  /** The reply the model gives for record `r`, its two cells rendered as the prompt shows them. */
  function ReplyFor(rt: Runtime, oracle: (string, string) -> Reply, r: Record): (rep: Reply)
    ensures r.principal !in NaMarkers && r.concorrente.JStr? && r.concorrente.s !in NaMarkers ==>
      rep == oracle(r.principal, r.concorrente.s)
    ensures r.principal !in NaMarkers && r.concorrente.JNull? ==> rep == oracle(r.principal, "nan")
  {
    CellRoundTrip(rt, JStr(r.principal));
    CellRoundTrip(rt, r.concorrente);
    oracle(Render(CellOf(rt, JStr(r.principal))), Render(CellOf(rt, r.concorrente)))
  }

  /** The records read back from the CSV: the prompt cells of row `i` are those of record `i`. */
  lemma TableCells(rt: Runtime, rs: seq<Record>)
    ensures ToFrame(rt, CsvColumns, AsMaps(rs)).Ok?
    ensures var t := ToFrame(rt, CsvColumns, AsMaps(rs)).value;
      && WellFormed(t) && |t.rows| == |rs| && PrincipalCol in t.columns && CompetitorCol in t.columns
      && forall i :: 0 <= i < |rs| ==>
           t.rows[i][PrincipalCol] == CellOf(rt, JStr(rs[i].principal)) && t.rows[i][CompetitorCol] == CellOf(rt, rs[i].concorrente)
  {
    var t := ToFrame(rt, CsvColumns, AsMaps(rs));
    assert t.Ok?;
    assert PrincipalCol in CsvColumns && CompetitorCol in CsvColumns;
  }

  /** The prompt of row `i` of the table read back is the prompt of record `i`. */
  lemma TablePrompts(rt: Runtime, rs: seq<Record>, oracle: (string, string) -> Reply)
    ensures ToFrame(rt, CsvColumns, AsMaps(rs)).Ok?
    ensures var t := ToFrame(rt, CsvColumns, AsMaps(rs)).value;
      forall i :: 0 <= i < |rs| ==>
        && i < |t.rows| && PrincipalCol in t.rows[i] && CompetitorCol in t.rows[i]
        && oracle(Render(At(t.rows[i], PrincipalCol)), Render(At(t.rows[i], CompetitorCol))) == ReplyFor(rt, oracle, rs[i])
        && oracle(Render(t.rows[i][PrincipalCol]), Render(t.rows[i][CompetitorCol])) == ReplyFor(rt, oracle, rs[i])
  {
    TableCells(rt, rs);
  }

  /** The store and price cells of every row read back are those of its record. */
  lemma TableStoreAndPrice(rt: Runtime, rs: seq<Record>)
    ensures ToFrame(rt, CsvColumns, AsMaps(rs)).Ok?
    ensures var t := ToFrame(rt, CsvColumns, AsMaps(rs)).value;
      && StoreCol in t.columns && PriceCol in t.columns
      && forall i :: 0 <= i < |rs| ==>
           i < |t.rows| && t.rows[i][StoreCol] == CellOf(rt, rs[i].loja) && t.rows[i][PriceCol] == CellOf(rt, rs[i].preco)
  {
    var t := ToFrame(rt, CsvColumns, AsMaps(rs));
    assert t.Ok?;
    assert StoreCol in CsvColumns && PriceCol in CsvColumns;
  }
}
