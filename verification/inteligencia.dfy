/**
 * inteligencia.py: the competitor scraper whose item loop has no `except` (the first item that
 * raises ends the run), the six-column CSV, and the classification with the unguarded model
 * call and the whole-word verdict.
 */
module Inteligencia {
  import opened Wrappers
  import opened Text
  import opened Json
  import opened JsonLd
  import opened Page
  import opened Fields
  import opened Frame
  import opened Table
  import opened Verdict
  import opened Ranking
  import opened Classification
  import opened Records

  /** The search term of the run. */
  const Term := "Smart Tv LG 50 4k Uhd Hdr Thinq Ai Pro Wi-fi Bluetooth Alexa Apple Airplay - 50tu801c0sa"

  /** `max_itens` of the run. */
  const MaxItens := 5

  /** The store title and status selectors of this file (single underscores). */
  const TitleSel := "p.ui-pdp-seller_title, span.ui-pdp-seller_title"
  const StatusSel := "p.ui-pdp-seller_status, span.ui-pdp-seller_status"

  /** The sold-quantity reads, in order. */
  const QtySelectors := ["div.ui-pdp-seller_headerinfo-containersubtitle-one-line p.ui-pdp-sellerheader_subtitle",
                         ".ui-pdp-subtitle"]

  /** `preco`: the structured-data price when truthy, kept without prefix; else the fraction read, prefixed when non-empty. */
  function CompetitorPriceOrEmpty(ld: Option<map<string, Json>>, p: Page): (r: Json)
    ensures Truthy(LdPrice(ld)) ==> r == LdPrice(ld)
    ensures !Truthy(LdPrice(ld)) ==> r == PrefixIfTruthy(p.inner("span.price-tag-fraction"))
  {
    if Truthy(LdPrice(ld)) then LdPrice(ld) else PrefixIfTruthy(p.inner("span.price-tag-fraction"))
  }

  /** The record of one loaded page; a label `evaluate` that raises is an error. */
  function Competitor(rt: Runtime, p: Page, stub: Stub, produto: string): (r: Result<Record>)
    ensures var ld := ExtractJsonLd(rt, p.scripts);
      var store := StoreChain(p, LdSellerName(ld), TitleSel, StatusSel);
      && (r.Err? <==> store.Err?)
      && (r.Ok? ==> r.value == Record(LdTitle(ld, stub.title), CompetitorPriceOrEmpty(ld, p), store.value,
                                      SoldQuantity(p, QtySelectors), produto, stub.href))
  {
    var ld := ExtractJsonLd(rt, p.scripts);
    match StoreChain(p, LdSellerName(ld), TitleSel, StatusSel)
    case Err(e) => Err(e)
    case Ok(loja) =>
      Ok(Record(LdTitle(ld, stub.title), CompetitorPriceOrEmpty(ld, p), loja, SoldQuantity(p, QtySelectors), produto, stub.href))
  }

  /**
   * When structured data is found the title is its `name`, None when that key is absent, even
   * though a listing title is at hand.
   */
  lemma TitleMayBeNone(rt: Runtime, p: Page, stub: Stub, produto: string)
    requires Found(ExtractJsonLd(rt, p.scripts)) && "name" !in ExtractJsonLd(rt, p.scripts).value
    requires Competitor(rt, p, stub, produto).Ok?
    ensures Competitor(rt, p, stub, produto).value.concorrente == JNull
  {
  }

  /** One iteration of the item loop: open the link, then read the page. */
  function Item(rt: Runtime, fetch: string -> Load, stub: Stub, produto: string): (r: Result<Record>)
    ensures fetch(stub.href).LoadFailed? ==> r.Err?
    ensures fetch(stub.href).Loaded? ==> r == Competitor(rt, fetch(stub.href).page, stub, produto)
    ensures r.Ok? ==> r.value.link == stub.href && r.value.principal == produto && r.value.qtdVendida != []
  {
    match fetch(stub.href)
    case LoadFailed => Err("navigation failed")
    case Loaded(p) => Competitor(rt, p, stub, produto)
  }

  /**
   * `scrape_mercado_livre(produto, max_itens)`: the first `max_itens` anchors; the loop has only
   * `try/finally`, so one item that raises ends the run with no records at all.
   */
  function Scrape(rt: Runtime, fetch: string -> Load, stubs: seq<Stub>, maxItens: int, produto: string): (r: Result<seq<Record>>)
    ensures r.Ok? <==> forall i :: 0 <= i < |Truncate(stubs, maxItens)| ==> Item(rt, fetch, stubs[i], produto).Ok?
    ensures r.Ok? ==> |r.value| == |Truncate(stubs, maxItens)|
    ensures r.Ok? ==> forall i :: 0 <= i < |r.value| ==>
      r.value[i] == Item(rt, fetch, stubs[i], produto).value && r.value[i].link == stubs[i].href && r.value[i].principal == produto
  {
    var todo := Truncate(stubs, maxItens);
    assert forall i :: 0 <= i < |todo| ==> todo[i] == stubs[i];
    AllSucceeded(MapItems((s: Stub) => Item(rt, fetch, s, produto), todo))
  }

  /** `salvar_csv`, `pd.read_csv`, then `aplicar_ia_csv` with the unguarded model call. */
  function Analyse(rt: Runtime, rs: seq<Record>, oracle: (string, string) -> Reply): (r: Result<Frame>)
    ensures r.Ok? ==> r.value.columns == WithCompat(CsvColumns) && |r.value.rows| == |rs| && WellFormed(r.value)
  {
    match ToFrame(rt, CsvColumns, AsMaps(rs))
    case Err(e) => Err(e)
    case Ok(table) => Classify(table, Unguarded(oracle))
  }

  /**
   * The analysis fails exactly when one of the model calls raises; otherwise there is a row per
   * record and a row is SIM exactly when its reply holds "SIM" as a whole word.
   */
  lemma AnalyseOutcome(rt: Runtime, rs: seq<Record>, oracle: (string, string) -> Reply)
    ensures Analyse(rt, rs, oracle).Err? <==> exists i :: 0 <= i < |rs| && ReplyFor(rt, oracle, rs[i]).Raised?
    ensures Analyse(rt, rs, oracle).Ok? ==>
      && |Analyse(rt, rs, oracle).value.rows| == |rs|
      && forall i :: 0 <= i < |rs| ==>
           (IsSim(Analyse(rt, rs, oracle).value.rows[i]) <==> HasWordSim(Upper(ReplyFor(rt, oracle, rs[i]).content)))
  {
    AnalyseFails(rt, rs, oracle);
    TableCells(rt, rs);
    TablePrompts(rt, rs, oracle);
    var t := ToFrame(rt, CsvColumns, AsMaps(rs)).value;
    UnguardedClassification(t, oracle);
  }

  /** The analysis fails exactly when one of the model calls raises. */
  lemma AnalyseFails(rt: Runtime, rs: seq<Record>, oracle: (string, string) -> Reply)
    ensures Analyse(rt, rs, oracle).Err? <==> exists i :: 0 <= i < |rs| && ReplyFor(rt, oracle, rs[i]).Raised?
  {
    TablePrompts(rt, rs, oracle);
    var t := ToFrame(rt, CsvColumns, AsMaps(rs)).value;
    TableCells(rt, rs);
    UnguardedClassification(t, oracle);
    if i :| 0 <= i < |rs| && ReplyFor(rt, oracle, rs[i]).Raised? {
      assert oracle(Render(t.rows[i][PrincipalCol]), Render(t.rows[i][CompetitorCol])).Raised?;
    }
    if Analyse(rt, rs, oracle).Err? {
      var i :| 0 <= i < |t.rows| && oracle(Render(t.rows[i][PrincipalCol]), Render(t.rows[i][CompetitorCol])).Raised?;
      assert i < |rs|;
      assert oracle(Render(t.rows[i][PrincipalCol]), Render(t.rows[i][CompetitorCol])) == ReplyFor(rt, oracle, rs[i]);
    }
  }

  /** The `__main__` block: scrape at most five items of the term, then analyse them. */
  function Run(rt: Runtime, fetch: string -> Load, stubs: seq<Stub>, oracle: (string, string) -> Reply): (r: Result<Frame>)
    ensures Scrape(rt, fetch, stubs, MaxItens, Term).Err? ==> r.Err?
    ensures Scrape(rt, fetch, stubs, MaxItens, Term).Ok? ==> r == Analyse(rt, Scrape(rt, fetch, stubs, MaxItens, Term).value, oracle)
  {
    match Scrape(rt, fetch, stubs, MaxItens, Term)
    case Err(e) => Err(e)
    case Ok(rs) => Analyse(rt, rs, oracle)
  }

  /**
   * A whole run succeeds exactly when every one of the first five items loads and reads without
   * raising and every model call answers; the table then has one row per item.
   */
  lemma RunOutcome(rt: Runtime, fetch: string -> Load, stubs: seq<Stub>, oracle: (string, string) -> Reply)
    ensures Run(rt, fetch, stubs, oracle).Ok? <==>
      && Scrape(rt, fetch, stubs, MaxItens, Term).Ok?
      && forall i :: 0 <= i < |Truncate(stubs, MaxItens)| ==>
           ReplyFor(rt, oracle, Scrape(rt, fetch, stubs, MaxItens, Term).value[i]).Replied?
    ensures Run(rt, fetch, stubs, oracle).Ok? ==> |Run(rt, fetch, stubs, oracle).value.rows| == |Truncate(stubs, MaxItens)|
  {
    var s := Scrape(rt, fetch, stubs, MaxItens, Term);
    if s.Ok? {
      AnalyseOutcome(rt, s.value, oracle);
    }
  }
}
