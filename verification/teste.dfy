/**
 * teste.py: the official Comprebel page with two price strategies, competitors whose store is
 * one read of a union selector, and the classification with the guarded substring verdict.
 */
module Teste {
  import opened Wrappers
  import opened Text
  import opened Json
  import opened JsonLd
  import opened Page
  import opened Fields
  import opened Frame
  import opened Table
  import opened Verdict
  import opened Ranking
  import opened Classification
  import opened Records

  /** The search term of the run. */
  const Term := "Smart Tv LG 50 4k Uhd Hdr Thinq Ai Pro Wi-fi Bluetooth Alexa Apple Airplay - 50tu801c0sa"

  /** `max_itens` of the run. */
  const MaxItens := 20

  /** The official price when neither strategy yields. */
  const NotFound := "N\U{e3}o encontrado"

  /** The store selector: three selectors joined by implicit string concatenation, with no spaces. */
  const StoreUnion := "a.ui-pdp-seller__link,span.ui-pdp-seller__label-text-with-icon,span.andes-money-amount__fraction"

  // ---------------------------------------------------------------------------
  // The official product (scrape_oficial_comprebel)
  // ---------------------------------------------------------------------------

  /**
   * The official price: a non-empty meta `content`, prefixed, else a non-empty money fraction,
   * prefixed, else "Não encontrado". The meta read has no `try`, so when it raises the run ends.
   */
  function OfficialPrice(p: Page): (r: Result<string>)
    ensures r.Err? <==> p.attr("meta[itemprop=\"price\"]").AttrRaised?
    ensures r.Ok? ==> (StartsWith(r.value, "R$ ") <==> r.value != NotFound)
    ensures r.Ok? && p.attr("meta[itemprop=\"price\"]").value.Some? && p.attr("meta[itemprop=\"price\"]").value.value != [] ==>
      r.value == "R$ " + p.attr("meta[itemprop=\"price\"]").value.value
    ensures r.Ok? && !(p.attr("meta[itemprop=\"price\"]").value.Some? && p.attr("meta[itemprop=\"price\"]").value.value != []) ==>
      r.value == (if p.inner("span.andes-money-amount__fraction").Some? && p.inner("span.andes-money-amount__fraction").value != []
                  then "R$ " + p.inner("span.andes-money-amount__fraction").value else NotFound)
  {
    assert !StartsWith(NotFound, "R$ ") by {
      assert NotFound[0] == 'N';
    }
    match p.attr("meta[itemprop=\"price\"]")
    case AttrRaised => Err("get_attribute raised")
    case AttrValue(meta) =>
      if meta.Some? && meta.value != [] then Ok("R$ " + meta.value)
      else
        var f := p.inner("span.andes-money-amount__fraction");
        Ok(if f.Some? && f.value != [] then "R$ " + f.value else NotFound)
  }

  /** The official record: the heading, the official price, the fixed store and quantity. */
  function OfficialRecord(p: Page, url: string, produto: string): (r: Result<Record>)
    ensures r.Err? <==> OfficialPrice(p).Err?
    ensures r.Ok? ==> r.value == Record(Read(p, "h1.ui-pdp-title"), JStr(OfficialPrice(p).value), JStr(OfficialStore),
                                        "Oficial", produto, url)
  {
    match OfficialPrice(p)
    case Err(e) => Err(e)
    case Ok(preco) => Ok(Record(Read(p, "h1.ui-pdp-title"), JStr(preco), JStr(OfficialStore), "Oficial", produto, url))
  }

  /** The official price is always a text that survives the CSV round trip. */
  lemma OfficialPriceIsText(p: Page)
    requires OfficialPrice(p).Ok?
    ensures OfficialPrice(p).value !in NaMarkers
  {
    var s := OfficialPrice(p).value;
    if s == NotFound {
      assert s[1] == '\U{e3}';
      NotAMarkerSecond(s);
    } else {
      assert s[..3] == "R$ ";
      assert s[0] == 'R';
      NotAMarker(s);
    }
  }

  // ---------------------------------------------------------------------------
  // Competitors (scrape_mercado_livre)
  // ---------------------------------------------------------------------------

  /** `loja`: the structured-data seller name when truthy, else one read of the union selector. */
  function CompetitorStore(ld: Option<map<string, Json>>, p: Page): (r: Json)
    ensures Truthy(LdSellerName(ld)) ==> r == LdSellerName(ld)
    ensures !Truthy(LdSellerName(ld)) ==> r == Read(p, StoreUnion)
  {
    Or(LdSellerName(ld), Read(p, StoreUnion))
  }

  /** The record of one loaded page; no read of this chain raises. */
  function Competitor(rt: Runtime, p: Page, stub: Stub, produto: string): (r: Record)
    ensures var ld := ExtractJsonLd(rt, p.scripts);
      r == Record(LdTitle(ld, stub.title), CompetitorPrice(ld, p), CompetitorStore(ld, p),
                  SoldQuantity(p, [".ui-pdp-subtitle"]), produto, stub.href)
    ensures r.qtdVendida != []
  {
    var ld := ExtractJsonLd(rt, p.scripts);
    Record(LdTitle(ld, stub.title), CompetitorPrice(ld, p), CompetitorStore(ld, p),
           SoldQuantity(p, [".ui-pdp-subtitle"]), produto, stub.href)
  }

  /** One iteration of the item loop: only a navigation that raises makes the item fail. */
  function Item(rt: Runtime, fetch: string -> Load, stub: Stub, produto: string): (r: Result<Record>)
    ensures r.Err? <==> fetch(stub.href).LoadFailed?
    ensures r.Ok? ==> r.value == Competitor(rt, fetch(stub.href).page, stub, produto)
  {
    match fetch(stub.href)
    case LoadFailed => Err("navigation failed")
    case Loaded(p) => Ok(Competitor(rt, p, stub, produto))
  }

  /**
   * `scrape_mercado_livre(produto, max_itens)`: the loop has only `try/finally`, so the run ends
   * when one of the first `max_itens` links fails to open; otherwise one record per link, in order.
   */
  function Scrape(rt: Runtime, fetch: string -> Load, stubs: seq<Stub>, maxItens: int, produto: string): (r: Result<seq<Record>>)
    ensures r.Ok? <==> forall i :: 0 <= i < |Truncate(stubs, maxItens)| ==> fetch(stubs[i].href).Loaded?
    ensures r.Ok? ==> |r.value| == |Truncate(stubs, maxItens)|
    ensures r.Ok? ==> forall i :: 0 <= i < |r.value| ==> r.value[i] == Competitor(rt, fetch(stubs[i].href).page, stubs[i], produto)
  {
    var todo := Truncate(stubs, maxItens);
    assert forall i :: 0 <= i < |todo| ==> todo[i] == stubs[i];
    AllSucceeded(MapItems((s: Stub) => Item(rt, fetch, s, produto), todo))
  }

  // ---------------------------------------------------------------------------
  // The run (__main__ and aplicar_ia_csv)
  // ---------------------------------------------------------------------------

  /** `salvar_csv`, `pd.read_csv`, then `aplicar_ia_csv` with the guarded model call. */
  function Analyse(rt: Runtime, rs: seq<Record>, oracle: (string, string) -> Reply): (r: Result<Frame>)
    ensures r.Ok? ==> r.value.columns == WithCompat(CsvColumns) && |r.value.rows| == |rs| && WellFormed(r.value)
  {
    match ToFrame(rt, CsvColumns, AsMaps(rs))
    case Err(e) => Err(e)
    case Ok(table) => Classify(table, Guarded(oracle))
  }

  /**
   * The analysis never fails: there is a row per record, and a row is SIM exactly when the
   * model answered and its reply holds "SIM" anywhere.
   */
  lemma AnalyseOutcome(rt: Runtime, rs: seq<Record>, oracle: (string, string) -> Reply)
    ensures Analyse(rt, rs, oracle).Ok?
    ensures |Analyse(rt, rs, oracle).value.rows| == |rs|
    ensures forall i :: 0 <= i < |rs| ==>
      var reply := ReplyFor(rt, oracle, rs[i]);
      (IsSim(Analyse(rt, rs, oracle).value.rows[i]) <==> reply.Replied? && Contains(Upper(reply.content), "SIM"))
  {
    TableCells(rt, rs);
    TablePrompts(rt, rs, oracle);
    var t := ToFrame(rt, CsvColumns, AsMaps(rs)).value;
    GuardedClassification(t, oracle);
  }

  /**
   * The `__main__` block: the official record first, then the competitors; a navigation that
   * raises or a meta read that raises ends the run.
   */
  function Run(rt: Runtime, official: Load, url: string, stubs: seq<Stub>, fetch: string -> Load,
               oracle: (string, string) -> Reply): (r: Result<Frame>)
    ensures r.Ok? <==>
      && official.Loaded? && OfficialRecord(official.page, url, Term).Ok?
      && Scrape(rt, fetch, stubs, MaxItens, Term).Ok?
  {
    match official
    case LoadFailed => Err("navigation failed")
    case Loaded(p) =>
      match OfficialRecord(p, url, Term)
      case Err(e) => Err(e)
      case Ok(o) =>
        match Scrape(rt, fetch, stubs, MaxItens, Term)
        case Err(e) => Err(e)
        case Ok(cs) =>
          AnalyseOutcome(rt, [o] + cs, oracle);
          Analyse(rt, [o] + cs, oracle)
  }

  /**
   * In a run that completes, the table has the official row and one row per competitor link,
   * the official row first with its store and price as scraped, and it is SIM exactly when the
   * model's reply for it holds "SIM".
   */
  lemma RunOfficialRow(rt: Runtime, p: Page, url: string, stubs: seq<Stub>, fetch: string -> Load,
                       oracle: (string, string) -> Reply)
    requires Run(rt, Loaded(p), url, stubs, fetch, oracle).Ok?
    ensures var t := Run(rt, Loaded(p), url, stubs, fetch, oracle).value;
      var o := OfficialRecord(p, url, Term).value;
      var reply := ReplyFor(rt, oracle, o);
      && |t.rows| == 1 + |Truncate(stubs, MaxItens)|
      && At(t.rows[0], StoreCol) == Str(OfficialStore)
      && At(t.rows[0], PriceCol) == Str(OfficialPrice(p).value)
      && (IsSim(t.rows[0]) <==> reply.Replied? && Contains(Upper(reply.content), "SIM"))
  {
    var o := OfficialRecord(p, url, Term).value;
    var rs := [o] + Scrape(rt, fetch, stubs, MaxItens, Term).value;
    assert Run(rt, Loaded(p), url, stubs, fetch, oracle) == Analyse(rt, rs, oracle);
    AnalyseOutcome(rt, rs, oracle);
    OfficialPriceIsText(p);
    AnalyseFirstRow(rt, rs, oracle, OfficialPrice(p).value);
  }

  /** A first record with the official store and a text price keeps both through the CSV and the classification. */
  lemma AnalyseFirstRow(rt: Runtime, rs: seq<Record>, oracle: (string, string) -> Reply, price: string)
    requires |rs| > 0 && rs[0].loja == JStr(OfficialStore) && rs[0].preco == JStr(price) && price !in NaMarkers
    ensures Analyse(rt, rs, oracle).Ok?
    ensures var t := Analyse(rt, rs, oracle).value;
      |t.rows| == |rs| && At(t.rows[0], StoreCol) == Str(OfficialStore) && At(t.rows[0], PriceCol) == Str(price)
  {
    AnalyseOutcome(rt, rs, oracle);
    TableStoreAndPrice(rt, rs);
    OfficialStoreIsText();
    var table := ToFrame(rt, CsvColumns, AsMaps(rs)).value;
    assert StoreCol != Compat && PriceCol != Compat;
    assert table.rows[0][StoreCol] == Str(OfficialStore) && table.rows[0][PriceCol] == Str(price);
    GuardedClassification(table, oracle);
  }

  /** The store name of the official record is not an NA marker. */
  lemma OfficialStoreIsText()
    ensures OfficialStore !in NaMarkers
  {
    assert OfficialStore[0] == 'C';
  }
}
