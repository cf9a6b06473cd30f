/**
 * teste02.py: the official Comprebel page with its four price strategies, and the competitor
 * scraper that copies the official price into every record.
 */
module Teste02 {
  import opened Wrappers
  import opened Text
  import opened Json
  import opened JsonLd
  import opened Page
  import opened Fields
  import opened Frame
  import opened Table
  import opened Verdict
  import opened Ranking
  import opened Classification
  import opened Compatible

  /** One scraped record: the keys of the dict the scrapers append, in the source's order. */
  datatype Row = Row(
    concorrente: Json,
    preco: Json,
    precoOficial: Json,
    loja: Json,
    qtdVendida: string,
    principal: string,
    link: string)

  /** The official price when every strategy failed. */
  const PriceNotFound := "Pre\U{e7}o n\U{e3}o encontrado"

  /** The meta tag of strategy 1. */
  const MetaPrice := "meta[itemprop=\"price\"]"

  /** The money fraction of strategy 2. */
  const MoneyFraction := "span.andes-money-amount__fraction"

  /** The selectors of strategy 3, tried in order. */
  const PriceSelectors := ["span.ui-pdp-price__part", "div.ui-pdp-price__main-container",
                           "span.price-tag-fraction", "meta[property='product:price:amount']"]

  // ---------------------------------------------------------------------------
  // The official price (scrape_oficial_comprebel)
  // ---------------------------------------------------------------------------

  /** Strategy 1: a non-empty `content` of the price meta tag, prefixed; a read that raises is passed over. */
  function MetaStrategy(p: Page): (r: Option<string>)
    ensures r.Some? <==> p.attr(MetaPrice).AttrValue? && p.attr(MetaPrice).value.Some? && p.attr(MetaPrice).value.value != []
    ensures r.Some? ==> r.value == "R$ " + p.attr(MetaPrice).value.value
  {
    match p.attr(MetaPrice)
    case AttrRaised => None
    case AttrValue(o) => if o.Some? && o.value != [] then Some("R$ " + o.value) else None
  }

  /** Strategy 2: a non-empty money fraction, prefixed. */
  function FractionStrategy(p: Page): (r: Option<string>)
    ensures r.Some? <==> p.inner(MoneyFraction).Some? && p.inner(MoneyFraction).value != []
    ensures r.Some? ==> r.value == "R$ " + p.inner(MoneyFraction).value
  {
    var o := p.inner(MoneyFraction);
    if o.Some? && o.value != [] then Some("R$ " + o.value) else None
  }

  /** `f"R$ {v}" if not v.startswith("R$") else v`. */
  function WithReais(v: string): (r: string)
    ensures StartsWith(r, "R$")
    ensures StartsWith(v, "R$") ==> r == v
    ensures !StartsWith(v, "R$") ==> r == "R$ " + v
  {
    if StartsWith(v, "R$") then v else "R$ " + v
  }

  /** A value that already carries the currency is never prefixed twice. */
  lemma WithReaisIdempotent(v: string)
    ensures WithReais(WithReais(v)) == WithReais(v)
  {
  }

  /** A strategy-3 read: the `content` attribute for a selector starting with "meta", else the inner text. */
  function SelectorRead(p: Page, selector: string): AttrRead {
    if StartsWith(selector, "meta") then p.attr(selector) else AttrValue(p.inner(selector))
  }

  /** A read that ends the strategy-3 loop: it raised, or it gave a non-empty value. */
  predicate Stops(a: AttrRead) {
    a.AttrRaised? || (a.value.Some? && a.value.value != [])
  }

  /** The index of the first read in `selectors` that ends the loop, or `|selectors|`. */
  function StopIndex(p: Page, selectors: seq<string>): (k: nat)
    ensures k <= |selectors|
    ensures k < |selectors| ==> Stops(SelectorRead(p, selectors[k]))
    ensures forall j :: 0 <= j < k ==> !Stops(SelectorRead(p, selectors[j]))
  {
    if selectors == [] then 0
    else if Stops(SelectorRead(p, selectors[0])) then 0
    else
      assert forall j :: 1 <= j < |selectors| ==> selectors[j] == selectors[1..][j - 1];
      1 + StopIndex(p, selectors[1..])
  }

  /**
   * Strategy 3: the first non-empty read, prefixed unless it already starts with "R$"; nothing when
   * no read gives a value, or when a read raises first (the `try` around the loop swallows it).
   */
  function ScanSelectors(p: Page, selectors: seq<string>): (r: Option<string>)
    ensures var k := StopIndex(p, selectors);
      && (r.Some? <==> k < |selectors| && SelectorRead(p, selectors[k]).AttrValue?)
      && (r.Some? ==> r.value == WithReais(SelectorRead(p, selectors[k]).value.value))
  {
    if selectors == [] then None
    else
      var a := SelectorRead(p, selectors[0]);
      if a.AttrRaised? then None
      else if a.value.Some? && a.value.value != [] then Some(WithReais(a.value.value))
      else
        var r := ScanSelectors(p, selectors[1..]);
        assert forall j :: 1 <= j < |selectors| ==> selectors[j] == selectors[1..][j - 1];
        r
  }

  /** Strategy 4: a truthy `offers.price` of the structured data, when `offers` is a dict, prefixed. */
  function LdStrategy(rt: Runtime, p: Page): (r: Option<string>)
    ensures var ld := ExtractJsonLd(rt, p.scripts);
      && (r.Some? <==> Truthy(LdPrice(ld)))
      && (r.Some? ==> r.value == "R$ " + PyStr(rt, LdPrice(ld)))
  {
    var price := LdPrice(ExtractJsonLd(rt, p.scripts));
    if Truthy(price) then Some("R$ " + PyStr(rt, price)) else None
  }

  /**
   * The official price: the first strategy that yields, in the order meta tag, money fraction,
   * selector list, structured data; "Preço não encontrado" when none does.
   */
  function OfficialPrice(rt: Runtime, p: Page): (r: string)
    ensures StartsWith(r, "R$") <==> r != PriceNotFound
    ensures r == PriceNotFound <==>
      MetaStrategy(p).None? && FractionStrategy(p).None? && ScanSelectors(p, PriceSelectors).None? && LdStrategy(rt, p).None?
    ensures MetaStrategy(p).Some? ==> r == MetaStrategy(p).value
    ensures MetaStrategy(p).None? && FractionStrategy(p).Some? ==> r == FractionStrategy(p).value
    ensures MetaStrategy(p).None? && FractionStrategy(p).None? && ScanSelectors(p, PriceSelectors).Some? ==>
      r == ScanSelectors(p, PriceSelectors).value
    ensures (&& MetaStrategy(p).None? && FractionStrategy(p).None? && ScanSelectors(p, PriceSelectors).None?
             && LdStrategy(rt, p).Some?) ==>
      r == LdStrategy(rt, p).value
  {
    assert !StartsWith(PriceNotFound, "R$") by {
      assert PriceNotFound[0] == 'P';
    }
    var m := MetaStrategy(p);
    if m.Some? then m.value
    else
      var f := FractionStrategy(p);
      if f.Some? then f.value
      else
        var s := ScanSelectors(p, PriceSelectors);
        if s.Some? then s.value
        else
          var l := LdStrategy(rt, p);
          if l.Some? then l.value else PriceNotFound
  }

  /** The official record: the same price in `Preço` and `preço_oficial`, the fixed store and quantity. */
  function OfficialRecord(rt: Runtime, p: Page, url: string, produto: string): (r: Row)
    ensures r.preco == r.precoOficial == JStr(OfficialPrice(rt, p))
    ensures r.loja == JStr(OfficialStore) && r.qtdVendida == "Oficial"
    ensures r.concorrente == FromRead(p.inner("h1.ui-pdp-title"))
    ensures r.principal == produto && r.link == url
  {
    var price := JStr(OfficialPrice(rt, p));
    Row(FromRead(p.inner("h1.ui-pdp-title")), price, price, JStr(OfficialStore), "Oficial", produto, url)
  }

  // ---------------------------------------------------------------------------
  // Competitors (scrape_mercado_livre)
  // ---------------------------------------------------------------------------

  /** The record of one competitor page; an `evaluate` of the store label that raises is an error. */
  function Competitor(rt: Runtime, p: Page, stub: Stub, produto: string, precoOficial: Json): (r: Result<Row>)
    ensures var ld := ExtractJsonLd(rt, p.scripts);
      var store := StoreChain(p, LdSellerName(ld), "p.ui-pdp-seller__title, span.ui-pdp-seller__title",
                              "p.ui-pdp-seller__status, span.ui-pdp-seller__status");
      && (r.Err? <==> store.Err?)
      && (r.Ok? ==> r.value == Row(LdTitle(ld, stub.title), CompetitorPrice(ld, p), precoOficial, store.value,
                                   SoldQuantity(p, [".ui-pdp-subtitle"]), produto, stub.href))
  {
    var ld := ExtractJsonLd(rt, p.scripts);
    var store := StoreChain(p, LdSellerName(ld), "p.ui-pdp-seller__title, span.ui-pdp-seller__title",
                            "p.ui-pdp-seller__status, span.ui-pdp-seller__status");
    match store
    case Err(e) => Err(e)
    case Ok(loja) =>
      Ok(Row(LdTitle(ld, stub.title), CompetitorPrice(ld, p), precoOficial, loja,
             SoldQuantity(p, [".ui-pdp-subtitle"]), produto, stub.href))
  }

  /** One iteration of the item loop: open the link, then read the page. */
  function Item(rt: Runtime, fetch: string -> Load, stub: Stub, produto: string, precoOficial: Json): (r: Result<Row>)
    ensures fetch(stub.href).LoadFailed? ==> r.Err?
    ensures r.Ok? ==> (r.value.link == stub.href && r.value.principal == produto
      && r.value.precoOficial == precoOficial && r.value.qtdVendida != [])
  {
    match fetch(stub.href)
    case LoadFailed => Err("navigation failed")
    case Loaded(p) => Competitor(rt, p, stub, produto, precoOficial)
  }

  /**
   * `scrape_mercado_livre(produto, max_itens, preco_oficial)`: the first `max_itens` anchors of the
   * listing, each record built from its page; items that raise are dropped.
   */
  function ScrapeCompetitors(rt: Runtime, stubs: seq<Stub>, maxItens: int, fetch: string -> Load,
                             produto: string, precoOficial: Json): (rs: seq<Row>)
    ensures maxItens >= 0 ==> |rs| <= maxItens
    ensures forall i :: 0 <= i < |rs| ==> (
      && rs[i].principal == produto && rs[i].precoOficial == precoOficial && rs[i].qtdVendida != []
      && exists j :: 0 <= j < |Truncate(stubs, maxItens)| && rs[i].link == stubs[j].href)
  {
    var todo := Truncate(stubs, maxItens);
    var results := MapItems((s: Stub) => Item(rt, fetch, s, produto, precoOficial), todo);
    var rs := KeepSucceeded(results);
    forall i | 0 <= i < |rs|
      ensures rs[i].principal == produto && rs[i].precoOficial == precoOficial && rs[i].qtdVendida != []
      ensures exists j :: 0 <= j < |todo| && rs[i].link == stubs[j].href
    {
      var j := KeptWitness(results, i);
      assert results[j] == Item(rt, fetch, todo[j], produto, precoOficial);
      assert todo[j] == stubs[j];
    }
    rs
  }

  /** Every one of the first `max_itens` items that does not raise gives a record. */
  lemma SucceededKept(rt: Runtime, stubs: seq<Stub>, maxItens: int, fetch: string -> Load,
                      produto: string, precoOficial: Json, i: nat)
    requires i < |Truncate(stubs, maxItens)| && Item(rt, fetch, stubs[i], produto, precoOficial).Ok?
    ensures Item(rt, fetch, stubs[i], produto, precoOficial).value in ScrapeCompetitors(rt, stubs, maxItens, fetch, produto, precoOficial)
  {
    var todo := Truncate(stubs, maxItens);
    var results := MapItems((s: Stub) => Item(rt, fetch, s, produto, precoOficial), todo);
    assert results[i] == Item(rt, fetch, stubs[i], produto, precoOficial);
  }

  /** When every page loads and no store label raises, each of the first `max_itens` anchors gives one record, in order. */
  lemma {:induction false} NothingDropped(rt: Runtime, stubs: seq<Stub>, fetch: string -> Load, produto: string, precoOficial: Json)
    requires forall i :: 0 <= i < |stubs| ==> Item(rt, fetch, stubs[i], produto, precoOficial).Ok?
    ensures |KeepSucceeded(MapItems((s: Stub) => Item(rt, fetch, s, produto, precoOficial), stubs))| == |stubs|
    ensures forall i :: 0 <= i < |stubs| ==>
      KeepSucceeded(MapItems((s: Stub) => Item(rt, fetch, s, produto, precoOficial), stubs))[i].link == stubs[i].href
  {
    var results := MapItems((s: Stub) => Item(rt, fetch, s, produto, precoOficial), stubs);
    assert AllSucceeded(results).Ok?;
    AllSucceededAgrees(results);
  }

  // ---------------------------------------------------------------------------
  // The run (__main__ and aplicar_ia_csv)
  // ---------------------------------------------------------------------------

  /** The `fieldnames` of `salvar_csv`. */
  const CsvColumns := [RankCol, "concorrente", PriceCol, OfficialCol, IndicatedCol, StoreCol, "qtd_vendida",
                       "link", "principal"]

  /** A record as the dict written to the CSV, with the empty `ranking` and `preço_indicado` the run adds. */
  function Record(r: Row): (m: map<string, Json>)
    ensures PriceCol in m && StoreCol in m && "concorrente" in m && "principal" in m
    ensures m[PriceCol] == r.preco && m[StoreCol] == r.loja && m["concorrente"] == r.concorrente
    ensures m["principal"] == JStr(r.principal)
    ensures m.Keys == set c | c in CsvColumns
  {
    map[RankCol := JStr(""), "concorrente" := r.concorrente, PriceCol := r.preco, OfficialCol := r.precoOficial,
        IndicatedCol := JStr(""), StoreCol := r.loja, "qtd_vendida" := JStr(r.qtdVendida), "link" := JStr(r.link),
        "principal" := JStr(r.principal)]
  }

  function Records(rows: seq<Row>): (ms: seq<map<string, Json>>)
    ensures |ms| == |rows| && forall i :: 0 <= i < |rows| ==> ms[i] == Record(rows[i])
  {
    seq(|rows|, i requires 0 <= i < |rows| => Record(rows[i]))
  }

  /** `pd.read_csv` of the written file, then the guarded classification of every row. */
  function Classified(rt: Runtime, rows: seq<Row>, oracle: (string, string) -> Reply): (r: Result<Frame>)
    ensures r.Ok? ==> r.value.columns == WithCompat(CsvColumns) && |r.value.rows| == |rows| && WellFormed(r.value)
  {
    match ToFrame(rt, CsvColumns, Records(rows))
    case Err(e) => Err(e)
    case Ok(table) => Classify(table, Guarded(oracle))
  }

  /** `aplicar_ranking_e_preco_indicado` of the classified table: the full output table. */
  function Ranked(rt: Runtime, rows: seq<Row>, oracle: (string, string) -> Reply): (r: Result<Frame>)
    ensures r.Ok? ==> r.value.columns == OutColumns && |r.value.rows| == |rows| && WellFormed(r.value)
  {
    match Classified(rt, rows, oracle)
    case Err(e) => Err(e)
    case Ok(classified) => ApplyRanking(classified)
  }

  /**
   * `aplicar_ia_csv` on the written file: classify every row with the guarded call, rank, and
   * project the compatible rows; the full and the compatible-only tables.
   */
  function Analyse(rt: Runtime, rows: seq<Row>, oracle: (string, string) -> Reply): (r: Result<(Frame, Frame)>)
    ensures r.Ok? ==> |r.value.0.rows| == |rows| && r.value.0.columns == OutColumns
    ensures r.Ok? ==> |r.value.1.rows| == |SimIndices(r.value.0)| && r.value.1.columns == CompatibleColumns(r.value.0)
  {
    match Ranked(rt, rows, oracle)
    case Err(e) => Err(e)
    case Ok(full) =>
      match CompatibleOnly(full)
      case Err(e) => Err(e)
      case Ok(compat) => Ok((full, compat))
  }

  /** The table read back from the CSV has the written columns, so classification cannot fail. */
  lemma ClassifiedShape(rt: Runtime, rows: seq<Row>, oracle: (string, string) -> Reply)
    ensures Classified(rt, rows, oracle).Ok?
    ensures var c := Classified(rt, rows, oracle).value;
      && WellFormed(c) && |c.rows| == |rows|
      && Compat in c.columns && PriceCol in c.columns && StoreCol in c.columns
  {
    var t := ToFrame(rt, CsvColumns, Records(rows));
    assert t.Ok?;
    assert PrincipalCol in CsvColumns && CompetitorCol in CsvColumns;
    assert PriceCol in CsvColumns && StoreCol in CsvColumns;
    GuardedClassification(t.value, oracle);
  }

  /** None of the steps of the analysis can fail on the records the scrapers produce. */
  lemma AnalyseSucceeds(rt: Runtime, rows: seq<Row>, oracle: (string, string) -> Reply)
    ensures Analyse(rt, rows, oracle).Ok?
  {
    ClassifiedShape(rt, rows, oracle);
    assert Compat in OutColumns;
  }

  /** The official price always survives the CSV round trip as text. */
  lemma OfficialPriceIsText(rt: Runtime, p: Page)
    ensures OfficialPrice(rt, p) !in NaMarkers
  {
    var s := OfficialPrice(rt, p);
    if s == PriceNotFound {
      assert s[0] == 'P';
    } else {
      assert s[..2] == "R$";
      assert s[0] == 'R';
    }
    NotAMarker(s);
  }

  /** The store name of the official record is not an NA marker. */
  lemma OfficialStoreIsText()
    ensures OfficialStore !in NaMarkers
  {
    NotAMarker(OfficialStore);
  }

  /** The official record's store and price are read back as the text that was written. */
  lemma OfficialTableRow(rt: Runtime, rows: seq<Row>)
    requires |rows| > 0 && rows[0].loja == JStr(OfficialStore) && rows[0].preco.JStr? && rows[0].preco.s !in NaMarkers
    ensures ToFrame(rt, CsvColumns, Records(rows)).Ok?
    ensures var t := ToFrame(rt, CsvColumns, Records(rows)).value;
      && |t.rows| == |rows| && WellFormed(t)
      && PrincipalCol in t.columns && CompetitorCol in t.columns && StoreCol in t.columns && PriceCol in t.columns
      && t.rows[0][StoreCol] == Str(OfficialStore) && t.rows[0][PriceCol] == Str(rows[0].preco.s)
      && t.rows[0][PrincipalCol] == CellOf(rt, JStr(rows[0].principal))
      && t.rows[0][CompetitorCol] == CellOf(rt, rows[0].concorrente)
  {
    var t := ToFrame(rt, CsvColumns, Records(rows));
    assert t.Ok?;
    assert PrincipalCol in CsvColumns && CompetitorCol in CsvColumns && PriceCol in CsvColumns && StoreCol in CsvColumns;
    OfficialStoreIsText();
    CellRoundTrip(rt, rows[0].loja);
    CellRoundTrip(rt, rows[0].preco);
  }

  /** The official record keeps its store and price through the CSV and is classified by its own reply. */
  lemma ClassifiedOfficialRow(rt: Runtime, rows: seq<Row>, oracle: (string, string) -> Reply)
    requires |rows| > 0 && rows[0].loja == JStr(OfficialStore) && rows[0].preco.JStr? && rows[0].preco.s !in NaMarkers
    ensures Classified(rt, rows, oracle).Ok?
    ensures var c := Classified(rt, rows, oracle).value;
      var reply := oracle(Render(CellOf(rt, JStr(rows[0].principal))), Render(CellOf(rt, rows[0].concorrente)));
      && |c.rows| == |rows|
      && At(c.rows[0], StoreCol) == Str(OfficialStore)
      && OfficialPriceCell(c) == Str(rows[0].preco.s)
      && (IsSim(c.rows[0]) <==> reply.Replied? && Contains(Upper(reply.content), "SIM"))
  {
    ClassifiedOfficialCells(rt, rows, oracle);
    OfficialTableRow(rt, rows);
    var table := ToFrame(rt, CsvColumns, Records(rows)).value;
    GuardedClassification(table, oracle);
  }

  /** The store and price cells of the official row survive the classification. */
  lemma ClassifiedOfficialCells(rt: Runtime, rows: seq<Row>, oracle: (string, string) -> Reply)
    requires |rows| > 0 && rows[0].loja == JStr(OfficialStore) && rows[0].preco.JStr? && rows[0].preco.s !in NaMarkers
    ensures Classified(rt, rows, oracle).Ok?
    ensures var c := Classified(rt, rows, oracle).value;
      && |c.rows| == |rows|
      && At(c.rows[0], StoreCol) == Str(OfficialStore)
      && OfficialPriceCell(c) == Str(rows[0].preco.s)
  {
    OfficialTableRow(rt, rows);
    var table := ToFrame(rt, CsvColumns, Records(rows)).value;
    GuardedClassification(table, oracle);
    assert StoreCol != Compat && PriceCol != Compat;
    ClassifyKeeps(table, Guarded(oracle), 0, StoreCol);
    ClassifyKeeps(table, Guarded(oracle), 0, PriceCol);
    OfficialFirstPrice(Classify(table, Guarded(oracle)).value);
  }

  /** Ranking a table whose first row is the official one, with official price `price`. */
  lemma OfficialRanked(c: Frame, price: string)
    requires WellFormed(c) && ApplyRanking(c).Ok? && |c.rows| > 0
    requires At(c.rows[0], StoreCol) == Str(OfficialStore) && OfficialPriceCell(c) == Str(price)
    ensures var g := ApplyRanking(c).value;
      && |g.rows| == |c.rows|
      && At(g.rows[0], StoreCol) == Str(OfficialStore)
      && (At(g.rows[0], RankCol).Rank? <==> IsSim(c.rows[0]))
      && forall i :: 0 <= i < |g.rows| ==>
           At(g.rows[i], IndicatedCol).Str? && EndsWith(At(g.rows[i], IndicatedCol).s, " | " + price + " (Comprebel)")
  {
    RankedFirstRow(c);
  }

  /**
   * The first record, the official one, is classified and ranked like any other: its `ranking`
   * is a rank exactly when the model's reply for it holds "SIM", and every row's indicated price
   * ends with the official price.
   */
  lemma AnalyseOfficialRow(rt: Runtime, rows: seq<Row>, oracle: (string, string) -> Reply)
    requires |rows| > 0 && rows[0].loja == JStr(OfficialStore) && rows[0].preco.JStr? && rows[0].preco.s !in NaMarkers
    ensures Analyse(rt, rows, oracle).Ok?
    ensures var full := Analyse(rt, rows, oracle).value.0;
      var reply := oracle(Render(CellOf(rt, JStr(rows[0].principal))), Render(CellOf(rt, rows[0].concorrente)));
      && |full.rows| == |rows|
      && At(full.rows[0], StoreCol) == Str(OfficialStore)
      && (At(full.rows[0], RankCol).Rank? <==> reply.Replied? && Contains(Upper(reply.content), "SIM"))
      && forall i :: 0 <= i < |full.rows| ==>
           At(full.rows[i], IndicatedCol).Str? &&
           EndsWith(At(full.rows[i], IndicatedCol).s, " | " + rows[0].preco.s + " (Comprebel)")
  {
    ClassifiedShape(rt, rows, oracle);
    ClassifiedOfficialRow(rt, rows, oracle);
    var c := Classified(rt, rows, oracle).value;
    OfficialRanked(c, rows[0].preco.s);
    assert Ranked(rt, rows, oracle) == ApplyRanking(c);
    AnalyseSucceeds(rt, rows, oracle);
  }

  /** `max_itens` of the run. */
  const MaxItens := 40

  /** The records of a run: the official one first, then the competitors carrying its price. */
  function Products(rt: Runtime, official: Page, url: string, produto: string, stubs: seq<Stub>,
                    fetch: string -> Load): (rows: seq<Row>)
    ensures |rows| >= 1 && rows[0] == OfficialRecord(rt, official, url, produto)
    ensures |rows| <= 1 + MaxItens
    ensures forall i :: 1 <= i < |rows| ==> rows[i].precoOficial == rows[0].precoOficial
  {
    var first := OfficialRecord(rt, official, url, produto);
    var rest := ScrapeCompetitors(rt, stubs, MaxItens, fetch, produto, first.precoOficial);
    ConsIndex(first, rest);
    [first] + rest
  }

  /**
   * The `__main__` block: the official page (a navigation that raises ends the run), the
   * competitors of the listing `stubs`, the CSV, and the analysis of the CSV.
   */
  function Run(rt: Runtime, official: Load, url: string, produto: string, stubs: seq<Stub>,
               fetch: string -> Load, oracle: (string, string) -> Reply): (r: Result<(Frame, Frame)>)
    ensures r.Err? <==> official.LoadFailed?
  {
    match official
    case LoadFailed => Err("navigation failed")
    case Loaded(p) =>
      AnalyseSucceeds(rt, Products(rt, p, url, produto, stubs, fetch), oracle);
      Analyse(rt, Products(rt, p, url, produto, stubs, fetch), oracle)
  }

  /**
   * In every run that reaches the analysis, the full table starts with the official row, which is
   * ranked exactly when the model answers "SIM" for it, and every row's indicated price ends
   * with the price scraped from the official page.
   */
  lemma RunOfficialRow(rt: Runtime, p: Page, url: string, produto: string, stubs: seq<Stub>,
                       fetch: string -> Load, oracle: (string, string) -> Reply)
    ensures Run(rt, Loaded(p), url, produto, stubs, fetch, oracle).Ok?
    ensures var full := Run(rt, Loaded(p), url, produto, stubs, fetch, oracle).value.0;
      var reply := oracle(Render(CellOf(rt, JStr(produto))), Render(CellOf(rt, FromRead(p.inner("h1.ui-pdp-title")))));
      && 1 <= |full.rows| <= 1 + MaxItens
      && At(full.rows[0], StoreCol) == Str(OfficialStore)
      && (At(full.rows[0], RankCol).Rank? <==> reply.Replied? && Contains(Upper(reply.content), "SIM"))
      && forall i :: 0 <= i < |full.rows| ==>
           At(full.rows[i], IndicatedCol).Str? &&
           EndsWith(At(full.rows[i], IndicatedCol).s, " | " + OfficialPrice(rt, p) + " (Comprebel)")
  {
    var rows := Products(rt, p, url, produto, stubs, fetch);
    OfficialPriceIsText(rt, p);
    AnalyseOfficialRow(rt, rows, oracle);
  }
}
