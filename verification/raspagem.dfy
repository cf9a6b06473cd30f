/**
 * raspagem.py: the competitor scraper with the richest field chains (title or headline, a list of
 * offers, `priceSpecification`, fraction and cents joined, seller name or nickname) and the
 * mis-indented store-label check.
 */
module Raspagem {
  import opened Wrappers
  import opened Text
  import opened Json
  import opened JsonLd
  import opened Page
  import opened Fields
  import opened Price

  /** One record as appended to `resultados`. */
  datatype Record = Record(titulo: Json, preco: Json, loja: Json, qtdVendida: string, oficial: string, link: string)

  /** The search term of the run, also written into every record's `Oficial`. */
  const Term := "Smart Tv 32'' LG Hd 32LR600BPSA Processador 5 Ger6 Alexa Webos"

  /** `max_itens` of the run. */
  const MaxItens := 20

  /** The heading read when the structured data gives no title. */
  const Heading := "h1, h1.ui-pdp-title, h1#productTitle"

  /** The store title and status selectors of this file (single underscores). */
  const TitleSel := "p.ui-pdp-seller_title, span.ui-pdp-seller_title"
  const StatusSel := "p.ui-pdp-seller_status, span.ui-pdp-seller_status"

  /** The sold-quantity reads, in order. */
  const QtySelectors := ["div.ui-pdp-seller_headerinfo-containersubtitle-one-line p.ui-pdp-sellerheader_subtitle",
                         ".ui-pdp-subtitle"]

  // ---------------------------------------------------------------------------
  // The structured-data fields
  // ---------------------------------------------------------------------------

  /** `offers = jsonld.get("offers") or {}`, then a non-empty list is replaced by its first element. */
  function Offers(m: map<string, Json>): (o: Json)
    ensures LdOffers(m).JArr? && LdOffers(m).items != [] ==> o == LdOffers(m).items[0]
    ensures !(LdOffers(m).JArr? && LdOffers(m).items != []) ==> o == LdOffers(m)
  {
    var o := LdOffers(m);
    if o.JArr? && o.items != [] then o.items[0] else o
  }

  /**
   * `offers.get("price") or offers.get("priceSpecification", {}).get("price")`: the second read
   * raises an AttributeError when `priceSpecification` is present and not a dict.
   */
  function OffersPrice(o: map<string, Json>): (r: Result<Json>)
    ensures Truthy(Get(o, "price")) ==> r == Ok(o["price"])
    ensures !Truthy(Get(o, "price")) && "priceSpecification" !in o ==> r == Ok(JNull)
    ensures !Truthy(Get(o, "price")) && "priceSpecification" in o ==>
      (r.Err? <==> !o["priceSpecification"].JObj?) &&
      (r.Ok? ==> r.value == Get(o["priceSpecification"].fields, "price"))
  {
    if Truthy(Get(o, "price")) then Ok(o["price"])
    else match GetDefault(o, "priceSpecification", JObj(map[]))
      case JObj(spec) => Ok(Get(spec, "price"))
      case _ => Err("AttributeError")
  }

  /** `seller = offers.get("seller") or {}`: a dict gives `name or nickname`, anything else is kept as it is. */
  function OffersSeller(o: map<string, Json>): (r: Json)
    ensures var seller := Get(o, "seller");
      && (Truthy(seller) && seller.JObj? ==> r == Or(Get(seller.fields, "name"), Get(seller.fields, "nickname")))
      && (Truthy(seller) && !seller.JObj? ==> r == seller)
      && (!Truthy(seller) ==> r == JNull)
  {
    var seller := Or(Get(o, "seller"), JObj(map[]));
    if seller.JObj? then Or(Get(seller.fields, "name"), Get(seller.fields, "nickname")) else seller
  }

  /** The price and store the `if jsonld:` block sets: both None unless `offers` ends up a dict. */
  function LdPriceStore(m: map<string, Json>): (r: Result<(Json, Json)>)
    ensures !Offers(m).JObj? ==> r == Ok((JNull, JNull))
    ensures Offers(m).JObj? ==> (r.Err? <==> OffersPrice(Offers(m).fields).Err?)
    ensures Offers(m).JObj? && r.Ok? ==>
      r.value == (OffersPrice(Offers(m).fields).value, OffersSeller(Offers(m).fields))
  {
    match Offers(m)
    case JObj(o) =>
      (match OffersPrice(o)
       case Err(e) => Err(e)
       case Ok(price) => Ok((price, OffersSeller(o))))
    case _ => Ok((JNull, JNull))
  }

  /**
   * `titulo`: with structured data `name or headline or titulo_lista`; when that is still falsy
   * (or there was no structured data) the heading read, else the listing title.
   */
  function Title(jsonld: Option<map<string, Json>>, p: Page, listing: string): (t: Json)
    ensures Found(jsonld) && Truthy(OrChain([Get(jsonld.value, "name"), Get(jsonld.value, "headline"), JStr(listing)])) ==>
      t == OrChain([Get(jsonld.value, "name"), Get(jsonld.value, "headline"), JStr(listing)])
    ensures !Found(jsonld) ==> t == Or(Read(p, Heading), JStr(listing))
    ensures listing != [] ==> Truthy(t)
  {
    var fromLd := if Found(jsonld) then OrChain([Get(jsonld.value, "name"), Get(jsonld.value, "headline"), JStr(listing)]) else JNull;
    if Truthy(fromLd) then fromLd else Or(Read(p, Heading), JStr(listing))
  }

  /** The structured-data title wins over the page heading whenever one of `name`, `headline` is truthy. */
  lemma TitlePrecedence(jsonld: Option<map<string, Json>>, p: Page, listing: string)
    requires Found(jsonld)
    ensures Truthy(Get(jsonld.value, "name")) ==> Title(jsonld, p, listing) == jsonld.value["name"]
    ensures !Truthy(Get(jsonld.value, "name")) && Truthy(Get(jsonld.value, "headline")) ==>
      Title(jsonld, p, listing) == jsonld.value["headline"]
    ensures !Truthy(Get(jsonld.value, "name")) && !Truthy(Get(jsonld.value, "headline")) ==>
      Title(jsonld, p, listing) == Or(JStr(listing), Or(Read(p, Heading), JStr(listing)))
  {
    var xs := [Get(jsonld.value, "name"), Get(jsonld.value, "headline"), JStr(listing)];
    assert xs[1..] == [Get(jsonld.value, "headline"), JStr(listing)];
    assert xs[1..][1..] == [JStr(listing)];
    if !Truthy(xs[0]) {
      assert OrChain(xs) == OrChain(xs[1..]);
      if !Truthy(xs[1]) {
        assert OrChain(xs[1..]) == OrChain(xs[1..][1..]) == JStr(listing);
      }
    }
  }

  // ---------------------------------------------------------------------------
  // The page price
  // ---------------------------------------------------------------------------

  /** The fraction: `span.price-tag-fraction`, else `span.andes-money-amount__fraction`. */
  function Fraction(p: Page): Json {
    ReadEither(p, "span.price-tag-fraction", "span.andes-money-amount__fraction")
  }

  /** The cents: `span.price-tag-cents`, else `span.andes-money-amount__decimals`. */
  function Cents(p: Page): Json {
    ReadEither(p, "span.price-tag-cents", "span.andes-money-amount__decimals")
  }

  /**
   * The price read from the page when the structured data gave none: "R$ f,c" with both parts,
   * "R$ f" with the fraction only, and the (falsy) fraction read itself otherwise.
   */
  function PagePrice(p: Page): (r: Json)
    ensures Truthy(r) <==> Truthy(Fraction(p))
    ensures Truthy(Fraction(p)) ==> r.JStr? && StartsWith(r.s, "R$ ") && Fraction(p).JStr?
    ensures Truthy(Fraction(p)) && Truthy(Cents(p)) ==> r.s == "R$ " + Fraction(p).s + "," + Cents(p).s
    ensures Truthy(Fraction(p)) && !Truthy(Cents(p)) ==> r.s == "R$ " + Fraction(p).s
    ensures !Truthy(Fraction(p)) ==> r == JNull || r == JStr("")
  {
    var f := Fraction(p);
    var c := Cents(p);
    if Truthy(f) && Truthy(c) then JStr("R$ " + f.s + "," + c.s)
    else if Truthy(f) then JStr("R$ " + f.s)
    else f
  }

  /**
   * The joined price is what the ranking's `extrair_valor_preco` reads as `fraction.cents`: the
   * fraction's digits are the integer part and the cents' digits the decimals (the thousands dot
   * of the fraction is dropped).
   */
  lemma PagePriceValue(p: Page)
    requires Truthy(Fraction(p)) && Truthy(Cents(p))
    requires ',' !in Fraction(p).s && ',' !in Cents(p).s
    ensures Normalise(PagePrice(p).s) == IntFrac(DigitsOnly(Fraction(p).s), DigitsOnly(Cents(p).s))
  {
    var a := "R$ " + Fraction(p).s;
    var b := Cents(p).s;
    assert PagePrice(p).s == a + [','] + b;
    NormaliseOneComma(a, b);
    DigitsOnlyPrefix("R$ ", Fraction(p).s);
  }

  /** The prefix "R$ " has no digits, so `DigitsOnly` drops it. */
  lemma DigitsOnlyPrefix(pre: string, s: string)
    requires pre == "R$ "
    ensures DigitsOnly(pre + s) == DigitsOnly(s)
  {
    assert (pre + s)[0] == 'R' && (pre + s)[1..] == "$ " + s;
    assert ("$ " + s)[0] == '$' && ("$ " + s)[1..] == " " + s;
    assert (" " + s)[0] == ' ' && (" " + s)[1..] == s;
    assert !IsDigit('R') && !IsDigit('$') && !IsDigit(' ');
    calc {
      DigitsOnly(pre + s);
      DigitsOnly("$ " + s);
      DigitsOnly(" " + s);
      DigitsOnly(s);
    }
  }

  // ---------------------------------------------------------------------------
  // One item
  // ---------------------------------------------------------------------------

  /** What the structured data settles before the page reads: price and store, or an AttributeError. */
  function LdFields(jsonld: Option<map<string, Json>>): (r: Result<(Json, Json)>)
    ensures !Found(jsonld) ==> r == Ok((JNull, JNull))
    ensures Found(jsonld) ==> r == LdPriceStore(jsonld.value)
  {
    if Found(jsonld) then LdPriceStore(jsonld.value) else Ok((JNull, JNull))
  }

  /** `if not preco:` — the structured-data price when truthy, else the page price. */
  function ItemPrice(ldPrice: Json, p: Page): (r: Json)
    ensures Truthy(ldPrice) ==> r == ldPrice
    ensures !Truthy(ldPrice) ==> r == PagePrice(p)
  {
    if Truthy(ldPrice) then ldPrice else PagePrice(p)
  }

  /** The record once the store is settled. */
  function MakeRecord(jsonld: Option<map<string, Json>>, p: Page, stub: Stub, ldPrice: Json, loja: Json): (r: Record)
    ensures r.titulo == Title(jsonld, p, stub.title) && r.preco == ItemPrice(ldPrice, p) && r.loja == loja
    ensures r.qtdVendida == SoldQuantity(p, QtySelectors) && r.qtdVendida != []
    ensures r.oficial == Term && r.link == stub.href
  {
    Record(Title(jsonld, p, stub.title), ItemPrice(ldPrice, p), loja, SoldQuantity(p, QtySelectors), Term, stub.href)
  }

  /**
   * One item with the label check inside `if not loja:`, as the comment above it intends: the
   * store chain link, title, status, then the first text node of the label.
   */
  function ItemIntended(rt: Runtime, p: Page, stub: Stub): (r: Result<Record>)
    ensures var ld := ExtractJsonLd(rt, p.scripts);
      LdFields(ld).Err? ==> r.Err?
    ensures var ld := ExtractJsonLd(rt, p.scripts);
      LdFields(ld).Ok? ==>
        && var store := StoreChain(p, LdFields(ld).value.1, TitleSel, StatusSel);
           && (r.Err? <==> store.Err?)
           && (r.Ok? ==> r.value == MakeRecord(ld, p, stub, LdFields(ld).value.0, store.value))
  {
    var ld := ExtractJsonLd(rt, p.scripts);
    match LdFields(ld)
    case Err(e) => Err(e)
    case Ok((ldPrice, ldStore)) =>
      match StoreChain(p, ldStore, TitleSel, StatusSel)
      case Err(e) => Err(e)
      case Ok(loja) => Ok(MakeRecord(ld, p, stub, ldPrice, loja))
  }

  /**
   * The binding of `loja_element` carried from one item to the next: never bound yet, or bound on
   * an earlier item's page, whose reads are `stale` (that page is closed by then).
   */
  datatype Binding = Unbound | Bound

  /**
   * One item as written: the label locator is bound only when the store is still falsy, but it is
   * counted on every item. With a store found early and no earlier binding, the read of the
   * unbound local raises; with an earlier binding, the old locator is consulted and a label it
   * reports replaces the store.
   */
  function ItemAsWritten(rt: Runtime, p: Page, stub: Stub, b: Binding, stale: LabelRead): (r: (Result<Record>, Binding))
    ensures var ld := ExtractJsonLd(rt, p.scripts);
      LdFields(ld).Err? ==> r == (Err(LdFields(ld).error), b)
    ensures var ld := ExtractJsonLd(rt, p.scripts);
      LdFields(ld).Ok? ==>
        var early := OrChain(StoreSteps(p, LdFields(ld).value.1, TitleSel, StatusSel));
        && (!Truthy(early) ==> r == (ItemIntended(rt, p, stub), Bound))
        && (Truthy(early) && b.Unbound? ==> r.0.Err? && r.1 == Unbound)
        && (Truthy(early) && b.Bound? ==> r.1 == Bound && (r.0.Err? <==> stale.LabelRaised?))
        && (Truthy(early) && b.Bound? && stale.LabelAbsent? ==> r.0 == ItemIntended(rt, p, stub))
        && (Truthy(early) && b.Bound? && stale.LabelText? ==>
              r.0 == Ok(MakeRecord(ld, p, stub, LdFields(ld).value.0, JStr(stale.text))))
    ensures r.0.Ok? ==> r.0.value.link == stub.href && r.0.value.oficial == Term
  {
    var ld := ExtractJsonLd(rt, p.scripts);
    match LdFields(ld)
    case Err(e) => (Err(e), b)
    case Ok((ldPrice, ldStore)) =>
      var early := OrChain(StoreSteps(p, ldStore, TitleSel, StatusSel));
      if !Truthy(early) then (ItemIntended(rt, p, stub), Bound)
      else if b.Unbound? then (Err("UnboundLocalError: loja_element"), Unbound)
      else
        match stale
        case LabelAbsent => (Ok(MakeRecord(ld, p, stub, ldPrice, early)), Bound)
        case LabelText(t) => (Ok(MakeRecord(ld, p, stub, ldPrice, JStr(t))), Bound)
        case LabelRaised => (Err("evaluate on the store label raised"), Bound)
  }

  // ---------------------------------------------------------------------------
  // The item loop (scrape_mercado_livre)
  // ---------------------------------------------------------------------------

  /** One item of the intended loop: open the link, then read the page. */
  function Item(rt: Runtime, fetch: string -> Load, stub: Stub): (r: Result<Record>)
    ensures fetch(stub.href).LoadFailed? ==> r.Err?
    ensures fetch(stub.href).Loaded? ==> r == ItemIntended(rt, fetch(stub.href).page, stub)
    ensures r.Ok? ==> r.value.link == stub.href && r.value.oficial == Term && r.value.qtdVendida != []
  {
    match fetch(stub.href)
    case LoadFailed => Err("navigation failed")
    case Loaded(p) => ItemIntended(rt, p, stub)
  }

  /**
   * `scrape_mercado_livre(produto, max_itens)` with the label check where it was meant: the first
   * `max_itens` anchors, an item that raises printed and dropped.
   */
  function Scrape(rt: Runtime, fetch: string -> Load, stubs: seq<Stub>, maxItens: int): (rs: seq<Record>)
    ensures maxItens >= 0 ==> |rs| <= maxItens
    ensures |rs| <= |stubs|
    ensures forall i :: 0 <= i < |rs| ==>
      && rs[i].oficial == Term && rs[i].qtdVendida != []
      && exists j :: 0 <= j < |Truncate(stubs, maxItens)| && rs[i].link == stubs[j].href
    ensures forall i :: 0 <= i < |Truncate(stubs, maxItens)| && Item(rt, fetch, stubs[i]).Ok? ==>
      Item(rt, fetch, stubs[i]).value in rs
  {
    if stubs == [] then []
    else
      var todo := Truncate(stubs, maxItens);
      var results := MapItems((s: Stub) => Item(rt, fetch, s), todo);
      var rs := KeepSucceeded(results);
      assert forall i :: 0 <= i < |rs| ==> exists j :: 0 <= j < |todo| && results[j] == Ok(rs[i]);
      assert forall i :: 0 <= i < |todo| ==> results[i] == Item(rt, fetch, stubs[i]);
      rs
  }

  /** When every page loads and nothing raises, each of the first `max_itens` anchors gives one record, in order. */
  lemma NothingDropped(rt: Runtime, fetch: string -> Load, stubs: seq<Stub>)
    requires forall i :: 0 <= i < |stubs| ==> Item(rt, fetch, stubs[i]).Ok?
    ensures |Scrape(rt, fetch, stubs, |stubs|)| == |stubs|
    ensures forall i :: 0 <= i < |stubs| ==> Scrape(rt, fetch, stubs, |stubs|)[i] == Item(rt, fetch, stubs[i]).value
  {
    var results := MapItems((s: Stub) => Item(rt, fetch, s), stubs);
    assert AllSucceeded(results).Ok?;
    AllSucceededAgrees(results);
  }

  /** One item of the loop as written; a navigation failure leaves the binding as it was. */
  function ItemStep(rt: Runtime, fetch: string -> Load, stub: Stub, b: Binding, stale: LabelRead): (r: (Result<Record>, Binding))
    ensures fetch(stub.href).LoadFailed? ==> r == (Err("navigation failed"), b)
    ensures fetch(stub.href).Loaded? ==> r == ItemAsWritten(rt, fetch(stub.href).page, stub, b, stale)
    ensures r.0.Ok? ==> r.0.value.link == stub.href && r.0.value.oficial == Term
  {
    match fetch(stub.href)
    case LoadFailed => (Err("navigation failed"), b)
    case Loaded(p) => ItemAsWritten(rt, p, stub, b, stale)
  }

  /**
   * The loop as written over `stubs`, threading the binding of `loja_element`; `stale(k)` is what
   * the locator left over from an earlier page reports on the `k`-th item.
   */
  function LoopAsWritten(rt: Runtime, fetch: string -> Load, stubs: seq<Stub>, k: nat, b: Binding,
                         stale: nat -> LabelRead): (rs: seq<Record>)
    ensures |rs| <= |stubs|
    ensures forall i :: 0 <= i < |rs| ==> rs[i].oficial == Term && rs[i].link in Hrefs(stubs)
    decreases |stubs|
  {
    if stubs == [] then []
    else
      var (r, b2) := ItemStep(rt, fetch, stubs[0], b, stale(k));
      (if r.Ok? then [r.value] else []) + LoopAsWritten(rt, fetch, stubs[1..], k + 1, b2, stale)
  }

  /** `scrape_mercado_livre` as written: the loop starts with `loja_element` unbound. */
  function ScrapeAsWritten(rt: Runtime, fetch: string -> Load, stubs: seq<Stub>, maxItens: int,
                           stale: nat -> LabelRead): (rs: seq<Record>)
    ensures |rs| <= |Truncate(stubs, maxItens)|
    ensures forall i :: 0 <= i < |rs| ==> rs[i].oficial == Term && rs[i].link in Hrefs(Truncate(stubs, maxItens))
  {
    if stubs == [] then [] else LoopAsWritten(rt, fetch, Truncate(stubs, maxItens), 0, Unbound, stale)
  }

  /** The store an item has found before the label check, when its page loads and its structured data is usable. */
  predicate KnownEarly(rt: Runtime, fetch: string -> Load, stub: Stub) {
    && fetch(stub.href).Loaded?
    && var p := fetch(stub.href).page;
       var ld := ExtractJsonLd(rt, p.scripts);
       && LdFields(ld).Ok?
       && Truthy(OrChain(StoreSteps(p, LdFields(ld).value.1, TitleSel, StatusSel)))
  }

  /** The intended item keeps a store found early, as the label check never runs for it. */
  lemma IntendedKeepsKnownStore(rt: Runtime, fetch: string -> Load, stub: Stub)
    requires KnownEarly(rt, fetch, stub)
    ensures Item(rt, fetch, stub).Ok?
    ensures var p := fetch(stub.href).page;
      var ld := ExtractJsonLd(rt, p.scripts);
      Item(rt, fetch, stub).value.loja == OrChain(StoreSteps(p, LdFields(ld).value.1, TitleSel, StatusSel))
  {
  }

  /**
   * As written, a run whose items all find their store before the label check keeps no record at
   * all: the first such item reads the unbound local, and no later item ever binds it.
   */
  lemma {:induction false} AllKnownAllDropped(rt: Runtime, fetch: string -> Load, stubs: seq<Stub>, k: nat,
                                             stale: nat -> LabelRead)
    requires forall i :: 0 <= i < |stubs| ==> KnownEarly(rt, fetch, stubs[i])
    ensures LoopAsWritten(rt, fetch, stubs, k, Unbound, stale) == []
    decreases |stubs|
  {
    if stubs != [] {
      var (r, b2) := ItemStep(rt, fetch, stubs[0], Unbound, stale(k));
      assert r.Err? && b2 == Unbound;
      assert forall i :: 0 <= i < |stubs[1..]| ==> stubs[1..][i] == stubs[i + 1];
      AllKnownAllDropped(rt, fetch, stubs[1..], k + 1, stale);
    }
  }

  /** The intended loop, on the same items, keeps every one of them. */
  lemma AllKnownAllKept(rt: Runtime, fetch: string -> Load, stubs: seq<Stub>)
    requires forall i :: 0 <= i < |stubs| ==> KnownEarly(rt, fetch, stubs[i])
    ensures |Scrape(rt, fetch, stubs, |stubs|)| == |stubs|
  {
    forall i | 0 <= i < |stubs|
      ensures Item(rt, fetch, stubs[i]).Ok?
    {
      IntendedKeepsKnownStore(rt, fetch, stubs[i]);
    }
    NothingDropped(rt, fetch, stubs);
  }

  /**
   * As written, once a label locator is bound, an item whose store was already known gets the old
   * page's label text instead, where the intended chain keeps the known store.
   */
  lemma StaleLabelOverrides(rt: Runtime, fetch: string -> Load, stub: Stub, t: string)
    requires KnownEarly(rt, fetch, stub)
    ensures var p := fetch(stub.href).page;
      var ld := ExtractJsonLd(rt, p.scripts);
      && ItemStep(rt, fetch, stub, Bound, LabelText(t)).0.Ok?
      && ItemStep(rt, fetch, stub, Bound, LabelText(t)).0.value.loja == JStr(t)
      && Item(rt, fetch, stub).value.loja == OrChain(StoreSteps(p, LdFields(ld).value.1, TitleSel, StatusSel))
  {
    IntendedKeepsKnownStore(rt, fetch, stub);
  }

  /** Wherever the store is still unknown at the label check, the loop as written and the intended one agree on the item. */
  lemma UnknownStoreAgrees(rt: Runtime, fetch: string -> Load, stub: Stub, b: Binding, stale: LabelRead)
    requires fetch(stub.href).Loaded? && !KnownEarly(rt, fetch, stub)
    ensures ItemStep(rt, fetch, stub, b, stale).0 == Item(rt, fetch, stub)
  {
  }

  /**
   * The run as the program performs it: the listing URL of the term and the loop as written over
   * at most twenty items. When every one of those items finds its store before the label check,
   * the run writes no record at all.
   */
  function RunAsWritten(rt: Runtime, fetch: string -> Load, stubs: seq<Stub>, stale: nat -> LabelRead): (r: (string, seq<Record>))
    ensures r.0 == ListingUrl(Term)
    ensures |r.1| <= MaxItens
    ensures forall i :: 0 <= i < |r.1| ==> r.1[i].oficial == Term && r.1[i].link in Hrefs(Truncate(stubs, MaxItens))
    ensures (forall i :: 0 <= i < |Truncate(stubs, MaxItens)| ==> KnownEarly(rt, fetch, stubs[i])) ==> r.1 == []
  {
    var todo := Truncate(stubs, MaxItens);
    var rs := ScrapeAsWritten(rt, fetch, stubs, MaxItens, stale);
    assert (forall i :: 0 <= i < |todo| ==> KnownEarly(rt, fetch, stubs[i])) ==> rs == [] by {
      if stubs != [] && forall i :: 0 <= i < |todo| ==> KnownEarly(rt, fetch, stubs[i]) {
        assert forall i :: 0 <= i < |todo| ==> todo[i] == stubs[i];
        AllKnownAllDropped(rt, fetch, todo, 0, stale);
      }
    }
    (ListingUrl(Term), rs)
  }

  /** The run with the label check corrected: the listing URL of the term, at most twenty items, the intended store chain. */
  function Run(rt: Runtime, fetch: string -> Load, stubs: seq<Stub>): (r: (string, seq<Record>))
    ensures r.0 == ListingUrl(Term)
    ensures |r.1| <= MaxItens
  {
    (ListingUrl(Term), Scrape(rt, fetch, stubs, MaxItens))
  }
}
