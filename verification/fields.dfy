/**
 * The field-resolution steps the competitor scrapers of teste02.py, teste.py and inteligencia.py
 * share: the JSON-LD title, price and seller, the "R$ " prefixing of a page read, the store
 * chain and the sold-quantity chain. Selectors that differ between the files are parameters.
 */
module Fields {
  import opened Wrappers
  import opened Text
  import opened Json
  import opened Page

  /** The default sold quantity. */
  const NotInformed := "N\U{e3}o informado"

  /** The store link, first step of every store chain. */
  const SellerLink := "a.ui-pdp-seller__link"

  /** `if jsonld:` — a structured-data dict was found and it is not empty. */
  predicate Found(jsonld: Option<map<string, Json>>) {
    jsonld.Some? && jsonld.value != map[]
  }

  /** `jsonld.get("name") if jsonld else titulo_lista`: the JSON-LD name, possibly None, or the listing title. */
  function LdTitle(jsonld: Option<map<string, Json>>, listing: string): (t: Json)
    ensures Found(jsonld) && "name" in jsonld.value ==> t == jsonld.value["name"]
    ensures Found(jsonld) && "name" !in jsonld.value ==> t == JNull
    ensures !Found(jsonld) ==> t == JStr(listing)
  {
    if Found(jsonld) then Get(jsonld.value, "name") else JStr(listing)
  }

  /** `jsonld.get("offers") or {}`. */
  function LdOffers(m: map<string, Json>): (o: Json)
    ensures Truthy(Get(m, "offers")) ==> o == m["offers"]
    ensures !Truthy(Get(m, "offers")) ==> o == JObj(map[])
  {
    Or(Get(m, "offers"), JObj(map[]))
  }

  /** `offers.get("price")`, taken only when `offers` is a dict; None otherwise. */
  function LdPrice(jsonld: Option<map<string, Json>>): (p: Json)
    ensures !Found(jsonld) || !LdOffers(jsonld.value).JObj? ==> p == JNull
    ensures Found(jsonld) && LdOffers(jsonld.value).JObj? ==> p == Get(LdOffers(jsonld.value).fields, "price")
  {
    if Found(jsonld) && LdOffers(jsonld.value).JObj? then Get(LdOffers(jsonld.value).fields, "price") else JNull
  }

  /**
   * `seller = offers.get("seller") or {}` then `seller.get("name") if isinstance(seller, dict) else None`:
   * the store name, taken only when both `offers` and `seller` are dicts.
   */
  function LdSellerName(jsonld: Option<map<string, Json>>): (s: Json)
    ensures Truthy(s) ==> (
      && Found(jsonld) && LdOffers(jsonld.value).JObj?
      && var seller := Or(Get(LdOffers(jsonld.value).fields, "seller"), JObj(map[]));
         seller.JObj? && s == Get(seller.fields, "name"))
    ensures (&& Found(jsonld) && LdOffers(jsonld.value).JObj?
             && Or(Get(LdOffers(jsonld.value).fields, "seller"), JObj(map[])).JObj?) ==>
      s == Get(Or(Get(LdOffers(jsonld.value).fields, "seller"), JObj(map[])).fields, "name")
    ensures !(&& Found(jsonld) && LdOffers(jsonld.value).JObj?
              && Or(Get(LdOffers(jsonld.value).fields, "seller"), JObj(map[])).JObj?) ==>
      s == JNull
  {
    if Found(jsonld) && LdOffers(jsonld.value).JObj? then
      var seller := Or(Get(LdOffers(jsonld.value).fields, "seller"), JObj(map[]));
      if seller.JObj? then Get(seller.fields, "name") else JNull
    else JNull
  }

  /** `f"R$ {preco}" if preco else None` (teste02.py, teste.py): a non-empty read is prefixed, anything else is None. */
  function PrefixOrNone(o: Option<string>): (r: Json)
    ensures o.Some? && o.value != [] ==> r == JStr("R$ " + o.value)
    ensures o.None? || o.value == [] ==> r == JNull
  {
    if o.Some? && o.value != [] then JStr("R$ " + o.value) else JNull
  }

  /** `if preco: preco = f"R$ {preco}"` (inteligencia.py): a non-empty read is prefixed, an empty one stays "". */
  function PrefixIfTruthy(o: Option<string>): (r: Json)
    ensures o.Some? && o.value != [] ==> r == JStr("R$ " + o.value)
    ensures o.None? ==> r == JNull
    ensures o == Some([]) ==> r == JStr([])
  {
    if o.Some? && o.value != [] then JStr("R$ " + o.value) else FromRead(o)
  }

  /** Both prefixers agree on every read except the empty text. */
  lemma PrefixersAgree(o: Option<string>)
    ensures PrefixOrNone(o) == PrefixIfTruthy(o) <==> o != Some([])
  {
  }

  /**
   * The competitor `preco` of teste02.py and teste.py: the structured-data price when truthy,
   * else the prefixed `price-tag-fraction` or None.
   */
  function CompetitorPrice(ld: Option<map<string, Json>>, p: Page): (r: Json)
    ensures Truthy(LdPrice(ld)) ==> r == LdPrice(ld)
    ensures !Truthy(LdPrice(ld)) ==> r == PrefixOrNone(p.inner("span.price-tag-fraction"))
  {
    Or(LdPrice(ld), PrefixOrNone(p.inner("span.price-tag-fraction")))
  }

  /** The reads the store chain makes before the label, in order, after the JSON-LD value. */
  function StoreSteps(p: Page, start: Json, titleSel: string, statusSel: string): seq<Json> {
    [start, Read(p, SellerLink), Read(p, titleSel), Read(p, statusSel)]
  }

  /**
   * The store chain `if not loja: loja = <read>` over the seller link, title and status, then the
   * first text node of the label element. A label `evaluate` that raises is an error.
   */
  function StoreChain(p: Page, start: Json, titleSel: string, statusSel: string): (r: Result<Json>)
    ensures var early := OrChain(StoreSteps(p, start, titleSel, statusSel));
      && (Truthy(early) ==> r == Ok(early))
      && (!Truthy(early) && p.storeLabel.LabelAbsent? ==> r == Ok(early))
      && (!Truthy(early) && p.storeLabel.LabelText? ==> r == Ok(JStr(p.storeLabel.text)))
      && (r.Err? <==> !Truthy(early) && p.storeLabel.LabelRaised?)
  {
    var early := OrChain(StoreSteps(p, start, titleSel, statusSel));
    if Truthy(early) then Ok(early)
    else match p.storeLabel
      case LabelAbsent => Ok(early)
      case LabelText(t) => Ok(JStr(t))
      case LabelRaised => Err("evaluate on the store label raised")
  }

  /** A store already known from the JSON-LD is kept, and no page read is consulted for it. */
  lemma StoreChainKeepsKnown(p: Page, start: Json, titleSel: string, statusSel: string)
    requires Truthy(start)
    ensures StoreChain(p, start, titleSel, statusSel) == Ok(start)
  {
  }

  /** The reads of `selectors`, in order, as Python values. */
  function Reads(p: Page, selectors: seq<string>): (rs: seq<Json>)
    ensures |rs| == |selectors|
    ensures forall i :: 0 <= i < |selectors| ==> rs[i] == Read(p, selectors[i])
  {
    seq(|selectors|, i requires 0 <= i < |selectors| => Read(p, selectors[i]))
  }

  /**
   * `qtd = <read>; if not qtd: qtd = <next read>; ...; qtd = qtd or "Não informado"`: the first
   * non-empty read, else the default; never None and never empty.
   */
  function SoldQuantity(p: Page, selectors: seq<string>): (q: string)
    requires selectors != []
    ensures q != []
    ensures Truthy(OrChain(Reads(p, selectors))) ==> JStr(q) == OrChain(Reads(p, selectors))
    ensures !Truthy(OrChain(Reads(p, selectors))) ==> q == NotInformed
  {
    var v := OrChain(Reads(p, selectors));
    if v.JStr? && v.s != [] then v.s else NotInformed
  }
}
