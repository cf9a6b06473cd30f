/**
 * teste12.py: a scraper that reads the first ld+json block of each product page's HTML, cleans
 * the title with `limpar`, and takes price and brand with `dict.get` defaults. An item that
 * raises is dropped; a listing that fails gives no records.
 */
module Teste12 {
  import opened Wrappers
  import opened Json
  import opened JsonLd
  import opened Page
  import opened Clean

  /** One record: `titulo`, `preco`, `loja`, `link`. */
  datatype Record = Record(titulo: string, preco: Json, loja: Json, link: string)

  /** `d.get(key, {})` followed by `.get(...)`: the inner dict, or an AttributeError when the value is not a dict. */
  function SubDict(d: map<string, Json>, key: string): (r: Result<map<string, Json>>)
    ensures key !in d ==> r == Ok(map[])
    ensures key in d ==> (r.Ok? <==> d[key].JObj?) && (r.Ok? ==> r.value == d[key].fields)
  {
    match GetDefault(d, key, JObj(map[]))
    case JObj(m) => Ok(m)
    case _ => Err("AttributeError: no attribute 'get'")
  }

  /**
   * The record of one product page, given its HTML: the first block parsed (a parsed value that
   * is not a dict has no `get`), the cleaned `name` (the listing title when absent), `offers.price`
   * and `brand.name` with "" when absent.
   */
  function FromHtml(rt: Runtime, html: string, stub: Stub): (r: Result<Record>)
    ensures !ExtractFirstBlock(rt, html).JObj? ==> r.Err?
    ensures ExtractFirstBlock(rt, html).JObj? ==>
      var m := ExtractFirstBlock(rt, html).fields;
      && (r.Ok? <==> LimparValue(GetDefault(m, "name", JStr(stub.title))).Ok? && SubDict(m, "offers").Ok? && SubDict(m, "brand").Ok?)
      && (r.Ok? ==> r.value == Record(LimparValue(GetDefault(m, "name", JStr(stub.title))).value,
                                      GetDefault(SubDict(m, "offers").value, "price", JStr("")),
                                      GetDefault(SubDict(m, "brand").value, "name", JStr("")), stub.href))
  {
    match ExtractFirstBlock(rt, html)
    case JObj(m) =>
      (match LimparValue(GetDefault(m, "name", JStr(stub.title)))
       case Err(e) => Err(e)
       case Ok(titulo) =>
         match SubDict(m, "offers")
         case Err(e) => Err(e)
         case Ok(offers) =>
           match SubDict(m, "brand")
           case Err(e) => Err(e)
           case Ok(brand) => Ok(Record(titulo, GetDefault(offers, "price", JStr("")), GetDefault(brand, "name", JStr("")), stub.href)))
    case _ => Err("AttributeError: no attribute 'get'")
  }

  /**
   * The defaults: a page without a usable block still gives a record, with the cleaned listing
   * title and empty price and store; the title is always in canonical form.
   */
  lemma NoBlockDefaults(rt: Runtime, html: string, stub: Stub)
    requires FirstBlock(html).None?
    ensures FromHtml(rt, html, stub) == Ok(Record(Limpar(stub.title), JStr(""), JStr(""), stub.href))
  {
    var m: map<string, Json> := map[];
    assert ExtractFirstBlock(rt, html) == JObj(m);
    assert GetDefault(m, "name", JStr(stub.title)) == JStr(stub.title);
    assert LimparValue(JStr(stub.title)) == Ok(Limpar(stub.title)) by {
      if stub.title == [] {
        assert !Truthy(JStr(stub.title));
      }
    }
    assert SubDict(m, "offers") == Ok(m) && SubDict(m, "brand") == Ok(m);
    assert GetDefault(m, "price", JStr("")) == JStr("") && GetDefault(m, "name", JStr("")) == JStr("");
  }

  /** A string `name` is cleaned; the listing title is used only when `name` is absent. */
  lemma TitleRule(rt: Runtime, html: string, stub: Stub)
    requires ExtractFirstBlock(rt, html).JObj? && FromHtml(rt, html, stub).Ok?
    ensures var m := ExtractFirstBlock(rt, html).fields;
      && ("name" !in m ==> FromHtml(rt, html, stub).value.titulo == Limpar(stub.title))
      && ("name" in m && m["name"].JStr? ==> FromHtml(rt, html, stub).value.titulo == Limpar(m["name"].s))
      && Canonical(FromHtml(rt, html, stub).value.titulo)
  {
    var m := ExtractFirstBlock(rt, html).fields;
    var v := GetDefault(m, "name", JStr(stub.title));
    assert FromHtml(rt, html, stub).value.titulo == LimparValue(v).value;
  }

  /** One item: open the link and read its HTML (`html` is None when that raised), then build the record. */
  function Item(rt: Runtime, fetchHtml: string -> Option<string>, stub: Stub): (r: Result<Record>)
    ensures fetchHtml(stub.href).None? ==> r.Err?
    ensures fetchHtml(stub.href).Some? ==> r == FromHtml(rt, fetchHtml(stub.href).value, stub)
    ensures r.Ok? ==> r.value.link == stub.href && Canonical(r.value.titulo)
  {
    match fetchHtml(stub.href)
    case None => Err("navigation failed")
    case Some(html) =>
      var r := FromHtml(rt, html, stub);
      if r.Ok? then
        var m := ExtractFirstBlock(rt, html).fields;
        assert LimparValue(GetDefault(m, "name", JStr(stub.title))).Ok?;
        r
      else r
  }

  /**
   * `scrape_mercado_livre(url, playwright)`: no records when the listing fails (`listing` is None),
   * otherwise one record per item that did not raise, in order; no limit on the number of items.
   */
  function Scrape(rt: Runtime, listing: Option<seq<Stub>>, fetchHtml: string -> Option<string>): (rs: seq<Record>)
    ensures listing.None? ==> rs == []
    ensures listing.Some? ==> rs == KeepSucceeded(MapItems((s: Stub) => Item(rt, fetchHtml, s), listing.value))
    ensures forall i :: 0 <= i < |rs| ==> Canonical(rs[i].titulo) && exists j :: 0 <= j < |listing.value| && rs[i].link == listing.value[j].href
  {
    match listing
    case None => []
    case Some(stubs) =>
      var results := MapItems((s: Stub) => Item(rt, fetchHtml, s), stubs);
      var rs := KeepSucceeded(results);
      assert forall i :: 0 <= i < |rs| ==> exists j :: 0 <= j < |stubs| && results[j] == Ok(rs[i]);
      rs
  }

  /** An item that raises is dropped and the others are kept, in order: failures do not disturb the rest. */
  lemma FailedItemDropped(rt: Runtime, fetchHtml: string -> Option<string>, pre: seq<Stub>, bad: Stub, post: seq<Stub>)
    requires Item(rt, fetchHtml, bad).Err?
    ensures Scrape(rt, Some(pre + [bad] + post), fetchHtml) ==
      Scrape(rt, Some(pre), fetchHtml) + Scrape(rt, Some(post), fetchHtml)
  {
    var item := (s: Stub) => Item(rt, fetchHtml, s);
    var a, x, c := MapItems(item, pre), Item(rt, fetchHtml, bad), MapItems(item, post);
    assert MapItems(item, pre + [bad] + post) == a + [x] + c by {
      MapItemsConcat(item, pre, [bad]);
      MapItemsConcat(item, pre + [bad], post);
      assert MapItems(item, [bad]) == [x];
    }
    assert KeepSucceeded(a + [x] + c) == KeepSucceeded(a) + KeepSucceeded(c) by {
      KeepSucceededConcat(a + [x], c);
      KeepSucceededSnoc(a, x);
    }
    assert Scrape(rt, Some(pre), fetchHtml) == KeepSucceeded(a);
    assert Scrape(rt, Some(post), fetchHtml) == KeepSucceeded(c);
    assert Scrape(rt, Some(pre + [bad] + post), fetchHtml) == KeepSucceeded(a + [x] + c);
  }
}
