/**
 * What the scrapers read from the browser, as plain values: listing anchors, the reads of a
 * product page, the listing URL, `itens[:max_itens]`, and the two ways a loop over items
 * treats an item that raises.
 */
module Page {
  import opened Wrappers
  import opened Text
  import opened Json

  /** One listing anchor, `{title: n.innerText.trim(), href: n.href}`. */
  datatype Stub = Stub(title: string, href: string)

  /** `locator(selector).get_attribute("content")`: it raises when no element appears in time. */
  datatype AttrRead = AttrRaised | AttrValue(value: Option<string>)

  /**
   * The store-label element `span.ui-pdp-seller__label-text-with-icon`: absent (`count()` is 0),
   * the trimmed text of its first child node, or an `evaluate` that raised.
   */
  datatype LabelRead = LabelAbsent | LabelText(text: string) | LabelRaised

  /**
   * A loaded product page. `inner(sel)` is `pegar_text_or_none(page.locator(sel))` (the stripped
   * inner text, or None when the read failed), `attr(sel)` is the `content` attribute read,
   * `storeLabel` the store-label read and `scripts` the texts of the ld+json blocks (None when
   * collecting them raised).
   */
  datatype Page = Page(
    inner: string -> Option<string>,
    attr: string -> AttrRead,
    storeLabel: LabelRead,
    scripts: Option<seq<Option<string>>>)

  /** `detail.goto(link)`: the page, or a navigation that raised. */
  datatype Load = Loaded(page: Page) | LoadFailed

  /** A selector read as a Python value: None or the text. */
  function Read(p: Page, selector: string): (r: Json)
    ensures r.JNull? || r.JStr?
    ensures Truthy(r) <==> p.inner(selector).Some? && p.inner(selector).value != []
  {
    FromRead(p.inner(selector))
  }

  /** `read(first) or read(second)`: the second selector is read only when the first read is falsy. */
  function ReadEither(p: Page, first: string, second: string): (r: Json)
    ensures Truthy(Read(p, first)) ==> r == Read(p, first)
    ensures !Truthy(Read(p, first)) ==> r == Read(p, second)
    ensures Truthy(r) <==> Truthy(Read(p, first)) || Truthy(Read(p, second))
  {
    Or(Read(p, first), Read(p, second))
  }

  /** The search page of the listing. */
  const ListingBase := "https://lista.mercadolivre.com.br/"

  /** `f"https://lista.mercadolivre.com.br/{produto.replace(' ', '-')}"`. */
  function ListingUrl(produto: string): (u: string)
    ensures StartsWith(u, ListingBase)
    ensures |u| == |ListingBase| + |produto|
    ensures forall i :: 0 <= i < |produto| ==>
      u[|ListingBase| + i] == (if produto[i] == ' ' then '-' else produto[i])
    ensures ' ' !in u[|ListingBase|..]
  {
    var slug := ReplaceChar(produto, ' ', '-');
    assert (ListingBase + slug)[|ListingBase|..] == slug;
    ListingBase + slug
  }

  /** Python's `xs[:k]`, a negative `k` counting from the end. */
  function Truncate<T>(xs: seq<T>, k: int): (r: seq<T>)
    ensures |r| <= |xs| && r == xs[..|r|]
    ensures forall i :: 0 <= i < |r| ==> r[i] == xs[i]
    ensures k >= 0 ==> |r| == if k < |xs| then k else |xs|
    ensures k < 0 ==> |r| == if -k < |xs| then |xs| + k else 0
  {
    if k >= 0 then (if k < |xs| then xs[..k] else xs)
    else (if -k < |xs| then xs[..|xs| + k] else [])
  }

  /** At most `max_itens` items are processed, and all of them when there are no more than that. */
  lemma TruncateBound<T>(xs: seq<T>, k: int)
    ensures |Truncate(xs, k)| <= if k < 0 then |xs| else k
    ensures 0 <= k && |xs| <= k ==> Truncate(xs, k) == xs
  {
  }

  /** The links of `stubs`, in order. */
  function Hrefs(stubs: seq<Stub>): (hs: seq<string>)
    ensures |hs| == |stubs| && forall j :: 0 <= j < |stubs| ==> hs[j] == stubs[j].href
  {
    if stubs == [] then [] else [stubs[0].href] + Hrefs(stubs[1..])
  }

  /** The loop body `item` run on every element of `xs`, in order. */
  function MapItems<A, B>(item: A -> B, xs: seq<A>): (rs: seq<B>)
    ensures |rs| == |xs|
    ensures forall i :: 0 <= i < |xs| ==> rs[i] == item(xs[i])
  {
    seq(|xs|, i requires 0 <= i < |xs| => item(xs[i]))
  }

  /** Running the loop body over two listings in turn is running it over their concatenation. */
  lemma MapItemsConcat<A, B>(item: A -> B, xs: seq<A>, ys: seq<A>)
    ensures MapItems(item, xs + ys) == MapItems(item, xs) + MapItems(item, ys)
  {
    var l, r := MapItems(item, xs + ys), MapItems(item, xs) + MapItems(item, ys);
    forall i | 0 <= i < |l|
      ensures l[i] == r[i]
    {
      if i < |xs| {
        assert (xs + ys)[i] == xs[i];
      } else {
        assert (xs + ys)[i] == ys[i - |xs|];
      }
    }
  }

  /** A loop with `except Exception: print(...)` around each item: items that raised are dropped. */
  function KeepSucceeded<T>(rs: seq<Result<T>>): (r: seq<T>)
    ensures |r| <= |rs|
    ensures forall i :: 0 <= i < |r| ==> Ok(r[i]) in rs
    ensures forall i :: 0 <= i < |rs| && rs[i].Ok? ==> rs[i].value in r
  {
    if rs == [] then []
    else
      var rest := KeepSucceeded(rs[1..]);
      assert forall i :: 1 <= i < |rs| ==> rs[i] == rs[1..][i - 1];
      (if rs[0].Ok? then [rs[0].value] else []) + rest
  }

  /** The item a collected record came from. */
  lemma KeptWitness<T>(rs: seq<Result<T>>, i: nat) returns (j: nat)
    requires i < |KeepSucceeded(rs)|
    ensures j < |rs| && rs[j] == Ok(KeepSucceeded(rs)[i])
  {
    j :| 0 <= j < |rs| && rs[j] == Ok(KeepSucceeded(rs)[i]);
  }

  /** Appending an item that raised leaves the collected records as they were; a successful one is appended. */
  lemma {:induction false} KeepSucceededSnoc<T>(rs: seq<Result<T>>, x: Result<T>)
    ensures KeepSucceeded(rs + [x]) == KeepSucceeded(rs) + (if x.Ok? then [x.value] else [])
    decreases |rs|
  {
    if rs == [] {
      assert rs + [x] == [x];
      assert [x][1..] == [];
    } else {
      assert (rs + [x])[0] == rs[0];
      assert (rs + [x])[1..] == rs[1..] + [x];
      KeepSucceededSnoc(rs[1..], x);
    }
  }

  /** The records of two runs of items, one after the other, are the records of each run, concatenated. */
  lemma {:induction false} KeepSucceededConcat<T>(a: seq<Result<T>>, b: seq<Result<T>>)
    ensures KeepSucceeded(a + b) == KeepSucceeded(a) + KeepSucceeded(b)
    decreases |a|
  {
    if a == [] {
      assert a + b == b;
    } else {
      assert (a + b)[0] == a[0];
      assert (a + b)[1..] == a[1..] + b;
      KeepSucceededConcat(a[1..], b);
    }
  }

  /** The number of items that succeeded. */
  function CountOk<T>(rs: seq<Result<T>>): nat {
    if rs == [] then 0 else (if rs[0].Ok? then 1 else 0) + CountOk(rs[1..])
  }

  /** Exactly one record per item that succeeded, none for the others. */
  lemma {:induction false} KeepSucceededCount<T>(rs: seq<Result<T>>)
    ensures |KeepSucceeded(rs)| == CountOk(rs)
    decreases |rs|
  {
    if rs != [] {
      KeepSucceededCount(rs[1..]);
    }
  }

  /**
   * A loop with only `try/finally` around each item: the first exception ends the whole run,
   * otherwise every record is collected.
   */
  function AllSucceeded<T>(rs: seq<Result<T>>): (r: Result<seq<T>>)
    ensures r.Ok? <==> forall i :: 0 <= i < |rs| ==> rs[i].Ok?
    ensures r.Ok? ==> |r.value| == |rs| && forall i :: 0 <= i < |rs| ==> r.value[i] == rs[i].value
  {
    if rs == [] then Ok([])
    else if rs[0].Err? then Err(rs[0].error)
    else
      match AllSucceeded(rs[1..])
      case Err(e) => Err(e)
      case Ok(rest) => Ok([rs[0].value] + rest)
  }

  /** When nothing raises, aborting on error and dropping errors give the same records. */
  lemma {:induction false} AllSucceededAgrees<T>(rs: seq<Result<T>>)
    requires AllSucceeded(rs).Ok?
    ensures AllSucceeded(rs).value == KeepSucceeded(rs)
    decreases |rs|
  {
    if rs != [] {
      AllSucceededAgrees(rs[1..]);
    }
  }
}
