/**
 * Choosing the structured-data object of a product page: `extrair_jsonld` (the copy shared by
 * raspagem.py, teste02.py, teste.py and inteligencia.py) and the first-block variant
 * `extrair_json_ld` of teste12.py.
 */
module JsonLd {
  import opened Wrappers
  import opened Text
  import opened Json

  // ---------------------------------------------------------------------------
  // extrair_jsonld: scan every ld+json block
  // ---------------------------------------------------------------------------

  /** `obj.get("@type") or obj.get("type") or ""`. */
  function TypeOf(m: map<string, Json>): (t: Json)
    ensures Truthy(Get(m, "@type")) ==> t == m["@type"]
    ensures !Truthy(Get(m, "@type")) && Truthy(Get(m, "type")) ==> t == m["type"]
    ensures !Truthy(Get(m, "@type")) && !Truthy(Get(m, "type")) ==> t == JStr("")
  {
    Or(Or(Get(m, "@type"), Get(m, "type")), JStr(""))
  }

  /** The selection test: a dict whose type renders to a string holding "Product", or one with an `offers` or `price` key. */
  predicate Accepts(rt: Runtime, v: Json) {
    v.JObj? && (Contains(PyStr(rt, TypeOf(v.fields)), "Product") || "offers" in v.fields || "price" in v.fields)
  }

  /** The candidates one script text contributes: nothing when it is empty or does not parse, the elements of a list, else the value itself. */
  function BlockCandidates(rt: Runtime, s: Option<string>): (cs: seq<Json>)
    ensures s.None? || s.value == [] || rt.parse(s.value).None? ==> cs == []
    ensures s.Some? && s.value != [] && rt.parse(s.value).Some? ==>
      cs == (if rt.parse(s.value).value.JArr? then rt.parse(s.value).value.items else [rt.parse(s.value).value])
  {
    if s.None? || s.value == [] then []
    else match rt.parse(s.value)
      case None => []
      case Some(data) => if data.JArr? then data.items else [data]
  }

  /** All candidates of the blocks, in document order. */
  function Candidates(rt: Runtime, scripts: seq<Option<string>>): seq<Json> {
    if scripts == [] then [] else BlockCandidates(rt, scripts[0]) + Candidates(rt, scripts[1..])
  }

  /** The first accepted candidate, as a dict. */
  function FirstAccepted(rt: Runtime, cs: seq<Json>): (r: Option<map<string, Json>>)
    ensures r.None? <==> forall j :: 0 <= j < |cs| ==> !Accepts(rt, cs[j])
    ensures r.Some? ==> FirstIndex(rt, cs) < |cs| && cs[FirstIndex(rt, cs)] == JObj(r.value)
  {
    if cs == [] then None
    else if Accepts(rt, cs[0]) then Some(cs[0].fields)
    else
      assert forall j :: 1 <= j < |cs| ==> cs[j] == cs[1..][j - 1];
      FirstAccepted(rt, cs[1..])
  }

  /**
   * `extrair_jsonld`: `None` when reading the block texts raised (`scripts` is `None`), otherwise
   * the first accepted candidate.
   */
  function ExtractJsonLd(rt: Runtime, scripts: Option<seq<Option<string>>>): (r: Option<map<string, Json>>)
    ensures scripts.None? ==> r.None?
    ensures scripts.Some? ==> r == FirstAccepted(rt, Candidates(rt, scripts.value))
  {
    match scripts
    case None => None
    case Some(ss) => FirstAccepted(rt, Candidates(rt, ss))
  }

  /** The loop of the source, block by block and candidate by candidate, computes `ExtractJsonLd`. */
  method ExtractJsonLdScan(rt: Runtime, scripts: Option<seq<Option<string>>>) returns (r: Option<map<string, Json>>)
    ensures r == ExtractJsonLd(rt, scripts)
  {
    if scripts.None? {
      return None;
    }
    var ss := scripts.value;
    var i := 0;
    while i < |ss|
      invariant 0 <= i <= |ss|
      invariant FirstAccepted(rt, Candidates(rt, ss)) == FirstAccepted(rt, Candidates(rt, ss[i..]))
    {
      var cs := BlockCandidates(rt, ss[i]);
      var rest := Candidates(rt, ss[i + 1..]);
      CandidatesStep(rt, ss, i);
      FirstAcceptedConcat(rt, cs, rest);
      var j := ScanCandidates(rt, cs);
      if j < |cs| {
        return Some(cs[j].fields);
      }
      i := i + 1;
    }
    return None;
  }

  /** The inner loop over the candidates of one block: the index of the first accepted one, or `|cs|`. */
  method ScanCandidates(rt: Runtime, cs: seq<Json>) returns (j: nat)
    ensures j == FirstIndex(rt, cs)
  {
    j := 0;
    while j < |cs| && !Accepts(rt, cs[j])
      invariant j <= FirstIndex(rt, cs)
    {
      j := j + 1;
    }
  }

  /** The candidates from block `i` on are those of block `i` followed by those of the later blocks. */
  lemma CandidatesStep(rt: Runtime, ss: seq<Option<string>>, i: nat)
    requires i < |ss|
    ensures Candidates(rt, ss[i..]) == BlockCandidates(rt, ss[i]) + Candidates(rt, ss[i + 1..])
  {
    assert ss[i..][0] == ss[i];
    assert ss[i..][1..] == ss[i + 1..];
  }

  /** Looking for the first accepted candidate of `a + b` looks in `b` only when `a` has none. */
  lemma {:induction false} FirstAcceptedConcat(rt: Runtime, a: seq<Json>, b: seq<Json>)
    ensures FirstAccepted(rt, a + b) ==
      (if exists j :: 0 <= j < |a| && Accepts(rt, a[j]) then FirstAccepted(rt, a) else FirstAccepted(rt, b))
    ensures (exists j :: 0 <= j < |a| && Accepts(rt, a[j])) ==>
      FirstAccepted(rt, a + b) == Some(a[FirstIndex(rt, a)].fields)
    decreases |a|
  {
    if a == [] {
      assert a + b == b;
    } else {
      assert (a + b)[0] == a[0];
      if !Accepts(rt, a[0]) {
        assert (a + b)[1..] == a[1..] + b;
        FirstAcceptedConcat(rt, a[1..], b);
        FirstAcceptedSkip(rt, a);
      }
    }
  }

  /** A leading candidate that is not accepted is skipped. */
  lemma FirstAcceptedSkip(rt: Runtime, a: seq<Json>)
    requires a != [] && !Accepts(rt, a[0])
    ensures FirstAccepted(rt, a) == FirstAccepted(rt, a[1..])
    ensures FirstIndex(rt, a) == 1 + FirstIndex(rt, a[1..]) && a[FirstIndex(rt, a)..] == a[1..][FirstIndex(rt, a[1..])..]
    ensures (exists j :: 0 <= j < |a| && Accepts(rt, a[j])) <==> (exists j :: 0 <= j < |a[1..]| && Accepts(rt, a[1..][j]))
  {
    if j :| 0 <= j < |a| && Accepts(rt, a[j]) {
      assert a[1..][j - 1] == a[j];
    }
    if j :| 0 <= j < |a[1..]| && Accepts(rt, a[1..][j]) {
      assert a[j + 1] == a[1..][j];
    }
  }

  /** The index of the first accepted candidate, or `|cs|`. */
  function FirstIndex(rt: Runtime, cs: seq<Json>): (k: nat)
    ensures k <= |cs|
    ensures k < |cs| ==> Accepts(rt, cs[k])
    ensures forall j :: 0 <= j < k ==> !Accepts(rt, cs[j])
  {
    if cs == [] then 0 else if Accepts(rt, cs[0]) then 0 else 1 + FirstIndex(rt, cs[1..])
  }

  /** An accepted dict is never empty, so the callers' `if jsonld:` holds whenever one is found. */
  lemma AcceptedIsNonEmpty(rt: Runtime, scripts: Option<seq<Option<string>>>)
    ensures ExtractJsonLd(rt, scripts).Some? ==> ExtractJsonLd(rt, scripts).value != map[]
  {
    if ExtractJsonLd(rt, scripts).Some? {
      var cs := Candidates(rt, scripts.value);
      AcceptsNonEmpty(rt, cs[FirstIndex(rt, cs)]);
    }
  }

  /** An empty dict has the type "" and neither key, so it is never accepted. */
  lemma AcceptsNonEmpty(rt: Runtime, v: Json)
    requires Accepts(rt, v)
    ensures v.fields != map[]
  {
  }

  /** The candidates of a concatenation of block lists are the concatenated candidates. */
  lemma {:induction false} CandidatesConcat(rt: Runtime, a: seq<Option<string>>, b: seq<Option<string>>)
    ensures Candidates(rt, a + b) == Candidates(rt, a) + Candidates(rt, b)
    decreases |a|
  {
    if a == [] {
      assert a + b == b;
    } else {
      var h := BlockCandidates(rt, a[0]);
      assert (a + b)[0] == a[0];
      assert (a + b)[1..] == a[1..] + b;
      CandidatesConcat(rt, a[1..], b);
      calc {
        Candidates(rt, a + b);
        h + Candidates(rt, a[1..] + b);
        h + (Candidates(rt, a[1..]) + Candidates(rt, b));
        { ConcatAssoc(h, Candidates(rt, a[1..]), Candidates(rt, b)); }
        (h + Candidates(rt, a[1..])) + Candidates(rt, b);
        Candidates(rt, a) + Candidates(rt, b);
      }
    }
  }

  /** An empty, missing or unparsable block is skipped: the blocks after it are still examined as if it were absent. */
  lemma SkippedBlockIsIgnored(rt: Runtime, pre: seq<Option<string>>, s: Option<string>, post: seq<Option<string>>)
    requires s.None? || s.value == [] || rt.parse(s.value).None?
    ensures ExtractJsonLd(rt, Some(pre + [s] + post)) == ExtractJsonLd(rt, Some(pre + post))
  {
    assert Candidates(rt, [s]) == [] by {
      assert Candidates(rt, [s]) == BlockCandidates(rt, s) + Candidates(rt, [s][1..]);
      assert [s][1..] == [];
    }
    CandidatesConcat(rt, pre + [s], post);
    CandidatesConcat(rt, pre, [s]);
    CandidatesConcat(rt, pre, post);
    assert Candidates(rt, pre + [s]) == Candidates(rt, pre);
  }

  /** A block holding a list contributes its elements, so an accepted dict inside a list is found. */
  lemma ListElementIsFound(rt: Runtime, s: string, xs: seq<Json>, k: nat)
    requires s != [] && rt.parse(s) == Some(JArr(xs))
    requires k < |xs| && Accepts(rt, xs[k]) && forall j :: 0 <= j < k ==> !Accepts(rt, xs[j])
    ensures ExtractJsonLd(rt, Some([Some(s)])) == Some(xs[k].fields)
  {
    assert Candidates(rt, [Some(s)]) == xs + [];
    assert xs + [] == xs;
    assert FirstIndex(rt, xs) == k;
  }

  // ---------------------------------------------------------------------------
  // extrair_json_ld of teste12.py: the first block of the raw HTML
  // ---------------------------------------------------------------------------

  /** The exact opening tag the regular expression looks for. */
  const Opening := "<script type=\"application/ld+json\">"

  /** The closing tag. */
  const Closing := "</script>"

  /**
   * `re.findall(r'<script type="application/ld\+json">(.*?)</script>', html, re.DOTALL)[0]`:
   * the text between the first opening tag and the first closing tag after it.
   */
  function FirstBlock(html: string): (r: Option<string>)
    ensures r.Some? ==> exists s, e :: (0 <= s && s + |Opening| <= e && OccursAt(html, Opening, s)
      && OccursAt(html, Closing, e) && r.value == html[s + |Opening|..e])
  {
    var s := Find(html, Opening, 0);
    if s == -1 then None
    else
      var e := Find(html, Closing, s + |Opening|);
      if e == -1 then None else Some(html[s + |Opening|..e])
  }

  /** `extrair_json_ld`: the parsed first block, or `{}` when there is none or it does not parse. */
  function ExtractFirstBlock(rt: Runtime, html: string): (v: Json)
    ensures FirstBlock(html).None? ==> v == JObj(map[])
    ensures FirstBlock(html).Some? && rt.parse(FirstBlock(html).value).None? ==> v == JObj(map[])
    ensures FirstBlock(html).Some? && rt.parse(FirstBlock(html).value).Some? ==> v == rt.parse(FirstBlock(html).value).value
  {
    match FirstBlock(html)
    case None => JObj(map[])
    case Some(t) =>
      match rt.parse(t)
      case None => JObj(map[])
      case Some(v) => v
  }

  /** The block taken is the first one: no opening tag before it and no closing tag inside it. */
  lemma FirstBlockIsFirst(html: string)
    requires FirstBlock(html).Some?
    ensures var s := Find(html, Opening, 0);
      s >= 0 && (forall j :: 0 <= j < s ==> !OccursAt(html, Opening, j))
      && var e := Find(html, Closing, s + |Opening|);
      e >= 0 && FirstBlock(html).value == html[s + |Opening|..e]
      && forall j :: s + |Opening| <= j < e ==> !OccursAt(html, Closing, j)
  {
  }

  /** `find` in a longer string gives the same answer when the shorter one already has a match. */
  lemma {:induction false} FindExtend(s: string, t: string, pat: string, from: nat)
    requires pat != [] && Find(s, pat, from) != -1
    ensures Find(s + t, pat, from) == Find(s, pat, from)
    decreases |s| - from
  {
    assert from + |pat| <= |s|;
    SliceOfConcat(s, t, from, from + |pat|);
    if !OccursAt(s, pat, from) {
      FindExtend(s, t, pat, from + 1);
    }
  }

  /** Whatever follows the first complete block is never consulted. */
  lemma LaterTextIsIgnored(rt: Runtime, html: string, rest: string)
    requires FirstBlock(html).Some?
    ensures FirstBlock(html + rest) == FirstBlock(html)
    ensures ExtractFirstBlock(rt, html + rest) == ExtractFirstBlock(rt, html)
  {
    FirstBlockExtend(html, rest);
  }

  /** The first block of a text is also the first block of any extension of it. */
  lemma FirstBlockExtend(html: string, rest: string)
    requires FirstBlock(html).Some?
    ensures FirstBlock(html + rest) == FirstBlock(html)
  {
    var s := Find(html, Opening, 0);
    FindExtend(html, rest, Opening, 0);
    var e := Find(html, Closing, s + |Opening|);
    FindExtend(html, rest, Closing, s + |Opening|);
    SliceOfConcat(html, rest, s + |Opening|, e);
  }
}
