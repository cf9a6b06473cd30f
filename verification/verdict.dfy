/**
 * The compatibility verdict read out of the language model's reply: `extrair_compatibilidade`
 * (a whole-word "SIM") and the plain substring test the later `comparar_com_ia` variants use.
 */
module Verdict {
  import opened Wrappers
  import opened Text

  /** The two verdicts the scripts record in the `compatibilidade` column. */
  datatype Verdict = Sim | Nao {

    /** The text written to the column. */
    function Label(): (s: string)
      ensures s == "SIM" <==> this == Sim
    {
      match this
      case Sim => "SIM"
      case Nao => "N\U{c3}O"
    }
  }

  /** What a call to the chat-completion endpoint gave back: the reply text, or an exception. */
  datatype Reply = Replied(content: string) | Raised

  /** `\bSIM\b` matches `u` at `i`: "SIM" with no word character on either side. */
  predicate WordSimAt(u: string, i: int) {
    && OccursAt(u, "SIM", i)
    && (i == 0 || !IsWordChar(u[i - 1]))
    && (i + 3 == |u| || !IsWordChar(u[i + 3]))
  }

  /** `re.search(r'\bSIM\b', u)` succeeds. */
  predicate HasWordSim(u: string) {
    exists i :: 0 <= i < |u| && WordSimAt(u, i)
  }

  /** The first index at or after `from` where `\bSIM\b` matches, or `|u|`. */
  function FirstWordSim(u: string, from: nat): (k: nat)
    requires from <= |u|
    ensures from <= k <= |u|
    ensures k < |u| ==> WordSimAt(u, k)
    ensures forall j :: from <= j < k ==> !WordSimAt(u, j)
    decreases |u| - from
  {
    if from == |u| then |u|
    else if WordSimAt(u, from) then from
    else FirstWordSim(u, from + 1)
  }

  /** `extrair_compatibilidade`: SIM exactly when the upper-cased reply holds "SIM" as a whole word. */
  function ExtractCompatibility(content: string): (v: Verdict)
    ensures v == Sim <==> HasWordSim(Upper(content))
  {
    var u := Upper(content);
    if FirstWordSim(u, 0) < |u| then Sim else Nao
  }

  /** The test `"SIM" in conteudo.upper()`: SIM when the upper-cased reply holds "SIM" anywhere. */
  function SubstringVerdict(content: string): (v: Verdict)
    ensures v == Sim <==> Contains(Upper(content), "SIM")
  {
    if Find(Upper(content), "SIM", 0) == -1 then Nao else Sim
  }

  /**
   * `comparar_com_ia` of teste02.py and teste.py: the reply is stripped and tested for the
   * substring "SIM"; an exception from the call is caught and counts as NÃO.
   */
  function CompareGuarded(reply: Reply): (v: Verdict)
    ensures reply.Raised? ==> v == Nao
    ensures reply.Replied? ==> (v == Sim <==> Contains(Upper(reply.content), "SIM"))
  {
    match reply
    case Raised => Nao
    case Replied(c) =>
      SubstringStripInvariant(c);
      SubstringVerdict(Strip(c))
  }

  /**
   * `comparar_com_ia` of inteligencia.py: no handler, so an exception propagates; otherwise the
   * stripped reply goes through `extrair_compatibilidade`.
   */
  function CompareUnguarded(reply: Reply): (r: Result<Verdict>)
    ensures reply.Raised? <==> r.Err?
    ensures reply.Replied? ==> r == Ok(ExtractCompatibility(reply.content))
  {
    match reply
    case Raised => Err("exception from the chat completion call")
    case Replied(c) =>
      WordStripInvariant(c);
      Ok(ExtractCompatibility(Strip(c)))
  }

  /** A match of `\bSIM\b` is in particular an occurrence of "SIM". */
  lemma WordVerdictImpliesSubstring(content: string)
    ensures ExtractCompatibility(content) == Sim ==> SubstringVerdict(content) == Sim
  {
    var u := Upper(content);
    if HasWordSim(u) {
      var i :| 0 <= i < |u| && WordSimAt(u, i);
      assert OccursAt(u, "SIM", i);
    }
  }

  /** The substring test accepts "SIMILAR", which the whole-word test rejects. */
  lemma VerdictsDisagreeOnSimilar(content: string)
    requires content == "similar"
    ensures SubstringVerdict(content) == Sim
    ensures ExtractCompatibility(content) == Nao
  {
    var u := Upper(content);
    assert u[..3] == "SIM";
    assert OccursAt(u, "SIM", 0);
    forall i | 0 <= i < |u|
      ensures !WordSimAt(u, i)
    {
      if i == 0 {
        assert IsWordChar(u[3]);
      } else {
        assert u[i] != 'S';
        if OccursAt(u, "SIM", i) {
          OccursHead(u, "SIM", i);
        }
      }
    }
  }

  /** An affirmative reply in the format the prompt asks for. */
  lemma ExampleAffirmative(content: string)
    requires content == "SIM, compat\U{ed}vel"
    ensures ExtractCompatibility(content) == Sim
  {
    var u := Upper(content);
    assert u[..3] == "SIM";
    assert WordSimAt(u, 0);
  }

  /** Upper-casing commutes with slicing. */
  lemma UpperSlice(s: string, lo: nat, hi: nat)
    requires lo <= hi <= |s|
    ensures Upper(s[lo..hi]) == Upper(s)[lo..hi]
  {
  }

  lemma SliceOfSlice(u: string, lo: nat, hi: nat, a: nat, b: nat)
    requires lo <= hi <= |u| && a <= b <= hi - lo
    ensures u[lo..hi][a..b] == u[lo + a..lo + b]
  {
    forall k | 0 <= k < b - a
      ensures u[lo..hi][a..b][k] == u[lo + a..lo + b][k]
    {
    }
  }

  /** Cutting whitespace off both ends of `u` keeps every occurrence of "SIM". */
  lemma ContainsSlice(u: string, lo: nat, hi: nat)
    requires lo <= hi <= |u|
    requires forall k :: 0 <= k < |u| && !(lo <= k < hi) ==> IsSpace(u[k])
    ensures Contains(u[lo..hi], "SIM") <==> Contains(u, "SIM")
  {
    if Contains(u[lo..hi], "SIM") {
      var i :| 0 <= i <= hi - lo - 3 && OccursAt(u[lo..hi], "SIM", i);
      SliceOfSlice(u, lo, hi, i, i + 3);
      assert OccursAt(u, "SIM", lo + i);
    }
    if Contains(u, "SIM") {
      var j :| 0 <= j <= |u| - 3 && OccursAt(u, "SIM", j);
      OccursInward(u, lo, hi, j);
    }
  }

  /** An occurrence of "SIM" in the whole text is one in the stripped text. */
  lemma OccursInward(u: string, lo: nat, hi: nat, j: int)
    requires lo <= hi <= |u|
    requires forall k :: 0 <= k < |u| && !(lo <= k < hi) ==> IsSpace(u[k])
    requires OccursAt(u, "SIM", j)
    ensures lo <= j && OccursAt(u[lo..hi], "SIM", j - lo)
  {
    SimInside(u, lo, hi, j);
    SliceOfSlice(u, lo, hi, j - lo, j - lo + 3);
  }

  /** An occurrence of "SIM" in `u` lies inside the non-space span `[lo, hi)`. */
  lemma SimInside(u: string, lo: nat, hi: nat, j: int)
    requires lo <= hi <= |u|
    requires forall k :: 0 <= k < |u| && !(lo <= k < hi) ==> IsSpace(u[k])
    requires OccursAt(u, "SIM", j)
    ensures lo <= j && j + 3 <= hi
  {
    assert u[j] == u[j..j + 3][0] == 'S';
    assert u[j + 2] == u[j..j + 3][2] == 'M';
  }

  /** Cutting whitespace off both ends of `u` keeps every whole-word "SIM". */
  lemma WordSlice(u: string, lo: nat, hi: nat)
    requires lo <= hi <= |u|
    requires forall k :: 0 <= k < |u| && !(lo <= k < hi) ==> IsSpace(u[k])
    ensures HasWordSim(u[lo..hi]) <==> HasWordSim(u)
  {
    if HasWordSim(u[lo..hi]) {
      var i :| 0 <= i < hi - lo && WordSimAt(u[lo..hi], i);
      WordSimOutward(u, lo, hi, i);
    }
    if HasWordSim(u) {
      var j :| 0 <= j < |u| && WordSimAt(u, j);
      WordSimInward(u, lo, hi, j);
    }
  }

  /** A whole-word "SIM" of the stripped text is one of the whole text. */
  lemma WordSimOutward(u: string, lo: nat, hi: nat, i: nat)
    requires lo <= hi <= |u|
    requires forall k :: 0 <= k < |u| && !(lo <= k < hi) ==> IsSpace(u[k])
    requires i < hi - lo && WordSimAt(u[lo..hi], i)
    ensures WordSimAt(u, lo + i)
  {
    SliceOfSlice(u, lo, hi, i, i + 3);
    if i == 0 && lo > 0 {
      assert IsSpace(u[lo - 1]);
    }
    if i > 0 {
      assert u[lo..hi][i - 1] == u[lo + i - 1];
    }
    if i + 3 == hi - lo && hi < |u| {
      assert IsSpace(u[hi]);
    }
    if i + 3 < hi - lo {
      assert u[lo..hi][i + 3] == u[lo + i + 3];
    }
  }

  /** A whole-word "SIM" of the whole text lies in the stripped text and is one there. */
  lemma WordSimInward(u: string, lo: nat, hi: nat, j: nat)
    requires lo <= hi <= |u|
    requires forall k :: 0 <= k < |u| && !(lo <= k < hi) ==> IsSpace(u[k])
    requires j < |u| && WordSimAt(u, j)
    ensures lo <= j && j - lo < hi - lo && WordSimAt(u[lo..hi], j - lo)
  {
    SimInside(u, lo, hi, j);
    SliceOfSlice(u, lo, hi, j - lo, j - lo + 3);
    if j > lo {
      assert u[lo..hi][j - lo - 1] == u[j - 1];
    }
    if j + 3 < hi {
      assert u[lo..hi][j - lo + 3] == u[j + 3];
    }
  }

  /** Stripping the reply first does not change the substring verdict. */
  lemma SubstringStripInvariant(content: string)
    ensures SubstringVerdict(Strip(content)) == SubstringVerdict(content)
  {
    var lo, hi := StripIsSlice(content);
    UpperSlice(content, lo, hi);
    ContainsSlice(Upper(content), lo, hi);
  }

  /** Stripping the reply first does not change the whole-word verdict. */
  lemma WordStripInvariant(content: string)
    ensures ExtractCompatibility(Strip(content)) == ExtractCompatibility(content)
  {
    var lo, hi := StripIsSlice(content);
    UpperSlice(content, lo, hi);
    WordSlice(Upper(content), lo, hi);
  }
}
