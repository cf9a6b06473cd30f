/**
 * `limpar` of teste12.py: every whitespace run becomes one space and the ends are stripped.
 * The reference definition is Python's `" ".join(s.split())`: the model proves the two agree,
 * and reads the canonical-form, idempotence and order-preservation facts off that form.
 */
module Clean {
  import opened Wrappers
  import opened Text
  import opened Json

  /** A non-empty run of non-whitespace characters. */
  predicate IsWord(w: string) {
    w != [] && forall i :: 0 <= i < |w| ==> !IsSpace(w[i])
  }

  /** The longest prefix of `s` holding no whitespace. */
  function TakeWord(s: string): (w: string)
    ensures |w| <= |s| && w == s[..|w|]
    ensures forall i :: 0 <= i < |w| ==> !IsSpace(w[i])
    ensures |w| == |s| || IsSpace(s[|w|])
    ensures s != [] && !IsSpace(s[0]) ==> w != []
  {
    if s == [] || IsSpace(s[0]) then [] else [s[0]] + TakeWord(s[1..])
  }

  /** `s.split()`: the maximal runs of non-whitespace of `s`, in order. */
  function Words(s: string): seq<string>
    decreases |s|
  {
    var t := LStrip(s);
    if t == [] then [] else
      var w := TakeWord(t);
      [w] + Words(t[|w|..])
  }

  /** Every element `s.split()` yields is a word. */
  lemma {:induction false} WordsAreWords(s: string)
    ensures forall k :: 0 <= k < |Words(s)| ==> IsWord(Words(s)[k])
    decreases |s|
  {
    var t := LStrip(s);
    if t != [] {
      var w := TakeWord(t);
      assert IsWord(w);
      WordsAreWords(t[|w|..]);
      var rest := Words(t[|w|..]);
      assert Words(s) == [w] + rest;
      forall k | 0 <= k < |Words(s)|
        ensures IsWord(Words(s)[k])
      {
        if k > 0 {
          assert Words(s)[k] == rest[k - 1];
        }
      }
    }
  }

  /** `" ".join(ws)`. */
  function JoinWords(ws: seq<string>): string {
    if ws == [] then [] else if |ws| == 1 then ws[0] else ws[0] + (" " + JoinWords(ws[1..]))
  }

  /** `re.sub(r"\s+", " ", s)`: each maximal whitespace run replaced by one space. */
  function Squeeze(s: string): string
    decreases |s|
  {
    if s == [] then []
    else if IsSpace(s[0]) then
      " " + Squeeze(LStrip(s))
    else [s[0]] + Squeeze(s[1..])
  }

  /** `s` has no leading or trailing whitespace, no two adjacent whitespace characters, and its only whitespace is `' '`. */
  predicate Canonical(s: string) {
    && (s == [] || (!IsSpace(s[0]) && !IsSpace(s[|s| - 1])))
    && (forall i :: 0 <= i < |s| - 1 ==> !(IsSpace(s[i]) && IsSpace(s[i + 1])))
    && (forall i :: 0 <= i < |s| && IsSpace(s[i]) ==> s[i] == ' ')
  }

  /** The non-whitespace characters of `s`, in order. */
  function NonSpace(s: string): string {
    if s == [] then [] else (if IsSpace(s[0]) then [] else [s[0]]) + NonSpace(s[1..])
  }

  /** The words concatenated. */
  function Concat(ws: seq<string>): string {
    if ws == [] then [] else ws[0] + Concat(ws[1..])
  }

  /** `limpar(texto)` for a string: "" for empty input, otherwise the squeezed and stripped text. */
  function Limpar(s: string): (r: string)
    ensures s == [] ==> r == []
    ensures Canonical(r)
  {
    LimparIsJoinOfWords(s);
    WordsAreWords(s);
    JoinWordsCanonical(Words(s));
    if s == [] then [] else Strip(Squeeze(s))
  }

  /**
   * `limpar(texto)` for any Python value: a falsy value gives "", a non-empty string is
   * cleaned, and any other value makes `re.sub` raise a TypeError.
   */
  function LimparValue(v: Json): (r: Result<string>)
    ensures !Truthy(v) ==> r == Ok([])
    ensures Truthy(v) && v.JStr? ==> r.Ok? && r.value == JoinWords(Words(v.s))
    ensures Truthy(v) && !v.JStr? ==> r.Err?
    ensures v.JStr? ==> r == Ok(Limpar(v.s))
    ensures r.Ok? ==> Canonical(r.value)
  {
    LimparIsJoinOfWords(if v.JStr? then v.s else []);
    assert Canonical([]) by {
      assert Limpar([]) == [];
    }
    if !Truthy(v) then Ok([])
    else if v.JStr? then Ok(Limpar(v.s))
    else Err("TypeError: expected string or bytes-like object")
  }

  // ---------------------------------------------------------------------------
  // Limpar agrees with " ".join(s.split())
  // ---------------------------------------------------------------------------

  lemma LStripIdempotent(s: string)
    ensures LStrip(LStrip(s)) == LStrip(s)
  {
  }

  lemma {:induction false} SqueezeWord(t: string)
    requires t != [] && !IsSpace(t[0])
    ensures Squeeze(t) == TakeWord(t) + Squeeze(t[|TakeWord(t)|..])
    decreases |t|
  {
    var t' := t[1..];
    var h := [t[0]];
    if t' == [] || IsSpace(t'[0]) {
      assert TakeWord(t) == h;
      assert t[|h|..] == t';
    } else {
      var w' := TakeWord(t');
      calc {
        Squeeze(t);
        h + Squeeze(t');
        { SqueezeWord(t'); }
        h + (w' + Squeeze(t'[|w'|..]));
        { ConcatAssoc(h, w', Squeeze(t'[|w'|..])); }
        (h + w') + Squeeze(t'[|w'|..]);
        { assert TakeWord(t) == h + w'; assert t'[|w'|..] == t[|h + w'|..]; }
        TakeWord(t) + Squeeze(t[|TakeWord(t)|..]);
      }
    }
  }

  lemma {:induction false} RStripConcat(a: string, b: string)
    requires RStrip(b) != []
    ensures RStrip(a + b) == a + RStrip(b)
    decreases |b|
  {
    if IsSpace(b[|b| - 1]) {
      assert (a + b)[..|a + b| - 1] == a + b[..|b| - 1];
      RStripConcat(a, b[..|b| - 1]);
    }
  }

  lemma WordsOfWordStart(u: string)
    requires u != [] && !IsSpace(u[0])
    ensures Words(u) == [TakeWord(u)] + Words(u[|TakeWord(u)|..])
  {
    assert LStrip(u) == u;
  }

  lemma WordsSkipSpaces(s: string)
    ensures Words(LStrip(s)) == Words(s)
  {
    LStripIdempotent(s);
  }

  lemma RStripNonSpaceStart(sv: string)
    requires sv != [] && !IsSpace(sv[0])
    ensures RStrip(sv) != []
  {
    if RStrip(sv) == [] {
      RStripToEmpty(sv);
    }
  }

  lemma {:induction false} RStripToEmpty(s: string)
    requires s != [] && RStrip(s) == []
    ensures IsSpace(s[0])
    decreases |s|
  {
    if |s| > 1 {
      assert IsSpace(s[|s| - 1]);
      RStripToEmpty(s[..|s| - 1]);
    }
  }

  lemma RStripTrailingSpace(w: string)
    requires IsWord(w)
    ensures RStrip(w + " ") == w
  {
    assert (w + " ")[..|w|] == w;
  }

  lemma JoinStep(w: string, tail: seq<string>, sv: string)
    requires tail != [] && RStrip(sv) == JoinWords(tail) && RStrip(sv) != []
    ensures RStrip(w + (" " + sv)) == JoinWords([w] + tail)
  {
    RStripConcat(" ", sv);
    RStripConcat(w, " " + sv);
    assert ([w] + tail)[1..] == tail;
  }

  /** Squeezing a text that starts with a word followed by whitespace. */
  lemma SqueezeWordThenSpace(u: string)
    requires u != [] && !IsSpace(u[0])
    requires |TakeWord(u)| < |u|
    ensures Squeeze(u) == TakeWord(u) + (" " + Squeeze(LStrip(u[|TakeWord(u)|..])))
  {
    var w := TakeWord(u);
    var rest := u[|w|..];
    SqueezeWord(u);
    assert IsSpace(rest[0]);
    assert Squeeze(rest) == " " + Squeeze(LStrip(rest));
  }

  /** A text that is one word and nothing else squeezes and strips to that word. */
  lemma RStripSqueezeOneWord(u: string)
    requires u != [] && !IsSpace(u[0]) && |TakeWord(u)| == |u|
    ensures RStrip(Squeeze(u)) == JoinWords(Words(u))
  {
    var w := TakeWord(u);
    SqueezeWord(u);
    WordsOfWordStart(u);
    assert u[|w|..] == [];
    assert Squeeze(u) == w + [];
    assert Words(u) == [w] + [];
    assert RStrip(w) == w;
  }

  /** A word followed by trailing whitespace only: the squeezed space is stripped again. */
  lemma RStripSqueezeTrailing(u: string)
    requires u != [] && !IsSpace(u[0]) && |TakeWord(u)| < |u|
    requires LStrip(u[|TakeWord(u)|..]) == []
    ensures RStrip(Squeeze(u)) == JoinWords(Words(u))
  {
    SqueezeTrailing(u);
    WordsTrailing(u);
  }

  lemma SqueezeTrailing(u: string)
    requires u != [] && !IsSpace(u[0]) && |TakeWord(u)| < |u|
    requires LStrip(u[|TakeWord(u)|..]) == []
    ensures RStrip(Squeeze(u)) == TakeWord(u)
  {
    SqueezeWordThenNothing(u);
    RStripTrailingSpace(TakeWord(u));
  }

  /** A word followed by whitespace only squeezes to the word and one space. */
  lemma SqueezeWordThenNothing(u: string)
    requires u != [] && !IsSpace(u[0]) && |TakeWord(u)| < |u|
    requires LStrip(u[|TakeWord(u)|..]) == []
    ensures Squeeze(u) == TakeWord(u) + " "
  {
    SqueezeWordThenSpace(u);
  }

  lemma WordsTrailing(u: string)
    requires u != [] && !IsSpace(u[0]) && |TakeWord(u)| < |u|
    requires LStrip(u[|TakeWord(u)|..]) == []
    ensures Words(u) == [TakeWord(u)]
  {
    WordsOfWordStart(u);
    WordsSkipSpaces(u[|TakeWord(u)|..]);
    assert [TakeWord(u)] + [] == [TakeWord(u)];
  }

  /** A word, whitespace, then more text, given the claim for the text after the whitespace. */
  lemma RStripSqueezeMore(u: string)
    requires u != [] && !IsSpace(u[0]) && |TakeWord(u)| < |u|
    requires LStrip(u[|TakeWord(u)|..]) != []
    requires RStrip(Squeeze(LStrip(u[|TakeWord(u)|..]))) == JoinWords(Words(LStrip(u[|TakeWord(u)|..])))
    ensures RStrip(Squeeze(u)) == JoinWords(Words(u))
  {
    var w := TakeWord(u);
    var rest := u[|w|..];
    var v := LStrip(rest);
    assert IsWord(w);
    WordsOfWordStart(u);
    WordsSkipSpaces(rest);
    SqueezeWordThenSpace(u);
    var sv := Squeeze(v);
    assert sv[0] == v[0];
    RStripNonSpaceStart(sv);
    JoinStep(w, Words(v), sv);
  }

  lemma {:induction false} RStripSqueezeNoLead(u: string)
    requires u == [] || !IsSpace(u[0])
    ensures RStrip(Squeeze(u)) == JoinWords(Words(u))
    decreases |u|
  {
    if u != [] {
      var rest := u[|TakeWord(u)|..];
      if rest == [] {
        RStripSqueezeOneWord(u);
      } else if LStrip(rest) == [] {
        RStripSqueezeTrailing(u);
      } else {
        RStripSqueezeNoLead(LStrip(rest));
        RStripSqueezeMore(u);
      }
    }
  }

  lemma LStripSqueeze(s: string)
    ensures LStrip(Squeeze(s)) == Squeeze(LStrip(s))
  {
    var u := LStrip(s);
    if u != [] {
      assert Squeeze(u)[0] == u[0];
    }
    if s != [] && IsSpace(s[0]) {
      assert Squeeze(s) == " " + Squeeze(u);
      assert LStrip(" " + Squeeze(u)) == LStrip(Squeeze(u));
    } else {
      assert u == s;
    }
  }

  /** `limpar(s)` is `" ".join(s.split())`. */
  lemma LimparIsJoinOfWords(s: string)
    ensures (if s == [] then [] else Strip(Squeeze(s))) == JoinWords(Words(s))
  {
    if s != [] {
      LStripSqueeze(s);
      RStripSqueezeNoLead(LStrip(s));
      LStripIdempotent(s);
    }
  }

  // ---------------------------------------------------------------------------
  // Properties of the joined form
  // ---------------------------------------------------------------------------

  lemma {:induction false} JoinWordsCanonical(ws: seq<string>)
    requires forall k :: 0 <= k < |ws| ==> IsWord(ws[k])
    ensures Canonical(JoinWords(ws))
    ensures ws != [] ==> JoinWords(ws) != []
  {
    if |ws| >= 2 {
      JoinWordsCanonical(ws[1..]);
      var w := ws[0];
      var rest := JoinWords(ws[1..]);
      var r := w + (" " + rest);
      assert JoinWords(ws) == r;
      forall i | 0 <= i < |r| - 1
        ensures !(IsSpace(r[i]) && IsSpace(r[i + 1]))
      {
        if i < |w| - 1 {
        } else if i == |w| - 1 {
          assert !IsSpace(r[i]);
        } else if i == |w| {
          assert r[i + 1] == rest[0];
        } else {
          assert r[i] == rest[i - |w| - 1] && r[i + 1] == rest[i - |w|];
        }
      }
      forall i | 0 <= i < |r| && IsSpace(r[i])
        ensures r[i] == ' '
      {
        if i > |w| {
          assert r[i] == rest[i - |w| - 1];
        }
      }
      assert r[|r| - 1] == rest[|rest| - 1];
    }
  }

  lemma TakeWordOfJoin(w: string, t: string)
    requires IsWord(w)
    requires t == [] || IsSpace(t[0])
    ensures TakeWord(w + t) == w
    decreases |w|
  {
    if |w| > 1 {
      assert (w + t)[1..] == w[1..] + t;
      TakeWordOfJoin(w[1..], t);
    } else {
      assert (w + t)[1..] == t;
    }
  }

  lemma WordsOfWordSpaceRest(w: string, rest: string)
    requires IsWord(w)
    requires rest == [] || !IsSpace(rest[0])
    ensures Words(w + (" " + rest)) == [w] + Words(rest)
  {
    var u := w + (" " + rest);
    TakeWordOfJoin(w, " " + rest);
    assert u[0] == w[0];
    WordsOfWordStart(u);
    assert u[|w|..] == " " + rest;
    WordsSkipSpaces(" " + rest);
    assert LStrip(" " + rest) == LStrip(rest);
  }

  lemma WordsOfOneWord(w: string)
    requires IsWord(w)
    ensures Words(JoinWords([w])) == [w]
  {
    WordsOfWordStart(w);
    TakeWordOfJoin(w, []);
    assert w + [] == w;
    assert w[|w|..] == [];
  }

  lemma WordsOfJoinHead(w: string, tail: seq<string>)
    requires IsWord(w) && tail != [] && forall k :: 0 <= k < |tail| ==> IsWord(tail[k])
    requires Words(JoinWords(tail)) == tail
    ensures Words(w + (" " + JoinWords(tail))) == [w] + tail
  {
    JoinWordsCanonical(tail);
    WordsOfWordSpaceRest(w, JoinWords(tail));
  }

  lemma WordsOfJoinStep(ws: seq<string>)
    requires |ws| >= 2 && forall k :: 0 <= k < |ws| ==> IsWord(ws[k])
    requires Words(JoinWords(ws[1..])) == ws[1..]
    ensures Words(JoinWords(ws)) == ws
  {
    var tail := ws[1..];
    assert forall k :: 0 <= k < |tail| ==> IsWord(tail[k]);
    assert JoinWords(ws) == ws[0] + (" " + JoinWords(tail));
    WordsOfJoinHead(ws[0], tail);
    HeadTail(ws);
  }

  lemma {:induction false} WordsOfJoin(ws: seq<string>)
    requires forall k :: 0 <= k < |ws| ==> IsWord(ws[k])
    ensures Words(JoinWords(ws)) == ws
  {
    if |ws| == 1 {
      WordsOfOneWord(ws[0]);
      assert ws == [ws[0]];
    } else if |ws| >= 2 {
      assert forall k :: 0 <= k < |ws[1..]| ==> IsWord(ws[1..][k]);
      WordsOfJoin(ws[1..]);
      WordsOfJoinStep(ws);
    }
  }

  /** Cleaning twice is cleaning once. */
  lemma LimparIdempotent(s: string)
    ensures Limpar(Limpar(s)) == Limpar(s)
  {
    LimparIsJoinOfWords(s);
    LimparIsJoinOfWords(Limpar(s));
    WordsAreWords(s);
    WordsOfJoin(Words(s));
  }

  lemma {:induction false} NonSpaceConcat(a: string, b: string)
    ensures NonSpace(a + b) == NonSpace(a) + NonSpace(b)
    decreases |a|
  {
    if a == [] {
      assert a + b == b;
    } else {
      var h := if IsSpace(a[0]) then [] else [a[0]];
      assert (a + b)[0] == a[0];
      assert (a + b)[1..] == a[1..] + b;
      NonSpaceConcat(a[1..], b);
      ConcatAssoc(h, NonSpace(a[1..]), NonSpace(b));
    }
  }

  lemma {:induction false} NonSpaceOfWord(w: string)
    requires forall i :: 0 <= i < |w| ==> !IsSpace(w[i])
    ensures NonSpace(w) == w
    decreases |w|
  {
    if w != [] {
      NonSpaceOfWord(w[1..]);
    }
  }

  lemma {:induction false} NonSpaceLStrip(s: string)
    ensures NonSpace(LStrip(s)) == NonSpace(s)
    decreases |s|
  {
    if s != [] && IsSpace(s[0]) {
      NonSpaceLStrip(s[1..]);
      assert NonSpace(s) == [] + NonSpace(s[1..]);
    }
  }

  lemma NonSpaceWordStep(s: string)
    requires LStrip(s) != []
    requires var t := LStrip(s); NonSpace(t[|TakeWord(t)|..]) == Concat(Words(t[|TakeWord(t)|..]))
    ensures NonSpace(s) == Concat(Words(s))
  {
    var t := LStrip(s);
    var w := TakeWord(t);
    var rest := t[|w|..];
    calc {
      NonSpace(s);
      { NonSpaceLStrip(s); }
      NonSpace(t);
      { SplitAt(t, |w|); }
      NonSpace(w + rest);
      { NonSpaceConcat(w, rest); NonSpaceOfWord(w); }
      w + Concat(Words(rest));
      { assert ([w] + Words(rest))[1..] == Words(rest); }
      Concat([w] + Words(rest));
      Concat(Words(s));
    }
  }

  lemma {:induction false} NonSpaceIsConcatOfWords(s: string)
    ensures NonSpace(s) == Concat(Words(s))
    decreases |s|
  {
    var t := LStrip(s);
    if t == [] {
      NonSpaceLStrip(s);
    } else {
      NonSpaceIsConcatOfWords(t[|TakeWord(t)|..]);
      NonSpaceWordStep(s);
    }
  }

  lemma NonSpaceWordSpaceRest(w: string, rest: string)
    requires IsWord(w)
    ensures NonSpace(w + (" " + rest)) == w + NonSpace(rest)
  {
    assert NonSpace(" " + rest) == NonSpace(rest) by {
      assert (" " + rest)[0] == ' ';
      assert (" " + rest)[1..] == rest;
    }
    NonSpaceOfWord(w);
    NonSpaceConcat(w, " " + rest);
  }

  lemma {:induction false} NonSpaceOfJoin(ws: seq<string>)
    requires forall k :: 0 <= k < |ws| ==> IsWord(ws[k])
    ensures NonSpace(JoinWords(ws)) == Concat(ws)
  {
    if |ws| == 1 {
      NonSpaceOfWord(ws[0]);
      assert Concat(ws) == ws[0] + Concat([]);
    } else if |ws| > 1 {
      NonSpaceOfJoin(ws[1..]);
      NonSpaceWordSpaceRest(ws[0], JoinWords(ws[1..]));
    }
  }

  /** Cleaning keeps every non-whitespace character, in its original order, and adds none. */
  lemma LimparKeepsNonSpace(s: string)
    ensures NonSpace(Limpar(s)) == NonSpace(s)
  {
    LimparIsJoinOfWords(s);
    WordsAreWords(s);
    NonSpaceOfJoin(Words(s));
    NonSpaceIsConcatOfWords(s);
  }
}
