/**
 * `extrair_valor_preco` of teste02.py: a display price such as "R$ 1.234,56" read as an exact
 * decimal, with `Inf` standing for Python's `float('inf')` (missing or unparsable prices).
 */
module Price {
  import opened Wrappers
  import opened Text

  /** A normalised price: an exact non-negative decimal, or the sort-last sentinel. */
  datatype Price = Finite(value: real) | Inf

  /** The ordering `sort_values` uses on the normalised column: `Inf` is the largest value. */
  predicate Le(p: Price, q: Price) {
    q.Inf? || (p.Finite? && q.Finite? && p.value <= q.value)
  }

  lemma LeTotal(p: Price, q: Price)
    ensures Le(p, q) || Le(q, p)
  {
  }

  lemma LeTransitive(p: Price, q: Price, r: Price)
    requires Le(p, q) && Le(q, r)
    ensures Le(p, r)
  {
  }

  lemma LeAntisymmetric(p: Price, q: Price)
    requires Le(p, q) && Le(q, p)
    ensures p == q
  {
  }

  // ---------------------------------------------------------------------------
  // Digits and positional value
  // ---------------------------------------------------------------------------

  predicate AllDigits(d: string) {
    forall i :: 0 <= i < |d| ==> IsDigit(d[i])
  }

  /** The value of a string of decimal digits, most significant first ("" is 0). */
  function DigitsValue(d: string): nat
    requires AllDigits(d)
  {
    if d == [] then 0 else 10 * DigitsValue(d[..|d| - 1]) + (d[|d| - 1] as int - '0' as int)
  }

  /** Appending a digit multiplies the value by ten and adds the digit. */
  lemma DigitsValueSnoc(d: string, c: char)
    requires AllDigits(d) && IsDigit(c)
    ensures AllDigits(d + [c])
    ensures DigitsValue(d + [c]) == 10 * DigitsValue(d) + (c as int - '0' as int)
  {
    assert (d + [c])[..|d|] == d;
  }

  function Pow10(n: nat): (p: nat)
    ensures p >= 1
  {
    if n == 0 then 1 else 10 * Pow10(n - 1)
  }

  /** `float("<ip>.<fp>")` for digit strings: an error when both parts are empty. */
  function IntFrac(ip: string, fp: string): (r: Price)
    requires AllDigits(ip) && AllDigits(fp)
    ensures r.Inf? <==> ip == [] && fp == []
    ensures r.Finite? ==> r.value >= 0.0
  {
    if ip == [] && fp == [] then Inf
    else Finite(DigitsValue(ip) as real + DigitsValue(fp) as real / Pow10(|fp|) as real)
  }

  /** The digits of `s`, in order. */
  function DigitsOnly(s: string): (d: string)
    ensures AllDigits(d)
  {
    if s == [] then [] else (if IsDigit(s[0]) then [s[0]] else []) + DigitsOnly(s[1..])
  }

  // ---------------------------------------------------------------------------
  // The normaliser, step by step as the source writes it
  // ---------------------------------------------------------------------------

  /** `re.sub(r'[^\d,]', '', s)`: every character that is neither a digit nor a comma removed. */
  function KeepDigitsAndCommas(s: string): (k: string)
    ensures forall i :: 0 <= i < |k| ==> IsDigit(k[i]) || k[i] == ','
  {
    if s == [] then []
    else (if IsDigit(s[0]) || s[0] == ',' then [s[0]] else []) + KeepDigitsAndCommas(s[1..])
  }

  /** The longest prefix of `t` without the character `c`. */
  function TakeUntil(t: string, c: char): (a: string)
    ensures |a| <= |t| && a == t[..|a|]
    ensures c !in a
    ensures |a| == |t| || t[|a|] == c
    ensures c !in t ==> a == t
  {
    if t == [] || t[0] == c then [] else [t[0]] + TakeUntil(t[1..], c)
  }

  /**
   * `float(t)` for a string of digits and dots: digits with at most one dot and at least one
   * digit; any other shape raises ValueError, which the source turns into `inf`.
   */
  function ParseFloat(t: string): Price
    requires forall i :: 0 <= i < |t| ==> IsDigit(t[i]) || t[i] == '.'
  {
    var a := TakeUntil(t, '.');
    assert AllDigits(a);
    if |a| == |t| then IntFrac(a, [])
    else
      var b := t[|a| + 1..];
      if '.' in b then Inf
      else
        assert AllDigits(b) by {
          forall i | 0 <= i < |b| ensures IsDigit(b[i]) {
            assert b[i] == t[|a| + 1 + i];
          }
        }
        IntFrac(a, b)
  }

  /** `extrair_valor_preco` on a string: filter, read the comma as the decimal point, parse. */
  function Normalise(s: string): (r: Price)
    ensures r.Finite? ==> r.value >= 0.0
  {
    var dotted := ReplaceChar(KeepDigitsAndCommas(s), ',', '.');
    assert forall i :: 0 <= i < |dotted| ==> IsDigit(dotted[i]) || dotted[i] == '.';
    NormaliseNonNegative(dotted);
    ParseFloat(dotted)
  }

  lemma NormaliseNonNegative(t: string)
    requires forall i :: 0 <= i < |t| ==> IsDigit(t[i]) || t[i] == '.'
    ensures ParseFloat(t).Finite? ==> ParseFloat(t).value >= 0.0
  {
  }

  /** `extrair_valor_preco(preco_str)`: a missing value (`None`/`NaN`) is `inf`, a string is normalised. */
  function ExtractPriceValue(v: Option<string>): (r: Price)
    ensures v.None? ==> r == Inf
    ensures v.Some? ==> r == Normalise(v.value)
  {
    match v
    case None => Inf
    case Some(s) => Normalise(s)
  }

  // ---------------------------------------------------------------------------
  // Reference definition: integer part before the comma, fraction after it
  // ---------------------------------------------------------------------------

  /** The index of the first `c` in `s`, or `|s|`. */
  function IndexOfChar(s: string, c: char): (i: nat)
    ensures i <= |s|
    ensures c !in s[..i]
    ensures i < |s| ==> s[i] == c
    ensures c in s ==> i < |s|
  {
    if s == [] || s[0] == c then 0 else 1 + IndexOfChar(s[1..], c)
  }

  /**
   * What the normaliser means: with no comma the digits are an integer; with one comma the
   * digits before it are the integer part and those after it the fraction; with two or more
   * commas, or no digit at all, the price is `Inf`.
   */
  ghost function Reference(s: string): Price {
    var n := CountChar(s, ',');
    if n == 0 then IntFrac(DigitsOnly(s), [])
    else if n == 1 then
      var i := IndexOfChar(s, ',');
      IntFrac(DigitsOnly(s[..i]), DigitsOnly(s[i + 1..]))
    else Inf
  }

  lemma {:induction false} KeepConcat(a: string, b: string)
    ensures KeepDigitsAndCommas(a + b) == KeepDigitsAndCommas(a) + KeepDigitsAndCommas(b)
    decreases |a|
  {
    if a == [] {
      assert a + b == b;
    } else {
      assert (a + b)[0] == a[0];
      assert (a + b)[1..] == a[1..] + b;
      KeepConcat(a[1..], b);
    }
  }

  lemma {:induction false} KeepWithoutComma(a: string)
    requires ',' !in a
    ensures KeepDigitsAndCommas(a) == DigitsOnly(a)
    decreases |a|
  {
    if a != [] {
      assert ',' !in a[1..] by { assert forall i :: 0 <= i < |a| - 1 ==> a[1..][i] == a[i + 1]; }
      KeepWithoutComma(a[1..]);
    }
  }

  lemma ReplaceDigits(d: string)
    requires AllDigits(d)
    ensures ReplaceChar(d, ',', '.') == d
  {
  }

  lemma {:induction false} CountConcat(a: string, b: string, c: char)
    ensures CountChar(a + b, c) == CountChar(a, c) + CountChar(b, c)
    decreases |a|
  {
    if a == [] {
      assert a + b == b;
    } else {
      assert (a + b)[0] == a[0];
      assert (a + b)[1..] == a[1..] + b;
      CountConcat(a[1..], b, c);
    }
  }

  /** The filter keeps the one comma and the digits on each side of it. */
  lemma KeepOneComma(a: string, b: string)
    requires ',' !in a && ',' !in b
    ensures KeepDigitsAndCommas(a + [','] + b) == DigitsOnly(a) + [','] + DigitsOnly(b)
  {
    KeepConcat(a + [','], b);
    KeepConcat(a, [',']);
    KeepWithoutComma(a);
    KeepWithoutComma(b);
    assert KeepDigitsAndCommas([',']) == [','];
  }

  /** The dotted string the normaliser parses, for an input with one comma. */
  lemma DottedOneComma(a: string, b: string)
    requires ',' !in a && ',' !in b
    ensures ReplaceChar(KeepDigitsAndCommas(a + [','] + b), ',', '.') == DigitsOnly(a) + ['.'] + DigitsOnly(b)
  {
    KeepOneComma(a, b);
    var da, db := DigitsOnly(a), DigitsOnly(b);
    ReplaceConcat(da + [','], db);
    ReplaceConcat(da, [',']);
    ReplaceDigits(da);
    ReplaceDigits(db);
    assert ReplaceChar([','], ',', '.') == ['.'];
  }

  lemma ParseIntDotFrac(ip: string, fp: string)
    requires AllDigits(ip) && AllDigits(fp)
    ensures ParseFloat(ip + ['.'] + fp) == IntFrac(ip, fp)
  {
    var t := ip + ['.'] + fp;
    assert '.' !in ip;
    assert t[..|ip|] == ip;
    assert TakeUntil(t, '.') == ip by {
      TakeUntilPrefix(ip, ['.'] + fp, '.');
      assert t == ip + (['.'] + fp);
    }
    assert t[|ip| + 1..] == fp;
    assert '.' !in fp;
  }

  lemma {:induction false} TakeUntilPrefix(a: string, b: string, c: char)
    requires c !in a
    requires b != [] && b[0] == c
    ensures TakeUntil(a + b, c) == a
    decreases |a|
  {
    if a == [] {
      assert a + b == b;
    } else {
      assert (a + b)[1..] == a[1..] + b;
      TakeUntilPrefix(a[1..], b, c);
    }
  }

  lemma NormaliseNoComma(s: string)
    requires ',' !in s
    ensures Normalise(s) == IntFrac(DigitsOnly(s), [])
  {
    KeepWithoutComma(s);
    ReplaceDigits(DigitsOnly(s));
    var d := DigitsOnly(s);
    assert '.' !in d;
  }

  lemma NormaliseOneComma(a: string, b: string)
    requires ',' !in a && ',' !in b
    ensures Normalise(a + [','] + b) == IntFrac(DigitsOnly(a), DigitsOnly(b))
  {
    DottedOneComma(a, b);
    ParseIntDotFrac(DigitsOnly(a), DigitsOnly(b));
  }

  lemma ReplaceConcat(x: string, y: string)
    ensures ReplaceChar(x + y, ',', '.') == ReplaceChar(x, ',', '.') + ReplaceChar(y, ',', '.')
  {
  }

  lemma {:induction false} KeepHasComma(b: string)
    requires ',' in b
    ensures ',' in KeepDigitsAndCommas(b)
    decreases |b|
  {
    if b[0] != ',' {
      assert ',' in b[1..] by {
        var j :| 0 <= j < |b| && b[j] == ',';
        assert b[1..][j - 1] == ',';
      }
      KeepHasComma(b[1..]);
    }
  }

  lemma ParseTwoDots(x: string, y: string)
    requires AllDigits(x)
    requires forall i :: 0 <= i < |y| ==> IsDigit(y[i]) || y[i] == '.'
    requires '.' in y
    ensures ParseFloat(x + (['.'] + y)) == Inf
  {
    var t := x + (['.'] + y);
    assert '.' !in x;
    TakeUntilPrefix(x, ['.'] + y, '.');
    assert t[|x| + 1..] == y;
  }

  lemma NormaliseTwoCommas(a: string, b: string)
    requires ',' !in a && ',' in b
    ensures Normalise(a + [','] + b) == Inf
  {
    var da, kb := DigitsOnly(a), KeepDigitsAndCommas(b);
    KeepConcat(a + [','], b);
    KeepConcat(a, [',']);
    KeepWithoutComma(a);
    assert KeepDigitsAndCommas([',']) == [','];
    ReplaceConcat(da + [','], kb);
    ReplaceConcat(da, [',']);
    ReplaceDigits(da);
    assert ReplaceChar([','], ',', '.') == ['.'];
    var rb := ReplaceChar(kb, ',', '.');
    KeepHasComma(b);
    assert '.' in rb by {
      var j :| 0 <= j < |kb| && kb[j] == ',';
      assert rb[j] == '.';
    }
    assert da + ['.'] + rb == da + (['.'] + rb);
    ParseTwoDots(da, rb);
  }

  /** The normaliser agrees with the reference definition on every input. */
  lemma NormaliseMatchesReference(s: string)
    ensures Normalise(s) == Reference(s)
  {
    var n := CountChar(s, ',');
    if n == 0 {
      NormaliseNoComma(s);
    } else {
      var i := IndexOfChar(s, ',');
      var a := s[..i];
      var b := s[i + 1..];
      assert s == a + [','] + b;
      CountConcat(a + [','], b, ',');
      CountConcat(a, [','], ',');
      assert CountChar([','], ',') == 1;
      if n == 1 {
            NormaliseOneComma(a, b);
      } else {
        NormaliseTwoCommas(a, b);
      }
    }
  }

  /** The normaliser yields `Inf` exactly when the input has no digit or two or more commas. */
  lemma NormaliseInfIff(s: string)
    ensures Normalise(s).Inf? <==> DigitsOnly(s) == [] || CountChar(s, ',') >= 2
  {
    NormaliseMatchesReference(s);
    if CountChar(s, ',') == 1 {
      DigitsAroundComma(s);
    }
  }

  /** The digits of a string split at its first comma are the digits of the two sides. */
  lemma DigitsAroundComma(s: string)
    requires ',' in s
    ensures DigitsOnly(s) == DigitsOnly(s[..IndexOfChar(s, ',')]) + DigitsOnly(s[IndexOfChar(s, ',') + 1..])
  {
    var i := IndexOfChar(s, ',');
    assert s == s[..i] + [','] + s[i + 1..];
    DigitsAroundSep(s[..i], s[i + 1..]);
  }

  lemma DigitsAroundSep(a: string, b: string)
    ensures DigitsOnly(a + [','] + b) == DigitsOnly(a) + DigitsOnly(b)
  {
    assert a + [','] + b == a + ([','] + b);
    DigitsConcat(a, [','] + b);
    DigitsOnlyCons(',', b);
  }

  lemma {:induction false} DigitsConcat(a: string, b: string)
    ensures DigitsOnly(a + b) == DigitsOnly(a) + DigitsOnly(b)
    decreases |a|
  {
    if a == [] {
      assert a + b == b;
    } else {
      var h := if IsDigit(a[0]) then [a[0]] else [];
      assert (a + b)[0] == a[0];
      assert (a + b)[1..] == a[1..] + b;
      DigitsConcat(a[1..], b);
      assert DigitsOnly(a + b) == h + (DigitsOnly(a[1..]) + DigitsOnly(b));
      assert h + (DigitsOnly(a[1..]) + DigitsOnly(b)) == (h + DigitsOnly(a[1..])) + DigitsOnly(b);
    }
  }

  /** A string of digits is its own digit filter. */
  lemma {:induction false} DigitsOnlyOfDigits(d: string)
    requires AllDigits(d)
    ensures DigitsOnly(d) == d
    decreases |d|
  {
    if d != [] {
      DigitsOnlyOfDigits(d[1..]);
    }
  }

  /** The decimal digits of `n` read back give `n`. */
  lemma {:induction false} DigitsValueOfNat(n: nat)
    ensures DigitsValue(NatToString(n)) == n
    decreases n
  {
    if n >= 10 {
      DigitsValueOfNat(n / 10);
      DigitsValueSnoc(NatToString(n / 10), (n % 10 + '0' as int) as char);
    }
  }

  /** `str()` of an integer rank normalises to that integer. */
  lemma NormaliseNat(n: nat)
    ensures Normalise(NatToString(n)) == Finite(n as real)
  {
    var d := NatToString(n);
    assert ',' !in d;
    NormaliseNoComma(d);
    DigitsOnlyOfDigits(d);
    DigitsValueOfNat(n);
  }

  // ---------------------------------------------------------------------------
  // Worked examples
  // ---------------------------------------------------------------------------

  /** Dropping one leading character keeps it exactly when it is a digit. */
  lemma DigitsOnlyCons(c: char, s: string)
    ensures DigitsOnly([c] + s) == (if IsDigit(c) then [c] else []) + DigitsOnly(s)
  {
    assert ([c] + s)[1..] == s;
  }

  lemma DigitsOfThousands()
    ensures DigitsOnly("R$ 1.234") == "1234"
  {
    DigitsOnlyCons('4', []);
    DigitsOnlyCons('3', "4");
    DigitsOnlyCons('2', "34");
    DigitsOnlyCons('.', "234");
    DigitsOnlyCons('1', ".234");
    DigitsOnlyCons(' ', "1.234");
    DigitsOnlyCons('$', " 1.234");
    DigitsOnlyCons('R', "$ 1.234");
  }

  lemma DigitsOfDotted()
    ensures DigitsOnly("R$ 1299.00") == "129900"
  {
    DigitsOfDottedTail();
    DigitsOnlyCons('1', "299.00");
    DigitsOnlyCons(' ', "1299.00");
    DigitsOnlyCons('$', " 1299.00");
    DigitsOnlyCons('R', "$ 1299.00");
  }

  lemma DigitsOfDottedTail()
    ensures DigitsOnly("299.00") == "29900"
  {
    DigitsOnlyCons('0', []);
    DigitsOnlyCons('0', "0");
    DigitsOnlyCons('.', "00");
    DigitsOnlyCons('9', ".00");
    DigitsOnlyCons('9', "9.00");
    DigitsOnlyCons('2', "99.00");
  }

  lemma DigitsOfWord()
    ensures DigitsOnly("indisponível") == []
  {
    assert DigitsOnly("l") == [];
    assert DigitsOnly("el") == [];
    assert DigitsOnly("vel") == [];
    assert DigitsOnly("ível") == [];
    assert DigitsOnly("nível") == [];
    assert DigitsOnly("onível") == [];
    assert DigitsOnly("ponível") == [];
    assert DigitsOnly("sponível") == [];
    assert DigitsOnly("isponível") == [];
    assert DigitsOnly("disponível") == [];
    assert DigitsOnly("ndisponível") == [];
  }

  lemma ValueOf1234()
    ensures DigitsValue("1234") == 1234
  {
    DigitsValueSnoc([], '1'); assert [] + ['1'] == "1";
    DigitsValueSnoc("1", '2'); assert "1" + ['2'] == "12";
    DigitsValueSnoc("12", '3'); assert "12" + ['3'] == "123";
    DigitsValueSnoc("123", '4'); assert "123" + ['4'] == "1234";
  }

  lemma ValueOf56()
    ensures DigitsValue("56") == 56
  {
    DigitsValueSnoc([], '5'); assert [] + ['5'] == "5";
    DigitsValueSnoc("5", '6'); assert "5" + ['6'] == "56";
  }

  lemma ValueOf12()
    ensures DigitsValue("12") == 12
  {
    DigitsValueSnoc([], '1'); assert [] + ['1'] == "1";
    DigitsValueSnoc("1", '2'); assert "1" + ['2'] == "12";
  }

  lemma ValueOf129900()
    ensures DigitsValue("129900") == 129900
  {
    DigitsValueSnoc([], '1'); assert [] + ['1'] == "1";
    DigitsValueSnoc("1", '2'); assert "1" + ['2'] == "12";
    DigitsValueSnoc("12", '9'); assert "12" + ['9'] == "129";
    DigitsValueSnoc("129", '9'); assert "129" + ['9'] == "1299";
    DigitsValueSnoc("1299", '0'); assert "1299" + ['0'] == "12990";
    DigitsValueSnoc("12990", '0'); assert "12990" + ['0'] == "129900";
  }

  lemma IntFracWhole(ip: string)
    requires AllDigits(ip) && ip != []
    ensures IntFrac(ip, []) == Finite(DigitsValue(ip) as real)
  {
  }

  lemma IntFracParts(ip: string, fp: string)
    requires AllDigits(ip) && AllDigits(fp) && fp != []
    ensures IntFrac(ip, fp) == Finite(DigitsValue(ip) as real + DigitsValue(fp) as real / Pow10(|fp|) as real)
  {
  }

  /** A string with one comma, given the digits on each side. */
  lemma OneCommaDigits(s: string, a: string, b: string, ip: string, fp: string)
    requires s == a + [','] + b && ',' !in a && ',' !in b
    requires DigitsOnly(a) == ip && DigitsOnly(b) == fp
    ensures AllDigits(ip) && AllDigits(fp) && Normalise(s) == IntFrac(ip, fp)
  {
    NormaliseOneComma(a, b);
  }

  lemma ThousandsParts(s: string, ip: string, fp: string)
    requires s == "R$ 1.234,56" && ip == "1234" && fp == "56"
    ensures AllDigits(ip) && AllDigits(fp) && Normalise(s) == IntFrac(ip, fp)
  {
    var a := "R$ 1.234";
    assert a + [','] + fp == s;
    assert ',' !in a;
    DigitsOfThousands();
    DigitsOnlyOfDigits(fp);
    OneCommaDigits(s, a, fp, ip, fp);
  }

  lemma ThousandsValue(ip: string, fp: string)
    requires ip == "1234" && fp == "56"
    ensures AllDigits(ip) && AllDigits(fp) && IntFrac(ip, fp) == Finite(1234.56)
  {
    ValueOf1234();
    ValueOf56();
    IntFracParts("1234", "56");
    assert Pow10(2) == 100;
  }

  /** "R$ 1.234,56" is 1234.56: the thousands dot is dropped and the comma is the decimal point. */
  lemma ExampleThousandsAndCents(s: string)
    requires s == "R$ 1.234,56"
    ensures Normalise(s) == Finite(1234.56)
  {
    ThousandsParts(s, "1234", "56");
    ThousandsValue("1234", "56");
  }

  /** "1234" is 1234. */
  lemma ExamplePlain(s: string)
    requires s == "1234"
    ensures Normalise(s) == Finite(1234.0)
  {
    NormaliseNoComma(s);
    DigitsOnlyOfDigits(s);
    ValueOf1234();
    IntFracWhole(s);
  }

  /** "12,5" is 12.5. */
  lemma ExampleOneDecimal(s: string)
    requires s == "12,5"
    ensures Normalise(s) == Finite(12.5)
  {
    OneDecimalParts(s, "12", "5");
    OneDecimalValue("12", "5");
  }

  lemma OneDecimalParts(s: string, ip: string, fp: string)
    requires s == "12,5" && ip == "12" && fp == "5"
    ensures AllDigits(ip) && AllDigits(fp) && Normalise(s) == IntFrac(ip, fp)
  {
    assert ip + [','] + fp == s;
    DigitsOnlyOfDigits(ip);
    DigitsOnlyOfDigits(fp);
    OneCommaDigits(s, ip, fp, ip, fp);
  }

  lemma OneDecimalValue(ip: string, fp: string)
    requires ip == "12" && fp == "5"
    ensures AllDigits(ip) && AllDigits(fp) && IntFrac(ip, fp) == Finite(12.5)
  {
    ValueOf12();
    DigitsValueSnoc([], '5');
    assert [] + ['5'] == fp;
    IntFracParts(ip, fp);
    assert Pow10(1) == 10;
  }

  /** "R$ 1299.00" is 129900: a dot is never a decimal point. */
  lemma ExampleDotIsDropped(s: string)
    requires s == "R$ 1299.00"
    ensures Normalise(s) == Finite(129900.0)
  {
    NormaliseNoComma(s);
    DigitsOfDotted();
    ValueOf129900();
    IntFracWhole("129900");
  }

  /** "indisponível" has no digit, so it is `Inf`. */
  lemma ExampleNoDigits(s: string)
    requires s == "indisponível"
    ensures Normalise(s) == Inf
  {
    DigitsOfWord();
    NormaliseInfIff(s);
  }

  /** A lone "," has no digit on either side, so it is `Inf`. */
  lemma ExampleLoneComma(s: string)
    requires s == ","
    ensures Normalise(s) == Inf
  {
    assert [] + [','] + [] == s;
    NormaliseOneComma([], []);
  }

  /** "1,2,3" has two commas, so it is `Inf`. */
  lemma ExampleTwoCommas(s: string)
    requires s == "1,2,3"
    ensures Normalise(s) == Inf
  {
    assert "1" + [','] + "2,3" == s;
    assert ',' in "2,3" by { assert "2,3"[1] == ','; }
    NormaliseTwoCommas("1", "2,3");
  }
}
