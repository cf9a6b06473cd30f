/**
 * `aplicar_ranking_e_preco_indicado` of teste02.py: the SIM rows sorted by normalised price and
 * ranked 1..k, every other row "N/A", and one indicated-price text shared by all rows.
 *
 * `sort_values` does not fix the order of rows with equal prices, so the ranking is defined for
 * any admissible order (`IsPriceOrder`); `SortedSims` is one such order, and the properties are
 * proved for all of them.
 */
module Ranking {
  import opened Wrappers
  import opened Text
  import opened Price
  import opened Frame

  const Compat := "compatibilidade"
  const PriceCol := "Pre\U{e7}o"
  const StoreCol := "Loja"
  const RankCol := "ranking"
  const IndicatedCol := "pre\U{e7}o_indicado"
  const OfficialCol := "pre\U{e7}o_oficial"

  /** The store name that marks the official row. */
  const OfficialStore := "Comprebel (Oficial)"

  /** The filler of ranks and of missing columns. */
  const NA := Str("N/A")

  /** The columns of the result, in order. */
  const OutColumns := [RankCol, "concorrente", PriceCol, OfficialCol, IndicatedCol, StoreCol,
                       "qtd_vendida", "link", "principal", Compat]

  /** `row["compatibilidade"] == "SIM"`. */
  predicate IsSim(row: map<string, Cell>) {
    At(row, Compat) == Str("SIM")
  }

  /** `extrair_valor_preco(row["Preço"])`. */
  function Key(row: map<string, Cell>): Price {
    PriceOfCell(At(row, PriceCol))
  }

  /** The verdict of every row, read off the `compatibilidade` column alone. */
  function Flags(f: Frame): (b: seq<bool>)
    ensures |b| == |f.rows|
    ensures forall i :: 0 <= i < |f.rows| ==> b[i] == IsSim(f.rows[i])
  {
    var col := Column(f, Compat);
    seq(|col|, i requires 0 <= i < |col| => col[i] == Str("SIM"))
  }

  /** The normalised price of every row, read off the `Preço` column alone. */
  function Keys(f: Frame): (k: seq<Price>)
    ensures |k| == |f.rows|
    ensures forall i :: 0 <= i < |f.rows| ==> k[i] == Key(f.rows[i])
  {
    var col := Column(f, PriceCol);
    seq(|col|, i requires 0 <= i < |col| => PriceOfCell(col[i]))
  }

  /** The indices at or after `lo` whose flag is set, increasing. */
  function Selected(b: seq<bool>, lo: nat): (xs: seq<nat>)
    requires lo <= |b|
    ensures forall j :: 0 <= j < |xs| ==> lo <= xs[j] < |b| && b[xs[j]]
    ensures forall i :: lo <= i < |b| && b[i] ==> i in xs
    ensures forall a, c :: 0 <= a < c < |xs| ==> xs[a] < xs[c]
    decreases |b| - lo
  {
    if lo == |b| then [] else (if b[lo] then [lo] else []) + Selected(b, lo + 1)
  }

  /** `df[df["compatibilidade"] == "SIM"].index`: exactly the SIM rows, in table order. */
  function SimIndices(f: Frame): (xs: seq<nat>)
    ensures forall j :: 0 <= j < |xs| ==> xs[j] < |f.rows| && IsSim(f.rows[xs[j]])
    ensures forall i :: 0 <= i < |f.rows| && IsSim(f.rows[i]) ==> i in xs
    ensures forall a, c :: 0 <= a < c < |xs| ==> xs[a] < xs[c]
  {
    Selected(Flags(f), 0)
  }

  // ---------------------------------------------------------------------------
  // Orders by price
  // ---------------------------------------------------------------------------

  predicate InBounds(keys: seq<Price>, xs: seq<nat>) {
    forall j :: 0 <= j < |xs| ==> xs[j] < |keys|
  }

  /** `xs` lists indices of `keys` by non-decreasing key. */
  predicate SortedBy(keys: seq<Price>, xs: seq<nat>) {
    && InBounds(keys, xs)
    && forall a, c :: 0 <= a < c < |xs| ==> Le(keys[xs[a]], keys[xs[c]])
  }

  /**
   * An order `sort_values('preco_numerico')` may produce: the SIM row indices, each once, by
   * non-decreasing normalised price.
   */
  predicate IsPriceOrder(f: Frame, order: seq<nat>) {
    multiset(order) == multiset(SimIndices(f)) && SortedBy(Keys(f), order)
  }

  /** Insert `x` before the first element with a larger-or-equal key. */
  function Insert(keys: seq<Price>, x: nat, xs: seq<nat>): (r: seq<nat>)
    requires x < |keys| && InBounds(keys, xs)
    ensures InBounds(keys, r)
    ensures multiset(r) == multiset(xs) + multiset{x}
  {
    if xs == [] then [x]
    else if Le(keys[x], keys[xs[0]]) then [x] + xs
    else
      assert xs == [xs[0]] + xs[1..];
      [xs[0]] + Insert(keys, x, xs[1..])
  }

  /** Every key of `Insert(keys, x, xs)` is at least `lo` when `x`'s and those of `xs` are. */
  lemma InsertLowerBound(keys: seq<Price>, x: nat, xs: seq<nat>, lo: Price)
    requires x < |keys| && InBounds(keys, xs)
    requires Le(lo, keys[x]) && forall j :: 0 <= j < |xs| ==> Le(lo, keys[xs[j]])
    ensures forall j :: 0 <= j < |Insert(keys, x, xs)| ==> Le(lo, keys[Insert(keys, x, xs)[j]])
  {
    var r := Insert(keys, x, xs);
    forall j | 0 <= j < |r|
      ensures Le(lo, keys[r[j]])
    {
      assert r[j] in multiset(r);
      if r[j] != x {
        assert r[j] in multiset(xs);
        var t :| 0 <= t < |xs| && xs[t] == r[j];
      }
    }
  }

  /** A key at most every key of a sorted `r` can go in front of it. */
  lemma ConsSorted(keys: seq<Price>, h: nat, r: seq<nat>)
    requires h < |keys| && SortedBy(keys, r)
    requires forall j :: 0 <= j < |r| ==> Le(keys[h], keys[r[j]])
    ensures SortedBy(keys, [h] + r)
  {
    var s := [h] + r;
    forall a, c | 0 <= a < c < |s|
      ensures Le(keys[s[a]], keys[s[c]])
    {
      assert s[c] == r[c - 1];
      if a > 0 {
        assert s[a] == r[a - 1];
      }
    }
  }

  lemma {:induction false} InsertSorted(keys: seq<Price>, x: nat, xs: seq<nat>)
    requires x < |keys| && SortedBy(keys, xs)
    ensures SortedBy(keys, Insert(keys, x, xs))
    decreases |xs|
  {
    if xs == [] {
    } else if Le(keys[x], keys[xs[0]]) {
      forall j | 0 <= j < |xs|
        ensures Le(keys[x], keys[xs[j]])
      {
        if j > 0 {
          LeTransitive(keys[x], keys[xs[0]], keys[xs[j]]);
        }
      }
      ConsSorted(keys, x, xs);
    } else {
      var tail := xs[1..];
      assert SortedBy(keys, tail) by {
        forall a, c | 0 <= a < c < |tail|
          ensures Le(keys[tail[a]], keys[tail[c]])
        {
          assert tail[a] == xs[a + 1] && tail[c] == xs[c + 1];
        }
      }
      InsertSorted(keys, x, tail);
      LeTotal(keys[x], keys[xs[0]]);
      assert forall j :: 0 <= j < |tail| ==> Le(keys[xs[0]], keys[tail[j]]) by {
        forall j | 0 <= j < |tail|
          ensures Le(keys[xs[0]], keys[tail[j]])
        {
          assert tail[j] == xs[j + 1];
        }
      }
      InsertLowerBound(keys, x, tail, keys[xs[0]]);
      ConsSorted(keys, xs[0], Insert(keys, x, tail));
    }
  }

  /** Insertion sort of indices by key: a permutation of its input, sorted. */
  function Sort(keys: seq<Price>, xs: seq<nat>): (r: seq<nat>)
    requires InBounds(keys, xs)
    ensures multiset(r) == multiset(xs)
    ensures SortedBy(keys, r)
  {
    if xs == [] then []
    else
      assert xs == [xs[0]] + xs[1..];
      var s := Sort(keys, xs[1..]);
      InsertSorted(keys, xs[0], s);
      Insert(keys, xs[0], s)
  }

  /** The order the stable insertion sort gives; one admissible order. */
  function SortedSims(f: Frame): (order: seq<nat>)
    ensures IsPriceOrder(f, order)
  {
    Sort(Keys(f), SimIndices(f))
  }

  lemma {:induction false} IncreasingCountOne(xs: seq<nat>)
    requires forall a, c :: 0 <= a < c < |xs| ==> xs[a] < xs[c]
    ensures forall x :: multiset(xs)[x] <= 1
    decreases |xs|
  {
    if xs != [] {
      var tail := xs[1..];
      assert xs == [xs[0]] + tail;
      IncreasingCountOne(tail);
      assert xs[0] !in tail;
    }
  }

  lemma TwoOccurrences(xs: seq<nat>, a: nat, c: nat)
    requires a < c < |xs| && xs[a] == xs[c]
    ensures multiset(xs)[xs[a]] >= 2
  {
    assert xs == xs[..a] + [xs[a]] + xs[a + 1..c] + [xs[c]] + xs[c + 1..];
  }

  lemma DistinctByCount(xs: seq<nat>)
    requires forall x :: multiset(xs)[x] <= 1
    ensures Distinct(xs)
  {
    forall a, c | 0 <= a < c < |xs|
      ensures xs[a] != xs[c]
    {
      if xs[a] == xs[c] {
        TwoOccurrences(xs, a, c);
        assert false;
      }
    }
  }

  /** An admissible order lists every SIM row exactly once and nothing else. */
  lemma OrderFacts(f: Frame, order: seq<nat>)
    requires IsPriceOrder(f, order)
    ensures |order| == |SimIndices(f)|
    ensures forall j :: 0 <= j < |order| ==> order[j] < |f.rows| && IsSim(f.rows[order[j]])
    ensures forall i :: 0 <= i < |f.rows| && IsSim(f.rows[i]) ==> i in order
    ensures Distinct(order)
  {
    var sims := SimIndices(f);
    assert |order| == |multiset(order)| == |multiset(sims)| == |sims|;
    forall j | 0 <= j < |order|
      ensures order[j] < |f.rows| && IsSim(f.rows[order[j]])
    {
      assert order[j] in multiset(order);
      assert order[j] in sims;
    }
    forall i | 0 <= i < |f.rows| && IsSim(f.rows[i])
      ensures i in order
    {
      assert i in multiset(sims);
    }
    IncreasingCountOne(sims);
    DistinctByCount(order);
  }

  // ---------------------------------------------------------------------------
  // The ranked frame
  // ---------------------------------------------------------------------------

  /** The `ranking` cell of row `i`: its position in the order plus one, or "N/A". */
  function RankCell(order: seq<nat>, i: nat): Cell {
    if i in order then Rank(Position(order, i) + 1) else NA
  }

  /** The number in a rank cell, 0 for "N/A". */
  function RankValue(x: Cell): nat {
    if x.Rank? then x.n else 0
  }

  /** `preco_terceiro`: the price of the 3rd row of the order, else of its last row, else "N/A". */
  function Reference(f: Frame, order: seq<nat>): Cell
    requires forall j :: 0 <= j < |order| ==> order[j] < |f.rows|
  {
    var prices := Column(f, PriceCol);
    var k := |order|;
    if k >= 3 then prices[order[2]]
    else if k > 0 then prices[order[k - 1]]
    else NA
  }

  /** `preco_oficial_val`: the price of the first row of the whole table sold by the official store, else "N/A". */
  function OfficialPriceCell(f: Frame): (x: Cell)
    ensures (forall i :: 0 <= i < |f.rows| ==> At(f.rows[i], StoreCol) != Str(OfficialStore)) ==> x == NA
    ensures forall i ::
      (0 <= i < |f.rows| && At(f.rows[i], StoreCol) == Str(OfficialStore) &&
       (forall j :: 0 <= j < i ==> At(f.rows[j], StoreCol) != Str(OfficialStore))) ==>
      x == At(f.rows[i], PriceCol)
  {
    var stores := Column(f, StoreCol);
    var k := Position(stores, Str(OfficialStore));
    if k < |stores| then Column(f, PriceCol)[k]
    else
      assert Str(OfficialStore) !in stores;
      NA
  }

  /** `f"{preco_terceiro} (3º) | {preco_oficial_val} (Comprebel)"`. */
  function Indicated(f: Frame, order: seq<nat>): string
    requires forall j :: 0 <= j < |order| ==> order[j] < |f.rows|
  {
    Render(Reference(f, order)) + " (3\U{ba}) | " + Render(OfficialPriceCell(f)) + " (Comprebel)"
  }

  /** When the first row is the official store's, its price is the official price. */
  lemma OfficialFirstPrice(f: Frame)
    requires |f.rows| > 0 && At(f.rows[0], StoreCol) == Str(OfficialStore)
    ensures OfficialPriceCell(f) == At(f.rows[0], PriceCol)
  {
  }

  /** One output row: the fixed columns, ranking and indicated price set, missing columns "N/A". */
  function RankedRow(row: map<string, Cell>, rank: Cell, indicated: string): (r: map<string, Cell>)
    ensures r.Keys == set c | c in OutColumns
    ensures RankCol in r && r[RankCol] == rank
    ensures IndicatedCol in r && r[IndicatedCol] == Str(indicated)
    ensures forall c :: c in OutColumns && c != RankCol && c != IndicatedCol ==>
      c in r && r[c] == (if c in row then row[c] else NA)
  {
    map c | c in OutColumns ::
      if c == RankCol then rank else if c == IndicatedCol then Str(indicated) else if c in row then row[c] else NA
  }

  /** The copied cells of a ranked row, for a row whose keys are exactly `cols`. */
  lemma RankedRowCells(row: map<string, Cell>, cols: seq<string>, rank: Cell, indicated: string)
    requires row.Keys == set c | c in cols
    ensures forall c :: c in OutColumns && c != RankCol && c != IndicatedCol ==>
      RankedRow(row, rank, indicated)[c] == (if c in cols then row[c] else NA)
  {
    forall c | c in OutColumns && c != RankCol && c != IndicatedCol
      ensures RankedRow(row, rank, indicated)[c] == (if c in cols then row[c] else NA)
    {
      assert c in row <==> c in cols;
    }
  }

  /** The output table built from the rows of `f`, one rank cell per row and one indicated text. */
  function RankRows(f: Frame, ranks: seq<Cell>, ind: string): (g: Frame)
    requires WellFormed(f) && |ranks| == |f.rows|
    ensures g.columns == OutColumns && |g.rows| == |f.rows| && WellFormed(g)
    ensures forall i :: 0 <= i < |f.rows| ==> g.rows[i][RankCol] == ranks[i] && g.rows[i][IndicatedCol] == Str(ind)
    ensures forall i, c :: 0 <= i < |f.rows| && c in OutColumns && c != RankCol && c != IndicatedCol ==>
      g.rows[i][c] == (if c in f.columns then f.rows[i][c] else NA)
  {
    var rows := seq(|f.rows|, i requires 0 <= i < |f.rows| => RankedRow(f.rows[i], ranks[i], ind));
    forall i | 0 <= i < |f.rows|
      ensures forall c :: c in OutColumns && c != RankCol && c != IndicatedCol ==>
        rows[i][c] == (if c in f.columns then f.rows[i][c] else NA)
    {
      RankedRowCells(f.rows[i], f.columns, ranks[i], ind);
    }
    Frame(OutColumns, rows)
  }

  /**
   * The ranked table for an order of row indices (admissible ones are meant): same rows in the same order, the ten output
   * columns, the rank cells, one shared indicated price, every other listed column copied
   * (or "N/A" when the input lacks it).
   */
  function ApplyRankingWith(f: Frame, order: seq<nat>): (g: Frame)
    requires WellFormed(f) && forall j :: 0 <= j < |order| ==> order[j] < |f.rows|
    ensures g.columns == OutColumns && |g.rows| == |f.rows| && WellFormed(g)
    ensures forall i :: 0 <= i < |f.rows| ==>
      g.rows[i][RankCol] == RankCell(order, i) && g.rows[i][IndicatedCol] == Str(Indicated(f, order))
    ensures forall i, c :: 0 <= i < |f.rows| && c in OutColumns && c != RankCol && c != IndicatedCol ==>
      g.rows[i][c] == (if c in f.columns then f.rows[i][c] else NA)
  {
    RankRows(f, seq(|f.rows|, i requires 0 <= i < |f.rows| => RankCell(order, i)), Indicated(f, order))
  }

  /**
   * `aplicar_ranking_e_preco_indicado(df)`: a KeyError when `compatibilidade`, `Preço` or `Loja`
   * is missing, otherwise the ranked table for the sorted order.
   */
  function ApplyRanking(f: Frame): (r: Result<Frame>)
    requires WellFormed(f)
    ensures r.Err? <==> Compat !in f.columns || PriceCol !in f.columns || StoreCol !in f.columns
    ensures r.Ok? ==> r.value == ApplyRankingWith(f, SortedSims(f))
  {
    if Compat !in f.columns || PriceCol !in f.columns || StoreCol !in f.columns then Err("KeyError")
    else Ok(ApplyRankingWith(f, SortedSims(f)))
  }

  // ---------------------------------------------------------------------------
  // Properties of every admissible order
  // ---------------------------------------------------------------------------

  /** A rank cell names its row: rank `r` belongs to the `r`-th index of the order. */
  lemma RankCellInverse(order: seq<nat>, i: nat, r: nat)
    requires RankCell(order, i) == Rank(r)
    ensures 1 <= r <= |order| && order[r - 1] == i
  {
  }

  /** Distinct listed indices get distinct rank cells. */
  lemma RankCellInjective(order: seq<nat>, i: nat, j: nat)
    requires i in order && j in order && i != j
    ensures RankCell(order, i) != RankCell(order, j)
  {
    var p, q := Position(order, i), Position(order, j);
    assert order[p] == i && order[q] == j;
  }

  /** In an order without repetitions, the `r`-th index gets rank `r`. */
  lemma RankCellOnto(order: seq<nat>, r: nat)
    requires Distinct(order) && 1 <= r <= |order|
    ensures RankCell(order, order[r - 1]) == Rank(r)
  {
    PositionOfDistinct(order, r - 1);
  }

  /**
   * The `ranking` column (row `i` of `ApplyRankingWith(f, order)` holds `RankCell(order, i)`):
   * exactly the SIM rows are ranked, their ranks are 1..k with k the number of SIM rows, each
   * rank is given to exactly one row, and every other row gets "N/A".
   */
  lemma RanksExact(f: Frame, order: seq<nat>)
    requires IsPriceOrder(f, order)
    ensures forall i :: 0 <= i < |f.rows| ==> (IsSim(f.rows[i]) <==> RankCell(order, i).Rank?)
    ensures forall i :: 0 <= i < |f.rows| && !IsSim(f.rows[i]) ==> RankCell(order, i) == NA
    ensures forall i :: 0 <= i < |f.rows| && IsSim(f.rows[i]) ==> 1 <= RankValue(RankCell(order, i)) <= |SimIndices(f)|
    ensures forall i, j :: (0 <= i < |f.rows| && 0 <= j < |f.rows| && i != j && IsSim(f.rows[i]) && IsSim(f.rows[j])) ==>
      RankCell(order, i) != RankCell(order, j)
    ensures forall r :: 1 <= r <= |SimIndices(f)| ==> RankHeld(f, order, r)
  {
    OrderFacts(f, order);
    forall i | 0 <= i < |f.rows|
      ensures IsSim(f.rows[i]) <==> i in order
    {
      if i in order {
        var p := Position(order, i);
        assert order[p] == i;
      }
    }
    forall i, j | (0 <= i < |f.rows| && 0 <= j < |f.rows| && i != j && IsSim(f.rows[i]) && IsSim(f.rows[j]))
      ensures RankCell(order, i) != RankCell(order, j)
    {
      RankCellInjective(order, i, j);
    }
    RanksCover(f, order);
  }

  /** Some SIM row of `f` holds rank `r` under `order`. */
  ghost predicate RankHeld(f: Frame, order: seq<nat>, r: nat) {
    exists i :: 0 <= i < |f.rows| && IsSim(f.rows[i]) && RankCell(order, i) == Rank(r)
  }

  /** Every rank 1..k is held by some SIM row. */
  lemma RanksCover(f: Frame, order: seq<nat>)
    requires IsPriceOrder(f, order)
    ensures forall r :: 1 <= r <= |SimIndices(f)| ==> RankHeld(f, order, r)
  {
    OrderFacts(f, order);
    forall r | 1 <= r <= |SimIndices(f)|
      ensures RankHeld(f, order, r)
    {
      var i := order[r - 1];
      assert i < |f.rows| && IsSim(f.rows[i]);
      PositionOfDistinct(order, r - 1);
      assert RankCell(order, i) == Rank(r);
    }
  }

  /** A smaller rank never has a larger normalised price. */
  lemma RanksFollowPrice(f: Frame, order: seq<nat>)
    requires IsPriceOrder(f, order)
    ensures forall i, j :: (0 <= i < |f.rows| && 0 <= j < |f.rows| && IsSim(f.rows[i]) && IsSim(f.rows[j]) &&
                            RankValue(RankCell(order, i)) < RankValue(RankCell(order, j))) ==>
      Le(Key(f.rows[i]), Key(f.rows[j]))
  {
    OrderFacts(f, order);
    forall i, j | (0 <= i < |f.rows| && 0 <= j < |f.rows| && IsSim(f.rows[i]) && IsSim(f.rows[j]) &&
                   RankValue(RankCell(order, i)) < RankValue(RankCell(order, j)))
      ensures Le(Key(f.rows[i]), Key(f.rows[j]))
    {
      var a := Position(order, i);
      var b := Position(order, j);
      assert Keys(f)[order[a]] == Key(f.rows[i]);
      assert Keys(f)[order[b]] == Key(f.rows[j]);
    }
  }

  /** A SIM row whose price cannot be read ranks after every SIM row with a readable price. */
  lemma UnreadablePricesRankLast(f: Frame, order: seq<nat>)
    requires IsPriceOrder(f, order)
    ensures forall i, j :: (0 <= i < |f.rows| && 0 <= j < |f.rows| && IsSim(f.rows[i]) && IsSim(f.rows[j]) &&
                            Key(f.rows[i]).Inf? && Key(f.rows[j]).Finite?) ==>
      RankValue(RankCell(order, j)) < RankValue(RankCell(order, i))
  {
    RanksExact(f, order);
    RanksFollowPrice(f, order);
    forall i, j | (0 <= i < |f.rows| && 0 <= j < |f.rows| && IsSim(f.rows[i]) && IsSim(f.rows[j]) &&
                   Key(f.rows[i]).Inf? && Key(f.rows[j]).Finite?)
      ensures RankValue(RankCell(order, j)) < RankValue(RankCell(order, i))
    {
      assert !Le(Key(f.rows[i]), Key(f.rows[j]));
      assert RankCell(order, i) != RankCell(order, j);
    }
  }

  /**
   * The reference price is the `Preço` of the row ranked 3 when there are at least three SIM
   * rows, of the last-ranked row when there are one or two, and "N/A" when there are none.
   */
  lemma ReferenceByRank(f: Frame, order: seq<nat>)
    requires IsPriceOrder(f, order)
    ensures |SimIndices(f)| >= 3 ==> forall i :: 0 <= i < |f.rows| && RankCell(order, i) == Rank(3) ==>
      Reference(f, order) == At(f.rows[i], PriceCol)
    ensures 1 <= |SimIndices(f)| <= 2 ==> forall i :: 0 <= i < |f.rows| && RankCell(order, i) == Rank(|SimIndices(f)|) ==>
      Reference(f, order) == At(f.rows[i], PriceCol)
    ensures |SimIndices(f)| == 0 ==> Reference(f, order) == NA
  {
    OrderFacts(f, order);
    var k := |order|;
    if k > 0 {
      var r := if k >= 3 then 3 else k;
      assert Reference(f, order) == At(f.rows[order[r - 1]], PriceCol);
      forall i | 0 <= i < |f.rows| && RankCell(order, i) == Rank(r)
        ensures order[r - 1] == i
      {
        RankCellInverse(order, i, r);
      }
    }
  }

  /** Two sorted sequences with the same elements start with the same element. */
  lemma SortedHeads(a: seq<Price>, b: seq<Price>)
    requires a != [] && b != [] && multiset(a) == multiset(b)
    requires forall x, y :: 0 <= x < y < |a| ==> Le(a[x], a[y])
    requires forall x, y :: 0 <= x < y < |b| ==> Le(b[x], b[y])
    ensures a[0] == b[0]
  {
    assert a[0] in multiset(b);
    var t :| 0 <= t < |b| && b[t] == a[0];
    assert b[0] in multiset(a);
    var s :| 0 <= s < |a| && a[s] == b[0];
    assert Le(b[0], a[0]);
    assert Le(a[0], b[0]);
    LeAntisymmetric(a[0], b[0]);
  }

  /** The tail of a non-empty sequence holds its elements but the head. */
  lemma TailMultiset<T>(a: seq<T>)
    requires a != []
    ensures multiset(a[1..]) == multiset(a) - multiset{a[0]}
  {
    HeadTail(a);
  }

  lemma SortedUnique(a: seq<Price>, b: seq<Price>)
    requires multiset(a) == multiset(b)
    requires forall x, y :: 0 <= x < y < |a| ==> Le(a[x], a[y])
    requires forall x, y :: 0 <= x < y < |b| ==> Le(b[x], b[y])
    ensures a == b
    decreases |a|
  {
    assert |a| == |multiset(a)| == |multiset(b)| == |b|;
    if a != [] {
      SortedHeads(a, b);
      TailMultiset(a);
      TailMultiset(b);
      var a', b' := a[1..], b[1..];
      assert forall x, y :: 0 <= x < y < |a'| ==> Le(a'[x], a'[y]) by {
        forall x, y | 0 <= x < y < |a'| ensures Le(a'[x], a'[y]) { assert a'[x] == a[x + 1] && a'[y] == a[y + 1]; }
      }
      assert forall x, y :: 0 <= x < y < |b'| ==> Le(b'[x], b'[y]) by {
        forall x, y | 0 <= x < y < |b'| ensures Le(b'[x], b'[y]) { assert b'[x] == b[x + 1] && b'[y] == b[y + 1]; }
      }
      SortedUnique(a', b');
      HeadTail(a);
      HeadTail(b);
    }
  }

  /** The keys of `keys` along `xs`. */
  function Along(keys: seq<Price>, xs: seq<nat>): (r: seq<Price>)
    requires InBounds(keys, xs)
    ensures |r| == |xs| && forall j :: 0 <= j < |xs| ==> r[j] == keys[xs[j]]
  {
    seq(|xs|, j requires 0 <= j < |xs| => keys[xs[j]])
  }

  /** Taking the key at position `p` out of `Along(keys, ys)`. */
  lemma AlongRemove(keys: seq<Price>, ys: seq<nat>, p: nat)
    requires InBounds(keys, ys) && p < |ys|
    ensures InBounds(keys, ys[..p] + ys[p + 1..])
    ensures multiset(Along(keys, ys)) == multiset{keys[ys[p]]} + multiset(Along(keys, ys[..p] + ys[p + 1..]))
  {
    var rest := ys[..p] + ys[p + 1..];
    var a, b := Along(keys, ys), Along(keys, rest);
    assert a == a[..p] + [a[p]] + a[p + 1..];
    assert b == a[..p] + a[p + 1..];
  }

  lemma RemoveAt(ys: seq<nat>, p: nat)
    requires p < |ys|
    ensures multiset(ys[..p] + ys[p + 1..]) == multiset(ys) - multiset{ys[p]}
  {
    assert ys == ys[..p] + [ys[p]] + ys[p + 1..];
  }

  /** One step of `AlongMultiset`: matching the first index of `xs` with position `p` of `ys`. */
  lemma AlongMultisetStep(keys: seq<Price>, xs: seq<nat>, ys: seq<nat>, p: nat)
    requires InBounds(keys, xs) && InBounds(keys, ys) && xs != [] && p < |ys| && ys[p] == xs[0]
    requires multiset(Along(keys, xs[1..])) == multiset(Along(keys, ys[..p] + ys[p + 1..]))
    ensures multiset(Along(keys, xs)) == multiset(Along(keys, ys))
  {
    AlongRemove(keys, ys, p);
    AlongRemove(keys, xs, 0);
    assert xs[..0] + xs[1..] == xs[1..];
  }

  /** A position of `ys` holding the head of `xs`, and the remainders still match. */
  lemma PickMatch(xs: seq<nat>, ys: seq<nat>) returns (p: nat)
    requires xs != [] && multiset(xs) == multiset(ys)
    ensures p < |ys| && ys[p] == xs[0]
    ensures multiset(xs[1..]) == multiset(ys[..p] + ys[p + 1..])
  {
    assert xs[0] in multiset(ys);
    p :| 0 <= p < |ys| && ys[p] == xs[0];
    RemoveAt(ys, p);
    TailMultiset(xs);
  }

  lemma {:induction false} AlongMultiset(keys: seq<Price>, xs: seq<nat>, ys: seq<nat>)
    requires InBounds(keys, xs) && InBounds(keys, ys) && multiset(xs) == multiset(ys)
    ensures multiset(Along(keys, xs)) == multiset(Along(keys, ys))
    decreases |xs|
  {
    assert |xs| == |multiset(xs)| == |multiset(ys)| == |ys|;
    if xs != [] {
      var p := PickMatch(xs, ys);
      AlongRemove(keys, ys, p);
      assert InBounds(keys, xs[1..]) by {
        forall j | 0 <= j < |xs[1..]| ensures xs[1..][j] < |keys| { assert xs[1..][j] == xs[j + 1]; }
      }
      AlongMultiset(keys, xs[1..], ys[..p] + ys[p + 1..]);
      AlongMultisetStep(keys, xs, ys, p);
    }
  }

  /** Any two admissible orders list the same prices, position by position. */
  lemma SamePricesAlong(f: Frame, o1: seq<nat>, o2: seq<nat>)
    requires IsPriceOrder(f, o1) && IsPriceOrder(f, o2)
    ensures |o1| == |o2|
    ensures forall j :: 0 <= j < |o1| ==> Key(f.rows[o1[j]]) == Key(f.rows[o2[j]])
  {
    OrderFacts(f, o1);
    OrderFacts(f, o2);
    var keys := Keys(f);
    AlongMultiset(keys, o1, o2);
    SortedUnique(Along(keys, o1), Along(keys, o2));
    assert forall j :: 0 <= j < |o1| ==> Along(keys, o1)[j] == Along(keys, o2)[j];
  }

  /** The position of the order the reference price is read from. */
  function RefPos(k: nat): nat
    requires k > 0
  {
    if k >= 3 then 2 else k - 1
  }

  /** The reference price is the `Preço` of the row at `RefPos` of the order. */
  lemma ReferenceAtRefPos(f: Frame, order: seq<nat>)
    requires forall j :: 0 <= j < |order| ==> order[j] < |f.rows|
    requires |order| > 0
    ensures RefPos(|order|) < |order|
    ensures Reference(f, order) == At(f.rows[order[RefPos(|order|)]], PriceCol)
  {
  }

  lemma SameReferencePrice(f: Frame, o1: seq<nat>, o2: seq<nat>)
    requires IsPriceOrder(f, o1) && IsPriceOrder(f, o2)
    ensures PriceOfCell(Reference(f, o1)) == PriceOfCell(Reference(f, o2))
  {
    OrderFacts(f, o1);
    OrderFacts(f, o2);
    SamePricesAlong(f, o1, o2);
    if |o1| > 0 {
      var r := RefPos(|o1|);
      ReferenceAtRefPos(f, o1);
      ReferenceAtRefPos(f, o2);
      assert Key(f.rows[o1[r]]) == Key(f.rows[o2[r]]);
    }
  }

  lemma SameUniqueRank(f: Frame, o1: seq<nat>, o2: seq<nat>, i: nat)
    requires IsPriceOrder(f, o1) && IsPriceOrder(f, o2)
    requires i < |f.rows| && IsSim(f.rows[i])
    requires forall j :: 0 <= j < |f.rows| && j != i && IsSim(f.rows[j]) ==> Key(f.rows[j]) != Key(f.rows[i])
    ensures RankCell(o1, i) == RankCell(o2, i)
  {
    OrderFacts(f, o1);
    OrderFacts(f, o2);
    SamePricesAlong(f, o1, o2);
    var p := Position(o1, i);
    assert Key(f.rows[o2[p]]) == Key(f.rows[i]);
    assert o2[p] == i;
    PositionOfDistinct(o2, p);
  }

  /**
   * The order of rows with equal prices does not matter: any two admissible orders agree on the
   * normalised reference price and give the same rank to every SIM row whose price no other SIM
   * row shares.
   */
  lemma TieOrderIrrelevant(f: Frame, o1: seq<nat>, o2: seq<nat>)
    requires IsPriceOrder(f, o1) && IsPriceOrder(f, o2)
    ensures PriceOfCell(Reference(f, o1)) == PriceOfCell(Reference(f, o2))
    ensures forall i ::
      (0 <= i < |f.rows| && IsSim(f.rows[i]) &&
       (forall j :: 0 <= j < |f.rows| && j != i && IsSim(f.rows[j]) ==> Key(f.rows[j]) != Key(f.rows[i]))) ==>
      RankCell(o1, i) == RankCell(o2, i)
  {
    SameReferencePrice(f, o1, o2);
    forall i | (0 <= i < |f.rows| && IsSim(f.rows[i])
      && (forall j :: 0 <= j < |f.rows| && j != i && IsSim(f.rows[j]) ==> Key(f.rows[j]) != Key(f.rows[i])))
      ensures RankCell(o1, i) == RankCell(o2, i)
    {
      SameUniqueRank(f, o1, o2, i);
    }
  }

  /** A column the ranking keeps is copied unchanged. */
  lemma KeptColumn(f: Frame, order: seq<nat>, c: string)
    requires WellFormed(f) && IsPriceOrder(f, order)
    requires c in f.columns && c in OutColumns && c != RankCol && c != IndicatedCol
    ensures Column(ApplyRankingWith(f, order), c) == Column(f, c)
  {
    var g := ApplyRankingWith(f, order);
    forall i | 0 <= i < |f.rows|
      ensures At(g.rows[i], c) == At(f.rows[i], c)
    {
      assert c in g.rows[i] && c in f.rows[i];
    }
  }

  /** Ranking keeps the verdicts, so the ranked table has the same SIM rows. */
  lemma RankedSims(f: Frame, order: seq<nat>)
    requires WellFormed(f) && IsPriceOrder(f, order) && Compat in f.columns
    ensures SimIndices(ApplyRankingWith(f, order)) == SimIndices(f)
  {
    assert Compat in OutColumns;
    KeptColumn(f, order, Compat);
    assert Flags(ApplyRankingWith(f, order)) == Flags(f);
  }

  /** Ranking only looks at the `compatibilidade`, `Preço` and `Loja` columns. */
  lemma RankingInputs(f: Frame, g: Frame, order: seq<nat>)
    requires |g.rows| == |f.rows| && InBounds(Keys(f), order)
    requires Column(g, Compat) == Column(f, Compat)
    requires Column(g, PriceCol) == Column(f, PriceCol)
    requires Column(g, StoreCol) == Column(f, StoreCol)
    ensures SortedSims(g) == SortedSims(f)
    ensures Indicated(g, order) == Indicated(f, order)
  {
    assert Flags(g) == Flags(f);
    assert Keys(g) == Keys(f);
  }

  /** Re-ranking a ranked row with the same rank and indicated price gives the row back. */
  lemma RerankedRow(g: Frame, h: Frame, i: nat)
    requires g.columns == OutColumns && WellFormed(g) && WellFormed(h) && h.columns == OutColumns
    requires i < |g.rows| && i < |h.rows|
    requires h.rows[i][RankCol] == g.rows[i][RankCol] && h.rows[i][IndicatedCol] == g.rows[i][IndicatedCol]
    requires forall c :: c in OutColumns && c != RankCol && c != IndicatedCol ==> h.rows[i][c] == g.rows[i][c]
    ensures h.rows[i] == g.rows[i]
  {
    forall c | c in h.rows[i]
      ensures h.rows[i][c] == g.rows[i][c]
    {
      assert c in OutColumns;
    }
  }

  /** Ranking a ranked table again changes nothing. */
  lemma RankingIdempotent(f: Frame)
    requires WellFormed(f) && ApplyRanking(f).Ok?
    ensures ApplyRanking(ApplyRanking(f).value) == ApplyRanking(f)
  {
    var order := SortedSims(f);
    var g := ApplyRankingWith(f, order);
    assert Compat in OutColumns && PriceCol in OutColumns && StoreCol in OutColumns;
    KeptColumn(f, order, Compat);
    KeptColumn(f, order, PriceCol);
    KeptColumn(f, order, StoreCol);
    RankingInputs(f, g, order);
    RerankFixed(f, g, order);
  }

  /** Ranking the ranked table by the same order, with the same indicated price, gives it back. */
  lemma RerankFixed(f: Frame, g: Frame, order: seq<nat>)
    requires WellFormed(f) && forall j :: 0 <= j < |order| ==> order[j] < |f.rows|
    requires g == ApplyRankingWith(f, order) && Indicated(g, order) == Indicated(f, order)
    ensures ApplyRankingWith(g, order) == g
  {
    var h := ApplyRankingWith(g, order);
    forall i | 0 <= i < |f.rows|
      ensures h.rows[i] == g.rows[i]
    {
      RerankedRow(g, h, i);
    }
    assert h.rows == g.rows;
  }

  /** The indicated price always ends with the official price. */
  lemma IndicatedSuffix(f: Frame, order: seq<nat>)
    requires forall j :: 0 <= j < |order| ==> order[j] < |f.rows|
    ensures EndsWith(Indicated(f, order), " | " + Render(OfficialPriceCell(f)) + " (Comprebel)")
  {
    var a, b := Render(Reference(f, order)), Render(OfficialPriceCell(f));
    assert " (3\U{ba}) | " == " (3\U{ba})" + " | ";
    IndicatedParts(a, " (3\U{ba})", " | ", b, " (Comprebel)");
    EndsWithAppend(a + " (3\U{ba})", " | " + b + " (Comprebel)");
  }

  /** Regrouping the parts of the indicated price. */
  lemma IndicatedParts(a: string, p: string, q: string, b: string, t: string)
    ensures a + (p + q) + b + t == (a + p) + (q + b + t)
  {
  }

  /**
   * The ranked first row keeps its store and is ranked exactly when it is SIM, and every row's
   * indicated price ends with the official price.
   */
  lemma RankedFirstRow(f: Frame)
    requires WellFormed(f) && ApplyRanking(f).Ok? && |f.rows| > 0
    ensures var g := ApplyRanking(f).value;
      && |g.rows| == |f.rows|
      && At(g.rows[0], StoreCol) == At(f.rows[0], StoreCol)
      && (At(g.rows[0], RankCol).Rank? <==> IsSim(f.rows[0]))
      && forall i :: 0 <= i < |g.rows| ==>
           At(g.rows[i], IndicatedCol).Str? &&
           EndsWith(At(g.rows[i], IndicatedCol).s, " | " + Render(OfficialPriceCell(f)) + " (Comprebel)")
  {
    var order := SortedSims(f);
    var g := ApplyRankingWith(f, order);
    RanksExact(f, order);
    IndicatedSuffix(f, order);
    assert StoreCol in OutColumns && RankCol in OutColumns && IndicatedCol in OutColumns;
    assert g.rows[0].Keys == set c | c in OutColumns;
    assert At(g.rows[0], StoreCol) == f.rows[0][StoreCol];
    forall i | 0 <= i < |g.rows|
      ensures At(g.rows[i], IndicatedCol) == Str(Indicated(f, order))
    {
      assert g.rows[i].Keys == set c | c in OutColumns;
    }
  }
}
