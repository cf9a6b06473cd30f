/**
 * `criar_arquivo_compativeis` of teste02.py: the SIM rows of the ranked table, in table order,
 * with the listed columns that exist, in the listed order; `preço_oficial` is never kept.
 */
module Compatible {
  import opened Wrappers
  import opened Frame
  import opened Ranking

  /** The columns of the compatible-only file, in order. */
  const FinalColumns := [RankCol, "concorrente", PriceCol, IndicatedCol, StoreCol, "qtd_vendida", "link",
                         "principal", Compat]

  /** `[col for col in cols if col in avail]`. */
  function KeepPresent(cols: seq<string>, avail: seq<string>): (r: seq<string>)
    ensures forall c :: c in r <==> c in cols && c in avail
  {
    if cols == [] then [] else (if cols[0] in avail then [cols[0]] else []) + KeepPresent(cols[1..], avail)
  }

  /** The kept columns follow the order of the list. */
  lemma {:induction false} KeepPresentOrdered(cols: seq<string>, avail: seq<string>)
    requires Distinct(cols)
    ensures forall a, b :: 0 <= a < b < |KeepPresent(cols, avail)| ==>
      Position(cols, KeepPresent(cols, avail)[a]) < Position(cols, KeepPresent(cols, avail)[b])
  {
    if cols != [] {
      var tail := cols[1..];
      assert Distinct(tail);
      KeepPresentOrdered(tail, avail);
      var rest := KeepPresent(tail, avail);
      forall c | c in rest
        ensures Position(cols, c) == 1 + Position(tail, c)
      {
        assert c != cols[0];
      }
    }
  }

  /** The cells of `row` in the columns `cols`. */
  function Project(row: map<string, Cell>, cols: seq<string>): (r: map<string, Cell>)
    ensures r.Keys == set c | c in cols
    ensures forall c :: c in cols ==> r[c] == At(row, c)
  {
    map c | c in cols :: At(row, c)
  }

  /** The kept columns of the compatible-only file: those listed that exist, in the listed order. */
  function CompatibleColumns(f: Frame): (cols: seq<string>)
    ensures OfficialCol !in cols
    ensures forall c :: c in cols <==> c in FinalColumns && c in f.columns
    ensures forall a, b :: 0 <= a < b < |cols| ==> Position(FinalColumns, cols[a]) < Position(FinalColumns, cols[b])
  {
    assert Distinct(FinalColumns);
    KeepPresentOrdered(FinalColumns, f.columns);
    KeepPresent(FinalColumns, f.columns)
  }

  /**
   * A KeyError when `compatibilidade` is missing; otherwise one row per SIM row, in table order,
   * holding that row's cells in the kept columns.
   */
  function CompatibleOnly(f: Frame): (r: Result<Frame>)
    ensures r.Err? <==> Compat !in f.columns
    ensures r.Ok? ==> WellFormed(r.value) && r.value.columns == CompatibleColumns(f)
    ensures r.Ok? ==> |r.value.rows| == |SimIndices(f)|
    ensures r.Ok? ==> forall j, c :: 0 <= j < |SimIndices(f)| && c in r.value.columns ==>
      At(r.value.rows[j], c) == At(f.rows[SimIndices(f)[j]], c)
  {
    if Compat !in f.columns then Err("KeyError")
    else
      var cols := CompatibleColumns(f);
      var sims := SimIndices(f);
      Ok(Frame(cols, seq(|sims|, j requires 0 <= j < |sims| => Project(f.rows[sims[j]], cols))))
  }

  /** The rank cells of the SIM rows, in table order. */
  function SimRankColumn(f: Frame, order: seq<nat>): (ranks: seq<Cell>)
    ensures |ranks| == |SimIndices(f)|
    ensures forall j :: 0 <= j < |ranks| ==> ranks[j] == RankCell(order, SimIndices(f)[j])
  {
    RanksAlong(order, SimIndices(f))
  }

  /** `k` ranks that are exactly 1..k, each once. */
  predicate OneToK(ranks: seq<Cell>) {
    && Distinct(ranks)
    && (forall j :: 0 <= j < |ranks| ==> 1 <= RankValue(ranks[j]) <= |ranks|)
    && (forall r :: 1 <= r <= |ranks| ==> Rank(r) in ranks)
  }

  /** The rows of the compatible-only file of a ranked table carry the ranks of the SIM rows, in table order. */
  lemma CompatibleRankCells(f: Frame, order: seq<nat>)
    requires WellFormed(f) && IsPriceOrder(f, order) && Compat in f.columns
    ensures CompatibleOnly(ApplyRankingWith(f, order)).Ok?
    ensures var c := CompatibleOnly(ApplyRankingWith(f, order)).value;
      && |c.rows| == |SimIndices(f)| && RankCol in c.columns
      && Column(c, RankCol) == SimRankColumn(f, order)
      && forall j :: 0 <= j < |c.rows| ==> IsSim(c.rows[j])
  {
    OrderFacts(f, order);
    var g := ApplyRankingWith(f, order);
    assert Compat in OutColumns && RankCol in OutColumns;
    assert RankCol in FinalColumns && Compat in FinalColumns;
    RankedSims(f, order);
    var c := CompatibleOnly(g).value;
    var sims := SimIndices(f);
    forall j | 0 <= j < |c.rows|
      ensures At(c.rows[j], RankCol) == RankCell(order, sims[j]) && IsSim(c.rows[j])
    {
      assert At(c.rows[j], RankCol) == At(g.rows[sims[j]], RankCol);
      assert At(c.rows[j], Compat) == At(g.rows[sims[j]], Compat);
    }
  }

  /**
   * The compatible-only file of a ranked table: one row per SIM row, in table order, and its
   * `ranking` column holds exactly the ranks 1..k, each once.
   */
  lemma CompatibleRanks(f: Frame)
    requires WellFormed(f) && ApplyRanking(f).Ok?
    ensures CompatibleOnly(ApplyRanking(f).value).Ok?
    ensures var c := CompatibleOnly(ApplyRanking(f).value).value;
      && |c.rows| == |SimIndices(f)| && RankCol in c.columns
      && (forall j :: 0 <= j < |c.rows| ==> IsSim(c.rows[j]))
      && OneToK(Column(c, RankCol))
  {
    var order := SortedSims(f);
    CompatibleRankCells(f, order);
    SimRanks(f, order);
  }

  /** Listed in table order, the ranks of the SIM rows are 1..k, each once. */
  lemma SimRanks(f: Frame, order: seq<nat>)
    requires IsPriceOrder(f, order)
    ensures OneToK(SimRankColumn(f, order))
  {
    OrderFacts(f, order);
    SimRanksBounded(order, SimIndices(f));
    SimRanksDistinct(order, SimIndices(f));
    SimRanksCover(order, SimIndices(f));
  }

  /** The rank cells of `sims` along an order listing exactly `sims`. */
  function RanksAlong(order: seq<nat>, sims: seq<nat>): (ranks: seq<Cell>)
    ensures |ranks| == |sims| && forall j :: 0 <= j < |sims| ==> ranks[j] == RankCell(order, sims[j])
  {
    seq(|sims|, j requires 0 <= j < |sims| => RankCell(order, sims[j]))
  }

  lemma SimRanksBounded(order: seq<nat>, sims: seq<nat>)
    requires multiset(order) == multiset(sims)
    ensures forall j :: 0 <= j < |sims| ==> 1 <= RankValue(RankCell(order, sims[j])) <= |sims|
  {
    assert |order| == |multiset(order)| == |multiset(sims)| == |sims|;
    forall j | 0 <= j < |sims|
      ensures 1 <= RankValue(RankCell(order, sims[j])) <= |sims|
    {
      assert sims[j] in multiset(sims);
    }
  }

  lemma SimRanksDistinct(order: seq<nat>, sims: seq<nat>)
    requires multiset(order) == multiset(sims) && Distinct(sims)
    ensures Distinct(RanksAlong(order, sims))
  {
    var ranks := RanksAlong(order, sims);
    forall a, b | 0 <= a < b < |ranks|
      ensures ranks[a] != ranks[b]
    {
      assert sims[a] in multiset(sims) && sims[b] in multiset(sims);
      RankCellInjective(order, sims[a], sims[b]);
    }
  }

  lemma SimRanksCover(order: seq<nat>, sims: seq<nat>)
    requires multiset(order) == multiset(sims) && Distinct(order)
    ensures forall r :: 1 <= r <= |sims| ==> Rank(r) in RanksAlong(order, sims)
  {
    assert |order| == |multiset(order)| == |multiset(sims)| == |sims|;
    var ranks := RanksAlong(order, sims);
    forall r | 1 <= r <= |sims|
      ensures Rank(r) in ranks
    {
      RankAlongSims(order, sims, r);
      var j :| 0 <= j < |sims| && RankCell(order, sims[j]) == Rank(r);
      assert ranks[j] == Rank(r);
    }
  }

  /** Every rank 1..k is the rank of some SIM row, listed in table order. */
  lemma RankAlongSims(order: seq<nat>, sims: seq<nat>, r: nat)
    requires multiset(order) == multiset(sims) && Distinct(order) && 1 <= r <= |order|
    ensures exists j :: 0 <= j < |sims| && RankCell(order, sims[j]) == Rank(r)
  {
    var i := order[r - 1];
    assert i in multiset(order);
    assert i in sims;
    var j :| 0 <= j < |sims| && sims[j] == i;
    PositionOfDistinct(order, r - 1);
    assert RankCell(order, sims[j]) == Rank(r);
  }
}
