/**
 * The pandas DataFrame the scripts read back from their CSV files: named columns and rows of
 * cells. A cell is NaN (an empty or NA-like CSV field), a text, or an integer rank.
 */
module Frame {
  import opened Text
  import opened Price

  /** One DataFrame cell. */
  datatype Cell = NaN | Str(s: string) | Rank(n: nat)

  /** A DataFrame: the column names and one map per row. */
  datatype Frame = Frame(columns: seq<string>, rows: seq<map<string, Cell>>)

  /** Every row has a cell for exactly the frame's columns, as in any DataFrame. */
  predicate WellFormed(f: Frame) {
    forall i :: 0 <= i < |f.rows| ==> f.rows[i].Keys == set c | c in f.columns
  }

  /** The cell of `row` in column `c`, NaN when there is none. */
  function At(row: map<string, Cell>, c: string): (x: Cell)
    ensures c in row ==> x == row[c]
    ensures c !in row ==> x == NaN
  {
    if c in row then row[c] else NaN
  }

  /** The cells of column `c`, top to bottom. */
  function Column(f: Frame, c: string): (xs: seq<Cell>)
    ensures |xs| == |f.rows|
    ensures forall i :: 0 <= i < |f.rows| ==> xs[i] == At(f.rows[i], c)
  {
    seq(|f.rows|, i requires 0 <= i < |f.rows| => At(f.rows[i], c))
  }

  /** `f"{cell}"`: NaN renders as "nan", a text as itself, a rank as its decimal digits. */
  function Render(x: Cell): (s: string)
    ensures x.Str? ==> s == x.s
    ensures x.NaN? ==> s == "nan"
    ensures x.Rank? ==> s == NatToString(x.n)
  {
    match x
    case NaN => "nan"
    case Str(t) => t
    case Rank(n) => NatToString(n)
  }

  /** `extrair_valor_preco(cell)`: NaN is `inf`, anything else is normalised from `str(cell)`. */
  function PriceOfCell(x: Cell): (p: Price)
    ensures x.NaN? ==> p == Inf
    ensures x.Str? ==> p == Normalise(x.s)
    ensures x.Rank? ==> p == Finite(x.n as real)
  {
    match x
    case NaN => Inf
    case Str(t) => Normalise(t)
    case Rank(n) => NormaliseNat(n); Normalise(NatToString(n))
  }

  /** The index of the first `x` in `xs`, or `|xs|`. */
  function Position<T(==)>(xs: seq<T>, x: T): (p: nat)
    ensures p <= |xs|
    ensures p < |xs| ==> xs[p] == x
    ensures forall j :: 0 <= j < p ==> xs[j] != x
    ensures x in xs ==> p < |xs|
  {
    if xs == [] then 0 else if xs[0] == x then 0 else 1 + Position(xs[1..], x)
  }

  /** No element occurs twice. */
  predicate Distinct<T(==)>(xs: seq<T>) {
    forall a, b :: 0 <= a < b < |xs| ==> xs[a] != xs[b]
  }

  /** In a sequence without repetitions, the position of the `j`-th element is `j`. */
  lemma PositionOfDistinct<T>(xs: seq<T>, j: nat)
    requires Distinct(xs) && j < |xs|
    ensures Position(xs, xs[j]) == j
  {
  }
}
