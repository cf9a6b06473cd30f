/**
 * `aplicar_ia_csv`: `df["compatibilidade"] = df.apply(lambda row: comparar_com_ia(row["principal"],
 * row["concorrente"]), axis=1)`. The model call is a parameter: `decide(principal, concorrente)`
 * gives the verdict of one row, or an error when the call raises and nothing catches it.
 */
module Classification {
  import opened Wrappers
  import opened Text
  import opened Frame
  import opened Page
  import opened Verdict
  import opened Ranking

  const PrincipalCol := "principal"
  const CompetitorCol := "concorrente"

  /** The verdict for row `i`: the two cells as the prompt's f-string renders them. */
  function Decision(f: Frame, decide: (string, string) -> Result<Verdict>, i: nat): Result<Verdict>
    requires i < |f.rows|
  {
    decide(Render(At(f.rows[i], PrincipalCol)), Render(At(f.rows[i], CompetitorCol)))
  }

  /** The verdicts of all rows, in order. */
  function Decisions(f: Frame, decide: (string, string) -> Result<Verdict>): (ds: seq<Result<Verdict>>)
    ensures |ds| == |f.rows|
    ensures forall i :: 0 <= i < |f.rows| ==> ds[i] == Decision(f, decide, i)
  {
    seq(|f.rows|, i requires 0 <= i < |f.rows| => Decision(f, decide, i))
  }

  /** The columns after the assignment: `compatibilidade` is appended unless it is already there. */
  function WithCompat(columns: seq<string>): (cs: seq<string>)
    ensures Compat in cs
    ensures forall c :: c in cs <==> c in columns || c == Compat
  {
    if Compat in columns then columns else columns + [Compat]
  }

  /**
   * The classified table: a KeyError when there is a row and `principal` or `concorrente` is
   * missing, the first error of a call otherwise; else every row gets its verdict label in
   * `compatibilidade` and keeps every other cell.
   */
  function Classify(f: Frame, decide: (string, string) -> Result<Verdict>): (r: Result<Frame>)
    requires WellFormed(f)
    ensures r.Err? <==>
      (|f.rows| > 0 && (PrincipalCol !in f.columns || CompetitorCol !in f.columns)) ||
      (exists i :: 0 <= i < |f.rows| && Decision(f, decide, i).Err?)
    ensures r.Ok? ==> r.value.columns == WithCompat(f.columns) && |r.value.rows| == |f.rows| && WellFormed(r.value)
    ensures r.Ok? ==> forall i :: 0 <= i < |f.rows| ==>
      Decision(f, decide, i).Ok? && r.value.rows[i][Compat] == Str(Decision(f, decide, i).value.Label())
    ensures r.Ok? ==> forall i :: 0 <= i < |f.rows| ==> (IsSim(r.value.rows[i]) <==> Decision(f, decide, i) == Ok(Sim))
    ensures r.Ok? ==> forall i, c :: 0 <= i < |f.rows| && c in f.columns && c != Compat ==>
      c in r.value.rows[i] && r.value.rows[i][c] == f.rows[i][c]
  {
    if |f.rows| > 0 && (PrincipalCol !in f.columns || CompetitorCol !in f.columns) then Err("KeyError")
    else
      var ds := Decisions(f, decide);
      match AllSucceeded(ds)
      case Err(e) => Err(e)
      case Ok(vs) =>
        var rows := seq(|f.rows|, i requires 0 <= i < |f.rows| => f.rows[i][Compat := Str(vs[i].Label())]);
        Ok(Frame(WithCompat(f.columns), rows))
  }

  /** A classified row keeps every cell of its input row except `compatibilidade`. */
  lemma ClassifyKeeps(f: Frame, decide: (string, string) -> Result<Verdict>, i: nat, c: string)
    requires WellFormed(f) && Classify(f, decide).Ok? && i < |f.rows| && c in f.columns && c != Compat
    ensures At(Classify(f, decide).value.rows[i], c) == At(f.rows[i], c)
  {
  }

  /** `comparar_com_ia` of teste02.py and teste.py as a decision: it never raises. */
  function Guarded(oracle: (string, string) -> Reply): (string, string) -> Result<Verdict> {
    (p: string, c: string) => Ok(CompareGuarded(oracle(p, c)))
  }

  /** `comparar_com_ia` of inteligencia.py as a decision: an exception of the call propagates. */
  function Unguarded(oracle: (string, string) -> Reply): (string, string) -> Result<Verdict> {
    (p: string, c: string) => CompareUnguarded(oracle(p, c))
  }

  /**
   * With the guarded call, classification fails only on a missing input column, and a row is
   * SIM exactly when the model's reply to its prompt holds "SIM" anywhere.
   */
  lemma GuardedClassification(f: Frame, oracle: (string, string) -> Reply)
    requires WellFormed(f)
    ensures Classify(f, Guarded(oracle)).Err? <==>
      |f.rows| > 0 && (PrincipalCol !in f.columns || CompetitorCol !in f.columns)
    ensures Classify(f, Guarded(oracle)).Ok? ==> forall i :: 0 <= i < |f.rows| ==>
      var reply := oracle(Render(At(f.rows[i], PrincipalCol)), Render(At(f.rows[i], CompetitorCol)));
      (IsSim(Classify(f, Guarded(oracle)).value.rows[i]) <==> reply.Replied? && Contains(Upper(reply.content), "SIM"))
  {
    forall i | 0 <= i < |f.rows|
      ensures Decision(f, Guarded(oracle), i) ==
        Ok(CompareGuarded(oracle(Render(At(f.rows[i], PrincipalCol)), Render(At(f.rows[i], CompetitorCol)))))
    {
    }
  }

  /**
   * With the unguarded call, one failing call fails the whole run; otherwise a row is SIM exactly
   * when the reply holds "SIM" as a whole word.
   */
  lemma UnguardedClassification(f: Frame, oracle: (string, string) -> Reply)
    requires WellFormed(f) && PrincipalCol in f.columns && CompetitorCol in f.columns
    ensures Classify(f, Unguarded(oracle)).Err? <==>
      exists i :: 0 <= i < |f.rows| && oracle(Render(f.rows[i][PrincipalCol]), Render(f.rows[i][CompetitorCol])).Raised?
    ensures Classify(f, Unguarded(oracle)).Ok? ==> forall i :: 0 <= i < |f.rows| ==>
      var reply := oracle(Render(f.rows[i][PrincipalCol]), Render(f.rows[i][CompetitorCol]));
      (IsSim(Classify(f, Unguarded(oracle)).value.rows[i]) <==> HasWordSim(Upper(reply.content)))
  {
    forall i | 0 <= i < |f.rows|
      ensures Decision(f, Unguarded(oracle), i) ==
        CompareUnguarded(oracle(Render(f.rows[i][PrincipalCol]), Render(f.rows[i][CompetitorCol])))
    {
      assert PrincipalCol in f.rows[i] && CompetitorCol in f.rows[i];
    }
  }
}
