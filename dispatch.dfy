/** The two prediction conventions a stored model can follow, and the row
    each one is given. */
module Dispatch {
  import opened Frames

  /** A fitted model. Its `predict` is the library's own computation, left
      uninterpreted; the tag says which library convention it follows. */
  datatype ModelHandle =
    | Sklearn(predict: Frame -> seq<real>)      // predicts from the row as is
    | Statsmodels(predict: Frame -> seq<real>)  // needs an explicit intercept column

  /** The name of the intercept column. */
  const ConstName: string := "const"

  /** The row with an intercept column valued 1 put in front of it. */
  function WithConstant(f: Frame): (g: Frame)
    requires WellFormed(f)
    ensures WellFormed(g)
    ensures |g.columns| == |f.columns| + 1
    ensures g.columns[0] == ConstName && g.values[0] == 1
    ensures g.columns[1..] == f.columns && g.values[1..] == f.values
  {
    Frame([ConstName] + f.columns, [1] + f.values)
  }

  /** Removing the front column: the inverse of `WithConstant`. */
  function DropFront(g: Frame): (f: Frame)
    requires WellFormed(g) && |g.columns| > 0
    ensures WellFormed(f) && |f.columns| == |g.columns| - 1
  {
    Frame(g.columns[1..], g.values[1..])
  }

  /** The row handed to `predict`. */
  function Exog(m: ModelHandle, f: Frame): (g: Frame)
    requires WellFormed(f)
    ensures WellFormed(g)
    ensures m.Sklearn? ==> g == f
    ensures m.Statsmodels? ==> |g.columns| > 0 && g.columns[0] == ConstName && g.values[0] == 1
    ensures m.Statsmodels? ==> DropFront(g) == f
  {
    match m
    case Sklearn(_) => f
    case Statsmodels(_) => WithConstant(f)
  }

  /** What taking element 0 of the prediction gives: the estimate, or the
      index error of an empty prediction. */
  datatype PriceResult = Price(value: real) | EmptyPrediction

  function PredictPrice(m: ModelHandle, f: Frame): (r: PriceResult)
    requires WellFormed(f)
    ensures r.Price? <==> |m.predict(Exog(m, f))| > 0
    ensures r.Price? ==> r.value == m.predict(Exog(m, f))[0]
  {
    var prediction := m.predict(Exog(m, f));
    if |prediction| == 0 then EmptyPrediction else Price(prediction[0])
  }

  /** Adding the intercept and removing it again gives back the row. */
  lemma ConstantRoundTrip(f: Frame)
    requires WellFormed(f)
    ensures DropFront(WithConstant(f)) == f
  {
  }

  /** When the row has no `const` column, the statsmodels row has exactly one,
      at position 0. */
  lemma ConstantOnce(f: Frame)
    requires WellFormed(f)
    requires ConstName !in f.columns
    ensures forall i :: 0 <= i < |WithConstant(f).columns| ==>
              (WithConstant(f).columns[i] == ConstName <==> i == 0)
  {
    var g := WithConstant(f);
    forall i | 0 < i < |g.columns| ensures g.columns[i] != ConstName {
      assert g.columns[i] == f.columns[i - 1];
    }
  }

  /** Both conventions read the estimate from the same place: a statsmodels
      model and an sklearn model with the same `predict` differ only in the
      intercept column the former is given. */
  lemma ConventionsAgreeModuloConstant(p: Frame -> seq<real>, f: Frame)
    requires WellFormed(f)
    ensures PredictPrice(Statsmodels(p), f) == PredictPrice(Sklearn(p), WithConstant(f))
  {
  }
}
