/** One submission of the live demo page: the chosen variant, the encoded
    row, the dispatched prediction and the messages shown. */
module Demo {
  import opened Frames
  import opened Vehicle
  import opened Encoding
  import opened Dispatch
  import opened Verdict
  import opened Assets

  /** What the page shows. */
  datatype Page =
    | ModelsMissing                                  // the only content when loading failed
    | Shown(estimate: real, messages: seq<Message>)  // the estimate and its messages
    | EmptyPredictionFault                           // an empty prediction, not caught by the page

  function Submit(models: Option<Registry>, choice: Variant, x: RawInput): (p: Page)
    ensures p.ModelsMissing? <==> models.None?
    ensures models.Some? ==>
              var chosen := Select(models.value, choice);
              var prediction := chosen.model.predict(Exog(chosen.model, Encode(chosen.columns, x)));
              && (p.EmptyPredictionFault? <==> |prediction| == 0)
              && (p.Shown? ==> p.estimate == prediction[0] && p.messages == Messages(p.estimate, x, CarAge(x.year)))
  {
    match models
    case None => ModelsMissing
    case Some(registry) =>
      var chosen := Select(registry, choice);
      var row := Encode(chosen.columns, x);
      match PredictPrice(chosen.model, row)
      case EmptyPrediction => EmptyPredictionFault
      case Price(price) => Shown(price, Messages(price, x, CarAge(x.year)))
  }

  /** An sklearn model is given the encoded row itself. */
  lemma SklearnGetsEncodedRow(models: Registry, choice: Variant, x: RawInput, p: Frame -> seq<real>)
    requires Select(models, choice).model == Sklearn(p)
    requires |p(Encode(Select(models, choice).columns, x))| > 0
    ensures Submit(Some(models), choice, x).Shown?
    ensures Submit(Some(models), choice, x).estimate == p(Encode(Select(models, choice).columns, x))[0]
  {
  }

  /** A statsmodels model is given `const = 1` followed by the encoded row. */
  lemma StatsmodelsGetsConstantFirst(models: Registry, choice: Variant, x: RawInput, p: Frame -> seq<real>)
    requires Select(models, choice).model == Statsmodels(p)
    requires |p(WithConstant(Encode(Select(models, choice).columns, x)))| > 0
    ensures Submit(Some(models), choice, x).Shown?
    ensures Submit(Some(models), choice, x).estimate == p(WithConstant(Encode(Select(models, choice).columns, x)))[0]
  {
  }

  /** The example submission: a 2018 Toyota sedan with 45000 miles. */
  const ExampleInput: RawInput := RawInput(2018, 45000, "toyota", "gas", "automatic", "fwd", "sedan")
  const ExampleSchema: seq<string> := ["odometer", "car_age", "manufacturer_toyota", "fuel_diesel", "type_SUV"]

  lemma ExampleUnsetNames(name: string)
    requires name == "fuel_diesel" || name == "type_SUV"
    ensures name !in IndicatorNames(ExampleInput)
  {
    IndicatorNamesDisplay(ExampleInput);
    assert IndicatorName("fuel", "gas") == "fuel_gas";
    assert IndicatorName("type", "sedan") == "type_sedan";
  }

  /** The example's row over a five-column schema: odometer, age 7, the
      Toyota indicator, and zeros for the diesel and SUV indicators. */
  lemma ExampleRow()
    ensures Encode(ExampleSchema, ExampleInput) == Frame(ExampleSchema, [45000, 7, 1, 0, 0])
  {
    var x := ExampleInput;
    EncodeEntries(ExampleSchema, x);
    IndicatorNamesAre(x, "manufacturer_toyota");
    assert Categorical(x)[0].1 == "toyota";
    ExampleUnsetNames("fuel_diesel");
    ExampleUnsetNames("type_SUV");
  }

  /** With all artifacts on disk and an sklearn robust model, the example
      gives that model's estimate and, when it is positive, only the banner. */
  lemma ExampleSubmission(dir: ArtifactDir, p: Frame -> seq<real>, price: real)
    requires Present(dir, Initial) && Present(dir, Iterative) && Present(dir, Robust)
    requires dir.models[ModelFile(Robust)] == Sklearn(p)
    requires dir.columns[ColumnsFile(Robust)] == ExampleSchema
    requires price > 0.0
    requires p(Frame(ExampleSchema, [45000, 7, 1, 0, 0])) == [price]
    ensures Submit(LoadAssets(dir), Robust, ExampleInput) == Shown(price, [Success("TOYOTA", "sedan", 2018)])
  {
    ExampleRow();
    ExampleMessages(price);
    var registry := LoadAssets(dir).value;
    assert Select(registry, Robust) == Loaded(Sklearn(p), ExampleSchema);
  }

  /** A positive estimate for the example shows only the banner. */
  lemma ExampleMessages(price: real)
    requires price > 0.0
    ensures Messages(price, ExampleInput, CarAge(ExampleInput.year)) == [Success("TOYOTA", "sedan", 2018)]
  {
    assert Upper("toyota") == "TOYOTA";
    assert "sedan" !in UtilityTypes;
  }
}
