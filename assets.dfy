/** Loading the three stored model variants and their column schemas. */
module Assets {
  import opened Dispatch

  datatype Option<T> = None | Some(value: T)

  /** The three variants the demo offers. */
  datatype Variant = Initial | Iterative | Robust

  function ModelFile(v: Variant): string {
    match v
    case Initial => "linear_regression_model.pkl"
    case Iterative => "iterative_model.pkl"
    case Robust => "robust_model.pkl"
  }

  function ColumnsFile(v: Variant): string {
    match v
    case Initial => "model_columns.pkl"
    case Iterative => "iterative_model_columns.pkl"
    case Robust => "robust_model_columns.pkl"
  }

  /** The artifact files present on disk, by file name, with what they hold. */
  datatype ArtifactDir = ArtifactDir(models: map<string, ModelHandle>, columns: map<string, seq<string>>)

  predicate Present(dir: ArtifactDir, v: Variant) {
    ModelFile(v) in dir.models && ColumnsFile(v) in dir.columns
  }

  /** One loaded variant: the model and the ordered columns it was trained on. */
  datatype Loaded = Loaded(model: ModelHandle, columns: seq<string>)

  datatype Registry = Registry(initial: Loaded, iterative: Loaded, robust: Loaded)

  /** `models[model_choice]`: each choice gets its own variant's pair. */
  function Select(r: Registry, v: Variant): (l: Loaded)
    ensures v == Initial ==> l == r.initial
    ensures v == Iterative ==> l == r.iterative
    ensures v == Robust ==> l == r.robust
  {
    match v
    case Initial => r.initial
    case Iterative => r.iterative
    case Robust => r.robust
  }

  /** Read one variant's two files: the model first, then its columns. */
  function LoadVariant(dir: ArtifactDir, v: Variant): (r: Option<Loaded>)
    ensures r.Some? <==> Present(dir, v)
    ensures r.Some? ==> r.value == Loaded(dir.models[ModelFile(v)], dir.columns[ColumnsFile(v)])
  {
    if ModelFile(v) !in dir.models then None
    else if ColumnsFile(v) !in dir.columns then None
    else Some(Loaded(dir.models[ModelFile(v)], dir.columns[ColumnsFile(v)]))
  }

  /** The six files are read in turn; the first missing one abandons the
      whole load, so either every variant is available or none is. */
  function LoadAssets(dir: ArtifactDir): (r: Option<Registry>)
    ensures r.Some? <==> forall v :: Present(dir, v)
    ensures r.Some? ==> forall v :: (Present(dir, v) &&
              Select(r.value, v) == Loaded(dir.models[ModelFile(v)], dir.columns[ColumnsFile(v)]))
  {
    match LoadVariant(dir, Initial)
    case None => None
    case Some(initial) =>
      match LoadVariant(dir, Iterative)
      case None => None
      case Some(iterative) =>
        match LoadVariant(dir, Robust)
        case None => None
        case Some(robust) => Some(Registry(initial, iterative, robust))
  }

  /** One missing file disables every variant, the others included. */
  lemma OneMissingDisablesAll(dir: ArtifactDir, missing: Variant)
    requires !Present(dir, missing)
    ensures LoadAssets(dir) == None
  {
  }
}
