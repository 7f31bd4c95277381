# Live price estimate of the car-pricing dashboard, in Dafny

The dashboard's "live demo" page takes a vehicle description from a form and asks a
stored linear-regression model for a price. This project models that step:

- **Loading** the three model variants (`initial`, `iterative`, `robust`) and their
  column schemas. If any one of the six files is missing, nothing is loaded and the
  page shows only an error (`Assets`, `Demo.Submit`).
- **Encoding** the form input as a one-row table over the chosen model's column
  schema. The row starts as zeros. It then gets the odometer and the derived age
  `car_age = 2025 - year`, and a 1 in column `"<attribute>_<value>"` for each of
  the five categorical attributes whose composite column the row has (`Encoding`).
  The row is an array filled in place (`Frames.DataFrame`, `Encoding.EncodeRow`).
  That method is proved equal to the pure function `Encoding.Encode`, and the
  properties are proved about that function.
- **Dispatch** on the model's library convention. A statsmodels model gets a
  `const = 1` column in front of the row. An sklearn model gets the row as is.
  The estimate is element 0 of the prediction (`Dispatch`).
- **Messages** shown next to the estimate, chosen by the estimate's sign, the
  fuel, the body type and the age (`Verdict`).

Files: `frames.dfy` (one-row table: value model and in-place class), `vehicle.dfy`
(form input, bounds, enumerations, age), `encoding.dfy` (the encoder and its
properties), `dispatch.dfy`, `verdict.dfy`, `assets.dfy`, `demo.dfy` (one submission
end to end).

Table entries are integers. Every value the encoder writes is an integer (odometer,
age, 1), and so is the intercept. `predict` is the foreign library's computation. It
is a function-valued field of `Dispatch.ModelHandle` and is not interpreted. Its
result is a sequence of reals.

Three behaviours of app.py that a reader might not expect are modelled as written:

- **Unguarded numeric writes.** `input_df['odometer'] = ...` and
  `input_df['car_age'] = ...` are not checked against the schema (app.py:566-567).
  A schema without either column gets it appended after its own columns, holding
  the value. The indicator writes, by contrast, check membership first
  (app.py:576). See `Frames.Assign` and `Encoding.NumericWritesAppend`.
- **All-or-nothing loading.** One `except FileNotFoundError: return None` covers
  all six loads (app.py:38-39). One missing file out of six therefore disables all
  three variants, and the page shows one generic error (app.py:520-521). See
  `Assets.LoadAssets`.
- **No exception handler.** Nothing around the encoding or the prediction catches
  an exception. The one failure the model can express is an empty prediction,
  where taking element 0 raises. It is the page outcome
  `Demo.Page.EmptyPredictionFault`, which stands for an uncaught exception.

## Model

| member | source | states |
|---|---|---|
| `Vehicle.CarAge` | app.py:564 | for a year within the form's bounds the age lies in 0..35; `AgeRange` gives both directions and the endpoints |
| `Vehicle.AgeRange` | app.py:543-564 | a year is within the form's bounds 1990..2025 exactly when `car_age` is within 0..35; 35 only for 1990, 0 only for 2025; distinct years give distinct ages |
| `Frames.ZeroRow` | app.py:565 | the zero row has the schema's columns in schema order and every entry is 0 |
| `Frames.Assign` | app.py:566-567 | assigning a column by name keeps the columns when the name is present (every column of that name gets the value), otherwise appends the name with the value; other entries keep their old values |
| `Frames.DataFrame.Zeros` | app.py:565 | the allocated table equals the zero row over the schema |
| `Frames.DataFrame.SetColumn` | app.py:566-567 | the in-place column write leaves the table equal to `Assign` of its old contents |
| `Encoding.Categorical` | app.py:570-573 | the five (attribute, value) pairs come in the loop's order `manufacturer, fuel, transmission, drive, type` |
| `Encoding.NamesOf` | app.py:574-575 | a sequence of pairs has at most as many distinct composite names as pairs |
| `Encoding.OneHot` | app.py:574-577 | the guarded one-hot loop never adds or reorders a column |
| `Encoding.EncodeRow` | app.py:564-577 | the array filled in place (zero fill, two numeric writes, guarded one-hot loop) equals `Encode(schema, x)` |
| `Encoding.IndicatorNamesAre` | app.py:570-575 | a name is one of the input's composite names iff it is `<attribute>_<value>` for one of the five attributes and that attribute's value |
| `Encoding.IndicatorNamesDisplay` | app.py:570-575 | the input's composite names are exactly the five, written out |
| `Encoding.IndicatorsAreNotNumeric` | app.py:566-577 | no composite name equals `odometer` or `car_age`, so the loop cannot overwrite a numeric entry |
| `Encoding.PrefixesDistinct` | app.py:570-575 | composite names of two different attributes differ, whatever the values |
| `Encoding.OneHotEntries` | app.py:574-577 | after the loop, an entry is 1 iff its column is a composite name of the pairs; otherwise it keeps its value |
| `Encoding.OneHotOrderIrrelevant` | app.py:574-577 | any reordering of the pairs gives the same row |
| `Encoding.Numeric` | app.py:565-567 | after the zero fill and the two unguarded numeric writes, the columns are the schema with any missing numeric column appended; every `odometer` entry is the odometer, every `car_age` entry the age, every other entry 0 |
| `Encoding.Step` | app.py:575-577 | one loop pass keeps the columns; an entry becomes 1 iff its column is the pair's composite name, otherwise it keeps its value (a name not in the row changes nothing) |
| `Encoding.IndicatorName` | app.py:575 | the composite name is the attribute, then `_`, then the value; `IndicatorNamesAre` gives the five names of one input |
| `Encoding.Encode` | app.py:564-577 | the encoded row's columns are the schema plus any appended numeric column; its entries are given column by column in `EncodeEntries` |
| `Encoding.EncodeEntries` | app.py:564-577 | the encoded row equals the column-by-column reference `Entry`: odometer, age, 1 for a composite name of the input, else 0, over the schema plus any appended numeric columns |
| `Encoding.NumericWrites` | app.py:566-567 | when the schema has `odometer` and `car_age`, the row keeps exactly the schema's columns in order, and those columns hold the odometer and the age |
| `Encoding.NumericWritesAppend` | app.py:566-567 | without an `odometer` column the write is not skipped: the column is appended after the schema with the odometer, and `car_age` after it if that is missing too |
| `Encoding.IndicatorWrites` | app.py:574-577 | each attribute's composite column is in the row iff it is in the schema, and wherever it is the entry is 1; an unseen or baseline value sets nothing |
| `Encoding.NothingElseChanges` | app.py:565-577 | every column other than `odometer`, `car_age` and the five composite names stays 0 |
| `Encoding.OneIndicatorPerAttribute` | app.py:574-577 | a column set by the loop that carries an attribute's prefix is that attribute's composite name for this input |
| `Encoding.IndicatorCount` | app.py:574-577 | over a schema of distinct names, at most five entries are set by the loop, and at most one per attribute |
| `Encoding.IndexCount` | app.py:574-577 | over distinct columns, at most as many positions hold a name from a set as the set has names |
| `Dispatch.WithConstant` | app.py:582 | the statsmodels row is `const = 1` at position 0 followed by the encoded row unchanged |
| `Dispatch.Exog` | app.py:580-586 | an sklearn model is given the row unchanged; a statsmodels model is given a row whose first column is `const = 1` and whose remainder is the row |
| `Dispatch.PredictPrice` | app.py:583-586 | the estimate exists iff the prediction for the dispatched row is non-empty, and it is its element 0 |
| `Dispatch.ConstantRoundTrip` | app.py:582 | removing the front column of the statsmodels row gives back the encoded row |
| `Dispatch.ConstantOnce` | app.py:582 | if the row had no `const` column, the statsmodels row has it exactly once, at position 0 |
| `Dispatch.ConventionsAgreeModuloConstant` | app.py:580-586 | for the same `predict`, the statsmodels estimate is the sklearn estimate of the row with the intercept in front |
| `Verdict.Upper` | app.py:596 | the upper-cased manufacturer has the same length; each lower-case ASCII letter becomes the matching upper-case letter; every other character is unchanged |
| `Verdict.Messages` | app.py:595-604 | for a positive estimate: exactly one banner, first; the diesel note iff the fuel is `diesel`, the utility note iff the body type is `pickup` or `truck`, the age warning iff `car_age > 15`, each at most once and in that order; no error. For an estimate of 0 or less, including 0: only the "atypical" error |
| `Verdict.BannerOrError` | app.py:595-604 | exactly one of the banner and the error appears, never both; at most four messages |
| `Verdict.AgeWarningByYear` | app.py:543-601 | for a year the form accepts, the age warning appears iff the estimate is positive and the year is before 2010 |
| `Assets.LoadVariant` | app.py:20-31 | a variant loads iff both its model file and its columns file are present, and then holds their contents |
| `Assets.Select` | app.py:538 | `models[model_choice]`: each choice gets its own variant's model and columns, which `LoadAssets` proves are that variant's two files |
| `Assets.LoadAssets` | app.py:17-39 | loading succeeds iff all six files are present, and then each variant holds its own two files |
| `Assets.OneMissingDisablesAll` | app.py:38-39 | one missing file makes the load fail for all three variants |
| `Demo.Submit` | app.py:520-604 | the page shows only the missing-models error iff loading failed; otherwise it fails on an empty prediction, or shows element 0 of the chosen model's prediction for its dispatched encoded row, with the messages for that estimate |
| `Demo.SklearnGetsEncodedRow` | app.py:584-586 | with an sklearn model, the page's estimate is the prediction for the encoded row itself |
| `Demo.StatsmodelsGetsConstantFirst` | app.py:580-583 | with a statsmodels model, the page's estimate is the prediction for `const = 1` followed by the encoded row |
| `Demo.ExampleRow` | app.py:543-577 | a 2018 Toyota sedan with 45000 miles, encoded over a five-column schema, gives `[45000, 7, 1, 0, 0]` |
| `Demo.ExampleMessages` | app.py:595-601 | a positive estimate for the example (a gas sedan aged 7) shows only the `TOYOTA sedan 2018` banner |
| `Demo.ExampleSubmission` | app.py:17-604 | with all artifacts present and an sklearn robust model, that submission shows the model's positive estimate with only the `TOYOTA sedan 2018` banner |

## Left out

- Page configuration, CSS, sidebar, narrative, chart and recommendation pages, the fixed R² metrics and the coefficient table: presentation only.
- `joblib` file reading and `@st.cache_resource` caching. The directory of artifact files is a parameter (`Assets.ArtifactDir`), and loading is a function of it.
- The computation inside `predict` (sklearn and statsmodels linear algebra). It is a function-valued field of the model handle. Exceptions that `predict` itself might raise, such as a column mismatch, are not modelled.
- The runtime test `'statsmodels' in str(type(model))` (and `hasattr(model, 'predict')`): replaced by the constructor tag of `Dispatch.ModelHandle`.
- Dispatch.WithConstant: how `sm.add_constant(..., has_constant='add')` treats a row that already has a `const` column is library code that is not part of this model. Only the prepend is modelled, and `Dispatch.ConstantOnce` assumes the row has no `const` column.
- Floating point: entries are integers and the estimate is a Dafny `real`. NaN, and the way the `> 0` test treats it, are not modelled.
- Verdict.Upper: only ASCII letters are upper-cased, unlike Python's full Unicode `str.upper()`. The form's brand names are all ASCII.
- The thousands-separator formatting of the displayed estimate, and the exact message texts: messages are constructors.
- The Streamlit widgets, the form's submit button and the variant select box. The form's bounds and enumerations are stated as `Vehicle.FormValid` and constrain no operation, because the encoder accepts any value.
- Which variant produced an estimate: app.py keeps no variant identifier with the estimate, so `Demo.Page.Shown` holds only the estimate and its messages.
