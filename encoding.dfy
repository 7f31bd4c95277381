/** The feature-row encoder of the live price estimate: a zero row over the
    model's column schema, the two numeric writes, then one indicator per
    categorical attribute whose composite column the row has. */
module Encoding {
  import opened Frames
  import opened Vehicle

  /** The categorical attributes, in the order the one-hot loop visits them. */
  const Attributes: seq<string> := ["manufacturer", "fuel", "transmission", "drive", "type"]

  /** The `(attribute, value)` pairs of one input, in loop order. */
  function Categorical(x: RawInput): (ps: seq<(string, string)>)
    ensures |ps| == |Attributes|
    ensures forall k :: 0 <= k < |ps| ==> ps[k].0 == Attributes[k]
  {
    [("manufacturer", x.manufacturer), ("fuel", x.fuel), ("transmission", x.transmission),
     ("drive", x.drive), ("type", x.bodyType)]
  }

  /** The composite column name `<attribute>_<value>`. */
  function IndicatorName(attr: string, value: string): (name: string)
    ensures |name| == |attr| + 1 + |value|
    ensures name[..|attr|] == attr && name[|attr|] == '_' && name[|attr| + 1..] == value
  {
    attr + "_" + value
  }

  /** The composite names of a sequence of pairs. */
  function NamesOf(ps: seq<(string, string)>): (names: set<string>)
    ensures |names| <= |ps|
    decreases |ps|
  {
    if ps == [] then {}
    else NamesOf(ps[..|ps| - 1]) + {IndicatorName(ps[|ps| - 1].0, ps[|ps| - 1].1)}
  }

  /** The composite names one input asks the encoder to set. */
  function IndicatorNames(x: RawInput): set<string> {
    NamesOf(Categorical(x))
  }

  /** The row after the zero fill and the two unguarded numeric writes: every
      `odometer` column holds the odometer, every `car_age` column the age,
      everything else is still 0. */
  function Numeric(schema: seq<string>, x: RawInput): (f: Frame)
    ensures WellFormed(f)
    ensures f.columns == EncodedColumns(schema)
    ensures forall i :: 0 <= i < |f.values| ==>
              f.values[i] ==
                (if f.columns[i] == "odometer" then x.odometer
                 else if f.columns[i] == "car_age" then CarAge(x.year)
                 else 0)
  {
    Assign(Assign(ZeroRow(schema), "odometer", x.odometer), "car_age", CarAge(x.year))
  }

  /** One pass of the one-hot loop: set the composite column to 1 if the row has it. */
  function Step(f: Frame, p: (string, string)): (g: Frame)
    requires WellFormed(f)
    ensures WellFormed(g)
    ensures g.columns == f.columns
    ensures forall i :: 0 <= i < |g.values| ==>
              g.values[i] == (if f.columns[i] == IndicatorName(p.0, p.1) then 1 else f.values[i])
  {
    var name := IndicatorName(p.0, p.1);
    if name in f.columns then Assign(f, name, 1) else f
  }

  /** The one-hot loop over `ps`, first pair first. It never adds a column. */
  function OneHot(f: Frame, ps: seq<(string, string)>): (g: Frame)
    requires WellFormed(f)
    ensures WellFormed(g)
    ensures g.columns == f.columns
    decreases |ps|
  {
    if ps == [] then f else Step(OneHot(f, ps[..|ps| - 1]), ps[|ps| - 1])
  }

  /** The encoded feature row for `x` over `schema`. */
  function Encode(schema: seq<string>, x: RawInput): (f: Frame)
    ensures WellFormed(f)
    ensures f.columns == EncodedColumns(schema)
  {
    OneHot(Numeric(schema, x), Categorical(x))
  }

  // ---------------------------------------------------------------------------
  // An independent, column-by-column description of the encoded row.

  /** The columns of the encoded row: the schema, then `odometer` and
      `car_age` appended when the schema lacks them. */
  function EncodedColumns(schema: seq<string>): seq<string> {
    schema
    + (if "odometer" in schema then [] else ["odometer"])
    + (if "car_age" in schema then [] else ["car_age"])
  }

  /** The value the encoded row holds under column `name`. */
  function Entry(name: string, x: RawInput): int {
    if name == "odometer" then x.odometer
    else if name == "car_age" then CarAge(x.year)
    else if name in IndicatorNames(x) then 1
    else 0
  }

  predicate Distinct(s: seq<string>) {
    forall i, j :: 0 <= i < j < |s| ==> s[i] != s[j]
  }

  predicate HasPrefix(s: string, prefix: string) {
    |prefix| <= |s| && s[..|prefix|] == prefix
  }

  // ---------------------------------------------------------------------------
  // Facts about composite names.

  lemma IndicatorNameStart(attr: string, value: string)
    requires |attr| >= 2
    ensures |IndicatorName(attr, value)| >= 2
    ensures IndicatorName(attr, value)[0] == attr[0] && IndicatorName(attr, value)[1] == attr[1]
  {
  }

  /** The composite names of one input are exactly its five pairs' names. */
  lemma {:induction false} IndicatorNamesAre(x: RawInput, name: string)
    ensures name in IndicatorNames(x) <==>
              exists k :: 0 <= k < |Attributes| && name == IndicatorName(Attributes[k], Categorical(x)[k].1)
  {
    var ps := Categorical(x);
    NamesOfMembers(ps, name);
    if name in IndicatorNames(x) {
      var p :| p in ps && name == IndicatorName(p.0, p.1);
      var k :| 0 <= k < |ps| && ps[k] == p;
      assert name == IndicatorName(Attributes[k], ps[k].1);
    }
    if exists k :: 0 <= k < |Attributes| && name == IndicatorName(Attributes[k], ps[k].1) {
      var k :| 0 <= k < |Attributes| && name == IndicatorName(Attributes[k], ps[k].1);
      assert ps[k] in ps;
    }
  }

  /** The composite names of one input, written out. */
  lemma IndicatorNamesDisplay(x: RawInput)
    ensures IndicatorNames(x) ==
              {IndicatorName("manufacturer", x.manufacturer), IndicatorName("fuel", x.fuel),
               IndicatorName("transmission", x.transmission), IndicatorName("drive", x.drive),
               IndicatorName("type", x.bodyType)}
  {
    var ps := Categorical(x);
    forall name ensures name in IndicatorNames(x) <==>
        name in {IndicatorName("manufacturer", x.manufacturer), IndicatorName("fuel", x.fuel),
                 IndicatorName("transmission", x.transmission), IndicatorName("drive", x.drive),
                 IndicatorName("type", x.bodyType)} {
      IndicatorNamesAre(x, name);
      if name in IndicatorNames(x) {
        var k :| 0 <= k < |Attributes| && name == IndicatorName(Attributes[k], ps[k].1);
        assert k == 0 || k == 1 || k == 2 || k == 3 || k == 4;
      } else {
        assert name != IndicatorName(Attributes[0], ps[0].1);
        assert name != IndicatorName(Attributes[1], ps[1].1);
        assert name != IndicatorName(Attributes[2], ps[2].1);
        assert name != IndicatorName(Attributes[3], ps[3].1);
        assert name != IndicatorName(Attributes[4], ps[4].1);
      }
    }
  }

  /** No composite name collides with a numeric column. */
  lemma IndicatorsAreNotNumeric(x: RawInput)
    ensures "odometer" !in IndicatorNames(x)
    ensures "car_age" !in IndicatorNames(x)
  {
    forall name | name == "odometer" || name == "car_age"
      ensures name !in IndicatorNames(x)
    {
      IndicatorNamesAre(x, name);
      if name in IndicatorNames(x) {
        var k :| 0 <= k < |Attributes| && name == IndicatorName(Attributes[k], Categorical(x)[k].1);
        IndicatorNameStart(Attributes[k], Categorical(x)[k].1);
        assert false;
      }
    }
  }

  /** The five attribute prefixes are distinct: composite names of two
      different attributes never coincide, whatever the values. */
  lemma PrefixesDistinct(k: nat, m: nat, v: string, w: string)
    requires k < |Attributes| && m < |Attributes| && k != m
    ensures IndicatorName(Attributes[k], v) != IndicatorName(Attributes[m], w)
  {
  }

  // ---------------------------------------------------------------------------
  // The encoded row, column by column.

  /** The one-hot loop sets exactly the entries whose column is a composite
      name of `ps` to 1 and leaves every other entry as it was. */
  lemma {:induction false} OneHotEntries(f: Frame, ps: seq<(string, string)>)
    requires WellFormed(f)
    ensures forall i :: 0 <= i < |f.values| ==>
              OneHot(f, ps).values[i] == (if f.columns[i] in NamesOf(ps) then 1 else f.values[i])
  {
    if ps != [] {
      OneHotEntries(f, ps[..|ps| - 1]);
    }
  }

  /** The loop order is irrelevant: any reordering of the pairs gives the same row. */
  lemma OneHotOrderIrrelevant(f: Frame, ps: seq<(string, string)>, qs: seq<(string, string)>)
    requires WellFormed(f)
    requires multiset(ps) == multiset(qs)
    ensures OneHot(f, ps) == OneHot(f, qs)
  {
    SameNames(ps, qs);
    OneHotEntries(f, ps);
    OneHotEntries(f, qs);
    assert OneHot(f, ps).values == OneHot(f, qs).values;
  }

  lemma SameNames(ps: seq<(string, string)>, qs: seq<(string, string)>)
    requires multiset(ps) == multiset(qs)
    ensures NamesOf(ps) == NamesOf(qs)
  {
    forall name ensures name in NamesOf(ps) <==> name in NamesOf(qs) {
      NamesOfMembers(ps, name);
      NamesOfMembers(qs, name);
      if name in NamesOf(ps) {
        var p :| p in ps && name == IndicatorName(p.0, p.1);
        assert p in multiset(qs);
      }
      if name in NamesOf(qs) {
        var q :| q in qs && name == IndicatorName(q.0, q.1);
        assert q in multiset(ps);
      }
    }
  }

  lemma {:induction false} NamesOfMembers(ps: seq<(string, string)>, name: string)
    ensures name in NamesOf(ps) <==> exists p :: p in ps && name == IndicatorName(p.0, p.1)
    decreases |ps|
  {
    if ps != [] {
      var init := ps[..|ps| - 1];
      NamesOfMembers(init, name);
      assert ps == init + [ps[|ps| - 1]];
      if name in NamesOf(init) {
        var p :| p in init && name == IndicatorName(p.0, p.1);
        assert p in ps;
      }
    }
  }

  /** The encoded row has the columns `EncodedColumns(schema)`, and each entry
      is `Entry` of its column name. */
  lemma EncodeEntries(schema: seq<string>, x: RawInput)
    ensures Encode(schema, x).columns == EncodedColumns(schema)
    ensures forall i :: 0 <= i < |Encode(schema, x).values| ==>
              Encode(schema, x).values[i] == Entry(Encode(schema, x).columns[i], x)
  {
    OneHotEntries(Numeric(schema, x), Categorical(x));
    IndicatorsAreNotNumeric(x);
  }

  // ---------------------------------------------------------------------------
  // The properties the encoder promises.

  /** With both numeric columns in the schema, the row keeps exactly the
      schema's columns in order and holds the odometer and the age there. */
  lemma NumericWrites(schema: seq<string>, x: RawInput)
    requires "odometer" in schema && "car_age" in schema
    ensures Encode(schema, x).columns == schema
    ensures forall i :: 0 <= i < |schema| && schema[i] == "odometer" ==>
              Encode(schema, x).values[i] == x.odometer
    ensures forall i :: 0 <= i < |schema| && schema[i] == "car_age" ==>
              Encode(schema, x).values[i] == CarAge(x.year)
  {
    EncodeEntries(schema, x);
  }

  /** The numeric writes are unguarded: a schema without `odometer` or
      `car_age` gets that column appended after its own, holding the value. */
  lemma NumericWritesAppend(schema: seq<string>, x: RawInput)
    requires "odometer" !in schema
    ensures Encode(schema, x).columns[..|schema|] == schema
    ensures Encode(schema, x).columns[|schema|] == "odometer"
    ensures Encode(schema, x).values[|schema|] == x.odometer
    ensures "car_age" !in schema ==>
              && Encode(schema, x).columns == schema + ["odometer", "car_age"]
              && Encode(schema, x).values[|schema| + 1] == CarAge(x.year)
  {
    EncodeEntries(schema, x);
  }

  /** Each attribute's composite column is 1 in the row exactly when the
      schema has it; an unseen or baseline category sets nothing. */
  lemma IndicatorWrites(schema: seq<string>, x: RawInput, k: nat)
    requires k < |Attributes|
    ensures var name := IndicatorName(Attributes[k], Categorical(x)[k].1);
            && (name in Encode(schema, x).columns <==> name in schema)
            && forall i :: 0 <= i < |Encode(schema, x).columns| && Encode(schema, x).columns[i] == name ==>
                 Encode(schema, x).values[i] == 1
  {
    var name := IndicatorName(Attributes[k], Categorical(x)[k].1);
    EncodeEntries(schema, x);
    IndicatorNamesAre(x, name);
    IndicatorsAreNotNumeric(x);
  }

  /** Every column other than `odometer`, `car_age` and the five composite
      names stays 0. */
  lemma NothingElseChanges(schema: seq<string>, x: RawInput)
    ensures forall i :: 0 <= i < |Encode(schema, x).columns| ==>
              var c := Encode(schema, x).columns[i];
              c != "odometer" && c != "car_age" && c !in IndicatorNames(x) ==>
                Encode(schema, x).values[i] == 0
  {
    EncodeEntries(schema, x);
  }

  /** A column set by the one-hot loop that carries an attribute's prefix is
      that attribute's composite name for this input. */
  lemma OneIndicatorPerAttribute(schema: seq<string>, x: RawInput, k: nat, i: nat)
    requires k < |Attributes|
    requires i < |Encode(schema, x).columns|
    requires Encode(schema, x).columns[i] in IndicatorNames(x)
    requires HasPrefix(Encode(schema, x).columns[i], Attributes[k] + "_")
    ensures Encode(schema, x).columns[i] == IndicatorName(Attributes[k], Categorical(x)[k].1)
  {
    var c := Encode(schema, x).columns[i];
    IndicatorNamesAre(x, c);
    var m :| 0 <= m < |Attributes| && c == IndicatorName(Attributes[m], Categorical(x)[m].1);
    IndicatorNameStart(Attributes[m], Categorical(x)[m].1);
    var prefix := Attributes[k] + "_";
    assert c[0] == c[..|prefix|][0] == prefix[0] == Attributes[k][0];
    assert c[1] == c[..|prefix|][1] == prefix[1] == Attributes[k][1];
    assert k == 0 || k == 1 || k == 2 || k == 3 || k == 4;
    assert m == 0 || m == 1 || m == 2 || m == 3 || m == 4;
  }

  /** Over a schema of distinct names, the one-hot loop sets at most five
      entries, and at most one per attribute. */
  lemma IndicatorCount(schema: seq<string>, x: RawInput)
    requires Distinct(schema)
    ensures |set i | 0 <= i < |Encode(schema, x).columns| && Encode(schema, x).columns[i] in IndicatorNames(x)| <= 5
    ensures forall i, j, k ::
              && 0 <= i < |Encode(schema, x).columns| && 0 <= j < |Encode(schema, x).columns| && 0 <= k < |Attributes|
              && Encode(schema, x).columns[i] in IndicatorNames(x) && HasPrefix(Encode(schema, x).columns[i], Attributes[k] + "_")
              && Encode(schema, x).columns[j] in IndicatorNames(x) && HasPrefix(Encode(schema, x).columns[j], Attributes[k] + "_")
              ==> i == j
  {
    var cols := Encode(schema, x).columns;
    EncodeEntries(schema, x);
    EncodedColumnsDistinct(schema);
    IndexCount(cols, IndicatorNames(x));
    forall i, j, k |
      && 0 <= i < |cols| && 0 <= j < |cols| && 0 <= k < |Attributes|
      && cols[i] in IndicatorNames(x) && HasPrefix(cols[i], Attributes[k] + "_")
      && cols[j] in IndicatorNames(x) && HasPrefix(cols[j], Attributes[k] + "_")
      ensures i == j
    {
      OneIndicatorPerAttribute(schema, x, k, i);
      OneIndicatorPerAttribute(schema, x, k, j);
    }
  }

  lemma EncodedColumnsDistinct(schema: seq<string>)
    requires Distinct(schema)
    ensures Distinct(EncodedColumns(schema))
  {
  }

  /** With distinct columns, at most `|names|` positions hold a name from `names`. */
  lemma {:induction false} IndexCount(cols: seq<string>, names: set<string>)
    requires Distinct(cols)
    ensures |set i | 0 <= i < |cols| && cols[i] in names| <= |names|
    decreases |cols|
  {
    if cols != [] {
      var n := |cols| - 1;
      var init := cols[..n];
      var last := cols[n];
      var rest := names - {last};
      IndexCount(init, rest);
      var all := set i | 0 <= i < |cols| && cols[i] in names;
      var before := set i | 0 <= i < |init| && init[i] in rest;
      assert all <= before + {n} by {
        forall i | i in all ensures i in before + {n} {
          if i < n { assert cols[i] != last; }
        }
      }
      if last in names {
        assert |all| <= |before| + 1 by { SubsetCard(all, before + {n}); }
      } else {
        assert all <= before by {
          forall i | i in all ensures i in before {
            assert i != n;
          }
        }
        SubsetCard(all, before);
      }
    }
  }

  lemma SubsetCard(a: set<int>, b: set<int>)
    requires a <= b
    ensures |a| <= |b|
  {
    assert b == a + (b - a);
  }

  // ---------------------------------------------------------------------------
  // The encoder as the source runs it: a table filled in place.

  /** Build the feature row for `x` over `schema`: zero fill, the two numeric
      column writes, then the one-hot loop with its membership check. */
  method EncodeRow(schema: seq<string>, x: RawInput) returns (df: DataFrame)
    ensures fresh(df) && df.Valid()
    ensures df.Snapshot() == Encode(schema, x)
  {
    var age := CarAge(x.year);
    df := new DataFrame.Zeros(schema);
    df.SetColumn("odometer", x.odometer);
    df.SetColumn("car_age", age);
    var inputs := Categorical(x);
    var i := 0;
    while i < |inputs|
      invariant 0 <= i <= |inputs|
      invariant fresh(df) && fresh(df.data) && df.Valid()
      invariant df.Snapshot() == OneHot(Numeric(schema, x), inputs[..i])
    {
      var (attr, value) := inputs[i];
      var name := attr + "_" + value;
      assert inputs[..i + 1][..i] == inputs[..i];
      if df.HasColumn(name) {
        df.SetColumn(name, 1);
      }
      i := i + 1;
    }
    assert inputs[..i] == inputs;
  }
}
