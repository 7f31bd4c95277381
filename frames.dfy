/** A one-row table with named columns, as the prediction step builds it:
    a value model (`Frame`) and the mutable table (`DataFrame`) the encoder
    fills in place. */
module Frames {

  /** The columns of a one-row table, in order, and the row's entries. */
  datatype Frame = Frame(columns: seq<string>, values: seq<int>)

  predicate WellFormed(f: Frame) {
    |f.columns| == |f.values|
  }

  /** A row of zeros, one entry per column of `schema`, in schema order. */
  function ZeroRow(schema: seq<string>): (f: Frame)
    ensures WellFormed(f)
    ensures f.columns == schema
    ensures forall i :: 0 <= i < |f.values| ==> f.values[i] == 0
  {
    Frame(schema, seq(|schema|, _ => 0))
  }

  /** Assigning a scalar to a column by name: every column called `name` gets
      `v`; when there is none, a column `name` holding `v` is appended. */
  function Assign(f: Frame, name: string, v: int): (g: Frame)
    requires WellFormed(f)
    ensures WellFormed(g)
    ensures name in g.columns
    ensures name in f.columns ==> g.columns == f.columns
    ensures name !in f.columns ==> g.columns == f.columns + [name]
    ensures forall i :: 0 <= i < |g.values| ==>
              g.values[i] == (if g.columns[i] == name then v else f.values[i])
  {
    if name in f.columns then
      Frame(f.columns, seq(|f.values|, i requires 0 <= i < |f.values| =>
                             if f.columns[i] == name then v else f.values[i]))
    else
      Frame(f.columns + [name], f.values + [v])
  }

  /** The table the encoder allocates and then fills in place. */
  class DataFrame {
    var columns: seq<string>
    var data: array<int>

    ghost predicate Valid()
      reads this
    {
      |columns| == data.Length
    }

    /** The current contents as a value. */
    ghost function Snapshot(): (f: Frame)
      reads this, data
      requires Valid()
    {
      Frame(columns, data[..])
    }

    /** A table of zeros over `schema`, as `np.zeros` under those columns. */
    constructor Zeros(schema: seq<string>)
      ensures Valid() && fresh(data)
      ensures Snapshot() == ZeroRow(schema)
    {
      columns := schema;
      data := new int[|schema|](_ => 0);
      new;
      assert data[..] == ZeroRow(schema).values;
    }

    predicate HasColumn(name: string)
      reads this
    {
      name in columns
    }

    /** `df[name] = v`: overwrite every column called `name`, or append one. */
    method SetColumn(name: string, v: int)
      requires Valid()
      modifies this, data
      ensures Valid()
      ensures data == old(data) || fresh(data)
      ensures Snapshot() == Assign(old(Snapshot()), name, v)
    {
      ghost var before := Snapshot();
      if name in columns {
        var i := 0;
        while i < data.Length
          invariant 0 <= i <= data.Length
          invariant data == old(data) && columns == before.columns
          invariant data.Length == |before.values|
          invariant forall k :: 0 <= k < i ==>
                      data[k] == (if columns[k] == name then v else before.values[k])
          invariant forall k :: i <= k < data.Length ==> data[k] == before.values[k]
        {
          if columns[i] == name {
            data[i] := v;
          }
          i := i + 1;
        }
        assert data[..] == Assign(before, name, v).values;
      } else {
        var grown := new int[data.Length + 1];
        var i := 0;
        while i < data.Length
          invariant 0 <= i <= data.Length
          invariant data == old(data) && columns == before.columns
          invariant data[..] == before.values
          invariant forall k :: 0 <= k < i ==> grown[k] == before.values[k]
        {
          grown[i] := data[i];
          i := i + 1;
        }
        grown[data.Length] := v;
        assert grown[..] == before.values + [v];
        data := grown;
        columns := columns + [name];
      }
    }
  }
}
