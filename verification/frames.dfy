/** In-memory tables as the pipeline sees them: a frame is an ordered list
    of named columns and an ordered list of rows, each row mapping every
    column name to a cell. A column is read only when it exists (the
    normalisations check first and raise KeyError otherwise); assigning a
    column replaces it where it stands or appends it as the last column. */
module Frames {

  import opened Calendar

  /** A cell. The model considers only these kinds: a CSV reader's Missing
      (an empty field), Str (text) and Num (a number), and Stamp, a parsed
      order date. Boolean cells are not modelled. */
  datatype Value = Missing | Str(s: string) | Num(x: real) | Stamp(t: Timestamp)

  type Row = map<string, Value>

  /** The error kinds the normalisations can raise. */
  datatype Error =
    | KeyError(column: string)        // the column is not in the frame
    | AttributeError(column: string)  // the .str accessor on a non-text column

  datatype Status = Ok | Raised(error: Error)

  datatype Table = Table(columns: seq<string>, rows: seq<Row>)

  /** The status a normalisation ends with and the frame's state then
      (a failing step leaves the frame as the earlier steps made it). */
  datatype Outcome = Outcome(status: Status, table: Table)

  predicate Distinct<T(==)>(s: seq<T>) {
    forall i, j :: 0 <= i < j < |s| ==> s[i] != s[j]
  }

  /** Column names are distinct and every row holds exactly the columns. */
  predicate WellFormed(t: Table) {
    && Distinct(t.columns)
    && forall i :: 0 <= i < |t.rows| ==> t.rows[i].Keys == set c | c in t.columns
  }

  /** df[c]: the cells of column c, one per row. */
  function Column(t: Table, c: string): (vs: seq<Value>)
    requires WellFormed(t) && c in t.columns
    ensures |vs| == |t.rows|
    ensures forall i :: 0 <= i < |t.rows| ==> vs[i] == t.rows[i][c]
  {
    seq(|t.rows|, i requires 0 <= i < |t.rows| => t.rows[i][c])
  }

  /** df[c] = vs: an existing column keeps its place, a new one is added
      last; only column c changes in any row. */
  function Assign(t: Table, c: string, vs: seq<Value>): (r: Table)
    requires WellFormed(t) && |vs| == |t.rows|
    ensures WellFormed(r)
    ensures r.columns == if c in t.columns then t.columns else t.columns + [c]
    ensures |r.rows| == |t.rows|
    ensures forall i :: 0 <= i < |r.rows| ==>
      && r.rows[i].Keys == t.rows[i].Keys + {c}
      && r.rows[i][c] == vs[i]
      && forall k :: k in t.rows[i] && k != c ==> r.rows[i][k] == t.rows[i][k]
  {
    var columns := if c in t.columns then t.columns else t.columns + [c];
    assert (set k | k in columns) == (set k | k in t.columns) + {c};
    Table(columns, seq(|t.rows|, i requires 0 <= i < |t.rows| => t.rows[i][c := vs[i]]))
  }

  /** Writing a column's own cells back leaves the frame as it was. */
  lemma AssignOwnColumn(t: Table, c: string)
    requires WellFormed(t) && c in t.columns
    ensures Assign(t, c, Column(t, c)) == t
  {
    var r := Assign(t, c, Column(t, c));
    forall i | 0 <= i < |t.rows|
      ensures r.rows[i] == t.rows[i]
    {
    }
  }

  /** Reading back an assigned column gives the assigned cells. */
  lemma ColumnOfAssign(t: Table, c: string, vs: seq<Value>)
    requires WellFormed(t) && |vs| == |t.rows|
    ensures c in Assign(t, c, vs).columns && Column(Assign(t, c, vs), c) == vs
  {
  }

  /** A pandas DataFrame that the normalisations update in place. */
  class Frame {
    var columns: seq<string>
    var rows: seq<Row>

    function Snapshot(): Table
      reads this
    {
      Table(columns, rows)
    }

    ghost predicate Valid()
      reads this
    {
      WellFormed(Snapshot())
    }

    constructor (t: Table)
      requires WellFormed(t)
      ensures Valid() && Snapshot() == t
    {
      columns, rows := t.columns, t.rows;
    }

    /** df[c]: the frame's current cells of column c, one per row. */
    function Get(c: string): (vs: seq<Value>)
      reads this
      requires Valid() && c in columns
      ensures |vs| == |rows| && forall i :: 0 <= i < |rows| ==> vs[i] == rows[i][c]
      ensures vs == Column(Snapshot(), c)
    {
      Column(Snapshot(), c)
    }

    /** df[c] = vs */
    method Set(c: string, vs: seq<Value>)
      requires Valid() && |vs| == |rows|
      modifies this
      ensures Valid()
      ensures Snapshot() == Assign(old(Snapshot()), c, vs)
    {
      var t := Assign(Snapshot(), c, vs);
      columns, rows := t.columns, t.rows;
    }
  }
}
