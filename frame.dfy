/**
 * A pandas DataFrame as the ingest step uses it: named columns of one
 * length whose cells are overwritten column by column, and whose rows are
 * exported as dictionaries.
 */
module Frames {
  import opened Values

  /** Every column holds one cell per row. */
  predicate Rectangular(columns: map<string, seq<Value>>, length: nat) {
    forall c | c in columns :: |columns[c]| == length
  }

  /** What pd.read_csv gives: a rectangular table of scalar cells. */
  predicate FromCsv(columns: map<string, seq<Value>>, length: nat) {
    Rectangular(columns, length)
    && forall c, i | c in columns && 0 <= i < length :: IsScalar(columns[c][i])
  }

  /** df.to_dict(orient="records") on a table given by its columns. */
  function RowsOf(columns: map<string, seq<Value>>, length: nat): (rs: seq<Record>)
    requires Rectangular(columns, length)
    ensures |rs| == length
    ensures forall i | 0 <= i < length :: rs[i].Keys == columns.Keys
    ensures forall i, c | 0 <= i < length && c in columns :: rs[i][c] == columns[c][i]
  {
    seq(length, i requires 0 <= i < length => map c | c in columns :: columns[c][i])
  }

  /** The rows are determined by the columns: any rows that agree with them cell for cell are these. */
  lemma RowsOfUnique(columns: map<string, seq<Value>>, length: nat, rs: seq<Record>)
    requires Rectangular(columns, length)
    requires |rs| == length
    requires forall i | 0 <= i < length :: rs[i].Keys == columns.Keys
    requires forall i, c | 0 <= i < length && c in columns :: rs[i][c] == columns[c][i]
    ensures rs == RowsOf(columns, length)
  {
    var qs := RowsOf(columns, length);
    forall i | 0 <= i < length
      ensures rs[i] == qs[i]
    {
      assert rs[i].Keys == qs[i].Keys;
    }
  }

  class DataFrame {
    var columns: map<string, seq<Value>>
    const length: nat

    ghost predicate Valid()
      reads this
    {
      Rectangular(columns, length)
    }

    /** The frame pd.read_csv builds. */
    constructor (columns: map<string, seq<Value>>, length: nat)
      requires Rectangular(columns, length)
      ensures this.columns == columns && this.length == length
      ensures Valid()
    {
      this.columns := columns;
      this.length := length;
    }

    /** df[name] = col: the column is replaced (or added) and nothing else changes. */
    method SetColumn(name: string, col: seq<Value>)
      requires Valid() && |col| == length
      modifies this
      ensures columns == old(columns)[name := col]
      ensures Valid()
    {
      columns := columns[name := col];
    }

    /** df.to_dict(orient="records"): one dictionary per row, keyed by column name. */
    function Records(): (rs: seq<Record>)
      requires Valid()
      reads this
      ensures |rs| == length
      ensures forall i | 0 <= i < length :: rs[i].Keys == columns.Keys
      ensures forall i, c | 0 <= i < length && c in columns :: rs[i][c] == columns[c][i]
    {
      RowsOf(columns, length)
    }
  }
}
