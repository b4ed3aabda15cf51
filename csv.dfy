/**
 * The input table as the script sees it after `read_csv`: a set of column
 * names and a sequence of rows, each row giving a cell for every column.
 */
module Csv {
  import opened Address

  /** The one column the script requires and rewrites. */
  const ADDRESS_COLUMN: string := "adresse"

  type Row = map<string, string>

  datatype Frame = Frame(columns: set<string>, rows: seq<Row>)

  /** Every row has a cell for exactly the table's columns. */
  predicate Rectangular(f: Frame)
  {
    forall i :: 0 <= i < |f.rows| ==> f.rows[i].Keys == f.columns
  }

  /** A data frame as produced by a successful CSV parse. */
  type Table = f: Frame | Rectangular(f) witness Frame({}, [])

  /**
   * `df['adresse'] = df['adresse'].str.replace(' ', '+')`: the address cell
   * of every row is normalised; columns, row order and all other cells are
   * kept.
   */
  function NormaliseAddresses(t: Table): (r: Table)
    requires ADDRESS_COLUMN in t.columns
    ensures r.columns == t.columns && |r.rows| == |t.rows|
    ensures forall i :: 0 <= i < |t.rows| ==>
              r.rows[i][ADDRESS_COLUMN] == Normalise(t.rows[i][ADDRESS_COLUMN])
    ensures forall i, c :: 0 <= i < |t.rows| && c in t.columns && c != ADDRESS_COLUMN ==>
              r.rows[i][c] == t.rows[i][c]
  {
    Frame(t.columns, seq(|t.rows|, i requires 0 <= i < |t.rows| =>
      t.rows[i][ADDRESS_COLUMN := Normalise(t.rows[i][ADDRESS_COLUMN])]))
  }

  /** The `adresse` attribute of every row, in row order. */
  function Addresses(t: Table): (addresses: seq<string>)
    requires ADDRESS_COLUMN in t.columns
    ensures |addresses| == |t.rows|
    ensures forall i :: 0 <= i < |t.rows| ==> addresses[i] == t.rows[i][ADDRESS_COLUMN]
  {
    seq(|t.rows|, i requires 0 <= i < |t.rows| => t.rows[i][ADDRESS_COLUMN])
  }
}
