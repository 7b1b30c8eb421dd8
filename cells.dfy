/** Table cells and columns, as pandas holds them. */
module Cells {
  import opened Wrappers

  /** A cell: a finite number, a signed infinity, text, or the missing marker (NaN). */
  datatype Value = Num(x: real) | Inf(positive: bool) | Text(s: string) | Missing

  /** A row of a table read from one file: column name to cell. */
  type Row = map<string, Value>

  /** A named column of a table. */
  datatype Column = Column(name: string, cells: seq<Value>)

  function Names(columns: seq<Column>): (r: seq<string>)
    ensures |r| == |columns| && forall i :: 0 <= i < |columns| ==> r[i] == columns[i].name
  {
    if columns == [] then [] else [columns[0].name] + Names(columns[1..])
  }

  lemma NamesAppend(a: seq<Column>, b: seq<Column>)
    ensures Names(a + b) == Names(a) + Names(b)
  {
    assert forall i :: 0 <= i < |a + b| ==> Names(a + b)[i] == (Names(a) + Names(b))[i];
  }

  /** Appending one column, then several, then one more, appends the three parts at once. */
  lemma AppendParts(cols: seq<Column>, first: Column, middle: seq<Column>, last: Column)
    ensures cols + [first] + middle + [last] == cols + ([first] + middle + [last])
  {
  }

  /** `df[name]`: the first column with that name, or None where pandas raises KeyError. */
  function Find(columns: seq<Column>, name: string): (r: Option<Column>)
    ensures r.Some? <==> name in Names(columns)
    ensures r.Some? ==> r.value in columns && r.value.name == name
  {
    if columns == [] then None
    else if columns[0].name == name then Some(columns[0])
    else Find(columns[1..], name)
  }

  /** Every column has exactly `height` cells, as in any pandas DataFrame. */
  predicate Rectangular(columns: seq<Column>, height: nat)
  {
    forall c :: c in columns ==> |c.cells| == height
  }
}
