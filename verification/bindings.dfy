/** Rows of a SPARQL result: each row binds variable names to literal values,
    in the order the query service lists them. */
module Bindings {
  import opened Python

  datatype Binding = Binding(name: string, value: string)

  type Row = seq<Binding>

  /** The query-execution service: from a query string to its result rows. */
  type Executor = string -> seq<Row>

  function RowValues(row: Row): (r: seq<string>)
    ensures |r| == |row|
    ensures forall k :: 0 <= k < |row| ==> r[k] == row[k].value
  {
    if |row| == 0 then [] else [row[0].value] + RowValues(row[1..])
  }

  /** `[row[var]['value'] for row in rows for var in row]`: every value of every
      row, rows in order and each row in variable order. */
  function Values(rows: seq<Row>): seq<string> {
    if |rows| == 0 then [] else RowValues(rows[0]) + Values(rows[1..])
  }

  /** Flattening distributes over concatenation of the row list, and a single
      row contributes exactly its own values. */
  lemma {:induction false} ValuesAppend(a: seq<Row>, b: seq<Row>)
    ensures Values(a + b) == Values(a) + Values(b)
    ensures Values([]) == []
    decreases |a|
  {
    if |a| == 0 {
      assert a + b == b;
    } else {
      assert (a + b)[0] == a[0];
      assert (a + b)[1..] == a[1..] + b;
      ValuesAppend(a[1..], b);
    }
  }

  lemma ValuesSingle(row: Row)
    ensures Values([row]) == RowValues(row)
  {
    assert [row][1..] == [];
  }

  /** `row[name]['value']`: the value bound to `name`, or KeyError. */
  function Lookup(row: Row, name: string): (r: Result<string>)
    ensures r.Raise? ==> r.error == KeyError
  {
    if |row| == 0 then Raise(KeyError)
    else if row[0].name == name then Ok(row[0].value)
    else Lookup(row[1..], name)
  }

  /** The lookup succeeds exactly when some binding of the row has that name,
      and then yields that binding's value. */
  lemma {:induction false} LookupFinds(row: Row, name: string)
    ensures Lookup(row, name).Ok? <==> exists k :: 0 <= k < |row| && row[k].name == name
    ensures Lookup(row, name).Ok? ==>
      exists k :: 0 <= k < |row| && row[k].name == name && row[k].value == Lookup(row, name).value
    decreases |row|
  {
    if |row| > 0 && row[0].name != name {
      LookupFinds(row[1..], name);
      assert forall k :: 1 <= k < |row| ==> row[k] == row[1..][k - 1];
      if Lookup(row, name).Ok? {
        var k :| 0 <= k < |row[1..]| && row[1..][k].name == name && row[1..][k].value == Lookup(row, name).value;
        assert row[k + 1] == row[1..][k];
      }
    }
  }
}
