/** `transpose` of the helpers (src/lib/helpers.js), which turns the rows of
    a report table into its columns before their widths are measured. */
module Tables {
  import opened Values

  /** Column `j` of the table: entry `j` of every row, `undefined` where a
      row is shorter. */
  function Column(records: seq<seq<JsValue>>, j: nat): (c: seq<JsValue>)
    ensures |c| == |records|
    ensures forall i :: 0 <= i < |records| ==> c[i] == Index(records[i], j)
  {
    seq(|records|, i requires 0 <= i < |records| => Index(records[i], j))
  }

  /** The first `n` columns of the table. */
  function Transposed(records: seq<seq<JsValue>>, n: int): (columns: seq<seq<JsValue>>)
    ensures |columns| == if n < 0 then 0 else n
    ensures forall j :: 0 <= j < |columns| ==> columns[j] == Column(records, j)
  {
    if n <= 0 then [] else Transposed(records, n - 1) + [Column(records, n - 1)]
  }

  /** `transpose(records, numColumns)`: one column is pushed per index below
      `numColumns`, each holding the entry of every row at that index. */
  method Transpose(records: seq<seq<JsValue>>, numColumns: int) returns (columns: seq<seq<JsValue>>)
    ensures columns == Transposed(records, numColumns)
  {
    columns := [];
    var index := 0;
    while index < numColumns
      invariant if numColumns < 0 then index == 0 else 0 <= index <= numColumns
      invariant columns == Transposed(records, index)
    {
      var column := [];
      var i := 0;
      while i < |records|
        invariant i <= |records|
        invariant column == Column(records, index)[..i]
      {
        column := column + [Index(records[i], index)];
        i := i + 1;
      }
      assert column == Column(records, index);
      columns := columns + [column];
      index := index + 1;
    }
    assert numColumns < 0 ==> Transposed(records, numColumns) == [];
  }

  /** Every row holds exactly `n` entries. */
  predicate Rectangular(records: seq<seq<JsValue>>, n: nat) {
    forall i :: 0 <= i < |records| ==> |records[i]| == n
  }

  /** Transposing the columns of a table with rows of `n` entries gives the
      rows back. */
  lemma TransposeTwice(records: seq<seq<JsValue>>, n: nat)
    requires Rectangular(records, n)
    ensures Transposed(Transposed(records, n), |records|) == records
  {
    var columns := Transposed(records, n);
    var back := Transposed(columns, |records|);
    forall i | 0 <= i < |records|
      ensures back[i] == records[i]
    {
      assert back[i] == Column(columns, i);
      forall j | 0 <= j < n
        ensures back[i][j] == records[i][j]
      {
        assert columns[j] == Column(records, j);
        assert back[i][j] == Index(columns[j], i);
      }
    }
  }
}
