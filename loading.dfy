/**
 * What a loader does with the rows it reads: convert each row to a record
 * and keep, in input order, exactly the records that pass the key check.
 * The file itself is abstracted as a `Source`: missing, unreadable (opening
 * or reading raised any other error, possibly part-way through), or a
 * sequence of header-keyed rows.
 */
module Loading {
  import opened Fields

  datatype Source = NotFound | ReadError | Rows(rows: seq<Row>)

  /** The records a loader builds from `rows`, appended one row at a time. */
  function Keep<R>(rows: seq<Row>, conv: Row -> R, kept: R -> bool): (r: seq<R>)
    ensures |r| <= |rows|
    ensures forall i :: 0 <= i < |r| ==> kept(r[i])
  {
    if rows == [] then []
    else
      var x := conv(rows[|rows| - 1]);
      Keep(rows[..|rows| - 1], conv, kept) + (if kept(x) then [x] else [])
  }

  /** One more row read: its record is appended exactly when it is kept. */
  lemma KeepStep<R>(rows: seq<Row>, i: nat, conv: Row -> R, kept: R -> bool)
    requires i < |rows|
    ensures Keep(rows[..i + 1], conv, kept)
            == Keep(rows[..i], conv, kept) + (if kept(conv(rows[i])) then [conv(rows[i])] else [])
  {
    assert rows[..i + 1][..i] == rows[..i];
  }

  /**
   * The row loop shared by the three loaders: convert each row in turn and
   * append its record when the record passes the check.
   */
  method KeepRows<R>(rows: seq<Row>, conv: Row -> R, kept: R -> bool) returns (records: seq<R>)
    ensures records == Keep(rows, conv, kept)
  {
    records := [];
    var i := 0;
    while i < |rows|
      invariant 0 <= i <= |rows|
      invariant records == Keep(rows[..i], conv, kept)
    {
      KeepStep(rows, i, conv, kept);
      var record := conv(rows[i]);
      if kept(record) {
        records := records + [record];
      }
      i := i + 1;
    }
    assert rows[..|rows|] == rows;
  }

  /** The positions of the rows that are kept, in increasing order. */
  function KeptPositions<R>(rows: seq<Row>, conv: Row -> R, kept: R -> bool): (p: seq<nat>)
    ensures forall j :: 0 <= j < |p| ==> p[j] < |rows|
  {
    if rows == [] then []
    else
      KeptPositions(rows[..|rows| - 1], conv, kept)
      + (if kept(conv(rows[|rows| - 1])) then [|rows| - 1] else [])
  }

  /**
   * The loader keeps rows in input order and drops exactly the rows that
   * fail the check: the kept positions increase, a position is kept exactly
   * when its row passes, and the j-th record is the conversion of the row
   * at the j-th kept position.
   */
  lemma {:induction false} KeepExactly<R>(rows: seq<Row>, conv: Row -> R, kept: R -> bool)
    ensures var p := KeptPositions(rows, conv, kept);
            var r := Keep(rows, conv, kept);
            && |p| == |r|
            && (forall j :: 0 <= j < |r| ==> r[j] == conv(rows[p[j]]))
            && (forall j, k :: 0 <= j < k < |p| ==> p[j] < p[k])
            && (forall i :: 0 <= i < |rows| ==> (i in p <==> kept(conv(rows[i]))))
  {
    if rows != [] {
      var init := rows[..|rows| - 1];
      KeepExactly(init, conv, kept);
      var p0 := KeptPositions(init, conv, kept);
      var p := KeptPositions(rows, conv, kept);
      var r := Keep(rows, conv, kept);
      forall j | 0 <= j < |r| ensures r[j] == conv(rows[p[j]]) {
        if j < |p0| { assert rows[p0[j]] == init[p0[j]]; }
      }
      forall i | 0 <= i < |rows| ensures i in p <==> kept(conv(rows[i])) {
        if i < |rows| - 1 {
          assert rows[i] == init[i];
          assert |rows| - 1 !in p0;
          assert i in p <==> i in p0;
        }
      }
    }
  }
}
