// The whole run of a table as an object, from the empty table to the matrix it is read into.
module TableRun {
  import opened Dictionary
  import TD = TableData
  import TT = TableTheorems
  import opened Tables
  import opened TableMatrix
  import LoadTable

  // One call of append or compress_chunk; one that throws leaves the table as it was.
  method Perform<V(!new)>(table: Table<V>, op: TT.Operation<V>, logOfZero: int)
    requires table.Valid() && TT.Sound(table.ts, table.data) && TT.Legal(table.data, op) && |table.colTypes| < 0x1_0000
    modifies table, table.chunks, table.segs
    ensures table.Valid() && table.data == TT.Step(table.ts, old(table.data), op, logOfZero)
    ensures table.colTypes == old(table.colTypes) && fresh(table.segs - old(table.segs))
    ensures fresh(table.Objects(table.chunks) - table.Objects(old(table.chunks)))
  {
    TT.SoundTablesFit(table.ts, table.data);
    match op
    case AppendRow(row) => var _ := table.Append(row);
    case CompressId(id) => var _ := table.CompressChunk(id, logOfZero);
  }

  lemma NextOperation<V(!new)>(ts: TD.Types<V>, t: TD.Table<V>, ops: seq<TT.Operation<V>>, i: nat, logOfZero: int)
    returns (t': TD.Table<V>)
    requires TD.Lawful(ts) && TT.Sound(ts, t) && i < |ops| && TT.LegalRun(ts, t, ops[i..], logOfZero)
    ensures TT.Legal(t, ops[i]) && t' == TT.Step(ts, t, ops[i], logOfZero) && TT.Sound(ts, t')
    ensures TT.LegalRun(ts, t', ops[i + 1..], logOfZero)
    ensures TT.Run(ts, t, ops[i..], logOfZero) == TT.Run(ts, t', ops[i + 1..], logOfZero)
  {
    assert ops[i..][0] == ops[i] && ops[i..][1..] == ops[i + 1..];
    TT.StepIsSound(ts, t, ops[i], logOfZero);
    t' := TT.Step(ts, t, ops[i], logOfZero);
  }

  method PerformAll<V(!new)>(table: Table<V>, ops: seq<TT.Operation<V>>, logOfZero: int)
    requires TD.Lawful(table.ts) && table.Valid() && TT.Sound(table.ts, table.data)
    requires TT.LegalRun(table.ts, table.data, ops, logOfZero) && |table.colTypes| < 0x1_0000
    modifies table, table.chunks, table.segs
    ensures table.Valid() && table.data == TT.Run(table.ts, old(table.data), ops, logOfZero)
    ensures table.colTypes == old(table.colTypes)
  {
    ghost var all := TT.Run(table.ts, table.data, ops, logOfZero);
    assert ops[0..] == ops;
    for i := 0 to |ops|
      invariant table.Valid() && TT.Sound(table.ts, table.data)
      invariant TT.LegalRun(table.ts, table.data, ops[i..], logOfZero)
      invariant all == TT.Run(table.ts, table.data, ops[i..], logOfZero)
      invariant table.colTypes == old(table.colTypes) && fresh(table.segs - old(table.segs))
      invariant fresh(table.Objects(table.chunks) - table.Objects(old(table.chunks)))
    {
      ghost var next := NextOperation(table.ts, table.data, ops, i, logOfZero);
      Perform(table, ops[i], logOfZero);
    }
  }

  // What a run on a new table adds to it.
  ghost function RowsOfRun<V>(
    ts: TD.Types<V>, chunkSize: nat, types: seq<string>, ops: seq<TT.Operation<V>>, logOfZero: int): seq<TD.Row<V>>
    requires TT.LegalRun(ts, TT.NewTable(ts, chunkSize, types), ops, logOfZero)
  {
    TT.AddedRows(ts, TT.NewTable(ts, chunkSize, types), ops, logOfZero)
  }

  lemma RunOfNewTable<V(!new)>(
    ts: TD.Types<V>, chunkSize: nat, types: seq<string>, ops: seq<TT.Operation<V>>, logOfZero: int)
    requires TD.Lawful(ts) && 1 <= chunkSize < ID_RANGE && types != []
    requires TT.LegalRun(ts, TT.NewTable(ts, chunkSize, types), ops, logOfZero)
    ensures var t, rows := TT.NewTable(ts, chunkSize, types), RowsOfRun(ts, chunkSize, types, ops, logOfZero);
            && TT.Sound(ts, t) && TT.Sound(ts, TT.Run(ts, t, ops, logOfZero))
            && TD.Rows(TT.Run(ts, t, ops, logOfZero).chunks) == rows
            && (TT.OpenChunkStays(ts, t, ops, logOfZero) ==> rows == TT.Given(ts, types, ops))
  {
    var t := TT.NewTable(ts, chunkSize, types);
    TT.NewTableIsSound(ts, chunkSize, types);
    TT.WholeRun(ts, t, ops, logOfZero);
    if TT.OpenChunkStays(ts, t, ops, logOfZero) { TT.AllRowsKept(ts, t, ops, logOfZero); }
  }

  // Any interleaving of append and compress_chunk on a new table, read chunk by chunk: the matrix
  // holds the rows that append took, cast and in order, every cell written once. If only full
  // chunks are compressed, these are all the rows given.
  method RunAndRead<V(==, !new)>(
    ts: TD.Types<V>, chunkSize: nat, names: seq<string>, types: seq<string>, ops: seq<TT.Operation<V>>, logOfZero: int)
    returns (matrix: array2<Cell<V>>, ghost writes: Writes)
    requires TD.Lawful(ts) && 1 <= chunkSize < ID_RANGE && 0 < |types| == |names| < 0x1_0000
    requires TT.LegalRun(ts, TT.NewTable(ts, chunkSize, types), ops, logOfZero)
    requires |RowsOfRun(ts, chunkSize, types, ops, logOfZero)| < ID_RANGE
    ensures var rows := RowsOfRun(ts, chunkSize, types, ops, logOfZero);
            && matrix.Length1 == |types| && Filled(matrix, rows, |rows|)
            && (TT.OpenChunkStays(ts, TT.NewTable(ts, chunkSize, types), ops, logOfZero) ==>
                  rows == TT.Given(ts, types, ops))
    ensures forall r, c :: writes[(r, c)] == if 0 <= r < matrix.Length0 && 0 <= c < matrix.Length1 then 1 else 0
  {
    RunOfNewTable(ts, chunkSize, types, ops, logOfZero);
    var table := LoadTable.MakeTable(ts, chunkSize, names, types);
    assert types[..|names|] == types;
    PerformAll(table, ops, logOfZero);
    matrix, writes := TableToMatrix(table);
  }
}
