// _table_to_matrix of the tests: the reference reading of a table.
module TableMatrix {
  import opened Text
  import opened Dictionary
  import TD = TableData
  import TT = TableTheorems
  import opened Segments
  import opened Tables

  // A cell of the matrix; None is the blank value it starts with.
  type Cell<V> = Option<V>

  // How often each cell has been written.
  type Writes = multiset<(int, int)>

  method WriteCell<V>(matrix: array2<Cell<V>>, r: nat, c: nat, v: Cell<V>, ghost writes: Writes)
    returns (ghost writes': Writes)
    requires r < matrix.Length0 && c < matrix.Length1
    modifies matrix
    ensures forall i, j :: 0 <= i < matrix.Length0 && 0 <= j < matrix.Length1 ==>
              matrix[i, j] == if i == r && j == c then v else old(matrix[i, j])
    ensures writes' == writes + multiset{(r, c)}
  {
    matrix[r, c] := v;
    writes' := writes + multiset{(r, c)};
  }

  // Cells of rows lo to hi in the columns first to last have been written once more.
  ghost predicate OnceMore(before: Writes, after: Writes, lo: int, hi: int, first: int, last: int) {
    forall r, c :: after[(r, c)] == before[(r, c)] + if lo <= r < hi && first <= c < last then 1 else 0
  }

  // Column j of the chunk, written from row_offset on.
  method CopyColumn<V>(chunk: Chunk<V>, j: nat, matrix: array2<Cell<V>>, rowOffset: nat, ghost writes: Writes)
    returns (ghost writes': Writes)
    requires chunk.Valid() && j < |chunk.data| && j < matrix.Length1
    requires TD.Size(chunk.data[j]) == TD.ChunkLength(chunk.data) < ID_RANGE
    requires rowOffset + TD.ChunkLength(chunk.data) <= matrix.Length0
    modifies matrix
    ensures forall r, c :: 0 <= r < matrix.Length0 && 0 <= c < matrix.Length1 ==>
              matrix[r, c] == if c == j && rowOffset <= r < rowOffset + TD.ChunkLength(chunk.data)
                              then TD.Cell(chunk.data[j], r - rowOffset) else old(matrix[r, c])
    ensures OnceMore(writes, writes', rowOffset, rowOffset + TD.ChunkLength(chunk.data), j, j + 1)
  {
    var segment := chunk.GetSegment(j).value;
    writes' := writes;
    for chunkOffset := 0 to chunk.Length()
      invariant forall r, c :: 0 <= r < matrix.Length0 && 0 <= c < matrix.Length1 ==>
                  matrix[r, c] == if c == j && rowOffset <= r < rowOffset + chunkOffset
                                  then TD.Cell(chunk.data[j], r - rowOffset) else old(matrix[r, c])
      invariant OnceMore(writes, writes', rowOffset, rowOffset + chunkOffset, j, j + 1)
    {
      writes' := WriteCell(matrix, rowOffset + chunkOffset, j, SegmentAt(segment, chunkOffset), writes');
    }
  }

  // All columns of the chunk.
  method CopyChunk<V>(chunk: Chunk<V>, matrix: array2<Cell<V>>, rowOffset: nat, ghost writes: Writes)
    returns (ghost writes': Writes)
    requires chunk.Valid() && |chunk.data| == matrix.Length1 && TD.ChunkLength(chunk.data) < ID_RANGE
    requires forall j :: 0 <= j < |chunk.data| ==> TD.Size(chunk.data[j]) == TD.ChunkLength(chunk.data)
    requires rowOffset + TD.ChunkLength(chunk.data) <= matrix.Length0
    modifies matrix
    ensures forall r, c :: 0 <= r < matrix.Length0 && 0 <= c < matrix.Length1 ==>
              matrix[r, c] == if rowOffset <= r < rowOffset + TD.ChunkLength(chunk.data)
                              then TD.Cell(chunk.data[c], r - rowOffset) else old(matrix[r, c])
    ensures OnceMore(writes, writes', rowOffset, rowOffset + TD.ChunkLength(chunk.data), 0, matrix.Length1)
  {
    writes' := writes;
    for columnId := 0 to matrix.Length1
      invariant forall r, c :: 0 <= r < matrix.Length0 && 0 <= c < matrix.Length1 ==>
                  matrix[r, c] == if c < columnId && rowOffset <= r < rowOffset + TD.ChunkLength(chunk.data)
                                  then TD.Cell(chunk.data[c], r - rowOffset) else old(matrix[r, c])
      invariant OnceMore(writes, writes', rowOffset, rowOffset + TD.ChunkLength(chunk.data), 0, columnId)
    {
      writes' := CopyColumn(chunk, columnId, matrix, rowOffset, writes');
    }
  }

  // Rows up to n are in the matrix.
  ghost predicate Filled<V>(matrix: array2<Cell<V>>, rows: seq<TD.Row<V>>, n: nat)
    reads matrix
  {
    && n <= |rows| == matrix.Length0
    && (forall r :: 0 <= r < n ==> |rows[r]| == matrix.Length1)
    && (forall r, c :: 0 <= r < n && 0 <= c < matrix.Length1 ==> matrix[r, c] == rows[r][c])
  }

  // Chunk c is rectangular and holds the rows from row_offset on.
  ghost predicate HoldsRows<V>(c: TD.ChunkData<V>, columns: nat, rows: seq<TD.Row<V>>, rowOffset: nat) {
    && |c| == columns && TD.ChunkLength(c) < ID_RANGE && rowOffset + TD.ChunkLength(c) <= |rows|
    && (forall j :: 0 <= j < |c| ==> TD.Size(c[j]) == TD.ChunkLength(c))
    && (forall o: nat :: o < TD.ChunkLength(c) ==> rows[rowOffset + o] == TD.RowOf(c, o))
  }

  // Chunk k of the table holds the rows after those of the chunks before it.
  ghost predicate Reads<V>(chunks: seq<TD.ChunkData<V>>, k: nat, columns: nat, rows: seq<TD.Row<V>>)
    requires k < |chunks|
  {
    var before := |TD.Rows(chunks[..k])|;
    HoldsRows(chunks[k], columns, rows, before) && |TD.Rows(chunks[..k + 1])| == before + TD.ChunkLength(chunks[k])
  }

  lemma ChunkReads<V>(ts: TD.Types<V>, t: TD.Table<V>, k: nat)
    requires TT.Sound(ts, t) && k < |t.chunks|
    ensures Reads(t.chunks, k, |t.types|, TD.Rows(t.chunks))
  {
    TT.RowsInside(t.chunks, k);
  }

  lemma ChunkCountIsExact<V>(ts: TD.Types<V>, t: TD.Table<V>)
    requires TT.Sound(ts, t) && |TD.Rows(t.chunks)| < ID_RANGE
    ensures TT.ChunkCount(|t.chunks|) == |t.chunks|
  {
    TT.Lengths(ts, t);
    TT.TotalRows(t.chunks, t.chunkSize);
    NoFewerRows(t.chunkSize, |t.chunks| - 1);
  }

  lemma NoFewerRows(c: nat, n: nat)
    requires c >= 1
    ensures c * n >= n
  {
  }

  // The turn of the outer loop for one chunk; an empty one is passed over.
  method ReadChunk<V>(
    chunk: Chunk<V>, matrix: array2<Cell<V>>, rowOffset: nat, ghost rows: seq<TD.Row<V>>, ghost writes: Writes)
    returns (next: nat, ghost writes': Writes)
    requires chunk.Valid() && HoldsRows(chunk.data, matrix.Length1, rows, rowOffset)
    requires Filled(matrix, rows, rowOffset)
    modifies matrix
    ensures next == rowOffset + TD.ChunkLength(chunk.data) && Filled(matrix, rows, next)
    ensures OnceMore(writes, writes', rowOffset, next, 0, matrix.Length1)
  {
    if chunk.Length() == 0 { return rowOffset, writes; }
    writes' := CopyChunk(chunk, matrix, rowOffset, writes);
    next := rowOffset + chunk.Length();
    forall r | rowOffset <= r < next ensures rows[r] == TD.RowOf(chunk.data, r - rowOffset) {
      assert rows[rowOffset + (r - rowOffset)] == TD.RowOf(chunk.data, r - rowOffset);
    }
  }

  method FillMatrix<V(!new)>(table: Table<V>, matrix: array2<Cell<V>>, ghost rows: seq<TD.Row<V>>)
    returns (ghost writes: Writes)
    requires table.Valid() && Filled(matrix, rows, 0) && TT.ChunkCount(|table.chunks|) == |table.chunks|
    requires TD.Rows(table.data.chunks) == rows
    requires forall k :: 0 <= k < |table.data.chunks| ==> Reads(table.data.chunks, k, matrix.Length1, rows)
    modifies matrix
    ensures Filled(matrix, rows, |rows|)
    ensures OnceMore(multiset{}, writes, 0, |rows|, 0, matrix.Length1)
  {
    ghost var chunks := table.data.chunks;
    var rowOffset := 0;
    writes := multiset{};
    for chunkId := 0 to TT.ChunkCount(|table.chunks|)
      invariant rowOffset == |TD.Rows(chunks[..chunkId])| && Filled(matrix, rows, rowOffset)
      invariant OnceMore(multiset{}, writes, 0, rowOffset, 0, matrix.Length1)
    {
      assert Reads(chunks, chunkId, matrix.Length1, rows);
      rowOffset, writes := ReadChunk(table.chunks[chunkId], matrix, rowOffset, rows, writes);
    }
    assert chunks[..|chunks|] == chunks;
  }

  // Reading a table of fewer than 2^32 rows gives exactly its rows; every cell of the matrix is
  // written once, and nothing outside of it.
  method TableToMatrix<V(!new)>(table: Table<V>) returns (matrix: array2<Cell<V>>, ghost writes: Writes)
    requires table.Valid() && TT.Sound(table.ts, table.data)
    requires |TD.Rows(table.data.chunks)| < ID_RANGE && |table.colTypes| < 0x1_0000
    ensures fresh(matrix) && Filled(matrix, TD.Rows(table.data.chunks), |TD.Rows(table.data.chunks)|)
    ensures matrix.Length1 == |table.colTypes|
    ensures forall r, c :: writes[(r, c)] == if 0 <= r < matrix.Length0 && 0 <= c < matrix.Length1 then 1 else 0
  {
    ghost var data := table.data;
    TT.SoundTablesFit(table.ts, data);
    table.RowCountIsNumberOfRows();
    ChunkCountIsExact(table.ts, data);
    forall k | 0 <= k < |data.chunks| ensures Reads(data.chunks, k, |data.types|, TD.Rows(data.chunks)) {
      ChunkReads(table.ts, data, k);
    }
    matrix := new Cell<V>[table.RowCount(), table.ColumnCount()]((_, _) => None);
    writes := FillMatrix(table, matrix, TD.Rows(data.chunks));
  }
}
