// Whole runs of a table, the addresses of its rows, and row_count.
module TableTheorems {
  import opened Text
  import opened Dictionary
  import opened TableData

  // Table::Table and its columns
  function NewTable<V>(ts: Types<V>, chunkSize: nat, types: seq<string>): Table<V> {
    Table(chunkSize, types, [EmptyChunk(ts, types)])
  }

  datatype Operation<V> = AppendRow(row: seq<V>) | CompressId(id: nat)

  // append wants one value per column; compress_chunk a chunk not compressed before.
  predicate Legal<V>(t: Table<V>, op: Operation<V>) {
    match op
    case AppendRow(row) => |row| == |t.types|
    case CompressId(id) => id < |t.chunks| ==> IsPlain(t.chunks[id])
  }

  ghost predicate Sound<V>(ts: Types<V>, t: Table<V>) { Partitioned(ts, t) && t.chunkSize < ID_RANGE }

  // What append needs of a table: its last chunk has one segment per column, all of one kind.
  predicate LastFits<V>(t: Table<V>) {
    t.chunks != [] && |Last(t)| == |t.types| && (IsPlain(Last(t)) || IsCoded(Last(t))) &&
    ChunkLength(Last(t)) <= t.chunkSize < ID_RANGE
  }

  lemma RoomFits<V>(ts: Types<V>, t: Table<V>)
    requires LastFits(t)
    ensures var c := Last(WithRoom(ts, t)); |c| == |t.types| && (IsPlain(c) || IsCoded(c))
  {
  }

  // Every table that a run reaches can be appended to and compressed.
  lemma SoundTablesFit<V>(ts: Types<V>, t: Table<V>)
    requires Sound(ts, t)
    ensures LastFits(t) && forall k :: 0 <= k < |t.chunks| ==> |t.chunks[k]| == |t.types|
  {
  }

  // What the operation returns; None when it throws. Outside Legal and the shape that every table
  // has, where the program promises nothing, it is None too.
  ghost function Outcome<V>(ts: Types<V>, t: Table<V>, op: Operation<V>, logOfZero: int): Option<Table<V>> {
    match op
    case AppendRow(row) => if t.chunks == [] then None else Append(ts, t, row)
    case CompressId(id) =>
      if id < |t.chunks| && !(IsPlain(t.chunks[id]) && |t.chunks[id]| == |t.types|) then None
      else Compress(ts, t, id, logOfZero)
  }

  // An operation that throws leaves the table as it was.
  ghost function Step<V>(ts: Types<V>, t: Table<V>, op: Operation<V>, logOfZero: int): Table<V> {
    var r := Outcome(ts, t, op, logOfZero);
    if r.Some? then r.value else t
  }

  // The row that the operation adds, if any.
  ghost function Added<V>(ts: Types<V>, t: Table<V>, op: Operation<V>): seq<Row<V>>
    requires Legal(t, op)
  {
    if op.AppendRow? && Outcome(ts, t, op, 0).Some? then [CastRow(ts, t.types, op.row)] else []
  }

  lemma StepIsSound<V(!new)>(ts: Types<V>, t: Table<V>, op: Operation<V>, logOfZero: int)
    requires Lawful(ts) && Sound(ts, t) && Legal(t, op)
    ensures var t' := Step(ts, t, op, logOfZero);
            Sound(ts, t') && t'.types == t.types && t'.chunkSize == t.chunkSize &&
            Rows(t'.chunks) == Rows(t.chunks) + Added(ts, t, op)
  {
    match op
    case AppendRow(row) => AppendRefines(ts, t, row);
    case CompressId(id) => CompressRefines(ts, t, id, logOfZero);
  }

  lemma SoundStep<V(!new)>(ts: Types<V>, t: Table<V>, op: Operation<V>, logOfZero: int) returns (t': Table<V>)
    requires Lawful(ts) && Sound(ts, t) && Legal(t, op)
    ensures t' == Step(ts, t, op, logOfZero)
    ensures Sound(ts, t') && t'.types == t.types && t'.chunkSize == t.chunkSize
    ensures Rows(t'.chunks) == Rows(t.chunks) + Added(ts, t, op)
  {
    t' := Step(ts, t, op, logOfZero);
    StepIsSound(ts, t, op, logOfZero);
  }

  ghost function Run<V>(ts: Types<V>, t: Table<V>, ops: seq<Operation<V>>, logOfZero: int): Table<V>
    decreases |ops|
  {
    if ops == [] then t else Run(ts, Step(ts, t, ops[0], logOfZero), ops[1..], logOfZero)
  }

  ghost predicate LegalRun<V>(ts: Types<V>, t: Table<V>, ops: seq<Operation<V>>, logOfZero: int)
    decreases |ops|
  {
    ops == [] || (Legal(t, ops[0]) && LegalRun(ts, Step(ts, t, ops[0], logOfZero), ops[1..], logOfZero))
  }

  ghost function AddedRows<V>(ts: Types<V>, t: Table<V>, ops: seq<Operation<V>>, logOfZero: int): seq<Row<V>>
    requires LegalRun(ts, t, ops, logOfZero)
    decreases |ops|
  {
    if ops == [] then []
    else Added(ts, t, ops[0]) + AddedRows(ts, Step(ts, t, ops[0], logOfZero), ops[1..], logOfZero)
  }

  // After any interleaving of append and compress_chunk the table reads as the rows that append
  // took, cast to the column types and in order, and its partition is intact.
  lemma {:induction false} WholeRun<V(!new)>(ts: Types<V>, t: Table<V>, ops: seq<Operation<V>>, logOfZero: int)
    requires Lawful(ts) && Sound(ts, t) && LegalRun(ts, t, ops, logOfZero)
    ensures var r := Run(ts, t, ops, logOfZero);
            Sound(ts, r) && r.types == t.types && r.chunkSize == t.chunkSize &&
            Rows(r.chunks) == Rows(t.chunks) + AddedRows(ts, t, ops, logOfZero)
    decreases |ops|
  {
    if ops != [] {
      var t' := SoundStep(ts, t, ops[0], logOfZero);
      WholeRun(ts, t', ops[1..], logOfZero);
      Associate(Rows(t.chunks), Added(ts, t, ops[0]), AddedRows(ts, t', ops[1..], logOfZero));
    }
  }

  lemma Associate<A>(a: seq<A>, b: seq<A>, c: seq<A>)
    ensures a + b + c == a + (b + c)
  {
  }

  // The rows handed to append, cast.
  function Given<V>(ts: Types<V>, types: seq<string>, ops: seq<Operation<V>>): seq<Row<V>> {
    if ops == [] then []
    else
      var head := if ops[0].AppendRow? && |ops[0].row| == |types| then [CastRow(ts, types, ops[0].row)] else [];
      head + Given(ts, types, ops[1..])
  }

  // Compressed chunks are full.
  ghost predicate CodedAreFull<V>(t: Table<V>) {
    forall k :: 0 <= k < |t.chunks| && !IsPlain(t.chunks[k]) ==> ChunkLength(t.chunks[k]) >= t.chunkSize
  }

  // The operation does not compress a chunk that append still fills.
  predicate LeavesOpenChunk<V>(t: Table<V>, op: Operation<V>) {
    op.CompressId? && op.id < |t.chunks| ==> ChunkLength(t.chunks[op.id]) >= t.chunkSize
  }

  ghost predicate OpenChunkStays<V>(ts: Types<V>, t: Table<V>, ops: seq<Operation<V>>, logOfZero: int)
    decreases |ops|
  {
    ops == [] || (LeavesOpenChunk(t, ops[0]) && OpenChunkStays(ts, Step(ts, t, ops[0], logOfZero), ops[1..], logOfZero))
  }

  lemma AppendKeepsFull<V(!new)>(ts: Types<V>, t: Table<V>, row: seq<V>)
    requires Partitioned(ts, t) && |row| == |t.types| && CodedAreFull(t)
    ensures var r := Append(ts, t, row); r.Some? && CodedAreFull(r.value)
  {
    AppendRefines(ts, t, row);
    assert Append(ts, t, row).Some?;
    assert IsPlain(Last(Append(ts, t, row).value));
  }

  lemma CompressKeepsFull<V(!new)>(ts: Types<V>, t: Table<V>, id: nat, logOfZero: int)
    requires Lawful(ts) && Sound(ts, t) && CodedAreFull(t)
    requires id < |t.chunks| ==> IsPlain(t.chunks[id]) && ChunkLength(t.chunks[id]) >= t.chunkSize
    ensures var r := Compress(ts, t, id, logOfZero); r.Some? ==> CodedAreFull(r.value)
  {
    if id < |t.chunks| { CompressKeepsRows(ts, t.types, t.chunks[id], ChunkLength(t.chunks[id]), logOfZero); }
  }

  lemma CodedStayFull<V(!new)>(ts: Types<V>, t: Table<V>, op: Operation<V>, logOfZero: int)
    requires Lawful(ts) && Sound(ts, t) && Legal(t, op) && CodedAreFull(t) && LeavesOpenChunk(t, op)
    ensures CodedAreFull(Step(ts, t, op, logOfZero))
    ensures op.AppendRow? ==> Append(ts, t, op.row).Some?
  {
    match op
    case AppendRow(row) => AppendKeepsFull(ts, t, row);
    case CompressId(id) => CompressKeepsFull(ts, t, id, logOfZero);
  }

  // If only full chunks are compressed, append never refuses: the table reads as all rows given.
  lemma {:induction false} AllRowsKept<V(!new)>(ts: Types<V>, t: Table<V>, ops: seq<Operation<V>>, logOfZero: int)
    requires Lawful(ts) && Sound(ts, t) && CodedAreFull(t)
    requires LegalRun(ts, t, ops, logOfZero) && OpenChunkStays(ts, t, ops, logOfZero)
    ensures AddedRows(ts, t, ops, logOfZero) == Given(ts, t.types, ops)
    decreases |ops|
  {
    if ops != [] {
      StepIsSound(ts, t, ops[0], logOfZero);
      CodedStayFull(ts, t, ops[0], logOfZero);
      AllRowsKept(ts, Step(ts, t, ops[0], logOfZero), ops[1..], logOfZero);
    }
  }

  lemma NewTableIsSound<V>(ts: Types<V>, chunkSize: nat, types: seq<string>)
    requires 1 <= chunkSize < ID_RANGE && types != []
    ensures var t := NewTable(ts, chunkSize, types);
            Sound(ts, t) && CodedAreFull(t) && Rows(t.chunks) == []
  {
    var c := EmptyChunk(ts, types);
    assert ChunkRows(c) == [];
    assert [c][..0] == [];
  }

  // Where rows are.

  datatype RowID = RowID(chunkId: nat, chunkOffset: nat)

  // RowID::operator<
  predicate Before(a: RowID, b: RowID) {
    a.chunkId < b.chunkId || (a.chunkId == b.chunkId && a.chunkOffset < b.chunkOffset)
  }

  function Address(chunkSize: nat, r: nat): RowID
    requires chunkSize >= 1
  {
    RowID(r / chunkSize, r % chunkSize)
  }

  // The order of RowIDs is the order of rows.
  lemma AddressesKeepOrder(chunkSize: nat, r: nat, s: nat)
    requires chunkSize >= 1
    ensures r < s <==> Before(Address(chunkSize, r), Address(chunkSize, s))
    ensures r == s <==> Address(chunkSize, r) == Address(chunkSize, s)
  {
    var a, b := Address(chunkSize, r), Address(chunkSize, s);
    assert r == chunkSize * a.chunkId + a.chunkOffset && s == chunkSize * b.chunkId + b.chunkOffset;
    if a.chunkId < b.chunkId { MulStep(chunkSize, a.chunkId, b.chunkId); }
    if b.chunkId < a.chunkId { MulStep(chunkSize, b.chunkId, a.chunkId); }
  }

  lemma MulStep(c: nat, x: nat, y: nat)
    requires x < y
    ensures c * x + c <= c * y
  {
    var rest := y - x - 1;
    assert c * y == c * (x + 1) + c * rest by { assert y == (x + 1) + rest; }
    assert c * (x + 1) == c * x + c;
    assert c * rest >= 0;
  }

  lemma {:induction false} RowsOfFirst<V>(chunks: seq<ChunkData<V>>, k: nat)
    requires k <= |chunks|
    ensures Rows(chunks[..k]) <= Rows(chunks)
  {
    var n := |chunks| - 1;
    if k <= n {
      RowsOfFirst(chunks[..n], k);
      assert chunks[..n][..k] == chunks[..k];
    } else {
      assert chunks[..k] == chunks;
    }
  }

  // The chunks' rows, one chunk after the other.
  lemma RowsInside<V>(chunks: seq<ChunkData<V>>, k: nat)
    requires k < |chunks|
    ensures var before, rows := |Rows(chunks[..k])|, Rows(chunks);
            && before + ChunkLength(chunks[k]) == |Rows(chunks[..k + 1])| <= |rows|
            && forall o: nat :: o < ChunkLength(chunks[k]) ==> rows[before + o] == RowOf(chunks[k], o)
  {
    RowsOfFirst(chunks, k + 1);
    assert chunks[..k + 1][..k] == chunks[..k];
    var some := Rows(chunks[..k + 1]);
    assert some == Rows(chunks[..k]) + ChunkRows(chunks[k]);
    assert forall r :: 0 <= r < |some| ==> Rows(chunks)[r] == some[r];
  }

  lemma RowAt<V>(chunks: seq<ChunkData<V>>, cs: nat, k: nat, o: nat)
    requires k < |chunks| && o < ChunkLength(chunks[k])
    requires forall i :: 0 <= i < |chunks| - 1 ==> ChunkLength(chunks[i]) == cs
    ensures cs * k + o < |Rows(chunks)| && Rows(chunks)[cs * k + o] == RowOf(chunks[k], o)
  {
    RowsInside(chunks, k);
    TotalRows(chunks[..k + 1], cs);
    assert chunks[..k + 1][..k] == chunks[..k];
    assert |Rows(chunks[..k])| == cs * k;
  }

  lemma {:induction false} TotalRows<V>(chunks: seq<ChunkData<V>>, cs: nat)
    requires chunks != [] && forall i :: 0 <= i < |chunks| - 1 ==> ChunkLength(chunks[i]) == cs
    ensures var n := |chunks| - 1; |Rows(chunks[..n])| == cs * n && |Rows(chunks)| == cs * n + ChunkLength(chunks[n])
  {
    var n := |chunks| - 1;
    if n > 0 {
      TotalRows(chunks[..n], cs);
      MulSucc(cs, n);
    }
  }

  lemma Lengths<V>(ts: Types<V>, t: Table<V>)
    requires Partitioned(ts, t)
    ensures t.chunks != [] && t.chunkSize >= 1 && ChunkLength(Last(t)) <= t.chunkSize
    ensures forall i :: 0 <= i < |t.chunks| - 1 ==> ChunkLength(t.chunks[i]) == t.chunkSize
  {
  }

  lemma AddressInRange(cs: nat, n: nat, last: nat, r: nat)
    requires cs >= 1 && last <= cs && r < cs * n + last
    ensures r == cs * (r / cs) + r % cs && r % cs < cs && r / cs <= n && (r / cs == n ==> r % cs < last)
  {
    if r / cs > n { MulStep(cs, n, r / cs); }
  }

  lemma MulSucc(c: nat, n: nat)
    ensures c * (n - 1) + c == c * n
  {
  }

  // Row r sits in chunk r / chunk_size at offset r % chunk_size.
  lemma RowIsAtItsAddress<V>(ts: Types<V>, t: Table<V>, r: nat)
    requires Partitioned(ts, t) && r < |Rows(t.chunks)|
    ensures t.chunkSize >= 1
    ensures var a := Address(t.chunkSize, r);
            a.chunkId < |t.chunks| && a.chunkOffset < ChunkLength(t.chunks[a.chunkId]) &&
            Rows(t.chunks)[r] == RowOf(t.chunks[a.chunkId], a.chunkOffset)
  {
    Lengths(ts, t);
    TotalRows(t.chunks, t.chunkSize);
    AddressInRange(t.chunkSize, |t.chunks| - 1, ChunkLength(Last(t)), r);
    var a := Address(t.chunkSize, r);
    RowAt(t.chunks, t.chunkSize, a.chunkId, a.chunkOffset);
  }

  // In every compressed column, as every run leaves it, a comparison with any value can be made on
  // value ids.
  lemma ScansByIds<V(!new)>(ts: Types<V>, t: Table<V>, k: nat, j: nat, i: nat, v: V, op: ScanType)
    requires Lawful(ts) && Partitioned(ts, t) && k < |t.chunks| && j < |t.types| && i < ChunkLength(t.chunks[k])
    requires j < |t.chunks[k]| && t.chunks[k][j].Coded?
    ensures var e, lt := t.chunks[k][j].code, ts.less(t.types[j]);
            && i < |e.ids| && RowOf(t.chunks[k], i)[j].Some?
            && (Compare(op, RowOf(t.chunks[k], i)[j].value, v, lt) <==>
                CompareIds(op, e.ids[i], LowerBound(e, v, lt), UpperBound(e, v, lt)))
  {
    var c, e := t.chunks[k], t.chunks[k][j].code;
    assert GoodColumn(ts, t.types[j], c[j], ChunkLength(c)) && GoodColumn(ts, t.types[0], c[0], ChunkLength(c));
    BoundsEmbedOrder(e, v, ts.less(t.types[j]), i, op);
  }

  function U32(x: int): nat { x % ID_RANGE }

  // Table::chunk_count and Table::row_count, computed in 32 bits
  function ChunkCount(chunks: nat): nat { U32(chunks) }

  function RowCount(chunkSize: nat, chunks: nat, lastLength: nat): nat {
    U32(U32(chunkSize * U32(ChunkCount(chunks) - 1)) + U32(lastLength))
  }

  // row_count is the number of rows modulo 2^32, hence right exactly below that.
  lemma RowCountIsExactBelow32Bits<V>(ts: Types<V>, t: Table<V>)
    requires Partitioned(ts, t)
    ensures var count, rows := RowCount(t.chunkSize, |t.chunks|, ChunkLength(Last(t))), |Rows(t.chunks)|;
            count == U32(rows) && (count == rows <==> rows < ID_RANGE)
  {
    Lengths(ts, t);
    TotalRows(t.chunks, t.chunkSize);
    RowCountArithmetic(t.chunkSize, |t.chunks| - 1, ChunkLength(Last(t)), |Rows(t.chunks)|);
  }

  // A length that is cut to 32 bits first makes no difference.
  lemma RowCountOfLength(chunkSize: nat, chunks: nat, lastLength: nat)
    ensures RowCount(chunkSize, chunks, U32(lastLength)) == RowCount(chunkSize, chunks, lastLength)
  {
    CutTwice(lastLength);
  }

  lemma CutTwice(x: nat)
    ensures U32(U32(x)) == U32(x)
  {
  }

  lemma RowCountArithmetic(c: nat, n: nat, x: nat, rows: nat)
    requires rows == c * n + x
    ensures RowCount(c, n + 1, x) == U32(rows) && (U32(rows) == rows <==> rows < ID_RANGE)
  {
    PredMod(n);
    MulMod(c, n);
    AddMod(c * n, x);
  }

  lemma PredMod(n: nat)
    ensures U32(ChunkCount(n + 1) - 1) == U32(n)
  {
  }

  lemma AddMod(x: int, y: int)
    ensures U32(U32(x) + U32(y)) == U32(x + y)
  {
  }

  lemma MulMod(c: nat, n: nat)
    ensures U32(c * U32(n)) == U32(c * n)
  {
    var q := n / ID_RANGE;
    assert n == ID_RANGE * q + U32(n);
    assert c * n == ID_RANGE * (c * q) + c * U32(n);
    AddMultiple(c * U32(n), c * q);
  }

  lemma AddMultiple(x: int, q: int)
    ensures U32(x + ID_RANGE * q) == U32(x)
  {
  }
}
