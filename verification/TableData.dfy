// A table as values: what append and compress_chunk do to the rows, the chunks and the addresses.
module TableData {
  import opened Text
  import opened Dictionary

  // Per column type: type_cast to it and its operator<.
  datatype Types<!V> = Types(cast: string -> V -> V, less: string -> (V, V) -> bool)

  ghost predicate Lawful<V(!new)>(ts: Types<V>) {
    forall name :: TotalOrder(ts.less(name))
  }

  // A ValueSegment with its cast, or a DictionarySegment.
  datatype SegmentData<!V> = Values(vs: seq<V>, cast: V -> V) | Coded(code: Encoded<V>)

  function Size<V>(s: SegmentData<V>): nat {
    match s case Values(vs, _) => |vs| case Coded(e) => |e.ids|
  }

  // operator[]; None when at() throws.
  function Cell<V>(s: SegmentData<V>, i: nat): Option<V> {
    match s
    case Values(vs, _) => if i < |vs| then Some(vs[i]) else None
    case Coded(e) => Get(e, i)
  }

  type ChunkData<!V> = seq<SegmentData<V>>
  type Row<V> = seq<Option<V>>

  // Chunk::size
  function ChunkLength<V>(c: ChunkData<V>): nat { if c == [] then 0 else Size(c[0]) }

  function RowOf<V>(c: ChunkData<V>, i: nat): Row<V> {
    seq(|c|, j requires 0 <= j < |c| => Cell(c[j], i))
  }

  function ChunkRows<V>(c: ChunkData<V>): (r: seq<Row<V>>)
    ensures |r| == ChunkLength(c)
  {
    seq(ChunkLength(c), i requires 0 <= i => RowOf(c, i))
  }

  // The table read chunk by chunk.
  function Rows<V>(chunks: seq<ChunkData<V>>): seq<Row<V>> {
    if chunks == [] then [] else Rows(chunks[..|chunks| - 1]) + ChunkRows(chunks[|chunks| - 1])
  }

  datatype Table<!V> = Table(chunkSize: nat, types: seq<string>, chunks: seq<ChunkData<V>>)

  function Last<V>(t: Table<V>): ChunkData<V>
    requires t.chunks != []
  {
    t.chunks[|t.chunks| - 1]
  }

  predicate IsPlain<V>(c: ChunkData<V>) { forall j :: 0 <= j < |c| ==> c[j].Values? }

  predicate IsCoded<V>(c: ChunkData<V>) { forall j :: 0 <= j < |c| ==> c[j].Coded? }

  function EmptyChunk<V>(ts: Types<V>, types: seq<string>): ChunkData<V> {
    seq(|types|, j requires 0 <= j < |types| => Values([], ts.cast(types[j])))
  }

  // Chunk::append as far as column k
  function AppendUpTo<V>(c: ChunkData<V>, row: seq<V>, k: nat): (r: ChunkData<V>)
    requires |row| == |c|
  {
    seq(|c|, j requires 0 <= j < |c| =>
      if j < k && c[j].Values? then Values(c[j].vs + [c[j].cast(row[j])], c[j].cast) else c[j])
  }

  // Table::build_chunk
  function BuildChunk<V>(ts: Types<V>, t: Table<V>): Table<V> {
    t.(chunks := t.chunks + [EmptyChunk(ts, t.types)])
  }

  function ReplaceLast<V>(t: Table<V>, c: ChunkData<V>): Table<V>
    requires t.chunks != []
  {
    t.(chunks := t.chunks[|t.chunks| - 1 := c])
  }

  function AppendToLastChunk<V>(t: Table<V>, row: seq<V>): Option<Table<V>>
    requires t.chunks != []
  {
    if |row| == |Last(t)| && IsPlain(Last(t)) then
      Some(ReplaceLast(t, AppendUpTo(Last(t), row, |row|)))
    else None
  }

  // The table with a last chunk that is not full.
  function WithRoom<V>(ts: Types<V>, t: Table<V>): (r: Table<V>)
    requires t.chunks != []
    ensures r.chunks != []
  {
    if ChunkLength(Last(t)) >= t.chunkSize then BuildChunk(ts, t) else t
  }

  // Table::append; None when it throws because the chunk to append to is compressed.
  function Append<V>(ts: Types<V>, t: Table<V>, row: seq<V>): Option<Table<V>>
    requires t.chunks != []
  {
    AppendToLastChunk(WithRoom(ts, t), row)
  }

  // compress_segment
  function Compressed<V(==)>(ts: Types<V>, s: SegmentData<V>, column: string, logOfZero: int): Option<SegmentData<V>>
    requires s.Values?
  {
    match Encode(s.vs, ts.less(column), logOfZero) case None => None case Some(e) => Some(Coded(e))
  }

  // The chunk that the tasks build; None when one of them throws.
  function CompressChunk<V(==)>(ts: Types<V>, c: ChunkData<V>, columns: seq<string>, logOfZero: int)
    : Option<ChunkData<V>>
    requires IsPlain(c) && |c| == |columns|
  {
    if forall j :: 0 <= j < |c| ==> Compressed(ts, c[j], columns[j], logOfZero).Some? then
      Some(seq(|c|, j requires 0 <= j < |c| && Compressed(ts, c[j], columns[j], logOfZero).Some? =>
        Compressed(ts, c[j], columns[j], logOfZero).value))
    else None
  }

  // Table::compress_chunk; None when it throws, for an unknown chunk or from a task.
  function Compress<V(==)>(ts: Types<V>, t: Table<V>, id: nat, logOfZero: int): Option<Table<V>>
    requires id < |t.chunks| ==> IsPlain(t.chunks[id]) && |t.chunks[id]| == |t.types|
  {
    if id >= |t.chunks| then None
    else match CompressChunk(ts, t.chunks[id], t.types, logOfZero)
      case None => None
      case Some(c) => Some(t.(chunks := t.chunks[id := c]))
  }

  // A segment of n rows of the column's type: it casts to it, or it is sorted by it and as small as
  // its values allow.
  ghost predicate GoodColumn<V>(ts: Types<V>, column: string, s: SegmentData<V>, n: nat) {
    && Size(s) == n
    && match s
       case Values(_, cast) => cast == ts.cast(column)
       case Coded(e) => WellFormed(e, ts.less(column)) && (n > 0 ==> Compact(e))
  }

  // One segment per column, all of the same length n, all plain or all compressed.
  ghost predicate GoodChunk<V>(ts: Types<V>, types: seq<string>, c: ChunkData<V>, n: nat) {
    && |c| == |types| && (IsPlain(c) || IsCoded(c))
    && (forall j :: 0 <= j < |c| ==> GoodColumn(ts, types[j], c[j], n))
  }

  // All chunks but the last are full, and only the last of a table without rows is empty.
  ghost predicate Partitioned<V>(ts: Types<V>, t: Table<V>) {
    var n := |t.chunks|;
    && t.chunkSize >= 1 && |t.types| >= 1 && n >= 1
    && (forall k :: 0 <= k < n - 1 ==> GoodChunk(ts, t.types, t.chunks[k], t.chunkSize))
    && GoodChunk(ts, t.types, Last(t), ChunkLength(Last(t))) && ChunkLength(Last(t)) <= t.chunkSize
    && (n > 1 ==> ChunkLength(Last(t)) >= 1)
  }

  function CastRow<V>(ts: Types<V>, types: seq<string>, row: seq<V>): Row<V>
    requires |row| == |types|
  {
    seq(|row|, j requires 0 <= j < |row| => Some(ts.cast(types[j])(row[j])))
  }

  lemma AppendToChunk<V>(ts: Types<V>, types: seq<string>, c: ChunkData<V>, row: seq<V>)
    requires types != [] && GoodChunk(ts, types, c, ChunkLength(c)) && IsPlain(c) && |row| == |types|
    ensures var c' := AppendUpTo(c, row, |row|);
            && IsPlain(c') && GoodChunk(ts, types, c', ChunkLength(c) + 1) && ChunkLength(c') == ChunkLength(c) + 1
            && ChunkRows(c') == ChunkRows(c) + [CastRow(ts, types, row)]
  {
    var c', n := AppendUpTo(c, row, |row|), ChunkLength(c);
    assert forall j :: 0 <= j < |c| ==> Cell(c'[j], n) == Some(ts.cast(types[j])(row[j]));
    assert RowOf(c', n) == CastRow(ts, types, row);
    forall i: nat | i < n ensures RowOf(c', i) == RowOf(c, i) {
      assert forall j :: 0 <= j < |c| ==> Cell(c'[j], i) == Cell(c[j], i);
    }
  }

  lemma RowsOfLast<V>(chunks: seq<ChunkData<V>>, c: ChunkData<V>)
    ensures Rows(chunks + [c]) == Rows(chunks) + ChunkRows(c)
  {
    assert (chunks + [c])[..|chunks|] == chunks;
  }

  lemma RowsReplaced<V>(chunks: seq<ChunkData<V>>, c: ChunkData<V>, row: Row<V>)
    requires chunks != [] && ChunkRows(c) == ChunkRows(chunks[|chunks| - 1]) + [row]
    ensures Rows(chunks[|chunks| - 1 := c]) == Rows(chunks) + [row]
  {
    var n := |chunks| - 1;
    assert chunks[n := c][..n] == chunks[..n];
    var before, last := Rows(chunks[..n]), ChunkRows(chunks[n]);
    assert before + (last + [row]) == before + last + [row];
  }

  lemma PartitionReplaced<V>(ts: Types<V>, t: Table<V>, c: ChunkData<V>)
    requires Partitioned(ts, t) && GoodChunk(ts, t.types, c, ChunkLength(c)) && 1 <= ChunkLength(c) <= t.chunkSize
    ensures Partitioned(ts, ReplaceLast(t, c))
  {
    var t' := ReplaceLast(t, c);
    assert forall k :: 0 <= k < |t.chunks| - 1 ==> t'.chunks[k] == t.chunks[k];
  }

  lemma AppendToLast<V>(ts: Types<V>, t: Table<V>, row: seq<V>)
    requires Partitioned(ts, t) && |row| == |t.types| && IsPlain(Last(t)) && ChunkLength(Last(t)) < t.chunkSize
    ensures var t' := ReplaceLast(t, AppendUpTo(Last(t), row, |row|));
            Partitioned(ts, t') && Rows(t'.chunks) == Rows(t.chunks) + [CastRow(ts, t.types, row)]
  {
    AppendToChunk(ts, t.types, Last(t), row);
    var c := AppendUpTo(Last(t), row, |row|);
    PartitionReplaced(ts, t, c);
    RowsReplaced(t.chunks, c, CastRow(ts, t.types, row));
  }

  lemma AppendToNewChunk<V>(ts: Types<V>, t: Table<V>, row: seq<V>)
    requires Partitioned(ts, t) && |row| == |t.types| && ChunkLength(Last(t)) >= t.chunkSize
    ensures var t' := t.(chunks := t.chunks + [AppendUpTo(EmptyChunk(ts, t.types), row, |row|)]);
            Partitioned(ts, t') && Rows(t'.chunks) == Rows(t.chunks) + [CastRow(ts, t.types, row)]
  {
    var empty := EmptyChunk(ts, t.types);
    AppendToChunk(ts, t.types, empty, row);
    assert ChunkRows(empty) == [];
    RowsOfLast(t.chunks, AppendUpTo(empty, row, |row|));
  }

  // append adds exactly the cast row, keeps the partition, and refuses only a compressed chunk
  // that is not full.
  lemma AppendRefines<V>(ts: Types<V>, t: Table<V>, row: seq<V>)
    requires Partitioned(ts, t) && |row| == |t.types|
    ensures match Append(ts, t, row)
            case None => IsCoded(Last(t)) && ChunkLength(Last(t)) < t.chunkSize
            case Some(t') => Partitioned(ts, t') && t'.types == t.types && t'.chunkSize == t.chunkSize &&
                             Rows(t'.chunks) == Rows(t.chunks) + [CastRow(ts, t.types, row)]
  {
    var n, empty := |t.chunks|, EmptyChunk(ts, t.types);
    if ChunkLength(Last(t)) >= t.chunkSize {
      AppendToNewChunk(ts, t, row);
      assert (t.chunks + [empty])[n := AppendUpTo(empty, row, |row|)] == t.chunks + [AppendUpTo(empty, row, |row|)];
    } else if IsPlain(Last(t)) {
      AppendToLast(ts, t, row);
    }
  }

  lemma CompressedSegment<V(!new)>(ts: Types<V>, s: SegmentData<V>, column: string, logOfZero: int)
    requires Lawful(ts) && s.Values?
    ensures match Compressed(ts, s, column, logOfZero)
            case None => |s.vs| == 0 || |s.vs| >= ID_RANGE
            case Some(r) => r.Coded? && GoodColumn(ts, column, r, Size(s)) && forall i: nat :: Cell(r, i) == Cell(s, i)
  {
    RoundTrip(s.vs, ts.less(column), logOfZero);
    DistinctIsSortedSet(s.vs, ts.less(column));
    if s.vs != [] { EncodingIsSmallest(s.vs, ts.less(column), logOfZero); }
  }

  // Compression keeps every cell of the chunk; it can fail only for a chunk without rows. Each column
  // is sorted by its own type.
  lemma CompressKeepsRows<V(!new)>(ts: Types<V>, types: seq<string>, c: ChunkData<V>, n: nat, logOfZero: int)
    requires Lawful(ts) && types != [] && GoodChunk(ts, types, c, n) && IsPlain(c) && n < ID_RANGE
    ensures match CompressChunk(ts, c, types, logOfZero)
            case None => n == 0
            case Some(c') =>
              IsCoded(c') && GoodChunk(ts, types, c', n) && ChunkLength(c') == n && ChunkRows(c') == ChunkRows(c)
  {
    forall j | 0 <= j < |c| ensures
      match Compressed(ts, c[j], types[j], logOfZero)
      case None => n == 0
      case Some(r) => r.Coded? && GoodColumn(ts, types[j], r, n) && forall i: nat :: Cell(r, i) == Cell(c[j], i)
    {
      CompressedSegment(ts, c[j], types[j], logOfZero);
    }
    var r := CompressChunk(ts, c, types, logOfZero);
    if r.Some? {
      assert GoodColumn(ts, types[0], r.value[0], n);
      forall i: nat | i < n ensures RowOf(r.value, i) == RowOf(c, i) {
        assert forall j :: 0 <= j < |c| ==> Cell(r.value[j], i) == Cell(c[j], i);
      }
    }
  }

  lemma {:induction false} SameChunkRows<V>(a: seq<ChunkData<V>>, b: seq<ChunkData<V>>)
    requires |a| == |b| && forall k :: 0 <= k < |a| ==> ChunkRows(a[k]) == ChunkRows(b[k])
    ensures Rows(a) == Rows(b)
  {
    if a != [] { SameChunkRows(a[..|a| - 1], b[..|b| - 1]); }
  }

  // compress_chunk changes no row and no address.
  lemma CompressRefines<V(!new)>(ts: Types<V>, t: Table<V>, id: nat, logOfZero: int)
    requires Lawful(ts) && Partitioned(ts, t) && t.chunkSize < ID_RANGE
    requires id < |t.chunks| ==> IsPlain(t.chunks[id])
    ensures match Compress(ts, t, id, logOfZero)
            case None => id >= |t.chunks| || ChunkLength(t.chunks[id]) == 0
            case Some(t') => Partitioned(ts, t') && t'.types == t.types && t'.chunkSize == t.chunkSize &&
                             id < |t.chunks| == |t'.chunks| && IsCoded(t'.chunks[id]) &&
                             Rows(t'.chunks) == Rows(t.chunks)
  {
    if id < |t.chunks| {
      var c := t.chunks[id];
      CompressKeepsRows(ts, t.types, c, ChunkLength(c), logOfZero);
      var r := Compress(ts, t, id, logOfZero);
      if r.Some? { SameChunkRows(t.chunks, r.value.chunks); }
    }
  }
}
