// Table as an object, refining the tables of TableData.
module Tables {
  import opened Text
  import opened Dictionary
  import TD = TableData
  import opened Segments
  import TT = TableTheorems

  class Table<V(==, !new)> {
    const ts: TD.Types<V>
    const chunkSize: nat
    var chunks: seq<Chunk<V>>
    var colNames: seq<string>
    var colTypes: seq<string>
    ghost var data: TD.Table<V>           // the table as a value
    ghost var segs: set<ValueSegment<V>>  // every ValueSegment of every chunk

    ghost predicate Valid()
      reads this, chunks, segs
    {
      && data.chunkSize == chunkSize && data.types == colTypes && |colNames| == |colTypes|
      && Hold(chunks, data.chunks)
    }

    // The chunks hold what ds says, and no two of them share a ValueSegment.
    ghost predicate Hold(cs: seq<Chunk<V>>, ds: seq<TD.ChunkData<V>>)
      reads this, cs, segs
    {
      && |cs| == |ds| && cs != []
      && (forall i :: 0 <= i < |cs| ==> cs[i].own <= segs && cs[i].Valid() && cs[i].data == ds[i])
      && (forall i, j :: 0 <= i < j < |cs| ==> cs[i] != cs[j] && cs[i].own !! cs[j].own)
    }

    lemma HoldReplaced(cs: seq<Chunk<V>>, ds: seq<TD.ChunkData<V>>, k: nat, c: Chunk<V>)
      requires Hold(cs, ds) && k < |cs| && c !in cs && c.Valid() && c.own == {}
      ensures Hold(cs[k := c], ds[k := c.data])
    {
    }

    constructor (ts: TD.Types<V>, chunkSize: nat)
      ensures Valid() && this.ts == ts && this.chunkSize == chunkSize && colNames == colTypes == []
      ensures data == TT.NewTable(ts, chunkSize, []) && fresh(chunks) && segs == {}
    {
      this.ts := ts;
      this.chunkSize := chunkSize;
      var c := new Chunk();
      chunks := [c];
      colNames, colTypes := [], [];
      data, segs := TT.NewTable(ts, chunkSize, []), {};
    }

    // Columns are added while the only chunk is empty.
    method AddColumn(name: string, columnType: string)
      requires Valid() && |chunks| == 1 && data == TT.NewTable(ts, chunkSize, colTypes)
      modifies this, chunks
      ensures Valid() && chunks == old(chunks) && fresh(segs - old(segs))
      ensures colNames == old(colNames) + [name] && colTypes == old(colTypes) + [columnType]
      ensures data == TT.NewTable(ts, chunkSize, colTypes)
    {
      colNames := colNames + [name];
      colTypes := colTypes + [columnType];
      ghost var all := segs;
      var segment := new ValueSegment(ts.cast(columnType));
      assert segment !in all;
      chunks[0].AddSegment(Plain(segment));
      segs := all + {segment};
      data := TT.NewTable(ts, chunkSize, colTypes);
    }

    method NewChunk() returns (c: Chunk<V>)
      ensures fresh(c) && fresh(c.own) && c.Valid() && c.data == TD.EmptyChunk(ts, colTypes)
    {
      c := new Chunk();
      for index := 0 to |colTypes|
        invariant fresh(c) && fresh(c.own) && c.Valid()
        invariant c.data == TD.EmptyChunk(ts, colTypes)[..index]
      {
        ghost var before := c.own;
        var segment := new ValueSegment(ts.cast(colTypes[index]));
        assert segment !in before;
        c.AddSegment(Plain(segment));
      }
    }

    method BuildChunk()
      requires Valid()
      modifies this
      ensures Valid() && fresh(segs - old(segs))
      ensures data == TD.BuildChunk(ts, old(data))
      ensures |chunks| == |old(chunks)| + 1 && chunks[..|old(chunks)|] == old(chunks) && fresh(chunks[|old(chunks)|])
      ensures fresh(chunks[|old(chunks)|].own)
      ensures colNames == old(colNames) && colTypes == old(colTypes)
    {
      ghost var all := segs;
      var c := NewChunk();
      assert c.own !! all;
      chunks := chunks + [c];
      data := TD.BuildChunk(ts, data);
      segs := all + c.own;
    }

    // append; ok is false when it throws, and the table is then unchanged.
    method Append(values: seq<V>) returns (ok: bool)
      requires Valid() && TT.LastFits(data) && |values| == |colTypes|
      modifies this, chunks, segs
      ensures Valid() && fresh(segs - old(segs)) && fresh(Objects(chunks) - Objects(old(chunks)))
      ensures match TD.Append(ts, old(data), values)
              case None => !ok && data == old(data)
              case Some(t) => ok && data == t
      ensures colNames == old(colNames) && colTypes == old(colTypes)
    {
      TT.RoomFits(ts, data);
      BuildChunkIfFull();
      ok := AppendToLast(values);
    }

    ghost function Objects(cs: seq<Chunk<V>>): set<Chunk<V>> { set c | c in cs }

    method BuildChunkIfFull()
      requires Valid() && TT.LastFits(data)
      modifies this
      ensures Valid() && fresh(segs - old(segs)) && fresh(Objects(chunks) - Objects(old(chunks)))
      ensures data == TD.WithRoom(ts, old(data))
      ensures colNames == old(colNames) && colTypes == old(colTypes)
    {
      if chunks[|chunks| - 1].Length() >= chunkSize { BuildChunk(); }
    }

    method AppendToLast(values: seq<V>) returns (ok: bool)
      requires Valid() && |values| == |TD.Last(data)| && (TD.IsPlain(TD.Last(data)) || TD.IsCoded(TD.Last(data)))
      modifies this`data, chunks[|chunks| - 1], chunks[|chunks| - 1].own
      ensures Valid()
      ensures match TD.AppendToLastChunk(old(data), values)
              case None => !ok && data == old(data)
              case Some(t) => ok && data == t
    {
      ghost var k, t, c := 0, data, TD.Last(data);
      ok, k := AppendSegments(values);
      if !ok {
        assert k < |c| && c[0].Coded? && k == 0;
        assert TD.AppendUpTo(c, values, 0) == c && TD.ReplaceLast(t, c) == t;
      }
    }

    method AppendSegments(values: seq<V>) returns (ok: bool, ghost k: nat)
      requires Valid() && |values| == |TD.Last(data)|
      modifies this`data, chunks[|chunks| - 1], chunks[|chunks| - 1].own
      ensures Valid() && k <= |values| && (ok <==> k == |values|)
      ensures var c := TD.Last(old(data));
              && (forall j :: 0 <= j < k ==> c[j].Values?) && (k < |values| ==> c[k].Coded?)
              && data == TD.ReplaceLast(old(data), TD.AppendUpTo(c, values, k))
    {
      var last := chunks[|chunks| - 1];
      ok, k := last.Append(values);
      OthersStay(last);
      data := TD.ReplaceLast(data, last.data);
    }

    // A change to the last chunk leaves the others as they were.
    twostate lemma OthersStay(last: Chunk<V>)
      requires old(Valid()) && unchanged(this) && last == chunks[|chunks| - 1]
      requires last.Valid() && last.own == old(last.own)
      requires forall i :: 0 <= i < |chunks| - 1 ==> unchanged(chunks[i])
      requires forall v :: v in segs && v !in last.own ==> unchanged(v)
      ensures Hold(chunks, TD.ReplaceLast(data, last.data).chunks)
    {
      forall i | 0 <= i < |chunks| - 1 ensures chunks[i].Valid() {
        assert old(chunks[i].Valid());
        assert forall v <- chunks[i].own :: unchanged(v);
      }
    }

    // uint16_t
    function ColumnCount(): nat
      requires Valid()
      reads this, chunks, segs
    {
      chunks[|chunks| - 1].ColumnCount()
    }

    // chunk_count is a uint32_t, row_count is computed from it in 32 bits
    function RowCount(): nat
      requires Valid()
      reads this, chunks, segs
    {
      TT.RowCount(chunkSize, |chunks|, chunks[|chunks| - 1].Length())
    }

    // It is the number of rows modulo 2^32, hence right exactly below that.
    lemma RowCountIsNumberOfRows()
      requires Valid() && TD.Partitioned(ts, data)
      ensures RowCount() == TT.U32(|TD.Rows(data.chunks)|)
      ensures RowCount() == |TD.Rows(data.chunks)| <==> |TD.Rows(data.chunks)| < ID_RANGE
    {
      TT.RowCountIsExactBelow32Bits(ts, data);
      TT.RowCountOfLength(chunkSize, |chunks|, TD.ChunkLength(TD.Last(data)));
    }

    // What column i's task returns, None standing for an exception.
    ghost predicate IsTask(c: TD.ChunkData<V>, i: nat, logOfZero: int, r: Option<Encoded<V>>)
      requires i < |c| && c[i].Values? && i < |colTypes|
      reads this
    {
      r == Encode(c[i].vs, ts.less(colTypes[i]), logOfZero)
    }

    // The loop over the columns, each task run when it is spawned.
    method RunTasks(oldChunk: Chunk<V>, logOfZero: int) returns (futures: seq<Option<Encoded<V>>>)
      requires oldChunk.Valid() && TD.IsPlain(oldChunk.data) && |oldChunk.data| == |colTypes| < 0x1_0000
      ensures |futures| == |colTypes|
      ensures forall i :: 0 <= i < |futures| ==> IsTask(oldChunk.data, i, logOfZero, futures[i])
    {
      futures := [];
      for i := 0 to oldChunk.ColumnCount()
        invariant |futures| == i <= |colTypes|
        invariant forall j :: 0 <= j < i ==> IsTask(oldChunk.data, j, logOfZero, futures[j])
      {
        var oldSegment := oldChunk.GetSegment(i).value;
        assert oldChunk.data[i].Values?;
        var r := MakeDictionarySegment(oldSegment.segment, ts.less(colTypes[i]), logOfZero);
        futures := futures + [r];
      }
    }

    // The loop over the futures; the first exception ends it.
    method Collect(futures: seq<Option<Encoded<V>>>) returns (ok: bool, dictChunk: Chunk<V>)
      ensures fresh(dictChunk) && dictChunk.Valid() && dictChunk.own == {}
      ensures ok <==> forall i :: 0 <= i < |futures| ==> futures[i].Some?
      ensures ok ==> |dictChunk.data| == |futures| &&
                     forall i :: 0 <= i < |futures| ==> dictChunk.data[i] == TD.Coded(futures[i].value)
    {
      dictChunk := new Chunk();
      for i := 0 to |futures|
        invariant fresh(dictChunk) && dictChunk.Valid() && dictChunk.own == {} && |dictChunk.data| == i
        invariant forall j :: 0 <= j < i ==> futures[j].Some? && dictChunk.data[j] == TD.Coded(futures[j].value)
      {
        if futures[i].None? { return false, dictChunk; }
        dictChunk.AddSegment(Dict(futures[i].value));
      }
      return true, dictChunk;
    }

    // compress_chunk; ok is false when it throws, and the table is then unchanged. A second
    // compression of a chunk is undefined behaviour in the program and excluded.
    method CompressChunk(chunkId: nat, logOfZero: int) returns (ok: bool)
      requires Valid() && |colTypes| < 0x1_0000
      requires chunkId < |chunks| ==>
                 TD.IsPlain(data.chunks[chunkId]) && |data.chunks[chunkId]| == |colTypes|
      modifies this
      ensures Valid() && segs == old(segs) && colNames == old(colNames) && colTypes == old(colTypes)
      ensures fresh(Objects(chunks) - Objects(old(chunks)))
      ensures match TD.Compress(ts, old(data), chunkId, logOfZero)
              case None => !ok && data == old(data) && chunks == old(chunks)
              case Some(t) => ok && data == t
    {
      if chunkId >= |chunks| { return false; }
      var dictChunk;
      ok, dictChunk := CompressedCopy(chunks[chunkId], logOfZero);
      if ok { ReplaceChunk(chunkId, dictChunk); }
    }

    // The new chunk, built aside; ok is false when a task throws.
    method CompressedCopy(oldChunk: Chunk<V>, logOfZero: int) returns (ok: bool, dictChunk: Chunk<V>)
      requires oldChunk.Valid() && TD.IsPlain(oldChunk.data) && |oldChunk.data| == |colTypes| < 0x1_0000
      ensures fresh(dictChunk) && dictChunk.Valid() && dictChunk.own == {}
      ensures match TD.CompressChunk(ts, oldChunk.data, colTypes, logOfZero)
              case None => !ok
              case Some(c) => ok && dictChunk.data == c
    {
      var futures := RunTasks(oldChunk, logOfZero);
      ok, dictChunk := Collect(futures);
      TasksAgree(oldChunk.data, futures, logOfZero);
      assert ok ==> TD.CompressChunk(ts, oldChunk.data, colTypes, logOfZero).value == dictChunk.data;
    }

    // The swap that publishes the new chunk.
    method ReplaceChunk(chunkId: nat, dictChunk: Chunk<V>)
      requires Valid() && chunkId < |chunks| && dictChunk !in chunks && dictChunk.Valid() && dictChunk.own == {}
      modifies this
      ensures Valid() && chunks == old(chunks)[chunkId := dictChunk]
      ensures data == old(data).(chunks := old(data).chunks[chunkId := dictChunk.data])
      ensures segs == old(segs) && colNames == old(colNames) && colTypes == old(colTypes)
    {
      HoldReplaced(chunks, data.chunks, chunkId, dictChunk);
      chunks := chunks[chunkId := dictChunk];
      data := data.(chunks := data.chunks[chunkId := dictChunk.data]);
    }

    lemma TasksAgree(c: TD.ChunkData<V>, futures: seq<Option<Encoded<V>>>, logOfZero: int)
      requires TD.IsPlain(c) && |c| == |colTypes| == |futures|
      requires forall i :: 0 <= i < |futures| ==> IsTask(c, i, logOfZero, futures[i])
      ensures var r := TD.CompressChunk(ts, c, colTypes, logOfZero);
              && (r.None? <==> exists i :: 0 <= i < |futures| && futures[i].None?)
              && (r.Some? ==> |r.value| == |futures|)
              && (r.Some? ==> forall i :: 0 <= i < |futures| ==>
                    futures[i].Some? && r.value[i] == TD.Coded(futures[i].value))
    {
      forall i | 0 <= i < |c|
        ensures match futures[i]
                case None => TD.Compressed(ts, c[i], colTypes[i], logOfZero) == None
                case Some(e) => TD.Compressed(ts, c[i], colTypes[i], logOfZero) == Some(TD.Coded(e))
      {
        assert IsTask(c, i, logOfZero, futures[i]);
      }
    }
  }
}
