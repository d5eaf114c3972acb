// ValueSegment, FixedSizeAttributeVector, the DictionarySegment constructor and Chunk as objects.
module Segments {
  import opened Text
  import opened Dictionary
  import opened TableData

  class ValueSegment<V> {
    const cast: V -> V
    var values: seq<V>

    constructor (cast: V -> V)
      ensures this.cast == cast && values == []
    {
      this.cast := cast;
      values := [];
    }

    method Append(val: V)
      modifies this
      ensures values == old(values) + [cast(val)]
    {
      values := values + [cast(val)];
    }
  }

  class FixedSizeAttributeVector {
    const width: nat
    var vector: seq<nat>

    constructor (width: nat)
      ensures this.width == width && vector == []
    {
      this.width := width;
      vector := [];
    }

    // Inserts: ids from position i on move up.
    method Set(i: nat, valueId: nat)
      requires i <= |vector|
      modifies this
      ensures vector == old(vector)[..i] + [valueId % Range(width)] + old(vector)[i..]
    {
      vector := vector[..i] + [valueId % Range(width)] + vector[i..];
    }

    // None when at() throws.
    function Get(i: nat): Option<nat>
      reads this
    {
      if i < |vector| then Some(vector[i]) else None
    }
  }

  // The loop that fills the std::set.
  method BuildDictionary<V(==)>(values: seq<V>, lt: (V, V) -> bool) returns (setDict: seq<V>)
    ensures setDict == Distinct(values, lt)
  {
    setDict := [];
    for k := 0 to |values|
      invariant setDict == Distinct(values[..k], lt)
    {
      setDict := Emplace(setDict, values[k], lt);
      assert values[..k + 1][..k] == values[..k];
    }
    assert values[..|values|] == values;
  }

  // The loop that looks up the value ids.
  method SetIds<V(==)>(values: seq<V>, dictionary: seq<V>, attributeVector: FixedSizeAttributeVector)
    requires attributeVector.vector == []
    modifies attributeVector
    ensures attributeVector.vector == Ids(values, dictionary, attributeVector.width)
  {
    ghost var ids := Ids(values, dictionary, attributeVector.width);
    for i := 0 to |values|
      invariant attributeVector.vector == ids[..i]
    {
      var index := IndexOf(dictionary, values[i]) % ID_RANGE;
      attributeVector.Set(i, index);
      assert ids[..i + 1] == ids[..i] + [ids[i]];
    }
    assert ids[..|values|] == ids;
  }

  // DictionarySegment::DictionarySegment. The segment is immutable from then on and returned as a
  // value; None stands for the exception.
  method MakeDictionarySegment<V(==, !new)>(baseSegment: ValueSegment<V>, lt: (V, V) -> bool, logOfZero: int)
    returns (r: Option<Encoded<V>>)
    ensures r == Encode(baseSegment.values, lt, logOfZero)
    ensures TotalOrder(lt) && baseSegment.values != [] ==> SmallestEncoding(baseSegment.values, lt, r)
  {
    if TotalOrder(lt) && baseSegment.values != [] { EncodingIsSmallest(baseSegment.values, lt, logOfZero); }
    var dictionary := BuildDictionary(baseSegment.values, lt);
    var entropy := (if |dictionary| == 0 then logOfZero else FloorLog2(|dictionary|)) + 1;
    var attributeVector;
    if entropy <= 8 {
      attributeVector := new FixedSizeAttributeVector(1);
    } else if entropy <= 16 {
      attributeVector := new FixedSizeAttributeVector(2);
    } else if entropy <= 32 {
      attributeVector := new FixedSizeAttributeVector(4);
    } else {
      return None;
    }
    SetIds(baseSegment.values, dictionary, attributeVector);
    return Some(Encoded(dictionary, attributeVector.vector, attributeVector.width));
  }

  // std::shared_ptr<BaseSegment>
  datatype Segment<!V> = Plain(segment: ValueSegment<V>) | Dict(code: Encoded<V>)

  function SegmentSize<V>(s: Segment<V>): nat
    reads if s.Plain? then {s.segment} else {}
  {
    match s case Plain(v) => |v.values| case Dict(e) => |e.ids|
  }

  // operator[]; None when at() throws.
  function SegmentAt<V>(s: Segment<V>, i: nat): Option<V>
    reads if s.Plain? then {s.segment} else {}
  {
    match s
    case Plain(v) => if i < |v.values| then Some(v.values[i]) else None
    case Dict(e) => Get(e, i)
  }

  class Chunk<V> {
    var columnSegments: seq<Segment<V>>
    ghost var data: ChunkData<V>
    ghost var own: set<ValueSegment<V>>

    // No two columns share a ValueSegment.
    ghost predicate Valid()
      reads this, own
    {
      && |columnSegments| == |data|
      && (forall j :: 0 <= j < |columnSegments| && columnSegments[j].Dict? ==>
            data[j] == Coded(columnSegments[j].code))
      && (forall j :: 0 <= j < |columnSegments| && columnSegments[j].Plain? ==>
            columnSegments[j].segment in own &&
            data[j] == Values(columnSegments[j].segment.values, columnSegments[j].segment.cast))
      && (forall i, j :: 0 <= i < j < |columnSegments| && columnSegments[i].Plain? && columnSegments[j].Plain? ==>
            columnSegments[i].segment != columnSegments[j].segment)
    }

    constructor ()
      ensures Valid() && data == [] && own == {}
    {
      columnSegments, data, own := [], [], {};
    }

    method AddSegment(s: Segment<V>)
      requires Valid() && (s.Plain? ==> s.segment !in own)
      modifies this
      ensures Valid()
      ensures match s
              case Plain(v) => data == old(data) + [Values(v.values, v.cast)] && own == old(own) + {v}
              case Dict(e) => data == old(data) + [Coded(e)] && own == old(own)
    {
      columnSegments := columnSegments + [s];
      match s
      case Plain(v) =>
        data := data + [Values(v.values, v.cast)];
        own := own + {v};
      case Dict(e) =>
        data := data + [Coded(e)];
    }

    // Appending to a DictionarySegment, the first one at column k, throws; the columns before it
    // have then been appended to.
    method Append(values: seq<V>) returns (ok: bool, ghost k: nat)
      requires Valid() && |values| == |columnSegments|
      modifies own, `data
      ensures Valid() && k <= |values| == |old(data)| && (ok <==> k == |values|)
      ensures forall j :: 0 <= j < k ==> old(data)[j].Values?
      ensures k < |values| ==> old(data)[k].Coded?
      ensures data == AppendUpTo(old(data), values, k)
    {
      for index := 0 to |values|
        modifies own, `data
        invariant Valid() && |data| == |values| && forall j :: 0 <= j < index ==> old(data)[j].Values?
        invariant data == AppendUpTo(old(data), values, index)
      {
        match columnSegments[index] {
          case Plain(v) => AppendTo(v, index, values[index]);
          case Dict(_) => return false, index;
        }
      }
      return true, |values|;
    }

    method AppendTo(v: ValueSegment<V>, j: nat, val: V)
      requires Valid() && j < |columnSegments| && columnSegments[j] == Plain(v)
      modifies v, `data
      ensures Valid() && data == old(data)[j := Values(old(v.values) + [v.cast(val)], v.cast)]
    {
      v.Append(val);
      data := data[j := Values(v.values, v.cast)];
    }

    function GetSegment(columnId: nat): Option<Segment<V>>
      reads this
    {
      if columnId < |columnSegments| then Some(columnSegments[columnId]) else None
    }

    // uint16_t
    function ColumnCount(): nat
      reads this
    {
      |columnSegments| % 0x1_0000
    }

    // uint32_t
    function Length(): (n: nat)
      requires Valid()
      reads this, own
      ensures n == ChunkLength(data) % ID_RANGE
    {
      if columnSegments == [] then 0 else SegmentSize(columnSegments[0]) % ID_RANGE
    }
  }
}
