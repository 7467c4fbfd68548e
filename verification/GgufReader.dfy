/** The stateful reader of src/gguf.rs: its methods move one stream position
    and agree with the functions the theorems are about. */
module GgufReader {
  import opened Words
  import opened Wrappers
  import opened Gguf
  import opened GgufCounts
  import opened GgufAccept

  datatype Result<+T> = Success(value: T) | Failure(error: Error) {
    predicate IsFailure() {
      Failure?
    }

    function PropagateFailure<U>(): Result<U>
      requires Failure?
    {
      Failure(error)
    }

    function Extract(): T
      requires Success?
    {
      value
    }
  }

  predicate Matches<T(==)>(r: Result<T>, pos: nat, spec: Read<T>) {
    match spec
    case Ok(v, p) => r == Success(v) && pos == p
    case Err(e) => r == Failure(e)
  }

  class Reader {
    const data: Octets
    const maxArrayElements: nat
    var pos: nat

    constructor (data: Octets, maxArrayElements: nat)
      ensures this.data == data && this.maxArrayElements == maxArrayElements && pos == 0
    {
      this.data := data;
      this.maxArrayElements := maxArrayElements;
      pos := 0;
    }

    method Bytes(n: nat) returns (r: Result<Octets>)
      modifies this
      ensures Matches(r, pos, ReadExact(data, old(pos), n))
    {
      if n == 0 {
        return Success([]);
      }
      if pos + n > |data| {
        return Failure(UnexpectedEof);
      }
      r := Success(data[pos..pos + n]);
      pos := pos + n;
    }

    method Unsigned(width: nat) returns (r: Result<nat>)
      modifies this
      ensures Matches(r, pos, ReadUnsigned(data, old(pos), width))
    {
      var s :- Bytes(width);
      return Success(LittleEndian(s));
    }

    method StringLength() returns (r: Result<nat>)
      modifies this
      ensures Matches(r, pos, StringLen(data, old(pos)))
    {
      hide ReadUnsigned;
      var len :- Unsigned(8);
      if len > MAX_STRING_BYTES {
        return Failure(ImplausibleString(len));
      }
      return Success(len);
    }

    method String() returns (r: Result<Octets>)
      modifies this
      ensures Matches(r, pos, ReadString(data, old(pos)))
    {
      hide StringLen, ReadExact;
      var len :- StringLength();
      r := Bytes(len);
    }

    method Head() returns (r: Result<ArrayHead>)
      modifies this
      ensures Matches(r, pos, ArrayHeader(data, old(pos)))
    {
      hide ReadUnsigned;
      var ty :- Unsigned(4);
      var len :- Unsigned(8);
      if len > MAX_ARRAY_LEN {
        return Failure(ImplausibleArray(len));
      }
      return Success(ArrayHead(ty, len));
    }

    method ValueOfType(ty: nat, depth: nat) returns (r: Result<Value>)
      modifies this
      ensures Matches(r, pos, ValueAt(data, old(pos), ty, depth, maxArrayElements))
      decreases Room(depth), 0
    {
      hide ReadUnsigned, ReadString, ArrayHeader, Scalar;
      if depth > MAX_DEPTH {
        return Failure(NestingTooDeep);
      }
      if FixedSize(ty).Some? {
        var n :- Unsigned(FixedSize(ty).value);
        return Success(Scalar(ty, n));
      }
      if ty == 8 {
        var s :- String();
        return Success(Str(s));
      }
      if ty != 9 {
        return Failure(UnknownType(ty));
      }
      var head :- Head();
      if head.len > maxArrayElements {
        var _ :- SkipAll(head.ty, head.len, depth + 1);
        return Success(LargeArray(head.len));
      }
      ghost var start := pos;
      var items: seq<Value> := [];
      AheadNone(Elements(data, pos, head.ty, head.len, depth + 1, maxArrayElements));
      for i := 0 to head.len
        invariant Ahead(items, Elements(data, pos, head.ty, head.len - i, depth + 1, maxArrayElements))
          == Elements(data, start, head.ty, head.len, depth + 1, maxArrayElements)
      {
        ghost var before, from := items, pos;
        var item :- ValueOfType(head.ty, depth + 1);
        items := items + [item];
        AheadOne(before, item, Elements(data, pos, head.ty, head.len - i - 1, depth + 1, maxArrayElements));
      }
      assert items + [] == items;
      return Success(Array(items));
    }

    method SkipOne(ty: nat, depth: nat) returns (r: Result<()>)
      modifies this
      ensures Matches(r, pos, SkipValueAt(data, old(pos), ty, depth))
      decreases Room(depth), 0
    {
      hide StringLen, ArrayHeader;
      if depth > MAX_DEPTH {
        return Failure(NestingTooDeep);
      }
      if FixedSize(ty).Some? {
        pos := pos + FixedSize(ty).value;
        return Success(());
      }
      if ty == 8 {
        var len :- StringLength();
        pos := pos + len;
        return Success(());
      }
      if ty == 9 {
        var head :- Head();
        r := SkipAll(head.ty, head.len, depth + 1);
        return;
      }
      return Failure(UnknownType(ty));
    }

    method SkipAll(ty: nat, len: nat, depth: nat) returns (r: Result<()>)
      modifies this
      ensures Matches(r, pos, SkipElements(data, old(pos), ty, len, depth))
      decreases Room(depth), 1
    {
      if len > 0 && depth > MAX_DEPTH {
        return Failure(NestingTooDeep);
      }
      if FixedSize(ty).Some? {
        pos := pos + FixedSize(ty).value * len;
        return Success(());
      }
      ghost var start := pos;
      for i := 0 to len
        invariant SkipEach(data, pos, ty, len - i, depth) == SkipEach(data, start, ty, len, depth)
      {
        var _ :- SkipOne(ty, depth);
      }
      return Success(());
    }
  }

  /** The elements read so far, in front of those still to be read. */
  function Ahead<T>(items: seq<T>, rest: Read<seq<T>>): Read<seq<T>> {
    match rest
    case Ok(more, p) => Ok(items + more, p)
    case Err(e) => Err(e)
  }

  lemma AheadNone<T>(rest: Read<seq<T>>)
    ensures Ahead([], rest) == rest
  {
    match rest
    case Ok(more, _) => assert [] + more == more;
    case Err(_) =>
  }

  lemma AheadOne<T>(items: seq<T>, item: T, rest: Read<seq<T>>)
    ensures Ahead(items + [item], rest) == Ahead(items, match rest case Ok(more, p) => Ok([item] + more, p) case Err(e) => Err(e))
  {
    match rest
    case Ok(more, _) => assert items + [item] + more == items + ([item] + more);
    case Err(_) =>
  }

  /** What is reported about a file. */
  datatype Info = Info(metadata: map<Octets, Value>, tensorCount: nat, parameterCount: nat, quantization: Option<string>)

  predicate ReadAs(r: Result<TensorInfo>, pos: nat, data: Octets, start: nat) {
    Matches(r, pos, Tensor(data, start))
  }

  method ReadTensorInfo(reader: Reader) returns (r: Result<TensorInfo>)
    modifies reader
    ensures ReadAs(r, reader.pos, reader.data, old(reader.pos))
  {
    hide ReadUnsigned, ReadString;
    var name :- reader.String();
    var rank :- reader.Unsigned(4);
    if rank > MAX_RANK {
      return Failure(ImplausibleRank(rank));
    }
    var dims: seq<nat> := [];
    ghost var start := reader.pos;
    AheadNone(Dims(reader.data, start, rank));
    for i := 0 to rank
      invariant Ahead(dims, Dims(reader.data, reader.pos, rank - i)) == Dims(reader.data, start, rank)
    {
      ghost var before := dims;
      var d :- reader.Unsigned(8);
      dims := dims + [d];
      AheadOne(before, d, Dims(reader.data, reader.pos, rank - i - 1));
    }
    assert dims + [] == dims;
    var ggmlType :- reader.Unsigned(4);
    var _ :- reader.Unsigned(8);
    return Success(TensorInfo(name, dims, ggmlType));
  }

  method ReadTensorInfos(reader: Reader, count: nat) returns (r: Result<seq<TensorInfo>>)
    modifies reader
    ensures Matches(r, reader.pos, Tensors(reader.data, old(reader.pos), count))
  {
    hide Tensor;
    var tensors: seq<TensorInfo> := [];
    ghost var start := reader.pos;
    AheadNone(Tensors(reader.data, start, count));
    for i := 0 to count
      invariant Ahead(tensors, Tensors(reader.data, reader.pos, count - i)) == Tensors(reader.data, start, count)
    {
      ghost var before := tensors;
      var t :- ReadTensorInfo(reader);
      tensors := tensors + [t];
      AheadOne(before, t, Tensors(reader.data, reader.pos, count - i - 1));
    }
    assert tensors + [] == tensors;
    return Success(tensors);
  }

  method ReadMetadata(reader: Reader, count: nat) returns (r: Result<map<Octets, Value>>)
    modifies reader
    ensures Matches(r, reader.pos, Metadata(reader.data, old(reader.pos), count, reader.maxArrayElements, map[]))
  {
    hide ReadUnsigned, ReadString, ValueAt;
    var metadata: map<Octets, Value> := map[];
    ghost var start := reader.pos;
    for i := 0 to count
      invariant Metadata(reader.data, reader.pos, count - i, reader.maxArrayElements, metadata)
        == Metadata(reader.data, start, count, reader.maxArrayElements, map[])
    {
      var key :- reader.String();
      var ty :- reader.Unsigned(4);
      var value :- reader.ValueOfType(ty, 0);
      metadata := metadata[key := value];
    }
    return Success(metadata);
  }

  method ReadCounts(reader: Reader) returns (r: Result<Preamble>)
    requires reader.pos == 0
    modifies reader
    ensures Matches(r, reader.pos, ReadPreamble(reader.data))
  {
    hide ReadUnsigned, ReadExact;
    var magic :- reader.Bytes(4);
    if magic != MAGIC {
      return Failure(NotGguf);
    }
    var version :- reader.Unsigned(4);
    if version < 2 {
      return Failure(UnsupportedVersion(version));
    }
    var tensorCount :- reader.Unsigned(8);
    var metadataCount :- reader.Unsigned(8);
    return Success(Preamble(tensorCount, metadataCount));
  }

  /** What the reported information says of the header it came from. */
  ghost predicate Reports(info: Info, h: Header) {
    && info.metadata == h.metadata
    && info.tensorCount == |h.tensors|
    && info.parameterCount == Min(MAX_UINT64, TotalElements(h.tensors))
    && (info.quantization == None <==> forall t | t in h.tensors :: |t.dims| < 2)
    && (info.quantization.Some? ==> exists ty :: Dominant(h.tensors, ty) && info.quantization.value == TypeName(ty))
  }

  lemma {:induction false} TensorsCounted(data: Octets, pos: nat, count: nat)
    ensures Tensors(data, pos, count).Ok? ==> |Tensors(data, pos, count).value| == count
    decreases count
  {
    hide Tensor;
    if count == 0 || Tensor(data, pos).Err? {
    } else {
      TensorsCounted(data, Tensor(data, pos).pos, count - 1);
    }
  }

  /** `read_info_up_to` on the bytes of a file. */
  method ReadInfoUpTo(data: Octets, max: nat) returns (r: Result<Info>)
    ensures ReadHeader(data, max).Ok? ==> r.Success? && Reports(r.value, ReadHeader(data, max).value)
    ensures ReadHeader(data, max).Err? ==> r == Failure(ReadHeader(data, max).error)
    ensures r.Success? <==> exists h :: Begins(data, h)
  {
    hide Begins, ReadPreamble, Metadata, Tensors, Dominant, TypeName, RankedTypes, TotalElements;
    SkippingAccepts(data, max);
    var reader := new Reader(data, max);
    var counts :- ReadCounts(reader);
    ghost var p := reader.pos;
    var metadata :- ReadMetadata(reader, counts.metadataCount);
    ghost var q := reader.pos;
    var tensors :- ReadTensorInfos(reader, counts.tensorCount);
    TensorsCounted(data, q, counts.tensorCount);
    var end := reader.pos;
    if end > |data| {
      return Failure(PastTheEnd(end));
    }
    ParameterCountIsExact(tensors);
    var quantization := DominantQuantization(tensors);
    return Success(Info(metadata, counts.tensorCount, ParameterCount(tensors), quantization));
  }
}
