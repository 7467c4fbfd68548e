/** Decoding undoes encoding: an encoder for well-typed headers, and the proof
    that the reader gives back what was encoded and consumes exactly that. */
module GgufEncode {
  import opened Wrappers
  import opened Gguf
  import opened GgufSkip

  // ----- numbers -----

  function Encode(n: nat, width: nat): (s: Octets)
    ensures |s| == width
    decreases width
  {
    if width == 0 then [] else [n % 256] + Encode(n / 256, width - 1)
  }

  lemma {:induction false} DecodeEncoded(n: nat, width: nat)
    requires n < Range(width)
    ensures LittleEndian(Encode(n, width)) == n
    decreases width
  {
    if width == 0 {
    } else {
      DecodeEncoded(n / 256, width - 1);
      assert Encode(n, width)[1..] == Encode(n / 256, width - 1);
    }
  }

  /** Two's complement in a range of this many numbers. */
  function Unsigned(i: int, range: nat): nat
    requires 0 <= i + range
  {
    if i < 0 then i + range else i
  }

  lemma Ranges()
    ensures Range(1) == 0x100 && Range(2) == 0x1_0000 && Range(4) == 0x1_0000_0000 && Range(8) == 0x1_0000_0000_0000_0000
  {
  }

  // ----- values with their types -----

  /** What a file spells out: every array with its element type, which the
      decoded value of an empty array no longer shows, and the byte that stands
      for true. */
  datatype Typed = Plain(value: Value) | TrueAs(byte: nat) | Text(bytes: Octets) | Items(ty: nat, items: seq<Typed>)

  predicate PlainValue(v: Value) {
    match v
    case U8(n) => n < 0x100
    case I8(i) => -0x80 <= i < 0x80
    case U16(n) => n < 0x1_0000
    case I16(i) => -0x8000 <= i < 0x8000
    case U32(n) => n < 0x1_0000_0000
    case I32(i) => -0x8000_0000 <= i < 0x8000_0000
    case F32(bits) => bits < 0x1_0000_0000
    case Bool(_) => true
    case U64(n) => n < 0x1_0000_0000_0000_0000
    case I64(i) => -0x8000_0000_0000_0000 <= i < 0x8000_0000_0000_0000
    case F64(bits) => bits < 0x1_0000_0000_0000_0000
    case _ => false
  }

  function PlainType(v: Value): nat
    requires PlainValue(v)
  {
    match v
    case U8(_) => 0 case I8(_) => 1 case U16(_) => 2 case I16(_) => 3 case U32(_) => 4 case I32(_) => 5
    case F32(_) => 6 case Bool(_) => 7 case U64(_) => 10 case I64(_) => 11 case F64(_) => 12
  }

  function PlainNumber(v: Value): nat
    requires PlainValue(v)
  {
    match v
    case U8(n) => n
    case I8(i) => Unsigned(i, 0x100)
    case U16(n) => n
    case I16(i) => Unsigned(i, 0x1_0000)
    case U32(n) => n
    case I32(i) => Unsigned(i, 0x1_0000_0000)
    case F32(bits) => bits
    case Bool(b) => if b then 1 else 0
    case U64(n) => n
    case I64(i) => Unsigned(i, 0x1_0000_0000_0000_0000)
    case F64(bits) => bits
  }

  lemma PlainScalar(v: Value)
    requires PlainValue(v)
    ensures FixedSize(PlainType(v)).Some?
    ensures Scalar(PlainType(v), PlainNumber(v)) == v
    ensures PlainNumber(v) < Range(FixedSize(PlainType(v)).value)
  {
    Ranges();
  }

  function TypeOf(t: Typed): nat
    requires t.Plain? ==> PlainValue(t.value)
  {
    match t
    case Plain(v) => PlainType(v)
    case TrueAs(_) => 7
    case Text(_) => 8
    case Items(_, _) => 9
  }

  /** Within the reader's limits at this depth. An empty array may claim any
      element type, and is allowed at the deepest level. */
  predicate WellTyped(t: Typed, depth: nat)
    decreases t
  {
    depth <= 8 &&
    match t
    case Plain(v) => PlainValue(v)
    case TrueAs(byte) => 0 < byte < 0x100
    case Text(bytes) => |bytes| <= 67_108_864
    case Items(ty, items) =>
      ty < 0x1_0000_0000 && |items| <= 10_000_000 &&
      forall item | item in items :: WellTyped(item, depth + 1) && TypeOf(item) == ty
  }

  function ValueOf(t: Typed): Value
    decreases t
  {
    match t
    case Plain(v) => v
    case TrueAs(_) => Bool(true)
    case Text(bytes) => Str(bytes)
    case Items(_, items) => Array(ValuesOf(items))
  }

  function ValuesOf(items: seq<Typed>): seq<Value>
    decreases items
  {
    if items == [] then [] else [ValueOf(items[0])] + ValuesOf(items[1..])
  }

  function EncodeString(s: Octets): Octets {
    Encode(|s|, 8) + s
  }

  function EncodeValue(t: Typed, depth: nat): Octets
    requires WellTyped(t, depth)
    decreases t
  {
    match t
    case Plain(v) =>
      PlainScalar(v);
      Encode(PlainNumber(v), FixedSize(PlainType(v)).value)
    case TrueAs(byte) => [byte]
    case Text(bytes) => EncodeString(bytes)
    case Items(ty, items) => Encode(ty, 4) + (Encode(|items|, 8) + EncodeItems(items, depth + 1))
  }

  function EncodeItems(items: seq<Typed>, depth: nat): Octets
    requires forall item | item in items :: WellTyped(item, depth)
    decreases items
  {
    if items == [] then [] else EncodeValue(items[0], depth) + EncodeItems(items[1..], depth)
  }

  // ----- reading what stands at a position -----

  predicate At(data: Octets, pos: nat, bytes: Octets) {
    pos + |bytes| <= |data| && data[pos..pos + |bytes|] == bytes
  }

  lemma AtParts(data: Octets, pos: nat, a: Octets, b: Octets)
    requires At(data, pos, a + b)
    ensures At(data, pos, a) && At(data, pos + |a|, b)
  {
    var whole := data[pos..pos + |a + b|];
    assert whole[..|a|] == a && whole[|a|..] == b;
  }

  lemma ReadNumber(data: Octets, pos: nat, n: nat, width: nat)
    requires At(data, pos, Encode(n, width)) && n < Range(width)
    ensures ReadUnsigned(data, pos, width) == Ok(n, pos + width)
  {
    DecodeEncoded(n, width);
  }

  lemma ReadText(data: Octets, pos: nat, s: Octets)
    requires At(data, pos, EncodeString(s)) && |s| <= MAX_STRING_BYTES
    ensures ReadString(data, pos) == Ok(s, pos + |EncodeString(s)|)
  {
    AtParts(data, pos, Encode(|s|, 8), s);
    Ranges();
    ReadNumber(data, pos, |s|, 8);
  }

  lemma ReadArrayHead(data: Octets, pos: nat, ty: nat, len: nat)
    requires ty < Range(4) && len <= MAX_ARRAY_LEN
    requires At(data, pos, Encode(ty, 4)) && At(data, pos + 4, Encode(len, 8))
    ensures ArrayHeader(data, pos) == Ok(ArrayHead(ty, len), pos + 12)
  {
    Ranges();
    ReadNumber(data, pos, ty, 4);
    ReadNumber(data, pos + 4, len, 8);
  }

  lemma ReadPlain(data: Octets, pos: nat, v: Value, depth: nat)
    requires PlainValue(v) && depth <= MAX_DEPTH
    requires FixedSize(PlainType(v)).Some? && At(data, pos, Encode(PlainNumber(v), FixedSize(PlainType(v)).value))
    ensures ValueAt(data, pos, PlainType(v), depth, NO_LIMIT) == Ok(v, pos + FixedSize(PlainType(v)).value)
  {
    PlainScalar(v);
    ReadNumber(data, pos, PlainNumber(v), FixedSize(PlainType(v)).value);
  }

  lemma {:induction false} ReadValue(data: Octets, pos: nat, t: Typed, depth: nat)
    requires WellTyped(t, depth) && At(data, pos, EncodeValue(t, depth))
    ensures ValueAt(data, pos, TypeOf(t), depth, NO_LIMIT) == Ok(ValueOf(t), pos + |EncodeValue(t, depth)|)
    decreases t
  {
    match t
    case Plain(v) =>
      PlainScalar(v);
      ReadPlain(data, pos, v, depth);
    case TrueAs(byte) => ReadTruth(data, pos, byte, depth);
    case Text(bytes) =>
      ReadText(data, pos, bytes);
      ReadTextValue(data, pos, bytes, depth);
    case Items(ty, items) =>
      hide At, ReadUnsigned, ReadString, Elements, ArrayHeader, ValueAt, EncodeItems, TypeOf, ValuesOf;
      ReadItemsHead(data, pos, ty, items, depth);
      ReadItems(data, pos + 12, ty, items, depth + 1);
      ReadArray(data, pos, ty, |items|, depth, Elements(data, pos + 12, ty, |items|, depth + 1, NO_LIMIT));
      ItemsType(ty, items);
  }

  lemma ReadTruth(data: Octets, pos: nat, byte: nat, depth: nat)
    requires 0 < byte < 0x100 && depth <= MAX_DEPTH && At(data, pos, [byte])
    ensures ValueAt(data, pos, 7, depth, NO_LIMIT) == Ok(Bool(true), pos + 1)
  {
    assert Encode(byte, 1) == [byte];
    Ranges();
    ReadNumber(data, pos, byte, 1);
  }

  lemma ItemsType(ty: nat, items: seq<Typed>)
    ensures TypeOf(Items(ty, items)) == 9
  {
  }

  lemma ReadTextValue(data: Octets, pos: nat, bytes: Octets, depth: nat)
    requires depth <= MAX_DEPTH && ReadString(data, pos).Ok?
    ensures ValueAt(data, pos, 8, depth, NO_LIMIT) == Ok(Str(ReadString(data, pos).value), ReadString(data, pos).pos)
  {
  }

  lemma ReadItemsHead(data: Octets, pos: nat, ty: nat, items: seq<Typed>, depth: nat)
    requires WellTyped(Items(ty, items), depth) && At(data, pos, EncodeValue(Items(ty, items), depth))
    ensures At(data, pos + 12, EncodeItems(items, depth + 1))
    ensures |EncodeValue(Items(ty, items), depth)| == 12 + |EncodeItems(items, depth + 1)|
    ensures ArrayHeader(data, pos) == Ok(ArrayHead(ty, |items|), pos + 12)
  {
    hide At, ReadUnsigned, ArrayHeader, EncodeItems, Encode, TypeOf;
    var body := EncodeItems(items, depth + 1);
    AtParts(data, pos, Encode(ty, 4), Encode(|items|, 8) + body);
    AtParts(data, pos + 4, Encode(|items|, 8), body);
    ReadArrayHead(data, pos, ty, |items|);
  }

  lemma ReadArray(data: Octets, pos: nat, ty: nat, len: nat, depth: nat, items: Read<seq<Value>>)
    requires depth <= MAX_DEPTH && len <= NO_LIMIT
    requires ArrayHeader(data, pos) == Ok(ArrayHead(ty, len), pos + 12)
    requires items == Elements(data, pos + 12, ty, len, depth + 1, NO_LIMIT) && items.Ok?
    ensures ValueAt(data, pos, 9, depth, NO_LIMIT) == Ok(Array(items.value), items.pos)
  {
  }

  lemma {:induction false} ReadItems(data: Octets, pos: nat, ty: nat, items: seq<Typed>, depth: nat)
    requires forall item | item in items :: WellTyped(item, depth) && TypeOf(item) == ty
    requires At(data, pos, EncodeItems(items, depth))
    ensures Elements(data, pos, ty, |items|, depth, NO_LIMIT) == Ok(ValuesOf(items), pos + |EncodeItems(items, depth)|)
    decreases items
  {
    hide At, ValueAt, EncodeValue, WellTyped, TypeOf, ValueOf;
    if items == [] {
    } else {
      assert items[0] in items;
      var first, rest := EncodeValue(items[0], depth), EncodeItems(items[1..], depth);
      AtParts(data, pos, first, rest);
      ReadValue(data, pos, items[0], depth);
      ReadItems(data, pos + |first|, ty, items[1..], depth);
    }
  }

  // ----- the header -----

  datatype Entry = Entry(key: Octets, value: Typed)

  datatype Placed = Placed(info: TensorInfo, offset: nat)

  datatype Source = Source(version: nat, metadata: seq<Entry>, tensors: seq<Placed>)

  predicate GoodEntry(e: Entry) {
    |e.key| <= 67_108_864 && WellTyped(e.value, 0)
  }

  predicate GoodTensor(t: Placed) {
    && |t.info.name| <= 67_108_864
    && |t.info.dims| <= 8
    && (forall d | d in t.info.dims :: d < 0x1_0000_0000_0000_0000)
    && t.info.ggmlType < 0x1_0000_0000
    && t.offset < 0x1_0000_0000_0000_0000
  }

  predicate GoodSource(h: Source) {
    && 2 <= h.version < 0x1_0000_0000
    && |h.metadata| < 0x1_0000_0000_0000_0000
    && |h.tensors| < 0x1_0000_0000_0000_0000
    && (forall e | e in h.metadata :: GoodEntry(e))
    && (forall t | t in h.tensors :: GoodTensor(t))
  }

  function EncodeEntry(e: Entry): Octets
    requires GoodEntry(e)
  {
    EncodeString(e.key) + (Encode(TypeOf(e.value), 4) + EncodeValue(e.value, 0))
  }

  function EncodeMetadata(entries: seq<Entry>): Octets
    requires forall e | e in entries :: GoodEntry(e)
  {
    if entries == [] then [] else EncodeEntry(entries[0]) + EncodeMetadata(entries[1..])
  }

  function EncodeDims(dims: seq<nat>): Octets {
    if dims == [] then [] else Encode(dims[0], 8) + EncodeDims(dims[1..])
  }

  function EncodeTensor(t: Placed): Octets {
    EncodeString(t.info.name)
    + (Encode(|t.info.dims|, 4) + (EncodeDims(t.info.dims) + (Encode(t.info.ggmlType, 4) + Encode(t.offset, 8))))
  }

  function EncodeTensors(tensors: seq<Placed>): Octets {
    if tensors == [] then [] else EncodeTensor(tensors[0]) + EncodeTensors(tensors[1..])
  }

  function EncodePreamble(h: Source): Octets {
    [0x47, 0x47, 0x55, 0x46] + (Encode(h.version, 4) + (Encode(|h.tensors|, 8) + Encode(|h.metadata|, 8)))
  }

  function EncodeHeader(h: Source): Octets
    requires GoodSource(h)
  {
    EncodePreamble(h) + (EncodeMetadata(h.metadata) + EncodeTensors(h.tensors))
  }

  /** A later entry replaces an earlier one of the same key. */
  function Entries(entries: seq<Entry>, known: map<Octets, Value>): map<Octets, Value> {
    if entries == [] then known else Entries(entries[1..], known[entries[0].key := ValueOf(entries[0].value)])
  }

  function Infos(tensors: seq<Placed>): seq<TensorInfo> {
    if tensors == [] then [] else [tensors[0].info] + Infos(tensors[1..])
  }

  lemma TypesAreShort(t: Typed, depth: nat)
    requires WellTyped(t, depth)
    ensures TypeOf(t) < Range(4)
  {
    Ranges();
  }

  lemma {:induction false} ReadMetadata(data: Octets, pos: nat, entries: seq<Entry>, known: map<Octets, Value>)
    requires forall e | e in entries :: GoodEntry(e)
    requires At(data, pos, EncodeMetadata(entries))
    ensures Metadata(data, pos, |entries|, NO_LIMIT, known)
      == Ok(Entries(entries, known), pos + |EncodeMetadata(entries)|)
    decreases |entries|
  {
    hide WellTyped, At, ReadString, ReadUnsigned, ValueAt, EncodeValue, EncodeString;
    if entries == [] {
    } else {
      var (e, rest) := (entries[0], entries[1..]);
      assert GoodEntry(e);
      AtParts(data, pos, EncodeEntry(e), EncodeMetadata(rest));
      ReadEntry(data, pos, e);
      ReadMetadata(data, pos + |EncodeEntry(e)|, rest, known[e.key := ValueOf(e.value)]);
    }
  }

  lemma ReadEntry(data: Octets, pos: nat, e: Entry)
    requires GoodEntry(e) && At(data, pos, EncodeEntry(e))
    ensures var p := pos + |EncodeString(e.key)|;
      ReadString(data, pos) == Ok(e.key, p) &&
      ReadUnsigned(data, p, 4) == Ok(TypeOf(e.value), p + 4) &&
      ValueAt(data, p + 4, TypeOf(e.value), 0, NO_LIMIT) == Ok(ValueOf(e.value), pos + |EncodeEntry(e)|)
  {
    hide PlainValue, ReadString, ReadUnsigned, ValueAt, EncodeValue, EncodeString, At;
    var (key, ty, value) := (EncodeString(e.key), Encode(TypeOf(e.value), 4), EncodeValue(e.value, 0));
    AtParts(data, pos, key, ty + value);
    AtParts(data, pos + |key|, ty, value);
    ReadText(data, pos, e.key);
    TypesAreShort(e.value, 0);
    ReadNumber(data, pos + |key|, TypeOf(e.value), 4);
    ReadValue(data, pos + |key| + 4, e.value, 0);
  }

  lemma {:induction false} ReadDims(data: Octets, pos: nat, dims: seq<nat>)
    requires forall d | d in dims :: d < 0x1_0000_0000_0000_0000
    requires At(data, pos, EncodeDims(dims))
    ensures Dims(data, pos, |dims|) == Ok(dims, pos + |EncodeDims(dims)|)
    decreases |dims|
  {
    hide ReadUnsigned, At, Encode, Range;
    if dims == [] {
    } else {
      assert dims[0] in dims && forall d | d in dims[1..] :: d in dims;
      Ranges();
      AtParts(data, pos, Encode(dims[0], 8), EncodeDims(dims[1..]));
      ReadNumber(data, pos, dims[0], 8);
      ReadDims(data, pos + 8, dims[1..]);
      assert [dims[0]] + dims[1..] == dims;
    }
  }

  lemma ReadTensor(data: Octets, pos: nat, t: Placed)
    requires GoodTensor(t) && At(data, pos, EncodeTensor(t))
    ensures Tensor(data, pos) == Ok(t.info, pos + |EncodeTensor(t)|)
  {
    hide ReadUnsigned, ReadString, Dims, EncodeString, EncodeDims, At, Encode, Range;
    var (name, rank, dims) := (EncodeString(t.info.name), Encode(|t.info.dims|, 4), EncodeDims(t.info.dims));
    var (ty, offset) := (Encode(t.info.ggmlType, 4), Encode(t.offset, 8));
    AtParts(data, pos, name, rank + (dims + (ty + offset)));
    AtParts(data, pos + |name|, rank, dims + (ty + offset));
    AtParts(data, pos + |name| + 4, dims, ty + offset);
    AtParts(data, pos + |name| + 4 + |dims|, ty, offset);
    Ranges();
    ReadText(data, pos, t.info.name);
    ReadNumber(data, pos + |name|, |t.info.dims|, 4);
    ReadDims(data, pos + |name| + 4, t.info.dims);
    ReadNumber(data, pos + |name| + 4 + |dims|, t.info.ggmlType, 4);
    ReadNumber(data, pos + |name| + 4 + |dims| + 4, t.offset, 8);
  }

  lemma {:induction false} ReadTensors(data: Octets, pos: nat, tensors: seq<Placed>)
    requires forall t | t in tensors :: GoodTensor(t)
    requires At(data, pos, EncodeTensors(tensors))
    ensures Tensors(data, pos, |tensors|) == Ok(Infos(tensors), pos + |EncodeTensors(tensors)|)
    decreases |tensors|
  {
    hide GoodTensor, Tensor, EncodeTensor, At;
    if tensors == [] {
    } else {
      AtParts(data, pos, EncodeTensor(tensors[0]), EncodeTensors(tensors[1..]));
      ReadTensor(data, pos, tensors[0]);
      ReadTensors(data, pos + |EncodeTensor(tensors[0])|, tensors[1..]);
    }
  }

  lemma {:induction false} ReadsPreamble(data: Octets, h: Source)
    requires 2 <= h.version < 0x1_0000_0000
    requires |h.metadata| < 0x1_0000_0000_0000_0000 && |h.tensors| < 0x1_0000_0000_0000_0000
    requires At(data, 0, EncodePreamble(h))
    ensures ReadPreamble(data) == Ok(Preamble(|h.tensors|, |h.metadata|), 24)
  {
    hide ReadUnsigned;
    Ranges();
    var (version, tensors, metadata) := (Encode(h.version, 4), Encode(|h.tensors|, 8), Encode(|h.metadata|, 8));
    AtParts(data, 0, [0x47, 0x47, 0x55, 0x46], version + (tensors + metadata));
    AtParts(data, 4, version, tensors + metadata);
    AtParts(data, 8, tensors, metadata);
    ReadNumber(data, 4, h.version, 4);
    ReadNumber(data, 8, |h.tensors|, 8);
    ReadNumber(data, 16, |h.metadata|, 8);
  }

  /** Decoding undoes encoding, whatever follows the header in the file: the
      read gives what was written and stops right behind it. */
  lemma {:induction false} DecodeHeader(h: Source, rest: Octets)
    requires GoodSource(h)
    ensures ReadHeader(EncodeHeader(h) + rest, NO_LIMIT)
      == Ok(Header(Entries(h.metadata, map[]), Infos(h.tensors)), |EncodeHeader(h)|)
  {
    hide GoodEntry, GoodTensor, ReadPreamble, Metadata, Tensors, EncodeMetadata, EncodeTensors, EncodePreamble;
    var data := EncodeHeader(h) + rest;
    var (a, b, c) := (EncodePreamble(h), EncodeMetadata(h.metadata), EncodeTensors(h.tensors));
    assert data[0..|a + (b + c)|] == a + (b + c);
    AtParts(data, 0, a, b + c);
    AtParts(data, |a|, b, c);
    ReadsPreamble(data, h);
    PreambleLength(h);
    ReadMetadata(data, 24, h.metadata, map[]);
    ReadTensors(data, 24 + |b|, h.tensors);
  }

  lemma PreambleLength(h: Source)
    ensures |EncodePreamble(h)| == 24
  {
  }

  /** And so does the skipping read, up to the arrays it cuts. */
  lemma {:induction false} DecodeHeaderSkipping(h: Source, rest: Octets, max: nat)
    requires GoodSource(h)
    ensures ReadHeader(EncodeHeader(h) + rest, max)
      == Ok(Header(PruneMap(Entries(h.metadata, map[]), max), Infos(h.tensors)), |EncodeHeader(h)|)
  {
    hide ReadHeader, EncodeHeader, PruneMap;
    DecodeHeader(h, rest);
    SkippingRefinesReading(EncodeHeader(h) + rest, max);
  }
}
