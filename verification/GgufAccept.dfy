/** What the reader of src/gguf.rs refuses: everything but the encodings of
    well-formed headers, so that acceptance is decided by the format alone. */
module GgufAccept {
  import opened Wrappers
  import opened Gguf
  import opened GgufSkip
  import opened GgufEncode

  // ----- numbers and strings, back to their bytes -----

  lemma {:induction false} EncodeDecoded(s: Octets)
    ensures LittleEndian(s) < Range(|s|) && Encode(LittleEndian(s), |s|) == s
  {
    if s == [] {
    } else {
      var rest := LittleEndian(s[1..]);
      EncodeDecoded(s[1..]);
      LowByte(s[0], rest);
      assert [s[0]] + s[1..] == s;
    }
  }

  lemma LowByte(low: Octet, high: nat)
    ensures (low + 256 * high) % 256 == low && (low + 256 * high) / 256 == high
  {
  }

  lemma FirstByte(s: Octets)
    requires s != []
    ensures LittleEndian(s) == s[0] + 256 * LittleEndian(s[1..]) && LittleEndian([]) == 0
  {
  }

  /** The least significant byte comes first, and negative numbers are in two's
      complement. */
  lemma ByteOrder(a: Octet, b: Octet, c: Octet, d: Octet)
    ensures LittleEndian([a, b, c, d]) == a + 0x100 * b + 0x1_0000 * c + 0x100_0000 * d
    ensures Signed(LittleEndian([a, b, c, d]), 4) ==
      a + 0x100 * b + 0x1_0000 * c + 0x100_0000 * (if d < 0x80 then d else d - 0x100)
  {
    FirstByte([a, b, c, d]);
    FirstByte([b, c, d]);
    FirstByte([c, d]);
    FirstByte([d]);
    assert [a, b, c, d][1..] == [b, c, d] && [b, c, d][1..] == [c, d] && [c, d][1..] == [d] && [d][1..] == [];
    Ranges();
  }

  lemma NumberBack(data: Octets, pos: nat, width: nat)
    requires width > 0 && ReadUnsigned(data, pos, width).Ok?
    ensures var r := ReadUnsigned(data, pos, width);
      r.pos == pos + width && r.value < Range(width) && At(data, pos, Encode(r.value, width))
  {
    EncodeDecoded(data[pos..pos + width]);
  }

  lemma AtJoin(data: Octets, pos: nat, a: Octets, b: Octets)
    requires At(data, pos, a) && At(data, pos + |a|, b)
    ensures At(data, pos, a + b)
  {
    assert data[pos..pos + |a + b|] == data[pos..pos + |a|] + data[pos + |a|..pos + |a| + |b|];
  }

  lemma TextBack(data: Octets, pos: nat)
    requires ReadString(data, pos).Ok?
    ensures var r := ReadString(data, pos);
      |r.value| <= 67_108_864 && At(data, pos, EncodeString(r.value)) && r.pos == pos + |EncodeString(r.value)|
  {
    var r := ReadString(data, pos);
    NumberBack(data, pos, 8);
    assert |r.value| == StringLen(data, pos).value;
    AtJoin(data, pos, Encode(|r.value|, 8), r.value);
  }

  lemma HeadBack(data: Octets, pos: nat)
    requires ArrayHeader(data, pos).Ok?
    ensures var r := ArrayHeader(data, pos);
      r.pos == pos + 12 && r.value.ty < 0x1_0000_0000 && r.value.len <= 10_000_000 &&
      At(data, pos, Encode(r.value.ty, 4)) && At(data, pos + 4, Encode(r.value.len, 8))
  {
    Ranges();
    NumberBack(data, pos, 4);
    NumberBack(data, pos + 4, 8);
  }

  // ----- values -----

  /** t spells the value that was read at pos, and exactly the bytes read. */
  ghost predicate Spells(data: Octets, pos: nat, t: Typed, ty: nat, depth: nat, r: Read<Value>) {
    WellTyped(t, depth) && TypeOf(t) == ty && At(data, pos, EncodeValue(t, depth)) &&
    r == Ok(ValueOf(t), pos + |EncodeValue(t, depth)|)
  }

  lemma SignedBack(n: nat, width: nat, range: nat)
    requires range == Range(width) && n < range
    ensures 0 <= 2 * Signed(n, width) + range && 2 * Signed(n, width) < range && Unsigned(Signed(n, width), range) == n
  {
  }

  lemma ScalarSpelled(ty: nat, n: nat) returns (t: Typed)
    requires FixedSize(ty).Some? && n < Range(FixedSize(ty).value)
    ensures !t.Items? && WellTyped(t, 0) && TypeOf(t) == ty && ValueOf(t) == Scalar(ty, n)
    ensures EncodeValue(t, 0) == Encode(n, FixedSize(ty).value)
  {
    hide Signed, Unsigned, Range, Encode;
    if ty == 7 && n != 0 {
      Ranges();
      OneByte(n);
      t := TrueAs(n);
    } else {
      Ranges();
      SignedBack(n, FixedSize(ty).value, Range(FixedSize(ty).value));
      t := Plain(Scalar(ty, n));
    }
  }

  lemma OneByte(n: nat)
    requires n < 0x100
    ensures Encode(n, 1) == [n]
  {
  }

  lemma FlatAtDepth(t: Typed, depth: nat)
    requires !t.Items? && WellTyped(t, 0) && depth <= 8
    ensures WellTyped(t, depth) && EncodeValue(t, depth) == EncodeValue(t, 0)
  {
  }

  lemma ScalarBack(data: Octets, pos: nat, ty: nat, depth: nat) returns (t: Typed)
    requires FixedSize(ty).Some? && ValueAt(data, pos, ty, depth, NO_LIMIT).Ok?
    ensures Spells(data, pos, t, ty, depth, ValueAt(data, pos, ty, depth, NO_LIMIT))
  {
    hide Scalar, At, ReadUnsigned, Encode, EncodeValue, ValueOf, Signed;
    var width := FixedSize(ty).value;
    NumberBack(data, pos, width);
    t := ScalarSpelled(ty, ReadUnsigned(data, pos, width).value);
    FlatAtDepth(t, depth);
  }

  lemma TextValueBack(data: Octets, pos: nat, depth: nat)
    requires ValueAt(data, pos, 8, depth, NO_LIMIT).Ok?
    ensures ReadString(data, pos).Ok?
    ensures Spells(data, pos, Text(ReadString(data, pos).value), 8, depth, ValueAt(data, pos, 8, depth, NO_LIMIT))
  {
    hide ReadString, EncodeString, At;
    TextBack(data, pos);
  }

  lemma ArrayStep(data: Octets, pos: nat, depth: nat)
    requires ValueAt(data, pos, 9, depth, NO_LIMIT).Ok?
    ensures depth <= 8 && ArrayHeader(data, pos).Ok?
    ensures var head := ArrayHeader(data, pos);
      Elements(data, head.pos, head.value.ty, head.value.len, depth + 1, NO_LIMIT).Ok?
  {
    hide ReadUnsigned, Elements;
  }

  lemma {:induction false} ValueBack(data: Octets, pos: nat, ty: nat, depth: nat) returns (t: Typed)
    requires ValueAt(data, pos, ty, depth, NO_LIMIT).Ok?
    ensures Spells(data, pos, t, ty, depth, ValueAt(data, pos, ty, depth, NO_LIMIT))
    decreases Room(depth), 0, 0
  {
    hide At, ReadUnsigned, ReadString, Elements, ArrayHeader, EncodeItems, Encode, ValueAt, Spells;
    if FixedSize(ty).Some? {
      t := ScalarBack(data, pos, ty, depth);
    } else if ty == 8 {
      TextValueBack(data, pos, depth);
      t := Text(ReadString(data, pos).value);
    } else {
      assert ty == 9 by { KnownTypes(data, pos, ty, depth); }
      ArrayStep(data, pos, depth);
      var head := ArrayHeader(data, pos);
      HeadBack(data, pos);
      var items := ItemsBack(data, head.pos, head.value.ty, head.value.len, depth + 1);
      ArraySpelled(data, pos, head.value.ty, items, depth);
      t := Items(head.value.ty, items);
    }
  }

  lemma KnownTypes(data: Octets, pos: nat, ty: nat, depth: nat)
    requires ValueAt(data, pos, ty, depth, NO_LIMIT).Ok?
    ensures FixedSize(ty).Some? || ty == 8 || ty == 9
  {
    hide ReadUnsigned, ReadString, Elements, ArrayHeader;
  }

  lemma ArraySpelled(data: Octets, pos: nat, ty: nat, items: seq<Typed>, depth: nat)
    requires depth <= 8 && ty < 0x1_0000_0000 && |items| <= 10_000_000
    requires ArrayHeader(data, pos) == Ok(ArrayHead(ty, |items|), pos + 12)
    requires At(data, pos, Encode(ty, 4)) && At(data, pos + 4, Encode(|items|, 8))
    requires ItemsSpelled(data, pos + 12, items, ty, depth + 1, Elements(data, pos + 12, ty, |items|, depth + 1, NO_LIMIT))
    ensures Spells(data, pos, Items(ty, items), 9, depth, ValueAt(data, pos, 9, depth, NO_LIMIT))
  {
    hide At, ArrayHeader, Elements, EncodeItems, Encode, ValuesOf;
    AtJoin(data, pos + 4, Encode(|items|, 8), EncodeItems(items, depth + 1));
    AtJoin(data, pos, Encode(ty, 4), Encode(|items|, 8) + EncodeItems(items, depth + 1));
  }

  ghost predicate ItemsSpelled(data: Octets, pos: nat, items: seq<Typed>, ty: nat, depth: nat, r: Read<seq<Value>>) {
    (forall item | item in items :: WellTyped(item, depth) && TypeOf(item) == ty) &&
    At(data, pos, EncodeItems(items, depth)) && r == Ok(ValuesOf(items), pos + |EncodeItems(items, depth)|)
  }

  lemma NoItems(data: Octets, pos: nat, ty: nat, depth: nat)
    requires pos <= |data|
    ensures ItemsSpelled(data, pos, [], ty, depth, Elements(data, pos, ty, 0, depth, NO_LIMIT))
  {
  }

  lemma ItemsStep(data: Octets, pos: nat, ty: nat, len: nat, depth: nat)
    requires len > 0 && Elements(data, pos, ty, len, depth, NO_LIMIT).Ok?
    ensures ValueAt(data, pos, ty, depth, NO_LIMIT).Ok?
    ensures var first := ValueAt(data, pos, ty, depth, NO_LIMIT);
      var rest := Elements(data, first.pos, ty, len - 1, depth, NO_LIMIT);
      rest.Ok? && Elements(data, pos, ty, len, depth, NO_LIMIT) == Ok([first.value] + rest.value, rest.pos)
  {
    hide ValueAt;
  }

  lemma ItemsMore(item: Typed, rest: seq<Typed>, ty: nat, depth: nat)
    requires WellTyped(item, depth) && TypeOf(item) == ty
    requires forall x | x in rest :: WellTyped(x, depth) && TypeOf(x) == ty
    ensures forall x | x in [item] + rest :: WellTyped(x, depth) && TypeOf(x) == ty
    ensures EncodeItems([item] + rest, depth) == EncodeValue(item, depth) + EncodeItems(rest, depth)
    ensures ValuesOf([item] + rest) == [ValueOf(item)] + ValuesOf(rest)
  {
    hide WellTyped, TypeOf, EncodeValue, ValueOf;
    assert ([item] + rest)[1..] == rest;
  }

  lemma ItemsJoin(data: Octets, pos: nat, item: Typed, rest: seq<Typed>, ty: nat, depth: nat, r: Read<seq<Value>>)
    requires WellTyped(item, depth) && TypeOf(item) == ty && At(data, pos, EncodeValue(item, depth))
    requires ItemsSpelled(data, pos + |EncodeValue(item, depth)|, rest, ty, depth, r)
    ensures ItemsSpelled(data, pos, [item] + rest, ty, depth, Ok([ValueOf(item)] + r.value, r.pos))
  {
    hide WellTyped, TypeOf, EncodeValue, ValueOf, At, EncodeItems, ValuesOf;
    AtJoin(data, pos, EncodeValue(item, depth), EncodeItems(rest, depth));
    ItemsMore(item, rest, ty, depth);
  }

  lemma {:induction false} ItemsBack(data: Octets, pos: nat, ty: nat, len: nat, depth: nat) returns (items: seq<Typed>)
    requires pos <= |data| && Elements(data, pos, ty, len, depth, NO_LIMIT).Ok?
    ensures |items| == len
    ensures ItemsSpelled(data, pos, items, ty, depth, Elements(data, pos, ty, len, depth, NO_LIMIT))
    decreases Room(depth), 1, len
  {
    hide ValueAt, WellTyped, TypeOf, EncodeValue, ValueOf, At, Elements, ItemsSpelled;
    if len == 0 {
      NoItems(data, pos, ty, depth);
      items := [];
    } else {
      ItemsStep(data, pos, ty, len, depth);
      var first := ValueBack(data, pos, ty, depth);
      InsideAt(data, pos, EncodeValue(first, depth));
      var p := pos + |EncodeValue(first, depth)|;
      var rest := ItemsBack(data, p, ty, len - 1, depth);
      ItemsJoin(data, pos, first, rest, ty, depth, Elements(data, p, ty, len - 1, depth, NO_LIMIT));
      items := [first] + rest;
    }
  }

  lemma InsideAt(data: Octets, pos: nat, bytes: Octets)
    requires At(data, pos, bytes)
    ensures pos + |bytes| <= |data|
  {
  }

  // ----- the header -----

  ghost predicate MetadataSpelled(data: Octets, pos: nat, entries: seq<Entry>, known: map<Octets, Value>,
        r: Read<map<Octets, Value>>) {
    (forall e | e in entries :: GoodEntry(e)) &&
    At(data, pos, EncodeMetadata(entries)) && r == Ok(Entries(entries, known), pos + |EncodeMetadata(entries)|)
  }

  lemma EntryBack(data: Octets, pos: nat) returns (e: Entry)
    requires ReadString(data, pos).Ok?
    requires ReadUnsigned(data, ReadString(data, pos).pos, 4).Ok?
    requires var ty := ReadUnsigned(data, ReadString(data, pos).pos, 4);
      ValueAt(data, ty.pos, ty.value, 0, NO_LIMIT).Ok?
    ensures var ty := ReadUnsigned(data, ReadString(data, pos).pos, 4);
      GoodEntry(e) && e.key == ReadString(data, pos).value && At(data, pos, EncodeEntry(e)) &&
      ValueAt(data, ty.pos, ty.value, 0, NO_LIMIT) == Ok(ValueOf(e.value), pos + |EncodeEntry(e)|)
  {
    hide At, ReadString, ReadUnsigned, ValueAt, EncodeString, Encode, EncodeValue, WellTyped, TypeOf, ValueOf;
    var key := ReadString(data, pos);
    var ty := ReadUnsigned(data, key.pos, 4);
    TextBack(data, pos);
    NumberBack(data, key.pos, 4);
    var t := ValueBack(data, ty.pos, ty.value, 0);
    e := Entry(key.value, t);
    AtJoin(data, key.pos, Encode(ty.value, 4), EncodeValue(t, 0));
    AtJoin(data, pos, EncodeString(key.value), Encode(ty.value, 4) + EncodeValue(t, 0));
  }

  lemma MetadataMore(e: Entry, rest: seq<Entry>, known: map<Octets, Value>)
    requires GoodEntry(e) && forall x | x in rest :: GoodEntry(x)
    ensures forall x | x in [e] + rest :: GoodEntry(x)
    ensures EncodeMetadata([e] + rest) == EncodeEntry(e) + EncodeMetadata(rest)
    ensures Entries([e] + rest, known) == Entries(rest, known[e.key := ValueOf(e.value)])
  {
    hide GoodEntry, EncodeEntry, ValueOf;
    assert ([e] + rest)[1..] == rest;
  }

  lemma MetadataStep(data: Octets, pos: nat, count: nat, known: map<Octets, Value>)
    requires count > 0 && Metadata(data, pos, count, NO_LIMIT, known).Ok?
    ensures ReadString(data, pos).Ok? && ReadUnsigned(data, ReadString(data, pos).pos, 4).Ok?
    ensures var ty := ReadUnsigned(data, ReadString(data, pos).pos, 4);
      var v := ValueAt(data, ty.pos, ty.value, 0, NO_LIMIT);
      v.Ok? && Metadata(data, pos, count, NO_LIMIT, known) ==
        Metadata(data, v.pos, count - 1, NO_LIMIT, known[ReadString(data, pos).value := v.value])
  {
    hide ReadString, ReadUnsigned, ValueAt;
  }

  lemma MetadataJoin(data: Octets, pos: nat, e: Entry, rest: seq<Entry>, known: map<Octets, Value>,
        r: Read<map<Octets, Value>>)
    requires GoodEntry(e) && At(data, pos, EncodeEntry(e))
    requires MetadataSpelled(data, pos + |EncodeEntry(e)|, rest, known[e.key := ValueOf(e.value)], r)
    ensures MetadataSpelled(data, pos, [e] + rest, known, r)
  {
    hide GoodEntry, EncodeEntry, At, ValueOf, EncodeMetadata, Entries;
    AtJoin(data, pos, EncodeEntry(e), EncodeMetadata(rest));
    MetadataMore(e, rest, known);
  }

  lemma NoMetadata(data: Octets, pos: nat, known: map<Octets, Value>)
    requires pos <= |data|
    ensures MetadataSpelled(data, pos, [], known, Metadata(data, pos, 0, NO_LIMIT, known))
  {
  }

  lemma {:induction false} MetadataBack(data: Octets, pos: nat, count: nat, known: map<Octets, Value>)
    returns (entries: seq<Entry>)
    requires pos <= |data| && Metadata(data, pos, count, NO_LIMIT, known).Ok?
    ensures |entries| == count
    ensures MetadataSpelled(data, pos, entries, known, Metadata(data, pos, count, NO_LIMIT, known))
    decreases count
  {
    hide ReadString, ReadUnsigned, ValueAt, GoodEntry, EncodeEntry, At, ValueOf, Metadata, MetadataSpelled;
    if count == 0 {
      NoMetadata(data, pos, known);
      entries := [];
    } else {
      MetadataStep(data, pos, count, known);
      var e := EntryBack(data, pos);
      InsideAt(data, pos, EncodeEntry(e));
      var p, now := pos + |EncodeEntry(e)|, known[e.key := ValueOf(e.value)];
      var rest := MetadataBack(data, p, count - 1, now);
      MetadataJoin(data, pos, e, rest, known, Metadata(data, p, count - 1, NO_LIMIT, now));
      entries := [e] + rest;
    }
  }

  lemma DimsMore(d: nat, rest: seq<nat>)
    ensures EncodeDims([d] + rest) == Encode(d, 8) + EncodeDims(rest)
  {
    assert ([d] + rest)[1..] == rest;
  }

  lemma DimsStep(data: Octets, pos: nat, rank: nat)
    requires rank > 0 && Dims(data, pos, rank).Ok?
    ensures ReadUnsigned(data, pos, 8).Ok?
    ensures var first := ReadUnsigned(data, pos, 8);
      var rest := Dims(data, first.pos, rank - 1);
      rest.Ok? && Dims(data, pos, rank) == Ok([first.value] + rest.value, rest.pos)
  {
    hide ReadUnsigned;
  }

  ghost predicate DimsSpelled(data: Octets, pos: nat, dims: seq<nat>, r: Read<seq<nat>>) {
    (forall d | d in dims :: d < 0x1_0000_0000_0000_0000) && At(data, pos, EncodeDims(dims)) &&
    r == Ok(dims, pos + |EncodeDims(dims)|)
  }

  lemma DimsJoin(data: Octets, pos: nat, d: nat, rest: seq<nat>, r: Read<seq<nat>>)
    requires d < 0x1_0000_0000_0000_0000 && At(data, pos, Encode(d, 8)) && DimsSpelled(data, pos + 8, rest, r)
    ensures DimsSpelled(data, pos, [d] + rest, Ok([d] + rest, r.pos))
  {
    hide At, Encode, EncodeDims;
    AtJoin(data, pos, Encode(d, 8), EncodeDims(rest));
    DimsMore(d, rest);
  }

  lemma NoDims(data: Octets, pos: nat)
    requires pos <= |data|
    ensures DimsSpelled(data, pos, [], Dims(data, pos, 0))
  {
  }

  lemma {:induction false} DimsBack(data: Octets, pos: nat, rank: nat)
    requires pos <= |data| && Dims(data, pos, rank).Ok?
    ensures |Dims(data, pos, rank).value| == rank
    ensures DimsSpelled(data, pos, Dims(data, pos, rank).value, Dims(data, pos, rank))
    decreases rank
  {
    hide ReadUnsigned, At, Encode, Range, Dims, DimsSpelled;
    if rank == 0 {
      NoDims(data, pos);
      assert Dims(data, pos, 0).value == [] by { DimsNone(data, pos); }
    } else {
      DimsStep(data, pos, rank);
      var first := ReadUnsigned(data, pos, 8);
      Ranges();
      NumberBack(data, pos, 8);
      InsideAt(data, pos, Encode(first.value, 8));
      DimsBack(data, first.pos, rank - 1);
      DimsJoin(data, pos, first.value, Dims(data, first.pos, rank - 1).value, Dims(data, first.pos, rank - 1));
    }
  }

  lemma DimsNone(data: Octets, pos: nat)
    ensures Dims(data, pos, 0) == Ok([], pos)
  {
  }

  lemma TensorBack(data: Octets, pos: nat) returns (t: Placed)
    requires Tensor(data, pos).Ok?
    ensures GoodTensor(t) && At(data, pos, EncodeTensor(t))
    ensures Tensor(data, pos) == Ok(t.info, pos + |EncodeTensor(t)|)
  {
    hide ReadUnsigned, ReadString, Dims, EncodeString, EncodeDims, At, Encode, Range;
    Ranges();
    var name := ReadString(data, pos);
    var rank := ReadUnsigned(data, name.pos, 4);
    var dims := Dims(data, rank.pos, rank.value);
    var ty := ReadUnsigned(data, dims.pos, 4);
    var offset := ReadUnsigned(data, ty.pos, 8);
    TextBack(data, pos);
    NumberBack(data, name.pos, 4);
    InsideAt(data, name.pos, Encode(rank.value, 4));
    DimsBack(data, rank.pos, rank.value);
    NumberBack(data, dims.pos, 4);
    NumberBack(data, ty.pos, 8);
    t := Placed(Tensor(data, pos).value, offset.value);
    var d, g, o := EncodeDims(dims.value), Encode(ty.value, 4), Encode(offset.value, 8);
    AtJoin(data, dims.pos, g, o);
    AtJoin(data, rank.pos, d, g + o);
    AtJoin(data, name.pos, Encode(rank.value, 4), d + (g + o));
    AtJoin(data, pos, EncodeString(name.value), Encode(rank.value, 4) + (d + (g + o)));
  }

  lemma TensorsMore(first: Placed, rest: seq<Placed>)
    ensures EncodeTensors([first] + rest) == EncodeTensor(first) + EncodeTensors(rest)
    ensures Infos([first] + rest) == [first.info] + Infos(rest)
  {
    hide EncodeTensor;
    assert ([first] + rest)[1..] == rest;
  }

  lemma TensorsStep(data: Octets, pos: nat, count: nat)
    requires count > 0 && Tensors(data, pos, count).Ok?
    ensures Tensor(data, pos).Ok?
    ensures var first := Tensor(data, pos);
      var rest := Tensors(data, first.pos, count - 1);
      rest.Ok? && Tensors(data, pos, count) == Ok([first.value] + rest.value, rest.pos)
  {
    hide Tensor;
  }

  ghost predicate TensorsSpelled(data: Octets, pos: nat, tensors: seq<Placed>, r: Read<seq<TensorInfo>>) {
    (forall t | t in tensors :: GoodTensor(t)) && At(data, pos, EncodeTensors(tensors)) &&
    r == Ok(Infos(tensors), pos + |EncodeTensors(tensors)|)
  }

  lemma TensorsJoin(data: Octets, pos: nat, t: Placed, rest: seq<Placed>, r: Read<seq<TensorInfo>>)
    requires GoodTensor(t) && At(data, pos, EncodeTensor(t)) && TensorsSpelled(data, pos + |EncodeTensor(t)|, rest, r)
    ensures TensorsSpelled(data, pos, [t] + rest, Ok([t.info] + r.value, r.pos))
  {
    hide At, GoodTensor, EncodeTensor, EncodeTensors, Infos;
    AtJoin(data, pos, EncodeTensor(t), EncodeTensors(rest));
    TensorsMore(t, rest);
  }

  lemma NoTensors(data: Octets, pos: nat)
    requires pos <= |data|
    ensures TensorsSpelled(data, pos, [], Tensors(data, pos, 0))
  {
  }

  lemma {:induction false} TensorsBack(data: Octets, pos: nat, count: nat) returns (tensors: seq<Placed>)
    requires pos <= |data| && Tensors(data, pos, count).Ok?
    ensures |tensors| == count
    ensures TensorsSpelled(data, pos, tensors, Tensors(data, pos, count))
    decreases count
  {
    hide Tensor, GoodTensor, EncodeTensor, At, Tensors, TensorsSpelled;
    if count == 0 {
      NoTensors(data, pos);
      tensors := [];
    } else {
      TensorsStep(data, pos, count);
      var first := TensorBack(data, pos);
      InsideAt(data, pos, EncodeTensor(first));
      var p := pos + |EncodeTensor(first)|;
      var rest := TensorsBack(data, p, count - 1);
      TensorsJoin(data, pos, first, rest, Tensors(data, p, count - 1));
      tensors := [first] + rest;
    }
  }

  lemma PreambleBack(data: Octets) returns (version: nat)
    requires ReadPreamble(data).Ok?
    ensures var r := ReadPreamble(data);
      2 <= version < 0x1_0000_0000 && r.pos == 24 <= |data| &&
      r.value.tensorCount < 0x1_0000_0000_0000_0000 && r.value.metadataCount < 0x1_0000_0000_0000_0000 &&
      data[..4] == [0x47, 0x47, 0x55, 0x46] && At(data, 4, Encode(version, 4)) &&
      At(data, 8, Encode(r.value.tensorCount, 8)) && At(data, 16, Encode(r.value.metadataCount, 8))
  {
    hide ReadUnsigned, At, Encode, Range;
    Ranges();
    version := ReadUnsigned(data, 4, 4).value;
    NumberBack(data, 4, 4);
    NumberBack(data, 8, 8);
    NumberBack(data, 16, 8);
    InsideAt(data, 16, Encode(ReadUnsigned(data, 16, 8).value, 8));
  }

  /** The file begins with the encoding of this header. */
  ghost predicate Begins(data: Octets, h: Source) {
    GoodSource(h) && |EncodeHeader(h)| <= |data| && data[..|EncodeHeader(h)|] == EncodeHeader(h)
  }

  ghost predicate Gives(data: Octets, h: Source, r: Read<Header>) {
    Begins(data, h) && r == Ok(Header(Entries(h.metadata, map[]), Infos(h.tensors)), |EncodeHeader(h)|)
  }

  lemma PreambleAt(data: Octets, h: Source)
    requires |data| >= 4 && data[..4] == [0x47, 0x47, 0x55, 0x46]
    requires At(data, 4, Encode(h.version, 4)) && At(data, 8, Encode(|h.tensors|, 8)) && At(data, 16, Encode(|h.metadata|, 8))
    ensures At(data, 0, EncodePreamble(h))
  {
    hide Encode;
    var (v, n, m) := (Encode(h.version, 4), Encode(|h.tensors|, 8), Encode(|h.metadata|, 8));
    assert At(data, 0, [0x47, 0x47, 0x55, 0x46]) by { assert data[0..4] == data[..4]; }
    AtJoin(data, 8, n, m);
    AtJoin(data, 4, v, n + m);
    AtJoin(data, 0, [0x47, 0x47, 0x55, 0x46], v + (n + m));
  }

  lemma HeaderBack(data: Octets) returns (h: Source)
    requires ReadHeader(data, NO_LIMIT).Ok?
    ensures Gives(data, h, ReadHeader(data, NO_LIMIT))
  {
    hide ReadPreamble, Metadata, Tensors, At, Encode, EncodePreamble, EncodeMetadata, EncodeTensors, GoodEntry, GoodTensor;
    var counts := ReadPreamble(data);
    var version := PreambleBack(data);
    var entries := MetadataBack(data, 24, counts.value.metadataCount, map[]);
    var q := 24 + |EncodeMetadata(entries)|;
    InsideAt(data, 24, EncodeMetadata(entries));
    var tensors := TensorsBack(data, q, counts.value.tensorCount);
    h := Source(version, entries, tensors);
    PreambleAt(data, h);
    PreambleLength(h);
    AtJoin(data, 24, EncodeMetadata(entries), EncodeTensors(tensors));
    AtJoin(data, 0, EncodePreamble(h), EncodeMetadata(entries) + EncodeTensors(tensors));
    AtStart(data, EncodeHeader(h));
  }

  lemma AtStart(data: Octets, bytes: Octets)
    requires At(data, 0, bytes)
    ensures |bytes| <= |data| && data[..|bytes|] == bytes
  {
    assert data[0..|bytes|] == data[..|bytes|];
  }

  /** A file is accepted, with this result, exactly when it begins with the
      encoding of a well-formed header that has these metadata and tensors and
      ends where the read ended. Everything else is refused. */
  lemma AcceptsExactly(data: Octets, header: Header, end: nat)
    ensures ReadHeader(data, NO_LIMIT) == Ok(header, end) <==>
      exists h :: Gives(data, h, Ok(header, end))
  {
    hide ReadHeader, EncodeHeader, GoodSource, Entries, Infos;
    if ReadHeader(data, NO_LIMIT) == Ok(header, end) {
      var h := HeaderBack(data);
      assert Gives(data, h, Ok(header, end));
    }
    if exists h :: Gives(data, h, Ok(header, end)) {
      var h :| Gives(data, h, Ok(header, end));
      DecodeHeader(h, data[|EncodeHeader(h)|..]);
      assert EncodeHeader(h) + data[|EncodeHeader(h)|..] == data;
    }
  }

  /** The skipping read accepts exactly the same files. */
  lemma SkippingAccepts(data: Octets, max: nat)
    ensures ReadHeader(data, max).Ok? <==> exists h :: Begins(data, h)
  {
    hide ReadHeader, EncodeHeader, GoodSource, Entries, Infos, PruneMap;
    SkippingRefinesReading(data, max);
    if ReadHeader(data, NO_LIMIT).Ok? {
      var h := HeaderBack(data);
      assert Begins(data, h);
    }
    if exists h :: Begins(data, h) {
      var h :| Begins(data, h);
      DecodeHeader(h, data[|EncodeHeader(h)|..]);
      assert EncodeHeader(h) + data[|EncodeHeader(h)|..] == data;
    }
  }

  /** So a file that does not begin with the four letters is never accepted. */
  lemma OnlyGguf(data: Octets, max: nat)
    ensures ReadHeader(data, max).Ok? ==> |data| >= 24 && data[..4] == [0x47, 0x47, 0x55, 0x46]
  {
    hide Metadata, Tensors, ReadUnsigned;
    if ReadHeader(data, max).Ok? {
      var version := PreambleBack(data);
    }
  }
}
