/** The skipping read refines the full one: it succeeds on the same files and
    gives the full result with the long arrays cut to their lengths. */
module GgufSkip {
  import opened Wrappers
  import opened Gguf

  /** A value with every array longer than max replaced by its length. */
  function Prune(v: Value, max: nat): Value {
    match v
    case Array(items) => if |items| > max then LargeArray(|items|) else Array(PruneAll(items, max))
    case _ => v
  }

  function PruneAll(items: seq<Value>, max: nat): (pruned: seq<Value>)
    ensures |pruned| == |items|
  {
    if items == [] then [] else [Prune(items[0], max)] + PruneAll(items[1..], max)
  }

  // ----- positions only grow -----

  lemma ReadGrows(data: Octets, pos: nat, width: nat)
    ensures var r := ReadUnsigned(data, pos, width);
      r.Ok? ==> r.pos == pos + width && (width > 0 ==> r.pos <= |data|)
  {
  }

  lemma StringGrows(data: Octets, pos: nat)
    ensures ReadString(data, pos).Ok? ==> pos < ReadString(data, pos).pos <= |data|
  {
  }

  lemma {:induction false} SkipValueGrows(data: Octets, pos: nat, ty: nat, depth: nat)
    ensures var r := SkipValueAt(data, pos, ty, depth);
      r.Ok? ==> pos <= r.pos
    decreases Room(depth), 0, 0
  {
    if depth <= MAX_DEPTH && ty == 9 && ArrayHeader(data, pos).Ok? {
      var head := ArrayHeader(data, pos);
      SkipElementsGrow(data, head.pos, head.value.ty, head.value.len, depth + 1);
    }
  }

  lemma {:induction false} SkipElementsGrow(data: Octets, pos: nat, ty: nat, len: nat, depth: nat)
    ensures var r := SkipElements(data, pos, ty, len, depth);
      r.Ok? ==> pos <= r.pos
    decreases Room(depth), 2, 0
  {
    if FixedSize(ty).None? {
      SkipEachGrows(data, pos, ty, len, depth);
    }
  }

  lemma {:induction false} SkipEachGrows(data: Octets, pos: nat, ty: nat, len: nat, depth: nat)
    ensures var r := SkipEach(data, pos, ty, len, depth);
      r.Ok? ==> pos <= r.pos
    decreases Room(depth), 1, len
  {
    if len == 0 {
    } else {
      SkipValueGrows(data, pos, ty, depth);
      var first := SkipValueAt(data, pos, ty, depth);
      if first.Ok? {
        SkipEachGrows(data, first.pos, ty, len - 1, depth);
      }
    }
  }

  // ----- skipping a value, against reading it -----

  /** Skipping and reading agree: reading succeeds exactly when skipping does
      and ends inside the file, and then both end at the same place. */
  predicate Agree<T>(data: Octets, skipped: Read<()>, read: Read<T>) {
    (read.Ok? ==> read.pos <= |data|) && (read.Ok? <==> skipped.Ok? && skipped.pos <= |data|) &&
    (read.Ok? ==> read.pos == skipped.pos)
  }

  lemma {:induction false} SkipValueAgrees(data: Octets, pos: nat, ty: nat, depth: nat)
    requires pos <= |data|
    ensures Agree(data, SkipValueAt(data, pos, ty, depth), ValueAt(data, pos, ty, depth, NO_LIMIT))
    decreases Room(depth), 0, 0
  {
    if depth <= MAX_DEPTH && ty == 9 && ArrayHeader(data, pos).Ok? {
      var head := ArrayHeader(data, pos);
      SkipElementsAgree(data, head.pos, head.value.ty, head.value.len, depth + 1);
    }
  }

  lemma {:induction false} SkipElementsAgree(data: Octets, pos: nat, ty: nat, len: nat, depth: nat)
    requires pos <= |data|
    ensures Agree(data, SkipElements(data, pos, ty, len, depth), Elements(data, pos, ty, len, depth, NO_LIMIT))
    decreases Room(depth), 2, 0
  {
    if len > 0 && depth > MAX_DEPTH {
    } else if FixedSize(ty).Some? {
      FixedElements(data, pos, ty, len, depth);
    } else {
      SkipEachAgrees(data, pos, ty, len, depth);
    }
  }

  /** Elements of one size: a single seek goes where reading each would. */
  lemma {:induction false} FixedElements(data: Octets, pos: nat, ty: nat, len: nat, depth: nat)
    requires pos <= |data| && FixedSize(ty).Some? && (len > 0 ==> depth <= MAX_DEPTH)
    ensures var end := pos + FixedSize(ty).value * len;
      var r := Elements(data, pos, ty, len, depth, NO_LIMIT);
      (r.Ok? <==> end <= |data|) && (r.Ok? ==> r.pos == end)
    decreases len
  {
    if len == 0 {
    } else {
      var size := FixedSize(ty).value;
      assert size * len == size + size * (len - 1);
      if pos + size <= |data| {
        FixedElements(data, pos + size, ty, len - 1, depth);
      }
    }
  }

  lemma {:induction false} SkipEachAgrees(data: Octets, pos: nat, ty: nat, len: nat, depth: nat)
    requires pos <= |data|
    ensures Agree(data, SkipEach(data, pos, ty, len, depth), Elements(data, pos, ty, len, depth, NO_LIMIT))
    decreases Room(depth), 1, len
  {
    if len == 0 {
    } else {
      SkipValueAgrees(data, pos, ty, depth);
      var first := SkipValueAt(data, pos, ty, depth);
      if first.Ok? {
        if first.pos <= |data| {
          SkipEachAgrees(data, first.pos, ty, len - 1, depth);
        } else {
          SkipEachGrows(data, first.pos, ty, len - 1, depth);
        }
      }
    }
  }

  // ----- the limited read, against the full one -----

  lemma {:induction false} ValueGrows(data: Octets, pos: nat, ty: nat, depth: nat, max: nat)
    ensures var r := ValueAt(data, pos, ty, depth, max);
      r.Ok? ==> pos <= r.pos
    decreases Room(depth), 0, 0
  {
    if depth <= MAX_DEPTH && ty == 9 && ArrayHeader(data, pos).Ok? {
      var head := ArrayHeader(data, pos);
      SkipElementsGrow(data, head.pos, head.value.ty, head.value.len, depth + 1);
      ElementsGrow(data, head.pos, head.value.ty, head.value.len, depth + 1, max);
    }
  }

  lemma {:induction false} ElementsGrow(data: Octets, pos: nat, ty: nat, len: nat, depth: nat, max: nat)
    ensures var r := Elements(data, pos, ty, len, depth, max);
      r.Ok? ==> pos <= r.pos && |r.value| == len
    decreases Room(depth), 1, len
  {
    if len == 0 {
    } else {
      ValueGrows(data, pos, ty, depth, max);
      var first := ValueAt(data, pos, ty, depth, max);
      if first.Ok? {
        ElementsGrow(data, first.pos, ty, len - 1, depth, max);
      }
    }
  }

  /** The fast read gives what the full one gives, pruned, and succeeds without
      it only by ending past the end of the file. */
  predicate Refines<T(==)>(data: Octets, fast: Read<T>, full: Read<T>, pruned: T) {
    (full.Ok? ==> full.pos <= |data| && fast == Ok(pruned, full.pos)) &&
    (fast.Ok? && fast.pos <= |data| ==> full.Ok?)
  }

  function PrunedValue(r: Read<Value>, max: nat): Value {
    if r.Ok? then Prune(r.value, max) else LargeArray(0)
  }

  function PrunedItems(r: Read<seq<Value>>, max: nat): seq<Value> {
    if r.Ok? then PruneAll(r.value, max) else []
  }

  lemma {:induction false} ValueRefines(data: Octets, pos: nat, ty: nat, depth: nat, max: nat)
    requires pos <= |data|
    ensures var full := ValueAt(data, pos, ty, depth, NO_LIMIT);
      Refines(data, ValueAt(data, pos, ty, depth, max), full, PrunedValue(full, max))
    decreases Room(depth), 0, 0
  {
    if depth <= MAX_DEPTH && ty == 9 && ArrayHeader(data, pos).Ok? {
      ArrayRefines(data, pos, depth, max);
    }
  }

  lemma {:induction false} ArrayRefines(data: Octets, pos: nat, depth: nat, max: nat)
    requires pos <= |data| && depth <= MAX_DEPTH && ArrayHeader(data, pos).Ok?
    ensures var full := ValueAt(data, pos, 9, depth, NO_LIMIT);
      Refines(data, ValueAt(data, pos, 9, depth, max), full, PrunedValue(full, max))
    decreases Room(depth + 1), 2, 0
  {
    var head := ArrayHeader(data, pos);
    var (ty, len) := (head.value.ty, head.value.len);
    ElementsGrow(data, head.pos, ty, len, depth + 1, NO_LIMIT);
    if len > max {
      SkipElementsAgree(data, head.pos, ty, len, depth + 1);
    } else {
      ElementsRefine(data, head.pos, ty, len, depth + 1, max);
    }
  }

  lemma {:induction false} ElementsRefine(data: Octets, pos: nat, ty: nat, len: nat, depth: nat, max: nat)
    requires pos <= |data|
    ensures var full := Elements(data, pos, ty, len, depth, NO_LIMIT);
      Refines(data, Elements(data, pos, ty, len, depth, max), full, PrunedItems(full, max))
    decreases Room(depth), 1, len
  {
    if len == 0 {
    } else {
      ValueRefines(data, pos, ty, depth, max);
      var fast := ValueAt(data, pos, ty, depth, max);
      if fast.Ok? {
        if fast.pos <= |data| {
          ElementsRefine(data, fast.pos, ty, len - 1, depth, max);
          var rest := Elements(data, fast.pos, ty, len - 1, depth, NO_LIMIT);
          if rest.Ok? {
            PruneCons(ValueAt(data, pos, ty, depth, NO_LIMIT), rest, max);
          }
        } else {
          ElementsGrow(data, fast.pos, ty, len - 1, depth, max);
        }
      }
    }
  }

  lemma PruneCons(first: Read<Value>, rest: Read<seq<Value>>, max: nat)
    requires first.Ok? && rest.Ok?
    ensures PruneAll([first.value] + rest.value, max) == [Prune(first.value, max)] + PruneAll(rest.value, max)
  {
  }

  // ----- the whole header -----

  function PruneMap(m: map<Octets, Value>, max: nat): map<Octets, Value> {
    map key | key in m :: Prune(m[key], max)
  }

  function PrunedMap(r: Read<map<Octets, Value>>, max: nat): map<Octets, Value> {
    if r.Ok? then PruneMap(r.value, max) else map[]
  }

  lemma {:induction false} MetadataGrows(data: Octets, pos: nat, count: nat, max: nat, known: map<Octets, Value>)
    ensures var r := Metadata(data, pos, count, max, known);
      r.Ok? ==> pos <= r.pos
    decreases count
  {
    if count == 0 || ReadString(data, pos).Err? {
    } else {
      var key := ReadString(data, pos);
      StringGrows(data, pos);
      var ty := ReadUnsigned(data, key.pos, 4);
      if ty.Ok? {
        ReadGrows(data, key.pos, 4);
        var v := ValueAt(data, ty.pos, ty.value, 0, max);
        ValueGrows(data, ty.pos, ty.value, 0, max);
        if v.Ok? {
          MetadataGrows(data, v.pos, count - 1, max, known[key.value := v.value]);
        }
      }
    }
  }

  lemma {:induction false} MetadataRefines(data: Octets, pos: nat, count: nat, max: nat, known: map<Octets, Value>)
    requires pos <= |data|
    ensures var full := Metadata(data, pos, count, NO_LIMIT, known);
      Refines(data, Metadata(data, pos, count, max, PruneMap(known, max)), full, PrunedMap(full, max))
    decreases count
  {
    hide ReadString, ReadUnsigned, ValueAt, PruneMap;
    if count == 0 || ReadString(data, pos).Err? {
    } else {
      var key := ReadString(data, pos);
      StringGrows(data, pos);
      var ty := ReadUnsigned(data, key.pos, 4);
      if ty.Ok? {
        ReadGrows(data, key.pos, 4);
        var fast, full := ValueAt(data, ty.pos, ty.value, 0, max), ValueAt(data, ty.pos, ty.value, 0, NO_LIMIT);
        ValueRefines(data, ty.pos, ty.value, 0, max);
        if full.Ok? {
          MetadataRefines(data, full.pos, count - 1, max, known[key.value := full.value]);
          PruneInsert(known, key.value, full.value, max);
        } else if fast.Ok? {
          MetadataGrows(data, fast.pos, count - 1, max, PruneMap(known, max)[key.value := fast.value]);
        }
      }
    }
  }

  lemma PruneInsert(m: map<Octets, Value>, key: Octets, v: Value, max: nat)
    ensures PruneMap(m[key := v], max) == PruneMap(m, max)[key := Prune(v, max)]
  {
  }

  lemma {:induction false} DimsGrow(data: Octets, pos: nat, rank: nat)
    requires pos <= |data|
    ensures var r := Dims(data, pos, rank);
      r.Ok? ==> pos <= r.pos <= |data| && |r.value| == rank
    decreases rank
  {
    if rank == 0 || ReadUnsigned(data, pos, 8).Err? {
    } else {
      ReadGrows(data, pos, 8);
      DimsGrow(data, ReadUnsigned(data, pos, 8).pos, rank - 1);
    }
  }

  lemma TensorGrows(data: Octets, pos: nat)
    ensures var r := Tensor(data, pos);
      r.Ok? ==> pos <= r.pos <= |data|
  {
    hide ReadString, ReadUnsigned, Dims;
    var name := ReadString(data, pos);
    StringGrows(data, pos);
    if name.Ok? {
      var rank := ReadUnsigned(data, name.pos, 4);
      ReadGrows(data, name.pos, 4);
      if rank.Ok? {
        DimsGrow(data, rank.pos, rank.value);
        var dims := Dims(data, rank.pos, rank.value);
        if dims.Ok? {
          ReadGrows(data, dims.pos, 4);
          ReadGrows(data, dims.pos + 4, 8);
        }
      }
    }
  }

  lemma {:induction false} TensorsGrow(data: Octets, pos: nat, count: nat)
    ensures var r := Tensors(data, pos, count);
      r.Ok? ==> pos <= r.pos && (pos <= |data| ==> r.pos <= |data|)
    decreases count
  {
    hide Tensor;
    if count == 0 || Tensor(data, pos).Err? {
    } else {
      TensorGrows(data, pos);
      TensorsGrow(data, Tensor(data, pos).pos, count - 1);
    }
  }

  lemma PreambleGrows(data: Octets)
    ensures ReadPreamble(data).Ok? ==> ReadPreamble(data).pos == 24 <= |data|
  {
  }

  /** For every file the skipping read succeeds exactly when the full read
      does, with the same tensors, the same end, and the full metadata with
      each long array, at every level, replaced by its length. */
  lemma {:induction false} SkippingRefinesReading(data: Octets, max: nat)
    ensures var fast, full := ReadHeader(data, max), ReadHeader(data, NO_LIMIT);
      (fast.Ok? <==> full.Ok?) &&
      (full.Ok? ==> fast == Ok(full.value.(metadata := PruneMap(full.value.metadata, max)), full.pos))
  {
    hide ReadPreamble, Metadata, Tensors, PruneMap;
    var counts := ReadPreamble(data);
    if counts.Ok? {
      PreambleGrows(data);
      var (p, n, t) := (counts.pos, counts.value.metadataCount, counts.value.tensorCount);
      NothingPruned(max);
      MetadataRefines(data, p, n, max, map[]);
      var fast, full := Metadata(data, p, n, max, map[]), Metadata(data, p, n, NO_LIMIT, map[]);
      if fast.Ok? {
        TensorsGrow(data, fast.pos, t);
      }
    }
  }

  lemma NothingPruned(max: nat)
    ensures PruneMap(map[], max) == map[]
  {
  }

  // ----- the full read skips nothing -----

  predicate Whole(v: Value) {
    match v
    case Array(items) => forall item | item in items :: Whole(item)
    case LargeArray(_) => false
    case _ => true
  }

  lemma {:induction false} FullValueIsWhole(data: Octets, pos: nat, ty: nat, depth: nat)
    ensures var r := ValueAt(data, pos, ty, depth, NO_LIMIT);
      r.Ok? ==> Whole(r.value)
    decreases Room(depth), 0, 0
  {
    if depth <= MAX_DEPTH && ty == 9 && ArrayHeader(data, pos).Ok? {
      var head := ArrayHeader(data, pos);
      FullItemsAreWhole(data, head.pos, head.value.ty, head.value.len, depth + 1);
    }
  }

  lemma {:induction false} FullItemsAreWhole(data: Octets, pos: nat, ty: nat, len: nat, depth: nat)
    ensures var r := Elements(data, pos, ty, len, depth, NO_LIMIT);
      r.Ok? ==> forall item | item in r.value :: Whole(item)
    decreases Room(depth), 1, len
  {
    if len == 0 {
    } else {
      FullValueIsWhole(data, pos, ty, depth);
      var first := ValueAt(data, pos, ty, depth, NO_LIMIT);
      if first.Ok? {
        FullItemsAreWhole(data, first.pos, ty, len - 1, depth);
      }
    }
  }
}
